/** Concrete lines and replies run through the parser and the guard: the score
    branch taking precedence over a label that comes first in the line, a template
    line, and a score of 0 that the line sets but the parser rejects. */
module ReplyScenarios {
  import opened Optional
  import opened Text
  import opened ReplyPattern
  import opened ReplyParser

  /** The score pattern cannot start at a character other than the label's first. */
  lemma NoScoreAt(line: string, i: nat)
    requires i < |line| && line[i] != ScoreLabel[0]
    ensures ScoreAt(line, i) == None
  {
  }

  /** The score pattern in `등급: 점수: 85` starts at position 4. */
  lemma GradeLineScoreAt()
    ensures ScoreAt("등급: 점수: 85", 4) == Some(Span(6, 8, 10))
  {
    assert ScoreShape("등급: 점수: 85", 4, Span(6, 8, 10));
  }

  /** The digits of `등급: 점수: 85` read as 85. */
  lemma GradeLineDigits()
    ensures All("등급: 점수: 85"[8..10], 0, 2, IsDigit)
    ensures DigitsValue("등급: 점수: 85"[8..10]) == 85
  {
    assert "등급: 점수: 85"[8..10] == "85";
    assert "85"[..1] == "8";
    assert "8"[..0] == [];
  }

  /** `점수: 85` later in a grade line: the score is read from position 4. */
  lemma ScoreInsideGradeLine()
    ensures ScoreValue("등급: 점수: 85") == Some(85)
  {
    var line := "등급: 점수: 85";
    var m := ScoreMatcher(line);
    assert m(4) == Some(Span(6, 8, 10)) by {
      GradeLineScoreAt();
    }
    assert forall i :: 0 <= i < 4 ==> m(i).None? by {
      forall i | 0 <= i < 4 ensures m(i).None? {
        NoScoreAt(line, i);
      }
    }
    assert Leftmost(m, 0, |line|) == Some((4, Span(6, 8, 10))) by {
      LeftmostFirst(m, 0, |line|, 4);
    }
    GradeLineDigits();
  }

  /** The chain tries the score before the grade: a line that starts with the grade
      label but also holds a score sets the score, and the grade is lost. */
  lemma ScoreBranchComesFirst()
    ensures Classify("등급: 점수: 85") == SetScore(85)
  {
    ScoreInsideGradeLine();
  }

  /** Where the pattern matches in a whole-line score. */
  lemma ScoreLineShape(digits: string)
    requires |digits| >= 1 && All(digits, 0, |digits|, IsDigit)
    ensures ScoreShape(ScoreLabel + ": " + digits, 0, Span(2, 4, 4 + |digits|))
    ensures (ScoreLabel + ": " + digits)[4..] == digits
  {
    var prefix := ScoreLabel + ": ";
    var line := prefix + digits;
    assert |prefix| == 4;
    assert All(line, 4, |line|, IsDigit) by {
      forall k | 4 <= k < |line| ensures IsDigit(line[k]) {
        assert line[k] == digits[k - 4];
      }
    }
    assert line[..2] == ScoreLabel;
  }

  /** A whole-line score sets the score to the value of its digits. */
  lemma ScoreLine(digits: string, n: nat)
    requires |digits| >= 1 && All(digits, 0, |digits|, IsDigit) && DigitsValue(digits) == n
    ensures Classify(ScoreLabel + ": " + digits) == SetScore(n)
  {
    var line := ScoreLabel + ": " + digits;
    var m := ScoreMatcher(line);
    ScoreLineShape(digits);
    assert m(0) == Some(Span(2, 4, |line|));
    assert Leftmost(m, 0, |line|) == Some((0, Span(2, 4, |line|))) by {
      LeftmostFirst(m, 0, |line|, 0);
    }
    assert line[4..|line|] == digits;
  }

  /** A reply whose only line is a score line. */
  lemma ScoreOnlyReply(digits: string, n: nat)
    requires |digits| >= 1 && All(digits, 0, |digits|, IsDigit) && DigitsValue(digits) == n
    ensures Lines(ScoreLabel + ": " + digits) == [ScoreLabel + ": " + digits]
    ensures Classify(ScoreLabel + ": " + digits) == SetScore(n)
    ensures ApplyAll(EmptyReply, [ScoreLabel + ": " + digits]) == Reply(Some(n), map[])
  {
    var line := ScoreLabel + ": " + digits;
    assert '\n' !in line by {
      assert forall k :: 0 <= k < |line| ==> line[k] != '\n' by {
        forall k | 0 <= k < |line| ensures line[k] != '\n' {
          if k >= 4 { assert line[k] == digits[k - 4]; }
        }
      }
    }
    assert line[|line| - 1] == digits[|digits| - 1];
    LinesOfOneLine(line);
    ScoreLine(digits, n);
    assert [line][..0] == [];
  }

  /** A reply that is one score line: the record with that score when it lies in
      1..100, the sentinel otherwise. */
  lemma ParseScoreOnlyReply(digits: string, n: nat)
    requires |digits| >= 1 && All(digits, 0, |digits|, IsDigit) && DigitsValue(digits) == n
    ensures Parse(ScoreLabel + ": " + digits) == if 1 <= n <= 100 then Reply(Some(n), map[]) else NullReply
  {
    var line := ScoreLabel + ": " + digits;
    ScoreOnlyReply(digits, n);
    assert Trim(line) != [] by {
      TrimEmptyIffBlank(line);
      assert !IsSpace(line[0]);
    }
  }

  /** `점수: 0`: the score is read, but 0 is falsy and the parser answers with the
      sentinel. */
  lemma ZeroScoreRejected()
    ensures Parse("점수: 0") == NullReply
  {
    assert DigitsValue("0") == 0 by { assert "0"[..0] == []; }
    ParseScoreOnlyReply("0", 0);
    ZeroLine();
  }

  /** `점수: 0` is the score line of the digit `0`. */
  lemma ZeroLine()
    ensures ScoreLabel + ": " + "0" == "점수: 0"
  {
  }

  /** The digits `75` read as 75. */
  lemma SeventyFiveDigits()
    ensures All("75", 0, 2, IsDigit) && DigitsValue("75") == 75
  {
    assert "75"[..1] == "7";
    assert "7"[..0] == [];
  }

  /** `점수: 75` is the score line of the digits `75`. */
  lemma SeventyFiveLine()
    ensures ScoreLabel + ": " + "75" == "점수: 75"
  {
  }

  /** `점수: 75` on its own is a reply the parser accepts. */
  lemma SeventyFiveParsed()
    ensures Parse("점수: 75") == Reply(Some(75), map[])
  {
    SeventyFiveDigits();
    ParseScoreOnlyReply("75", 75);
    SeventyFiveLine();
  }

  /** The label and colon of the template line `추천물건1: 황금 반지`. */
  lemma TemplateItemHeader()
    ensures HeaderAt("추천물건1: 황금 반지", Label(Rec1), 0) == Some(5)
    ensures HeaderMatches("추천물건1: 황금 반지", Label(Rec1))
  {
    assert HeaderShape("추천물건1: 황금 반지", Label(Rec1), 0, 5);
  }

  /** The group of the template line starts after the one space behind the colon. */
  lemma TemplateItemCapture()
    ensures CaptureStart("추천물건1: 황금 반지", 5) == Some(7)
  {
    assert Run("추천물건1: 황금 반지", 6, IsSpace) == 1;
  }

  /** The group of the template line runs to its end. */
  lemma TemplateItemGroup()
    ensures Group("추천물건1: 황금 반지", 7) == "황금 반지"
  {
    assert Run("추천물건1: 황금 반지", 7, IsLineChar) == 5;
  }

  /** The item text is already trimmed. */
  lemma TrimmedItem()
    ensures Trim("황금 반지") == "황금 반지"
  {
    var v := "황금 반지";
    assert v[0..|v|] == v;
    TrimUnique(v, 0, |v|);
  }

  /** The value pattern of `추천물건1` on its template line. */
  lemma TemplateItemValue()
    ensures TextValue("추천물건1: 황금 반지", Label(Rec1)) == Some("황금 반지")
  {
    var line := "추천물건1: 황금 반지";
    TemplateItemHeader();
    TemplateItemCapture();
    TemplateItemGroup();
    TrimmedItem();
    var m := TextMatcher(line, Label(Rec1));
    assert m(0) == Some("황금 반지");
    LeftmostFirst(m, 0, |line|, 0);
  }

  /** A template line sets its own field and nothing else. */
  lemma TemplateItemLine()
    ensures Classify("추천물건1: 황금 반지") == SetText(Rec1, "황금 반지")
  {
    var line := "추천물건1: 황금 반지";
    NoHeaderWithoutFirstChar(line, ScoreLabel);
    assert FirstLabel(line, Rec1) by {
      forall k | 0 <= k < Rank(Rec1) ensures !HeaderMatches(line, Label(FieldOrder[k])) {
        var key := Label(FieldOrder[k]);
        assert key[0] == '등' || key[0] == '성';
        NoHeaderWithoutFirstChar(line, key);
      }
      TemplateItemHeader();
    }
    TemplateItemValue();
    ClassifyFirstLabel(line, Rec1, "황금 반지");
  }
}
