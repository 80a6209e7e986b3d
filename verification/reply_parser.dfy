/** `parseGeminiResponse`: the reply of the external model is split into trimmed,
    non-empty lines; each line runs through an else-if chain of label patterns
    (score first, then the text fields in a fixed order) and sets at most one field
    of a record; the record is kept only when its score is in 1..100, otherwise the
    parser answers with the `score: null` sentinel. */
module ReplyParser {
  import opened Optional
  import opened Text
  import opened ReplyPattern

  /** The parsed record: every property may be missing. */
  datatype Reply = Reply(score: Option<nat>, texts: map<Field, string>)

  /** The record before any line is read: no property set. */
  const EmptyReply: Reply := Reply(None, map[])

  /** `{ score: null }`: the parser's "no usable reply" answer. Like the empty record
      it carries no score and no text. */
  const NullReply: Reply := Reply(None, map[])

  /** What a line does, decided by the first branch of the chain whose test matches. */
  datatype Effect =
    | SetScore(n: nat)          // the score pattern matched
    | SetText(f: Field, v: string) // the first matching label's value pattern matched too
    | LabelOnly(f: Field)       // a label matched but its value pattern did not: nothing is set
    | NoLabel                   // no branch matched

  /** Field `f` is the first in the chain whose label test matches the line. */
  ghost predicate FirstLabel(line: string, f: Field) {
    && HeaderMatches(line, Label(f))
    && forall k :: 0 <= k < Rank(f) ==> !HeaderMatches(line, Label(FieldOrder[k]))
  }

  /** Only one field can be the first whose label matches. */
  lemma FirstLabelUnique(line: string, f: Field, g: Field)
    requires FirstLabel(line, f) && FirstLabel(line, g)
    ensures f == g
  {
    assert FieldOrder[Rank(f)] == f && FieldOrder[Rank(g)] == g;
  }

  /** The label tests of the chain after the score, tried in order. */
  function LabelMatcher(line: string): nat -> Option<Field> {
    (k: nat) => if k < |FieldOrder| && HasHeader(line, Label(FieldOrder[k])) then Some(FieldOrder[k]) else None
  }

  /** The first field of the chain whose label test matches, if any. */
  function FirstField(line: string): (r: Option<Field>)
    ensures r.Some? ==> FirstLabel(line, r.value)
    ensures r.None? ==> forall f :: !HeaderMatches(line, Label(f))
  {
    var m := LabelMatcher(line);
    match Leftmost(m, 0, |FieldOrder|)
    case None =>
      assert forall f :: !HeaderMatches(line, Label(f)) by {
        forall f ensures !HeaderMatches(line, Label(f)) {
          assert m(Rank(f)).None?;
        }
      }
      None
    case Some((k, f)) =>
      RankOfIndex(k);
      assert FirstLabel(line, f) by {
        forall k' | 0 <= k' < Rank(f) ensures !HeaderMatches(line, Label(FieldOrder[k'])) {
          assert m(k').None?;
        }
      }
      Some(f)
  }

  /** The else-if chain of one line. */
  function Classify(line: string): (e: Effect)
    ensures e.SetScore? <==> ScoreMatches(line)
    ensures e.SetScore? ==> ScoreValue(line) == Some(e.n)
    ensures e.SetText? ==> TextValue(line, Label(e.f)) == Some(e.v)
    ensures (e.SetText? || e.LabelOnly?) ==> !ScoreMatches(line) && FirstLabel(line, e.f)
    ensures e.SetText? ==> TextMatches(line, Label(e.f)) && IsTrimmed(e.v)
    ensures e.LabelOnly? ==> !TextMatches(line, Label(e.f))
    ensures e.NoLabel? <==> !ScoreMatches(line) && forall f :: !HeaderMatches(line, Label(f))
  {
    match ScoreValue(line)
    case Some(n) => SetScore(n)
    case None =>
      match FirstField(line)
      case None => NoLabel
      case Some(f) =>
        match TextValue(line, Label(f))
        case Some(v) => SetText(f, v)
        case None => LabelOnly(f)
  }

  /** Conversely, a line without a score whose first matching label is `f` and whose
      value pattern for `f` yields `v` sets exactly `f` to `v`. */
  lemma ClassifyFirstLabel(line: string, f: Field, v: string)
    requires !ScoreMatches(line) && FirstLabel(line, f)
    requires TextValue(line, Label(f)) == Some(v)
    ensures Classify(line) == SetText(f, v)
  {
    var e := Classify(line);
    assert e.SetText? || e.LabelOnly?;
    FirstLabelUnique(line, e.f, f);
  }

  /** The effect applied to the record: at most one property changes, the others
      keep their values. */
  function Apply(rec: Reply, e: Effect): (r: Reply)
    ensures e.SetScore? ==> r.score == Some(e.n) && r.texts == rec.texts
    ensures e.SetText? ==> r.score == rec.score && e.f in r.texts && r.texts[e.f] == e.v
    ensures e.SetText? ==> r.texts.Keys == rec.texts.Keys + {e.f}
    ensures e.SetText? ==> forall g :: g in rec.texts && g != e.f ==> r.texts[g] == rec.texts[g]
    ensures e.LabelOnly? || e.NoLabel? ==> r == rec
  {
    match e
    case SetScore(n) => rec.(score := Some(n))
    case SetText(f, v) => rec.(texts := rec.texts[f := v])
    case LabelOnly(_) => rec
    case NoLabel => rec
  }

  /** The record after the lines have been processed in order (`lines.forEach`). */
  function ApplyAll(rec: Reply, lines: seq<string>): Reply
  {
    if lines == [] then rec
    else Apply(ApplyAll(rec, lines[..|lines| - 1]), Classify(lines[|lines| - 1]))
  }

  /** The value of the last line that sets the score. */
  function LastScore(lines: seq<string>): Option<nat>
  {
    if lines == [] then None
    else match Classify(lines[|lines| - 1])
      case SetScore(n) => Some(n)
      case _ => LastScore(lines[..|lines| - 1])
  }

  /** The value of the last line that sets field `f`. */
  function LastText(lines: seq<string>, f: Field): Option<string>
  {
    if lines == [] then None
    else match Classify(lines[|lines| - 1])
      case SetText(g, v) => if g == f then Some(v) else LastText(lines[..|lines| - 1], f)
      case _ => LastText(lines[..|lines| - 1], f)
  }

  /** The fold keeps the score of the last line that sets one, and the starting
      score where no line does. */
  lemma {:induction false} ApplyAllKeepsLastScore(rec: Reply, lines: seq<string>)
    ensures ApplyAll(rec, lines).score == (if LastScore(lines).Some? then LastScore(lines) else rec.score)
    decreases |lines|
  {
    if lines != [] {
      ApplyAllKeepsLastScore(rec, lines[..|lines| - 1]);
    }
  }

  /** The fold keeps, for field `f`, the value of the last line that sets it, and the
      starting value where no line does. */
  lemma {:induction false} ApplyAllKeepsLastText(rec: Reply, lines: seq<string>, f: Field)
    ensures LastText(lines, f).Some? ==>
      f in ApplyAll(rec, lines).texts && ApplyAll(rec, lines).texts[f] == LastText(lines, f).value
    ensures LastText(lines, f).None? ==>
      (f in ApplyAll(rec, lines).texts <==> f in rec.texts) &&
      (f in rec.texts ==> ApplyAll(rec, lines).texts[f] == rec.texts[f])
    decreases |lines|
  {
    if lines != [] {
      var init := lines[..|lines| - 1];
      var prev := ApplyAll(rec, init);
      var e := Classify(lines[|lines| - 1]);
      assert ApplyAll(rec, lines) == Apply(prev, e);
      ApplyAllKeepsLastText(rec, init, f);
      if e.SetText? && e.f == f {
        assert LastText(lines, f) == Some(e.v);
      } else {
        assert LastText(lines, f) == LastText(init, f);
        assert (f in Apply(prev, e).texts <==> f in prev.texts) by {
          if e.SetText? {
            assert Apply(prev, e).texts.Keys == prev.texts.Keys + {e.f};
          }
        }
      }
    }
  }

  /** The fold keeps, for the score and for every field, the value written by the
      last line that sets it, and the starting value where no line does. */
  lemma ApplyAllKeepsLastWrite(rec: Reply, lines: seq<string>)
    ensures ApplyAll(rec, lines).score == (if LastScore(lines).Some? then LastScore(lines) else rec.score)
    ensures forall f :: LastText(lines, f).Some? ==>
      f in ApplyAll(rec, lines).texts && ApplyAll(rec, lines).texts[f] == LastText(lines, f).value
    ensures forall f :: LastText(lines, f).None? ==>
      (f in ApplyAll(rec, lines).texts <==> f in rec.texts) &&
      (f in rec.texts ==> ApplyAll(rec, lines).texts[f] == rec.texts[f])
  {
    ApplyAllKeepsLastScore(rec, lines);
    forall f {
      ApplyAllKeepsLastText(rec, lines, f);
    }
  }

  /** A line no branch matches leaves the record as it is. */
  lemma UnmatchedLineIgnored(rec: Reply, lines: seq<string>, line: string)
    requires !ScoreMatches(line) && forall f :: !HeaderMatches(line, Label(f))
    ensures ApplyAll(rec, lines + [line]) == ApplyAll(rec, lines)
  {
    assert (lines + [line])[..|lines|] == lines;
  }

  /** The trimmed, non-empty pieces, in order. */
  function NonBlank(parts: seq<string>): (lines: seq<string>)
    ensures forall k :: 0 <= k < |lines| ==> lines[k] != [] && IsTrimmed(lines[k])
  {
    if parts == [] then []
    else
      var t := Trim(parts[0]);
      (if t == [] then [] else [t]) + NonBlank(parts[1..])
  }

  /** `response.split('\n').map(trim).filter(non-empty)`. */
  function Lines(response: string): (lines: seq<string>)
    ensures forall k :: 0 <= k < |lines| ==> lines[k] != [] && IsTrimmed(lines[k])
  {
    NonBlank(Split(response))
  }

  /** Pieces that are already trimmed and non-empty all survive, in order. */
  lemma {:induction false} NonBlankKeepsLines(ls: seq<string>)
    requires forall k :: 0 <= k < |ls| ==> ls[k] != [] && IsTrimmed(ls[k])
    ensures NonBlank(ls) == ls
    decreases |ls|
  {
    if ls != [] {
      assert ls[0][0..|ls[0]|] == ls[0];
      TrimUnique(ls[0], 0, |ls[0]|);
      NonBlankKeepsLines(ls[1..]);
      assert [ls[0]] + ls[1..] == ls;
    }
  }

  /** Pieces that are non-blank are each kept as their trimmed form, in order:
      white space around a line, a carriage return included, is cut off. */
  lemma {:induction false} NonBlankTrimsEach(ps: seq<string>)
    requires forall k :: 0 <= k < |ps| ==> Trim(ps[k]) != []
    ensures NonBlank(ps) == seq(|ps|, k requires 0 <= k < |ps| => Trim(ps[k]))
    decreases |ps|
  {
    if ps != [] {
      var rest := ps[1..];
      assert NonBlank(ps) == [Trim(ps[0])] + NonBlank(rest);
      NonBlankTrimsEach(rest);
      var trimmed := seq(|ps|, k requires 0 <= k < |ps| => Trim(ps[k]));
      assert trimmed == [Trim(ps[0])] + seq(|rest|, k requires 0 <= k < |rest| => Trim(rest[k]));
    }
  }

  /** `NonBlank` works piece by piece: the lines of a concatenation are the lines of
      the first part followed by the lines of the second. */
  lemma {:induction false} NonBlankAppend(a: seq<string>, b: seq<string>)
    ensures NonBlank(a + b) == NonBlank(a) + NonBlank(b)
    decreases |a|
  {
    if a == [] {
      assert a + b == b;
    } else {
      var t := Trim(a[0]);
      var head := if t == [] then [] else [t];
      assert NonBlank(a + b) == head + NonBlank(a[1..] + b) by {
        assert (a + b)[0] == a[0];
        assert (a + b)[1..] == a[1..] + b;
      }
      NonBlankAppend(a[1..], b);
    }
  }

  /** The lines of a reply written line by line are exactly those lines: every
      non-blank piece of `split('\n')` is kept, trimmed, in order. */
  lemma LinesOfJoin(ls: seq<string>)
    requires |ls| >= 1 && NoLineFeed(ls)
    requires forall k :: 0 <= k < |ls| ==> ls[k] != [] && IsTrimmed(ls[k])
    ensures Lines(Join(ls)) == ls
  {
    SplitJoin(ls);
    NonBlankKeepsLines(ls);
  }

  /** White space splits into pieces of white space. */
  lemma {:induction false} SplitOfBlank(s: string)
    requires All(s, 0, |s|, IsSpace)
    ensures forall k :: 0 <= k < |Split(s)| ==> All(Split(s)[k], 0, |Split(s)[k]|, IsSpace)
    decreases |s|
  {
    if s != [] {
      assert All(s[1..], 0, |s| - 1, IsSpace);
      SplitOfBlank(s[1..]);
      var rest := Split(s[1..]);
      if s[0] != '\n' {
        var p := [s[0]] + rest[0];
        assert All(p, 0, |p|, IsSpace) by {
          forall t | 0 <= t < |p| ensures IsSpace(p[t]) {
            if t > 0 { assert p[t] == rest[0][t - 1]; }
          }
        }
        assert Split(s) == [p] + rest[1..];
      }
    }
  }

  /** Pieces of white space leave no lines. */
  lemma {:induction false} NonBlankOfBlank(parts: seq<string>)
    requires forall k :: 0 <= k < |parts| ==> All(parts[k], 0, |parts[k]|, IsSpace)
    ensures NonBlank(parts) == []
    decreases |parts|
  {
    if parts != [] {
      TrimOfBlank(parts[0]);
      NonBlankOfBlank(parts[1..]);
    }
  }

  /** A reply of white space only has no lines. */
  lemma LinesOfBlank(s: string)
    requires All(s, 0, |s|, IsSpace)
    ensures Lines(s) == []
  {
    SplitOfBlank(s);
    NonBlankOfBlank(Split(s));
  }

  /** A single trimmed line is its own and only line. */
  lemma LinesOfOneLine(line: string)
    requires line != [] && IsTrimmed(line) && '\n' !in line
    ensures Lines(line) == [line]
  {
    SplitPiece(line);
    assert [line][1..] == [];
    assert line[0..|line|] == line;
    TrimUnique(line, 0, |line|);
    assert NonBlank([line]) == [line] + NonBlank([]);
  }

  /** `parseGeminiResponse(response)`: the record the lines build when its score lies
      in 1..100 (a score of 0 is falsy and rejected), otherwise the null sentinel. */
  function Parse(response: string): (r: Reply)
    ensures r.score.None? ==> r == NullReply
    ensures r.score.Some? ==> 1 <= r.score.value <= 100
  {
    if Trim(response) == [] then NullReply
    else
      var rec := ApplyAll(EmptyReply, Lines(response));
      if rec.score.Some? && rec.score.value != 0 && 1 <= rec.score.value <= 100 then rec
      else NullReply
  }

  /** The parser accepts a reply exactly when its last score line holds a value in
      1..100, and then every field holds the value of its last line. */
  lemma ParseIsLastWrite(response: string)
    ensures Parse(response).score.Some? <==>
      LastScore(Lines(response)).Some? && 1 <= LastScore(Lines(response)).value <= 100
    ensures Parse(response).score.Some? ==>
      Parse(response).score == LastScore(Lines(response)) &&
      forall f :: (f in Parse(response).texts <==> LastText(Lines(response), f).Some?) &&
                  (f in Parse(response).texts ==> Parse(response).texts[f] == LastText(Lines(response), f).value)
  {
    ApplyAllKeepsLastWrite(EmptyReply, Lines(response));
    if Trim(response) == [] {
      TrimEmptyIffBlank(response);
      LinesOfBlank(response);
    }
  }

  /** The three ways to the sentinel: a blank reply, no score line, or a last score
      outside 1..100 (0 included). */
  lemma ParseSentinelCases(response: string)
    ensures Parse(response) == NullReply <==>
      || All(response, 0, |response|, IsSpace)
      || LastScore(Lines(response)).None?
      || !(1 <= LastScore(Lines(response)).value <= 100)
  {
    ParseIsLastWrite(response);
    TrimEmptyIffBlank(response);
    if All(response, 0, |response|, IsSpace) {
      LinesOfBlank(response);
    }
  }
}
