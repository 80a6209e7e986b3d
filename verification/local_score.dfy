/** The server's local, deterministic-up-to-one-draw score of a name
    (`calculateLocalScore`): a base from the name's length and a Hanja bonus, a
    per-syllable leading-consonant bonus, a random draw, a clamp to 60..100, a grade
    from a threshold ladder and one of four fixed personality profiles. */
module LocalScore {
  import opened Text
  import opened Hangul
  import opened Optional

  /** The grade ladder's three labels. */
  datatype Grade = Excellent | Average | NeedsImprovement

  /** The label the result carries: 우수, 보통 or 개선필요. */
  function GradeLabel(g: Grade): string {
    match g
    case Excellent => "우수"
    case Average => "보통"
    case NeedsImprovement => "개선필요"
  }

  /** The grade a label names, if it is one of the three. */
  function GradeOfLabel(name: string): (g: Option<Grade>)
    ensures g.Some? ==> GradeLabel(g.value) == name
  {
    if name == "우수" then Some(Excellent)
    else if name == "보통" then Some(Average)
    else if name == "개선필요" then Some(NeedsImprovement)
    else None
  }

  /** The three labels are distinct: the label gives back the grade. */
  lemma LabelRecoversGrade(g: Grade)
    ensures GradeOfLabel(GradeLabel(g)) == Some(g)
  {
  }

  /** Position of a grade on the ladder, best first. */
  function GradeRank(g: Grade): nat {
    match g
    case Excellent => 0
    case Average => 1
    case NeedsImprovement => 2
  }

  /** A fixed personality blurb with three recommended and three avoided items. */
  datatype Profile = Profile(
    title: string,
    desc: string,
    recommended: seq<string>,
    avoid: seq<string>)

  /** The four profiles, indexed by score mod 4. */
  const Profiles: seq<Profile> := [
    Profile(
      "리더십이 강한 성향",
      "타고난 지도력과 카리스마를 가지고 있으며, 사람들을 이끄는 능력이 뛰어납니다.",
      ["황금 액세서리", "붉은 보석", "목재 장식품"],
      ["검은 의류", "날카로운 도구", "차가운 금속"]),
    Profile(
      "창의적이고 예술적인 성향",
      "뛰어난 상상력과 창의성을 가지고 있으며, 예술적 감각이 발달되어 있습니다.",
      ["색상 있는 보석", "나비 모양 장식", "꽃무늬 소품"],
      ["무채색 옷", "각진 가구", "인공적인 소재"]),
    Profile(
      "안정적이고 신중한 성향",
      "차분하고 신중한 성격으로 주변 사람들에게 안정감을 주는 든든한 존재입니다.",
      ["자연석 팔찌", "초록색 식물", "둥근 모양 소품"],
      ["너무 밝은 색", "번쩍이는 장식", "소음이 나는 물건"]),
    Profile(
      "활동적이고 에너지 넘치는 성향",
      "왕성한 활동력과 긍정적인 에너지로 주변을 활기차게 만드는 성격입니다.",
      ["스포츠 용품", "밝은 색 액세서리", "움직이는 장식"],
      ["어두운 공간", "무거운 장신구", "정적인 환경"])
  ]

  /** The result record the local computation returns. */
  datatype Analysis = Analysis(
    score: int,
    grade: string,
    personalityTitle: string,
    personalityDesc: string,
    recommended1: string,
    recommended2: string,
    recommended3: string,
    avoid1: string,
    avoid2: string,
    avoid3: string)

  /** Base score by name length in UTF-16 code units. */
  function LengthBase(length: nat): (b: int)
    ensures b == 75 <==> length == 2
    ensures b == 85 <==> length == 3
    ensures b == 80 <==> length == 4
    ensures b == 70 <==> length !in {2, 3, 4}
  {
    if length == 2 then 75
    else if length == 3 then 85
    else if length == 4 then 80
    else 70
  }

  /** A Hanja string counts when it is non-blank after `trim`. */
  predicate HasHanja(hanja: string) {
    |Trim(hanja)| > 0
  }

  /** The base score: the length base plus 5 for a non-blank Hanja string. */
  function BaseScore(name: string, hanja: string): (b: int)
    ensures 70 <= b <= 90
    ensures b - LengthBase(Utf16Length(name)) == (if HasHanja(hanja) then 5 else 0)
  {
    var base := LengthBase(Utf16Length(name));
    if HasHanja(hanja) then base + 5 else base
  }

  /** A Hanja string of white space only earns no bonus. */
  lemma BlankHanjaEarnsNothing(name: string, hanja: string)
    requires All(hanja, 0, |hanja|, IsSpace)
    ensures BaseScore(name, hanja) == BaseScore(name, "")
  {
    TrimOfBlank(hanja);
    TrimOfBlank("");
  }

  /** Bonus of one character: its leading-consonant index mod 3 when it is a Hangul
      syllable, nothing otherwise. */
  function SyllableBonus(c: char): (b: nat)
    ensures b <= 2
    ensures IsSyllable(c) ==> b == LIndex(c) % 3
    ensures !IsSyllable(c) ==> b == 0
  {
    var code := SyllableOffset(c);
    if 0 <= code && code <= 11171 then (code / 588) % 3 else 0
  }

  /** A syllable's bonus depends on its leading consonant only: vowel and trailing
      consonant never change it. */
  lemma SyllableBonusOfComposed(l: nat, v: nat, t: nat)
    requires l < LCount && v < VCount && t < TCount
    ensures SyllableBonus(Compose(l, v, t)) == l % 3
  {
  }

  /** Number of Hangul syllables in `s`. */
  function SyllableCount(s: string): (n: nat)
    ensures n <= |s|
  {
    if s == [] then 0
    else SyllableCount(s[..|s| - 1]) + (if IsSyllable(s[|s| - 1]) then 1 else 0)
  }

  /** The consonant bonus: the sum of the syllable bonuses of the name's characters,
      between 0 and 2 per syllable. */
  function ConsonantBonus(name: string): (b: nat)
    ensures b <= 2 * SyllableCount(name)
  {
    if name == [] then 0
    else ConsonantBonus(name[..|name| - 1]) + SyllableBonus(name[|name| - 1])
  }

  /** The bonus of a concatenation is the sum of the bonuses. */
  lemma {:induction false} ConsonantBonusAppend(a: string, b: string)
    ensures ConsonantBonus(a + b) == ConsonantBonus(a) + ConsonantBonus(b)
    decreases |b|
  {
    if b == [] {
      assert a + b == a;
    } else {
      var b' := b[..|b| - 1];
      assert (a + b)[..|a + b| - 1] == a + b';
      assert (a + b)[|a + b| - 1] == b[|b| - 1];
      ConsonantBonusAppend(a, b');
    }
  }

  /** One character earns its syllable bonus: with `ConsonantBonusAppend` the bonus
      of a name is the sum of `SyllableBonus` over its characters. */
  lemma ConsonantBonusOfChar(c: char)
    ensures ConsonantBonus([c]) == SyllableBonus(c)
  {
  }

  /** Text without Hangul syllables earns no consonant bonus. */
  lemma NoSyllableNoBonus(name: string)
    requires SyllableCount(name) == 0
    ensures ConsonantBonus(name) == 0
  {
  }

  /** `Math.min(hi, Math.max(lo, x))`. */
  function Clamp(lo: int, hi: int, x: int): (y: int)
    requires lo <= hi
    ensures lo <= y <= hi
    ensures lo <= x <= hi ==> y == x
    ensures x < lo ==> y == lo
    ensures x > hi ==> y == hi
  {
    if x < lo then lo else if x > hi then hi else x
  }

  /** The score before clamping, with the draw `r` standing for
      `Math.floor(Math.random() * 10)`. */
  function RawScore(name: string, hanja: string, r: int): int {
    BaseScore(name, hanja) + ConsonantBonus(name) + r - 5
  }

  /** The local score: lies in 60..100 and equals the unclamped score when that does. */
  function Score(name: string, hanja: string, r: int): (s: int)
    requires 0 <= r <= 9
    ensures 60 <= s <= 100
    ensures 60 <= RawScore(name, hanja, r) <= 100 ==> s == RawScore(name, hanja, r)
  {
    Clamp(60, 100, RawScore(name, hanja, r))
  }

  /** The floor of the clamp never acts: the unclamped score is at least 65, so only
      the ceiling of 100 can change it. */
  lemma LowerClampInactive(name: string, hanja: string, r: int)
    requires 0 <= r <= 9
    ensures RawScore(name, hanja, r) >= 65
    ensures Score(name, hanja, r) == if RawScore(name, hanja, r) > 100 then 100 else RawScore(name, hanja, r)
  {
  }

  /** A larger draw never lowers the score and raises it by at most the difference. */
  lemma ScoreMonotoneInDraw(name: string, hanja: string, r1: int, r2: int)
    requires 0 <= r1 <= r2 <= 9
    ensures Score(name, hanja, r1) <= Score(name, hanja, r2) <= Score(name, hanja, r1) + (r2 - r1)
  {
  }

  /** The grade ladder: 우수 from 85, 보통 from 70, 개선필요 below. */
  function GradeOf(score: int): (g: Grade)
    ensures g == Excellent <==> score >= 85
    ensures g == Average <==> 70 <= score < 85
    ensures g == NeedsImprovement <==> score < 70
  {
    if score >= 85 then Excellent else if score >= 70 then Average else NeedsImprovement
  }

  /** A higher score never gets a worse grade. */
  lemma GradeMonotone(s1: int, s2: int)
    requires s1 <= s2
    ensures GradeRank(GradeOf(s2)) <= GradeRank(GradeOf(s1))
  {
  }

  /** The ladder's thresholds, checked one below and at each. */
  lemma GradeBoundaries()
    ensures GradeOf(84) == Average && GradeOf(85) == Excellent
    ensures GradeOf(69) == NeedsImprovement && GradeOf(70) == Average
  {
  }

  /** Every grade occurs for some name and draw; in particular the lowest
      (a one-character non-Hangul name with the smallest draw scores 65). */
  lemma EveryGradeReachable()
    ensures GradeOf(Score("a", "", 0)) == NeedsImprovement
    ensures GradeOf(Score("ab", "", 0)) == Average
    ensures GradeOf(Score("abc", "x", 9)) == Excellent
  {
    assert Utf16Length("a") == 1;
    assert Utf16Length("ab") == 2;
    assert Utf16Length("abc") == 3;
    assert ConsonantBonus("a") == 0 && ConsonantBonus("ab") == 0 && ConsonantBonus("abc") == 0;
    assert Trim("") == [];
    assert Trim("x") == "x";
  }

  /** The record for a score: grade from the ladder, every text from the single
      profile at index score mod 4, items in positions 0, 1, 2. */
  ghost predicate DescribesScore(a: Analysis) {
    var p := Profiles[a.score % 4];
    && a.grade == GradeLabel(GradeOf(a.score))
    && a.personalityTitle == p.title
    && a.personalityDesc == p.desc
    && [a.recommended1, a.recommended2, a.recommended3] == p.recommended
    && [a.avoid1, a.avoid2, a.avoid3] == p.avoid
  }

  /** `calculateLocalScore(name, hanja)` with the draw `r`. */
  function Analyze(name: string, hanja: string, r: int): (a: Analysis)
    requires 0 <= r <= 9
    ensures 60 <= a.score <= 100
    ensures a.score == Score(name, hanja, r)
    ensures DescribesScore(a)
  {
    var s := Score(name, hanja, r);
    var p := Profiles[s % |Profiles|];
    Analysis(s, GradeLabel(GradeOf(s)), p.title, p.desc,
             p.recommended[0], p.recommended[1], p.recommended[2],
             p.avoid[0], p.avoid[1], p.avoid[2])
  }

  /** Everything but the score is decided by the score: two inputs that score the
      same get the same record. */
  lemma AnalysisDeterminedByScore(n1: string, h1: string, r1: int, n2: string, h2: string, r2: int)
    requires 0 <= r1 <= 9 && 0 <= r2 <= 9
    requires Score(n1, h1, r1) == Score(n2, h2, r2)
    ensures Analyze(n1, h1, r1) == Analyze(n2, h2, r2)
  {
  }

  /** The profile index a title names, if it is one of the four. */
  function ProfileIndexOf(title: string): (i: Option<nat>)
    ensures i.Some? ==> i.value < |Profiles| && Profiles[i.value].title == title
  {
    if title == Profiles[0].title then Some(0)
    else if title == Profiles[1].title then Some(1)
    else if title == Profiles[2].title then Some(2)
    else if title == Profiles[3].title then Some(3)
    else None
  }

  /** The four titles are distinct, so the title of a local result gives back
      score mod 4. */
  lemma TitleRecoversProfileIndex(name: string, hanja: string, r: int)
    requires 0 <= r <= 9
    ensures ProfileIndexOf(Analyze(name, hanja, r).personalityTitle) == Some(Score(name, hanja, r) % 4)
  {
    assert |Profiles[0].title| == 10 && |Profiles[1].title| == 13;
    assert |Profiles[2].title| == 12 && |Profiles[3].title| == 16;
  }
}
