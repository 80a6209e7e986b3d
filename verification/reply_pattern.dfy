/** The regular expressions the reply parser runs on one line, as scanners over the
    line with the regular-expression semantics each must agree with stated beside it.

    Every pattern has the shape `label\s*[:：]…`: a fixed Korean key, optional white
    space, an ASCII or a full-width colon, and then either `\s*\d+` (the score) or
    `\s*(.+)` (every text field). `line.match(re)` searches for the leftmost start
    position at which the pattern matches. */
module ReplyPattern {
  import opened Optional
  import opened Text

  /** The text fields of a reply, in the order the parser tries them after the score. */
  datatype Field = Grade | Title | Desc | Rec1 | Rec2 | Rec3 | Avoid1 | Avoid2 | Avoid3

  /** The order of the else-if chain after the score. */
  const FieldOrder: seq<Field> := [Grade, Title, Desc, Rec1, Rec2, Rec3, Avoid1, Avoid2, Avoid3]

  /** Position of a field in the else-if chain. */
  function Rank(f: Field): (k: nat)
    ensures k < |FieldOrder| && FieldOrder[k] == f
  {
    match f
    case Grade => 0
    case Title => 1
    case Desc => 2
    case Rec1 => 3
    case Rec2 => 4
    case Rec3 => 5
    case Avoid1 => 6
    case Avoid2 => 7
    case Avoid3 => 8
  }

  /** `Rank` inverts the chain order. */
  lemma RankOfIndex(k: nat)
    requires k < |FieldOrder|
    ensures Rank(FieldOrder[k]) == k
  {
    match FieldOrder[k]
    case Grade =>
    case Title =>
    case Desc =>
    case Rec1 =>
    case Rec2 =>
    case Rec3 =>
    case Avoid1 =>
    case Avoid2 =>
    case Avoid3 =>
  }

  /** The label of the score line. */
  const ScoreLabel: string := "점수"

  /** The label of each text field. */
  function Label(f: Field): (l: string)
    ensures |l| >= 2
  {
    match f
    case Grade => "등급"
    case Title => "성향제목"
    case Desc => "성향설명"
    case Rec1 => "추천물건1"
    case Rec2 => "추천물건2"
    case Rec3 => "추천물건3"
    case Avoid1 => "피할물건1"
    case Avoid2 => "피할물건2"
    case Avoid3 => "피할물건3"
  }

  /** The class `[:：]`. */
  predicate IsColon(c: char) {
    c == ':' || c == '\U{FF1A}'
  }

  /** `label\s*[:：]` matches at `i` with its colon at `j`. */
  ghost predicate HeaderShape(line: string, key: string, i: nat, j: nat) {
    && i + |key| <= j < |line|
    && line[i..i + |key|] == key
    && All(line, i + |key|, j, IsSpace)
    && IsColon(line[j])
  }

  /** Where `label\s*[:：]` anchored at `i` has its colon: the only position that can. */
  function HeaderAt(line: string, key: string, i: nat): (r: Option<nat>)
    ensures r.Some? ==> HeaderShape(line, key, i, r.value)
    ensures forall j: nat :: HeaderShape(line, key, i, j) ==> r == Some(j)
  {
    var a := i + |key|;
    if a <= |line| && line[i..a] == key then
      var j := a + Run(line, a, IsSpace);
      if j < |line| && IsColon(line[j]) then
        Some(j)
      else
        NoHeaderBeyondRun(line, key, i);
        None
    else
      None
  }

  /** A colon after the key must be the first non-space character after it. */
  lemma NoHeaderBeyondRun(line: string, key: string, i: nat)
    requires i + |key| <= |line| && line[i..i + |key|] == key
    ensures forall j: nat :: HeaderShape(line, key, i, j) ==> j == i + |key| + Run(line, i + |key|, IsSpace)
  {
    var a := i + |key|;
    forall j: nat | HeaderShape(line, key, i, j)
      ensures j == a + Run(line, a, IsSpace)
    {
      RunUnique(line, a, IsSpace, j - a);
    }
  }

  /** Where the digits of a score match lie: the colon, and the half-open range of
      the digits. */
  datatype Span = Span(colon: nat, start: nat, end: nat)

  /** `점수\s*[:：]\s*(\d+)` matches at `i` with the group spanning `start..end`. */
  ghost predicate ScoreShape(line: string, i: nat, s: Span) {
    && HeaderShape(line, ScoreLabel, i, s.colon)
    && s.colon + 1 <= s.start < s.end <= |line|
    && All(line, s.colon + 1, s.start, IsSpace)
    && All(line, s.start, s.end, IsDigit)
    && (s.end == |line| || !IsDigit(line[s.end]))
  }

  /** The score pattern anchored at `i`: its one possible match, if any. */
  function ScoreAt(line: string, i: nat): (r: Option<Span>)
    ensures r.Some? ==> ScoreShape(line, i, r.value)
    ensures forall s :: ScoreShape(line, i, s) ==> r == Some(s)
  {
    match HeaderAt(line, ScoreLabel, i)
    case None =>
      assert forall s :: !ScoreShape(line, i, s) by {
        forall s ensures !ScoreShape(line, i, s) {
          assert !HeaderShape(line, ScoreLabel, i, s.colon);
        }
      }
      None
    case Some(j) =>
      var k := j + 1 + Run(line, j + 1, IsSpace);
      var n := Run(line, k, IsDigit);
      ScoreSpanUnique(line, i, j, k, n);
      if n > 0 then
        ScoreSpanFound(line, i, j, k, n);
        Some(Span(j, k, k + n))
      else
        None
  }

  /** After a header, white space and then at least one digit make a score match. */
  lemma ScoreSpanFound(line: string, i: nat, j: nat, k: nat, n: nat)
    requires HeaderShape(line, ScoreLabel, i, j)
    requires k == j + 1 + Run(line, j + 1, IsSpace) && n == Run(line, k, IsDigit) && n > 0
    ensures ScoreShape(line, i, Span(j, k, k + n))
  {
  }

  /** Digits after the colon start at the first non-space character and run as far
      as they go. */
  lemma ScoreSpanUnique(line: string, i: nat, j: nat, k: nat, n: nat)
    requires HeaderShape(line, ScoreLabel, i, j)
    requires k == j + 1 + Run(line, j + 1, IsSpace) && n == Run(line, k, IsDigit)
    ensures forall s :: ScoreShape(line, i, s) ==> n > 0 && s == Span(j, k, k + n)
  {
    forall s | ScoreShape(line, i, s)
      ensures n > 0 && s == Span(j, k, k + n)
    {
      ScoreSpanIs(line, i, j, s);
    }
  }

  /** One score match, pinned down by its header. */
  lemma ScoreSpanIs(line: string, i: nat, j: nat, s: Span)
    requires HeaderShape(line, ScoreLabel, i, j) && ScoreShape(line, i, s)
    ensures s.colon == j
    ensures s.start == j + 1 + Run(line, j + 1, IsSpace)
    ensures s.end == s.start + Run(line, s.start, IsDigit)
  {
    assert s.colon == j by {
      NoHeaderBeyondRun(line, ScoreLabel, i);
    }
    assert s.start == j + 1 + Run(line, j + 1, IsSpace) by {
      assert !IsSpace(line[s.start]);
      RunUnique(line, j + 1, IsSpace, s.start - (j + 1));
    }
    RunUnique(line, s.start, IsDigit, s.end - s.start);
  }

  /** `(.+)` can start at `k` after the colon at `colon`: only white space lies between
      and `line[k]` is a character `.` matches. */
  ghost predicate Capturable(line: string, colon: nat, k: nat) {
    && colon + 1 <= k < |line|
    && All(line, colon + 1, k, IsSpace)
    && IsLineChar(line[k])
  }

  /** The last index in `lo..hi` holding a character `.` matches. */
  function LastLineChar(line: string, lo: nat, hi: nat): (r: Option<nat>)
    requires lo <= hi <= |line|
    ensures r.Some? ==> lo <= r.value < hi && IsLineChar(line[r.value])
    ensures forall k :: lo <= k < hi && IsLineChar(line[k]) ==> r.Some? && k <= r.value
    decreases hi - lo
  {
    if lo == hi then None
    else if IsLineChar(line[hi - 1]) then Some(hi - 1)
    else LastLineChar(line, lo, hi - 1)
  }

  /** Where `\s*(.+)` after the colon starts its group. The greedy `\s*` first takes all
      the white space; only when nothing follows it does it give characters back, so
      the group starts at the LAST position it can. */
  function CaptureStart(line: string, colon: nat): (r: Option<nat>)
    requires colon < |line|
    ensures r.Some? ==> Capturable(line, colon, r.value)
    ensures forall k: nat :: Capturable(line, colon, k) ==> r.Some? && k <= r.value
  {
    var m := colon + 1;
    var k := m + Run(line, m, IsSpace);
    if k < |line| then
      assert Capturable(line, colon, k);
      Some(k)
    else
      LastLineChar(line, m, |line|)
  }

  /** The group `(.+)` from `k`: the longest run of characters `.` matches. */
  function Group(line: string, k: nat): (g: string)
    requires k < |line| && IsLineChar(line[k])
    ensures |g| >= 1 && k + |g| <= |line| && g == line[k..k + |g|]
    ensures forall c :: c in g ==> IsLineChar(c)
    ensures k + |g| == |line| || !IsLineChar(line[k + |g|])
  {
    var g := line[k..k + Run(line, k, IsLineChar)];
    assert forall c :: c in g ==> IsLineChar(c) by {
      forall c | c in g ensures IsLineChar(c) {
        var t :| 0 <= t < |g| && g[t] == c;
        assert g[t] == line[k + t];
      }
    }
    g
  }

  /** `k` is the last position after the colon at `colon` where `(.+)` can start. */
  ghost predicate LastCapturable(line: string, colon: nat, k: nat) {
    && Capturable(line, colon, k)
    && forall k': nat :: Capturable(line, colon, k') ==> k' <= k
  }

  /** `label\s*[:：]\s*(.+)` anchored at `i`, its group trimmed as the parser does:
      the group starts at the last position it can and runs to the end of the line's
      run of `.` characters. */
  function TextAt(line: string, key: string, i: nat): (r: Option<string>)
    ensures r.Some? <==> exists j: nat, k: nat :: HeaderShape(line, key, i, j) && Capturable(line, j, k)
    ensures r.Some? ==> exists j: nat, k: nat ::
      HeaderShape(line, key, i, j) && LastCapturable(line, j, k) && r.value == Trim(Group(line, k))
    ensures r.Some? ==> IsTrimmed(r.value)
  {
    match HeaderAt(line, key, i)
    case None => None
    case Some(j) =>
      match CaptureStart(line, j)
      case None => None
      case Some(k) =>
        assert HeaderShape(line, key, i, j) && LastCapturable(line, j, k);
        Some(Trim(Group(line, k)))
  }

  /** The leftmost `i` in `from..limit` at which `m` matches, with what it yields. */
  function Leftmost<T>(m: nat -> Option<T>, from: nat, limit: nat): (r: Option<(nat, T)>)
    ensures r.Some? ==> from <= r.value.0 < limit && m(r.value.0) == Some(r.value.1)
    ensures r.Some? ==> forall i :: from <= i < r.value.0 ==> m(i).None?
    ensures r.None? ==> forall i :: from <= i < limit ==> m(i).None?
    decreases limit - from
  {
    if from >= limit then None
    else
      match m(from)
      case Some(v) => Some((from, v))
      case None => Leftmost(m, from + 1, limit)
  }

  /** A position where `m` matches with no match before it is what `Leftmost` finds. */
  lemma {:induction false} LeftmostFirst<T>(m: nat -> Option<T>, from: nat, limit: nat, i: nat)
    requires from <= i < limit && m(i).Some?
    requires forall k :: from <= k < i ==> m(k).None?
    ensures Leftmost(m, from, limit) == Some((i, m(i).value))
    decreases i - from
  {
    if from < i {
      LeftmostFirst(m, from + 1, limit, i);
    }
  }

  /** A header can only start with the first character of its label, so a line
      without that character has none. */
  lemma NoHeaderWithoutFirstChar(line: string, key: string)
    requires |key| > 0 && key[0] !in line
    ensures !HeaderMatches(line, key)
  {
    forall i: nat, j: nat ensures !HeaderShape(line, key, i, j) {
      if i < |line| && i + |key| <= |line| {
        assert line[i..i + |key|][0] == line[i];
      }
    }
  }

  /** The score pattern tried at each start position of `line`. */
  function ScoreMatcher(line: string): nat -> Option<Span> {
    (i: nat) => ScoreAt(line, i)
  }

  /** `key\s*[:：]` tried at each start position of `line`. */
  function HeaderMatcher(line: string, key: string): nat -> Option<nat> {
    (i: nat) => HeaderAt(line, key, i)
  }

  /** `key\s*[:：]\s*(.+)` tried at each start position of `line`. */
  function TextMatcher(line: string, key: string): nat -> Option<string> {
    (i: nat) => TextAt(line, key, i)
  }

  /** The score pattern matches somewhere in the line. */
  ghost predicate ScoreMatches(line: string) {
    exists i: nat, s :: ScoreShape(line, i, s)
  }

  /** `key\s*[:：]` matches somewhere in the line. */
  ghost predicate HeaderMatches(line: string, key: string) {
    exists i: nat, j: nat :: HeaderShape(line, key, i, j)
  }

  /** `key\s*[:：]\s*(.+)` matches somewhere in the line. */
  ghost predicate TextMatches(line: string, key: string) {
    exists i: nat, j: nat, k: nat :: HeaderShape(line, key, i, j) && Capturable(line, j, k)
  }

  /** `line.match(/점수\s*[:：]\s*(\d+)/)`: the value of the digits of the leftmost match. */
  function ScoreValue(line: string): (r: Option<nat>)
    ensures r.Some? <==> ScoreMatches(line)
    ensures r.Some? ==> exists i: nat, s :: && ScoreShape(line, i, s)
                                            && (forall i': nat, s' :: i' < i ==> !ScoreShape(line, i', s'))
                                            && r.value == DigitsValue(line[s.start..s.end])
  {
    var m := ScoreMatcher(line);
    match Leftmost(m, 0, |line|)
    case Some((i, s)) =>
      assert ScoreShape(line, i, s);
      assert forall i': nat, s' :: i' < i ==> !ScoreShape(line, i', s') by {
        forall i': nat, s' | i' < i ensures !ScoreShape(line, i', s') {
          assert m(i').None?;
        }
      }
      AllSlice(line, s.start, s.end, IsDigit);
      Some(DigitsValue(line[s.start..s.end]))
    case None =>
      assert forall i: nat, s :: !ScoreShape(line, i, s) by {
        forall i: nat, s ensures !ScoreShape(line, i, s) {
          if i < |line| {
            assert m(i).None?;
          }
        }
      }
      None
  }

  /** `label\s*[:：]` occurs somewhere in the line (the test each branch makes). */
  function HasHeader(line: string, key: string): (b: bool)
    ensures b <==> HeaderMatches(line, key)
  {
    var m := HeaderMatcher(line, key);
    var r := Leftmost(m, 0, |line|);
    if r.Some? then
      assert HeaderShape(line, key, r.value.0, r.value.1);
      true
    else
      assert forall i: nat, j: nat :: !HeaderShape(line, key, i, j) by {
        forall i: nat, j: nat ensures !HeaderShape(line, key, i, j) {
          if i < |line| {
            assert m(i).None?;
          }
        }
      }
      false
  }

  /** `line.match(/label\s*[:：]\s*(.+)/)`: the trimmed group of the leftmost match. */
  function TextValue(line: string, key: string): (r: Option<string>)
    ensures r.Some? <==> TextMatches(line, key)
    ensures r.Some? ==> exists i: nat :: && TextAt(line, key, i) == r
                                         && forall i': nat :: i' < i ==> TextAt(line, key, i').None?
    ensures r.Some? ==> IsTrimmed(r.value)
  {
    var m := TextMatcher(line, key);
    match Leftmost(m, 0, |line|)
    case Some((i, v)) =>
      assert TextAt(line, key, i) == Some(v);
      assert forall i': nat :: i' < i ==> TextAt(line, key, i').None? by {
        forall i': nat | i' < i ensures TextAt(line, key, i').None? {
          assert m(i').None?;
        }
      }
      Some(v)
    case None =>
      assert forall i: nat, j: nat, k: nat :: !(HeaderShape(line, key, i, j) && Capturable(line, j, k)) by {
        forall i: nat, j: nat, k: nat ensures !(HeaderShape(line, key, i, j) && Capturable(line, j, k)) {
          if i < |line| {
            assert m(i).None?;
          }
        }
      }
      None
  }
}
