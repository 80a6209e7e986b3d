/** Character classes and string primitives of ECMAScript that the reply parser and
    the local score rely on: white space as `\s` and `String.prototype.trim` see it,
    decimal digits, `split('\n')`, and `parseInt` on a run of digits. */
module Text {

  /** ECMAScript LineTerminator: the characters a regular-expression `.` does not match. */
  predicate IsLineTerminator(c: char) {
    c == '\n' || c == '\r' || c == '\U{2028}' || c == '\U{2029}'
  }

  /** Any character a regular-expression `.` matches. */
  predicate IsLineChar(c: char) {
    !IsLineTerminator(c)
  }

  /** ECMAScript WhiteSpace and LineTerminator together: the class `\s` denotes and
      the set `trim` removes. */
  predicate IsSpace(c: char) {
    || IsLineTerminator(c)
    || c == '\t' || c == '\U{B}' || c == '\U{C}' || c == ' ' || c == '\U{A0}'
    || c == '\U{1680}' || ('\U{2000}' <= c <= '\U{200A}')
    || c == '\U{202F}' || c == '\U{205F}' || c == '\U{3000}' || c == '\U{FEFF}'
  }

  /** The class `\d` of a regular expression without the `u` flag. */
  predicate IsDigit(c: char) {
    '0' <= c <= '9'
  }

  /** Every character of `s[lo..hi]` satisfies `p`. */
  ghost predicate All(s: string, lo: int, hi: int, p: char -> bool)
    requires 0 <= lo <= hi <= |s|
  {
    forall k :: lo <= k < hi ==> p(s[k])
  }

  /** A property of `s[lo..hi]` read through the slice itself. */
  lemma AllSlice(s: string, lo: nat, hi: nat, p: char -> bool)
    requires lo <= hi <= |s| && All(s, lo, hi, p)
    ensures All(s[lo..hi], 0, hi - lo, p)
  {
    forall k | 0 <= k < hi - lo ensures p(s[lo..hi][k]) {
      assert s[lo..hi][k] == s[lo + k];
    }
  }

  /** Length of the longest run of characters satisfying `p` that starts at `i`:
      what a greedy `p*` consumes from `i`. */
  function Run(s: string, i: nat, p: char -> bool): (n: nat)
    requires i <= |s|
    ensures i + n <= |s|
    ensures All(s, i, i + n, p)
    ensures i + n == |s| || !p(s[i + n])
    decreases |s| - i
  {
    if i < |s| && p(s[i]) then 1 + Run(s, i + 1, p) else 0
  }

  /** A run of `p`-characters that cannot be extended is the one `Run` measures. */
  lemma {:induction false} RunUnique(s: string, i: nat, p: char -> bool, n: nat)
    requires i + n <= |s|
    requires All(s, i, i + n, p)
    requires i + n == |s| || !p(s[i + n])
    ensures n == Run(s, i, p)
    decreases n
  {
    if n > 0 {
      assert p(s[i]);
      RunUnique(s, i + 1, p, n - 1);
    }
  }

  /** A string with no white space at either end. */
  predicate IsTrimmed(s: string) {
    s == [] || (!IsSpace(s[0]) && !IsSpace(s[|s| - 1]))
  }

  /** Where the trailing white space of `s[..hi]` starts: what a greedy `\s*` anchored
      at `hi` consumes, read backwards. */
  function Back(s: string, hi: nat): (b: nat)
    requires hi <= |s|
    ensures b <= hi
    ensures All(s, b, hi, IsSpace)
    ensures b == 0 || !IsSpace(s[b - 1])
  {
    if hi > 0 && IsSpace(s[hi - 1]) then Back(s, hi - 1) else hi
  }

  /** Trailing white space that stops at a non-space character is what `Back` skips. */
  lemma {:induction false} BackUnique(s: string, hi: nat, b: nat)
    requires b <= hi <= |s| && All(s, b, hi, IsSpace)
    requires b == 0 || !IsSpace(s[b - 1])
    ensures Back(s, hi) == b
    decreases hi
  {
    if b < hi {
      assert IsSpace(s[hi - 1]);
      BackUnique(s, hi - 1, b);
    }
  }

  /** Number of white-space characters `trim` drops from the front of `s`. */
  function Lead(s: string): nat
    ensures Lead(s) <= |s|
  {
    Run(s, 0, IsSpace)
  }

  /** `String.prototype.trim`: the infix of `s` left once white space is cut off
      at both ends. */
  function Trim(s: string): (r: string)
    ensures IsTrimmed(r)
    ensures Lead(s) + |r| <= |s| && r == s[Lead(s)..Lead(s) + |r|]
    ensures All(s, 0, Lead(s), IsSpace) && All(s, Lead(s) + |r|, |s|, IsSpace)
  {
    var a := Lead(s);
    if a == |s| then []
    else
      var b := Back(s, |s|);
      assert a < b by {
        assert !IsSpace(s[a]);
      }
      s[a..b]
  }

  /** `trim` is characterised by its contract: any trimmed infix of `s` with only white
      space around it is `Trim(s)`. */
  lemma TrimUnique(s: string, a: nat, b: nat)
    requires a <= b <= |s|
    requires All(s, 0, a, IsSpace) && All(s, b, |s|, IsSpace)
    requires IsTrimmed(s[a..b])
    ensures s[a..b] == Trim(s)
  {
    if a < b {
      assert !IsSpace(s[a]) && !IsSpace(s[b - 1]) by {
        assert s[a..b][0] == s[a];
        assert s[a..b][b - a - 1] == s[b - 1];
      }
      RunUnique(s, 0, IsSpace, a);
      BackUnique(s, |s|, b);
    } else {
      TrimOfBlank(s);
    }
  }

  /** A string of white space trims to nothing. */
  lemma TrimOfBlank(s: string)
    requires All(s, 0, |s|, IsSpace)
    ensures Trim(s) == []
  {
    RunUnique(s, 0, IsSpace, |s|);
  }

  /** Trimming twice is trimming once. */
  lemma TrimIdempotent(s: string)
    ensures Trim(Trim(s)) == Trim(s)
  {
    var r := Trim(s);
    assert r[0..|r|] == r;
    TrimUnique(r, 0, |r|);
  }

  /** The trimmed string is empty exactly when `s` is all white space. */
  lemma TrimEmptyIffBlank(s: string)
    ensures Trim(s) == [] <==> All(s, 0, |s|, IsSpace)
  {
    if All(s, 0, |s|, IsSpace) {
      TrimOfBlank(s);
    }
  }

  /** Text pieces joined with line feeds: the inverse of `Split`. */
  function Join(parts: seq<string>): string
  {
    if |parts| == 0 then []
    else if |parts| == 1 then parts[0]
    else parts[0] + "\n" + Join(parts[1..])
  }

  /** No piece holds a line feed. */
  ghost predicate NoLineFeed(parts: seq<string>) {
    forall k :: 0 <= k < |parts| ==> '\n' !in parts[k]
  }

  /** `s.split('\n')`: the text between consecutive line feeds, always at least one
      piece, empty pieces kept. */
  function Split(s: string): (parts: seq<string>)
    ensures |parts| >= 1
    ensures NoLineFeed(parts)
    ensures Join(parts) == s
  {
    if s == [] then [[]]
    else
      var rest := Split(s[1..]);
      if s[0] == '\n' then
        assert Join([[]] + rest) == "\n" + Join(rest) by {
          assert ([[]] + rest)[1..] == rest;
        }
        [[]] + rest
      else
        var parts := [[s[0]] + rest[0]] + rest[1..];
        assert '\n' !in [s[0]] + rest[0];
        assert Join(parts) == [s[0]] + Join(rest) by {
          if |rest| > 1 {
            assert parts[1..] == rest[1..];
          }
        }
        parts
  }

  /** A piece with no line feed splits to itself. */
  lemma {:induction false} SplitPiece(p: string)
    requires '\n' !in p
    ensures Split(p) == [p]
    decreases |p|
  {
    if p != [] {
      assert '\n' !in p[1..];
      SplitPiece(p[1..]);
      assert [p[0]] + p[1..] == p;
    }
  }

  /** Splitting at the first line feed. */
  lemma {:induction false} SplitAtLineFeed(p: string, t: string)
    requires '\n' !in p
    ensures Split(p + "\n" + t) == [p] + Split(t)
    decreases |p|
  {
    var s := p + "\n" + t;
    if p == [] {
      assert s[1..] == t;
    } else {
      assert s[1..] == p[1..] + "\n" + t;
      assert '\n' !in p[1..];
      SplitAtLineFeed(p[1..], t);
      assert [p[0]] + p[1..] == p;
    }
  }

  /** `Split` undoes `Join` on pieces without line feeds. */
  lemma {:induction false} SplitJoin(parts: seq<string>)
    requires |parts| >= 1 && NoLineFeed(parts)
    ensures Split(Join(parts)) == parts
    decreases |parts|
  {
    if |parts| == 1 {
      SplitPiece(parts[0]);
    } else {
      assert NoLineFeed(parts[1..]) by {
        forall k | 0 <= k < |parts| - 1 ensures '\n' !in parts[1..][k] {
          assert parts[1..][k] == parts[k + 1];
        }
      }
      SplitJoin(parts[1..]);
      SplitAtLineFeed(parts[0], Join(parts[1..]));
      assert [parts[0]] + parts[1..] == parts;
    }
  }

  /** The value of a decimal digit character. */
  function DigitValue(c: char): (d: nat)
    requires IsDigit(c)
    ensures d < 10
  {
    c as int - '0' as int
  }

  /** The character of a decimal digit. */
  function DigitChar(d: nat): (c: char)
    requires d < 10
    ensures IsDigit(c) && DigitValue(c) == d
  {
    ('0' as int + d) as char
  }

  /** `parseInt` applied to a string of decimal digits: the number it denotes, read
      most significant digit first. */
  function DigitsValue(ds: string): nat
    requires All(ds, 0, |ds|, IsDigit)
  {
    if ds == [] then 0
    else
      assert All(ds[..|ds| - 1], 0, |ds| - 1, IsDigit);
      10 * DigitsValue(ds[..|ds| - 1]) + DigitValue(ds[|ds| - 1])
  }

  /** The shortest decimal spelling of `n`. */
  function Decimal(n: nat): (ds: string)
    ensures |ds| >= 1 && All(ds, 0, |ds|, IsDigit)
    ensures ds[0] != '0' || n == 0
  {
    if n < 10 then [DigitChar(n)]
    else
      var hi := Decimal(n / 10);
      assert hi[0] != '0';
      hi + [DigitChar(n % 10)]
  }

  /** Reading back a spelled-out number gives the number. */
  lemma {:induction false} DecimalRoundTrip(n: nat)
    ensures DigitsValue(Decimal(n)) == n
  {
    if n >= 10 {
      DecimalRoundTrip(n / 10);
      var ds := Decimal(n);
      assert ds[..|ds| - 1] == Decimal(n / 10);
    }
  }

  /** Leading zeros do not change the value `parseInt` reads. */
  lemma {:induction false} LeadingZeroIgnored(ds: string)
    requires All(ds, 0, |ds|, IsDigit)
    ensures All("0" + ds, 0, |ds| + 1, IsDigit)
    ensures DigitsValue("0" + ds) == DigitsValue(ds)
    decreases |ds|
  {
    var zs := "0" + ds;
    assert All(zs, 0, |zs|, IsDigit) by {
      forall k | 0 <= k < |zs| ensures IsDigit(zs[k]) {
        if k > 0 { assert zs[k] == ds[k - 1]; }
      }
    }
    if ds != [] {
      var init := ds[..|ds| - 1];
      assert All(init, 0, |init|, IsDigit);
      LeadingZeroIgnored(init);
      assert zs[..|zs| - 1] == "0" + init;
    }
  }
}
