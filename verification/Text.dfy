/** Text as the engine handles it: C strings, trimming, comparison and numbers
    (src/db/dbapi.c:181-240). */
module Text {
  import opened Basics

  /** The text of a C string, without its terminator. */
  type Str = seq<char>

  predicate IsSpace(c: char) {
    c as int == 32 || 9 <= c as int <= 13
  }

  function SkipSpace(s: Str): (r: Str)
    ensures r == [] || !IsSpace(r[0])
    ensures |r| <= |s| && (r != [] ==> s != [] && r[|r| - 1] == s[|s| - 1])
  {
    if s != [] && IsSpace(s[0]) then SkipSpace(s[1..]) else s
  }

  function DropSpace(s: Str): (r: Str)
    ensures r == [] || !IsSpace(r[|r| - 1])
    ensures |r| <= |s| && (r != [] ==> s != [] && r[0] == s[0])
  {
    if s != [] && IsSpace(s[|s| - 1]) then DropSpace(s[..|s| - 1]) else s
  }

  predicate Quoted(s: Str) {
    |s| >= 2 && s[0] == '\'' && s[|s| - 1] == '\''
  }

  /** trim_uq: outer whitespace goes, then one pair of quotes. */
  function Trim(s: Str): (r: Str)
    ensures |r| <= |s|
  {
    var t := DropSpace(SkipSpace(s));
    if Quoted(t) then t[1..|t| - 1] else t
  }

  /** strncpy into a buffer of n bytes. */
  function Cut(s: Str, n: nat): (r: Str)
    requires n > 0
    ensures |r| < n && (|s| < n ==> r == s)
  {
    if |s| < n then s else s[..n - 1]
  }

  /** norm_v. */
  function Norm(s: Str, n: nat): (r: Str)
    requires n > 0
    ensures |r| < n
  {
    Trim(Cut(s, n))
  }

  // ------------------------------------------------------------ order

  /** strcmp(a, b) < 0. */
  predicate Less(a: Str, b: Str) {
    b != [] && (a == [] || a[0] < b[0] || (a[0] == b[0] && Less(a[1..], b[1..])))
  }

  predicate AtMost(a: Str, b: Str) {
    a == b || Less(a, b)
  }

  /** More than there are characters. */
  const BASE: int := 0x110001

  function Pow(n: nat): (r: nat)
    ensures r > 0
  {
    if n == 0 then 1 else BASE * Pow(n - 1)
  }

  /** A text of at most n characters read as a number of n digits, the end of the text as
      zeros.  A tree over these numbers compares as a tree over texts does. */
  function Rank(s: Str, n: nat): (r: nat)
    requires |s| <= n
    ensures r < Pow(n)
    decreases n
  {
    if s == [] then 0
    else
      var rest := Rank(s[1..], n - 1);
      Digit(Code(s[0]), rest, Pow(n - 1));
      Code(s[0]) * Pow(n - 1) + rest
  }

  function Code(c: char): int {
    1 + c as int
  }

  lemma Digit(d: int, rest: int, p: int)
    requires 0 <= d < BASE && 0 <= rest < p
    ensures 0 <= d * p + rest < BASE * p
  {
    MulLe(d, BASE - 1, p);
    assert (BASE - 1) * p + p == BASE * p;
  }

  lemma DigitLess(a: int, b: int, x: int, y: int, p: int)
    requires a < b && 0 <= x < p && 0 <= y < p
    ensures a * p + x < b * p + y
  {
    assert a * p + p == (a + 1) * p <= b * p;
  }

  /** strcmp on texts is the order of their ranks. */
  lemma {:induction false} RankOrder(a: Str, b: Str, n: nat)
    requires |a| <= n && |b| <= n
    ensures Less(a, b) <==> Rank(a, n) < Rank(b, n)
    ensures a == b <==> Rank(a, n) == Rank(b, n)
    decreases n
  {
    if a != [] && b != [] {
      RankOrder(a[1..], b[1..], n - 1);
      if a[0] < b[0] {
        DigitLess(Code(a[0]), Code(b[0]), Rank(a[1..], n - 1), Rank(b[1..], n - 1), Pow(n - 1));
      } else if b[0] < a[0] {
        DigitLess(Code(b[0]), Code(a[0]), Rank(b[1..], n - 1), Rank(a[1..], n - 1), Pow(n - 1));
      } else {
        assert a == [a[0]] + a[1..] && b == [b[0]] + b[1..];
      }
    } else if b != [] {
      DigitLess(0, Code(b[0]), 0, Rank(b[1..], n - 1), Pow(n - 1));
    } else if a != [] {
      DigitLess(0, Code(a[0]), 0, Rank(a[1..], n - 1), Pow(n - 1));
    }
  }

  // ------------------------------------------------------------ numbers

  const LONG_MIN: int := -0x8000_0000_0000_0000
  const LONG_END: int := 0x8000_0000_0000_0000

  predicate IsDigit(c: char) {
    48 <= c as int <= 57
  }

  predicate Digits(s: Str) {
    s != [] && forall i :: 0 <= i < |s| ==> IsDigit(s[i])
  }

  function Value(s: Str): (v: int)
    requires forall i :: 0 <= i < |s| ==> IsDigit(s[i])
    ensures v >= 0
  {
    if s == [] then 0
    else
      assert IsDigit(s[|s| - 1]);
      10 * Value(s[..|s| - 1]) + ((s[|s| - 1] as int) - 48)
  }

  function InRange(v: int): Option<int> {
    if LONG_MIN <= v < LONG_END then Some(v) else None
  }

  /** strtol in base 10, when it reads the whole text and stays in range. */
  function Strtol(s: Str): Option<int> {
    var t := SkipSpace(s);
    if t != [] && (t[0] == '-' || t[0] == '+') then
      if !Digits(t[1..]) then None else InRange(if t[0] == '-' then -Value(t[1..]) else Value(t[1..]))
    else if !Digits(t) then None
    else InRange(Value(t))
  }

  /** parse_l: the number a field holds, looking at its first 255 bytes. */
  function ParseL(s: Str): (r: Option<int>)
    ensures r.Some? ==> LONG_MIN <= r.value < LONG_END
  {
    Strtol(Norm(s, 256))
  }

  lemma {:induction false} SkipSpaceTwice(s: Str)
    ensures SkipSpace(SkipSpace(s)) == SkipSpace(s)
  {
    if s != [] && IsSpace(s[0]) {
      SkipSpaceTwice(s[1..]);
    }
  }

  lemma {:induction false} DropSpaceEnds(s: Str)
    requires s == [] || !IsSpace(s[|s| - 1])
    ensures DropSpace(s) == s
  {
  }

  /** A text that reads as a number ends in a digit and starts with no quote. */
  lemma StrtolShape(s: Str)
    requires Strtol(s).Some?
    ensures s != [] && IsDigit(s[|s| - 1])
    ensures SkipSpace(s) != [] && (IsDigit(SkipSpace(s)[0]) || SkipSpace(s)[0] == '-' || SkipSpace(s)[0] == '+')
  {
    var t := SkipSpace(s);
    if t[0] == '-' || t[0] == '+' {
      assert t[|t| - 1] == t[1..][|t| - 2];
    }
    assert s[|s| - 1] == t[|t| - 1];
  }

  /** Trimming a number once more does not change it. */
  lemma TrimmedNumber(v: Str)
    requires Strtol(v).Some?
    ensures Strtol(Trim(v)) == Strtol(v)
  {
    StrtolShape(v);
    var t := SkipSpace(v);
    assert t[|t| - 1] == v[|v| - 1];
    DropSpaceEnds(t);
    SkipSpaceTwice(v);
  }

  /** A field stored trimmed reads as the field did, if it has at most 255 bytes. */
  lemma TrimKeepsNumber(s: Str)
    requires |s| <= 255 && ParseL(s).Some?
    ensures ParseL(Trim(s)) == ParseL(s)
  {
    assert Cut(s, 256) == s && Cut(Trim(s), 256) == Trim(s);
    TrimmedNumber(Trim(s));
  }

  lemma {:induction false} SpacesSkipped(s: Str, n: nat)
    requires n <= |s| && forall i :: 0 <= i < n ==> s[i] == ' '
    ensures SkipSpace(s) == SkipSpace(s[n..])
  {
    if n > 0 {
      SpacesSkipped(s[1..], n - 1);
      assert s[1..][n - 1..] == s[n..];
    } else {
      assert s[0..] == s;
    }
  }

  /** With 256 bytes it need not: the digit past the 255th byte is not seen. */
  lemma LongField(s: Str)
    requires |s| == 256 && s[|s| - 2] == '1' && s[|s| - 1] == '2' && forall i :: 0 <= i < |s| - 2 ==> s[i] == ' '
    ensures ParseL(s) == Some(1) && Trim(s) == ['1', '2'] && ParseL(Trim(s)) == Some(12)
  {
    var n := |s| - 2;
    SpacesSkipped(s, n);
    assert s[n..] == [s[n], s[n + 1]];
    var c := s[..n + 1];
    SpacesSkipped(c, n);
    assert c[n..] == [s[n]];
    assert Value(['1']) == 1 by { assert ['1'][..0] == []; }
    assert Value(['1', '2']) == 12 by { assert ['1', '2'][..1] == ['1']; }
    assert Trim(c) == ['1'];
    assert Trim(s) == ['1', '2'];
  }

  // ------------------------------------------------------------ printing numbers

  function DigitChar(d: int): (c: char)
    requires 0 <= d < 10
    ensures c as int == 48 + d && IsDigit(c)
  {
    (48 + d) as char
  }

  function Decimal(n: nat): (s: Str)
    ensures Digits(s)
  {
    if n < 10 then [DigitChar(n)] else Decimal(n / 10) + [DigitChar(n % 10)]
  }

  /** printf with %ld. */
  function Show(n: int): Str {
    if n < 0 then ['-'] + Decimal(-n) else Decimal(n)
  }

  lemma {:induction false} DecimalValue(n: nat)
    ensures Value(Decimal(n)) == n
  {
    if n >= 10 {
      DecimalValue(n / 10);
      assert Decimal(n)[..|Decimal(n)| - 1] == Decimal(n / 10);
    } else {
      assert [DigitChar(n)][..0] == [];
    }
  }

  function Ten(k: nat): nat {
    if k == 0 then 1 else 10 * Ten(k - 1)
  }

  lemma {:induction false} DecimalLength(n: nat, k: nat)
    requires n < Ten(k) && k > 0
    ensures |Decimal(n)| <= k
  {
    if n >= 10 {
      DecimalLength(n / 10, k - 1);
    }
  }

  lemma LongLength(n: nat)
    requires n <= LONG_END
    ensures |Decimal(n)| <= 19
  {
    assert Ten(4) == 10000;
    assert Ten(8) == 10000 * 10000;
    assert Ten(12) == 10000 * Ten(8) && Ten(16) == 10000 * Ten(12);
    assert Ten(19) == 1000 * Ten(16) > n;
    DecimalLength(n, 19);
  }

  lemma ShowTrimmed(n: int)
    ensures Trim(Show(n)) == Show(n) && SkipSpace(Show(n)) == Show(n)
  {
    var s, d := Show(n), Decimal(if n < 0 then -n else n);
    assert IsDigit(d[|d| - 1]) && IsDigit(d[0]);
    assert s[|s| - 1] == d[|d| - 1];
    DropSpaceEnds(s);
  }

  lemma ShowStrtol(n: int)
    requires LONG_MIN <= n < LONG_END
    ensures Strtol(Show(n)) == Some(n)
  {
    ShowTrimmed(n);
    if n < 0 {
      DecimalValue(-n);
      assert Show(n)[1..] == Decimal(-n);
    } else {
      DecimalValue(n);
      assert IsDigit(Decimal(n)[0]);
    }
  }

  /** A printed number reads back, in every position a number is read from, and is not
      changed by trimming. */
  lemma ShowReads(n: int)
    requires LONG_MIN <= n < LONG_END
    ensures ParseL(Show(n)) == Some(n) && Trim(Show(n)) == Show(n) && |Show(n)| <= 20
  {
    LongLength(if n < 0 then -n else n);
    ShowStrtol(n);
    ShowTrimmed(n);
  }

  // ------------------------------------------------------------ places in a text

  /** The text e stands at position i. */
  ghost predicate HasAt(s: Str, i: nat, e: Str) {
    i + |e| <= |s| && forall k :: 0 <= k < |e| ==> s[i + k] == e[k]
  }

  lemma HasAtSplit(s: Str, i: nat, a: Str, b: Str)
    requires HasAt(s, i, a + b)
    ensures HasAt(s, i, a) && HasAt(s, i + |a|, b)
  {
    forall k | 0 <= k < |a| ensures s[i + k] == a[k] {
      assert (a + b)[k] == a[k];
    }
    forall k | 0 <= k < |b| ensures s[i + |a| + k] == b[k] {
      assert (a + b)[|a| + k] == b[k];
      assert s[i + (|a| + k)] == (a + b)[|a| + k];
    }
  }
}
