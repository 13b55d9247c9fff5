/** What trimming and reading numbers mean, said of the texts themselves
    (src/db/dbapi.c:181-208, 230-240). */
module TextRules {
  import opened Basics
  import opened Text

  /** Space, tab, newline, vertical tab, form feed and carriage return. */
  lemma SpaceIs(c: char)
    ensures IsSpace(c) <==> c in {' ', '\t', '\n', '\U{0B}', '\U{0C}', '\r'}
  {
  }

  predicate AllSpace(s: Str) {
    forall i :: 0 <= i < |s| ==> IsSpace(s[i])
  }

  /** Not empty, with no whitespace at either end. */
  predicate Firm(s: Str) {
    s != [] && !IsSpace(s[0]) && !IsSpace(s[|s| - 1])
  }

  lemma {:induction false} SkipsFront(a: Str, s: Str)
    requires AllSpace(a) && (s == [] || !IsSpace(s[0]))
    ensures SkipSpace(a + s) == s
  {
    if a == [] {
      assert a + s == s;
    } else {
      assert (a + s)[0] == a[0] && (a + s)[1..] == a[1..] + s;
      SkipsFront(a[1..], s);
    }
  }

  lemma {:induction false} DropsBack(s: Str, b: Str)
    requires AllSpace(b) && (s == [] || !IsSpace(s[|s| - 1]))
    ensures DropSpace(s + b) == s
  {
    if b == [] {
      assert s + b == s;
    } else {
      var n := |b| - 1;
      assert (s + b)[|s + b| - 1] == b[n] && (s + b)[..|s + b| - 1] == s + b[..n];
      DropsBack(s, b[..n]);
    }
  }

  lemma Bared(a: Str, s: Str, b: Str)
    requires AllSpace(a) && AllSpace(b) && Firm(s)
    ensures DropSpace(SkipSpace(a + (s + b))) == s
  {
    assert (s + b)[0] == s[0];
    SkipsFront(a, s + b);
    DropsBack(s, b);
  }

  /** Trimming takes the whitespace around a value and nothing else ... */
  lemma TrimBare(a: Str, s: Str, b: Str)
    requires AllSpace(a) && AllSpace(b) && Firm(s) && !(|s| >= 2 && s[0] == '\'' && s[|s| - 1] == '\'')
    ensures Trim(a + (s + b)) == s
  {
    Bared(a, s, b);
  }

  /** ... and then one pair of quotes, inside which everything stays. */
  lemma TrimQuoted(a: Str, s: Str, b: Str)
    requires AllSpace(a) && AllSpace(b)
    ensures Trim(a + ((['\''] + s + ['\'']) + b)) == s
  {
    var q := ['\''] + s + ['\''];
    Bared(a, q, b);
    assert q[1..|q| - 1] == s;
  }

  lemma {:induction false} SkipsAll(s: Str)
    requires AllSpace(s)
    ensures SkipSpace(s) == []
  {
    if s != [] {
      SkipsAll(s[1..]);
    }
  }

  lemma TrimNothing(s: Str)
    requires AllSpace(s)
    ensures Trim(s) == []
  {
    SkipsAll(s);
  }

  /** A text under the size of the buffer is normalised by trimming, a longer one by
      trimming what fits. */
  lemma NormIs(s: Str, n: nat)
    requires n > 0
    ensures Norm(s, n) == Trim(if |s| < n then s else s[..n - 1])
  {
  }

  // ------------------------------------------------------------ numbers

  predicate AllDigits(ds: Str) {
    forall i :: 0 <= i < |ds| ==> IsDigit(ds[i])
  }

  /** The decimal value of a list of digits. */
  lemma ValuePush(s: Str, d: char)
    requires AllDigits(s) && d in {'0', '1', '2', '3', '4', '5', '6', '7', '8', '9'}
    ensures AllDigits(s + [d]) && Value(s + [d]) == 10 * Value(s) + (d as int - '0' as int)
  {
    assert (s + [d])[..|s|] == s;
  }

  function Signed(neg: bool, v: int): Option<int> {
    var x := if neg then -v else v;
    if -0x8000_0000_0000_0000 <= x < 0x8000_0000_0000_0000 then Some(x) else None
  }

  lemma DigitsRead(ds: Str)
    requires ds != [] && AllDigits(ds)
    ensures Strtol(ds) == Signed(false, Value(ds)) && Firm(ds)
  {
    assert IsDigit(ds[0]) && IsDigit(ds[|ds| - 1]);
  }

  lemma SignRead(c: char, ds: Str)
    requires ds != [] && AllDigits(ds) && (c == '-' || c == '+')
    ensures Strtol([c] + ds) == Signed(c == '-', Value(ds)) && Firm([c] + ds)
  {
    var s := [c] + ds;
    assert IsDigit(ds[|ds| - 1]) && s[|s| - 1] == ds[|ds| - 1] && s[1..] == ds;
    assert SkipSpace(s) == s;
  }

  /** A number with whitespace around it is read, up to the range of a long ... */
  lemma NumberReads(a: Str, sign: Option<char>, ds: Str, b: Str)
    requires AllSpace(a) && AllSpace(b) && ds != [] && AllDigits(ds) && (sign == None || sign == Some('+') || sign == Some('-'))
    requires |a| + |ds| + |b| < 255
    ensures var text := if sign == None then ds else [sign.value] + ds; ParseL(a + (text + b)) == Signed(sign == Some('-'), Value(ds))
  {
    if sign == None {
      DigitsRead(ds);
      TrimmedReads(a, ds, b);
    } else {
      SignRead(sign.value, ds);
      TrimmedReads(a, [sign.value] + ds, b);
    }
  }

  lemma TrimmedReads(a: Str, s: Str, b: Str)
    requires AllSpace(a) && AllSpace(b) && Firm(s) && s[0] != '\'' && |a| + |s| + |b| <= 255
    ensures ParseL(a + (s + b)) == Strtol(s)
  {
    TrimBare(a, s, b);
    assert Cut(a + (s + b), 256) == a + (s + b);
  }

  /** ... and nothing but a sign and digits is. */
  lemma OnlyNumbersRead(s: Str) returns (sign: Str, ds: Str)
    requires ParseL(s).Some?
    ensures (sign == [] || sign == ['+'] || sign == ['-']) && ds != [] && AllDigits(ds)
    ensures SkipSpace(Norm(s, 256)) == sign + ds && ParseL(s) == Signed(sign == ['-'], Value(ds))
  {
    var t := SkipSpace(Norm(s, 256));
    if t[0] == '-' || t[0] == '+' {
      sign, ds := [t[0]], t[1..];
      assert t == [t[0]] + t[1..];
    } else {
      sign, ds := [], t;
    }
  }
}
