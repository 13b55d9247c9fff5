/** JSON strings: what buf_jsn in src/api/resp.c prints and what scan_str in
    src/api/route.c reads back. */
module Json {
  import opened Basics
  import opened Text

  function Hex(d: int): char
    requires 0 <= d < 16
  {
    if d < 10 then (48 + d) as char else (87 + d) as char
  }

  predicate Simple(c: char) {
    c as int >= 32 || c == '\n' || c == '\r' || c == '\t'
  }

  /** The escape of one character. */
  function Esc(c: char): (e: string)
    ensures |e| > 0
  {
    if c == '"' || c == '\\' then ['\\', c]
    else if c == '\n' then ['\\', 'n']
    else if c == '\r' then ['\\', 'r']
    else if c == '\t' then ['\\', 't']
    else if c as int < 32 then ['\\', 'u', '0', '0', Hex(c as int / 16), Hex(c as int % 16)]
    else [c]
  }

  function Escape(s: string): string {
    if s == [] then [] else Esc(s[0]) + Escape(s[1..])
  }

  /** A JSON string: the escaped text in quotes. */
  function Print(s: string): string {
    ['"'] + Escape(s) + ['"']
  }

  /** The first quote from position i on that no backslash escapes, -1 if none. */
  function CloseAt(s: string, i: nat, esc: bool): (q: int)
    ensures q == -1 || i <= q < |s|
    decreases |s| - i
  {
    if i >= |s| then -1
    else if !esc && s[i] == '"' then i
    else CloseAt(s, i + 1, !esc && s[i] == '\\')
  }

  function Un(c: char): char {
    if c == 'n' then '\n' else if c == 'r' then '\r' else if c == 't' then '\t' else c
  }

  /** The second loop of scan_str. */
  function Decode(t: string): string {
    if t == [] then []
    else if t[0] == '\\' && |t| > 1 then [Un(t[1])] + Decode(t[2..])
    else [t[0]] + Decode(t[1..])
  }

  /** What comes back for one character: itself, or the letters of a \u escape. */
  function Back(c: char): string {
    if Simple(c) then [c] else ['u', '0', '0', Hex(c as int / 16), Hex(c as int % 16)]
  }

  function Returned(s: string): string {
    if s == [] then [] else Back(s[0]) + Returned(s[1..])
  }

  // ------------------------------------------------------------ reading back

  lemma HexIsPlain(d: int)
    requires 0 <= d < 16
    ensures Hex(d) != '\\' && Hex(d) != '"'
  {
  }

  lemma DecodeEsc(c: char, rest: string)
    ensures Decode(Esc(c) + rest) == Back(c) + Decode(rest)
  {
    if |Esc(c)| == 1 {
      DecodePlain(c, rest);
    } else if |Esc(c)| == 2 {
      DecodePair(Esc(c)[1], rest);
    } else {
      HexIsPlain(c as int / 16);
      HexIsPlain(c as int % 16);
      DecodeU(['0', '0', Hex(c as int / 16), Hex(c as int % 16)], rest);
    }
  }

  lemma DecodePlain(c: char, rest: string)
    requires c != '\\'
    ensures Decode([c] + rest) == [c] + Decode(rest)
  {
    assert ([c] + rest)[1..] == rest;
  }

  lemma DecodePair(c: char, rest: string)
    ensures Decode(['\\', c] + rest) == [Un(c)] + Decode(rest)
  {
    assert (['\\', c] + rest)[2..] == rest;
  }

  lemma {:induction false} DecodePlains(p: string, rest: string)
    requires forall i :: 0 <= i < |p| ==> p[i] != '\\'
    ensures Decode(p + rest) == p + Decode(rest)
  {
    if p == [] {
      assert p + rest == rest;
    } else {
      DecodePlains(p[1..], rest);
      DecodePlain(p[0], p[1..] + rest);
      assert p == [p[0]] + p[1..];
      Assoc([p[0]], p[1..], rest);
      Assoc([p[0]], p[1..], Decode(rest));
    }
  }

  /** The backslash of a \u escape goes, its other letters stay. */
  lemma DecodeU(p: string, rest: string)
    requires |p| == 4 && forall i :: 0 <= i < |p| ==> p[i] != '\\'
    ensures Decode(['\\', 'u', p[0], p[1], p[2], p[3]] + rest) == ['u', p[0], p[1], p[2], p[3]] + Decode(rest)
  {
    assert ['\\', 'u', p[0], p[1], p[2], p[3]] + rest == ['\\', 'u'] + (p + rest);
    DecodePair('u', p + rest);
    DecodePlains(p, rest);
    Assoc(['u'], p, Decode(rest));
  }

  lemma {:induction false} DecodeEscape(s: string)
    ensures Decode(Escape(s)) == Returned(s)
  {
    if s != [] {
      DecodeEscape(s[1..]);
      DecodeEsc(s[0], Escape(s[1..]));
    }
  }

  /** The scan passes over an escaped character without stopping. */
  lemma CloseSkipsEsc(s: string, i: nat, c: char)
    requires HasAt(s, i, Esc(c))
    ensures CloseAt(s, i, false) == CloseAt(s, i + |Esc(c)|, false)
  {
    var e := Esc(c);
    assert s[i + 0] == e[0];
    if |e| >= 2 {
      assert s[i + 1] == e[1];
      assert CloseAt(s, i, false) == CloseAt(s, i + 1, true);
      assert CloseAt(s, i + 1, true) == CloseAt(s, i + 2, false);
      if |e| == 6 {
        HexIsPlain(c as int / 16);
        HexIsPlain(c as int % 16);
        assert s[i + 2] == e[2] && s[i + 3] == e[3] && s[i + 4] == e[4] && s[i + 5] == e[5];
        assert CloseAt(s, i + 2, false) == CloseAt(s, i + 3, false);
        assert CloseAt(s, i + 3, false) == CloseAt(s, i + 4, false);
        assert CloseAt(s, i + 4, false) == CloseAt(s, i + 5, false);
        assert CloseAt(s, i + 5, false) == CloseAt(s, i + 6, false);
      }
    }
  }

  lemma {:induction false} CloseSkips(s: string, i: nat, t: string)
    requires HasAt(s, i, Escape(t))
    ensures CloseAt(s, i, false) == CloseAt(s, i + |Escape(t)|, false)
    decreases t
  {
    if t != [] {
      HasAtSplit(s, i, Esc(t[0]), Escape(t[1..]));
      CloseSkipsEsc(s, i, t[0]);
      CloseSkips(s, i + |Esc(t[0])|, t[1..]);
    }
  }

  /** What scan_str finds in a text that starts with a printed string, whatever follows:
      the string with its \u escapes undone halfway, and the place right after it. */
  lemma ScanPrinted(s: string, tail: string)
    ensures var text := Print(s) + tail;
            && CloseAt(text, 1, false) == 1 + |Escape(s)|
            && Decode(text[1..1 + |Escape(s)|]) == Returned(s)
            && text[2 + |Escape(s)|..] == tail
  {
    var text := Print(s) + tail;
    assert text[1..1 + |Escape(s)|] == Escape(s);
    forall k | 0 <= k < |Escape(s)| ensures text[1 + k] == Escape(s)[k] {
      assert text[1..1 + |Escape(s)|][k] == Escape(s)[k];
    }
    CloseSkips(text, 1, s);
    assert text[1 + |Escape(s)|] == '"';
    DecodeEscape(s);
  }

  /** A string comes back unchanged exactly when its only control characters are newline,
      carriage return and tab. */
  lemma {:induction false} ReturnedIff(s: string)
    ensures |Returned(s)| >= |s|
    ensures Returned(s) == s <==> forall i :: 0 <= i < |s| ==> Simple(s[i])
  {
    if s != [] {
      ReturnedIff(s[1..]);
      assert s == [s[0]] + s[1..];
      if Simple(s[0]) {
        assert Returned(s)[1..] == Returned(s[1..]);
        assert (forall i :: 0 <= i < |s| ==> Simple(s[i])) <==> (forall i :: 0 <= i < |s[1..]| ==> Simple(s[1..][i])) by {
          assert forall i :: 0 < i < |s| ==> s[i] == s[1..][i - 1];
        }
      } else {
        assert |Returned(s)| == 5 + |Returned(s[1..])|;
        assert !Simple(s[0]);
      }
    }
  }

  lemma EscapeStep(was: string, text: string, i: nat)
    requires i < |text|
    ensures was + Escape(text[i..]) == was + Esc(text[i]) + Escape(text[i + 1..])
  {
    assert text[i..][1..] == text[i + 1..];
  }

  lemma InQuotes(was: string, t: string)
    ensures was + ['"'] + t + ['"'] == was + (['"'] + t + ['"'])
  {
  }

  lemma DecodeStep(out: string, t: string)
    requires t != []
    ensures t[0] == '\\' && |t| > 1 ==> out + Decode(t) == out + [Un(t[1])] + Decode(t[2..])
    ensures !(t[0] == '\\' && |t| > 1) ==> out + Decode(t) == out + [t[0]] + Decode(t[1..])
  {
    if t[0] == '\\' && |t| > 1 {
      Assoc(out, [Un(t[1])], Decode(t[2..]));
    } else {
      Assoc(out, [t[0]], Decode(t[1..]));
    }
  }

  // ------------------------------------------------------------ the buffer

  /** Buf in src/api/resp.h: a growable, terminated text. */
  class Buf {
    var data: array<char>
    var len: nat

    ghost predicate Valid()
      reads this, data
    {
      if data.Length == 0 then len == 0 else len < data.Length && data[len] == '\0'
    }

    ghost function Text(): string
      requires Valid()
      reads this, data
    {
      data[..len]
    }

    constructor ()
      ensures Valid() && Text() == [] && fresh(data)
    {
      data := new char[0];
      len := 0;
    }

    /** buf_grow. */
    method Grow(need: nat)
      requires Valid()
      modifies this`data
      ensures len + need + 1 <= data.Length && data[..len] == old(data[..len]) && (data == old(data) || fresh(data))
    {
      if len + need + 1 <= data.Length {
        return;
      }
      var cap := if data.Length == 0 then 256 else data.Length;
      while len + need + 1 > cap
        invariant cap > 0
        decreases len + need + 1 - cap
      {
        cap := cap * 2;
      }
      var fresh_ := new char[cap](_ => '\0');
      var i := 0;
      while i < len
        invariant 0 <= i <= len <= data.Length && data == old(data) && data[..len] == old(data[..len])
        invariant fresh_[..i] == data[..i]
      {
        fresh_[i] := data[i];
        i := i + 1;
      }
      data := fresh_;
    }

    /** buf_chr. */
    method Chr(c: char)
      requires Valid()
      modifies this, data
      ensures Valid() && Text() == old(Text()) + [c] && (data == old(data) || fresh(data))
    {
      Grow(1);
      data[len] := c;
      len := len + 1;
      data[len] := '\0';
    }

    /** buf_put, and buf_fmt with the text already formatted. */
    method Put(text: string)
      requires Valid()
      modifies this, data
      ensures Valid() && Text() == old(Text()) + text && (data == old(data) || fresh(data))
    {
      Grow(|text|);
      var i := 0;
      while i < |text|
        invariant 0 <= i <= |text| && len == old(len) && len + |text| + 1 <= data.Length && (data == old(data) || fresh(data))
        invariant data[..len + i] == old(Text()) + text[..i]
      {
        data[len + i] := text[i];
        i := i + 1;
      }
      len := len + |text|;
      data[len] := '\0';
    }

    /** buf_jsn. */
    method Jsn(text: string)
      requires Valid()
      modifies this, data
      ensures Valid() && Text() == old(Text()) + Print(text) && (data == old(data) || fresh(data))
    {
      ghost var start := Text();
      Chr('"');
      JsnChars(text);
      Chr('"');
      InQuotes(start, Escape(text));
    }

    /** The loop of buf_jsn. */
    method JsnChars(text: string)
      requires Valid()
      modifies this, data
      ensures Valid() && Text() == old(Text()) + Escape(text) && (data == old(data) || fresh(data))
    {
      ghost var goal := Text() + Escape(text);
      assert text[0..] == text;
      var i := 0;
      while i < |text|
        invariant 0 <= i <= |text| && Valid() && (data == old(data) || fresh(data))
        invariant Text() + Escape(text[i..]) == goal
      {
        EscapeStep(Text(), text, i);
        JsnChar(text[i]);
        i := i + 1;
      }
      assert Text() + [] == Text();
    }

    method JsnChar(c: char)
      requires Valid()
      modifies this, data
      ensures Valid() && Text() == old(Text()) + Esc(c) && (data == old(data) || fresh(data))
    {
      if c == '"' || c == '\\' {
        Chr('\\');
        Chr(c);
      } else if c == '\n' {
        Put("\\n");
      } else if c == '\r' {
        Put("\\r");
      } else if c == '\t' {
        Put("\\t");
      } else if c as int < 32 {
        Put(['\\', 'u', '0', '0', Hex(c as int / 16), Hex(c as int % 16)]);
      } else {
        Chr(c);
      }
    }
  }

  /** scan_str: 0 if there is no string, else the decoded text and where to go on. */
  method ScanStr(text: string, start: nat) returns (ok: bool, out: string, next: nat)
    requires start <= |text|
    ensures ok <==> start < |text| && text[start] == '"' && CloseAt(text, start + 1, false) >= 0
    ensures ok ==> var q := CloseAt(text, start + 1, false); out == Decode(text[start + 1..q]) && next == q + 1
  {
    ok, out, next := false, [], start;
    if start == |text| || text[start] != '"' {
      return;
    }
    var end := FindClose(text, start + 1);
    if end < 0 {
      return;
    }
    out := DecodeText(text[start + 1..end]);
    ok, next := true, end + 1;
  }

  /** The first loop of scan_str. */
  method FindClose(text: string, start: nat) returns (q: int)
    requires start <= |text|
    ensures q == CloseAt(text, start, false)
  {
    q := start;
    var esc := false;
    while q < |text|
      invariant start <= q <= |text| && CloseAt(text, q, esc) == CloseAt(text, start, false)
    {
      if !esc && text[q] == '"' {
        return;
      }
      esc := !esc && text[q] == '\\';
      q := q + 1;
    }
    q := -1;
  }

  /** The second loop of scan_str. */
  method DecodeText(t: string) returns (out: string)
    ensures out == Decode(t)
  {
    out := [];
    var p := 0;
    assert t[0..] == t;
    while p < |t|
      invariant 0 <= p <= |t| && out + Decode(t[p..]) == Decode(t)
    {
      DecodeStep(out, t[p..]);
      if t[p] == '\\' && p + 1 < |t| {
        assert t[p..][2..] == t[p + 2..];
        p := p + 1;
        if t[p] == 'n' {
          out := out + ['\n'];
        } else if t[p] == 'r' {
          out := out + ['\r'];
        } else if t[p] == 't' {
          out := out + ['\t'];
        } else {
          out := out + [t[p]];
        }
      } else {
        assert t[p..][1..] == t[p + 1..];
        out := out + [t[p]];
      }
      p := p + 1;
    }
  }
}
