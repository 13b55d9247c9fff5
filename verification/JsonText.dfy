/** A printed JSON string, letter by letter (src/api/resp.c:70-91, src/api/route.c:232-267;
    section 7 of RFC 8259). */
module JsonText {
  import opened Json

  /** The hexadecimal digits. */
  lemma HexIs(d: int)
    requires 0 <= d < 16
    ensures Hex(d) == "0123456789abcdef"[d]
  {
  }

  /** Every character's escape. */
  lemma EscIs(c: char)
    ensures c == '"' ==> Esc(c) == "\\\""
    ensures c == '\\' ==> Esc(c) == "\\\\"
    ensures c == '\n' ==> Esc(c) == "\\n"
    ensures c == '\r' ==> Esc(c) == "\\r"
    ensures c == '\t' ==> Esc(c) == "\\t"
    ensures c as int < 32 && c != '\n' && c != '\r' && c != '\t' ==>
              Esc(c) == "\\u00" + ["0123456789abcdef"[c as int / 16], "0123456789abcdef"[c as int % 16]]
    ensures c as int >= 32 && c != '"' && c != '\\' ==> Esc(c) == [c]
  {
    if c as int < 32 {
      HexIs(c as int / 16);
      HexIs(c as int % 16);
    }
  }

  /** The text of a string is that of its characters, one after another, in quotes. */
  lemma {:induction false} PrintPush(s: string, c: char)
    ensures Escape(s + [c]) == Escape(s) + Esc(c)
    ensures Escape("") == "" && Print(s) == "\"" + Escape(s) + "\""
  {
    if s == [] {
      assert s + [c] == [c] && [c][1..] == s;
      assert Esc(c) + Escape([]) == Escape(s) + Esc(c);
    } else {
      PrintPush(s[1..], c);
      assert (s + [c])[1..] == s[1..] + [c];
      assert Esc(s[0]) + (Escape(s[1..]) + Esc(c)) == Esc(s[0]) + Escape(s[1..]) + Esc(c);
    }
  }

  /** A printed string is valid JSON: no control characters. */
  lemma {:induction false} NoControls(s: string)
    ensures forall i :: 0 <= i < |Escape(s)| ==> Escape(s)[i] as int >= 32
  {
    if s != [] {
      NoControls(s[1..]);
    }
  }

  /** Reading undoes the short escapes, and takes any other escaped character as it is. */
  lemma DecodeIs(c: char, rest: string)
    ensures Decode("\\n" + rest) == "\n" + Decode(rest)
    ensures Decode("\\r" + rest) == "\r" + Decode(rest)
    ensures Decode("\\t" + rest) == "\t" + Decode(rest)
    ensures c !in {'n', 'r', 't'} ==> Decode(['\\', c] + rest) == [c] + Decode(rest)
    ensures c != '\\' ==> Decode([c] + rest) == [c] + Decode(rest)
  {
    DecodePair('n', rest);
    DecodePair('r', rest);
    DecodePair('t', rest);
    DecodePair(c, rest);
    if c != '\\' {
      DecodePlain(c, rest);
    }
  }
}
