/** Spacing, the case of keywords and the quoting of values make no difference to what the
    SQL reader reads (src/legacy/lexer.c:21-102, src/legacy/parser.c:26-220). */
module SqlSpelling {
  import opened Basics
  import opened Text
  import opened EngineSpec
  import opened Sql
  import opened TextRules

  // ------------------------------------------------------------ spelling tokens

  predicate IsNumeral(w: Str) {
    w != [] && |w| < TEXT_SIZE && IsDigit(w[0]) && forall i :: 0 <= i < |w| ==> IsWordChar(w[i])
  }

  /** A token and one of its spellings: keywords in any case, names, numerals, symbols, and
      quoted texts. */
  predicate Spells(w: Str, t: Tok) {
    if t.kind == Literal then w == ['\''] + t.text + ['\''] && |t.text| < TEXT_SIZE && forall i :: 0 <= i < |t.text| ==> t.text[i] != '\''
    else if t.kind == Number then w == t.text && IsNumeral(w)
    else if IsSymbol(t.kind) then w == t.text == Word(t.kind)
    else w == t.text && IsWord(w) && t.kind == KeywordOf(w)
  }

  /** A token of a text: the whitespace in front of it, and its spelling. */
  datatype Piece = Piece(gap: Str, text: Str, tok: Tok)

  /** Names, keywords and numerals: where one follows another there is whitespace between. */
  predicate Wordy(t: Tok) {
    t.kind != Literal && !IsSymbol(t.kind)
  }

  predicate PieceOk(p: Piece) {
    AllSpace(p.gap) && Spells(p.text, p.tok)
  }

  ghost predicate Apart(ps: seq<Piece>) {
    && (forall i :: 0 <= i < |ps| ==> PieceOk(ps[i]))
    && forall i :: 0 < i < |ps| && Wordy(ps[i - 1].tok) && Wordy(ps[i].tok) ==> ps[i].gap != []
  }

  /** The text of the pieces, with whitespace at its end. */
  function TextOf(ps: seq<Piece>, end: Str): Str {
    if ps == [] then end else ps[0].gap + (ps[0].text + TextOf(ps[1..], end))
  }

  function TokensOf(ps: seq<Piece>): (ts: seq<Tok>)
    ensures |ts| == |ps| && forall i :: 0 <= i < |ps| ==> ts[i] == ps[i].tok
  {
    seq(|ps|, i requires 0 <= i < |ps| => ps[i].tok)
  }

  // ------------------------------------------------------------ reading them

  lemma SpelledSomething(w: Str, t: Tok)
    requires Spells(w, t)
    ensures w != [] && t.kind != Eof && !IsSpace(w[0]) && (w[0] as int < 128)
    ensures !Wordy(t) ==> !IsWordChar(w[0])
  {
  }

  /** What follows a piece does not prolong its word. */
  lemma {:induction false} Follows(ps: seq<Piece>, end: Str)
    requires ps != [] && Apart(ps) && AllSpace(end) && Wordy(ps[0].tok)
    ensures var rest := TextOf(ps[1..], end); rest != [] ==> !IsWordChar(rest[0])
  {
    var qs := ps[1..];
    if qs != [] {
      assert qs[0] == ps[1] && PieceOk(ps[1]);
      SpelledSomething(qs[0].text, qs[0].tok);
      if qs[0].gap == [] {
        assert !Wordy(ps[1].tok);
        assert TextOf(qs, end)[0] == qs[0].text[0];
      } else {
        assert TextOf(qs, end)[0] == qs[0].gap[0];
      }
    }
  }

  lemma LexNumeral(s: Str, pos: nat, i: nat, w: Str)
    requires Blank(s, pos, i) && HasAt(s, i, w) && IsNumeral(w) && (i + |w| < |s| ==> !IsWordChar(s[i + |w|]))
    ensures Lex(s, pos) == (Tok(Number, w), i + |w|)
  {
    assert s[i + 0] == w[0];
    SkipTo(s, pos, i);
    forall j | i <= j < i + |w| ensures IsWordChar(s[j]) {
      assert s[i + (j - i)] == w[j - i];
    }
    WordEndAt(s, i, i + |w|);
    assert s[i..i + |w|] == w;
  }

  lemma LexSpelled(s: Str, pos: nat, i: nat, w: Str, t: Tok)
    requires Blank(s, pos, i) && HasAt(s, i, w) && Spells(w, t) && (Wordy(t) && i + |w| < |s| ==> !IsWordChar(s[i + |w|]))
    ensures LexerOf(s)(pos) == (t, i + |w|)
  {
    if t.kind == Literal {
      LexLiteral(s, pos, i, t.text);
    } else if t.kind == Number {
      LexNumeral(s, pos, i, w);
    } else if IsSymbol(t.kind) {
      LexSymbol(s, pos, i, t.kind);
    } else {
      LexWord(s, pos, i, w);
    }
  }

  /** The rest of the text is these pieces. */
  ghost predicate Spelled(s: Str, pos: nat, ps: seq<Piece>, end: Str) {
    HasAt(s, pos, TextOf(ps, end)) && pos + |TextOf(ps, end)| == |s| && AllSpace(end) && Apart(ps)
  }

  lemma SpelledNext(s: Str, pos: nat, ps: seq<Piece>, end: Str, n: nat)
    requires Spelled(s, pos, ps, end) && ps != [] && n == pos + |ps[0].gap| + |ps[0].text|
    ensures LexerOf(s)(pos) == (ps[0].tok, n) && ps[0].tok.kind != Eof && Spelled(s, n, ps[1..], end) == true
  {
    var p, rest := ps[0], TextOf(ps[1..], end);
    assert PieceOk(p) == true;
    HasAtSplit(s, pos, p.gap, p.text + rest);
    HasAtSplit(s, pos + |p.gap|, p.text, rest);
    if Wordy(p.tok) {
      Follows(ps, end);
    }
    LexPiece(s, pos, p, rest, n);
    ApartTail(ps);
  }

  lemma LexPiece(s: Str, pos: nat, p: Piece, rest: Str, n: nat)
    requires PieceOk(p) && n == pos + |p.gap| + |p.text| && HasAt(s, pos, p.gap) && HasAt(s, pos + |p.gap|, p.text) && HasAt(s, n, rest) && n + |rest| == |s|
    requires Wordy(p.tok) && rest != [] ==> !IsWordChar(rest[0])
    ensures LexerOf(s)(pos) == (p.tok, n) && p.tok.kind != Eof
  {
    SpelledSomething(p.text, p.tok);
    GapBlank(s, pos, p.gap);
    assert rest != [] ==> s[n + 0] == rest[0];
    LexSpelled(s, pos, pos + |p.gap|, p.text, p.tok);
  }

  lemma GapBlank(s: Str, pos: nat, g: Str)
    requires HasAt(s, pos, g) && AllSpace(g)
    ensures Blank(s, pos, pos + |g|) == true
  {
    forall k | pos <= k < pos + |g| ensures IsSpace(s[k]) {
      assert s[pos + (k - pos)] == g[k - pos];
    }
  }

  lemma ApartTail(ps: seq<Piece>)
    requires ps != [] && Apart(ps)
    ensures Apart(ps[1..]) == true
  {
    var qs := ps[1..];
    assert forall i :: 0 <= i < |qs| ==> qs[i] == ps[i + 1];
    forall i | 0 < i < |qs| && Wordy(qs[i - 1].tok) && Wordy(qs[i].tok) ensures qs[i].gap != [] {
      assert ps[i + 1] == qs[i] && ps[(i + 1) - 1] == qs[i - 1];
    }
  }

  /** Spelled tokens are read back, whatever the whitespace between them. */
  lemma {:induction false} SpelledReads(s: Str, pos: nat, ps: seq<Piece>, end: Str)
    requires Spelled(s, pos, ps, end) == true
    ensures Reads(LexerOf(s), pos, TokensOf(ps)) == true
    decreases |ps|
  {
    if ps == [] {
      GapBlank(s, pos, end);
      LexerEnd(s, pos);
    } else {
      var n := pos + |ps[0].gap| + |ps[0].text|;
      SpelledNext(s, pos, ps, end, n);
      SpelledReads(s, n, ps[1..], end);
      TokensTail(ps);
      ReadsPush(LexerOf(s), pos, TokensOf(ps), n);
    }
  }

  lemma TokensTail(ps: seq<Piece>)
    requires ps != []
    ensures TokensOf(ps)[1..] == TokensOf(ps[1..])
  {
  }

  lemma SpelledStart(ps: seq<Piece>, end: Str)
    requires Apart(ps) && AllSpace(end)
    ensures Start(TextOf(ps, end)) == 0
  {
    if ps != [] {
      assert PieceOk(ps[0]);
      SpelledSomething(ps[0].text, ps[0].tok);
      assert TextOf(ps, end)[0] == if ps[0].gap == [] then ps[0].text[0] else ps[0].gap[0];
    }
  }

  // ------------------------------------------------------------ tokens that mean the same

  /** The same token up to the spelling of keywords, or the same value quoted or bare. */
  predicate Alike(t: Tok, u: Tok) {
    || (t.kind == u.kind && (IsKeyword(t.kind) || IsSymbol(t.kind) || t.text == u.text))
    || (t.kind in {Literal, Number} && u.kind in {Literal, Number, Ident} && t.text == u.text)
  }

  ghost predicate AllAlike(ts: seq<Tok>, us: seq<Tok>) {
    |ts| == |us| && forall i {:trigger Alike(ts[i], us[i])} :: 0 <= i < |ts| ==> Alike(ts[i], us[i])
  }

  lemma AlikeSlice(ts: seq<Tok>, us: seq<Tok>, a: nat, b: nat)
    requires AllAlike(ts, us) && a <= b <= |ts|
    ensures AllAlike(ts[a..b], us[a..b]) == true && AllAlike(ts[a..], us[a..]) == true
  {
    forall i | 0 <= i < |ts| - a ensures Alike(ts[a..][i], us[a..][i]) {
      assert Alike(ts[a + i], us[a + i]);
    }
    forall i | 0 <= i < b - a ensures Alike(ts[a..b][i], us[a..b][i]) {
      assert Alike(ts[a + i], us[a + i]);
    }
  }

  lemma AlikeAt(ts: seq<Tok>, us: seq<Tok>, i: nat, n: Str)
    requires AllAlike(ts, us) && i < |ts|
    ensures IsName(ts[i], n) ==> IsName(us[i], n) == true
    ensures IsValue(ts[i], n) ==> IsValue(us[i], n) == true
    ensures ts[i] == Tok(Ident, n) ==> us[i] == ts[i]
    ensures (IsKeyword(ts[i].kind) || IsSymbol(ts[i].kind)) ==> us[i].kind == ts[i].kind
  {
    assert Alike(ts[i], us[i]);
    AlikeName(ts[i], us[i], n);
  }

  lemma AlikeName(t: Tok, u: Tok, n: Str)
    requires Alike(t, u)
    ensures IsName(t, n) ==> IsName(u, n)
    ensures IsValue(t, n) ==> IsValue(u, n)
    ensures t == Tok(Ident, n) ==> u == t
    ensures (IsKeyword(t.kind) || IsSymbol(t.kind)) ==> u.kind == t.kind
  {
  }

  lemma AlikeCond(c: Cond, ts: seq<Tok>, us: seq<Tok>)
    requires CondToks(c, ts) && AllAlike(ts, us)
    ensures CondToks(c, us) == true
  {
    match c
    case Eq(col, v) =>
      AlikeAt(ts, us, 0, col);
      AlikeAt(ts, us, 1, []);
      AlikeAt(ts, us, 2, v);
    case Between(col, lo, hi) =>
      AlikeAt(ts, us, 0, col);
      AlikeAt(ts, us, 1, []);
      AlikeAt(ts, us, 2, lo);
      AlikeAt(ts, us, 3, []);
      AlikeAt(ts, us, 4, hi);
  }

  lemma {:induction false} AlikeMore(conds: seq<Cond>, ts: seq<Tok>, us: seq<Tok>)
    requires MoreToks(conds, ts) && AllAlike(ts, us)
    ensures MoreToks(conds, us) == true
    decreases |conds|
  {
    if conds != [] {
      var n := 1 + CondLen(conds[0]);
      AlikeSlice(ts, us, 1, n);
      AlikeSlice(ts, us, n, n);
      AlikeAt(ts, us, 0, []);
      AlikeCond(conds[0], ts[1..n], us[1..n]);
      AlikeMore(conds[1..], ts[n..], us[n..]);
    }
  }

  lemma AlikeWhere(conds: seq<Cond>, ts: seq<Tok>, us: seq<Tok>)
    requires WhereToks(conds, ts) && AllAlike(ts, us)
    ensures WhereToks(conds, us) == true
  {
    if conds != [] {
      var n := 1 + CondLen(conds[0]);
      AlikeSlice(ts, us, 1, n);
      AlikeSlice(ts, us, n, n);
      AlikeAt(ts, us, 0, []);
      AlikeCond(conds[0], ts[1..n], us[1..n]);
      AlikeMore(conds[1..], ts[n..], us[n..]);
    }
  }

  lemma {:induction false} AlikeNames(cols: seq<Str>, ts: seq<Tok>, us: seq<Tok>)
    requires NamesToks(cols, ts) && AllAlike(ts, us)
    ensures NamesToks(cols, us) == true
    decreases |cols|
  {
    AlikeAt(ts, us, 0, cols[0]);
    if |cols| > 1 {
      AlikeAt(ts, us, 1, []);
      AlikeSlice(ts, us, 2, 2);
      AlikeNames(cols[1..], ts[2..], us[2..]);
    }
  }

  lemma AlikeTail(table: Str, conds: seq<Cond>, ts: seq<Tok>, us: seq<Tok>)
    requires TailToks(table, conds, ts) && AllAlike(ts, us)
    ensures TailToks(table, conds, us) == true
  {
    AlikeAt(ts, us, 0, table);
    AlikeSlice(ts, us, 1, 1);
    AlikeWhere(conds, ts[1..], us[1..]);
  }

  lemma AlikeSelect(st: Stmt, t0: Tok, list: seq<Tok>, t1: Tok, tail: seq<Tok>, u0: Tok, list': seq<Tok>, u1: Tok, tail': seq<Tok>)
    requires st.SelectStmt? && SelectToks(st, t0, list, t1, tail) && AllAlike(list, list') == true && AllAlike(tail, tail') == true
    requires u0.kind == Select && u1.kind == From
    ensures SelectToks(st, u0, list', u1, tail') == true
  {
    AlikeTail(st.table, st.conds, tail, tail');
    if st.all {
      AlikeAt(list, list', 0, []);
    } else {
      AlikeNames(st.cols, list, list');
    }
  }

  lemma AlikeUpdate(st: Stmt, ts: seq<Tok>, us: seq<Tok>)
    requires st.UpdateStmt? && StmtToks(st, ts) && AllAlike(ts, us)
    ensures StmtToks(st, us) == true
  {
    AlikeAt(ts, us, 0, []);
    AlikeAt(ts, us, 1, st.table);
    AlikeAt(ts, us, 2, []);
    AlikeAt(ts, us, 3, st.col);
    AlikeAt(ts, us, 4, []);
    AlikeAt(ts, us, 5, st.val);
    AlikeSlice(ts, us, 6, 6);
    AlikeWhere(st.conds, ts[6..], us[6..]);
  }

  /** Tokens that mean the same make the same statement. */
  lemma AlikeStmt(st: Stmt, ts: seq<Tok>, us: seq<Tok>)
    requires StmtToks(st, ts) && AllAlike(ts, us) == true
    ensures StmtToks(st, us) == true
  {
    match st
    case SelectStmt(_, _, _, _) =>
      var n := ListLen(st);
      AlikeAt(ts, us, 0, []);
      AlikeAt(ts, us, 1 + n, []);
      AlikeSlice(ts, us, 1, 1 + n);
      AlikeSlice(ts, us, n + 2, n + 2);
      AlikeSelect(st, ts[0], ts[1..1 + n], ts[1 + n], ts[n + 2..], us[0], us[1..1 + n], us[1 + n], us[n + 2..]);
    case UpdateStmt(_, _, _, _) => AlikeUpdate(st, ts, us);
    case DeleteStmt(_, _) =>
      AlikeAt(ts, us, 0, []);
      AlikeAt(ts, us, 1, []);
      AlikeSlice(ts, us, 2, 2);
      AlikeTail(st.table, st.conds, ts[2..], us[2..]);
  }

  // ------------------------------------------------------------ texts that mean the same

  /** A text has one sequence of tokens. */
  lemma {:induction false} ReadsOnce(lx: Lexer, pos: nat, ts: seq<Tok>, us: seq<Tok>)
    requires Reads(lx, pos, ts) && Reads(lx, pos, us)
    ensures ts == us
    decreases |ts|
  {
    if ts != [] && us != [] {
      ReadsOnce(lx, lx(pos).1, ts[1..], us[1..]);
      assert ts == [ts[0]] + ts[1..] && us == [us[0]] + us[1..];
    }
  }

  /** A SELECT, UPDATE or DELETE is read as the same statement however it is spaced, in
      whatever case its keywords are, and with its values quoted or, where they are single
      words that are no keywords, bare. */
  lemma SpellingIsFree(st: Stmt, ps: seq<Piece>, end: Str, qs: seq<Piece>, end': Str)
    requires !st.InsertStmt? && Apart(ps) == true && Apart(qs) == true && AllSpace(end) && AllSpace(end') && AllAlike(TokensOf(ps), TokensOf(qs)) == true
    requires Parse(TextOf(ps, end)) == Some(st)
    ensures Parse(TextOf(qs, end')) == Some(st)
  {
    var s, s' := TextOf(ps, end), TextOf(qs, end');
    SpelledAll(ps, end);
    SpelledAll(qs, end');
    ParseIff(s, st);
    var ts :| StmtToks(st, ts) && Reads(LexerOf(s), Start(s), ts);
    ReadsOnce(LexerOf(s), Start(s), ts, TokensOf(ps));
    AlikeStmt(st, TokensOf(ps), TokensOf(qs));
    TokensParse(s', st, TokensOf(qs));
  }

  lemma SpelledAll(ps: seq<Piece>, end: Str)
    requires Apart(ps) == true && AllSpace(end)
    ensures var s := TextOf(ps, end); Reads(LexerOf(s), Start(s), TokensOf(ps)) == true
  {
    SpelledStart(ps, end);
    SpelledReads(TextOf(ps, end), 0, ps, end);
  }
}
