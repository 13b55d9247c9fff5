/** The SQL reader: src/legacy/lexer.c and src/legacy/parser.c. */
module Sql {
  import opened Basics
  import opened Text
  import opened EngineSpec

  const TEXT_SIZE: nat := 256
  const COL_SIZE: nat := 50
  const ROW_SIZE: nat := 1024
  const MAX_CONDS: nat := 8

  datatype TokKind =
    | Eof | Illegal | Ident | Literal | Number
    | Select | Insert | Update | Delete | From | Where | Set | Into | Values | Between_ | And
    | Star | Comma | LParen | RParen | Equals | Semicolon

  datatype Tok = Tok(kind: TokKind, text: Str)

  // ------------------------------------------------------------ lexer

  predicate IsAlpha(c: char) {
    65 <= c as int <= 90 || 97 <= c as int <= 122
  }

  predicate IsWordChar(c: char) {
    IsAlpha(c) || IsDigit(c) || c == '_' || c == '-' || c == '.'
  }

  /** The first position from i on that is not whitespace. */
  function SkipWs(s: Str, i: nat): (r: nat)
    requires i <= |s|
    ensures i <= r <= |s| && (r < |s| ==> !IsSpace(s[r])) && forall j :: i <= j < r ==> IsSpace(s[j])
    decreases |s| - i
  {
    if i < |s| && IsSpace(s[i]) then SkipWs(s, i + 1) else i
  }

  function WordEnd(s: Str, i: nat): (r: nat)
    requires i <= |s|
    ensures i <= r <= |s| && (r < |s| ==> !IsWordChar(s[r])) && forall j :: i <= j < r ==> IsWordChar(s[j])
    decreases |s| - i
  {
    if i < |s| && IsWordChar(s[i]) then WordEnd(s, i + 1) else i
  }

  function QuoteEnd(s: Str, i: nat): (r: nat)
    requires i <= |s|
    ensures i <= r <= |s| && (r < |s| ==> s[r] == '\'') && forall j :: i <= j < r ==> s[j] != '\''
    decreases |s| - i
  {
    if i < |s| && s[i] != '\'' then QuoteEnd(s, i + 1) else i
  }

  function Symbol(c: char): TokKind {
    if c == '*' then Star else if c == ',' then Comma else if c == '=' then Equals
    else if c == '(' then LParen else if c == ')' then RParen else if c == ';' then Semicolon
    else Illegal
  }

  function Upper(c: char): char {
    if 97 <= c as int <= 122 then (c as int - 32) as char else c
  }

  function Uppers(s: Str): (r: Str)
    ensures |r| == |s| && forall i :: 0 <= i < |s| ==> r[i] == Upper(s[i])
  {
    seq(|s|, i requires 0 <= i < |s| => Upper(s[i]))
  }

  /** The keyword a text spells in any case, or an identifier. */
  function KeywordOf(t: Str): TokKind {
    var u := Uppers(t);
    if u == "SELECT" then Select else if u == "INSERT" then Insert else if u == "UPDATE" then Update
    else if u == "DELETE" then Delete else if u == "FROM" then From else if u == "WHERE" then Where
    else if u == "SET" then Set else if u == "INTO" then Into else if u == "VALUES" then Values
    else if u == "BETWEEN" then Between_ else if u == "AND" then And
    else Ident
  }

  /** get_next_token: the token at pos and the position after it. */
  function Lex(s: Str, pos: nat): (r: (Tok, nat))
    requires pos <= |s|
    ensures pos <= r.1 <= |s|
    ensures r.0.kind == Eof <==> forall j :: pos <= j < |s| ==> IsSpace(s[j])
  {
    var i := SkipWs(s, pos);
    if i == |s| then (Tok(Eof, []), i)
    else if Symbol(s[i]) != Illegal then (Tok(Symbol(s[i]), [s[i]]), i + 1)
    else if s[i] == '\'' then
      var q := QuoteEnd(s, i + 1);
      (Tok(Literal, Cut(s[i + 1..q], TEXT_SIZE)), if q < |s| then q + 1 else q)
    else if IsAlpha(s[i]) || s[i] == '_' then
      var e := WordEnd(s, i);
      (Tok(KeywordOf(Cut(s[i..e], TEXT_SIZE)), Cut(s[i..e], TEXT_SIZE)), e)
    else if IsDigit(s[i]) then
      var e := WordEnd(s, i);
      (Tok(Number, Cut(s[i..e], TEXT_SIZE)), e)
    else (Tok(Illegal, []), i)
  }

  /** init_lexer: a byte order mark is passed over. */
  function Start(s: Str): (p: nat)
    ensures p <= |s|
  {
    if |s| >= 3 && s[0] as int == 0xEF && s[1] as int == 0xBB && s[2] as int == 0xBF then 3 else 0
  }

  // ------------------------------------------------------------ parser

  datatype Stmt =
    | SelectStmt(all: bool, cols: seq<Str>, table: Str, conds: seq<Cond>)
    | InsertStmt(table: Str, row: Str)
    | UpdateStmt(table: Str, col: Str, val: Str, conds: seq<Cond>)
    | DeleteStmt(table: Str, conds: seq<Cond>)

  /** Where a lexer finds the next token from a position on, and where it goes on. */
  type Lexer = nat -> (Tok, nat)

  /** The lexer on a text. */
  ghost function LexerOf(s: Str): (lx: Lexer)
    ensures forall pos {:trigger Lex(s, pos)} :: 0 <= pos <= |s| ==> lx(pos) == Lex(s, pos)
  {
    var g := (pos: nat) => if pos <= |s| then Lex(s, pos) else (Tok(Eof, []), pos);
    assert forall pos {:trigger Lex(s, pos)} :: 0 <= pos <= |s| ==> g(pos) == Lex(s, pos);
    var lx: Lexer :| forall pos {:trigger Lex(s, pos)} :: 0 <= pos <= |s| ==> lx(pos) == Lex(s, pos);
    lx
  }

  /** Parser: the current token and where the lexer stands. */
  datatype P = P(cur: Tok, pos: nat)

  function Advance(lx: Lexer, p: P): (q: P)
  {
    P(lx(p.pos).0, lx(p.pos).1)
  }

  function Expect(lx: Lexer, p: P, k: TokKind): (q: Option<P>)
  {
    if p.cur.kind == k then Some(Advance(lx, p)) else None
  }

  /** parse_literal. */
  function ParseLiteral(lx: Lexer, p: P): (r: Option<(Str, P)>)
  {
    if p.cur.kind in {Literal, Number, Ident} then Some((Cut(p.cur.text, TEXT_SIZE), Advance(lx, p))) else None
  }

  /** parse_one_condition. */
  function ParseCond(lx: Lexer, p: P): (r: Option<(Cond, P)>)
  {
    if p.cur.kind != Ident then None
    else
      var col, p1 := Cut(p.cur.text, COL_SIZE), Advance(lx, p);
      if p1.cur.kind == Between_ then
        var lo := ParseLiteral(lx, Advance(lx, p1));
        if lo.None? then None
        else
          var p2 := Expect(lx, lo.value.1, And);
          if p2.None? then None
          else
            var hi := ParseLiteral(lx, p2.value);
            if hi.None? then None else Some((Between(col, lo.value.0, hi.value.0), hi.value.1))
      else
        var p2 := Expect(lx, p1, Equals);
        if p2.None? then None
        else
          var v := ParseLiteral(lx, p2.value);
          if v.None? then None else Some((Eq(col, v.value.0), v.value.1))
  }

  /** The rest of parse_where_clause once the conditions so far are read. */
  function ParseMore(lx: Lexer, p: P, conds: seq<Cond>): (r: Option<(seq<Cond>, P)>)
    decreases MAX_CONDS - |conds|
  {
    if p.cur.kind != And then Some((conds, p))
    else if |conds| >= MAX_CONDS then None
    else
      var c := ParseCond(lx, Advance(lx, p));
      if c.None? then None else ParseMore(lx, c.value.1, conds + [c.value.0])
  }

  function ParseWhere(lx: Lexer, p: P): (r: Option<(seq<Cond>, P)>)
  {
    if p.cur.kind != Where then Some(([], p))
    else
      var c := ParseCond(lx, Advance(lx, p));
      if c.None? then None else ParseMore(lx, c.value.1, [c.value.0])
  }

  /** The column loop of parse_select, at an identifier. */
  function ParseCols(lx: Lexer, p: P, cols: seq<Str>): (r: Option<(seq<Str>, P)>)
    decreases MAX_COLS - |cols|
  {
    if |cols| >= MAX_COLS then None
    else
      var cols', p1 := cols + [Cut(p.cur.text, COL_SIZE)], Advance(lx, p);
      if p1.cur.kind != Comma then Some((cols', p1))
      else
        var p2 := Advance(lx, p1);
        if p2.cur.kind != Ident then None else ParseCols(lx, p2, cols')
  }

  function SelectList(lx: Lexer, p: P): (r: Option<(seq<Str>, P)>)
  {
    if p.cur.kind == Star then Some(([], Advance(lx, p)))
    else if p.cur.kind == Ident then ParseCols(lx, p, [])
    else None
  }

  /** A table name and the WHERE clause. */
  function ParseTail(lx: Lexer, p: P): (r: Option<(Str, seq<Cond>, P)>)
  {
    if p.cur.kind != Ident then None
    else
      var w := ParseWhere(lx, Advance(lx, p));
      if w.None? then None else Some((p.cur.text, w.value.0, w.value.1))
  }

  /** finish_statement: nothing may follow. */
  function Finish(st: Stmt, p: P): Option<Stmt> {
    if p.cur.kind == Eof then Some(st) else None
  }

  function ParseSelect(lx: Lexer, p: P): Option<Stmt>
  {
    var p1 := Advance(lx, p);
    var list := SelectList(lx, p1);
    if list.None? then None
    else
      var p2 := Expect(lx, list.value.1, From);
      if p2.None? then None
      else
        var t := ParseTail(lx, p2.value);
        if t.None? then None else Finish(SelectStmt(p1.cur.kind == Star, list.value.0, t.value.0, t.value.1), t.value.2)
  }

  function ParseUpdate(lx: Lexer, p: P): Option<Stmt>
  {
    var p1 := Advance(lx, p);
    if p1.cur.kind != Ident then None
    else
      var p2 := Expect(lx, Advance(lx, p1), Set);
      if p2.None? || p2.value.cur.kind != Ident then None
      else
        var p3 := Expect(lx, Advance(lx, p2.value), Equals);
        if p3.None? then None
        else
          var v := ParseLiteral(lx, p3.value);
          if v.None? then None
          else
            var w := ParseWhere(lx, v.value.1);
            if w.None? then None
            else Finish(UpdateStmt(p1.cur.text, Cut(p2.value.cur.text, COL_SIZE), v.value.0, w.value.0), w.value.1)
  }

  function ParseDelete(lx: Lexer, p: P): Option<Stmt>
  {
    var p1 := Expect(lx, Advance(lx, p), From);
    if p1.None? then None
    else
      var t := ParseTail(lx, p1.value);
      if t.None? then None else Finish(DeleteStmt(t.value.0, t.value.1), t.value.2)
  }

  /** find_values_close_paren from position i on: the first ')' outside quotes, or the
      end of the text. */
  function CloseParen(s: Str, i: nat, quoted: bool): (r: nat)
    requires i <= |s|
    ensures i <= r <= |s|
    decreases |s| - i
  {
    if i == |s| then i
    else if s[i] == '\'' then CloseParen(s, i + 1, !quoted)
    else if s[i] == ')' && !quoted then i
    else CloseParen(s, i + 1, quoted)
  }

  function ParseInsert(s: Str, lx: Lexer, p: P): Option<Stmt> {
    var p1 := Expect(lx, Advance(lx, p), Into);
    if p1.None? || p1.value.cur.kind != Ident then None
    else
      var p2 := Expect(lx, Advance(lx, p1.value), Values);
      if p2.None? || p2.value.cur.kind != LParen || p2.value.pos > |s| then None
      else
        var open := p2.value.pos;
        var close := CloseParen(s, open, false);
        if close == |s| || SkipWs(s, close + 1) < |s| then None
        else Some(InsertStmt(p1.value.cur.text, Cut(s[open..close], ROW_SIZE)))
  }

  /** parse_statement. */
  ghost function Parse(s: Str): Option<Stmt> {
    var lx := LexerOf(s);
    var p := Advance(lx, P(Tok(Illegal, []), Start(s)));
    match p.cur.kind
    case Select => ParseSelect(lx, p)
    case Insert => ParseInsert(s, lx, p)
    case Update => ParseUpdate(lx, p)
    case Delete => ParseDelete(lx, p)
    case _ => None
  }

  // ------------------------------------------------------------ token streams

  /** The tokens from pos on, up to the end of the text. */
  ghost predicate Reads(lx: Lexer, pos: nat, toks: seq<Tok>)
    decreases |toks|
  {
    var r := lx(pos);
    if toks == [] then r.0.kind == Eof
    else r.0 == toks[0] && toks[0].kind != Eof && Reads(lx, r.1, toks[1..])
  }

  /** The parser stands before these tokens. */
  ghost predicate At(lx: Lexer, p: P, toks: seq<Tok>)
  {
    if toks == [] then p.cur.kind == Eof
    else p.cur == toks[0] && toks[0].kind != Eof && Reads(lx, p.pos, toks[1..])
  }

  // ------------------------------------------------------------ the grammar

  /** A token that is a name, of which 49 characters are kept. */
  predicate IsName(t: Tok, name: Str) {
    t.kind == Ident && name == Cut(t.text, COL_SIZE)
  }

  /** A token that is a value: a quoted text, a number, or a bare word. */
  predicate IsValue(t: Tok, v: Str) {
    t.kind in {Literal, Number, Ident} && v == Cut(t.text, TEXT_SIZE)
  }

  function CondLen(c: Cond): nat {
    if c.Between? then 5 else 3
  }

  predicate CondToks(c: Cond, ts: seq<Tok>) {
    match c
    case Eq(col, v) => |ts| == 3 && IsName(ts[0], col) && ts[1].kind == Equals && IsValue(ts[2], v)
    case Between(col, lo, hi) =>
      && |ts| == 5 && IsName(ts[0], col) && ts[1].kind == Between_ && IsValue(ts[2], lo) && ts[3].kind == And && IsValue(ts[4], hi)
    case Untyped(_) => false
  }

  /** AND and a condition, for each of the conditions. */
  ghost predicate MoreToks(conds: seq<Cond>, ts: seq<Tok>)
    decreases |conds|
  {
    if conds == [] then ts == []
    else
      var n := 1 + CondLen(conds[0]);
      |ts| >= n && ts[0].kind == And && CondToks(conds[0], ts[1..n]) && MoreToks(conds[1..], ts[n..])
  }

  ghost predicate WhereToks(conds: seq<Cond>, ts: seq<Tok>) {
    if conds == [] then ts == []
    else
      var n := 1 + CondLen(conds[0]);
      |ts| >= n && ts[0].kind == Where && CondToks(conds[0], ts[1..n]) && MoreToks(conds[1..], ts[n..])
  }

  /** Names with commas between them. */
  ghost predicate NamesToks(cols: seq<Str>, ts: seq<Tok>)
    decreases |cols|
  {
    if |cols| == 0 then false
    else if |cols| == 1 then |ts| == 1 && IsName(ts[0], cols[0])
    else |ts| >= 3 && IsName(ts[0], cols[0]) && ts[1].kind == Comma && NamesToks(cols[1..], ts[2..])
  }

  ghost predicate TailToks(table: Str, conds: seq<Cond>, ts: seq<Tok>) {
    |ts| >= 1 && ts[0] == Tok(Ident, table) && |conds| <= MAX_CONDS && WhereToks(conds, ts[1..])
  }

  /** SELECT, its list, FROM, and the rest. */
  ghost predicate SelectToks(st: Stmt, t0: Tok, list: seq<Tok>, t1: Tok, tail: seq<Tok>)
    requires st.SelectStmt?
  {
    && t0.kind == Select && t1.kind == From && TailToks(st.table, st.conds, tail) && |st.cols| <= MAX_COLS
    && if st.all then st.cols == [] && |list| == 1 && list[0].kind == Star else |list| == 2 * |st.cols| - 1 && NamesToks(st.cols, list)
  }

  function ListLen(st: Stmt): int
    requires st.SelectStmt?
  {
    if st.all then 1 else 2 * |st.cols| - 1
  }

  /** UPDATE, a table, SET, a column, =, a value, and the conditions. */
  ghost predicate UpdateToks(st: Stmt, t0: Tok, t1: Tok, t2: Tok, t3: Tok, t4: Tok, t5: Tok, tail: seq<Tok>)
    requires st.UpdateStmt?
  {
    && t0.kind == Update && t1 == Tok(Ident, st.table) && t2.kind == Set && IsName(t3, st.col)
    && t4.kind == Equals && IsValue(t5, st.val) && |st.conds| <= MAX_CONDS && WhereToks(st.conds, tail)
  }

  /** DELETE, FROM, and the rest. */
  ghost predicate DeleteToks(st: Stmt, t0: Tok, t1: Tok, tail: seq<Tok>)
    requires st.DeleteStmt?
  {
    t0.kind == Delete && t1.kind == From && TailToks(st.table, st.conds, tail)
  }

  /** The tokens of a SELECT, UPDATE or DELETE. */
  ghost predicate StmtToks(st: Stmt, ts: seq<Tok>) {
    match st
    case SelectStmt(_, _, _, _) =>
      var n := ListLen(st);
      n >= 1 && |ts| >= n + 2 && SelectToks(st, ts[0], ts[1..1 + n], ts[1 + n], ts[n + 2..])
    case UpdateStmt(_, _, _, _) => |ts| >= 6 && UpdateToks(st, ts[0], ts[1], ts[2], ts[3], ts[4], ts[5], ts[6..])
    case DeleteStmt(_, _) => |ts| >= 2 && DeleteToks(st, ts[0], ts[1], ts[2..])
    case InsertStmt(_, _) => false
  }

  // Slices of sequences.

  lemma HeadTail<T>(s: seq<T>)
    requires s != []
    ensures [s[0]] + s[1..] == s
  {
  }

  lemma Behind<T>(a: seq<T>, b: seq<T>)
    ensures (a + b)[|a|..] == b && (a + b)[..|a|] == a
  {
  }

  lemma Twice<T>(s: seq<T>, n: nat, m: nat)
    requires n + m <= |s|
    ensures s[n..][m..] == s[n + m..]
  {
  }

  lemma Between1<T>(s: seq<T>, n: nat)
    requires 1 <= n <= |s|
    ensures s[1..] == s[1..n] + s[n..]
  {
  }

  lemma Around<T>(s: seq<T>, n: nat)
    requires n + 2 <= |s|
    ensures s[1..] == s[1..1 + n] + ([s[1 + n]] + s[n + 2..])
  {
  }

  /** Splitting a stream at its first token. */
  lemma Next(lx: Lexer, p: P, ts: seq<Tok>)
    requires ts != [] && At(lx, p, ts)
    ensures p.cur == ts[0] && At(lx, Advance(lx, p), ts[1..])
  {
  }

  lemma CondParses(lx: Lexer, p: P, c: Cond, ts: seq<Tok>, rest: seq<Tok>) returns (q: P)
    requires CondToks(c, ts) == true && At(lx, p, ts + rest) == true
    ensures ParseCond(lx, p) == Some((c, q)) && At(lx, q, rest) == true
  {
    Behind(ts, rest);
    if c.Between? {
      q := BetweenParses(lx, p, c, ts, rest);
    } else {
      q := Next3(lx, p, ts + rest);
    }
  }

  lemma BetweenParses(lx: Lexer, p: P, c: Cond, ts: seq<Tok>, rest: seq<Tok>) returns (q: P)
    requires c.Between? && CondToks(c, ts) == true && At(lx, p, ts + rest) == true
    ensures ParseCond(lx, p) == Some((c, q)) && At(lx, q, rest) == true
  {
    var t := ts + rest;
    var p3 := Next3(lx, p, t);
    Next(lx, p3, t[3..]);
    var p4 := Advance(lx, p3);
    Next(lx, p4, t[3..][1..]);
    q := Advance(lx, p4);
    Twice(t, 3, 1);
    Twice(t, 4, 1);
    Behind(ts, rest);
    BetweenAssembles(lx, p, c, p3, q);
  }

  lemma BetweenAssembles(lx: Lexer, p: P, c: Cond, p3: P, q: P)
    requires c.Between? && p3 == Advance(lx, Advance(lx, Advance(lx, p))) && q == Advance(lx, Advance(lx, p3))
    requires IsName(p.cur, c.col) && Advance(lx, p).cur.kind == Between_ && IsValue(Advance(lx, Advance(lx, p)).cur, c.val)
    requires p3.cur.kind == And && IsValue(Advance(lx, p3).cur, c.end)
    ensures ParseCond(lx, p) == Some((c, q))
  {
  }

  lemma EndKind(lx: Lexer, p: P, rest: seq<Tok>)
    requires At(lx, p, rest)
    ensures rest == [] ==> p.cur.kind == Eof
    ensures rest != [] ==> p.cur == rest[0]
  {
  }

  lemma MoreStep(lx: Lexer, p: P, done: seq<Cond>, c: Cond, p1: P)
    requires p.cur.kind == And && |done| < MAX_CONDS && ParseCond(lx, Advance(lx, p)) == Some((c, p1))
    ensures ParseMore(lx, p, done) == ParseMore(lx, p1, done + [c])
  {
  }

  lemma {:induction false} MoreParses(lx: Lexer, p: P, conds: seq<Cond>, done: seq<Cond>, ts: seq<Tok>) returns (q: P)
    requires MoreToks(conds, ts) && At(lx, p, ts) && |done| + |conds| <= MAX_CONDS
    ensures ParseMore(lx, p, done) == Some((done + conds, q)) && q.cur.kind == Eof
    decreases |conds|
  {
    if conds == [] {
      q := p;
      assert done + conds == done;
    } else {
      var n, c := 1 + CondLen(conds[0]), conds[0];
      Next(lx, p, ts);
      Between1(ts, n);
      var p1 := CondParses(lx, Advance(lx, p), c, ts[1..n], ts[n..]);
      MoreStep(lx, p, done, c, p1);
      q := MoreParses(lx, p1, conds[1..], done + [c], ts[n..]);
      Assoc(done, [c], conds[1..]);
      HeadTail(conds);
    }
  }

  lemma WhereParses(lx: Lexer, p: P, conds: seq<Cond>, ts: seq<Tok>) returns (q: P)
    requires WhereToks(conds, ts) && At(lx, p, ts) && |conds| <= MAX_CONDS
    ensures ParseWhere(lx, p) == Some((conds, q)) && q.cur.kind == Eof
  {
    if conds == [] {
      q := p;
    } else {
      var n := 1 + CondLen(conds[0]);
      Next(lx, p, ts);
      Between1(ts, n);
      HeadTail(conds);
      var p1 := CondParses(lx, Advance(lx, p), conds[0], ts[1..n], ts[n..]);
      q := MoreParses(lx, p1, conds[1..], [conds[0]], ts[n..]);
    }
  }

  lemma TailParses(lx: Lexer, p: P, table: Str, conds: seq<Cond>, ts: seq<Tok>) returns (q: P)
    requires TailToks(table, conds, ts) && At(lx, p, ts)
    ensures ParseTail(lx, p) == Some((table, conds, q)) && q.cur.kind == Eof
  {
    Next(lx, p, ts);
    q := WhereParses(lx, Advance(lx, p), conds, ts[1..]);
  }

  lemma {:induction false} NamesLength(cols: seq<Str>, ts: seq<Tok>)
    requires NamesToks(cols, ts)
    ensures |ts| == 2 * |cols| - 1 && ts[0].kind == Ident
    decreases |cols|
  {
    if |cols| > 1 {
      NamesLength(cols[1..], ts[2..]);
    }
  }

  lemma {:induction false} NamesParse(lx: Lexer, p: P, cols: seq<Str>, done: seq<Str>, ts: seq<Tok>, rest: seq<Tok>) returns (q: P)
    requires NamesToks(cols, ts) && At(lx, p, ts + rest) && |done| + |cols| <= MAX_COLS
    requires rest != [] && rest[0].kind != Comma
    ensures ParseCols(lx, p, done) == Some((done + cols, q)) && At(lx, q, rest)
    decreases |cols|
  {
    var t := ts + rest;
    Next(lx, p, t);
    var p1 := Advance(lx, p);
    if |cols| == 1 {
      assert t[1..] == rest;
      EndKind(lx, p1, rest);
      q := p1;
      assert cols == [cols[0]];
    } else {
      assert t[1..][0] == ts[1];
      Next(lx, p1, t[1..]);
      var p2 := Advance(lx, p1);
      assert t[1..][1..] == ts[2..] + rest;
      NamesLength(cols[1..], ts[2..]);
      EndKind(lx, p2, ts[2..] + rest);
      q := NamesParse(lx, p2, cols[1..], done + [cols[0]], ts[2..], rest);
      assert done + [cols[0]] + cols[1..] == done + cols;
    }
  }

  lemma ListParses(lx: Lexer, p: P, all: bool, cols: seq<Str>, list: seq<Tok>, rest: seq<Tok>) returns (q: P)
    requires At(lx, p, list + rest) && rest != [] && rest[0].kind == From && |cols| <= MAX_COLS
    requires if all then cols == [] && |list| == 1 && list[0].kind == Star else NamesToks(cols, list)
    ensures SelectList(lx, p) == Some((cols, q)) && At(lx, q, rest) == true && (p.cur.kind == Star <==> all)
  {
    if all {
      Next(lx, p, list + rest);
      q := Advance(lx, p);
      assert (list + rest)[1..] == rest;
    } else {
      NamesLength(cols, list);
      EndKind(lx, p, list + rest);
      q := NamesParse(lx, p, cols, [], list, rest);
      assert [] + cols == cols;
    }
  }

  lemma SelectParses(lx: Lexer, p: P, st: Stmt, ts: seq<Tok>)
    requires st.SelectStmt? && StmtToks(st, ts) && At(lx, p, ts)
    ensures ParseSelect(lx, p) == Some(st)
  {
    var n := ListLen(st);
    Next(lx, p, ts);
    Around(ts, n);
    SelectRest(lx, p, st, ts[0], ts[1..1 + n], ts[1 + n], ts[n + 2..]);
  }

  lemma SelectRest(lx: Lexer, p: P, st: Stmt, t0: Tok, list: seq<Tok>, t1: Tok, tail: seq<Tok>)
    requires st.SelectStmt? && SelectToks(st, t0, list, t1, tail) == true && At(lx, Advance(lx, p), list + ([t1] + tail)) == true
    ensures ParseSelect(lx, p) == Some(st)
  {
    var rest := [t1] + tail;
    var p2 := ListParses(lx, Advance(lx, p), st.all, st.cols, list, rest);
    Next(lx, p2, rest);
    Behind([t1], tail);
    var q := TailParses(lx, Advance(lx, p2), st.table, st.conds, tail);
    SelectAssembles(lx, p, st, p2, q);
  }

  lemma SelectAssembles(lx: Lexer, p: P, st: Stmt, p2: P, q: P)
    requires st.SelectStmt? && SelectList(lx, Advance(lx, p)) == Some((st.cols, p2)) && (Advance(lx, p).cur.kind == Star <==> st.all)
    requires p2.cur.kind == From && ParseTail(lx, Advance(lx, p2)) == Some((st.table, st.conds, q)) && q.cur.kind == Eof
    ensures ParseSelect(lx, p) == Some(st)
  {
  }

  lemma UpdateParses(lx: Lexer, p: P, st: Stmt, ts: seq<Tok>)
    requires st.UpdateStmt? && StmtToks(st, ts) && At(lx, p, ts)
    ensures ParseUpdate(lx, p) == Some(st)
  {
    var p3 := Next3(lx, p, ts);
    var p6 := Next3(lx, p3, ts[3..]);
    Twice(ts, 3, 3);
    var q := WhereParses(lx, p6, st.conds, ts[6..]);
    UpdateAssembles(lx, p, st, q);
  }

  lemma UpdateAssembles(lx: Lexer, p: P, st: Stmt, q: P)
    requires st.UpdateStmt?
    requires var p1 := Advance(lx, p); var p2 := Advance(lx, p1); var p3 := Advance(lx, p2); var p4 := Advance(lx, p3); var p5 := Advance(lx, p4);
             && p1.cur == Tok(Ident, st.table) && p2.cur.kind == Set && IsName(p3.cur, st.col) && p4.cur.kind == Equals && IsValue(p5.cur, st.val)
             && ParseWhere(lx, Advance(lx, p5)) == Some((st.conds, q)) && q.cur.kind == Eof
    ensures ParseUpdate(lx, p) == Some(st)
  {
  }

  lemma Next3(lx: Lexer, p: P, ts: seq<Tok>) returns (q: P)
    requires |ts| >= 3 && At(lx, p, ts)
    ensures var p1 := Advance(lx, p); var p2 := Advance(lx, p1);
            p.cur == ts[0] && p1.cur == ts[1] && p2.cur == ts[2] && q == Advance(lx, p2) && At(lx, q, ts[3..]) == true
  {
    Next(lx, p, ts);
    var p1, t1 := Advance(lx, p), ts[1..];
    Next(lx, p1, t1);
    var p2, t2 := Advance(lx, p1), t1[1..];
    Next(lx, p2, t2);
    q := Advance(lx, p2);
    assert t2[1..] == ts[3..];
  }

  lemma DeleteParses(lx: Lexer, p: P, st: Stmt, ts: seq<Tok>)
    requires st.DeleteStmt? && StmtToks(st, ts) && At(lx, p, ts)
    ensures ParseDelete(lx, p) == Some(st)
  {
    Next(lx, p, ts);
    Next(lx, Advance(lx, p), ts[1..]);
    Twice(ts, 1, 1);
    var q := TailParses(lx, Advance(lx, Advance(lx, p)), st.table, st.conds, ts[2..]);
    DeleteAssembles(lx, p, st, q);
  }

  lemma DeleteAssembles(lx: Lexer, p: P, st: Stmt, q: P)
    requires st.DeleteStmt? && Advance(lx, p).cur.kind == From
    requires ParseTail(lx, Advance(lx, Advance(lx, p))) == Some((st.table, st.conds, q)) && q.cur.kind == Eof
    ensures ParseDelete(lx, p) == Some(st)
  {
  }

  /** Every text whose tokens are those of a statement is read as that statement, however
      it is spaced, whatever the case of its keywords, and with values quoted or bare. */
  lemma TokensParse(s: Str, st: Stmt, ts: seq<Tok>)
    requires StmtToks(st, ts) == true && Reads(LexerOf(s), Start(s), ts) == true
    ensures Parse(s) == Some(st)
  {
    var lx := LexerOf(s);
    var p := Advance(lx, P(Tok(Illegal, []), Start(s)));
    FirstToken(lx, Start(s), st, ts);
    KindsParse(lx, p, st, ts);
    ParseBy(s, lx, p);
  }

  /** The first token chooses the statement. */
  lemma ParseBy(s: Str, lx: Lexer, p: P)
    requires lx == LexerOf(s) && p == Advance(lx, P(Tok(Illegal, []), Start(s)))
    ensures p.cur.kind == Select ==> Parse(s) == ParseSelect(lx, p)
    ensures p.cur.kind == Update ==> Parse(s) == ParseUpdate(lx, p)
    ensures p.cur.kind == Delete ==> Parse(s) == ParseDelete(lx, p)
  {
  }

  lemma KindsParse(lx: Lexer, p: P, st: Stmt, ts: seq<Tok>)
    requires StmtToks(st, ts) == true && At(lx, p, ts) == true
    ensures st.SelectStmt? ==> ParseSelect(lx, p) == Some(st)
    ensures st.UpdateStmt? ==> ParseUpdate(lx, p) == Some(st)
    ensures st.DeleteStmt? ==> ParseDelete(lx, p) == Some(st)
  {
    match st
    case SelectStmt(_, _, _, _) => SelectParses(lx, p, st, ts);
    case UpdateStmt(_, _, _, _) => UpdateParses(lx, p, st, ts);
    case DeleteStmt(_, _) => DeleteParses(lx, p, st, ts);
    case InsertStmt(_, _) =>
  }

  lemma FirstToken(lx: Lexer, pos: nat, st: Stmt, ts: seq<Tok>)
    requires StmtToks(st, ts) && Reads(lx, pos, ts)
    ensures var p := Advance(lx, P(Tok(Illegal, []), pos));
            At(lx, p, ts) == true && !st.InsertStmt? && p.cur.kind == if st.SelectStmt? then Select else if st.UpdateStmt? then Update else Delete
  {
  }

  // ------------------------------------------------------------ nothing else is read

  lemma AtPush(lx: Lexer, p: P, rest: seq<Tok>)
    requires p.cur.kind != Eof && At(lx, Advance(lx, p), rest)
    ensures At(lx, p, [p.cur] + rest)
  {
    assert ([p.cur] + rest)[1..] == rest;
  }

  lemma AtPush3(lx: Lexer, p: P, rest: seq<Tok>)
    requires var p1 := Advance(lx, p); var p2 := Advance(lx, p1);
             p.cur.kind != Eof && p1.cur.kind != Eof && p2.cur.kind != Eof && At(lx, Advance(lx, p2), rest)
    ensures var p1 := Advance(lx, p); var p2 := Advance(lx, p1); At(lx, p, [p.cur, p1.cur, p2.cur] + rest) == true
  {
    var p1 := Advance(lx, p);
    var p2 := Advance(lx, p1);
    AtPush(lx, p2, rest);
    AtPush(lx, p1, [p2.cur] + rest);
    AtPush(lx, p, [p1.cur] + ([p2.cur] + rest));
    assert [p.cur, p1.cur, p2.cur] + rest == [p.cur] + ([p1.cur] + ([p2.cur] + rest));
  }

  lemma CondSound(lx: Lexer, p: P, c: Cond, q: P, rest: seq<Tok>) returns (ts: seq<Tok>)
    requires ParseCond(lx, p) == Some((c, q)) && At(lx, q, rest)
    ensures CondToks(c, ts) == true && At(lx, p, ts + rest) == true
  {
    var p1 := Advance(lx, p);
    var p2 := Advance(lx, p1);
    var p3 := Advance(lx, p2);
    if c.Between? {
      var p4 := Advance(lx, p3);
      AtPush3(lx, p2, rest);
      var tail := [p2.cur, p3.cur, p4.cur] + rest;
      AtPush(lx, p1, tail);
      AtPush(lx, p, [p1.cur] + tail);
      ts := [p.cur, p1.cur, p2.cur, p3.cur, p4.cur];
      assert ts + rest == [p.cur] + ([p1.cur] + tail);
    } else {
      AtPush3(lx, p, rest);
      ts := [p.cur, p1.cur, p2.cur];
    }
  }

  lemma CondToksLen(c: Cond, ts: seq<Tok>)
    requires CondToks(c, ts)
    ensures |ts| == CondLen(c)
  {
  }

  lemma MoreToksPush(c: Cond, conds: seq<Cond>, t: Tok, a: seq<Tok>, b: seq<Tok>)
    requires t.kind == And && CondToks(c, a) && MoreToks(conds, b) == true
    ensures MoreToks([c] + conds, [t] + a + b) == true
  {
    var ts, n := [t] + a + b, 1 + CondLen(c);
    CondToksLen(c, a);
    assert ts[1..n] == a && ts[n..] == b && ([c] + conds)[1..] == conds;
  }

  lemma WhereToksPush(c: Cond, conds: seq<Cond>, t: Tok, a: seq<Tok>, b: seq<Tok>)
    requires t.kind == Where && CondToks(c, a) && MoreToks(conds, b)
    ensures WhereToks([c] + conds, [t] + a + b) == true
  {
    var ts, n := [t] + a + b, 1 + CondLen(c);
    CondToksLen(c, a);
    assert ts[1..n] == a && ts[n..] == b && ([c] + conds)[1..] == conds;
  }

  lemma {:induction false} MoreSound(lx: Lexer, p: P, done: seq<Cond>, all: seq<Cond>, q: P) returns (ts: seq<Tok>, conds: seq<Cond>)
    requires ParseMore(lx, p, done) == Some((all, q)) && q.cur.kind == Eof && |done| <= MAX_CONDS
    ensures all == done + conds && |all| <= MAX_CONDS && MoreToks(conds, ts) == true && At(lx, p, ts) == true
    decreases MAX_CONDS - |done|
  {
    if p.cur.kind != And {
      ts, conds := [], [];
      assert done + [] == done;
    } else {
      var r := ParseCond(lx, Advance(lx, p)).value;
      var b, more := MoreSound(lx, r.1, done + [r.0], all, q);
      var a := CondSound(lx, Advance(lx, p), r.0, r.1, b);
      MoreToksPush(r.0, more, p.cur, a, b);
      AtPush(lx, p, a + b);
      ts, conds := [p.cur] + a + b, [r.0] + more;
      Assoc([p.cur], a, b);
      Assoc(done, [r.0], more);
    }
  }

  lemma WhereSound(lx: Lexer, p: P, conds: seq<Cond>, q: P) returns (ts: seq<Tok>)
    requires ParseWhere(lx, p) == Some((conds, q)) && q.cur.kind == Eof
    ensures WhereToks(conds, ts) == true && At(lx, p, ts) == true && |conds| <= MAX_CONDS
  {
    if p.cur.kind != Where {
      ts := [];
    } else {
      var r := ParseCond(lx, Advance(lx, p)).value;
      var b, more := MoreSound(lx, r.1, [r.0], conds, q);
      var a := CondSound(lx, Advance(lx, p), r.0, r.1, b);
      WhereToksPush(r.0, more, p.cur, a, b);
      AtPush(lx, p, a + b);
      ts := [p.cur] + a + b;
      Assoc([p.cur], a, b);
    }
  }

  lemma TailSound(lx: Lexer, p: P, table: Str, conds: seq<Cond>, q: P) returns (ts: seq<Tok>)
    requires ParseTail(lx, p) == Some((table, conds, q)) && q.cur.kind == Eof
    ensures TailToks(table, conds, ts) == true && At(lx, p, ts) == true
  {
    var w := WhereSound(lx, Advance(lx, p), conds, q);
    AtPush(lx, p, w);
    ts := [p.cur] + w;
    assert ts[1..] == w;
  }

  lemma {:induction false} NamesSound(lx: Lexer, p: P, done: seq<Str>, all: seq<Str>, q: P, rest: seq<Tok>) returns (ts: seq<Tok>, cols: seq<Str>)
    requires ParseCols(lx, p, done) == Some((all, q)) && p.cur.kind == Ident && At(lx, q, rest)
    ensures all == done + cols && |all| <= MAX_COLS && NamesToks(cols, ts) && At(lx, p, ts + rest)
    decreases MAX_COLS - |done|
  {
    var name, p1 := Cut(p.cur.text, COL_SIZE), Advance(lx, p);
    if p1.cur.kind != Comma {
      AtPush(lx, p, rest);
      ts, cols := [p.cur], [name];
    } else {
      var p2 := Advance(lx, p1);
      var b, more := NamesSound(lx, p2, done + [name], all, q, rest);
      AtPush(lx, p1, b + rest);
      AtPush(lx, p, [p1.cur] + (b + rest));
      NamesLength(more, b);
      ts, cols := [p.cur, p1.cur] + b, [name] + more;
      assert ts + rest == [p.cur] + ([p1.cur] + (b + rest));
      assert ts[2..] == b && cols[1..] == more && done + [name] + more == done + cols;
    }
  }

  lemma SelectToksOf(st: Stmt, t0: Tok, list: seq<Tok>, t1: Tok, tail: seq<Tok>)
    requires st.SelectStmt? && SelectToks(st, t0, list, t1, tail) == true && |list| == ListLen(st) >= 1
    ensures StmtToks(st, [t0] + list + [t1] + tail) == true
  {
    Slices(t0, list, t1, tail);
  }

  lemma Slices<T>(t0: T, list: seq<T>, t1: T, tail: seq<T>)
    ensures var ts, n := [t0] + list + [t1] + tail, |list|;
            |ts| == n + 2 + |tail| && ts[0] == t0 && ts[1..1 + n] == list && ts[1 + n] == t1 && ts[n + 2..] == tail && (n == 1 ==> ts[1] == list[0])
  {
  }

  lemma SelectSound(lx: Lexer, p: P, st: Stmt) returns (ts: seq<Tok>)
    requires p.cur.kind == Select && ParseSelect(lx, p) == Some(st)
    ensures StmtToks(st, ts) && At(lx, p, ts)
  {
    var p1 := Advance(lx, p);
    var list := SelectList(lx, p1).value;
    var p2 := list.1;
    var p3 := Advance(lx, p2);
    var t := ParseTail(lx, p3).value;
    var tail := TailSound(lx, p3, t.0, t.1, t.2);
    AtPush(lx, p2, tail);
    var rest := [p2.cur] + tail;
    var names := ListSound(lx, p1, list.0, p2, rest);
    AtPush(lx, p, names + rest);
    ts := [p.cur] + names + [p2.cur] + tail;
    Assoc([p.cur], names, rest);
    Assoc([p.cur] + names, [p2.cur], tail);
    SelectToksOf(st, p.cur, names, p2.cur, tail);
  }

  /** The select list: a star, or the names. */
  lemma ListSound(lx: Lexer, p: P, cols: seq<Str>, q: P, rest: seq<Tok>) returns (names: seq<Tok>)
    requires SelectList(lx, p) == Some((cols, q)) && At(lx, q, rest)
    ensures At(lx, p, names + rest) == true && |cols| <= MAX_COLS
    ensures p.cur.kind == Star ==> cols == [] && |names| == 1 && names[0].kind == Star
    ensures p.cur.kind != Star ==> |names| == 2 * |cols| - 1 >= 1 && NamesToks(cols, names) == true
  {
    if p.cur.kind == Star {
      AtPush(lx, p, rest);
      names := [p.cur];
    } else {
      var all;
      names, all := NamesSound(lx, p, [], cols, q, rest);
      assert [] + all == all;
      NamesLength(cols, names);
    }
  }

  lemma UpdateToksOf(st: Stmt, t0: Tok, t1: Tok, t2: Tok, t3: Tok, t4: Tok, t5: Tok, tail: seq<Tok>)
    requires st.UpdateStmt? && UpdateToks(st, t0, t1, t2, t3, t4, t5, tail) == true
    ensures StmtToks(st, [t0, t1, t2] + ([t3, t4, t5] + tail)) == true
  {
    Six(t0, t1, t2, t3, t4, t5, tail);
  }

  lemma Six<T>(t0: T, t1: T, t2: T, t3: T, t4: T, t5: T, tail: seq<T>)
    ensures var ts := [t0, t1, t2] + ([t3, t4, t5] + tail);
            |ts| >= 6 && ts[0] == t0 && ts[1] == t1 && ts[2] == t2 && ts[3] == t3 && ts[4] == t4 && ts[5] == t5 && ts[6..] == tail
    ensures [t0, t1, t2] + ([t3, t4, t5] + tail) == [t0, t1, t2, t3, t4, t5] + tail
  {
  }

  lemma UpdateSound(lx: Lexer, p: P, st: Stmt) returns (ts: seq<Tok>)
    requires p.cur.kind == Update && ParseUpdate(lx, p) == Some(st)
    ensures StmtToks(st, ts) == true && At(lx, p, ts) == true
  {
    var p1 := Advance(lx, p);
    var p2 := Advance(lx, p1);
    var p3 := Advance(lx, p2);
    var p4 := Advance(lx, p3);
    var p5 := Advance(lx, p4);
    var p6 := Advance(lx, p5);
    var q := UpdateRead(lx, p, st);
    var tail := WhereSound(lx, p6, st.conds, q);
    AtPush3(lx, p3, tail);
    AtPush3(lx, p, [p3.cur, p4.cur, p5.cur] + tail);
    UpdateToksOf(st, p.cur, p1.cur, p2.cur, p3.cur, p4.cur, p5.cur, tail);
    ts := [p.cur, p1.cur, p2.cur] + ([p3.cur, p4.cur, p5.cur] + tail);
  }

  /** What parse_update has read when it succeeds. */
  lemma UpdateRead(lx: Lexer, p: P, st: Stmt) returns (q: P)
    requires p.cur.kind == Update && ParseUpdate(lx, p) == Some(st)
    ensures var p1 := Advance(lx, p); var p2 := Advance(lx, p1); var p3 := Advance(lx, p2); var p4 := Advance(lx, p3); var p5 := Advance(lx, p4);
            && st.UpdateStmt? && p1.cur == Tok(Ident, st.table) && p2.cur.kind == Set && IsName(p3.cur, st.col) && p4.cur.kind == Equals && IsValue(p5.cur, st.val)
            && ParseWhere(lx, Advance(lx, p5)) == Some((st.conds, q)) && q.cur.kind == Eof
  {
    var p5 := Advance(lx, Advance(lx, Advance(lx, Advance(lx, Advance(lx, p)))));
    q := ParseWhere(lx, Advance(lx, p5)).value.1;
  }

  lemma DeleteToksOf(st: Stmt, t0: Tok, t1: Tok, tail: seq<Tok>)
    requires st.DeleteStmt? && DeleteToks(st, t0, t1, tail) == true
    ensures StmtToks(st, [t0] + ([t1] + tail)) == true
  {
    Two(t0, t1, tail);
  }

  lemma Two<T>(t0: T, t1: T, tail: seq<T>)
    ensures var ts := [t0] + ([t1] + tail); |ts| >= 2 && ts[0] == t0 && ts[1] == t1 && ts[2..] == tail
  {
  }

  lemma DeleteSound(lx: Lexer, p: P, st: Stmt) returns (ts: seq<Tok>)
    requires p.cur.kind == Delete && ParseDelete(lx, p) == Some(st)
    ensures StmtToks(st, ts) == true && At(lx, p, ts) == true
  {
    var p1 := Advance(lx, p);
    var p2 := Advance(lx, p1);
    var tail := TailSound(lx, p2, st.table, st.conds, ParseTail(lx, p2).value.2);
    AtPush(lx, p1, tail);
    AtPush(lx, p, [p1.cur] + tail);
    DeleteToksOf(st, p.cur, p1.cur, tail);
    ts := [p.cur] + ([p1.cur] + tail);
  }

  /** A text is read as a SELECT, UPDATE or DELETE exactly when its tokens, all of them to
      the end of the text, are those of that statement: BETWEEN's AND never separates
      conditions, and nothing follows the statement. */
  lemma ParseIff(s: Str, st: Stmt)
    requires !st.InsertStmt?
    ensures Parse(s) == Some(st) <==> exists ts :: StmtToks(st, ts) && Reads(LexerOf(s), Start(s), ts)
  {
    var lx := LexerOf(s);
    var p := Advance(lx, P(Tok(Illegal, []), Start(s)));
    if Parse(s) == Some(st) {
      var ts;
      match p.cur.kind {
        case Select => ts := SelectSound(lx, p, st);
        case Update => ts := UpdateSound(lx, p, st);
        case Delete => ts := DeleteSound(lx, p, st);
        case Insert => InsertOnly(s, lx, p, st);
        case _ =>
      }
      assert StmtToks(st, ts) && Reads(lx, Start(s), ts);
    }
    if ts :| StmtToks(st, ts) && Reads(lx, Start(s), ts) {
      TokensParse(s, st, ts);
    }
  }

  lemma InsertOnly(s: Str, lx: Lexer, p: P, st: Stmt)
    requires ParseInsert(s, lx, p) == Some(st)
    ensures st.InsertStmt?
  {
  }

  // ------------------------------------------------------------ printing

  /** The spelling of a keyword or symbol. */
  function Word(k: TokKind): Str {
    match k
    case Select => "SELECT"
    case Insert => "INSERT"
    case Update => "UPDATE"
    case Delete => "DELETE"
    case From => "FROM"
    case Where => "WHERE"
    case Set => "SET"
    case Into => "INTO"
    case Values => "VALUES"
    case Between_ => "BETWEEN"
    case And => "AND"
    case Star => "*"
    case Comma => ","
    case LParen => "("
    case RParen => ")"
    case Equals => "="
    case Semicolon => ";"
    case _ => ""
  }

  function K(k: TokKind): Tok {
    Tok(k, Word(k))
  }

  predicate IsKeyword(k: TokKind) {
    k in {Select, Insert, Update, Delete, From, Where, Set, Into, Values, Between_, And}
  }

  predicate IsSymbol(k: TokKind) {
    k in {Star, Comma, LParen, RParen, Equals, Semicolon}
  }

  predicate IsWord(t: Str) {
    t != [] && |t| < TEXT_SIZE && (IsAlpha(t[0]) || t[0] == '_') && forall i :: 0 <= i < |t| ==> IsWordChar(t[i])
  }

  /** A token that can be printed and read back. */
  predicate Printable(t: Tok) {
    if t.kind == Ident then IsWord(t.text) && KeywordOf(t.text) == Ident
    else if t.kind == Literal then |t.text| < TEXT_SIZE && forall i :: 0 <= i < |t.text| ==> t.text[i] != '\''
    else (IsKeyword(t.kind) || IsSymbol(t.kind)) && t.text == Word(t.kind)
  }

  function TokText(t: Tok): Str {
    if t.kind == Literal then ['\''] + t.text + ['\''] else t.text
  }

  function PrintToks(ts: seq<Tok>): Str {
    if ts == [] then [] else TokText(ts[0]) + [' '] + PrintToks(ts[1..])
  }

  /** Only whitespace between two positions. */
  ghost predicate Blank(s: Str, i: nat, j: nat) {
    i <= j <= |s| && forall k :: i <= k < j ==> IsSpace(s[k])
  }

  lemma WordFacts(k: TokKind)
    requires IsKeyword(k)
    ensures IsWord(Word(k)) && KeywordOf(Word(k)) == k
  {
    assert Uppers(Word(k)) == Word(k);
  }

  lemma SkipTo(s: Str, pos: nat, i: nat)
    requires Blank(s, pos, i) && (i < |s| ==> !IsSpace(s[i]))
    ensures SkipWs(s, pos) == i
  {
  }

  lemma {:induction false} WordEndAt(s: Str, i: nat, e: nat)
    requires i <= e <= |s| && (forall j :: i <= j < e ==> IsWordChar(s[j])) && (e < |s| ==> !IsWordChar(s[e]))
    ensures WordEnd(s, i) == e
    decreases e - i
  {
    if i < e {
      WordEndAt(s, i + 1, e);
    }
  }

  /** A word that ends there is read as one token. */
  lemma LexWord(s: Str, pos: nat, i: nat, w: Str)
    requires Blank(s, pos, i) && HasAt(s, i, w) && IsWord(w) && (i + |w| < |s| ==> !IsWordChar(s[i + |w|]))
    ensures Lex(s, pos) == (Tok(KeywordOf(w), w), i + |w|)
  {
    assert s[i + 0] == w[0];
    SkipTo(s, pos, i);
    forall j | i <= j < i + |w| ensures IsWordChar(s[j]) {
      assert s[i + (j - i)] == w[j - i];
    }
    WordEndAt(s, i, i + |w|);
    assert s[i..i + |w|] == w;
  }

  lemma LexLiteral(s: Str, pos: nat, i: nat, v: Str)
    requires Blank(s, pos, i) && HasAt(s, i, ['\''] + v + ['\'']) && |v| < TEXT_SIZE && forall k :: 0 <= k < |v| ==> v[k] != '\''
    ensures Lex(s, pos) == (Tok(Literal, v), i + |v| + 2)
  {
    var w := ['\''] + v + ['\''];
    assert s[i + 0] == w[0];
    SkipTo(s, pos, i);
    forall k | 0 <= k < |v| ensures s[i + 1 + k] == v[k] {
      assert s[i + (k + 1)] == w[k + 1];
    }
    assert s[i + (|v| + 1)] == w[|v| + 1];
    forall j | i + 1 <= j < i + 1 + |v| ensures s[j] != '\'' {
      assert s[i + 1 + (j - i - 1)] == v[j - i - 1];
    }
    assert QuoteEnd(s, i + 1) == i + 1 + |v|;
    assert s[i + 1..i + 1 + |v|] == v;
  }

  lemma LexSymbol(s: Str, pos: nat, i: nat, k: TokKind)
    requires Blank(s, pos, i) && IsSymbol(k) && HasAt(s, i, Word(k))
    ensures Lex(s, pos) == (K(k), i + 1)
  {
    assert s[i + 0] == Word(k)[0];
    SkipTo(s, pos, i);
  }

  lemma LexPrinted(s: Str, pos: nat, i: nat, t: Tok)
    requires Printable(t) && Blank(s, pos, i) && HasAt(s, i, TokText(t) + [' '])
    ensures Lex(s, pos) == (t, i + |TokText(t)|)
  {
    var w := TokText(t);
    HasAtSplit(s, i, w, [' ']);
    assert s[i + |w| + 0] == [' '][0];
    if t.kind == Ident {
      LexWord(s, pos, i, w);
    } else if t.kind == Literal {
      LexLiteral(s, pos, i, t.text);
    } else if IsKeyword(t.kind) {
      WordFacts(t.kind);
      LexWord(s, pos, i, w);
    } else {
      LexSymbol(s, pos, i, t.kind);
    }
  }

  lemma LexerPrinted(s: Str, pos: nat, i: nat, t: Tok)
    requires Printable(t) && Blank(s, pos, i) && HasAt(s, i, TokText(t) + [' '])
    ensures LexerOf(s)(pos) == (t, i + |TokText(t)|) && t.kind != Eof
  {
    LexPrinted(s, pos, i, t);
  }

  lemma LexerEnd(s: Str, pos: nat)
    requires Blank(s, pos, |s|)
    ensures LexerOf(s)(pos).0.kind == Eof
  {
    assert Lex(s, pos).0.kind == Eof;
  }

  lemma PrintedStep(s: Str, i: nat, w: Str, rest: Str)
    requires HasAt(s, i, w + [' '] + rest)
    ensures HasAt(s, i, w + [' ']) && HasAt(s, i + |w| + 1, rest) && Blank(s, i + |w|, i + |w| + 1)
  {
    HasAtSplit(s, i, w + [' '], rest);
    HasAtSplit(s, i, w, [' ']);
    assert s[i + |w| + 0] == [' '][0];
  }

  lemma ReadsPush(lx: Lexer, pos: nat, ts: seq<Tok>, n: nat)
    requires ts != [] && lx(pos) == (ts[0], n) && ts[0].kind != Eof && Reads(lx, n, ts[1..])
    ensures Reads(lx, pos, ts) == true
  {
  }

  /** The rest of the text is these tokens in print. */
  ghost predicate Printed(s: Str, pos: nat, i: nat, ts: seq<Tok>) {
    Blank(s, pos, i) && HasAt(s, i, PrintToks(ts)) && i + |PrintToks(ts)| == |s| && forall k :: 0 <= k < |ts| ==> Printable(ts[k])
  }

  lemma PrintedNext(s: Str, pos: nat, i: nat, ts: seq<Tok>, n: nat)
    requires Printed(s, pos, i, ts) && ts != [] && n == i + |TokText(ts[0])|
    ensures LexerOf(s)(pos) == (ts[0], n) && ts[0].kind != Eof && Printed(s, n, n + 1, ts[1..]) == true
  {
    PrintedStep(s, i, TokText(ts[0]), PrintToks(ts[1..]));
    LexerPrinted(s, pos, i, ts[0]);
  }

  /** Printed tokens are read back. */
  lemma {:induction false} PrintedReads(s: Str, pos: nat, i: nat, ts: seq<Tok>)
    requires Printed(s, pos, i, ts) == true
    ensures Reads(LexerOf(s), pos, ts) == true
    decreases |ts|
  {
    if ts == [] {
      LexerEnd(s, pos);
    } else {
      var n := i + |TokText(ts[0])|;
      PrintedNext(s, pos, i, ts, n);
      PrintedReads(s, n, n + 1, ts[1..]);
      ReadsPush(LexerOf(s), pos, ts, n);
    }
  }

  // ------------------------------------------------------------ statements in print

  function NameTok(n: Str): Tok {
    Tok(Ident, n)
  }

  function ValueTok(v: Str): Tok {
    Tok(Literal, v)
  }

  function CondPrint(c: Cond): seq<Tok> {
    match c
    case Eq(col, v) => [NameTok(col), K(Equals), ValueTok(v)]
    case Between(col, lo, hi) => [NameTok(col), K(Between_), ValueTok(lo), K(And), ValueTok(hi)]
    case Untyped(col) => []
  }

  function MorePrint(conds: seq<Cond>): seq<Tok> {
    if conds == [] then [] else [K(And)] + CondPrint(conds[0]) + MorePrint(conds[1..])
  }

  function WherePrint(conds: seq<Cond>): seq<Tok> {
    if conds == [] then [] else [K(Where)] + CondPrint(conds[0]) + MorePrint(conds[1..])
  }

  function NamesPrint(cols: seq<Str>): seq<Tok> {
    if cols == [] then []
    else if |cols| == 1 then [NameTok(cols[0])]
    else [NameTok(cols[0]), K(Comma)] + NamesPrint(cols[1..])
  }

  /** The tokens of a SELECT, UPDATE or DELETE, with every value quoted. */
  function StmtPrint(st: Stmt): seq<Tok> {
    match st
    case SelectStmt(all, cols, table, conds) =>
      [K(Select)] + (if all then [K(Star)] else NamesPrint(cols)) + [K(From), NameTok(table)] + WherePrint(conds)
    case UpdateStmt(table, col, val, conds) =>
      [K(Update), NameTok(table), K(Set), NameTok(col), K(Equals), ValueTok(val)] + WherePrint(conds)
    case DeleteStmt(table, conds) => [K(Delete), K(From), NameTok(table)] + WherePrint(conds)
    case InsertStmt(_, _) => []
  }

  predicate FitsCond(c: Cond) {
    match c
    case Eq(col, v) => |col| < COL_SIZE && |v| < TEXT_SIZE
    case Between(col, lo, hi) => |col| < COL_SIZE && |lo| < TEXT_SIZE && |hi| < TEXT_SIZE
    case Untyped(_) => false
  }

  predicate FitsConds(conds: seq<Cond>) {
    |conds| <= MAX_CONDS && forall i :: 0 <= i < |conds| ==> FitsCond(conds[i])
  }

  /** Everything fits its field: at most 8 conditions and 15 columns, names of columns
      under 50 characters and values under 256. */
  predicate Fits(st: Stmt) {
    match st
    case SelectStmt(all, cols, table, conds) =>
      (all <==> cols == []) && |cols| <= MAX_COLS && (forall i :: 0 <= i < |cols| ==> |cols[i]| < COL_SIZE) && FitsConds(conds)
    case UpdateStmt(table, col, val, conds) => |col| < COL_SIZE && |val| < TEXT_SIZE && FitsConds(conds)
    case DeleteStmt(table, conds) => FitsConds(conds)
    case InsertStmt(_, _) => false
  }

  ghost predicate AllPrintable(ts: seq<Tok>) {
    forall k :: 0 <= k < |ts| ==> Printable(ts[k])
  }

  lemma CondPrints(c: Cond)
    requires FitsCond(c)
    ensures CondToks(c, CondPrint(c)) && |CondPrint(c)| == CondLen(c)
  {
  }

  lemma {:induction false} MorePrints(conds: seq<Cond>)
    requires forall i :: 0 <= i < |conds| ==> FitsCond(conds[i])
    ensures MoreToks(conds, MorePrint(conds))
    decreases |conds|
  {
    if conds != [] {
      CondPrints(conds[0]);
      MorePrints(conds[1..]);
      MoreToksPush(conds[0], conds[1..], K(And), CondPrint(conds[0]), MorePrint(conds[1..]));
      assert [conds[0]] + conds[1..] == conds;
    }
  }

  lemma WherePrints(conds: seq<Cond>)
    requires FitsConds(conds)
    ensures WhereToks(conds, WherePrint(conds)) == true
  {
    if conds != [] {
      var a, b := CondPrint(conds[0]), MorePrint(conds[1..]);
      CondPrints(conds[0]);
      MorePrints(conds[1..]);
      var ts, n := WherePrint(conds), 1 + CondLen(conds[0]);
      assert ts[1..n] == a && ts[n..] == b;
    }
  }

  lemma {:induction false} NamesPrints(cols: seq<Str>)
    requires cols != [] && forall i :: 0 <= i < |cols| ==> |cols[i]| < COL_SIZE
    ensures NamesToks(cols, NamesPrint(cols)) == true
    decreases |cols|
  {
    assert Cut(cols[0], COL_SIZE) == cols[0];
    if |cols| > 1 {
      NamesPrints(cols[1..]);
      NamesLength(cols[1..], NamesPrint(cols[1..]));
      assert NamesPrint(cols)[2..] == NamesPrint(cols[1..]);
    }
  }

  lemma TailPrints(table: Str, conds: seq<Cond>)
    requires FitsConds(conds)
    ensures TailToks(table, conds, [NameTok(table)] + WherePrint(conds)) == true
  {
    WherePrints(conds);
    assert ([NameTok(table)] + WherePrint(conds))[1..] == WherePrint(conds);
  }

  lemma SelectPrints(st: Stmt)
    requires st.SelectStmt? && Fits(st)
    ensures StmtToks(st, StmtPrint(st)) == true
  {
    var list, tail := if st.all then [K(Star)] else NamesPrint(st.cols), [NameTok(st.table)] + WherePrint(st.conds);
    TailPrints(st.table, st.conds);
    if !st.all {
      NamesPrints(st.cols);
      NamesLength(st.cols, list);
    }
    SelectToksOf(st, K(Select), list, K(From), tail);
    SelectLayout(list, st.table, WherePrint(st.conds));
  }

  lemma SelectLayout(list: seq<Tok>, table: Str, w: seq<Tok>)
    ensures [K(Select)] + list + [K(From), NameTok(table)] + w == [K(Select)] + list + [K(From)] + ([NameTok(table)] + w)
  {
  }

  lemma UpdatePrints(st: Stmt)
    requires st.UpdateStmt? && Fits(st)
    ensures StmtToks(st, StmtPrint(st)) == true
  {
    var w := WherePrint(st.conds);
    WherePrints(st.conds);
    UpdateToksOf(st, K(Update), NameTok(st.table), K(Set), NameTok(st.col), K(Equals), ValueTok(st.val), w);
    Six(K(Update), NameTok(st.table), K(Set), NameTok(st.col), K(Equals), ValueTok(st.val), w);
  }

  lemma DeletePrints(st: Stmt)
    requires st.DeleteStmt? && Fits(st)
    ensures StmtToks(st, StmtPrint(st)) == true
  {
    var w := WherePrint(st.conds);
    TailPrints(st.table, st.conds);
    DeleteToksOf(st, K(Delete), K(From), [NameTok(st.table)] + w);
    DeleteLayout(st.table, w);
  }

  lemma DeleteLayout(table: Str, w: seq<Tok>)
    ensures [K(Delete)] + ([K(From)] + ([NameTok(table)] + w)) == [K(Delete), K(From), NameTok(table)] + w
  {
  }

  lemma {:induction false} PrintedStart(ts: seq<Tok>)
    requires ts != [] && AllPrintable(ts) && IsKeyword(ts[0].kind)
    ensures Start(PrintToks(ts)) == 0
  {
    assert Printable(ts[0]);
    WordFacts(ts[0].kind);
    assert PrintToks(ts)[0] == Word(ts[0].kind)[0];
  }

  lemma StmtPrints(st: Stmt)
    requires Fits(st)
    ensures StmtToks(st, StmtPrint(st)) == true && StmtPrint(st) != [] && IsKeyword(StmtPrint(st)[0].kind)
  {
    match st {
      case SelectStmt(_, _, _, _) => SelectPrints(st);
      case UpdateStmt(_, _, _, _) => UpdatePrints(st);
      case DeleteStmt(_, _) => DeletePrints(st);
    }
  }

  /** Parsing undoes printing for every SELECT, UPDATE and DELETE whose parts fit their
      fields, whose names are words but no keywords, and whose values have no quotes. */
  lemma PrintParse(st: Stmt)
    requires Fits(st) && AllPrintable(StmtPrint(st)) == true
    ensures Parse(PrintToks(StmtPrint(st))) == Some(st)
  {
    var ts := StmtPrint(st);
    StmtPrints(st);
    PrintedStart(ts);
    PrintedAll(ts);
    TokensParse(PrintToks(ts), st, ts);
  }

  lemma PrintedAll(ts: seq<Tok>)
    requires AllPrintable(ts)
    ensures Reads(LexerOf(PrintToks(ts)), 0, ts) == true
  {
    PrintedReads(PrintToks(ts), 0, 0, ts);
  }

  // ------------------------------------------------------------ INSERT

  /** The row text closes its quotes and has no ')' outside them. */
  predicate RowText(row: Str, i: nat, quoted: bool)
    requires i <= |row|
    decreases |row| - i
  {
    if i == |row| then !quoted
    else if row[i] == '\'' then RowText(row, i + 1, !quoted)
    else (row[i] == ')' ==> quoted) && RowText(row, i + 1, quoted)
  }

  lemma {:induction false} CloseAfterRow(s: Str, at: nat, row: Str, i: nat, quoted: bool)
    requires HasAt(s, at, row) && i <= |row| && RowText(row, i, quoted) && at + |row| < |s| && s[at + |row|] == ')'
    ensures CloseParen(s, at + i, quoted) == at + |row|
    decreases |row| - i
  {
    if i < |row| {
      assert s[at + i] == row[i];
      CloseAfterRow(s, at, row, i + 1, if row[i] == '\'' then !quoted else quoted);
    }
  }

  function InsertPrint(table: Str, row: Str): Str {
    PrintToks([K(Insert), K(Into), NameTok(table), K(Values)]) + (['('] + row + [')'])
  }

  lemma LexerSymbol(s: Str, pos: nat, i: nat, k: TokKind)
    requires Blank(s, pos, i) && IsSymbol(k) && HasAt(s, i, Word(k))
    ensures LexerOf(s)(pos) == (K(k), i + 1)
  {
    LexSymbol(s, pos, i, k);
  }

  /** The next of the printed tokens, and where the lexer stands after it. */
  lemma InsertStep(s: Str, pos: nat, i: nat, t: Tok, rest: Str) returns (n: nat)
    requires Printable(t) == true && Blank(s, pos, i) && HasAt(s, i, TokText(t) + [' '] + rest)
    ensures n == i + |TokText(t)| && LexerOf(s)(pos) == (t, n)
    ensures HasAt(s, n + 1, rest) && Blank(s, n, n + 1)
  {
    n := i + |TokText(t)|;
    PrintedStep(s, i, TokText(t), rest);
    LexerPrinted(s, pos, i, t);
  }

  /** Parsing undoes printing for INSERT: row text with balanced quotes and no ')' outside
      them, up to 1023 characters. */
  lemma InsertParse(table: Str, row: Str)
    requires Printable(NameTok(table)) == true && RowText(row, 0, false) == true && |row| < ROW_SIZE
    ensures Parse(InsertPrint(table, row)) == Some(InsertStmt(table, row))
  {
    var s := InsertPrint(table, row);
    var a := InsertReads(s, table, row);
    InsertStarts(s, a);
  }

  lemma InsertReads(s: Str, table: Str, row: Str) returns (a: nat)
    requires Printable(NameTok(table)) == true && RowText(row, 0, false) == true && |row| < ROW_SIZE && s == InsertPrint(table, row)
    ensures LexerOf(s)(0) == (K(Insert), a) && Start(s) == 0
    ensures ParseInsert(s, LexerOf(s), P(K(Insert), a)) == Some(InsertStmt(table, row))
  {
    var i;
    a, i := InsertTokens(s, table, row);
    InsertTail(s, i + 2, row);
    InsertRead(s, LexerOf(s), table, row, a, i);
  }

  lemma InsertStarts(s: Str, a: nat)
    requires LexerOf(s)(0) == (K(Insert), a) && Start(s) == 0
    ensures Parse(s) == ParseInsert(s, LexerOf(s), P(K(Insert), a))
  {
  }

  /** The tokens of a printed INSERT after its first word, up to the opening parenthesis
      before i + 2. */
  ghost predicate InsertPath(lx: Lexer, table: Str, a: nat, b: nat, c: nat, i: nat) {
    lx(a) == (K(Into), b) && lx(b) == (NameTok(table), c) && lx(c) == (K(Values), i) && lx(i) == (K(LParen), i + 2)
  }

  ghost predicate InsertLexed(lx: Lexer, table: Str, a: nat, i: nat) {
    exists b: nat, c: nat :: InsertPath(lx, table, a, b, c, i)
  }

  /** From those tokens on, the row text is all the parser needs. */
  lemma InsertRead(s: Str, lx: Lexer, table: Str, row: Str, a: nat, i: nat)
    requires InsertLexed(lx, table, a, i) && i + 2 + |row| < |s| && |row| < ROW_SIZE
    requires CloseParen(s, i + 2, false) == i + 2 + |row| && SkipWs(s, i + 2 + |row| + 1) == |s| && s[i + 2..i + 2 + |row|] == row
    ensures ParseInsert(s, lx, P(K(Insert), a)) == Some(InsertStmt(table, row))
  {
    var b: nat, c: nat :| InsertPath(lx, table, a, b, c, i);
    InsertHead(lx, table, a, b, c, i);
    assert Cut(row, ROW_SIZE) == row;
  }

  lemma InsertHead(lx: Lexer, table: Str, a: nat, b: nat, c: nat, i: nat)
    requires InsertPath(lx, table, a, b, c, i)
    ensures Expect(lx, Advance(lx, P(K(Insert), a)), Into) == Some(P(NameTok(table), c))
    ensures Expect(lx, Advance(lx, P(NameTok(table), c)), Values) == Some(P(K(LParen), i + 2))
  {
  }

  lemma InsertTokens(s: Str, table: Str, row: Str) returns (a: nat, i: nat)
    requires Printable(NameTok(table)) == true && s == InsertPrint(table, row)
    ensures LexerOf(s)(0) == (K(Insert), a) && InsertLexed(LexerOf(s), table, a, i) == true && HasAt(s, i + 2, row + [')']) && i + 2 + |row| + 1 == |s| && Start(s) == 0
  {
    var end := ['('] + row + [')'];
    var t0, t1, t2, t3 := K(Insert), K(Into), NameTok(table), K(Values);
    var r3 := TokText(t3) + [' '] + end;
    var r2 := TokText(t2) + [' '] + r3;
    var r1 := TokText(t1) + [' '] + r2;
    InsertLayout(table, row, end, r1, r2, r3);
    KPrintable(Insert);
    KPrintable(Into);
    KPrintable(Values);
    a := InsertStep(s, 0, 0, t0, r1);
    i := InsertRest(s, table, row, a, end, r1, r2, r3);
  }

  lemma InsertRest(s: Str, table: Str, row: Str, a: nat, end: Str, r1: Str, r2: Str, r3: Str) returns (i: nat)
    requires Printable(NameTok(table)) == true && Printable(K(Into)) == true && Printable(K(Values)) == true
    requires end == ['('] + row + [')'] && r3 == Word(Values) + [' '] + end && r2 == table + [' '] + r3 && r1 == Word(Into) + [' '] + r2
    requires HasAt(s, a + 1, r1) == true && Blank(s, a, a + 1) == true
    ensures InsertLexed(LexerOf(s), table, a, i) == true && HasAt(s, i + 2, row + [')']) == true
    ensures i == a + |Word(Into)| + |table| + |Word(Values)| + 3
  {
    var b := InsertStep(s, a, a + 1, K(Into), r2);
    var c := InsertStep(s, b, b + 1, NameTok(table), r3);
    i := InsertStep(s, c, c + 1, K(Values), end);
    InsertOpen(s, i, row);
    assert InsertPath(LexerOf(s), table, a, b, c, i);
  }

  lemma InsertOpen(s: Str, i: nat, row: Str)
    requires Blank(s, i, i + 1) && HasAt(s, i + 1, ['('] + row + [')'])
    ensures LexerOf(s)(i) == (K(LParen), i + 2) && HasAt(s, i + 2, row + [')']) == true
  {
    assert ['('] + row + [')'] == ['('] + (row + [')']);
    HasAtSplit(s, i + 1, ['('], row + [')']);
    LexerSymbol(s, i, i + 1, LParen);
  }

  lemma KPrintable(k: TokKind)
    requires IsKeyword(k) || IsSymbol(k)
    ensures Printable(K(k)) == true && TokText(K(k)) == Word(k)
  {
  }

  lemma InsertLayout(table: Str, row: Str, end: Str, r1: Str, r2: Str, r3: Str)
    requires end == ['('] + row + [')'] && r3 == Word(Values) + [' '] + end && r2 == table + [' '] + r3 && r1 == Word(Into) + [' '] + r2
    ensures HasAt(InsertPrint(table, row), 0, Word(Insert) + [' '] + r1) && |InsertPrint(table, row)| == |Word(Insert)| + 1 + |r1|
    ensures Start(InsertPrint(table, row)) == 0
  {
    Unrolled(table, end);
    assert InsertPrint(table, row)[0] == 'I';
  }

  lemma Unrolled(table: Str, end: Str)
    ensures PrintToks([K(Insert), K(Into), NameTok(table), K(Values)]) + end ==
            Word(Insert) + [' '] + (Word(Into) + [' '] + (table + [' '] + (Word(Values) + [' '] + end)))
  {
    var a, b, c, d := K(Insert), K(Into), NameTok(table), K(Values);
    assert [a, b, c, d][1..] == [b, c, d] && [b, c, d][1..] == [c, d] && [c, d][1..] == [d] && [d][1..] == [];
    var p3 := PrintToks([d]);
    var p2 := PrintToks([c, d]);
    var p1 := PrintToks([b, c, d]);
    var none: seq<Tok> := [];
    assert [d][1..] == none && PrintToks(none) == [];
    assert p3 == TokText(d) + [' '] + PrintToks(none) == Word(Values) + [' '] + [];
    assert p3 + end == Word(Values) + [' '] + end;
    assert p2 + end == table + [' '] + (p3 + end);
    assert p1 + end == Word(Into) + [' '] + (p2 + end);
  }

  /** What follows the opening parenthesis. */
  lemma InsertTail(s: Str, at: nat, row: Str)
    requires HasAt(s, at, row + [')']) && at + |row| + 1 == |s| && RowText(row, 0, false)
    ensures CloseParen(s, at, false) == at + |row| && SkipWs(s, at + |row| + 1) == |s| && s[at..at + |row|] == row
  {
    HasAtSplit(s, at, row, [')']);
    assert s[at + |row| + 0] == [')'][0];
    CloseAfterRow(s, at, row, 0, false);
    assert at + 0 == at;
  }

  // ------------------------------------------------------------ INSERT, exactly

  lemma {:induction false} CloseEndsRow(s: Str, open: nat, i: nat, quoted: bool, close: nat)
    requires open <= i <= |s| && CloseParen(s, i, quoted) == close < |s|
    ensures i <= close && s[close] == ')' && RowText(s[open..close], i - open, quoted)
    decreases |s| - i
  {
    if s[i] == '\'' {
      CloseEndsRow(s, open, i + 1, !quoted, close);
    } else if !(s[i] == ')' && !quoted) {
      CloseEndsRow(s, open, i + 1, quoted, close);
    }
  }

  /** The close parenthesis is the first one outside quotes. */
  lemma CloseIff(s: Str, open: nat, close: nat)
    requires open <= close < |s|
    ensures CloseParen(s, open, false) == close <==> s[close] == ')' && RowText(s[open..close], 0, false)
  {
    if CloseParen(s, open, false) == close {
      CloseEndsRow(s, open, open, false, close);
    }
    if s[close] == ')' && RowText(s[open..close], 0, false) {
      CloseAfterRow(s, open, s[open..close], 0, false);
      assert open + 0 == open;
    }
  }

  /** What follows the opening parenthesis: the row text, which closes its quotes and has
      no ')' outside them, then ')', and after that nothing but whitespace. */
  ghost predicate RowAt(s: Str, open: nat, row: Str) {
    exists close :: open <= close < |s| && s[close] == ')' && RowText(s[open..close], 0, false) && Blank(s, close + 1, |s|) && row == Cut(s[open..close], ROW_SIZE)
  }

  lemma RowIff(s: Str, open: nat, row: Str)
    requires open <= |s|
    ensures var close := CloseParen(s, open, false);
            RowAt(s, open, row) <==> close < |s| && SkipWs(s, close + 1) == |s| && row == Cut(s[open..close], ROW_SIZE)
  {
    var close := CloseParen(s, open, false);
    if RowAt(s, open, row) {
      var k :| open <= k < |s| && s[k] == ')' && RowText(s[open..k], 0, false) && Blank(s, k + 1, |s|) && row == Cut(s[open..k], ROW_SIZE);
      CloseIff(s, open, k);
      SkipTo(s, k + 1, |s|);
    }
    if close < |s| && SkipWs(s, close + 1) == |s| && row == Cut(s[open..close], ROW_SIZE) {
      CloseIff(s, open, close);
    }
  }

  /** The tokens INSERT INTO table VALUES ( and the row behind them. */
  ghost predicate InsertShape(s: Str, lx: Lexer, p: P, table: Str, row: Str) {
    var p1 := Advance(lx, p); var p2 := Advance(lx, p1); var p3 := Advance(lx, p2); var p4 := Advance(lx, p3);
    && p1.cur.kind == Into && p2.cur == Tok(Ident, table) && p3.cur.kind == Values && p4.cur.kind == LParen
    && p4.pos <= |s| && RowAt(s, p4.pos, row)
  }

  lemma InsertShapeIff(s: Str, lx: Lexer, p: P, table: Str, row: Str)
    ensures ParseInsert(s, lx, p) == Some(InsertStmt(table, row)) <==> InsertShape(s, lx, p, table, row)
  {
    var p4 := Advance(lx, Advance(lx, Advance(lx, Advance(lx, p))));
    if p4.pos <= |s| {
      RowIff(s, p4.pos, row);
    }
  }

  /** A text is read as an INSERT exactly when it is INSERT INTO table VALUES ( row ) and
      nothing but whitespace follows. */
  lemma InsertIff(s: Str, table: Str, row: Str)
    ensures var lx := LexerOf(s); var p := Advance(lx, P(Tok(Illegal, []), Start(s)));
            Parse(s) == Some(InsertStmt(table, row)) <==> p.cur.kind == Insert && InsertShape(s, lx, p, table, row)
  {
    var lx := LexerOf(s);
    var p := Advance(lx, P(Tok(Illegal, []), Start(s)));
    InsertShapeIff(s, lx, p, table, row);
    if Parse(s) == Some(InsertStmt(table, row)) {
      OtherKinds(lx, p, InsertStmt(table, row));
    }
  }

  /** The other statements are never read as an INSERT. */
  lemma OtherKinds(lx: Lexer, p: P, st: Stmt)
    requires st.InsertStmt?
    ensures ParseSelect(lx, p) != Some(st) && ParseUpdate(lx, p) != Some(st) && ParseDelete(lx, p) != Some(st)
  {
  }
}
