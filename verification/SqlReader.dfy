/** The lexer and parser as they run: a position, a current token, and loops
    (src/legacy/lexer.c, src/legacy/parser.c).  Every method does what the function of
    Sql with its name says. */
module SqlReader {
  import opened Basics
  import opened Text
  import opened EngineSpec
  import opened Sql

  class Reader {
    const s: Str
    var cur: Tok
    var pos: nat

    ghost predicate Valid()
      reads this
    {
      pos <= |s|
    }

    ghost function State(): P
      reads this
    {
      P(cur, pos)
    }

    ghost function Lx(): Lexer {
      LexerOf(s)
    }

    /** init_lexer. */
    constructor (s: Str)
      ensures Valid() && this.s == s && State() == P(Tok(Illegal, []), Start(s))
    {
      this.s := s;
      cur := Tok(Illegal, []);
      pos := Start(s);
    }

    /** The whitespace loop of get_next_token. */
    method SkipSpaces()
      requires Valid()
      modifies this`pos
      ensures Valid() && pos == SkipWs(s, old(pos))
    {
      while pos < |s| && IsSpace(s[pos])
        invariant old(pos) <= pos <= |s| && SkipWs(s, pos) == SkipWs(s, old(pos))
      {
        pos := pos + 1;
      }
    }

    /** The loop over the characters of a word or number. */
    method SkipWord()
      requires Valid()
      modifies this`pos
      ensures Valid() && pos == WordEnd(s, old(pos))
    {
      while pos < |s| && IsWordChar(s[pos])
        invariant old(pos) <= pos <= |s| && WordEnd(s, pos) == WordEnd(s, old(pos))
      {
        pos := pos + 1;
      }
    }

    /** The loop over a quoted text. */
    method SkipQuoted()
      requires Valid()
      modifies this`pos
      ensures Valid() && pos == QuoteEnd(s, old(pos))
    {
      while pos < |s| && s[pos] != '\''
        invariant old(pos) <= pos <= |s| && QuoteEnd(s, pos) == QuoteEnd(s, old(pos))
      {
        pos := pos + 1;
      }
    }

    /** get_next_token. */
    method NextToken() returns (t: Tok)
      requires Valid()
      modifies this`pos
      ensures Valid() && (t, pos) == Lex(s, old(pos))
    {
      SkipSpaces();
      if pos == |s| {
        return Tok(Eof, []);
      }
      var c, start := s[pos], pos;
      if Symbol(c) != Illegal {
        pos := pos + 1;
        t := Tok(Symbol(c), [c]);
      } else if c == '\'' {
        pos := pos + 1;
        SkipQuoted();
        t := Tok(Literal, Cut(s[start + 1..pos], TEXT_SIZE));
        if pos < |s| {
          pos := pos + 1;
        }
      } else if IsAlpha(c) || c == '_' {
        SkipWord();
        var text := Cut(s[start..pos], TEXT_SIZE);
        t := Tok(KeywordOf(text), text);
      } else if IsDigit(c) {
        SkipWord();
        t := Tok(Number, Cut(s[start..pos], TEXT_SIZE));
      } else {
        t := Tok(Illegal, []);
      }
    }

    /** advance_parser. */
    method Move()
      requires Valid()
      modifies this
      ensures Valid() && State() == Advance(Lx(), old(State()))
    {
      ghost var at := pos;
      cur := NextToken();
      assert Lx()(at) == Lex(s, at);
    }

    /** expect_token. */
    method Take(k: TokKind) returns (ok: bool)
      requires Valid()
      modifies this
      ensures Valid()
      ensures Expect(Lx(), old(State()), k) == if ok then Some(State()) else None
    {
      ok := cur.kind == k;
      if ok {
        Move();
      }
    }

    /** parse_literal. */
    method Value() returns (v: Option<Str>)
      requires Valid()
      modifies this
      ensures Valid()
      ensures ParseLiteral(Lx(), old(State())) == if v.Some? then Some((v.value, State())) else None
    {
      if cur.kind in {Literal, Number, Ident} {
        v := Some(Cut(cur.text, TEXT_SIZE));
        Move();
      } else {
        v := None;
      }
    }

    /** parse_one_condition. */
    method Condition() returns (c: Option<Cond>)
      requires Valid()
      modifies this
      ensures Valid()
      ensures ParseCond(Lx(), old(State())) == if c.Some? then Some((c.value, State())) else None
    {
      c := None;
      if cur.kind != Ident {
        return;
      }
      var col := Cut(cur.text, COL_SIZE);
      Move();
      if cur.kind == Between_ {
        Move();
        var lo := Value();
        if lo.None? {
          return;
        }
        var ok := Take(And);
        if !ok {
          return;
        }
        var hi := Value();
        if hi.None? {
          return;
        }
        return Some(Between(col, lo.value, hi.value));
      }
      var ok := Take(Equals);
      if !ok {
        return;
      }
      var v := Value();
      if v.None? {
        return;
      }
      c := Some(Eq(col, v.value));
    }

    /** parse_where_clause. */
    method WhereClause() returns (conds: Option<seq<Cond>>)
      requires Valid()
      modifies this
      ensures Valid()
      ensures ParseWhere(Lx(), old(State())) == if conds.Some? then Some((conds.value, State())) else None
    {
      if cur.kind != Where {
        return Some([]);
      }
      Move();
      var c := Condition();
      if c.None? {
        return None;
      }
      var found := [c.value];
      while cur.kind == And
        invariant Valid() && 0 < |found| <= MAX_CONDS
        invariant ParseMore(Lx(), State(), found) == ParseWhere(Lx(), old(State()))
        decreases MAX_CONDS - |found|
      {
        if |found| >= MAX_CONDS {
          return None;
        }
        Move();
        c := Condition();
        if c.None? {
          return None;
        }
        found := found + [c.value];
      }
      conds := Some(found);
    }

    /** The column list of parse_select. */
    method Columns() returns (cols: Option<seq<Str>>)
      requires Valid() && cur.kind == Ident
      modifies this
      ensures Valid()
      ensures ParseCols(Lx(), old(State()), []) == if cols.Some? then Some((cols.value, State())) else None
    {
      var found: seq<Str> := [];
      while true
        invariant Valid() && cur.kind == Ident && |found| <= MAX_COLS
        invariant ParseCols(Lx(), State(), found) == ParseCols(Lx(), old(State()), [])
        decreases MAX_COLS - |found|
      {
        if |found| >= MAX_COLS {
          return None;
        }
        found := found + [Cut(cur.text, COL_SIZE)];
        Move();
        if cur.kind != Comma {
          return Some(found);
        }
        Move();
        if cur.kind != Ident {
          return None;
        }
      }
    }

    method List() returns (cols: Option<seq<Str>>)
      requires Valid()
      modifies this
      ensures Valid()
      ensures SelectList(Lx(), old(State())) == if cols.Some? then Some((cols.value, State())) else None
    {
      if cur.kind == Star {
        Move();
        return Some([]);
      }
      if cur.kind == Ident {
        cols := Columns();
        return;
      }
      cols := None;
    }

    method Tail() returns (r: Option<(Str, seq<Cond>)>)
      requires Valid()
      modifies this
      ensures Valid()
      ensures ParseTail(Lx(), old(State())) == if r.Some? then Some((r.value.0, r.value.1, State())) else None
    {
      if cur.kind != Ident {
        return None;
      }
      var table := cur.text;
      Move();
      var conds := WhereClause();
      r := if conds.None? then None else Some((table, conds.value));
    }

    /** parse_select and finish_statement. */
    method SelectRest() returns (r: Option<Stmt>)
      requires Valid()
      modifies this
      ensures Valid() && r == ParseSelect(Lx(), old(State()))
    {
      Move();
      var all := cur.kind == Star;
      var cols := List();
      if cols.None? {
        return None;
      }
      var ok := Take(From);
      if !ok {
        return None;
      }
      var t := Tail();
      if t.None? {
        return None;
      }
      r := if cur.kind == Eof then Some(SelectStmt(all, cols.value, t.value.0, t.value.1)) else None;
    }

    /** parse_delete and finish_statement. */
    method DeleteRest() returns (r: Option<Stmt>)
      requires Valid()
      modifies this
      ensures Valid() && r == ParseDelete(Lx(), old(State()))
    {
      Move();
      var ok := Take(From);
      if !ok {
        return None;
      }
      var t := Tail();
      if t.None? {
        return None;
      }
      r := if cur.kind == Eof then Some(DeleteStmt(t.value.0, t.value.1)) else None;
    }

    /** parse_update and finish_statement. */
    method UpdateRest() returns (r: Option<Stmt>)
      requires Valid()
      modifies this
      ensures Valid() && r == ParseUpdate(Lx(), old(State()))
    {
      Move();
      if cur.kind != Ident {
        return None;
      }
      var table := cur.text;
      Move();
      var ok := Take(Set);
      if !ok || cur.kind != Ident {
        return None;
      }
      var col := Cut(cur.text, COL_SIZE);
      Move();
      ok := Take(Equals);
      if !ok {
        return None;
      }
      var v := Value();
      if v.None? {
        return None;
      }
      var conds := WhereClause();
      if conds.None? {
        return None;
      }
      r := if cur.kind == Eof then Some(UpdateStmt(table, col, v.value, conds.value)) else None;
    }

    /** find_values_close_paren. */
    method FindClose(open: nat) returns (close: nat)
      requires open <= |s|
      ensures close == CloseParen(s, open, false)
    {
      close := open;
      var quoted := false;
      while close < |s|
        invariant open <= close <= |s| && CloseParen(s, close, quoted) == CloseParen(s, open, false)
      {
        if s[close] == '\'' {
          quoted := !quoted;
        } else if s[close] == ')' && !quoted {
          return;
        }
        close := close + 1;
      }
    }

    /** parse_insert. */
    method InsertRest() returns (r: Option<Stmt>)
      requires Valid()
      modifies this
      ensures Valid() && r == ParseInsert(s, Lx(), old(State()))
    {
      Move();
      var ok := Take(Into);
      if !ok || cur.kind != Ident {
        return None;
      }
      var table := cur.text;
      Move();
      ok := Take(Values);
      if !ok || cur.kind != LParen {
        return None;
      }
      var open := pos;
      var close := FindClose(open);
      if close == |s| {
        return None;
      }
      pos := close + 1;
      SkipSpaces();
      r := if pos < |s| then None else Some(InsertStmt(table, Cut(s[open..close], ROW_SIZE)));
    }
  }

  /** parse_statement. */
  method ParseStatement(s: Str) returns (r: Option<Stmt>)
    ensures r == Parse(s)
  {
    var reader := new Reader(s);
    reader.Move();
    match reader.cur.kind {
      case Select => r := reader.SelectRest();
      case Insert => r := reader.InsertRest();
      case Update => r := reader.UpdateRest();
      case Delete => r := reader.DeleteRest();
      case _ => r := None;
    }
  }
}
