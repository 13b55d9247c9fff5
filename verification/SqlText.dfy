/** Statements in SQL text, letter by letter, and what they are read as
    (src/legacy/lexer.c:7-102, src/legacy/parser.c:26-242). */
module SqlText {
  import opened Basics
  import opened Text
  import opened EngineSpec
  import opened Sql
  import Spelling = SqlSpelling

  // ------------------------------------------------------------ statements as text

  function CondText(c: Cond): Str {
    match c
    case Eq(col, v) => col + " = '" + v + "' "
    case Between(col, lo, hi) => col + " BETWEEN '" + lo + "' AND '" + hi + "' "
    case Untyped(_) => ""
  }

  function MoreText(conds: seq<Cond>): Str {
    if conds == [] then "" else "AND " + CondText(conds[0]) + MoreText(conds[1..])
  }

  function WhereText(conds: seq<Cond>): Str {
    if conds == [] then "" else "WHERE " + CondText(conds[0]) + MoreText(conds[1..])
  }

  function NamesText(cols: seq<Str>): Str {
    if cols == [] then "" else if |cols| == 1 then cols[0] + " " else cols[0] + " , " + NamesText(cols[1..])
  }

  function StmtText(st: Stmt): Str {
    match st
    case SelectStmt(all, cols, table, conds) => "SELECT " + (if all then "* " else NamesText(cols)) + "FROM " + table + " " + WhereText(conds)
    case UpdateStmt(table, col, val, conds) => "UPDATE " + table + " SET " + col + " = '" + val + "' " + WhereText(conds)
    case DeleteStmt(table, conds) => "DELETE FROM " + table + " " + WhereText(conds)
    case InsertStmt(table, row) => "INSERT INTO " + table + " VALUES (" + row + ")"
  }

  // ------------------------------------------------------------ the printed tokens are that text

  lemma PrintOne(t: Tok)
    ensures PrintToks([t]) == TokText(t) + " "
  {
    var none: seq<Tok> := [];
    assert [t][1..] == none && PrintToks(none) == [];
    assert TokText(t) + [' '] + [] == TokText(t) + " ";
  }

  lemma {:induction false} PrintAppend(a: seq<Tok>, b: seq<Tok>)
    ensures PrintToks(a + b) == PrintToks(a) + PrintToks(b)
  {
    if a == [] {
      assert a + b == b;
    } else {
      PrintAppend(a[1..], b);
      assert (a + b)[1..] == a[1..] + b;
      Assoc(TokText(a[0]) + [' '], PrintToks(a[1..]), PrintToks(b));
    }
  }

  lemma PrintTwo(s: Tok, t: Tok)
    ensures PrintToks([s, t]) == TokText(s) + " " + (TokText(t) + " ")
  {
    assert [s, t] == [s] + [t];
    PrintAppend([s], [t]);
    PrintOne(s);
    PrintOne(t);
  }

  lemma PrintThree(s: Tok, t: Tok, u: Tok)
    ensures PrintToks([s, t, u]) == TokText(s) + " " + (TokText(t) + " ") + (TokText(u) + " ")
  {
    assert [s, t, u] == [s, t] + [u];
    PrintAppend([s, t], [u]);
    PrintTwo(s, t);
    PrintOne(u);
  }

  lemma EqText(col: Str, v: Str)
    ensures PrintToks(CondPrint(Eq(col, v))) == CondText(Eq(col, v))
  {
    PrintThree(NameTok(col), K(Equals), ValueTok(v));
    assert col + " " + ("=" + " ") + (['\''] + v + ['\''] + " ") == col + " = '" + v + "' ";
  }

  lemma BetweenText(col: Str, lo: Str, hi: Str)
    ensures PrintToks(CondPrint(Between(col, lo, hi))) == CondText(Between(col, lo, hi))
  {
    var a, b := [NameTok(col), K(Between_), ValueTok(lo)], [K(And), ValueTok(hi)];
    assert CondPrint(Between(col, lo, hi)) == a + b;
    PrintAppend(a, b);
    PrintThree(NameTok(col), K(Between_), ValueTok(lo));
    PrintTwo(K(And), ValueTok(hi));
    BetweenPieces(col, lo, hi);
  }

  lemma BetweenPieces(col: Str, lo: Str, hi: Str)
    ensures col + " " + ("BETWEEN" + " ") + (['\''] + lo + ['\''] + " ") + ("AND" + " " + (['\''] + hi + ['\''] + " ")) == col + " BETWEEN '" + lo + "' AND '" + hi + "' "
  {
    assert col + " " + ("BETWEEN" + " ") + (['\''] + lo + ['\''] + " ") == col + " BETWEEN '" + lo + "' ";
    assert "AND" + " " + (['\''] + hi + ['\''] + " ") == "AND '" + hi + "' ";
    var x, y := col + " BETWEEN '" + lo, hi + "' ";
    assert x + "' " + ("AND '" + hi + "' ") == x + "' AND '" + hi + "' ";
  }

  lemma CondIs(c: Cond)
    requires !c.Untyped?
    ensures PrintToks(CondPrint(c)) == CondText(c)
  {
    match c
    case Eq(col, v) => EqText(col, v);
    case Between(col, lo, hi) => BetweenText(col, lo, hi);
  }

  lemma {:induction false} MoreIs(conds: seq<Cond>)
    requires forall i :: 0 <= i < |conds| ==> !conds[i].Untyped?
    ensures PrintToks(MorePrint(conds)) == MoreText(conds)
    decreases |conds|
  {
    if conds != [] {
      MoreIs(conds[1..]);
      KeyCond(K(And), "AND ", conds[0], MorePrint(conds[1..]));
    }
  }

  lemma KeyCond(t: Tok, key: Str, c: Cond, rest: seq<Tok>)
    requires !c.Untyped? && key == TokText(t) + " "
    ensures PrintToks([t] + CondPrint(c) + rest) == key + CondText(c) + PrintToks(rest)
  {
    PrintAppend([t] + CondPrint(c), rest);
    PrintAppend([t], CondPrint(c));
    PrintOne(t);
    CondIs(c);
  }

  lemma WhereIs(conds: seq<Cond>)
    requires forall i :: 0 <= i < |conds| ==> !conds[i].Untyped?
    ensures PrintToks(WherePrint(conds)) == WhereText(conds)
  {
    if conds != [] {
      MoreIs(conds[1..]);
      KeyCond(K(Where), "WHERE ", conds[0], MorePrint(conds[1..]));
    }
  }

  lemma {:induction false} NamesAre(cols: seq<Str>)
    ensures PrintToks(NamesPrint(cols)) == NamesText(cols)
    decreases |cols|
  {
    if |cols| == 1 {
      PrintOne(NameTok(cols[0]));
    } else if |cols| > 1 {
      NamesAre(cols[1..]);
      PrintAppend([NameTok(cols[0]), K(Comma)], NamesPrint(cols[1..]));
      PrintTwo(NameTok(cols[0]), K(Comma));
      assert cols[0] + " " + ("," + " ") == cols[0] + " , ";
    }
  }

  lemma ListIs(st: Stmt)
    requires st.SelectStmt?
    ensures PrintToks(if st.all then [K(Star)] else NamesPrint(st.cols)) == if st.all then "* " else NamesText(st.cols)
  {
    PrintOne(K(Star));
    NamesAre(st.cols);
  }

  lemma SelectToksText(list: seq<Tok>, table: Str, w: seq<Tok>)
    ensures PrintToks([K(Select)] + list + [K(From), NameTok(table)] + w) == "SELECT" + " " + PrintToks(list) + ("FROM" + " " + (table + " ")) + PrintToks(w)
  {
    PrintAppend([K(Select)] + list + [K(From), NameTok(table)], w);
    PrintAppend([K(Select)] + list, [K(From), NameTok(table)]);
    PrintAppend([K(Select)], list);
    PrintOne(K(Select));
    PrintTwo(K(From), NameTok(table));
  }

  lemma SelectIs(st: Stmt)
    requires st.SelectStmt? && forall i :: 0 <= i < |st.conds| ==> !st.conds[i].Untyped?
    ensures PrintToks(StmtPrint(st)) == StmtText(st)
  {
    var list, text := if st.all then [K(Star)] else NamesPrint(st.cols), if st.all then "* " else NamesText(st.cols);
    SelectToksText(list, st.table, WherePrint(st.conds));
    ListIs(st);
    WhereIs(st.conds);
    SelectPieces(text, st.table, WhereText(st.conds));
  }

  lemma SelectPieces(list: Str, table: Str, w: Str)
    ensures "SELECT" + " " + list + ("FROM" + " " + (table + " ")) + w == "SELECT " + list + "FROM " + table + " " + w
  {
    assert "FROM" + " " + (table + " ") == "FROM " + table + " ";
    assert "SELECT" + " " == "SELECT ";
    Assoc("SELECT " + list, "FROM " + table, " ");
    Assoc("SELECT " + list, "FROM ", table);
  }

  lemma UpdateIs(st: Stmt)
    requires st.UpdateStmt? && forall i :: 0 <= i < |st.conds| ==> !st.conds[i].Untyped?
    ensures PrintToks(StmtPrint(st)) == StmtText(st)
  {
    var a, b, w := [K(Update), NameTok(st.table), K(Set)], [NameTok(st.col), K(Equals), ValueTok(st.val)], WherePrint(st.conds);
    assert StmtPrint(st) == a + b + w;
    PrintAppend(a + b, w);
    PrintAppend(a, b);
    PrintThree(K(Update), NameTok(st.table), K(Set));
    EqText(st.col, st.val);
    WhereIs(st.conds);
    UpdatePieces(st.table, st.col, st.val);
  }

  lemma UpdatePieces(table: Str, col: Str, val: Str)
    ensures "UPDATE" + " " + (table + " ") + ("SET" + " ") + (col + " = '" + val + "' ") == "UPDATE " + table + " SET " + col + " = '" + val + "' "
  {
    assert "UPDATE" + " " + (table + " ") + ("SET" + " ") == "UPDATE " + table + " SET ";
    var x := "UPDATE " + table + " SET ";
    Assoc(x, col + " = '" + val, "' ");
    Assoc(x, col + " = '", val);
    Assoc(x, col, " = '");
  }

  lemma DeleteIs(st: Stmt)
    requires st.DeleteStmt? && forall i :: 0 <= i < |st.conds| ==> !st.conds[i].Untyped?
    ensures PrintToks(StmtPrint(st)) == StmtText(st)
  {
    PrintAppend([K(Delete), K(From), NameTok(st.table)], WherePrint(st.conds));
    PrintThree(K(Delete), K(From), NameTok(st.table));
    WhereIs(st.conds);
    assert "DELETE" + " " + ("FROM" + " ") + (st.table + " ") == "DELETE FROM " + st.table + " ";
  }

  lemma InsertIs(table: Str, row: Str)
    ensures InsertPrint(table, row) == StmtText(InsertStmt(table, row))
  {
    PrintFour(K(Insert), K(Into), NameTok(table), K(Values));
    InsertPieces(table, row);
  }

  lemma PrintFour(s: Tok, t: Tok, u: Tok, v: Tok)
    ensures PrintToks([s, t, u, v]) == TokText(s) + " " + (TokText(t) + " ") + (TokText(u) + " " + (TokText(v) + " "))
  {
    assert [s, t, u, v] == [s, t] + [u, v];
    PrintAppend([s, t], [u, v]);
    PrintTwo(s, t);
    PrintTwo(u, v);
  }

  lemma InsertPieces(table: Str, row: Str)
    ensures "INSERT" + " " + ("INTO" + " ") + (table + " " + ("VALUES" + " ")) + (['('] + row + [')']) == "INSERT INTO " + table + " VALUES (" + row + ")"
  {
    assert "INSERT" + " " + ("INTO" + " ") == "INSERT INTO ";
    assert "VALUES" + " " + ['('] == "VALUES (";
    var x := "INSERT INTO " + table;
    assert "INSERT INTO " + (table + " " + ("VALUES" + " ")) == x + " VALUES ";
    assert x + " VALUES " + (['('] + row + [')']) == x + " VALUES (" + row + ")";
  }

  // ------------------------------------------------------------ names and values

  predicate Letter(c: char) {
    'a' <= c <= 'z' || 'A' <= c <= 'Z'
  }

  predicate NameChar(c: char) {
    Letter(c) || '0' <= c <= '9' || c == '_' || c == '-' || c == '.'
  }

  /** A name: a letter or underscore, then letters, digits, underscores, hyphens and dots,
      and no keyword in any case. */
  predicate IsPlainName(n: Str) {
    && 0 < |n| < 256 && (Letter(n[0]) || n[0] == '_') && (forall i :: 0 <= i < |n| ==> NameChar(n[i]))
    && Uppers(n) !in {"SELECT", "INSERT", "UPDATE", "DELETE", "FROM", "WHERE", "SET", "INTO", "VALUES", "BETWEEN", "AND"}
  }

  /** A column name has at most 49 characters. */
  predicate IsColumn(n: Str) {
    IsPlainName(n) && |n| < 50
  }

  predicate IsPlainValue(v: Str) {
    |v| < 256 && forall i :: 0 <= i < |v| ==> v[i] != '\''
  }

  predicate CondFine(c: Cond) {
    match c
    case Eq(col, v) => IsColumn(col) && IsPlainValue(v)
    case Between(col, lo, hi) => IsColumn(col) && IsPlainValue(lo) && IsPlainValue(hi)
    case Untyped(_) => false
  }

  predicate CondsFine(conds: seq<Cond>) {
    |conds| <= 8 && forall i :: 0 <= i < |conds| ==> CondFine(conds[i])
  }

  /** A statement whose names and values can be written down: at most 15 columns and 8
      conditions. */
  predicate Fine(st: Stmt) {
    match st
    case SelectStmt(all, cols, table, conds) =>
      (all <==> cols == []) && |cols| <= 15 && (forall i :: 0 <= i < |cols| ==> IsColumn(cols[i])) && IsPlainName(table) && CondsFine(conds)
    case UpdateStmt(table, col, val, conds) => IsPlainName(table) && IsColumn(col) && IsPlainValue(val) && CondsFine(conds)
    case DeleteStmt(table, conds) => IsPlainName(table) && CondsFine(conds)
    case InsertStmt(table, row) => IsPlainName(table) && RowText(row, 0, false) && |row| < 1024
  }

  lemma NamePrints(n: Str)
    requires IsPlainName(n)
    ensures Printable(NameTok(n)) == true
  {
  }

  lemma ValuePrints(v: Str)
    requires IsPlainValue(v)
    ensures Printable(ValueTok(v)) == true
  {
  }

  lemma AllPush(a: seq<Tok>, b: seq<Tok>)
    requires AllPrintable(a) && AllPrintable(b)
    ensures AllPrintable(a + b) == true
  {
  }

  lemma AllThree(s: Tok, t: Tok, u: Tok)
    requires Printable(s) == true && Printable(t) == true && Printable(u) == true
    ensures AllPrintable([s, t, u]) == true
  {
  }

  lemma KPrints(k: TokKind)
    requires IsKeyword(k) || IsSymbol(k)
    ensures AllPrintable([K(k)]) == true
  {
    KPrintable(k);
  }

  lemma CondPrintable(c: Cond)
    requires CondFine(c)
    ensures AllPrintable(CondPrint(c)) == true && FitsCond(c)
  {
    NamePrints(c.col);
    ValuePrints(c.val);
    if c.Between? {
      ValuePrints(c.end);
      KPrintable(Between_);
      KPrintable(And);
    } else {
      KPrintable(Equals);
    }
  }

  lemma {:induction false} MorePrintable(conds: seq<Cond>)
    requires forall i :: 0 <= i < |conds| ==> CondFine(conds[i])
    ensures AllPrintable(MorePrint(conds)) == true
    decreases |conds|
  {
    if conds != [] {
      MorePrintable(conds[1..]);
      CondPrintable(conds[0]);
      KPrints(And);
      AllPush([K(And)], CondPrint(conds[0]));
      AllPush([K(And)] + CondPrint(conds[0]), MorePrint(conds[1..]));
    }
  }

  lemma WherePrintable(conds: seq<Cond>)
    requires CondsFine(conds)
    ensures AllPrintable(WherePrint(conds)) == true && FitsConds(conds) && forall i :: 0 <= i < |conds| ==> !conds[i].Untyped?
  {
    forall i | 0 <= i < |conds| ensures FitsCond(conds[i]) && !conds[i].Untyped? {
      CondPrintable(conds[i]);
    }
    if conds != [] {
      MorePrintable(conds[1..]);
      CondPrintable(conds[0]);
      KPrints(Where);
      AllPush([K(Where)], CondPrint(conds[0]));
      AllPush([K(Where)] + CondPrint(conds[0]), MorePrint(conds[1..]));
    }
  }

  lemma {:induction false} NamesPrintable(cols: seq<Str>)
    requires forall i :: 0 <= i < |cols| ==> IsColumn(cols[i])
    ensures AllPrintable(NamesPrint(cols)) == true
    decreases |cols|
  {
    if cols != [] {
      NamePrints(cols[0]);
      KPrintable(Comma);
      if |cols| > 1 {
        NamesPrintable(cols[1..]);
        AllPush([NameTok(cols[0]), K(Comma)], NamesPrint(cols[1..]));
      }
    }
  }

  lemma SelectFine(st: Stmt)
    requires st.SelectStmt? && Fine(st)
    ensures AllPrintable(StmtPrint(st)) == true && Fits(st)
  {
    var list, w := if st.all then [K(Star)] else NamesPrint(st.cols), WherePrint(st.conds);
    WherePrintable(st.conds);
    NamesPrintable(st.cols);
    NamePrints(st.table);
    KPrints(Select);
    KPrints(Star);
    KPrintable(From);
    AllPush([K(Select)], list);
    AllPush([K(Select)] + list, [K(From), NameTok(st.table)]);
    AllPush([K(Select)] + list + [K(From), NameTok(st.table)], w);
  }

  lemma UpdatePrintable(table: Str, col: Str, val: Str, w: seq<Tok>)
    requires IsPlainName(table) && IsPlainName(col) && IsPlainValue(val) && AllPrintable(w) == true
    ensures AllPrintable([K(Update), NameTok(table), K(Set)] + ([NameTok(col), K(Equals), ValueTok(val)] + w)) == true
  {
    NamePrints(table);
    NamePrints(col);
    ValuePrints(val);
    KPrintable(Update);
    KPrintable(Set);
    KPrintable(Equals);
    AllThree(K(Update), NameTok(table), K(Set));
    AllThree(NameTok(col), K(Equals), ValueTok(val));
    AllPush([NameTok(col), K(Equals), ValueTok(val)], w);
    AllPush([K(Update), NameTok(table), K(Set)], [NameTok(col), K(Equals), ValueTok(val)] + w);
  }

  lemma UpdateFine(st: Stmt)
    requires st.UpdateStmt? && Fine(st)
    ensures AllPrintable(StmtPrint(st)) == true && Fits(st)
  {
    WherePrintable(st.conds);
    UpdatePrintable(st.table, st.col, st.val, WherePrint(st.conds));
    Six(K(Update), NameTok(st.table), K(Set), NameTok(st.col), K(Equals), ValueTok(st.val), WherePrint(st.conds));
  }

  lemma DeleteFine(st: Stmt)
    requires st.DeleteStmt? && Fine(st)
    ensures AllPrintable(StmtPrint(st)) == true && Fits(st)
  {
    WherePrintable(st.conds);
    NamePrints(st.table);
    KPrintable(Delete);
    KPrintable(From);
    AllThree(K(Delete), K(From), NameTok(st.table));
    AllPush([K(Delete), K(From), NameTok(st.table)], WherePrint(st.conds));
  }

  // ------------------------------------------------------------ reading the text

  lemma TextIs(st: Stmt)
    requires Fine(st) && !st.InsertStmt?
    ensures PrintToks(StmtPrint(st)) == StmtText(st) && AllPrintable(StmtPrint(st)) == true && Fits(st) == true
  {
    WherePrintable(st.conds);
    match st
    case SelectStmt(_, _, _, _) => SelectIs(st); SelectFine(st);
    case UpdateStmt(_, _, _, _) => UpdateIs(st); UpdateFine(st);
    case DeleteStmt(_, _) => DeleteIs(st); DeleteFine(st);
  }

  /** Every statement that can be written down is read back from its SQL text. */
  lemma TextParses(st: Stmt)
    requires Fine(st)
    ensures Parse(StmtText(st)) == Some(st)
  {
    if st.InsertStmt? {
      NamePrints(st.table);
      InsertParse(st.table, st.row);
      InsertIs(st.table, st.row);
    } else {
      TextIs(st);
      PrintParse(st);
    }
  }

  const Mark: Str := ['\U{EF}', '\U{BB}', '\U{BF}']

  lemma MarkReads(ts: seq<Tok>)
    requires AllPrintable(ts)
    ensures var s := Mark + PrintToks(ts); Start(s) == 3 && Reads(LexerOf(s), 3, ts) == true
  {
    var s := Mark + PrintToks(ts);
    forall k | 0 <= k < |PrintToks(ts)| ensures s[3 + k] == PrintToks(ts)[k] {
    }
    PrintedReads(s, 3, 3, ts);
  }

  /** A byte order mark in front makes no difference. */
  lemma MarkSkipped(st: Stmt)
    requires Fine(st) == true && !st.InsertStmt?
    ensures Parse(Mark + StmtText(st)) == Some(st)
  {
    TextIs(st);
    StmtPrints(st);
    MarkReads(StmtPrint(st));
    TokensParse(Mark + StmtText(st), st, StmtPrint(st));
  }

  // ------------------------------------------------------------ what is never read

  predicate CondShort(c: Cond) {
    match c
    case Eq(col, v) => |col| < 50 && |v| < 256
    case Between(col, lo, hi) => |col| < 50 && |lo| < 256 && |hi| < 256
    case Untyped(_) => false
  }

  predicate CondsShort(conds: seq<Cond>) {
    |conds| <= 8 && forall i :: 0 <= i < |conds| ==> CondShort(conds[i])
  }

  /** At most 8 conditions and 15 columns, column names under 50 characters, values under
      256, row text under 1024; a SELECT of all columns names none, and any other some. */
  predicate Short(st: Stmt) {
    match st
    case SelectStmt(all, cols, _, conds) =>
      (all <==> cols == []) && |cols| <= 15 && (forall i :: 0 <= i < |cols| ==> |cols[i]| < 50) && CondsShort(conds)
    case UpdateStmt(_, col, val, conds) => |col| < 50 && |val| < 256 && CondsShort(conds)
    case DeleteStmt(_, conds) => CondsShort(conds)
    case InsertStmt(_, row) => |row| < 1024
  }

  lemma {:induction false} MoreShort(conds: seq<Cond>, ts: seq<Tok>)
    requires MoreToks(conds, ts)
    ensures forall i :: 0 <= i < |conds| ==> CondShort(conds[i])
    decreases |conds|
  {
    if conds != [] {
      var n := 1 + CondLen(conds[0]);
      MoreShort(conds[1..], ts[n..]);
      CondIsShort(conds[0], ts[1..n]);
      assert conds == [conds[0]] + conds[1..];
    }
  }

  lemma CondIsShort(c: Cond, ts: seq<Tok>)
    requires CondToks(c, ts)
    ensures CondShort(c) == true
  {
  }

  lemma WhereShort(conds: seq<Cond>, ts: seq<Tok>)
    requires WhereToks(conds, ts)
    ensures forall i :: 0 <= i < |conds| ==> CondShort(conds[i])
  {
    if conds != [] {
      var n := 1 + CondLen(conds[0]);
      MoreShort(conds[1..], ts[n..]);
      CondIsShort(conds[0], ts[1..n]);
      assert conds == [conds[0]] + conds[1..];
    }
  }

  lemma {:induction false} NamesShort(cols: seq<Str>, ts: seq<Tok>)
    requires NamesToks(cols, ts)
    ensures forall i :: 0 <= i < |cols| ==> |cols[i]| < 50
    decreases |cols|
  {
    if |cols| > 1 {
      NamesShort(cols[1..], ts[2..]);
      assert cols == [cols[0]] + cols[1..];
    }
  }

  lemma TailShort(table: Str, conds: seq<Cond>, ts: seq<Tok>)
    requires TailToks(table, conds, ts) == true
    ensures CondsShort(conds) == true
  {
    WhereShort(conds, ts[1..]);
  }

  lemma SelectShort(st: Stmt, t0: Tok, list: seq<Tok>, t1: Tok, tail: seq<Tok>)
    requires st.SelectStmt? && SelectToks(st, t0, list, t1, tail) == true
    ensures Short(st) == true
  {
    TailShort(st.table, st.conds, tail);
    if !st.all {
      NamesShort(st.cols, list);
    }
  }

  lemma UpdateShort(st: Stmt, t0: Tok, t1: Tok, t2: Tok, t3: Tok, t4: Tok, t5: Tok, tail: seq<Tok>)
    requires st.UpdateStmt? && UpdateToks(st, t0, t1, t2, t3, t4, t5, tail) == true
    ensures Short(st) == true
  {
    WhereShort(st.conds, tail);
  }

  lemma ToksShort(st: Stmt, ts: seq<Tok>)
    requires StmtToks(st, ts)
    ensures Short(st) == true
  {
    match st
    case SelectStmt(_, _, _, _) =>
      var n := ListLen(st);
      SelectShort(st, ts[0], ts[1..1 + n], ts[1 + n], ts[n + 2..]);
    case UpdateStmt(_, _, _, _) => UpdateShort(st, ts[0], ts[1], ts[2], ts[3], ts[4], ts[5], ts[6..]);
    case DeleteStmt(_, _) => TailShort(st.table, st.conds, ts[2..]);
  }

  /** Nothing longer is ever read. */
  lemma ParsedIsShort(s: Str, st: Stmt)
    requires Parse(s) == Some(st)
    ensures Short(st) == true
  {
    if st.InsertStmt? {
      InsertIff(s, st.table, st.row);
    } else {
      ParseIff(s, st);
      var ts :| StmtToks(st, ts) && Reads(LexerOf(s), Start(s), ts);
      ToksShort(st, ts);
    }
  }

  // ------------------------------------------------------------ bare numbers

  /** A number as it can stand without quotes: a digit, then digits and dots. */
  predicate IsNumber(w: Str) {
    0 < |w| < 256 && '0' <= w[0] <= '9' && forall i :: 0 <= i < |w| ==> '0' <= w[i] <= '9' || w[i] == '.'
  }

  lemma NumberSpelled(w: Str)
    requires IsNumber(w)
    ensures Spelling.Spells(w, Tok(Number, w)) == true
  {
  }

  /** 3.5 is one token, and so is every number. */
  lemma NumberIsOneToken(w: Str, rest: Str)
    requires IsNumber(w) && (rest != [] ==> IsSpace(rest[0]) || rest[0] == ')' || rest[0] == ',')
    ensures Lex(w + rest, 0) == (Tok(Number, w), |w|)
  {
    NumberSpelled(w);
    var s := w + rest;
    assert s[..|w|] == w && HasAt(s, 0, w);
    if rest != [] {
      assert s[|w|] == rest[0];
    }
    Spelling.LexNumeral(s, 0, 0, w);
  }

  lemma ThreeAndAHalf()
    ensures IsNumber("3.5")
  {
  }
}
