/** Saving a table as CSV text and loading it again (src/db/dbapi.c:181-201, 242-262,
    735-879). */
module Csv {
  import opened Basics
  import opened Text
  import opened EngineSpec
  import opened WriteSpec

  const NAME_SIZE: nat := 50

  // ------------------------------------------------------------ saving

  function CellText(v: Str): Str {
    if ',' in v then ['\''] + v + ['\''] else v
  }

  function Tag(k: Kind): Str {
    match k
    case PK => ['(', 'P', 'K', ')']
    case UK => ['(', 'U', 'K', ')']
    case NN => ['(', 'N', 'N', ')']
    case Normal => []
  }

  function ColText(c: Col): Str {
    c.name + Tag(c.kind)
  }

  /** The texts with commas between them. */
  function Join(cells: seq<Str>): Str {
    if cells == [] then [] else if |cells| == 1 then cells[0] else cells[0] + [','] + Join(cells[1..])
  }

  function CellTexts(row: Row): (r: seq<Str>)
    ensures |r| == |row| && forall i :: 0 <= i < |row| ==> r[i] == CellText(row[i])
  {
    seq(|row|, i requires 0 <= i < |row| => CellText(row[i]))
  }

  function ColTexts(cols: seq<Col>): (r: seq<Str>)
    ensures |r| == |cols| && forall i :: 0 <= i < |cols| ==> r[i] == ColText(cols[i])
  {
    seq(|cols|, i requires 0 <= i < |cols| => ColText(cols[i]))
  }

  function RowLines(rows: seq<Row>): Str {
    if rows == [] then [] else Join(CellTexts(rows[0])) + ['\n'] + RowLines(rows[1..])
  }

  /** tab_save: the header line, then one line for each row. */
  function Save(cols: seq<Col>, rows: seq<Row>): Str {
    Join(ColTexts(cols)) + ['\n'] + RowLines(rows)
  }

  // ------------------------------------------------------------ loading

  /** The first occurrence of c, or the end of the text. */
  function IndexOf(s: Str, c: char): (i: nat)
    ensures i <= |s| && (i < |s| ==> s[i] == c) && forall j :: 0 <= j < i ==> s[j] != c
  {
    if s == [] || s[0] == c then 0 else 1 + IndexOf(s[1..], c)
  }

  /** strstr: t occurs in s. */
  predicate Contains(s: Str, t: Str) {
    t <= s || (s != [] && Contains(s[1..], t))
  }

  function KindOf(tag: Str): Kind {
    if Contains(tag, Tag(PK)) then PK
    else if Contains(tag, Tag(UK)) then UK
    else if Contains(tag, Tag(NN)) then NN
    else Normal
  }

  /** One column of the header line. */
  function LoadCol(field: Str): Col {
    var t := Trim(field);
    var p := IndexOf(t, '(');
    if p < |t| then Col(Cut(t[..p], NAME_SIZE), KindOf(t[p..])) else Col(Cut(t, NAME_SIZE), Normal)
  }

  function LoadCols(fields: seq<Str>): (cols: seq<Col>)
    ensures |cols| == |fields| && forall i :: 0 <= i < |fields| ==> cols[i] == LoadCol(fields[i])
  {
    seq(|fields|, i requires 0 <= i < |fields| => LoadCol(fields[i]))
  }

  /** The last PK column, and the UK columns in order, among the first n. */
  function PkOf(cols: seq<Col>, n: nat): (p: int)
    requires n <= |cols|
    ensures -1 <= p < n
  {
    if n == 0 then -1 else if cols[n - 1].kind == PK then n - 1 else PkOf(cols, n - 1)
  }

  function UksOf(cols: seq<Col>, n: nat): (u: seq<nat>)
    requires n <= |cols|
  {
    if n == 0 then [] else UksOf(cols, n - 1) + if cols[n - 1].kind == UK then [n - 1] else []
  }

  /** load_hdr. */
  function LoadHdr(line: Str, rec: nat): Schema
    requires rec > 0
  {
    var cols := LoadCols(SplitCsv(line, rec));
    Schema(cols, PkOf(cols, |cols|), UksOf(cols, |cols|), rec)
  }

  /** load_hdr writes the slots of uk_idx one after another, so for column i it writes the
      slot with the number of UK columns before it: are these in the array? */
  predicate UksFit(cols: seq<Col>, n: nat)
    requires n <= |cols|
  {
    forall i :: 0 <= i < n && cols[i].kind == UK ==> |UksOf(cols, i)| < MAX_UKS
  }

  function UkSet(cols: seq<Col>, n: nat): set<nat>
    requires n <= |cols|
  {
    set i: nat | i < n && cols[i].kind == UK
  }

  lemma {:induction false} UksCount(cols: seq<Col>, n: nat)
    requires n <= |cols|
    ensures |UksOf(cols, n)| == |UkSet(cols, n)|
  {
    if n > 0 {
      UksCount(cols, n - 1);
      assert UkSet(cols, n) == UkSet(cols, n - 1) + if cols[n - 1].kind == UK then {n - 1} else {};
    }
  }

  lemma {:induction false} UksFitIff(cols: seq<Col>, n: nat)
    requires n <= |cols|
    ensures UksFit(cols, n) <==> |UksOf(cols, n)| <= MAX_UKS
  {
    if n > 0 {
      UksFitIff(cols, n - 1);
      assert UksFit(cols, n) <==> UksFit(cols, n - 1) && (cols[n - 1].kind == UK ==> |UksOf(cols, n - 1)| < MAX_UKS);
    }
  }

  /** Loading a header stays in the array exactly when at most five of its columns are
      tagged UK. */
  lemma HeaderInArray(line: Str, rec: nat)
    requires rec > 0
    ensures var cols := LoadHdr(line, rec).cols; UksFit(cols, |cols|) <==> |UkSet(cols, |cols|)| <= MAX_UKS
  {
    var cols := LoadHdr(line, rec).cols;
    UksFitIff(cols, |cols|);
    UksCount(cols, |cols|);
  }

  /** The header of the text, if there is one, has its UK columns in the array. */
  predicate HdrFits(text: Str, rec: nat)
    requires rec > 1
  {
    text != [] ==> var cols := LoadHdr(text[..LineLen(text, rec)], rec).cols; UksFit(cols, |cols|)
  }

  function Trims(fields: seq<Str>): (row: Row)
    ensures |row| == |fields| && forall i :: 0 <= i < |fields| ==> row[i] == Trim(fields[i])
  {
    seq(|fields|, i requires 0 <= i < |fields| => Trim(fields[i]))
  }

  /** load_row: the trimmed fields, if there are as many as columns and the PK is a
      number. */
  function LoadRow(sc: Schema, line: Str): Option<Row>
    requires sc.rec > 0
  {
    var row := Trims(SplitCsv(line, sc.rec));
    if |row| != |sc.cols| then None
    else if 0 <= sc.pk < |row| && ParseL(row[sc.pk]).None? then None
    else Some(row)
  }

  /** How much one fgets into a buffer of rec bytes takes: up to a line end, that
      included, or what fits. */
  function LineLen(text: Str, rec: nat): (n: nat)
    requires rec > 1
    ensures n <= |text| && n < rec && (text != [] ==> n > 0)
  {
    var p := IndexOf(text, '\n');
    if p < rec - 1 && p < |text| then p + 1 else if |text| < rec then |text| else rec - 1
  }

  /** strpbrk for a line end. */
  function Chop(line: Str): Str {
    var a, b := IndexOf(line, '\r'), IndexOf(line, '\n');
    line[..if a < b then a else b]
  }

  /** The row loop of tab_load: lines that are empty are skipped. */
  function LoadRows(sc: Schema, text: Str): Option<seq<Row>>
    requires sc.rec > 1
    decreases |text|
  {
    if text == [] then Some([])
    else
      var n := LineLen(text, sc.rec);
      var line := Chop(text[..n]);
      if line == [] then LoadRows(sc, text[n..])
      else
        var row := LoadRow(sc, line);
        if row.None? then None
        else
          var more := LoadRows(sc, text[n..]);
          if more.None? then None else Some([row.value] + more.value)
  }

  /** tab_load, without the indexes. */
  function Load(text: Str, rec: nat): Option<(Schema, seq<Row>)>
    requires rec > 1
  {
    if text == [] then None
    else
      var n := LineLen(text, rec);
      var sc := LoadHdr(text[..n], rec);
      var rows := LoadRows(sc, text[n..]);
      if rows.None? then None else Some((sc, rows.value))
  }

  // ------------------------------------------------------------ fields of a saved line

  /** A value that survives: no quotes, no line ends, and no edge whitespace unless it is
      quoted for its commas. */
  predicate Storable(v: Str) {
    && Without(v, '\'') && Without(v, '\r') && Without(v, '\n')
    && (Without(v, ',') ==> v == [] || (!IsSpace(v[0]) && !IsSpace(v[|v| - 1])))
  }

  lemma {:induction false} QuotedScan(v: Str, rest: Str, left: nat, cur: Str)
    requires Without(v, '\'') && left > 1
    ensures Fields(v + ['\''] + rest, left, cur, true) == Fields(rest, left, cur + v + ['\''], false)
    decreases v
  {
    var s := v + ['\''] + rest;
    if v == [] {
      assert s[0] == '\'' && s[1..] == rest;
      assert cur + v + ['\''] == cur + ['\''];
    } else {
      assert s[0] == v[0] && s[1..] == v[1..] + ['\''] + rest;
      assert v[0] != '\'';
      assert Without(v[1..], '\'');
      QuotedScan(v[1..], rest, left, cur + [v[0]]);
      assert cur + [v[0]] + v[1..] + ['\''] == cur + v + ['\''];
    }
  }

  lemma CellScan(v: Str, rest: Str, left: nat)
    requires Without(v, '\'') && left > 1
    ensures Fields(CellText(v) + rest, left, [], false) == Fields(rest, left, CellText(v), false)
  {
    if ',' in v {
      var s := CellText(v) + rest;
      assert s[0] == '\'' && s[1..] == v + ['\''] + rest;
      QuotedScan(v, rest, left, ['\'']);
      assert [] + ['\''] == ['\''];
    } else {
      PlainScan(v, rest, left, []);
      assert [] + v == v;
    }
  }

  lemma CommaEnds(rest: Str, left: nat, cur: Str)
    requires left > 1
    ensures Fields([','] + rest, left, cur, false) == [cur] + Fields(rest, left - 1, [], false)
  {
    assert ([','] + rest)[1..] == rest;
  }

  /** Splitting a saved row line gives the cell texts back. */
  lemma {:induction false} SplitCells(row: Row, left: nat)
    requires 0 < |row| <= left && forall i :: 0 <= i < |row| ==> Without(row[i], '\'')
    ensures Fields(Join(CellTexts(row)), left, [], false) == CellTexts(row)
    decreases |row|
  {
    var cells, c := CellTexts(row), CellText(row[0]);
    if |row| == 1 {
      assert cells == [c];
      LastField(c, left);
      if left > 1 {
        CellScan(row[0], [], left);
        assert c + [] == c;
      }
    } else {
      var tail := Join(cells[1..]);
      assert cells[1..] == CellTexts(row[1..]);
      assert Join(cells) == c + ([','] + tail);
      CellScan(row[0], [','] + tail, left);
      CommaEnds(tail, left, c);
      SplitCells(row[1..], left - 1);
      assert [c] + cells[1..] == cells;
    }
  }

  lemma {:induction false} SplitPlain(ts: seq<Str>, left: nat)
    requires 0 < |ts| <= left && forall i :: 0 <= i < |ts| ==> Plain(ts[i])
    ensures Fields(Join(ts), left, [], false) == ts
    decreases |ts|
  {
    var t := ts[0];
    if |ts| == 1 {
      assert ts == [t];
      PlainField(t, left);
    } else {
      var tail := Join(ts[1..]);
      assert Join(ts) == t + ([','] + tail);
      PlainScan(t, [','] + tail, left, []);
      assert [] + t == t;
      CommaEnds(tail, left, t);
      SplitPlain(ts[1..], left - 1);
      assert [t] + ts[1..] == ts;
    }
  }

  /** A text after the last field becomes part of it. */
  lemma {:induction false} JoinEnd(ts: seq<Str>, e: Str)
    requires ts != []
    ensures Join(ts) + e == Join(ts[|ts| - 1 := ts[|ts| - 1] + e])
    decreases |ts|
  {
    var n := |ts| - 1;
    var us := ts[n := ts[n] + e];
    if n > 0 {
      JoinEnd(ts[1..], e);
      assert us[1..] == ts[1..][n - 1 := ts[1..][n - 1] + e];
      assert ts[0] + [','] + Join(ts[1..]) + e == ts[0] + [','] + (Join(ts[1..]) + e);
    }
  }

  // ------------------------------------------------------------ trimming

  /** No whitespace at either end. */
  predicate Tight(t: Str) {
    t == [] || (!IsSpace(t[0]) && !IsSpace(t[|t| - 1]))
  }

  lemma TrimTight(t: Str)
    requires Tight(t) && Without(t, '\'')
    ensures Trim(t) == t && Trim(t + ['\n']) == t
  {
    DropSpaceEnds(t);
    if t == [] {
      assert ([] + ['\n'])[1..] == [];
      assert SkipSpace([] + ['\n']) == [];
    } else {
      var u := t + ['\n'];
      assert u[0] == t[0] && u[..|u| - 1] == t;
      assert SkipSpace(u) == u;
      assert IsSpace(u[|u| - 1]);
      assert DropSpace(u) == DropSpace(t);
    }
  }

  lemma TrimCell(v: Str)
    requires Storable(v)
    ensures Trim(CellText(v)) == v
  {
    if ',' in v {
      var t := CellText(v);
      assert t[0] == '\'' && t[|t| - 1] == '\'';
      DropSpaceEnds(t);
      assert t[1..|t| - 1] == v;
    } else {
      TrimTight(v);
    }
  }

  // ------------------------------------------------------------ lines

  lemma {:induction false} IndexOfAt(a: Str, b: Str, c: char)
    requires Without(a, c) && (b == [] || b[0] == c)
    ensures IndexOf(a + b, c) == |a|
  {
    if a == [] {
      assert a + b == b;
    } else {
      assert (a + b)[1..] == a[1..] + b;
      assert Without(a[1..], c);
      IndexOfAt(a[1..], b, c);
    }
  }

  lemma ChopLine(line: Str)
    requires Without(line, '\r') && Without(line, '\n')
    ensures Chop(line) == line && Chop(line + ['\n']) == line
  {
    IndexOfAt(line, [], '\r');
    IndexOfAt(line, [], '\n');
    assert line + [] == line;
    var u := line + ['\n'];
    IndexOfAt(line, ['\n'], '\n');
    assert Without(u, '\r');
    IndexOfAt(u, [], '\r');
    assert u + [] == u;
    assert u[..|line|] == line;
  }

  /** Reading the next line: with its end if that fits, or the line alone. */
  lemma NextLine(line: Str, rest: Str, rec: nat)
    requires Without(line, '\n') && |line| < rec && rec > 1
    ensures var text, n := line + ['\n'] + rest, LineLen(line + ['\n'] + rest, rec);
            && (|line| < rec - 1 ==> text[..n] == line + ['\n'] && text[n..] == rest)
            && (|line| == rec - 1 ==> text[..n] == line && text[n..] == ['\n'] + rest)
  {
    var text := line + ['\n'] + rest;
    assert text == line + (['\n'] + rest);
    IndexOfAt(line, ['\n'] + rest, '\n');
  }

  lemma SkipBlank(sc: Schema, rest: Str)
    requires sc.rec > 1
    ensures LoadRows(sc, ['\n'] + rest) == LoadRows(sc, rest)
  {
    var text := ['\n'] + rest;
    if sc.rec == 2 {
      assert IndexOf(text, '\n') == 0;
    }
    assert text[..1] == ['\n'] && text[1..] == rest;
    ChopLine([]);
    assert [] + ['\n'] == ['\n'];
  }

  /** One line of the file, whatever its length up to the limit. */
  lemma LoadLine(sc: Schema, line: Str, rest: Str)
    requires sc.rec > 1 && line != [] && |line| < sc.rec && Without(line, '\r') && Without(line, '\n')
    ensures LoadRows(sc, line + ['\n'] + rest) ==
            if LoadRow(sc, line).None? || LoadRows(sc, rest).None? then None else Some([LoadRow(sc, line).value] + LoadRows(sc, rest).value)
  {
    var text := line + ['\n'] + rest;
    NextLine(line, rest, sc.rec);
    ChopLine(line);
    if |line| == sc.rec - 1 {
      SkipBlank(sc, rest);
    }
  }

  // ------------------------------------------------------------ the round trip

  /** A row that survives being saved. */
  predicate RowStorable(sc: Schema, row: Row) {
    && 0 < |row| == |sc.cols| <= MAX_COLS && (forall i :: 0 <= i < |row| ==> Storable(row[i]))
    && Join(CellTexts(row)) != [] && |Join(CellTexts(row))| < sc.rec
    && (0 <= sc.pk < |row| ==> ParseL(row[sc.pk]).Some?)
  }

  lemma {:induction false} JoinWithout(ts: seq<Str>, c: char)
    requires c != ',' && forall i :: 0 <= i < |ts| ==> Without(ts[i], c)
    ensures Without(Join(ts), c)
    decreases |ts|
  {
    if |ts| > 1 {
      JoinWithout(ts[1..], c);
    }
  }

  lemma CellsWithout(row: Row, c: char)
    requires c != ',' && c != '\'' && forall i :: 0 <= i < |row| ==> Without(row[i], c)
    ensures Without(Join(CellTexts(row)), c)
  {
    JoinWithout(CellTexts(row), c);
  }

  lemma RowReads(sc: Schema, row: Row)
    requires sc.rec > 0 && RowStorable(sc, row)
    ensures LoadRow(sc, Join(CellTexts(row))) == Some(row)
  {
    var line := Join(CellTexts(row));
    assert Cut(line, sc.rec) == line;
    SplitCells(row, MAX_COLS);
    var read := Trims(CellTexts(row));
    forall i | 0 <= i < |row| ensures read[i] == row[i] {
      TrimCell(row[i]);
    }
    assert read == row;
  }

  lemma RowLine(sc: Schema, row: Row, rest: Str)
    requires sc.rec > 1 && RowStorable(sc, row)
    ensures LoadRows(sc, Join(CellTexts(row)) + ['\n'] + rest) == Onto([row], LoadRows(sc, rest))
  {
    CellsWithout(row, '\r');
    CellsWithout(row, '\n');
    LoadLine(sc, Join(CellTexts(row)), rest);
    RowReads(sc, row);
  }

  lemma {:induction false} RowsRead(sc: Schema, rows: seq<Row>)
    requires sc.rec > 1 && forall i :: 0 <= i < |rows| ==> RowStorable(sc, rows[i])
    ensures LoadRows(sc, RowLines(rows)) == Some(rows)
    decreases |rows|
  {
    if rows != [] {
      RowsRead(sc, rows[1..]);
      RowLine(sc, rows[0], RowLines(rows[1..]));
      assert [rows[0]] + rows[1..] == rows;
    }
  }

  /** A column that survives: a tight name under 50 bytes, without commas, quotes,
      parentheses or line ends. */
  predicate ColStorable(c: Col) {
    && |c.name| < NAME_SIZE && Tight(c.name) && Plain(c.name)
    && Without(c.name, '(') && Without(c.name, '\r') && Without(c.name, '\n')
  }

  lemma TagFacts(k: Kind)
    ensures k != Normal ==> KindOf(Tag(k)) == k && Tag(k)[0] == '('
    ensures Plain(Tag(k)) && Without(Tag(k), '\r') && Without(Tag(k), '\n') && Tight(Tag(k))
  {
    var p, u, n := Tag(PK), Tag(UK), Tag(NN);
    assert p[1] == 'P' && u[1] == 'U' && n[1] == 'N';
    NotInTag(p, u);
    NotInTag(p, n);
    NotInTag(u, n);
  }

  lemma NotInTag(t: Str, s: Str)
    requires |t| == |s| == 4 && t[1] != s[1]
    ensures !Contains(s, t) && Contains(t, t)
  {
    TooShort(t, s[1..]);
  }

  lemma {:induction false} TooShort(t: Str, s: Str)
    requires |s| < |t|
    ensures !Contains(s, t)
  {
    if s != [] {
      TooShort(t, s[1..]);
    }
  }

  lemma ColTextFacts(c: Col)
    requires ColStorable(c)
    ensures Plain(ColText(c)) && Tight(ColText(c)) && Without(ColText(c), '\r') && Without(ColText(c), '\n')
  {
    TagFacts(c.kind);
  }

  lemma ColReads(c: Col)
    requires ColStorable(c)
    ensures LoadCol(ColText(c)) == c && LoadCol(ColText(c) + ['\n']) == c
  {
    ColTextFacts(c);
    TagFacts(c.kind);
    var t := ColText(c);
    TrimTight(t);
    IndexOfAt(c.name, Tag(c.kind), '(');
    if c.kind != Normal {
      assert t[..|c.name|] == c.name && t[|c.name|..] == Tag(c.kind);
    } else {
      assert t == c.name;
    }
  }

  /** The schema is what its columns say. */
  predicate FromCols(sc: Schema) {
    sc.pk == PkOf(sc.cols, |sc.cols|) && sc.uks == UksOf(sc.cols, |sc.cols|)
  }

  lemma HeaderReads(sc: Schema, e: Str)
    requires sc.rec > 0 && FromCols(sc) && 0 < |sc.cols| <= MAX_COLS && (forall i :: 0 <= i < |sc.cols| ==> ColStorable(sc.cols[i]))
    requires (e == [] || e == ['\n']) && |Join(ColTexts(sc.cols)) + e| < sc.rec
    ensures LoadHdr(Join(ColTexts(sc.cols)) + e, sc.rec) == sc
  {
    var ts, n := ColTexts(sc.cols), |sc.cols| - 1;
    var us := ts[n := ts[n] + e];
    JoinEnd(ts, e);
    forall i | 0 <= i < |us| ensures Plain(us[i]) && LoadCol(us[i]) == sc.cols[i] {
      assert ts[i] == ColText(sc.cols[i]);
      ColField(sc.cols[i], e);
      ColField(sc.cols[i], []);
      assert ts[i] + [] == ts[i];
    }
    LineReads(us, sc);
  }

  lemma ColField(c: Col, e: Str)
    requires ColStorable(c) && (e == [] || e == ['\n'])
    ensures Plain(ColText(c) + e) == true && LoadCol(ColText(c) + e) == c
  {
    ColReads(c);
    ColPlain(c, e);
    if e == [] {
      assert ColText(c) + e == ColText(c);
    }
  }

  lemma ColPlain(c: Col, e: Str)
    requires ColStorable(c) && (e == [] || e == ['\n'])
    ensures Plain(ColText(c) + e) == true
  {
    ColTextFacts(c);
  }

  lemma LineReads(us: seq<Str>, sc: Schema)
    requires sc.rec > 0 && FromCols(sc) && 0 < |us| == |sc.cols| <= MAX_COLS && |Join(us)| < sc.rec
    requires forall i :: 0 <= i < |us| ==> Plain(us[i]) && LoadCol(us[i]) == sc.cols[i]
    ensures LoadHdr(Join(us), sc.rec) == sc
  {
    assert Cut(Join(us), sc.rec) == Join(us);
    SplitPlain(us, MAX_COLS);
    assert LoadCols(us) == sc.cols;
  }

  /** Loading a saved table stays in the array, and gives back its schema and rows. */
  lemma SaveLoad(sc: Schema, rows: seq<Row>)
    requires sc.rec > 1 && FromCols(sc) && 0 < |sc.cols| <= MAX_COLS && |sc.uks| <= MAX_UKS && |Join(ColTexts(sc.cols))| < sc.rec
    requires forall i :: 0 <= i < |sc.cols| ==> ColStorable(sc.cols[i])
    requires forall i :: 0 <= i < |rows| ==> RowStorable(sc, rows[i])
    ensures Load(Save(sc.cols, rows), sc.rec) == Some((sc, rows)) && HdrFits(Save(sc.cols, rows), sc.rec)
  {
    SavedLoads(sc, rows);
    UksFitIff(sc.cols, |sc.cols|);
  }

  /** ... which for a saved header with more UK columns it does not ... */
  lemma ManyUks(cols: seq<Col>, rec: nat)
    requires 0 < |cols| <= MAX_COLS && |Join(ColTexts(cols))| < rec && (forall i :: 0 <= i < |cols| ==> ColStorable(cols[i])) && |UkSet(cols, |cols|)| > MAX_UKS
    ensures LoadHdr(Join(ColTexts(cols)), rec).cols == cols && !UksFit(cols, |cols|)
  {
    HeaderReads(Schema(cols, PkOf(cols, |cols|), UksOf(cols, |cols|), rec), []);
    assert Join(ColTexts(cols)) + [] == Join(ColTexts(cols));
    UksCount(cols, |cols|);
    UksFitIff(cols, |cols|);
  }

  function SixUks(): (cols: seq<Col>)
    ensures |cols| == 6 && forall i :: 0 <= i < 6 ==> cols[i].kind == UK && |cols[i].name| == 1 && 97 <= cols[i].name[0] as int <= 122
  {
    [Col(['a'], UK), Col(['b'], UK), Col(['c'], UK), Col(['d'], UK), Col(['e'], UK), Col(['f'], UK)]
  }

  /** ... such as one with six. */
  lemma SixUksOverrun(rec: nat)
    requires rec >= 256
    ensures LoadHdr(Join(ColTexts(SixUks())), rec).cols == SixUks() && !UksFit(SixUks(), 6)
  {
    var cols := SixUks();
    forall i | 0 <= i < 6 ensures ColStorable(cols[i]) && |ColTexts(cols)[i]| == 5 {
      OneLetter(cols[i]);
    }
    JoinLength(ColTexts(cols), 5);
    AllUks(cols, 6);
    ManyUks(cols, rec);
  }

  lemma {:induction false} AllUks(cols: seq<Col>, n: nat)
    requires n <= |cols| && forall i :: 0 <= i < n ==> cols[i].kind == UK
    ensures |UkSet(cols, n)| == n
  {
    if n > 0 {
      AllUks(cols, n - 1);
      assert UkSet(cols, n) == UkSet(cols, n - 1) + {n - 1};
    }
  }

  lemma OneLetter(c: Col)
    requires |c.name| == 1 && 97 <= c.name[0] as int <= 122 && c.kind == UK
    ensures ColStorable(c) == true && |ColText(c)| == 5
  {
  }

  lemma {:induction false} JoinLength(ts: seq<Str>, n: nat)
    requires forall i :: 0 <= i < |ts| ==> |ts[i]| == n
    ensures |Join(ts)| <= |ts| * (n + 1)
    decreases |ts|
  {
    if |ts| > 1 {
      JoinLength(ts[1..], n);
    }
  }

  lemma SavedLoads(sc: Schema, rows: seq<Row>)
    requires sc.rec > 1 && FromCols(sc) && 0 < |sc.cols| <= MAX_COLS && |Join(ColTexts(sc.cols))| < sc.rec
    requires forall i :: 0 <= i < |sc.cols| ==> ColStorable(sc.cols[i])
    requires forall i :: 0 <= i < |rows| ==> RowStorable(sc, rows[i])
    ensures var text := Save(sc.cols, rows);
            text != [] && Load(text, sc.rec) == Some((sc, rows)) && LoadHdr(text[..LineLen(text, sc.rec)], sc.rec) == sc
  {
    var line, rest := Join(ColTexts(sc.cols)), RowLines(rows);
    forall i | 0 <= i < |sc.cols| ensures Without(ColTexts(sc.cols)[i], '\n') {
      ColTextFacts(sc.cols[i]);
    }
    JoinWithout(ColTexts(sc.cols), '\n');
    NextLine(line, rest, sc.rec);
    RowsRead(sc, rows);
    if |line| == sc.rec - 1 {
      HeaderReads(sc, []);
      assert line + [] == line;
      SkipBlank(sc, rest);
    } else {
      HeaderReads(sc, ['\n']);
    }
  }

  // ------------------------------------------------------------ the loops

  /** One line of tab_save: the texts, each followed by a comma or the line end. */
  method WriteLine(ts: seq<Str>) returns (line: Str)
    requires ts != []
    ensures line == Join(ts) + ['\n']
  {
    line := [];
    var i := 0;
    assert ts[0..] == ts;
    while i < |ts|
      invariant 0 <= i <= |ts|
      invariant i < |ts| ==> line + Join(ts[i..]) == Join(ts)
      invariant i == |ts| ==> line == Join(ts) + ['\n']
    {
      ghost var tail := ts[i..];
      assert tail[0] == ts[i] && tail[1..] == ts[i + 1..];
      if i == |ts| - 1 {
        line := line + ts[i] + ['\n'];
      } else {
        assert line + (ts[i] + [','] + Join(tail[1..])) == line + ts[i] + [','] + Join(tail[1..]);
        line := line + ts[i] + [','];
      }
      i := i + 1;
    }
  }

  /** tab_save, up to the file operations. */
  method SaveTable(cols: seq<Col>, rows: seq<Row>) returns (text: Str)
    requires cols != [] && forall i :: 0 <= i < |rows| ==> rows[i] != []
    ensures text == Save(cols, rows)
  {
    text := WriteLine(ColTexts(cols));
    var i := 0;
    assert rows[0..] == rows;
    while i < |rows|
      invariant 0 <= i <= |rows| && text + RowLines(rows[i..]) == Save(cols, rows)
    {
      ghost var tail := rows[i..];
      assert tail[0] == rows[i] && tail[1..] == rows[i + 1..];
      var line := WriteLine(CellTexts(rows[i]));
      assert text + (line + RowLines(tail[1..])) == text + line + RowLines(tail[1..]);
      text := text + line;
      i := i + 1;
    }
  }

  /** The rows read so far, followed by what the rest of the text gives. */
  ghost function Onto(rows: seq<Row>, more: Option<seq<Row>>): Option<seq<Row>> {
    if more.None? then None else Some(rows + more.value)
  }

  lemma OntoStep(rows: seq<Row>, row: Row, more: Option<seq<Row>>)
    ensures Onto(rows, Onto([row], more)) == Onto(rows + [row], more)
  {
    if more.Some? {
      Assoc(rows, [row], more.value);
    }
  }

  lemma LoadStep(sc: Schema, text: Str, rows: seq<Row>)
    requires sc.rec > 1 && text != []
    ensures var n := LineLen(text, sc.rec); var line := Chop(text[..n]);
            Onto(rows, LoadRows(sc, text)) ==
              if line == [] then Onto(rows, LoadRows(sc, text[n..]))
              else if LoadRow(sc, line).None? then None
              else Onto(rows + [LoadRow(sc, line).value], LoadRows(sc, text[n..]))
  {
    var n := LineLen(text, sc.rec);
    var line := Chop(text[..n]);
    if line != [] && LoadRow(sc, line).Some? {
      OntoStep(rows, LoadRow(sc, line).value, LoadRows(sc, text[n..]));
    }
  }

  /** What load_hdr has found in the first i columns. */
  ghost predicate HdrSoFar(all: seq<Col>, i: nat, cols: seq<Col>, pk: int, uks: seq<nat>) {
    i <= |all| && cols == all[..i] && pk == PkOf(all, i) && uks == UksOf(all, i)
  }

  lemma HdrStep(all: seq<Col>, i: nat, cols: seq<Col>, pk: int, uks: seq<nat>)
    requires i < |all| && UksFit(all, |all|) && HdrSoFar(all, i, cols, pk, uks)
    ensures all[i].kind == UK ==> |uks| < MAX_UKS
    ensures HdrSoFar(all, i + 1, cols + [all[i]], if all[i].kind == PK then i else pk, if all[i].kind == UK then uks + [i] else uks) == true
  {
  }

  lemma HdrEnd(all: seq<Col>, cols: seq<Col>, pk: int, uks: seq<nat>)
    requires HdrSoFar(all, |all|, cols, pk, uks)
    ensures cols == all && pk == PkOf(all, |all|) && uks == UksOf(all, |all|)
  {
  }

  /** The next slot of uk_idx. */
  method NoteUk(ukIdx: array<nat>, cnt: nat, i: nat)
    requires cnt < ukIdx.Length
    modifies ukIdx
    ensures ukIdx[..cnt + 1] == old(ukIdx[..cnt]) + [i]
  {
    ukIdx[cnt] := i;
  }

  /** load_hdr on the fields, with its array of UK columns. */
  method ReadCols(fields: seq<Str>, rec: nat) returns (sc: Schema)
    requires UksFit(LoadCols(fields), |fields|) == true
    ensures var cols := LoadCols(fields); sc == Schema(cols, PkOf(cols, |cols|), UksOf(cols, |cols|), rec)
  {
    ghost var all := LoadCols(fields);
    var cols, pk, ukIdx, ukCnt, i := [], -1, new nat[MAX_UKS], 0, 0;
    while i < |fields|
      invariant 0 <= i <= |fields| && 0 <= ukCnt <= MAX_UKS && HdrSoFar(all, i, cols, pk, ukIdx[..ukCnt]) == true
    {
      var c := LoadCol(fields[i]);
      HdrStep(all, i, cols, pk, ukIdx[..ukCnt]);
      if c.kind == PK {
        pk := i;
      } else if c.kind == UK {
        NoteUk(ukIdx, ukCnt, i);
        ukCnt := ukCnt + 1;
      }
      cols, i := cols + [c], i + 1;
    }
    HdrEnd(all, cols, pk, ukIdx[..ukCnt]);
    sc := Schema(cols, pk, ukIdx[..ukCnt], rec);
  }

  /** tab_load, up to the file operations and the indexes. */
  method LoadTable(text: Str, rec: nat) returns (r: Option<(Schema, seq<Row>)>)
    requires rec > 1 && HdrFits(text, rec)
    ensures r == Load(text, rec)
  {
    if text == [] {
      return None;
    }
    var n := LineLen(text, rec);
    var sc := ReadCols(SplitCsv(text[..n], rec), rec);
    var rest, rows := text[n..], [];
    ghost var goal := LoadRows(sc, rest);
    assert goal.Some? ==> [] + goal.value == goal.value;
    while rest != []
      invariant Onto(rows, LoadRows(sc, rest)) == goal
      decreases |rest|
    {
      LoadStep(sc, rest, rows);
      n := LineLen(rest, rec);
      var line := Chop(rest[..n]);
      rest := rest[n..];
      if line != [] {
        var row := LoadRow(sc, line);
        if row.None? {
          return None;
        }
        rows := rows + [row.value];
      }
    }
    assert rows + [] == rows;
    r := Some((sc, rows));
  }
}
