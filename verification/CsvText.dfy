/** The text of a saved table, letter by letter (src/db/dbapi.c:735-769, 843-879). */
module CsvText {
  import opened Basics
  import opened Text
  import opened EngineSpec
  import opened WriteSpec
  import opened Csv
  import TextRules

  /** A name that can stand before a tag. */
  predicate IsName(name: Str) {
    |name| < 50 && (name == [] || TextRules.Firm(name)) && Without(name, '\'') && Without(name, ',') && Without(name, '(') && Without(name, '\r') && Without(name, '\n')
  }

  lemma NameStores(name: Str, k: Kind)
    requires IsName(name)
    ensures ColStorable(Col(name, k)) == true
  {
  }

  /** A header field is read by its tag. */
  lemma TagsLoad(name: Str)
    requires IsName(name)
    ensures LoadCol(name + "(PK)") == Col(name, PK)
    ensures LoadCol(name + "(UK)") == Col(name, UK)
    ensures LoadCol(name + "(NN)") == Col(name, NN)
    ensures LoadCol(name) == Col(name, Normal)
  {
    TagLoads(name, PK);
    TagLoads(name, UK);
    TagLoads(name, NN);
    TagLoads(name, Normal);
    assert name + [] == name;
  }

  lemma TagLoads(name: Str, k: Kind)
    requires IsName(name)
    ensures LoadCol(name + TagText(k)) == Col(name, k)
  {
    NameStores(name, k);
    ColReads(Col(name, k));
    TagIs(k);
  }

  function TagText(k: Kind): Str {
    match k
    case PK => "(PK)"
    case UK => "(UK)"
    case NN => "(NN)"
    case Normal => ""
  }

  lemma TagIs(k: Kind)
    ensures Tag(k) == TagText(k)
  {
  }

  /** A column is named by what stands before the first parenthesis, up to 49 characters. */
  lemma NameIsCut(name: Str, rest: Str)
    requires Without(name, '(') && TextRules.Firm(name + "(" + rest) && name != [] && name[0] != '\''
    ensures LoadCol(name + "(" + rest).name == if |name| < 50 then name else name[..49]
  {
    var f := name + "(" + rest;
    TextRules.TrimBare([], f, []);
    assert [] + (f + []) == f;
    assert f[|name|] == '(' && f[..|name|] == name;
    assert IndexOf(f, '(') == |name| by {
      assert forall j :: 0 <= j < |name| ==> f[j] == name[j];
    }
  }

  /** Where a field has several tags, PK comes before UK, and UK before NN. */
  lemma FirstTagCounts(rest: Str)
    ensures KindOf("(UK)" + rest) == if Contains("(UK)" + rest, "(PK)") then PK else UK
    ensures KindOf("(PK)" + rest) == PK
  {
    assert Tag(PK) == "(PK)" && Tag(UK) == "(UK)";
    assert "(PK)" <= "(PK)" + rest && "(UK)" <= "(UK)" + rest;
  }

  /** A column is written as its name and its tag, and a value in quotes if it has a comma. */
  lemma SavedAs(name: Str, k: Kind, v: Str)
    ensures ColText(Col(name, k)) == name + TagText(k)
    ensures (exists i :: 0 <= i < |v| && v[i] == ',') ==> CellText(v) == "'" + v + "'"
    ensures (forall i :: 0 <= i < |v| ==> v[i] != ',') ==> CellText(v) == v
  {
    TagIs(k);
  }

  /** A line is its fields with commas between them; a table is the line of its columns and
      then a line for each row. */
  lemma SavedLines(cols: seq<Col>, rows: seq<Row>, row: Row)
    ensures Save(cols, []) == Join(ColTexts(cols)) + "\n"
    ensures Save(cols, rows + [row]) == Save(cols, rows) + (Join(CellTexts(row)) + "\n")
  {
    assert Join(ColTexts(cols)) + ['\n'] + [] == Join(ColTexts(cols)) + "\n";
    LinesPush(rows, row);
    Assoc(Join(ColTexts(cols)) + ['\n'], RowLines(rows), Join(CellTexts(row)) + ['\n']);
  }

  lemma {:induction false} LinesPush(rows: seq<Row>, row: Row)
    ensures RowLines(rows + [row]) == RowLines(rows) + (Join(CellTexts(row)) + ['\n'])
  {
    if rows == [] {
      assert rows + [row] == [row] && (rows + [row])[1..] == rows;
      assert Join(CellTexts(row)) + ['\n'] + [] == [] + (Join(CellTexts(row)) + ['\n']);
    } else {
      LinesPush(rows[1..], row);
      assert (rows + [row])[1..] == rows[1..] + [row];
      Assoc(Join(CellTexts(rows[0])) + ['\n'], RowLines(rows[1..]), Join(CellTexts(row)) + ['\n']);
    }
  }

  lemma JoinIs(a: Str, rest: seq<Str>)
    requires rest != []
    ensures Join([a]) == a && Join([a] + rest) == a + "," + Join(rest)
  {
    assert ([a] + rest)[1..] == rest;
  }

  /** A row line is refused exactly when it has another number of fields than there are
      columns, or its PK is no number; otherwise its cells are its fields, trimmed. */
  lemma RowLoads(sc: Schema, line: Str)
    requires Sized(sc)
    ensures var fs := SplitCsv(line, sc.rec); var r := LoadRow(sc, line);
            && (r.None? <==> |fs| != |sc.cols| || (sc.pk >= 0 && ParseL(Trim(fs[sc.pk])).None?))
            && (r.Some? ==> |r.value| == |fs| && forall i :: 0 <= i < |fs| ==> r.value[i] == Trim(fs[i]))
  {
    var fs := SplitCsv(line, sc.rec);
    assert |fs| == |sc.cols| && sc.pk >= 0 ==> Trims(fs)[sc.pk] == Trim(fs[sc.pk]);
  }

  /** A line ends at its first carriage return or newline. */
  lemma LineEnds(line: Str, rest: Str)
    requires Without(line, '\r') && Without(line, '\n')
    ensures Chop(line + "\n") == line && Chop(line + "\r\n") == line && Chop(line) == line && Chop(line + "\r" + rest) == line
  {
    ChopAt(line, "\n");
    ChopAt(line, "\r\n");
    ChopAt(line, "\r" + rest);
    assert line + ("\r" + rest) == line + "\r" + rest;
    ChopAt(line, "");
    assert line + "" == line;
  }

  lemma ChopAt(line: Str, tail: Str)
    requires Without(line, '\r') && Without(line, '\n') && (tail == [] || tail[0] == '\r' || tail[0] == '\n')
    ensures Chop(line + tail) == line
  {
    var s := line + tail;
    if tail != [] {
      assert s[|line|] == tail[0];
    }
    assert s[..|line|] == line;
  }

  /** One read takes a line with its end, or as much as fits in the buffer. */
  lemma ReadTakes(line: Str, rest: Str, rec: nat)
    requires rec > 1 && Without(line, '\n')
    ensures |line| + 1 < rec ==> LineLen(line + "\n" + rest, rec) == |line| + 1
    ensures |line| + 1 >= rec ==> LineLen(line + "\n" + rest, rec) == rec - 1
    ensures LineLen(line, rec) == if |line| < rec then |line| else rec - 1
  {
    var text := line + "\n" + rest;
    assert text[|line|] == '\n' && forall i :: 0 <= i < |line| ==> text[i] == line[i];
  }

  lemma Joined(a: Str, b: Str, c: Str, d: Str)
    ensures Join([a, b, c, d]) == a + "," + (b + "," + (c + "," + d))
  {
    JoinIs(c, [d]);
    JoinIs(b, [c, d]);
    JoinIs(a, [b, c, d]);
    JoinIs(d, [d]);
    assert [c] + [d] == [c, d] && [b] + [c, d] == [b, c, d] && [a] + [b, c, d] == [a, b, c, d];
  }

  function UserCols(): seq<Col> {
    [Col("id", PK), Col("email", UK), Col("name", NN), Col("age", Normal)]
  }

  lemma UserFields()
    ensures ColTexts(UserCols()) == ["id(PK)", "email(UK)", "name(NN)", "age"]
  {
    SavedAs("id", PK, []);
    SavedAs("email", UK, []);
    SavedAs("name", NN, []);
    SavedAs("age", Normal, []);
    FieldTexts();
  }

  lemma FieldTexts()
    ensures "id" + "(PK)" == "id(PK)" && "email" + "(UK)" == "email(UK)" && "name" + "(NN)" == "name(NN)" && "age" + "" == "age"
  {
  }

  lemma UserHeader()
    ensures Join(ColTexts(UserCols())) == "id(PK),email(UK),name(NN),age"
  {
    UserFields();
    Joined("id(PK)", "email(UK)", "name(NN)", "age");
    HeaderText();
  }

  lemma HeaderText()
    ensures "id(PK)" + "," + ("email(UK)" + "," + ("name(NN)" + "," + "age")) == "id(PK),email(UK),name(NN),age"
  {
    assert "name(NN)" + "," + "age" == "name(NN),age";
    assert "email(UK)" + "," + "name(NN),age" == "email(UK),name(NN),age";
  }

  lemma UserNames()
    ensures forall i :: 0 <= i < 4 ==> ColStorable(UserCols()[i])
  {
    NameStores("id", PK);
    NameStores("email", UK);
    NameStores("name", NN);
    NameStores("age", Normal);
  }

  /** The header of data/users.csv: the first column is the PK, the second the only UK. */
  lemma UsersLoad()
    ensures LoadHdr("id(PK),email(UK),name(NN),age\n", 1024) == Schema(UserCols(), 0, [1], 1024)
  {
    var cols := UserCols();
    var sc := Schema(cols, 0, [1], 1024);
    UserHeader();
    UserNames();
    UserKeys(cols);
    HeaderReads(sc, ['\n']);
    assert "id(PK),email(UK),name(NN),age" + ['\n'] == "id(PK),email(UK),name(NN),age\n";
  }

  lemma UserKeys(cols: seq<Col>)
    requires cols == UserCols()
    ensures PkOf(cols, 4) == 0 && UksOf(cols, 4) == [1]
  {
    assert PkOf(cols, 1) == 0 && PkOf(cols, 2) == 0 && PkOf(cols, 3) == 0;
    assert UksOf(cols, 1) == [] && UksOf(cols, 2) == [1] && UksOf(cols, 3) == [1];
  }
}
