/** The CSV export of the owner dashboard (app/owner/dashboard/page.tsx
    `handleExportCSV`): a header line of the seven column names, then one
    line per shown customer with every field wrapped in double quotes.
    Quotes inside a field are not doubled (section 2 rule 7 of RFC 4180
    asks for that), and an empty list throws before anything is built. */
module CsvExport {

  import opened Wrappers
  import opened Store
  import Seqs
  import Text

  const Headers: seq<string> := ["Name", "Email", "Phone", "Created At", "Verified", "Verified At", "Notes"]

  /** The export of an empty list reads `Object.keys(undefined)` and throws. */
  datatype ExportError = NothingToExport

  /** The seven cell values of a record. `formatDate` stands for
      `new Date(..).toLocaleDateString()`, which depends on the locale. */
  function Fields(c: Customer, formatDate: Timestamp -> string): (r: seq<string>)
    ensures |r| == |Headers|
    ensures r[0] == c.name && r[1] == c.email
    ensures c.phone.Some? ==> r[2] == c.phone.value
    ensures c.phone.None? ==> r[2] == ""
    ensures r[3] == formatDate(c.createdAt)
    ensures r[4] == (if c.verified then "Yes" else "No")
    ensures c.verifiedAt.Some? ==> r[5] == formatDate(c.verifiedAt.value)
    ensures c.verifiedAt.None? ==> r[5] == ""
    ensures c.notes.Some? ==> r[6] == c.notes.value
    ensures c.notes.None? ==> r[6] == ""
  {
    [ c.name,
      c.email,
      c.phone.GetOr(""),
      formatDate(c.createdAt),
      if c.verified then "Yes" else "No",
      match c.verifiedAt case Some(t) => formatDate(t) case None => "",
      c.notes.GetOr("") ]
  }

  function Quote(field: string): string
  {
    "\"" + field + "\""
  }

  /** One CSV line: the quoted fields joined by commas. */
  function Row(fields: seq<string>): string
  {
    Text.Join(Seqs.Map(Quote, fields), ",")
  }

  function HeaderLine(): string
  {
    Text.Join(Headers, ",")
  }

  /** The whole file: header and rows joined by newlines. */
  function Export(shown: seq<Customer>, formatDate: Timestamp -> string): (r: Result<string, ExportError>)
    ensures r.Err? <==> |shown| == 0
    ensures r.Ok? ==> Text.StartsWith(r.value, HeaderLine() + "\n")
  {
    if |shown| == 0 then Err(NothingToExport)
    else
      var rows := Seqs.Map((c: Customer) => Row(Fields(c, formatDate)), shown);
      Ok(Text.Join([HeaderLine()] + rows, "\n"))
  }

  /** Reads the quoted cell at the start of `line`: its text, up to the
      next quote, and what follows the closing quote. */
  function ParseCell(line: string): (r: Option<(string, string)>)
    ensures r.Some? ==> |r.value.1| < |line|
  {
    if |line| == 0 || line[0] != '"' then None
    else
      var body := line[1..];
      match Text.IndexOf(body, '"')
      case None => None
      case Some(j) => Some((body[..j], body[j + 1..]))
  }

  /** Reads back a line of quoted fields; a field ends at the next quote. */
  function ParseRow(line: string): Option<seq<string>>
    decreases |line|
  {
    match ParseCell(line)
    case None => None
    case Some((cell, after)) =>
      if |after| == 0 then Some([cell])
      else if after[0] != ',' then None
      else match ParseRow(after[1..])
        case None => None
        case Some(rest) => Some([cell] + rest)
  }

  lemma RowUnfold(fields: seq<string>)
    requires |fields| > 1
    ensures Row(fields) == Quote(fields[0]) + "," + Row(fields[1..])
  {
    assert Seqs.Map(Quote, fields)[1..] == Seqs.Map(Quote, fields[1..]);
  }

  /** A quoted cell without inner quotes reads back as itself. */
  lemma CellOf(f: string, tail: string)
    requires '"' !in f
    ensures ParseCell(Quote(f) + tail) == Some((f, tail))
  {
    var line := Quote(f) + tail;
    assert line[1..] == f + ['"'] + tail;
    Text.IndexOfAfterPrefix(f, '"', tail);
    assert line[1..][..|f|] == f;
    assert line[1..][|f| + 1..] == tail;
  }

  lemma ParseLast(f: string)
    requires '"' !in f
    ensures ParseRow(Quote(f)) == Some([f])
  {
    CellOf(f, "");
    assert Quote(f) + "" == Quote(f);
  }

  lemma ParseMore(f: string, tail: string, rest: seq<string>)
    requires '"' !in f
    requires ParseRow(tail) == Some(rest)
    ensures ParseRow(Quote(f) + "," + tail) == Some([f] + rest)
  {
    CellOf(f, "," + tail);
    assert Quote(f) + "," + tail == Quote(f) + ("," + tail);
    assert ("," + tail)[1..] == tail;
  }

  /** No cell contains the character `ch`. */
  predicate FreeOf(fields: seq<string>, ch: char)
  {
    forall i :: 0 <= i < |fields| ==> ch !in fields[i]
  }

  lemma ParseOne(fields: seq<string>)
    requires |fields| == 1 && FreeOf(fields, '"')
    ensures ParseRow(Row(fields)) == Some(fields)
  {
    assert Seqs.Map(Quote, fields) == [Quote(fields[0])];
    assert Row(fields) == Quote(fields[0]);
    ParseLast(fields[0]);
    assert [fields[0]] == fields;
  }

  lemma FreeOfTail(fields: seq<string>, ch: char)
    requires |fields| > 0 && FreeOf(fields, ch)
    ensures ch !in fields[0] && FreeOf(fields[1..], ch)
  {
    assert forall i :: 0 <= i < |fields| - 1 ==> fields[1..][i] == fields[i + 1];
  }

  /** Fields without a double quote read back unchanged. */
  lemma {:induction false} ParseRowRoundTrip(fields: seq<string>)
    requires |fields| > 0 && FreeOf(fields, '"')
    ensures ParseRow(Row(fields)) == Some(fields)
    decreases |fields|
  {
    if |fields| == 1 {
      ParseOne(fields);
    } else {
      var tail := fields[1..];
      FreeOfTail(fields, '"');
      ParseRowRoundTrip(tail);
      var line := Row(tail);
      RowUnfold(fields);
      ParseMore(fields[0], line, tail);
      assert [fields[0]] + tail == fields;
    }
  }

  /** The header line is the seven column names, in the order the row
      objects declare them, separated by commas. */
  lemma HeaderColumns()
    ensures Text.Split(HeaderLine(), ',') == Headers
  {
    HeadersPlain();
    Text.SplitJoin(Headers, ',');
  }

  /** A cell made of letters and spaces only. */
  predicate Plain(cell: string)
  {
    forall j :: 0 <= j < |cell| ==> cell[j] == ' ' || 'A' <= cell[j] <= 'z'
  }

  /** The column names hold letters and spaces only, so they contain
      neither a comma nor a newline. */
  lemma HeadersPlain()
    ensures forall i :: 0 <= i < |Headers| ==> Plain(Headers[i])
    ensures FreeOf(Headers, ',') && FreeOf(Headers, '\n')
  {
    assert Plain("Name") && Plain("Email") && Plain("Phone") && Plain("Created At");
    assert Plain("Verified") && Plain("Verified At") && Plain("Notes");
  }

  /** Moving a `","` from the end of one cell to the start of the next
      leaves the text of two quoted cells unchanged. */
  lemma ShiftSeparator(x: string, y: string, z: string)
    ensures Quote(x + "\",\"" + y) + "," + Quote(z) == Quote(x) + "," + Quote(y + "\",\"" + z)
  {
    var q: string := "\"";
    assert Quote(x + "\",\"" + y) + "," + Quote(z) == q + x + q + "," + q + y + q + "," + q + z + q;
    assert Quote(x) + "," + Quote(y + "\",\"" + z) == q + x + q + "," + q + y + q + "," + q + z + q;
  }

  /** Whatever cells follow, moving a `","` across the boundary of the
      first two cells leaves the line unchanged. */
  lemma RowShift(x: string, y: string, z: string, rest: seq<string>)
    requires |rest| > 0
    ensures Row([x + "\",\"" + y, z] + rest) == Row([x, y + "\",\"" + z] + rest)
  {
    var f1 := [x + "\",\"" + y, z] + rest;
    var f2 := [x, y + "\",\"" + z] + rest;
    RowUnfold(f1);
    RowUnfold(f1[1..]);
    RowUnfold(f2);
    RowUnfold(f2[1..]);
    assert f1[1..][1..] == rest && f2[1..][1..] == rest;
    ShiftSeparator(x, y, z);
    var tail := Row(rest);
    assert Row(f1) == (Quote(f1[0]) + "," + Quote(f1[1])) + "," + tail;
    assert Row(f2) == (Quote(f2[0]) + "," + Quote(f2[1])) + "," + tail;
  }

  /** A cell containing `","` reads as two: two records that differ in
      name and email export the same line, so the file cannot be read
      back. */
  lemma RowAmbiguous(c: Customer, formatDate: Timestamp -> string)
    ensures var c1 := c.(name := "a\",\"b", email := "c");
            var c2 := c.(name := "a", email := "b\",\"c");
            c1 != c2 && Row(Fields(c1, formatDate)) == Row(Fields(c2, formatDate))
  {
    var c1 := c.(name := "a\",\"b", email := "c");
    var c2 := c.(name := "a", email := "b\",\"c");
    assert c1.name != c2.name by {
      assert |c1.name| != |c2.name|;
    }
    var t := Fields(c1, formatDate)[2..];
    assert "a" + "\",\"" + "b" == c1.name;
    assert "b" + "\",\"" + "c" == c2.email;
    assert Fields(c1, formatDate) == [c1.name, "c"] + t;
    assert Fields(c2, formatDate) == ["a", c2.email] + t;
    RowShift("a", "b", "c", t);
  }

  lemma {:induction false} JoinAvoids(parts: seq<string>, sep: string, ch: char)
    requires ch !in sep && FreeOf(parts, ch)
    ensures ch !in Text.Join(parts, sep)
    decreases |parts|
  {
    if |parts| > 1 {
      var rest := parts[1..];
      assert FreeOf(rest, ch) by {
        assert forall i :: 0 <= i < |rest| ==> rest[i] == parts[i + 1];
      }
      JoinAvoids(rest, sep, ch);
      assert Text.Join(parts, sep) == parts[0] + sep + Text.Join(rest, sep);
    }
  }

  lemma HeaderLineAvoidsNewline()
    ensures '\n' !in HeaderLine()
  {
    HeadersPlain();
    JoinAvoids(Headers, ",", '\n');
  }

  /** A record's line has no newline when none of its cell values has. */
  lemma RowAvoidsNewline(c: Customer, formatDate: Timestamp -> string)
    requires FreeOf(Fields(c, formatDate), '\n')
    ensures '\n' !in Row(Fields(c, formatDate))
  {
    var fs := Fields(c, formatDate);
    var quoted := Seqs.Map(Quote, fs);
    forall i | 0 <= i < |quoted|
      ensures '\n' !in quoted[i]
    {
      assert quoted[i] == ['"'] + fs[i] + ['"'];
    }
    JoinAvoids(quoted, ",", '\n');
  }

  /** The file splits on newlines into the header line and one line per
      record, as long as no cell value contains a newline. */
  lemma ExportLines(shown: seq<Customer>, formatDate: Timestamp -> string)
    requires |shown| > 0
    requires forall k :: 0 <= k < |shown| ==> FreeOf(Fields(shown[k], formatDate), '\n')
    ensures Text.Split(Export(shown, formatDate).value, '\n') ==
            [HeaderLine()] + Seqs.Map((c: Customer) => Row(Fields(c, formatDate)), shown)
  {
    var rows := Seqs.Map((c: Customer) => Row(Fields(c, formatDate)), shown);
    var lines := [HeaderLine()] + rows;
    HeaderLineAvoidsNewline();
    forall i | 0 <= i < |lines|
      ensures '\n' !in lines[i]
    {
      if i > 0 {
        RowAvoidsNewline(shown[i - 1], formatDate);
        assert lines[i] == rows[i - 1];
      }
    }
    Text.SplitJoin(lines, '\n');
  }

  /** Every record's line reads back to its seven cell values when none of
      them contains a double quote. */
  lemma RecordRoundTrip(c: Customer, formatDate: Timestamp -> string)
    requires FreeOf(Fields(c, formatDate), '"')
    ensures ParseRow(Row(Fields(c, formatDate))) == Some(Fields(c, formatDate))
  {
    ParseRowRoundTrip(Fields(c, formatDate));
  }
}
