/**
 * The markup `fetch_city_weather_ajax` echoes: a "no results" paragraph, or a
 * table with one `<tr>` per result row. Also a reader for that markup, used
 * to state that the table holds exactly its rows.
 */
module WeatherTable {
  import opened Wrappers
  import opened WpFormatting
  import opened Seqs

  // ---------------------------------------------------------------------------
  // Markup, exactly as echoed
  // ---------------------------------------------------------------------------

  /** A line break followed by `n` spaces: the layout inside the echoed string literals. */
  function Indent(n: nat): (r: string)
    ensures |r| == n + 1 && r[0] == '\n'
    ensures forall i :: 0 < i < |r| ==> r[i] == ' '
  {
    "\n" + seq(n, _ => ' ')
  }

  const NoResults := "<p>No countries or cities found.</p>"
  const TableHead := "<table>" + Indent(16) + "<thead>" + Indent(20) + "<tr>" +
    Indent(24) + "<th>Country</th>" + Indent(24) + "<th>City</th>" + Indent(24) + "<th>Temperature</th>" +
    Indent(20) + "</tr>" + Indent(16) + "</thead>" + Indent(13) + "<tbody>"
  const TableFoot := "</tbody>" + Indent(12) + "</table>"
  const RowOpen := "<tr>" + Indent(20) + "<td>"
  const CellSep := "</td>" + Indent(20) + "<td>"
  const Degrees := "°C"
  const RowEnd := "</td>" + Indent(16) + "</tr>"

  /**
   * The fixed pieces around the cells of a row and after the last row. The
   * rendering and the reader below are written over any such layout; the
   * handler uses `Markup`.
   */
  datatype Layout = Layout(rowOpen: string, cellSep: string, degrees: string, rowEnd: string, tableFoot: string)

  const Markup := Layout(RowOpen, CellSep, Degrees, RowEnd, TableFoot)

  /**
   * What makes a layout readable back: each cell text is followed by a tag,
   * the unit suffix holds no markup, and a row cannot be mistaken for the end
   * of the table.
   */
  predicate Delimited(l: Layout) {
    |l.cellSep| > 0 && l.cellSep[0] == '<' && |l.rowEnd| > 0 && l.rowEnd[0] == '<' &&
    NoMarkup(l.degrees) &&
    |l.rowOpen| > 1 && |l.tableFoot| > 1 && l.rowOpen[1] != l.tableFoot[1]
  }

  lemma MarkupDelimited()
    ensures Delimited(Markup)
  {
    assert CellSep[0] == '<' && RowEnd[0] == '<';
    assert RowOpen[1] == 't' && TableFoot[1] == '/';
  }

  /** The three cell texts of one table row, before escaping. */
  datatype Cells = Cells(country: string, city: string, temperature: string)

  /** One row: escaped country, escaped city, escaped temperature followed by the unit. */
  function Row(l: Layout, c: Cells): string {
    l.rowOpen + EscHtml(c.country) + l.cellSep + EscHtml(c.city) + l.cellSep + EscHtml(c.temperature) +
    l.degrees + l.rowEnd
  }

  /** The rows in order. */
  function Rows(l: Layout, cs: seq<Cells>): string {
    if cs == [] then "" else Row(l, cs[0]) + Rows(l, cs[1..])
  }

  lemma {:induction false} RowsSnoc(l: Layout, cs: seq<Cells>, c: Cells)
    ensures Rows(l, cs + [c]) == Rows(l, cs) + Row(l, c)
  {
    if cs == [] {
      SingleTail(c);
    } else {
      SnocTail(cs, c);
      RowsSnoc(l, cs[1..], c);
      AppendAssoc(Row(l, cs[0]), Rows(l, cs[1..]), Row(l, c));
    }
  }

  /** The rows followed by the end of the table. */
  function RowsThenFoot(l: Layout, cs: seq<Cells>): string {
    if cs == [] then l.tableFoot else Row(l, cs[0]) + RowsThenFoot(l, cs[1..])
  }

  /** One echoed `<tr>`. */
  function RowHtml(c: Cells): string {
    Row(Markup, c)
  }

  /** Everything the handler echoes for the given rows. */
  function ResponseHtml(cs: seq<Cells>): string {
    if cs == [] then NoResults else TableHead + Rows(Markup, cs) + TableFoot
  }

  // ---------------------------------------------------------------------------
  // Reading the markup back
  // ---------------------------------------------------------------------------

  predicate StartsWith(s: string, p: string) {
    |p| <= |s| && s[..|p|] == p
  }

  /** The longest prefix without a `<`. */
  function TakeUntilLt(s: string): (r: string)
    ensures |r| <= |s| && r == s[..|r|]
  {
    if s == [] || s[0] == '<' then [] else [s[0]] + TakeUntilLt(s[1..])
  }

  /** Reads one cell's text up to the next `<`, then expects `sep`. */
  function ParseCell(s: string, sep: string): Option<(string, string)> {
    var text := TakeUntilLt(s);
    var rest := s[|text|..];
    if StartsWith(rest, sep) then Some((UnescapeHtml(text), rest[|sep|..])) else None
  }

  /** Reads the last cell: its text must end in the unit, and the end of the row must follow. */
  function ParseLastCell(l: Layout, s: string): Option<(string, string)> {
    var text := TakeUntilLt(s);
    var rest := s[|text|..];
    if |text| >= |l.degrees| && text[|text| - |l.degrees|..] == l.degrees && StartsWith(rest, l.rowEnd) then
      Some((UnescapeHtml(text[..|text| - |l.degrees|]), rest[|l.rowEnd|..]))
    else None
  }

  /** Reads one row; gives its cells and what follows it. */
  function ParseRow(l: Layout, s: string): (r: Option<(Cells, string)>)
    ensures r.Some? ==> |r.value.1| < |s|
  {
    if !StartsWith(s, l.rowOpen) || l.rowOpen == [] then None
    else
      match ParseCell(s[|l.rowOpen|..], l.cellSep)
      case None => None
      case Some((country, s1)) =>
        match ParseCell(s1, l.cellSep)
        case None => None
        case Some((city, s2)) =>
          match ParseLastCell(l, s2)
          case None => None
          case Some((temperature, rest)) => Some((Cells(country, city, temperature), rest))
  }

  /** Reads rows until the end of the table. */
  function ParseRows(l: Layout, s: string): Option<seq<Cells>>
    decreases |s|
  {
    if s == l.tableFoot then Some([])
    else
      match ParseRow(l, s)
      case None => None
      case Some((c, rest)) =>
        match ParseRows(l, rest)
        case None => None
        case Some(cs) => Some([c] + cs)
  }

  /** Reads a whole response back into its rows of cells; the "no results" paragraph is no rows. */
  function ParseResponse(html: string): Option<seq<Cells>> {
    if html == NoResults then Some([])
    else if StartsWith(html, TableHead) then ParseRows(Markup, html[|TableHead|..])
    else None
  }

  // ---------------------------------------------------------------------------
  // The markup reads back as its rows
  // ---------------------------------------------------------------------------

  lemma RightNest(a: string, b: string, c: string, d: string, e: string, f: string, g: string, h: string, rest: string)
    ensures a + b + c + d + e + f + g + h + rest == a + (b + (c + (d + (e + (f + (g + (h + rest)))))))
  {
    AppendAssoc(a + b + c + d + e + f + g, h, rest);
    AppendAssoc(a + b + c + d + e + f, g, h + rest);
    AppendAssoc(a + b + c + d + e, f, g + (h + rest));
    AppendAssoc(a + b + c + d, e, f + (g + (h + rest)));
    AppendAssoc(a + b + c, d, e + (f + (g + (h + rest))));
    AppendAssoc(a + b, c, d + (e + (f + (g + (h + rest)))));
    AppendAssoc(a, b, c + (d + (e + (f + (g + (h + rest))))));
  }

  lemma {:induction false} TakeUntilLtOf(x: string, y: string)
    requires NoMarkup(x)
    requires y != [] && y[0] == '<'
    ensures TakeUntilLt(x + y) == x
  {
    if x == [] {
      EmptyAppend(x, y);
    } else {
      AppendFront(x, y);
      TakeUntilLtOf(x[1..], y);
    }
  }

  lemma ParseCellOf(text: string, sep: string, rest: string)
    requires sep != [] && sep[0] == '<'
    ensures ParseCell(EscHtml(text) + (sep + rest), sep) == Some((text, rest))
  {
    var s := EscHtml(text) + (sep + rest);
    TakeUntilLtOf(EscHtml(text), sep + rest);
    AppendSplit(EscHtml(text), sep + rest);
    AppendSplit(sep, rest);
    UnescapeEscHtml(text);
  }

  lemma NoMarkupAppend(x: string, y: string)
    requires NoMarkup(x) && NoMarkup(y)
    ensures NoMarkup(x + y)
  {
    var t := x + y;
    forall i | 0 <= i < |t|
      ensures t[i] != '<' && t[i] != '>' && t[i] != '"' && t[i] != '\''
    {
      if i >= |x| {
        assert t[i] == y[i - |x|];
      }
    }
  }

  lemma ParseLastCellOf(l: Layout, temperature: string, rest: string)
    requires Delimited(l)
    ensures ParseLastCell(l, EscHtml(temperature) + (l.degrees + (l.rowEnd + rest))) == Some((temperature, rest))
  {
    var e := EscHtml(temperature);
    var text := e + l.degrees;
    NoMarkupAppend(e, l.degrees);
    TakeUntilLtOf(text, l.rowEnd + rest);
    var s := text + (l.rowEnd + rest);
    AppendAssoc(e, l.degrees, l.rowEnd + rest);
    AppendSplit(e, l.degrees);
    AppendSplit(text, l.rowEnd + rest);
    AppendSplit(l.rowEnd, rest);
    UnescapeEscHtml(temperature);
  }

  lemma ParseRowOf(l: Layout, c: Cells, rest: string)
    requires Delimited(l)
    ensures ParseRow(l, Row(l, c) + rest) == Some((c, rest))
  {
    var e1, e2, e3 := EscHtml(c.country), EscHtml(c.city), EscHtml(c.temperature);
    var tail3 := e3 + (l.degrees + (l.rowEnd + rest));
    var tail2 := e2 + (l.cellSep + tail3);
    var s1 := e1 + (l.cellSep + tail2);
    var s := l.rowOpen + s1;
    RightNest(l.rowOpen, e1, l.cellSep, e2, l.cellSep, e3, l.degrees, l.rowEnd, rest);
    assert Row(l, c) + rest == s;
    AppendSplit(l.rowOpen, s1);
    ParseCellOf(c.country, l.cellSep, tail2);
    ParseCellOf(c.city, l.cellSep, tail3);
    ParseLastCellOf(l, c.temperature, rest);
  }

  lemma RowIsNotFoot(l: Layout, c: Cells, rest: string)
    requires Delimited(l)
    ensures Row(l, c) + rest != l.tableFoot
  {
    var s := Row(l, c) + rest;
    assert s[1] == l.rowOpen[1];
  }

  lemma ParseRowsStep(l: Layout, s: string, c: Cells, rest: string, tail: seq<Cells>)
    requires s != l.tableFoot && ParseRow(l, s) == Some((c, rest)) && ParseRows(l, rest) == Some(tail)
    ensures ParseRows(l, s) == Some([c] + tail)
  {
  }

  lemma {:induction false} ParseRowsOf(l: Layout, cs: seq<Cells>)
    requires Delimited(l)
    ensures ParseRows(l, RowsThenFoot(l, cs)) == Some(cs)
  {
    if cs != [] {
      var c, tail := cs[0], cs[1..];
      var rest := RowsThenFoot(l, tail);
      var s := RowsThenFoot(l, cs);
      assert s == Row(l, c) + rest;
      ParseRowsOf(l, tail);
      assert s != l.tableFoot by {
        RowIsNotFoot(l, c, rest);
      }
      assert ParseRow(l, s) == Some((c, rest)) by {
        ParseRowOf(l, c, rest);
      }
      ParseRowsStep(l, s, c, rest, tail);
      HeadTail(cs);
    }
  }

  lemma {:induction false} RowsThenFootIs(l: Layout, cs: seq<Cells>)
    ensures Rows(l, cs) + l.tableFoot == RowsThenFoot(l, cs)
  {
    if cs == [] {
      assert Rows(l, cs) + l.tableFoot == l.tableFoot;
    } else {
      RowsThenFootIs(l, cs[1..]);
      AppendAssoc(Row(l, cs[0]), Rows(l, cs[1..]), l.tableFoot);
    }
  }

  /**
   * The response encodes exactly its rows: reading it back gives every row's
   * country, city and temperature, in order, with nothing added or lost. No
   * rows give the "no results" paragraph, and only they do.
   */
  lemma ParseResponseHtml(cs: seq<Cells>)
    ensures ParseResponse(ResponseHtml(cs)) == Some(cs)
    ensures cs == [] <==> ResponseHtml(cs) == NoResults
  {
    if cs != [] {
      var body := RowsThenFoot(Markup, cs);
      ResponseHtmlIsTable(cs);
      TableIsNotNoResults(body);
      AppendSplit(TableHead, body);
      MarkupDelimited();
      ParseRowsOf(Markup, cs);
    }
  }

  lemma ResponseHtmlIsTable(cs: seq<Cells>)
    requires cs != []
    ensures ResponseHtml(cs) == TableHead + RowsThenFoot(Markup, cs)
  {
    RowsThenFootIs(Markup, cs);
    AppendAssoc(TableHead, Rows(Markup, cs), TableFoot);
  }

  lemma TableIsNotNoResults(body: string)
    ensures TableHead + body != NoResults
  {
    var html := TableHead + body;
    assert html[1] == TableHead[1] == 't';
    assert NoResults[1] == 'p';
  }

  /** Every row holds the escaped cell texts, and no cell text can contain markup. */
  lemma RowCellsEscaped(c: Cells)
    ensures RowHtml(c) == RowOpen + EscHtml(c.country) + CellSep + EscHtml(c.city) + CellSep +
                          EscHtml(c.temperature) + Degrees + RowEnd
    ensures NoMarkup(EscHtml(c.country)) && NoMarkup(EscHtml(c.city)) && NoMarkup(EscHtml(c.temperature))
  {
  }
}
