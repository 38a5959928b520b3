/**
 * The markup renderTable builds for the top-level table: the header cells,
 * one `<tr>` per record with a leading `+` control cell, and the detail block
 * an expanded row shows. The toggle handler and Expand All build the detail
 * block with the same code; here it is defined once.
 */
module RowMarkup {
  import opened Wrappers
  import opened JsValues
  import opened Markup
  import opened NestedTable

  /** `if (!Array.isArray(data)) data = [data]`: the records, one per row. */
  function Records(data: Json): seq<Json> {
    if data.Arr? then data.items else [data]
  }

  /** `Object.keys(data[0] || {})`: the columns, taken from the first record alone. */
  function Columns(recs: seq<Json>): seq<string> {
    if |recs| > 0 && Truthy(recs[0]) then Keys(recs[0]) else []
  }

  /** The cells appended to `#jsonHeader`: an empty one for the control column, then one per column. */
  function HeaderCells(keys: seq<string>): seq<string> {
    ["<th></th>"] + seq(|keys|, i requires 0 <= i < |keys| => "<th>" + keys[i] + "</th>")
  }

  // ---------------------------------------------------------------------
  // Top-level rows

  const ControlCell := "<tr><td class=\"details-control\">+</td>"

  /** A row's cells after the control cell: one per column, `row[k]` for each column `k`. */
  function TopRowCells(keys: seq<string>, row: Json): seq<string>
    requires !row.Null? || |keys| == 0
  {
    seq(|keys|, j requires 0 <= j < |keys| => CellFor(Get(row, keys[j])))
  }

  function TopRowHtml(cells: seq<string>): string {
    ControlCell + (Elements("<td>", "</td>", cells) + "</tr>")
  }

  /** The `<tr>` renderTable builds for a record, or the TypeError `row[k]` throws on a null record. */
  function RowOf(keys: seq<string>, row: Json): Result<string> {
    if row.Null? && |keys| > 0 then TypeError else Ok(TopRowHtml(TopRowCells(keys, row)))
  }

  /** The `<td>` cells renderTable appends to a row, one per column. */
  method TopCellsMarkup(keys: seq<string>, row: Json) returns (cells: string)
    requires !row.Null? || |keys| == 0
    ensures cells == Elements("<td>", "</td>", TopRowCells(keys, row))
  {
    cells := "";
    var j := 0;
    while j < |keys|
      invariant 0 <= j <= |keys|
      invariant cells == Elements("<td>", "</td>", TopRowCells(keys, row)[..j])
    {
      var text := CellFor(Get(row, keys[j]));
      ElementsPrefixStep("<td>", "</td>", TopRowCells(keys, row), j);
      cells := cells + "<td>" + text + "</td>";
      j := j + 1;
    }
    assert TopRowCells(keys, row)[..j] == TopRowCells(keys, row);
  }

  /** Builds a record's row; `row[k]` on a null record throws at the first column. */
  method BuildRow(keys: seq<string>, row: Json) returns (r: Result<string>)
    ensures r == RowOf(keys, row)
  {
    if row.Null? && |keys| > 0 {
      return TypeError;
    }
    var cells := TopCellsMarkup(keys, row);
    return Ok(ControlCell + (cells + "</tr>"));
  }

  /** Reads the cells between a row's opening and closing markup back out of it. */
  function ParseFramedRow(s: string, open: string, close: string): Option<seq<string>> {
    if !StartsWith(s, open) then None
    else
      var (cells, rest) := ParseItems("<td>", "</td>", s[|open|..]);
      if rest == close then Some(cells) else None
  }

  function ParseTopRow(s: string): Option<seq<string>> {
    ParseFramedRow(s, ControlCell, "</tr>")
  }

  lemma FramedRowRoundTrip(cells: seq<string>, open: string, close: string)
    requires forall j :: 0 <= j < |cells| ==> !Infix("</td>", cells[j])
    requires |close| > 1 && close[1] == '/'
    ensures ParseFramedRow(open + (Elements("<td>", "</td>", cells) + close), open, close) == Some(cells)
  {
    var body := Elements("<td>", "</td>", cells);
    var s := open + (body + close);
    SplitConcat(open, body + close);
    assert s[|open|..] == body + close;
    CloseIsNotOpen(close, "<td>");
    CellCloseShaped();
    ParseElements("<td>", "</td>", cells, close);
    assert ParseItems("<td>", "</td>", s[|open|..]) == (cells, close);
  }

  /**
   * A row whose cell texts hold no `</td>` reads back as exactly its cells
   * after the control cell, one per column.
   */
  lemma TopRowRoundTrip(keys: seq<string>, row: Json)
    requires !row.Null? || |keys| == 0
    requires forall j :: 0 <= j < |keys| ==> !Infix("</td>", TopRowCells(keys, row)[j])
    ensures RowOf(keys, row).Ok?
    ensures ParseTopRow(RowOf(keys, row).value) == Some(TopRowCells(keys, row))
    ensures |TopRowCells(keys, row)| == |keys|
  {
    assert "</tr>"[1] == '/';
    FramedRowRoundTrip(TopRowCells(keys, row), ControlCell, "</tr>");
  }

  /**
   * Cell `j` of an object's row shows the value of column `j` when the
   * object has that key, and "undefined" when it does not.
   */
  lemma TopRowCellsOfObject(keys: seq<string>, row: Json)
    requires row.Obj? && UniqueKeys(row)
    ensures |TopRowCells(keys, row)| == |keys|
    ensures forall j :: 0 <= j < |keys| && keys[j] !in Keys(row) ==> TopRowCells(keys, row)[j] == "undefined"
    ensures forall j, p :: 0 <= j < |keys| && 0 <= p < |row.fields| && row.fields[p].0 == keys[j] ==>
              TopRowCells(keys, row)[j] == CellText(row.fields[p].1)
  {
    forall j | 0 <= j < |keys| && keys[j] !in Keys(row)
      ensures TopRowCells(keys, row)[j] == "undefined"
    {
      GetMissingKey(row, keys[j]);
    }
    forall j, p | 0 <= j < |keys| && 0 <= p < |row.fields| && row.fields[p].0 == keys[j]
      ensures TopRowCells(keys, row)[j] == CellText(row.fields[p].1)
    {
      GetOwnKey(row, p);
    }
  }

  /**
   * The first record's own row shows each of its entries' values once, in
   * key order: an object's fields, or an array's elements or a string's
   * characters under their index keys.
   */
  lemma FirstRowShowsItsValues(recs: seq<Json>)
    requires |recs| > 0 && Truthy(recs[0]) && UniqueKeys(recs[0])
    ensures |TopRowCells(Columns(recs), recs[0])| == |Entries(recs[0])|
    ensures forall p :: 0 <= p < |Entries(recs[0])| ==>
              TopRowCells(Columns(recs), recs[0])[p] == CellText(Entries(recs[0])[p].1)
  {
    forall p | 0 <= p < |Entries(recs[0])|
      ensures TopRowCells(Columns(recs), recs[0])[p] == CellText(Entries(recs[0])[p].1)
    {
      GetOwnKey(recs[0], p);
    }
  }

  /** Nothing marks an absent key: it shows as the string value "undefined" does. */
  lemma AbsentKeyLooksLikeString()
    ensures TopRowCells(["k"], Obj([])) == TopRowCells(["k"], Obj([("k", Str("undefined"))]))
  {
  }

  /**
   * Rendering throws exactly when the columns are not empty and some record
   * is null; the first record never throws, since a null first record gives
   * no columns.
   */
  lemma RenderThrowsIff(data: Json)
    ensures var recs, keys := Records(data), Columns(Records(data));
            ((exists i :: 0 <= i < |recs| && RowOf(keys, recs[i]).TypeError?) <==> |keys| > 0 && Null in recs) &&
            (|recs| > 0 ==> RowOf(keys, recs[0]).Ok?)
  {
    var recs, keys := Records(data), Columns(Records(data));
    if |keys| > 0 && Null in recs {
      var i :| 0 <= i < |recs| && recs[i] == Null;
      assert RowOf(keys, recs[i]).TypeError?;
    }
  }

  /** The columns come from the first record alone: later records add none. */
  lemma ColumnsFromFirstRecord(first: Json, rest: seq<Json>)
    ensures Columns([first] + rest) == Columns([first])
    ensures Truthy(first) ==> Columns([first]) == Keys(first)
    ensures !Truthy(first) ==> Columns([first]) == []
  {
  }

  // ---------------------------------------------------------------------
  // Detail block

  /** The entries the detail block lists: those whose value is a non-null object or array. */
  function ContainerEntries(es: seq<(string, Json)>): seq<(string, Json)> {
    if |es| == 0 then []
    else ContainerEntries(es[..|es| - 1]) + (if IsContainer(es[|es| - 1].1) then [es[|es| - 1]] else [])
  }

  /** The positions of those entries, in increasing order. */
  function ContainerPositions(es: seq<(string, Json)>): seq<nat> {
    if |es| == 0 then []
    else ContainerPositions(es[..|es| - 1]) + (if IsContainer(es[|es| - 1].1) then [|es| - 1] else [])
  }

  /**
   * The detail block lists exactly the entries whose value is a non-null
   * object or array (arrays included), each once, in entry order.
   */
  lemma {:induction false} ContainerEntriesExact(es: seq<(string, Json)>)
    ensures var idx := ContainerPositions(es);
            |ContainerEntries(es)| == |idx| &&
            (forall i :: 0 <= i < |idx| ==> idx[i] < |es| && ContainerEntries(es)[i] == es[idx[i]]) &&
            (forall i :: 0 <= i < |idx| ==> IsContainer(es[idx[i]].1)) &&
            (forall i, j :: 0 <= i < j < |idx| ==> idx[i] < idx[j]) &&
            (forall p :: 0 <= p < |es| && IsContainer(es[p].1) ==> p in idx)
  {
    if |es| > 0 {
      var init := es[..|es| - 1];
      ContainerEntriesExact(init);
      var idx := ContainerPositions(es);
      forall i | 0 <= i < |idx|
        ensures idx[i] < |es| && ContainerEntries(es)[i] == es[idx[i]]
      {
        if i < |ContainerPositions(init)| {
          assert es[ContainerPositions(init)[i]] == init[ContainerPositions(init)[i]];
        }
      }
      forall p | 0 <= p < |es| && IsContainer(es[p].1)
        ensures p in idx
      {
        if p < |init| {
          assert init[p] == es[p];
          assert p in ContainerPositions(init);
        }
      }
    }
  }

  lemma {:induction false} ContainerEntriesAppend(a: seq<(string, Json)>, b: seq<(string, Json)>)
    ensures ContainerEntries(a + b) == ContainerEntries(a) + ContainerEntries(b)
  {
    if |b| > 0 {
      var init := b[..|b| - 1];
      assert (a + b)[..|a + b| - 1] == a + init;
      ContainerEntriesAppend(a, init);
    } else {
      assert a + b == a;
    }
  }

  /** One line of the detail block: the key in bold, then the nested table. */
  function DetailLine(k: string, html: string): string {
    "<b>" + k + "</b>: " + html + "<br>"
  }

  predicate AllBuild(items: seq<(string, Json)>) {
    forall e :: e in items ==> NestedTableOf(e.1).Ok?
  }

  function DetailLines(items: seq<(string, Json)>): string
    requires AllBuild(items)
  {
    if |items| == 0 then ""
    else
      var e := items[|items| - 1];
      DetailLines(items[..|items| - 1]) + DetailLine(e.0, ToStr(NestedTableOf(e.1).value))
  }

  /**
   * The detail block of a record: a TypeError when the record is null
   * (`Object.entries(null)`) or a listed value's nested table throws; else the
   * `<div>` of its lines.
   */
  function DetailOf(rec: Json): Result<string> {
    if rec.Null? then TypeError
    else
      var items := ContainerEntries(Entries(rec));
      if !AllBuild(items) then TypeError
      else Ok("<div>" + DetailLines(items) + "</div>")
  }

  lemma ContainerEntriesStep(es: seq<(string, Json)>, i: nat)
    requires i < |es|
    ensures ContainerEntries(es[..i + 1]) ==
              ContainerEntries(es[..i]) + (if IsContainer(es[i].1) then [es[i]] else [])
  {
    assert es[..i + 1][..i] == es[..i];
  }

  lemma ContainerEntryListed(es: seq<(string, Json)>, i: nat)
    requires i < |es| && IsContainer(es[i].1)
    ensures es[i] in ContainerEntries(es)
  {
    ContainerEntriesStep(es, i);
    ContainerEntriesAppend(es[..i + 1], es[i + 1..]);
    assert es[..i + 1] + es[i + 1..] == es;
  }

  lemma DetailLinesSnoc(items: seq<(string, Json)>, e: (string, Json))
    requires AllBuild(items + [e])
    ensures AllBuild(items)
    ensures DetailLines(items + [e]) == DetailLines(items) + DetailLine(e.0, ToStr(NestedTableOf(e.1).value))
  {
    assert (items + [e])[..|items|] == items;
  }

  /** One step of the detail loop: entry `i` adds its line when its value is listed. */
  lemma DetailStep(es: seq<(string, Json)>, i: nat)
    requires i < |es| && AllBuild(ContainerEntries(es[..i]))
    requires IsContainer(es[i].1) ==> NestedTableOf(es[i].1).Ok?
    ensures AllBuild(ContainerEntries(es[..i + 1]))
    ensures DetailLines(ContainerEntries(es[..i + 1])) ==
              DetailLines(ContainerEntries(es[..i])) +
              (if IsContainer(es[i].1) then DetailLine(es[i].0, ToStr(NestedTableOf(es[i].1).value)) else "")
  {
    ContainerEntriesStep(es, i);
    if IsContainer(es[i].1) {
      DetailLinesSnoc(ContainerEntries(es[..i]), es[i]);
    } else {
      assert ContainerEntries(es[..i + 1]) == ContainerEntries(es[..i]);
    }
  }

  method BuildDetail(rec: Json) returns (r: Result<string>)
    ensures r == DetailOf(rec)
  {
    if rec.Null? {
      return TypeError;
    }
    var es := Entries(rec);
    var lines := "";
    var i := 0;
    while i < |es|
      invariant 0 <= i <= |es|
      invariant AllBuild(ContainerEntries(es[..i]))
      invariant lines == DetailLines(ContainerEntries(es[..i]))
    {
      var (k, v) := es[i];
      var line := "";
      if IsObjectType(v) && !v.Null? {
        var nested := BuildNestedTable(v);
        if nested.TypeError? {
          ContainerEntryListed(es, i);
          return TypeError;
        }
        line := DetailLine(k, ToStr(nested.value));
      }
      DetailStep(es, i);
      lines := lines + line;
      i := i + 1;
    }
    assert es[..i] == es;
    return Ok("<div>" + lines + "</div>");
  }

  /**
   * Expanding a row throws exactly when its record is null or one of its
   * values is an array holding a null.
   */
  lemma DetailThrowsIff(rec: Json)
    ensures DetailOf(rec) == TypeError <==>
              rec.Null? ||
              exists p :: 0 <= p < |Entries(rec)| && Entries(rec)[p].1.Arr? && Null in Entries(rec)[p].1.items
  {
    if !rec.Null? {
      var es := Entries(rec);
      var items := ContainerEntries(es);
      ContainerEntriesExact(es);
      var idx := ContainerPositions(es);
      if !AllBuild(items) {
        var e :| e in items && NestedTableOf(e.1).TypeError?;
        var i :| 0 <= i < |items| && items[i] == e;
        NestedTableThrowsIff(e.1);
        assert es[idx[i]] == e;
      }
      if p :| 0 <= p < |es| && es[p].1.Arr? && Null in es[p].1.items {
        assert p in idx;
        var i :| 0 <= i < |idx| && idx[i] == p;
        assert items[i] == es[p];
        NestedTableThrowsIff(es[p].1);
      }
    }
  }
}
