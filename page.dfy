/**
 * The page's table state: the header and body markup renderTable writes, and
 * per DataTables row whether its detail (child) row is shown, whether the
 * `<tr>` carries the `shown` class, the text of its control cell and the
 * child markup DataTables keeps for it. Toggling a row, Expand All, Collapse
 * All, Clear and the teardown at the start of renderTable change that state.
 */
module Page {
  import opened Wrappers
  import opened JsValues
  import opened RowMarkup

  const Plus := "+"
  const Dash := "\U{2013}"

  /** The control cell's text for a row whose child is shown or hidden. */
  function Glyph(shown: bool): string {
    if shown then Dash else Plus
  }

  /**
   * One DataTables row: `shown` is `row.child.isShown()`, `marked` the
   * `shown` class on the `<tr>`, `glyph` the control cell's text and `child`
   * the child markup last given to `row.child(...)`.
   */
  datatype Row = Row(shown: bool, marked: bool, glyph: string, child: Option<string>)

  /** A row as DataTables creates it: no child, unmarked, `+`. */
  const Fresh := Row(false, false, Plus, None)

  /** What the user sees of a row: the child shown or not, the class and the control text. */
  function Visible(r: Row): (bool, bool, string) {
    (r.shown, r.marked, r.glyph)
  }

  /**
   * The row's class and control text agree with its child's visibility, a
   * shown row has a child, and any child held is the detail block of the
   * row's record.
   */
  predicate Consistent(r: Row, rec: Json) {
    r.marked == r.shown && r.glyph == Glyph(r.shown) &&
    (r.shown ==> r.child.Some?) &&
    (r.child.Some? ==> DetailOf(rec) == Ok(r.child.value))
  }

  /** Showing a hidden row's detail; nothing changes when its detail throws. */
  function Expanded(r: Row, d: Result<string>): Row {
    if r.shown || d.TypeError? then r else Row(true, true, Dash, Some(d.value))
  }

  /** Hiding a shown row's detail; DataTables keeps the child markup. */
  function Collapsed(r: Row): Row {
    if r.shown then r.(shown := false, marked := false, glyph := Plus) else r
  }

  /** A click on the row's control cell. */
  function Toggled(r: Row, d: Result<string>): Row {
    if r.shown then Collapsed(r) else Expanded(r, d)
  }

  /** The detail block of every record, in row order. */
  function Details(data: seq<Json>): (ds: seq<Result<string>>)
    ensures |ds| == |data| && forall i :: 0 <= i < |data| ==> ds[i] == DetailOf(data[i])
  {
    seq(|data|, i requires 0 <= i < |data| => DetailOf(data[i]))
  }

  /** Row `i` is hidden and building its detail throws: Expand All stops there. */
  predicate Blocks(rows: seq<Row>, ds: seq<Result<string>>, i: nat)
    requires |rows| == |ds| && i < |rows|
  {
    !rows[i].shown && ds[i].TypeError?
  }

  /** The first blocking row at or after `from`, or `|rows|` when there is none. */
  function StopFrom(rows: seq<Row>, ds: seq<Result<string>>, from: nat): (k: nat)
    requires |rows| == |ds| && from <= |rows|
    ensures from <= k <= |rows|
    ensures forall j :: from <= j < k ==> !Blocks(rows, ds, j)
    ensures k < |rows| ==> Blocks(rows, ds, k)
    decreases |rows| - from
  {
    if from == |rows| then from
    else if Blocks(rows, ds, from) then from
    else StopFrom(rows, ds, from + 1)
  }

  function StopIndex(rows: seq<Row>, ds: seq<Result<string>>): nat
    requires |rows| == |ds|
  {
    StopFrom(rows, ds, 0)
  }

  /** The rows after Expand All: every row before the first blocking one expanded. */
  function ExpandedAll(rows: seq<Row>, ds: seq<Result<string>>): seq<Row>
    requires |rows| == |ds|
  {
    var stop := StopIndex(rows, ds);
    seq(|rows|, j requires 0 <= j < |rows| => if j < stop then Expanded(rows[j], ds[j]) else rows[j])
  }

  /** The rows after Collapse All. */
  function CollapsedAll(rows: seq<Row>): seq<Row> {
    seq(|rows|, j requires 0 <= j < |rows| => Collapsed(rows[j]))
  }

  predicate AllConsistent(rows: seq<Row>, data: seq<Json>)
    requires |rows| == |data|
  {
    forall i :: 0 <= i < |rows| ==> Consistent(rows[i], data[i])
  }

  // ---------------------------------------------------------------------
  // Properties of the row state machine

  /** Toggling, expanding and collapsing keep a row consistent with its record. */
  lemma StepsKeepConsistent(r: Row, rec: Json)
    requires Consistent(r, rec)
    ensures Consistent(Toggled(r, DetailOf(rec)), rec)
    ensures Consistent(Expanded(r, DetailOf(rec)), rec)
    ensures Consistent(Collapsed(r), rec)
  {
  }

  /**
   * Two clicks on a row restore what the user sees; on a shown row they
   * restore the row exactly, child included.
   */
  lemma ToggleTwice(r: Row, rec: Json)
    requires Consistent(r, rec)
    ensures Visible(Toggled(Toggled(r, DetailOf(rec)), DetailOf(rec))) == Visible(r)
    ensures r.shown ==> Toggled(Toggled(r, DetailOf(rec)), DetailOf(rec)) == r
  {
    if r.shown {
      assert DetailOf(rec) == Ok(r.child.value);
    }
  }

  /** A click shows the detail exactly when it was hidden and its block builds. */
  lemma ToggleShowsIff(r: Row, rec: Json)
    ensures Toggled(r, DetailOf(rec)).shown <==> !r.shown && DetailOf(rec).Ok?
    ensures Toggled(r, DetailOf(rec)).shown ==> Toggled(r, DetailOf(rec)).child == Some(DetailOf(rec).value)
  {
  }

  /** Expand All fails exactly when some hidden row's detail throws. */
  lemma StopIndexIff(rows: seq<Row>, ds: seq<Result<string>>)
    requires |rows| == |ds|
    ensures StopIndex(rows, ds) < |rows| <==> exists j :: 0 <= j < |rows| && Blocks(rows, ds, j)
  {
  }

  /** The blocking rows from `from` on decide where the scan stops. */
  lemma {:induction false} StopFromAgrees(a: seq<Row>, b: seq<Row>, ds: seq<Result<string>>, from: nat)
    requires |a| == |ds| && |b| == |ds| && from <= |ds|
    requires forall j :: from <= j < |ds| ==> (Blocks(a, ds, j) <==> Blocks(b, ds, j))
    ensures StopFrom(a, ds, from) == StopFrom(b, ds, from)
    decreases |ds| - from
  {
    if from < |ds| {
      StopFromAgrees(a, b, ds, from + 1);
    }
  }

  /** Once a row blocks, the scan from any earlier point halts no later than it. */
  lemma {:induction false} StopFromAtFirstBlock(rows: seq<Row>, ds: seq<Result<string>>, from: nat, k: nat)
    requires |rows| == |ds| && from <= k <= |rows|
    requires forall j :: from <= j < k ==> !Blocks(rows, ds, j)
    requires k < |rows| ==> Blocks(rows, ds, k)
    ensures StopFrom(rows, ds, from) == k
    decreases |rows| - from
  {
    if from < k {
      StopFromAtFirstBlock(rows, ds, from + 1, k);
    }
  }

  /** A second Expand All changes nothing, whether or not the first one failed. */
  lemma ExpandAllIdempotent(rows: seq<Row>, ds: seq<Result<string>>)
    requires |rows| == |ds|
    ensures ExpandedAll(ExpandedAll(rows, ds), ds) == ExpandedAll(rows, ds)
  {
    var e := ExpandedAll(rows, ds);
    var s := StopIndex(rows, ds);
    forall j | 0 <= j < s
      ensures !Blocks(e, ds, j)
    {
      assert !Blocks(rows, ds, j);
    }
    if s < |rows| {
      assert e[s] == rows[s];
    }
    StopFromAtFirstBlock(e, ds, 0, s);
  }

  /**
   * When Expand All finishes, every row is shown; in a consistent table each
   * shows its own record's detail block.
   */
  lemma ExpandAllShowsEverything(rows: seq<Row>, data: seq<Json>)
    requires |rows| == |data| && AllConsistent(rows, data)
    requires StopIndex(rows, Details(data)) == |rows|
    ensures forall j :: 0 <= j < |rows| ==>
              ExpandedAll(rows, Details(data))[j].shown &&
              ExpandedAll(rows, Details(data))[j].child == Some(DetailOf(data[j]).value)
  {
    var ds := Details(data);
    forall j | 0 <= j < |rows|
      ensures ExpandedAll(rows, ds)[j].shown && ExpandedAll(rows, ds)[j].child == Some(DetailOf(data[j]).value)
    {
      assert !Blocks(rows, ds, j);
      assert Consistent(rows[j], data[j]);
    }
  }

  /**
   * Clicking the control cell of each hidden row from `from` on, in order,
   * until a click throws (an exception leaves the `each` loop).
   */
  function ClickHidden(rows: seq<Row>, ds: seq<Result<string>>, from: nat): seq<Row>
    requires |rows| == |ds| && from <= |rows|
    decreases |rows| - from
  {
    if from == |rows| then rows
    else if rows[from].shown then ClickHidden(rows, ds, from + 1)
    else if ds[from].TypeError? then rows
    else ClickHidden(rows[from := Toggled(rows[from], ds[from])], ds, from + 1)
  }

  /**
   * Clicking the control cell of each shown row from `from` on, in order; a
   * click on a shown row never builds the detail, so any detail value serves.
   */
  function ClickShown(rows: seq<Row>, from: nat): seq<Row>
    requires from <= |rows|
    decreases |rows| - from
  {
    if from == |rows| then rows
    else if rows[from].shown then ClickShown(rows[from := Toggled(rows[from], Ok(""))], from + 1)
    else ClickShown(rows, from + 1)
  }

  lemma {:induction false} ClickHiddenExpands(rows: seq<Row>, ds: seq<Result<string>>, from: nat)
    requires |rows| == |ds| && from <= |rows|
    ensures ClickHidden(rows, ds, from) ==
              seq(|rows|, j requires 0 <= j < |rows| =>
                if from <= j < StopFrom(rows, ds, from) then Expanded(rows[j], ds[j]) else rows[j])
    decreases |rows| - from
  {
    if from < |rows| && !Blocks(rows, ds, from) {
      if rows[from].shown {
        ClickHiddenExpands(rows, ds, from + 1);
      } else {
        var next := rows[from := Toggled(rows[from], ds[from])];
        ClickHiddenExpands(next, ds, from + 1);
        StopFromAgrees(rows, next, ds, from + 1);
      }
    }
  }

  /**
   * Expand All does what clicking every hidden row's control cell in turn
   * does, stopping at the first click that throws.
   */
  lemma ExpandAllIsClickingHiddenRows(rows: seq<Row>, ds: seq<Result<string>>)
    requires |rows| == |ds|
    ensures ExpandedAll(rows, ds) == ClickHidden(rows, ds, 0)
  {
    ClickHiddenExpands(rows, ds, 0);
  }

  lemma {:induction false} ClickShownCollapses(rows: seq<Row>, from: nat)
    requires from <= |rows|
    ensures ClickShown(rows, from) ==
              seq(|rows|, j requires 0 <= j < |rows| => if from <= j then Collapsed(rows[j]) else rows[j])
    decreases |rows| - from
  {
    if from < |rows| {
      if rows[from].shown {
        ClickShownCollapses(rows[from := Toggled(rows[from], Ok(""))], from + 1);
      } else {
        ClickShownCollapses(rows, from + 1);
      }
    }
  }

  /** Collapse All does what clicking every shown row's control cell in turn does. */
  lemma CollapseAllIsClickingShownRows(rows: seq<Row>)
    ensures CollapsedAll(rows) == ClickShown(rows, 0)
  {
    ClickShownCollapses(rows, 0);
  }

  /** Expand All leaves already-shown rows untouched and never hides a row. */
  lemma ExpandAllKeepsShownRows(rows: seq<Row>, ds: seq<Result<string>>)
    requires |rows| == |ds|
    ensures |ExpandedAll(rows, ds)| == |rows|
    ensures forall j :: 0 <= j < |rows| && rows[j].shown ==> ExpandedAll(rows, ds)[j] == rows[j]
    ensures forall j :: 0 <= j < |rows| && !rows[j].shown && !ExpandedAll(rows, ds)[j].shown ==>
              ExpandedAll(rows, ds)[j] == rows[j]
  {
  }

  /** Expand All and Collapse All keep every row consistent with its record. */
  lemma AllStepsKeepConsistent(rows: seq<Row>, data: seq<Json>)
    requires |rows| == |data| && AllConsistent(rows, data)
    ensures AllConsistent(ExpandedAll(rows, Details(data)), data)
    ensures AllConsistent(CollapsedAll(rows), data)
  {
    var ds := Details(data);
    forall j | 0 <= j < |rows|
      ensures Consistent(ExpandedAll(rows, ds)[j], data[j]) && Consistent(CollapsedAll(rows)[j], data[j])
    {
      StepsKeepConsistent(rows[j], data[j]);
    }
  }

  /** After Collapse All no child is shown, children are kept, and a second one changes nothing. */
  lemma CollapseAllHidesEverything(rows: seq<Row>)
    ensures |CollapsedAll(rows)| == |rows|
    ensures forall j :: 0 <= j < |rows| ==> !CollapsedAll(rows)[j].shown && CollapsedAll(rows)[j].child == rows[j].child
    ensures CollapsedAll(CollapsedAll(rows)) == CollapsedAll(rows)
  {
  }

  /** Collapse All after Expand All shows the rows as a fresh table does. */
  lemma CollapseUndoesExpand(rows: seq<Row>, data: seq<Json>)
    requires |rows| == |data| && AllConsistent(rows, data)
    ensures forall j :: 0 <= j < |rows| ==>
              Visible(CollapsedAll(ExpandedAll(rows, Details(data)))[j]) == Visible(Fresh)
  {
    var ds := Details(data);
    forall j | 0 <= j < |rows|
      ensures Visible(CollapsedAll(ExpandedAll(rows, ds))[j]) == Visible(Fresh)
    {
      assert Consistent(rows[j], data[j]);
    }
  }

  // ---------------------------------------------------------------------
  // The page

  /**
   * The `<tr>` markup renderTable appends, one per record, up to the first
   * record whose row throws; `ok` says none threw.
   */
  method BuildRows(keys: seq<string>, recs: seq<Json>) returns (body: seq<string>, ok: bool)
    ensures ok <==> forall i :: 0 <= i < |recs| ==> RowOf(keys, recs[i]).Ok?
    ensures |body| <= |recs|
    ensures forall i :: 0 <= i < |body| ==> RowOf(keys, recs[i]) == Ok(body[i])
    ensures ok ==> |body| == |recs|
    ensures !ok ==> |body| < |recs| && RowOf(keys, recs[|body|]).TypeError?
  {
    body := [];
    var i := 0;
    while i < |recs|
      invariant 0 <= i <= |recs| && |body| == i
      invariant forall j :: 0 <= j < i ==> RowOf(keys, recs[j]) == Ok(body[j])
    {
      var tr := BuildRow(keys, recs[i]);
      if tr.TypeError? {
        return body, false;
      }
      body := body + [tr.value];
      i := i + 1;
    }
    return body, true;
  }

  /** The rows after the Expand All loop, which stops at the first row whose detail throws. */
  method ExpandRows(rows: seq<Row>, data: seq<Json>) returns (rs: seq<Row>, ok: bool)
    requires |rows| == |data|
    ensures rs == ExpandedAll(rows, Details(data))
    ensures ok <==> StopIndex(rows, Details(data)) == |rows|
  {
    ghost var ds := Details(data);
    rs := rows;
    var i := 0;
    while i < |rs|
      invariant 0 <= i <= |rs| && |rs| == |rows|
      invariant forall j :: 0 <= j < i ==> !Blocks(rows, ds, j)
      invariant forall j :: 0 <= j < i ==> rs[j] == Expanded(rows[j], ds[j])
      invariant forall j :: i <= j < |rs| ==> rs[j] == rows[j]
    {
      if !rs[i].shown {
        var detail := BuildDetail(data[i]);
        if detail.TypeError? {
          StopFromAtFirstBlock(rows, ds, 0, i);
          return rs, false;
        }
        rs := rs[i := Row(true, true, Dash, Some(detail.value))];
      }
      i := i + 1;
    }
    StopFromAtFirstBlock(rows, ds, 0, i);
    return rs, true;
  }

  /** The rows after the Collapse All loop. */
  method CollapseRows(rows: seq<Row>) returns (rs: seq<Row>)
    ensures rs == CollapsedAll(rows)
  {
    rs := rows;
    var i := 0;
    while i < |rs|
      invariant 0 <= i <= |rs| && |rs| == |rows|
      invariant forall j :: 0 <= j < i ==> rs[j] == Collapsed(rows[j])
      invariant forall j :: i <= j < |rs| ==> rs[j] == rows[j]
    {
      if rs[i].shown {
        rs := rs[i := rs[i].(shown := false, marked := false, glyph := Plus)];
      }
      i := i + 1;
    }
  }

  /** `#jsonHeader` after renderTable appends the control column's `<th>` and one per column. */
  method HeaderOf(keys: seq<string>) returns (header: seq<string>)
    ensures header == HeaderCells(keys)
  {
    header := ["<th></th>"];
    var k := 0;
    while k < |keys|
      invariant 0 <= k <= |keys|
      invariant header == HeaderCells(keys[..k])
    {
      assert keys[..k + 1] == keys[..k] + [keys[k]];
      header := header + ["<th>" + keys[k] + "</th>"];
      k := k + 1;
    }
    assert keys[..k] == keys;
  }

  class Beautifier {
    /**
     * The `#inputJson` text area. Only Clear writes it here; what the user
     * types is read by the fetch handler, which is not part of this model.
     */
    var input: string
    /** `table` is set: a DataTables instance is live. */
    var live: bool
    /** The records the live table's handlers read (`data` in renderTable). */
    var data: seq<Json>
    /** The children of `#jsonHeader`. */
    var header: seq<string>
    /** The `<tr>` markup appended to the table body. */
    var body: seq<string>
    /** The live table's rows, one per record. */
    var rows: seq<Row>

    predicate Valid()
      reads this
    {
      |rows| == |data| &&
      (!live ==> data == []) &&
      (live ==> |body| == |data| && header == HeaderCells(Columns(data))) &&
      AllConsistent(rows, data)
    }

    /** The page as loaded: empty input, no table. */
    constructor ()
      ensures Valid()
      ensures input == "" && !live && data == [] && header == [] && body == [] && rows == []
    {
      input := "";
      live := false;
      data := [];
      header := [];
      body := [];
      rows := [];
    }

    /** `row.child.hide()` on every shown row; nothing else about the rows changes. */
    method HideChildren()
      modifies this
      ensures |rows| == |old(rows)|
      ensures forall i :: 0 <= i < |rows| ==> rows[i] == old(rows)[i].(shown := false)
      ensures input == old(input) && live == old(live) && data == old(data)
      ensures header == old(header) && body == old(body)
    {
      var rs := rows;
      var i := 0;
      while i < |rs|
        invariant 0 <= i <= |rs| && |rs| == |rows|
        invariant forall j :: 0 <= j < i ==> rs[j] == rows[j].(shown := false)
        invariant forall j :: i <= j < |rs| ==> rs[j] == rows[j]
      {
        if rs[i].shown {
          rs := rs[i := rs[i].(shown := false)];
        }
        i := i + 1;
      }
      rows := rs;
    }

    /** Closes the open children, destroys the table and empties header and body. */
    method Teardown()
      requires Valid()
      modifies this
      ensures !live && data == [] && rows == [] && header == [] && body == []
      ensures input == old(input)
      ensures Valid()
    {
      if live {
        HideChildren();
        rows := [];
        data := [];
        live := false;
      }
      header := [];
      body := [];
    }

    /**
     * renderTable: tears down the old table, writes the header cells, then
     * appends the rows; a row that throws leaves the rows before it in the
     * body and no table live.
     */
    method RenderTable(d: Json) returns (ok: bool)
      requires Valid()
      modifies this
      ensures Valid()
      ensures input == old(input)
      ensures header == HeaderCells(Columns(Records(d)))
      ensures ok <==> forall i :: 0 <= i < |Records(d)| ==> RowOf(Columns(Records(d)), Records(d)[i]).Ok?
      ensures |body| <= |Records(d)|
      ensures forall i :: 0 <= i < |body| ==> RowOf(Columns(Records(d)), Records(d)[i]) == Ok(body[i])
      ensures ok ==> |body| == |Records(d)| && live && data == Records(d) && rows == seq(|data|, _ => Fresh)
      ensures !ok ==> |body| < |Records(d)| && RowOf(Columns(Records(d)), Records(d)[|body|]).TypeError?
      ensures !ok ==> !live && data == [] && rows == []
    {
      Teardown();
      var recs := Records(d);
      var keys := Columns(recs);
      header := HeaderOf(keys);
      body, ok := BuildRows(keys, recs);
      if ok {
        live := true;
        data := recs;
        rows := seq(|recs|, _ => Fresh);
      }
    }

    /** A click on row `i`'s control cell. */
    method Toggle(i: nat)
      requires Valid() && i < |rows|
      modifies this
      ensures Valid()
      ensures input == old(input) && live == old(live) && data == old(data)
      ensures header == old(header) && body == old(body)
      ensures rows == old(rows)[i := Toggled(old(rows)[i], DetailOf(data[i]))]
    {
      StepsKeepConsistent(rows[i], data[i]);
      if rows[i].shown {
        rows := rows[i := rows[i].(shown := false, marked := false, glyph := Plus)];
      } else {
        var detail := BuildDetail(data[i]);
        if detail.TypeError? {
          return;
        }
        rows := rows[i := Row(true, true, Dash, Some(detail.value))];
      }
    }

    /** Expand All: shows each hidden row's detail, stopping at the first that throws. */
    method ExpandAll() returns (ok: bool)
      requires Valid()
      modifies this
      ensures Valid()
      ensures input == old(input) && live == old(live) && data == old(data)
      ensures header == old(header) && body == old(body)
      ensures rows == ExpandedAll(old(rows), Details(data))
      ensures ok <==> StopIndex(old(rows), Details(data)) == |rows|
    {
      AllStepsKeepConsistent(rows, data);
      rows, ok := ExpandRows(rows, data);
    }

    /** Collapse All: hides every shown row's detail. */
    method CollapseAll()
      requires Valid()
      modifies this
      ensures Valid()
      ensures input == old(input) && live == old(live) && data == old(data)
      ensures header == old(header) && body == old(body)
      ensures rows == CollapsedAll(old(rows))
    {
      AllStepsKeepConsistent(rows, data);
      rows := CollapseRows(rows);
    }

    /** The Clear button: empties the input and tears the table down. */
    method Clear()
      requires Valid()
      modifies this
      ensures Valid()
      ensures input == "" && !live && data == [] && rows == [] && header == [] && body == []
    {
      input := "";
      Teardown();
    }
  }
}
