/**
 * `typeBadge` and `buildNestedTable` of the page script, and the cell rule
 * `typeof v === 'object' ? typeBadge(v) : v` that every table cell goes
 * through. Nothing is escaped: keys and string values enter the markup as
 * they are.
 */
module NestedTable {
  import opened Wrappers
  import opened JsValues
  import opened Markup

  // ---------------------------------------------------------------------
  // typeBadge

  const ArrayBadgeOpen := "<span class=\"badge array\">Array("
  const ArrayBadgeClose := ")</span>"
  const ObjectBadge := "<span class=\"badge object\">Object</span>"
  const StringBadge := "<span class=\"badge string\">String</span>"
  const NumberBadge := "<span class=\"badge number\">Number</span>"

  /** `typeBadge(val)`: a badge for arrays, objects, strings and numbers; anything else as it is. */
  function TypeBadge(v: Json): Json {
    if v.Arr? then Str(ArrayBadgeOpen + NatToString(|v.items|) + ArrayBadgeClose)
    else if IsObjectType(v) && !v.Null? then Str(ObjectBadge)
    else if v.Str? then Str(StringBadge)
    else if v.Num? then Str(NumberBadge)
    else v
  }

  /** Values `TypeBadge` cannot tell apart: same kind, and for arrays the same length. */
  predicate SameBadgeKind(v: Json, w: Json) {
    match v
    case Arr(xs) => w.Arr? && |w.items| == |xs|
    case Obj(_) => w.Obj?
    case Str(_) => w.Str?
    case Num(_) => w.Num?
    case _ => false
  }

  /**
   * What `typeBadge` returns, case by case, and that for values it badges
   * the badge identifies the kind (and an array's length) and nothing more.
   */
  lemma BadgeClassifies(v: Json, w: Json)
    ensures v.Arr? ==> TypeBadge(v) == Str(ArrayBadgeOpen + NatToString(|v.items|) + ArrayBadgeClose)
    ensures v.Obj? ==> TypeBadge(v) == Str(ObjectBadge)
    ensures v.Str? ==> TypeBadge(v) == Str(StringBadge)
    ensures v.Num? ==> TypeBadge(v) == Str(NumberBadge)
    ensures v.Null? || v.Bool? ==> TypeBadge(v) == v
    ensures !v.Null? && !v.Bool? && !w.Null? && !w.Bool? ==>
              (TypeBadge(v) == TypeBadge(w) <==> SameBadgeKind(v, w))
  {
    if v.Arr? && w.Arr? && TypeBadge(v) == TypeBadge(w) {
      var a, b := NatToString(|v.items|), NatToString(|w.items|);
      assert ArrayBadgeOpen + a + ArrayBadgeClose == ArrayBadgeOpen + b + ArrayBadgeClose;
      assert |a| == |b|;
      assert a == (ArrayBadgeOpen + a + ArrayBadgeClose)[|ArrayBadgeOpen|..|ArrayBadgeOpen| + |a|];
      assert b == (ArrayBadgeOpen + b + ArrayBadgeClose)[|ArrayBadgeOpen|..|ArrayBadgeOpen| + |b|];
      NatToStringInjective(|v.items|, |w.items|);
    }
    if TypeBadge(v).Str? && TypeBadge(w).Str? {
      var s, t := TypeBadge(v).s, TypeBadge(w).s;
      // the badges differ at index 19 ("a", "o", "s" or "n") unless they have the same class
      assert v.Arr? ==> s[19] == 'a';
      assert w.Arr? ==> t[19] == 'a';
      assert v.Obj? ==> s[19] == 'o';
      assert w.Obj? ==> t[19] == 'o';
      assert v.Str? ==> s[19] == 's';
      assert w.Str? ==> t[19] == 's';
      assert v.Num? ==> s[19] == 'n';
      assert w.Num? ==> t[19] == 'n';
    }
  }

  // ---------------------------------------------------------------------
  // Cells

  /** What a table cell shows for a value: `typeof v === 'object' ? typeBadge(v) : v`. */
  function CellText(v: Json): (r: string)
    ensures v.Null? ==> r == "null"
    ensures v.Bool? ==> r == (if v.b then "true" else "false")
    ensures v.Num? ==> r == IntToString(v.n)
    ensures v.Str? ==> r == v.s
    ensures IsContainer(v) ==> r == TypeBadge(v).s
  {
    if IsObjectType(v) then ToStr(TypeBadge(v)) else ToStr(v)
  }

  /** The cell for a property read: an absent property prints "undefined". */
  function CellFor(s: Slot): string {
    match s
    case Undefined => "undefined"
    case Val(v) => CellText(v)
  }

  // ---------------------------------------------------------------------
  // The table buildNestedTable builds, and its markup

  /** A table: its header texts and, per body row, its cell texts. */
  datatype Grid = Grid(head: seq<string>, rows: seq<seq<string>>)

  const TableOpen := "<table class=\"display compact\" style=\"margin-left:20px\">"
  const HeadOpen := TableOpen + "<thead><tr>"
  const HeadClose := "</tr></thead><tbody>"
  const TableClose := "</tbody></table>"

  function RowsMarkup(rows: seq<seq<string>>): seq<string> {
    seq(|rows|, i requires 0 <= i < |rows| => Elements("<td>", "</td>", rows[i]))
  }

  /**
   * A table's markup between a given opening (up to the header cells), a
   * given text between header and body, and a given closing.
   */
  function FramedGrid(g: Grid, headOpen: string, headClose: string, tableClose: string): string {
    headOpen + (Elements("<th>", "</th>", g.head) + (headClose
    + (Elements("<tr>", "</tr>", RowsMarkup(g.rows)) + tableClose)))
  }

  /** The markup buildNestedTable accumulates for a table. */
  function GridHtml(g: Grid): string {
    FramedGrid(g, HeadOpen, HeadClose, TableClose)
  }

  function ParseCells(bodies: seq<string>): Option<seq<seq<string>>> {
    if |bodies| == 0 then Some([])
    else
      var (cells, rest) := ParseItems("<td>", "</td>", bodies[0]);
      if rest != "" then None
      else match ParseCells(bodies[1..])
        case None => None
        case Some(more) => Some([cells] + more)
  }

  /** Reads the body rows that follow the header cells. */
  function ParseBody(r: string, headClose: string, tableClose: string): Option<seq<seq<string>>> {
    if !StartsWith(r, headClose) then None
    else
      var (bodies, rest) := ParseItems("<tr>", "</tr>", r[|headClose|..]);
      if rest != tableClose then None else ParseCells(bodies)
  }

  function ParseFramedGrid(s: string, headOpen: string, headClose: string, tableClose: string): Option<Grid> {
    if !StartsWith(s, headOpen) then None
    else
      var (head, rest) := ParseItems("<th>", "</th>", s[|headOpen|..]);
      match ParseBody(rest, headClose, tableClose)
      case None => None
      case Some(rows) => Some(Grid(head, rows))
  }

  /** Reads a table's header and cells back out of its markup. */
  function ParseGrid(s: string): Option<Grid> {
    ParseFramedGrid(s, HeadOpen, HeadClose, TableClose)
  }

  /** No header text holds `</th>` and no cell text `</td>` or `</tr>`. */
  predicate PlainGrid(g: Grid) {
    (forall i :: 0 <= i < |g.head| ==> !Infix("</th>", g.head[i])) &&
    (forall i, j :: 0 <= i < |g.rows| && 0 <= j < |g.rows[i]| ==>
       !Infix("</td>", g.rows[i][j]) && !Infix("</tr>", g.rows[i][j]))
  }

  lemma CellCloseShaped()
    ensures TagShaped("</td>")
  {
    var p := "</td>";
    assert p[0] == '<' && p[1] == '/' && p[2] == 't' && p[3] == 'd' && p[4] == '>';
  }

  lemma {:induction false} ParseCellsOfRows(rows: seq<seq<string>>)
    requires forall i, j :: 0 <= i < |rows| && 0 <= j < |rows[i]| ==> !Infix("</td>", rows[i][j])
    ensures ParseCells(RowsMarkup(rows)) == Some(rows)
  {
    if |rows| > 0 {
      var bodies := RowsMarkup(rows);
      CellCloseShaped();
      ParseElements("<td>", "</td>", rows[0], "");
      assert Elements("<td>", "</td>", rows[0]) + "" == bodies[0];
      assert bodies[1..] == RowsMarkup(rows[1..]);
      ParseCellsOfRows(rows[1..]);
      assert [rows[0]] + rows[1..] == rows;
    }
  }

  lemma RowsHoldNoRowClose(rows: seq<seq<string>>)
    requires forall i, j :: 0 <= i < |rows| && 0 <= j < |rows[i]| ==> !Infix("</tr>", rows[i][j])
    ensures forall i :: 0 <= i < |rows| ==> !Infix("</tr>", RowsMarkup(rows)[i])
  {
    assert !Infix("</tr>", "<td>");
    assert !Infix("</tr>", "</td>") by {
      assert "</td>"[3] != "</tr>"[3];
    }
    forall i | 0 <= i < |rows|
      ensures !Infix("</tr>", RowsMarkup(rows)[i])
    {
      NoInfixInElements("</tr>", "<td>", "</td>", rows[i]);
    }
  }

  lemma BodyRoundTrip(rows: seq<seq<string>>, headClose: string, tableClose: string)
    requires forall i, j :: 0 <= i < |rows| && 0 <= j < |rows[i]| ==>
               !Infix("</td>", rows[i][j]) && !Infix("</tr>", rows[i][j])
    requires |tableClose| > 1 && tableClose[1] == '/'
    ensures ParseBody(headClose + (Elements("<tr>", "</tr>", RowsMarkup(rows)) + tableClose), headClose, tableClose) == Some(rows)
  {
    var bodies := RowsMarkup(rows);
    var tr := Elements("<tr>", "</tr>", bodies);
    SplitConcat(headClose, tr + tableClose);
    RowsHoldNoRowClose(rows);
    assert !StartsWith(tableClose, "<tr>") by {
      assert tableClose[1] == '/';
    }
    ParseElements("<tr>", "</tr>", bodies, tableClose);
    ParseCellsOfRows(rows);
  }

  lemma FramedGridRoundTrip(g: Grid, headOpen: string, headClose: string, tableClose: string)
    requires PlainGrid(g)
    requires |headClose| > 1 && headClose[1] == '/' && |tableClose| > 1 && tableClose[1] == '/'
    ensures ParseFramedGrid(FramedGrid(g, headOpen, headClose, tableClose), headOpen, headClose, tableClose) == Some(g)
  {
    var th := Elements("<th>", "</th>", g.head);
    var after := headClose + (Elements("<tr>", "</tr>", RowsMarkup(g.rows)) + tableClose);
    SplitConcat(headOpen, th + after);
    assert !StartsWith(after, "<th>") by {
      assert after[1] == '/';
    }
    ParseElements("<th>", "</th>", g.head, after);
    BodyRoundTrip(g.rows, headClose, tableClose);
  }

  /**
   * The markup of a table whose texts hold no closing tag reads back as that
   * very table: its header cells, and per row exactly its cells, in order.
   */
  lemma GridRoundTrip(g: Grid)
    requires PlainGrid(g)
    ensures ParseGrid(GridHtml(g)) == Some(g)
  {
    assert HeadClose[1] == '/' && TableClose[1] == '/';
    FramedGridRoundTrip(g, HeadOpen, HeadClose, TableClose);
  }

  /**
   * With nothing escaped, a header text holding `</th><th>` is markup for two
   * header cells: two different tables give the same markup.
   */
  lemma UnescapedHeaderCollides()
    ensures Grid(["a</th><th>b"], []) != Grid(["a", "b"], [])
    ensures GridHtml(Grid(["a</th><th>b"], [])) == GridHtml(Grid(["a", "b"], []))
  {
    var x := "a</th><th>b";
    ElementsSnoc("<th>", "</th>", [], x);
    assert [] + [x] == [x];
    var e1 := Elements("<th>", "</th>", [x]);
    assert e1 == "<th>" + x + "</th>";
    ElementsSnoc("<th>", "</th>", [], "a");
    assert [] + ["a"] == ["a"];
    ElementsSnoc("<th>", "</th>", ["a"], "b");
    assert ["a"] + ["b"] == ["a", "b"];
    var e2 := Elements("<th>", "</th>", ["a", "b"]);
    assert e2 == "<th>" + "a" + "</th>" + "<th>" + "b" + "</th>";
    assert e1 == e2;
  }

  // ---------------------------------------------------------------------
  // buildNestedTable

  /** `obj[0] || obj` of the header line: the record whose keys head the table. */
  function HeaderRecord(obj: Json): (r: Json)
    requires IsContainer(obj)
    ensures !r.Null?
  {
    var first := Get(obj, "0");
    if first.Val? && Truthy(first.v) then first.v else obj
  }

  /** `Array.isArray(obj) ? obj : [obj]`: the records that become body rows. */
  function BodyRecords(obj: Json): seq<Json>
    requires IsContainer(obj)
  {
    if obj.Arr? then obj.items else [obj]
  }

  /** One cell per own key of `row`, in key order, whatever the header says. */
  function RowCells(row: Json): seq<string>
    requires !row.Null?
  {
    var ks := Keys(row);
    seq(|ks|, j requires 0 <= j < |ks| => CellFor(Get(row, ks[j])))
  }

  function GridRows(recs: seq<Json>): seq<seq<string>>
    requires Null !in recs
  {
    seq(|recs|, i requires 0 <= i < |recs| => RowCells(recs[i]))
  }

  lemma GridRowsSnoc(recs: seq<Json>, row: Json)
    requires Null !in recs && !row.Null?
    ensures Null !in recs + [row]
    ensures RowsMarkup(GridRows(recs + [row])) == RowsMarkup(GridRows(recs)) + [Elements("<td>", "</td>", RowCells(row))]
  {
    assert GridRows(recs + [row]) == GridRows(recs) + [RowCells(row)];
  }

  /** The table buildNestedTable lays out for a container none of whose records is null. */
  function NestedGrid(obj: Json): Grid
    requires IsContainer(obj) && Null !in BodyRecords(obj)
  {
    Grid(Keys(HeaderRecord(obj)), GridRows(BodyRecords(obj)))
  }

  /**
   * What `buildNestedTable(obj)` returns: `obj` itself unless it is a
   * non-null object or array; a `TypeError` when a body record is null
   * (`Object.keys(null)` throws); otherwise the markup of `NestedGrid(obj)`.
   */
  function NestedTableOf(obj: Json): (r: Result<Json>)
    ensures r.Ok? ==> !IsContainer(r.value)
  {
    if !IsContainer(obj) then Ok(obj)
    else if Null in BodyRecords(obj) then TypeError
    else Ok(Str(GridHtml(NestedGrid(obj))))
  }

  /** The `<td>` cells buildNestedTable appends for one row, one per own key. */
  method CellsMarkup(row: Json) returns (html: string)
    requires !row.Null?
    ensures html == Elements("<td>", "</td>", RowCells(row))
  {
    html := "";
    var ks := Keys(row);
    var j := 0;
    while j < |ks|
      invariant 0 <= j <= |ks|
      invariant html == Elements("<td>", "</td>", RowCells(row)[..j])
    {
      var text := CellFor(Get(row, ks[j]));
      ElementsPrefixStep("<td>", "</td>", RowCells(row), j);
      html := html + "<td>" + text + "</td>";
      j := j + 1;
    }
    assert RowCells(row)[..j] == RowCells(row);
  }

  /** The `<th>` cells buildNestedTable appends for the header keys. */
  method HeaderMarkup(keys: seq<string>) returns (th: string)
    ensures th == Elements("<th>", "</th>", keys)
  {
    th := "";
    var i := 0;
    while i < |keys|
      invariant 0 <= i <= |keys|
      invariant th == Elements("<th>", "</th>", keys[..i])
    {
      ElementsSnoc("<th>", "</th>", keys[..i], keys[i]);
      assert keys[..i + 1] == keys[..i] + [keys[i]];
      th := th + "<th>" + keys[i] + "</th>";
      i := i + 1;
    }
    assert keys[..i] == keys;
  }

  lemma BodyStep(rows: seq<Json>, n: nat, cells: string)
    requires n < |rows| && Null !in rows[..n] && !rows[n].Null?
    requires cells == Elements("<td>", "</td>", RowCells(rows[n]))
    ensures Null !in rows[..n + 1]
    ensures Elements("<tr>", "</tr>", RowsMarkup(GridRows(rows[..n + 1]))) ==
              Elements("<tr>", "</tr>", RowsMarkup(GridRows(rows[..n]))) + "<tr>" + cells + "</tr>"
  {
    assert rows[..n + 1] == rows[..n] + [rows[n]];
    GridRowsSnoc(rows[..n], rows[n]);
    ElementsSnoc("<tr>", "</tr>", RowsMarkup(GridRows(rows[..n])), cells);
  }

  /** The `<tr>` rows buildNestedTable appends, one per record; a null record throws. */
  method BodyMarkup(rows: seq<Json>) returns (r: Result<string>)
    ensures r.TypeError? <==> Null in rows
    ensures r.Ok? ==> Null !in rows && r.value == Elements("<tr>", "</tr>", RowsMarkup(GridRows(rows)))
  {
    var tr := "";
    var n := 0;
    while n < |rows|
      invariant 0 <= n <= |rows|
      invariant Null !in rows[..n]
      invariant tr == Elements("<tr>", "</tr>", RowsMarkup(GridRows(rows[..n])))
    {
      var row := rows[n];
      if row.Null? {
        return TypeError;
      }
      var cells := CellsMarkup(row);
      BodyStep(rows, n, cells);
      tr := tr + "<tr>" + cells + "</tr>";
      n := n + 1;
    }
    assert rows[..n] == rows;
    return Ok(tr);
  }

  method BuildNestedTable(obj: Json) returns (r: Result<Json>)
    ensures r == NestedTableOf(obj)
  {
    if !IsContainer(obj) {
      return Ok(obj);
    }
    var th := HeaderMarkup(Keys(HeaderRecord(obj)));
    var body := BodyMarkup(BodyRecords(obj));
    if body.TypeError? {
      return TypeError;
    }
    var html := HeadOpen + (th + (HeadClose + (body.value + TableClose)));
    return Ok(Str(html));
  }

  // ---------------------------------------------------------------------
  // Properties of the nested table

  /** buildNestedTable throws exactly when it is given an array holding a null. */
  lemma NestedTableThrowsIff(obj: Json)
    ensures NestedTableOf(obj) == TypeError <==> obj.Arr? && Null in obj.items
    ensures !IsContainer(obj) ==> NestedTableOf(obj) == Ok(obj)
  {
  }

  /**
   * Which record heads a nested table: an array's first element when it is
   * truthy, else the array's own index keys; an object's property "0" when it
   * is truthy, else the object's own keys.
   */
  lemma NestedHeader(obj: Json)
    requires IsContainer(obj) && Null !in BodyRecords(obj)
    ensures obj.Arr? && |obj.items| > 0 && Truthy(obj.items[0]) ==>
              NestedGrid(obj).head == Keys(obj.items[0])
    ensures obj.Arr? && (|obj.items| == 0 || !Truthy(obj.items[0])) ==>
              NestedGrid(obj).head == seq(|obj.items|, i requires 0 <= i < |obj.items| => NatToString(i))
    ensures obj.Obj? && "0" !in Keys(obj) ==> NestedGrid(obj).head == Keys(obj)
    ensures obj.Obj? && UniqueKeys(obj) ==>
              forall p :: 0 <= p < |obj.fields| && obj.fields[p].0 == "0" ==>
                NestedGrid(obj).head == (if Truthy(obj.fields[p].1) then Keys(obj.fields[p].1) else Keys(obj))
  {
    assert NatToString(0) == "0";
    ParseIndexIff("0", 0);
    if obj.Obj? && "0" !in Keys(obj) {
      GetMissingKey(obj, "0");
    }
    if obj.Obj? && UniqueKeys(obj) {
      forall p | 0 <= p < |obj.fields| && obj.fields[p].0 == "0"
        ensures NestedGrid(obj).head == (if Truthy(obj.fields[p].1) then Keys(obj.fields[p].1) else Keys(obj))
      {
        GetOwnKey(obj, p);
      }
    }
  }

  /**
   * The body of a nested table holds one row per record (the array's
   * elements, or the object itself) and, in each, exactly one cell per own key
   * of that record, showing that key's value; the header plays no part.
   */
  lemma NestedRowsFollowEntries(obj: Json)
    requires IsContainer(obj) && Null !in BodyRecords(obj)
    requires forall i :: 0 <= i < |BodyRecords(obj)| ==> UniqueKeys(BodyRecords(obj)[i])
    ensures |NestedGrid(obj).rows| == |BodyRecords(obj)|
    ensures forall i :: 0 <= i < |BodyRecords(obj)| ==>
              |NestedGrid(obj).rows[i]| == |Entries(BodyRecords(obj)[i])|
    ensures forall i, j :: 0 <= i < |BodyRecords(obj)| && 0 <= j < |Entries(BodyRecords(obj)[i])| ==>
              NestedGrid(obj).rows[i][j] == CellText(Entries(BodyRecords(obj)[i])[j].1)
  {
    var recs := BodyRecords(obj);
    forall i, j | 0 <= i < |recs| && 0 <= j < |Entries(recs[i])|
      ensures NestedGrid(obj).rows[i][j] == CellText(Entries(recs[i])[j].1)
    {
      assert recs[i] in recs;
      GetOwnKey(recs[i], j);
    }
  }

  /**
   * Rows follow their own keys, not the header: in `[{"a": 1}, {"b": 2, "c": 3}]`
   * the header has one cell and the second row two.
   */
  lemma RowsIgnoreHeader()
    ensures var obj := Arr([Obj([("a", Num(1))]), Obj([("b", Num(2)), ("c", Num(3))])]);
            NestedGrid(obj) == Grid(["a"], [["1"], ["2", "3"]])
  {
    var r0, r1 := Obj([("a", Num(1))]), Obj([("b", Num(2)), ("c", Num(3))]);
    var obj := Arr([r0, r1]);
    assert NatToString(0) == "0";
    ParseIndexIff("0", 0);
    assert Get(obj, "0") == Val(r0);
    assert Keys(HeaderRecord(obj)) == ["a"];
    assert NatToString(1) == "1" && NatToString(2) == "2" && NatToString(3) == "3";
    assert Keys(r0) == ["a"] && Keys(r1) == ["b", "c"];
    assert RowCells(r0) == ["1"];
    assert Get(r1, "c") == Val(Num(3));
    assert RowCells(r1) == ["2", "3"];
    assert GridRows([r0, r1]) == [["1"], ["2", "3"]];
  }
}
