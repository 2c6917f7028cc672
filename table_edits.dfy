/** What the user can do to the rows while the table is drawn: tick a row's
    turn checkbox, press one of its compass buttons, press its delete button;
    and the "Add" row that appends a new aircraft from four staging texts. */
module TableEdits {
  import opened Options
  import opened Rows

  /** The widgets of one drawn row that fired this frame. */
  datatype RowInput = RowInput(toggleLeft: bool, north: bool, east: bool, south: bool,
                               west: bool, delete: bool)

  /** The checkbox flips `turnsLeft`; the compass buttons set the heading, the
      last of them drawn (north, east, south, west) winning. */
  function Edited(r: Row, e: RowInput): (r': Row)
    ensures r'.(heading := r.heading, turnsLeft := r.turnsLeft) == r
    ensures r'.turnsLeft == (r.turnsLeft != e.toggleLeft)
    ensures !(e.north || e.east || e.south || e.west) ==> r'.heading == r.heading
    ensures r'.heading in {r.heading, 0.0, 90.0, 180.0, 270.0}
    ensures e.west ==> r'.heading == 270.0
    ensures !e.west && e.south ==> r'.heading == 180.0
    ensures !e.west && !e.south && e.east ==> r'.heading == 90.0
    ensures !e.west && !e.south && !e.east && e.north ==> r'.heading == 0.0
  {
    var h := if e.west then 270.0 else if e.south then 180.0
             else if e.east then 90.0 else if e.north then 0.0 else r.heading;
    r.(turnsLeft := r.turnsLeft != e.toggleLeft, heading := h)
  }

  /** Only shown rows are drawn, so only their widgets can fire. */
  function EditedRows(rows: seq<Row>, inputs: seq<RowInput>): (r: seq<Row>)
    requires |inputs| == |rows|
    ensures |r| == |rows|
    ensures forall i :: 0 <= i < |rows| && !rows[i].filtered ==> r[i] == rows[i]
    ensures forall i :: 0 <= i < |rows| ==>
              r[i].(heading := rows[i].heading, turnsLeft := rows[i].turnsLeft) == rows[i]
    ensures forall i :: 0 <= i < |rows| && rows[i].filtered ==>
              r[i].turnsLeft == (rows[i].turnsLeft != inputs[i].toggleLeft)
    ensures forall i :: 0 <= i < |rows| && rows[i].filtered ==> r[i] == Edited(rows[i], inputs[i])
  {
    seq(|rows|, i requires 0 <= i < |rows| =>
      if rows[i].filtered then Edited(rows[i], inputs[i]) else rows[i])
  }

  predicate DeletePressed(rows: seq<Row>, inputs: seq<RowInput>, k: int)
    requires |inputs| == |rows|
  {
    0 <= k < |rows| && rows[k].filtered && inputs[k].delete
  }

  /** The row `delIter` points at after the first `n` rows were drawn:
      each shown row whose delete button fired overwrites the mark. */
  function MarkedRow(rows: seq<Row>, inputs: seq<RowInput>, n: nat): (m: Option<nat>)
    requires |inputs| == |rows| && n <= |rows|
    ensures m.Some? ==> m.value < n && DeletePressed(rows, inputs, m.value)
    ensures m.Some? ==> forall k :: m.value < k < n ==> !DeletePressed(rows, inputs, k)
    ensures m.None? ==> forall k :: 0 <= k < n ==> !DeletePressed(rows, inputs, k)
  {
    if n == 0 then None
    else if DeletePressed(rows, inputs, n - 1) then Some(n - 1)
    else MarkedRow(rows, inputs, n - 1)
  }

  /** `tableList.erase(it)` for the row at `k`. */
  function RemoveAt<T>(s: seq<T>, k: nat): (r: seq<T>)
    requires k < |s|
    ensures |r| == |s| - 1
    ensures forall i :: 0 <= i < k ==> r[i] == s[i]
    ensures forall i :: k <= i < |r| ==> r[i] == s[i + 1]
    ensures multiset(r) + multiset{s[k]} == multiset(s)
  {
    assert s == s[..k] + [s[k]] + s[k + 1..];
    s[..k] + s[k + 1..]
  }

  /** The deferred delete after the loop: nothing when no row was marked. */
  function Erased<T>(s: seq<T>, mark: Option<nat>): (r: seq<T>)
    requires mark.Some? ==> mark.value < |s|
    ensures mark.None? ==> r == s
    ensures mark.Some? ==> |r| == |s| - 1 && multiset(r) + multiset{s[mark.value]} == multiset(s)
    ensures mark.Some? ==> forall i :: 0 <= i < mark.value ==> r[i] == s[i]
    ensures mark.Some? ==> forall i :: mark.value <= i < |r| ==> r[i] == s[i + 1]
  {
    match mark
    case None => s
    case Some(k) => RemoveAt(s, k)
  }

  /** The row pass as a whole: the table loses exactly one row when a delete
      button of a shown row fired, namely the last such row, and otherwise
      keeps its length; every other row keeps its place relative to the rest. */
  lemma RowPassRemovesAtMostOne(rows: seq<Row>, inputs: seq<RowInput>)
    requires |inputs| == |rows|
    ensures var mark := MarkedRow(rows, inputs, |rows|);
            var after := Erased(EditedRows(rows, inputs), mark);
            && (mark.None? <==> forall k :: 0 <= k < |rows| ==> !DeletePressed(rows, inputs, k))
            && (mark.None? ==> after == EditedRows(rows, inputs))
            && (mark.Some? ==>
                  && rows[mark.value].filtered
                  && |after| == |rows| - 1
                  && (forall i :: 0 <= i < mark.value ==> after[i] == EditedRows(rows, inputs)[i])
                  && (forall i :: mark.value <= i < |after| ==> after[i] == EditedRows(rows, inputs)[i + 1]))
  {
  }

  // ---------------------------------------------------------------------------
  // The "Add" row

  /** The "Add" button is offered only when all four texts were entered. */
  predicate CanAdd(tail: string, typ: string, model: string, owner: string) {
    tail != [] && typ != [] && model != [] && owner != []
  }

  /** The new row: the integer heading taken as a float, shown by default. */
  function NewRow(tail: string, typ: string, model: string, owner: string,
                  head: int, left: bool): (r: Row)
    ensures r.reg == tail && r.typecode == typ && r.model == model && r.owner == owner
    ensures r.heading == head as real && r.turnsLeft == left && r.filtered
  {
    Row(tail, model, typ, owner, head as real, left, true)
  }

  /** The "Add" row at the end of the table: with all four texts entered and
      the button pressed, the new row goes to the end; otherwise nothing. */
  function Appended(rows: seq<Row>, tail: string, typ: string, model: string, owner: string,
                    head: int, left: bool, clicked: bool): (r: seq<Row>)
    ensures clicked && CanAdd(tail, typ, model, owner) ==>
              |r| == |rows| + 1 && r[..|rows|] == rows && r[|rows|] == NewRow(tail, typ, model, owner, head, left)
    ensures !(clicked && CanAdd(tail, typ, model, owner)) ==> r == rows
  {
    if clicked && CanAdd(tail, typ, model, owner) then rows + [NewRow(tail, typ, model, owner, head, left)]
    else rows
  }
}
