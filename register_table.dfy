/** The register table of the register view: an ordered list of register rows
    that the operator reorders by dragging, edits field by field, selects,
    deletes, extends, and replaces wholesale from an imported JSON file. The
    list is `registerRows`, the state of the `RegisterRW` component; here it is
    the field `rows` of a `RegisterTable` object, and each handler is a method
    that reassigns it. What each handler computes is a function of the old list;
    the lemmas state what those functions promise. */
module RegisterTable {
  import opened Wrappers
  import RegisterBits

  /** One line of the table (`RegisterRow`). */
  datatype Row = Row(
    id: string,
    address: string,
    data: string,
    value32bit: string,
    description: string,
    isSelected: bool)

  /** `Partial<RegisterRow>`: the fields an update names, with their new values. */
  datatype RowUpdate = RowUpdate(
    id: Option<string>,
    address: Option<string>,
    data: Option<string>,
    value32bit: Option<string>,
    description: Option<string>,
    isSelected: Option<bool>)

  /** `{ ...row, ...updates }`: the fields the update names take its values, the
      others keep the row's. */
  function Merge(row: Row, u: RowUpdate): (r: Row)
    ensures r.id == (if u.id.Some? then u.id.value else row.id)
    ensures r.address == (if u.address.Some? then u.address.value else row.address)
    ensures r.data == (if u.data.Some? then u.data.value else row.data)
    ensures r.value32bit == (if u.value32bit.Some? then u.value32bit.value else row.value32bit)
    ensures r.description == (if u.description.Some? then u.description.value else row.description)
    ensures r.isSelected == (if u.isSelected.Some? then u.isSelected.value else row.isSelected)
  {
    Row(u.id.GetOr(row.id), u.address.GetOr(row.address), u.data.GetOr(row.data),
        u.value32bit.GetOr(row.value32bit), u.description.GetOr(row.description),
        u.isSelected.GetOr(row.isSelected))
  }

  // ---------------------------------------------------------------------------
  // Reordering: `moveRow(dragIndex, hoverIndex)`

  /** The list without the element at index i. */
  function RemoveAt(s: seq<Row>, i: nat): (r: seq<Row>)
    requires i < |s|
    ensures |r| == |s| - 1
    ensures forall k :: 0 <= k < i ==> r[k] == s[k]
    ensures forall k :: i <= k < |r| ==> r[k] == s[k + 1]
  {
    s[..i] + s[i + 1..]
  }

  /** The list after the row at `dragIndex` is spliced out and spliced back in at
      `hoverIndex`: a permutation that puts the dragged row at `hoverIndex` and
      leaves the other rows in their relative order. */
  function Moved(rows: seq<Row>, dragIndex: nat, hoverIndex: nat): (r: seq<Row>)
    requires dragIndex < |rows| && hoverIndex < |rows|
    ensures |r| == |rows| && multiset(r) == multiset(rows)
    ensures r[hoverIndex] == rows[dragIndex]
    ensures RemoveAt(r, hoverIndex) == RemoveAt(rows, dragIndex)
  {
    var rest := RemoveAt(rows, dragIndex);
    var r := rest[..hoverIndex] + [rows[dragIndex]] + rest[hoverIndex..];
    assert rows == rows[..dragIndex] + [rows[dragIndex]] + rows[dragIndex + 1..];
    assert multiset(rows) == multiset(rest) + multiset{rows[dragIndex]};
    assert rest == rest[..hoverIndex] + rest[hoverIndex..];
    assert multiset(r) == multiset(rest) + multiset{rows[dragIndex]};
    assert r[..hoverIndex] == rest[..hoverIndex] && r[hoverIndex + 1..] == rest[hoverIndex..];
    r
  }

  /** Dragging the row back to where it came from restores the list. */
  lemma MoveRowUndo(rows: seq<Row>, dragIndex: nat, hoverIndex: nat)
    requires dragIndex < |rows| && hoverIndex < |rows|
    ensures Moved(Moved(rows, dragIndex, hoverIndex), hoverIndex, dragIndex) == rows
  {
    var m := Moved(rows, dragIndex, hoverIndex);
    var rest := RemoveAt(rows, dragIndex);
    assert RemoveAt(m, hoverIndex) == rest;
    assert rows == rest[..dragIndex] + [rows[dragIndex]] + rest[dragIndex..];
  }

  // ---------------------------------------------------------------------------
  // Editing: `updateRow(id, updates)` and `syncData(id, value, is32bit)`

  /** `rows.map(row => row.id === id ? { ...row, ...updates } : row)`. */
  function Updated(rows: seq<Row>, id: string, u: RowUpdate): (r: seq<Row>)
    ensures |r| == |rows|
    ensures forall k :: 0 <= k < |rows| && rows[k].id != id ==> r[k] == rows[k]
    ensures forall k :: 0 <= k < |rows| && rows[k].id == id ==> r[k] == Merge(rows[k], u)
  {
    seq(|rows|, k requires 0 <= k < |rows| => if rows[k].id == id then Merge(rows[k], u) else rows[k])
  }

  /** An update that keeps the row's id applied a second time changes nothing. */
  lemma UpdateRowIdempotent(rows: seq<Row>, id: string, u: RowUpdate)
    requires u.id.None? || u.id == Some(id)
    ensures Updated(Updated(rows, id, u), id, u) == Updated(rows, id, u)
  {
  }

  /** The update `syncData` passes on: both value fields set to the upper-cased
      text, whichever of the two inputs it came from. */
  function SyncUpdate(value: string): (u: RowUpdate)
    ensures u.data == u.value32bit == Some(RegisterBits.UpperCase(value))
    ensures u.id.None? && u.address.None? && u.description.None? && u.isSelected.None?
  {
    var v := RegisterBits.UpperCase(value);
    RowUpdate(None, None, Some(v), Some(v), None, None)
  }

  /** After `syncData(id, value, _)` every row with that id holds the upper-cased
      text in both `data` and `value32bit` and is otherwise unchanged; every other
      row is unchanged. */
  lemma SyncDataKeepsFieldsEqual(rows: seq<Row>, id: string, value: string)
    ensures var r := Updated(rows, id, SyncUpdate(value));
      |r| == |rows| &&
      forall k :: 0 <= k < |rows| ==>
        if rows[k].id == id then
          r[k].data == r[k].value32bit == RegisterBits.UpperCase(value)
          && r[k] == rows[k].(data := r[k].data, value32bit := r[k].value32bit)
        else r[k] == rows[k]
  {
  }

  /** A press of the button for bit i in the bit editor of row k: the editor
      hands its canonical text to `handleInputChange('value32bit', _)`, which
      calls `syncData`. The row then holds "0X" and the eight digits of the
      toggled word in both value columns, and reads as that word; rows with
      another id are unchanged. */
  function BitPress(rows: seq<Row>, k: nat, i: nat): (r: seq<Row>)
    requires k < |rows| && i < 32
    ensures |r| == |rows|
    ensures var n := RegisterBits.ToggleBit(RegisterBits.WordOf(rows[k].value32bit), i);
      r[k].data == r[k].value32bit == "0X" + RegisterBits.FixedHex(n, 8)
      && RegisterBits.WordOf(r[k].value32bit) == n
      && r[k] == rows[k].(data := r[k].data, value32bit := r[k].value32bit)
    ensures forall j :: 0 <= j < 32 ==>
      (RegisterBits.IsBitSet(RegisterBits.WordOf(r[k].value32bit), j)
       <==> RegisterBits.IsBitSet(RegisterBits.WordOf(rows[k].value32bit), j) != (j == i))
    ensures forall j :: 0 <= j < |rows| && rows[j].id != rows[k].id ==> r[j] == rows[j]
  {
    RegisterBits.UpperCaseFormat(RegisterBits.ToggleBit(RegisterBits.WordOf(rows[k].value32bit), i));
    Updated(rows, rows[k].id, SyncUpdate(RegisterBits.ToggleBitText(rows[k].value32bit, i)))
  }

  /** Two presses of the same bit give back the row's word, but not its text: the
      stored text is the upper-cased "0X" form, so a canonical "0x" text such as
      the initial row's comes back with its prefix changed and its digits kept. */
  lemma BitPressTwice(rows: seq<Row>, k: nat, i: nat)
    requires k < |rows| && i < 32
    ensures var r := BitPress(BitPress(rows, k, i), k, i);
      RegisterBits.WordOf(r[k].value32bit) == RegisterBits.WordOf(rows[k].value32bit)
      && r[k].value32bit == "0X" + RegisterBits.FixedHex(RegisterBits.WordOf(rows[k].value32bit), 8)
    ensures RegisterBits.IsCanonicalValue(rows[k].value32bit) ==>
      var r := BitPress(BitPress(rows, k, i), k, i);
      r[k].value32bit == "0X" + rows[k].value32bit[2..] && r[k].value32bit != rows[k].value32bit
  {
    var w := RegisterBits.WordOf(rows[k].value32bit);
    var r1 := BitPress(rows, k, i);
    assert RegisterBits.WordOf(r1[k].value32bit) == RegisterBits.ToggleBit(w, i);
    RegisterBits.ToggleBitTwice(w, i);
    if RegisterBits.IsCanonicalValue(rows[k].value32bit) {
      RegisterBits.CanonicalDigits(rows[k].value32bit);
      assert rows[k].value32bit[1] == rows[k].value32bit[..2][1] == 'x';
    }
  }

  // ---------------------------------------------------------------------------
  // Filtering: `deleteRow(id)`, `deleteSelected()` and the selection count

  /** `rows.filter(keep)`: the rows `keep` accepts, in their original order. */
  function Filter(rows: seq<Row>, keep: Row -> bool): (r: seq<Row>)
    ensures |r| <= |rows|
    ensures forall k :: 0 <= k < |r| ==> keep(r[k])
  {
    if rows == [] then []
    else (if keep(rows[0]) then [rows[0]] else []) + Filter(rows[1..], keep)
  }

  /** Filtering keeps every accepted row as often as it occurs and drops every
      other row. */
  lemma {:induction false} FilterMultiset(rows: seq<Row>, keep: Row -> bool)
    ensures forall x :: multiset(Filter(rows, keep))[x] == if keep(x) then multiset(rows)[x] else 0
  {
    if rows != [] {
      FilterMultiset(rows[1..], keep);
      assert rows == [rows[0]] + rows[1..];
    }
  }

  /** Filtering keeps order: it distributes over concatenation. */
  lemma {:induction false} FilterAppend(a: seq<Row>, b: seq<Row>, keep: Row -> bool)
    ensures Filter(a + b, keep) == Filter(a, keep) + Filter(b, keep)
  {
    if a == [] {
      assert a + b == b;
    } else {
      var head := if keep(a[0]) then [a[0]] else [];
      assert (a + b)[0] == a[0] && (a + b)[1..] == a[1..] + b;
      assert Filter(a + b, keep) == head + Filter(a[1..] + b, keep);
      FilterAppend(a[1..], b, keep);
      assert Filter(a, keep) == head + Filter(a[1..], keep);
    }
  }

  /** Nothing is filtered out exactly when every row is accepted. */
  lemma {:induction false} FilterKeepsAll(rows: seq<Row>, keep: Row -> bool)
    ensures |Filter(rows, keep)| == |rows| <==> forall k :: 0 <= k < |rows| ==> keep(rows[k])
  {
    if rows != [] {
      FilterKeepsAll(rows[1..], keep);
      if |Filter(rows, keep)| == |rows| {
        assert keep(rows[0]);
        forall k | 0 <= k < |rows| ensures keep(rows[k]) {
          if k > 0 { assert rows[k] == rows[1..][k - 1]; }
        }
      }
    }
  }

  /** Everything is filtered out exactly when no row is accepted. */
  lemma {:induction false} FilterKeepsNone(rows: seq<Row>, keep: Row -> bool)
    ensures Filter(rows, keep) == [] <==> forall k :: 0 <= k < |rows| ==> !keep(rows[k])
  {
    if rows != [] {
      FilterKeepsNone(rows[1..], keep);
      if Filter(rows, keep) == [] {
        forall k | 0 <= k < |rows| ensures !keep(rows[k]) {
          if k > 0 { assert rows[k] == rows[1..][k - 1]; }
        }
      }
    }
  }

  /** Filtering a second time with the same test removes nothing more. */
  lemma {:induction false} FilterIdempotent(rows: seq<Row>, keep: Row -> bool)
    ensures Filter(Filter(rows, keep), keep) == Filter(rows, keep)
  {
    if rows != [] {
      FilterIdempotent(rows[1..], keep);
      FilterAppend(if keep(rows[0]) then [rows[0]] else [], Filter(rows[1..], keep), keep);
    }
  }

  function OtherId(id: string): Row -> bool {
    (row: Row) => row.id != id
  }

  /** `rows.filter(row => row.id !== id)`. */
  function WithoutId(rows: seq<Row>, id: string): (r: seq<Row>)
    ensures forall x: Row :: x in r ==> x.id != id
    ensures forall x: Row :: x.id != id ==> multiset(r)[x] == multiset(rows)[x]
  {
    FilterMultiset(rows, OtherId(id));
    Filter(rows, OtherId(id))
  }

  /** `deleteRow(id)` removes exactly the rows with that id and keeps the others
      in order; it changes nothing when no row has the id, and deleting twice is
      deleting once. */
  lemma DeleteRowProperties(a: seq<Row>, b: seq<Row>, id: string)
    ensures WithoutId(a + b, id) == WithoutId(a, id) + WithoutId(b, id)
    ensures (forall k :: 0 <= k < |a| ==> a[k].id != id) ==> WithoutId(a, id) == a
    ensures WithoutId(WithoutId(a, id), id) == WithoutId(a, id)
  {
    FilterAppend(a, b, OtherId(id));
    FilterIdempotent(a, OtherId(id));
    if forall k :: 0 <= k < |a| ==> a[k].id != id {
      FilterKeepsAll(a, OtherId(id));
      FilterIsIdentity(a, OtherId(id));
    }
  }

  lemma {:induction false} FilterIsIdentity(rows: seq<Row>, keep: Row -> bool)
    requires forall k :: 0 <= k < |rows| ==> keep(rows[k])
    ensures Filter(rows, keep) == rows
  {
    if rows != [] {
      assert keep(rows[0]);
      FilterIsIdentity(rows[1..], keep);
    }
  }

  function IsSelected(row: Row): bool {
    row.isSelected
  }

  function IsUnselected(row: Row): bool {
    !row.isSelected
  }

  /** `registerRows.filter(row => row.isSelected).length`. */
  function SelectedCount(rows: seq<Row>): (n: nat)
    ensures n <= |rows|
    ensures n == 0 <==> NoneSelected(rows)
  {
    FilterKeepsNone(rows, IsSelected);
    |Filter(rows, IsSelected)|
  }

  /** The rows left by `deleteSelected`: `rows.filter(row => !row.isSelected)`. */
  function Unselected(rows: seq<Row>): (r: seq<Row>)
    ensures forall x: Row :: x in r ==> !x.isSelected
    ensures forall x: Row :: !x.isSelected ==> multiset(r)[x] == multiset(rows)[x]
  {
    FilterMultiset(rows, IsUnselected);
    Filter(rows, IsUnselected)
  }

  /** Deleting the selected rows keeps the unselected ones in order and leaves
      nothing selected. */
  lemma DeleteSelectedProperties(a: seq<Row>, b: seq<Row>)
    ensures Unselected(a + b) == Unselected(a) + Unselected(b)
    ensures SelectedCount(Unselected(a)) == 0
  {
    FilterAppend(a, b, IsUnselected);
    var rest := Unselected(a);
    assert forall k :: 0 <= k < |rest| ==> !IsSelected(rest[k]);
    FilterKeepsNone(rest, IsSelected);
  }

  // ---------------------------------------------------------------------------
  // Selecting: `toggleSelectAll()` and `getSelectAllState()`

  datatype SelectAllState = Unchecked | Checked | Indeterminate

  /** `getSelectAllState()`. */
  function SelectAll(rows: seq<Row>): (state: SelectAllState)
    ensures state == Checked ==> |rows| > 0 && SelectedCount(rows) == |rows|
    ensures state == Unchecked <==> NoneSelected(rows)
  {
    if |rows| == 0 then Unchecked
    else if SelectedCount(rows) == 0 then Unchecked
    else if SelectedCount(rows) == |rows| then Checked
    else Indeterminate
  }

  predicate AllSelected(rows: seq<Row>) {
    |rows| > 0 && forall k :: 0 <= k < |rows| ==> rows[k].isSelected
  }

  predicate NoneSelected(rows: seq<Row>) {
    forall k :: 0 <= k < |rows| ==> !rows[k].isSelected
  }

  /** The header checkbox is checked when every row of a non-empty table is
      selected, unchecked when no row is (an empty table included), and
      indeterminate when some rows are selected and some are not. */
  lemma SelectAllStateMeaning(rows: seq<Row>)
    ensures SelectAll(rows) == Checked <==> AllSelected(rows)
    ensures SelectAll(rows) == Unchecked <==> NoneSelected(rows)
    ensures SelectAll(rows) == Indeterminate <==> !AllSelected(rows) && !NoneSelected(rows)
  {
    FilterKeepsAll(rows, IsSelected);
    FilterKeepsNone(rows, IsSelected);
  }

  /** Every row with its selection set to b. */
  function WithSelection(rows: seq<Row>, b: bool): (r: seq<Row>)
    ensures |r| == |rows|
    ensures forall k :: 0 <= k < |rows| ==> r[k] == rows[k].(isSelected := b)
  {
    seq(|rows|, k requires 0 <= k < |rows| => rows[k].(isSelected := b))
  }

  /** `toggleSelectAll()`: deselect everything when a non-empty table is fully
      selected, otherwise select everything. */
  function ToggledSelection(rows: seq<Row>): (r: seq<Row>)
    ensures |r| == |rows|
    ensures forall k :: 0 <= k < |rows| ==> r[k].(isSelected := rows[k].isSelected) == rows[k]
    ensures forall k :: 0 <= k < |rows| ==> r[k].isSelected == !AllSelected(rows)
  {
    WithSelection(rows, !AllSelected(rows))
  }

  /** Toggling from a checked header leaves it unchecked; from any other state
      of a non-empty table it leaves it checked; two toggles from a checked
      header return to the same list. */
  lemma ToggleSelectAllProperties(rows: seq<Row>)
    ensures SelectAll(rows) == Checked ==> SelectAll(ToggledSelection(rows)) == Unchecked
    ensures SelectAll(rows) != Checked && |rows| > 0 ==> SelectAll(ToggledSelection(rows)) == Checked
    ensures SelectAll(rows) == Checked ==> ToggledSelection(ToggledSelection(rows)) == rows
  {
    SelectAllStateMeaning(rows);
    SelectAllStateMeaning(ToggledSelection(rows));
  }

  // ---------------------------------------------------------------------------
  // Adding: `addRow()`

  /** The row `addRow` appends, with the id the caller supplies. */
  function NewRow(id: string): (row: Row)
    ensures row.id == id && !row.isSelected && row.description == ""
    ensures row.address == row.data == row.value32bit
  {
    Row(id, "0x00000000", "0x00000000", "0x00000000", "", false)
  }

  /** A new row holds the same value in both value fields, in the editors'
      canonical form, and reads as zero. */
  lemma NewRowIsZero(id: string)
    ensures NewRow(id).data == NewRow(id).value32bit
    ensures RegisterBits.IsCanonicalValue(NewRow(id).data)
    ensures RegisterBits.WordOf(NewRow(id).data) == 0
  {
    var v := NewRow(id).data;
    assert v[..2] == "0x" && v[2..] == "00000000";
    assert RegisterBits.DigitsOf(v) == "00000000";
    RegisterBits.ZeroDigits("00000000");
    RegisterBits.ReadWellFormed(v);
  }

  // ---------------------------------------------------------------------------
  // Importing: the validation half of `importConfig()`

  /** A parsed JSON value. Numbers are kept as integers, which is all the
      validation looks at. */
  datatype Json =
    | JNull
    | JBool(b: bool)
    | JNumber(n: int)
    | JString(s: string)
    | JArray(items: seq<Json>)
    | JObject(fields: map<string, Json>)

  datatype ImportError =
    | NotAnArray                                // `!Array.isArray(jsonData)`
    | BadItem(position: nat)                    // item at 1-based `position` is not an object
    | NonTextField(position: nat, field: string) // a truthy value that is not a string

  /** `typeof item === 'object' && item`: objects and arrays, not null. */
  predicate IsObject(item: Json)
    ensures IsObject(item) <==> !(item.JNull? || item.JBool? || item.JNumber? || item.JString?)
  {
    item.JObject? || item.JArray?
  }

  /** `item[key]`, None for `undefined`; an array has none of the row's keys. */
  function Field(item: Json, key: string): (v: Option<Json>)
    ensures !item.JObject? ==> v.None?
    ensures v.Some? <==> item.JObject? && key in item.fields
    ensures v.Some? ==> v.value == item.fields[key]
  {
    if item.JObject? && key in item.fields then Some(item.fields[key]) else None
  }

  /** JavaScript truthiness of a property value. */
  predicate Truthy(v: Option<Json>)
    ensures Truthy(v) ==> v.Some? && !v.value.JNull?
    ensures v.Some? && (v.value.JArray? || v.value.JObject?) ==> Truthy(v)
  {
    match v
    case None => false
    case Some(JNull) => false
    case Some(JBool(b)) => b
    case Some(JNumber(n)) => n != 0
    case Some(JString(s)) => s != ""
    case Some(_) => true
  }

  /** `item[key] || default` for a text column. */
  function TextField(item: Json, key: string, default: string, position: nat): (r: Result<string, ImportError>)
    ensures !Truthy(Field(item, key)) ==> r == Success(default)
    ensures Field(item, key).Some? && Field(item, key).value.JString? && Truthy(Field(item, key))
            ==> r == Success(Field(item, key).value.s)
    ensures r.Failure? <==> Truthy(Field(item, key)) && !Field(item, key).value.JString?
    ensures r.Failure? ==> r.error == NonTextField(position, key)
  {
    var v := Field(item, key);
    if !Truthy(v) then Success(default)
    else if v.value.JString? then Success(v.value.s)
    else Failure(NonTextField(position, key))
  }

  /** A text column of an item is absent, falsy or a string. */
  predicate TextColumnOk(item: Json, key: string) {
    !Truthy(Field(item, key)) || Field(item, key).value.JString?
  }

  /** The items `importConfig` turns into rows: objects (or arrays) whose four
      text columns are absent, falsy or strings. */
  predicate Acceptable(item: Json) {
    IsObject(item)
    && TextColumnOk(item, "address") && TextColumnOk(item, "data")
    && TextColumnOk(item, "value32bit") && TextColumnOk(item, "description")
  }

  /** The row built from the item at 0-based `index`, with id `stamp + index`. */
  function ImportItem(item: Json, index: nat, stamp: string): (r: Result<Row, ImportError>)
    ensures r.Success? <==> Acceptable(item)
    ensures !IsObject(item) ==> r == Failure(BadItem(index + 1))
    ensures r.Success? ==>
      r.value.id == stamp + DecimalString(index)
      && Success(r.value.address) == TextField(item, "address", "0x00000000", index + 1)
      && Success(r.value.data) == TextField(item, "data", "0x0000", index + 1)
      && Success(r.value.value32bit) == TextField(item, "value32bit", "0x00000000", index + 1)
      && Success(r.value.description) == TextField(item, "description", "", index + 1)
      && r.value.isSelected == Truthy(Field(item, "isSelected"))
  {
    if !IsObject(item) then Failure(BadItem(index + 1))
    else
      var address := TextField(item, "address", "0x00000000", index + 1);
      var data := TextField(item, "data", "0x0000", index + 1);
      var value32bit := TextField(item, "value32bit", "0x00000000", index + 1);
      var description := TextField(item, "description", "", index + 1);
      if address.Failure? then Failure(address.error)
      else if data.Failure? then Failure(data.error)
      else if value32bit.Failure? then Failure(value32bit.error)
      else if description.Failure? then Failure(description.error)
      else Success(Row(stamp + DecimalString(index), address.value, data.value, value32bit.value,
                       description.value, Truthy(Field(item, "isSelected"))))
  }

  /** The rows for `items[from..]`, stopping at the first item that fails. */
  function ImportFrom(items: seq<Json>, from: nat, stamp: string): (r: Result<seq<Row>, ImportError>)
    requires from <= |items|
    ensures r.Success? ==>
              |r.value| == |items| - from &&
              forall k :: 0 <= k < |r.value| ==> ImportItem(items[from + k], from + k, stamp) == Success(r.value[k])
    decreases |items| - from
  {
    if from == |items| then Success([])
    else
      var head := ImportItem(items[from], from, stamp);
      if head.Failure? then Failure(head.error)
      else
        var tail := ImportFrom(items, from + 1, stamp);
        if tail.Failure? then Failure(tail.error)
        else Success([head.value] + tail.value)
  }

  /** The validated list `importConfig` installs, or the error it reports. */
  function ImportRows(json: Json, stamp: string): (r: Result<seq<Row>, ImportError>)
    ensures !json.JArray? ==> r == Failure(NotAnArray)
    ensures r.Success? ==> json.JArray? && |r.value| == |json.items|
  {
    if !json.JArray? then Failure(NotAnArray) else ImportFrom(json.items, 0, stamp)
  }

  /** The items from `from` on import exactly when each of them does. */
  lemma {:induction false} ImportFromSucceeds(items: seq<Json>, from: nat, stamp: string)
    requires from <= |items|
    ensures ImportFrom(items, from, stamp).Success? <==>
              forall k :: from <= k < |items| ==> ImportItem(items[k], k, stamp).Success?
    decreases |items| - from
  {
    if from < |items| {
      ImportFromSucceeds(items, from + 1, stamp);
      var rest := ImportFrom(items, from + 1, stamp);
      if ImportItem(items[from], from, stamp).Success? {
        assert ImportFrom(items, from, stamp).Success? == rest.Success?;
      } else {
        assert ImportFrom(items, from, stamp).Failure?;
      }
    }
  }

  /** A failed import reports the error of the first item that fails. */
  lemma {:induction false} ImportFromFirstFailure(items: seq<Json>, from: nat, stamp: string) returns (k: nat)
    requires from <= |items| && ImportFrom(items, from, stamp).Failure?
    ensures from <= k < |items|
    ensures ImportItem(items[k], k, stamp) == Failure(ImportFrom(items, from, stamp).error)
    ensures forall j :: from <= j < k ==> ImportItem(items[j], j, stamp).Success?
    decreases |items| - from
  {
    if ImportItem(items[from], from, stamp).Failure? {
      k := from;
    } else {
      k := ImportFromFirstFailure(items, from + 1, stamp);
    }
  }

  /** An import succeeds exactly when every item is an object (or an array) whose
      text columns hold strings or falsy values, and then yields one row per
      item, in order, with missing columns defaulted. */
  lemma ImportConfigSucceeds(items: seq<Json>, stamp: string)
    ensures var r := ImportRows(JArray(items), stamp);
      (r.Success? <==> forall k :: 0 <= k < |items| ==> Acceptable(items[k]))
      && (r.Success? ==> forall k :: 0 <= k < |items| ==> ImportItem(items[k], k, stamp) == Success(r.value[k]))
  {
    var r := ImportRows(JArray(items), stamp);
    assert r == ImportFrom(items, 0, stamp);
    ImportFromSucceeds(items, 0, stamp);
    if r.Success? {
      forall k | 0 <= k < |items| ensures ImportItem(items[k], k, stamp) == Success(r.value[k]) {
        assert items[0 + k] == items[k];
      }
    }
  }

  /** A rejected item is reported by its 1-based position, and it is the first
      item that is not an object when it is reported as such. */
  lemma ImportConfigReportsFirstBadItem(items: seq<Json>, stamp: string)
    requires ImportRows(JArray(items), stamp).Failure?
    ensures var e := ImportRows(JArray(items), stamp).error;
      e != NotAnArray &&
      (e.BadItem? ==> 1 <= e.position <= |items| && !IsObject(items[e.position - 1]) &&
                      forall j :: 0 <= j < e.position - 1 ==> IsObject(items[j]))
  {
    var k := ImportFromFirstFailure(items, 0, stamp);
    assert ImportItem(items[k], k, stamp).error != NotAnArray;
    forall j | 0 <= j < k ensures IsObject(items[j]) {
      assert ImportItem(items[j], j, stamp).Success?;
    }
  }

  /** Imported rows have pairwise distinct ids, so `updateRow` and `deleteRow`
      address one imported row at a time. */
  lemma ImportedIdsDistinct(json: Json, stamp: string)
    requires ImportRows(json, stamp).Success?
    ensures var rows := ImportRows(json, stamp).value;
      forall i, j :: 0 <= i < j < |rows| ==> rows[i].id != rows[j].id
  {
    var rows := ImportRows(json, stamp).value;
    forall i, j | 0 <= i < j < |rows| ensures rows[i].id != rows[j].id {
      assert ImportItem(json.items[i], i, stamp) == Success(rows[i]);
      assert ImportItem(json.items[j], j, stamp) == Success(rows[j]);
      if rows[i].id == rows[j].id {
        assert (stamp + DecimalString(i))[|stamp|..] == DecimalString(i);
        assert (stamp + DecimalString(j))[|stamp|..] == DecimalString(j);
        DecimalStringInjective(i, j);
      }
    }
  }

  /** An item without `data` and `value32bit` gets two different default texts,
      "0x0000" and "0x00000000", which denote the same value. */
  lemma ImportDefaultsAgree()
    ensures RegisterBits.WordOf("0x0000") == RegisterBits.WordOf("0x00000000") == 0
  {
    assert RegisterBits.DigitsOf("0x0000") == "0000";
    assert RegisterBits.DigitsOf("0x00000000") == "00000000";
    RegisterBits.ZeroDigits("0000");
    RegisterBits.ZeroDigits("00000000");
    RegisterBits.ReadWellFormed("0x0000");
    RegisterBits.ReadWellFormed("0x00000000");
  }

  const DecimalDigits: string := "0123456789"

  /** `Number.prototype.toString()` on a non-negative integer. */
  function DecimalString(n: nat): (s: string)
    ensures 1 <= |s|
    ensures n < 10 <==> |s| == 1
    ensures s[0] == '0' <==> n == 0
  {
    if n < 10 then [DecimalDigits[n]] else DecimalString(n / 10) + [DecimalDigits[n % 10]]
  }

  lemma {:induction false} DecimalStringInjective(a: nat, b: nat)
    requires DecimalString(a) == DecimalString(b)
    ensures a == b
    decreases a
  {
    var s := DecimalString(a);
    if a >= 10 {
      assert b >= 10;
      assert a % 10 == b % 10 by {
        assert DecimalDigits[a % 10] == s[|s| - 1] == DecimalDigits[b % 10];
      }
      assert DecimalString(a / 10) == s[..|s| - 1] == DecimalString(b / 10);
      DecimalStringInjective(a / 10, b / 10);
    } else {
      assert DecimalDigits[a] == DecimalDigits[b];
    }
  }

  // ---------------------------------------------------------------------------
  // The table state

  /** The row the view starts with. */
  function InitialRow(): (row: Row)
    ensures row.data == row.value32bit && RegisterBits.IsCanonicalValue(row.data) && !row.isSelected
  {
    Row("1", "0x2047C00", "0x31325233", "0x31325233", "GPIO配置寄存器", false)
  }

  datatype DeleteError = NothingSelected

  class RegisterTable {
    /** `registerRows`, in display order. */
    var rows: seq<Row>

    constructor ()
      ensures rows == [InitialRow()]
    {
      rows := [InitialRow()];
    }

    method MoveRow(dragIndex: nat, hoverIndex: nat)
      requires dragIndex < |rows| && hoverIndex < |rows|
      modifies this
      ensures rows == Moved(old(rows), dragIndex, hoverIndex)
      ensures multiset(rows) == multiset(old(rows)) && rows[hoverIndex] == old(rows)[dragIndex]
    {
      var dragRow := rows[dragIndex];
      var newRows := RemoveAt(rows, dragIndex);
      newRows := newRows[..hoverIndex] + [dragRow] + newRows[hoverIndex..];
      rows := newRows;
    }

    method UpdateRow(id: string, updates: RowUpdate)
      modifies this
      ensures rows == Updated(old(rows), id, updates)
    {
      rows := Updated(rows, id, updates);
    }

    method DeleteRow(id: string)
      modifies this
      ensures rows == WithoutId(old(rows), id)
    {
      rows := WithoutId(rows, id);
    }

    /** `addRow()`; the id the source takes from the clock is a parameter. */
    method AddRow(id: string)
      modifies this
      ensures rows == old(rows) + [NewRow(id)]
    {
      rows := rows + [NewRow(id)];
    }

    /** `syncData(id, value, is32bit)`: the flag does not influence the result. */
    method SyncData(id: string, value: string, is32bit: bool)
      modifies this
      ensures rows == Updated(old(rows), id, SyncUpdate(value))
    {
      UpdateRow(id, SyncUpdate(value));
    }

    /** The bit editor of row k reports a press of bit i: `onChange` of the
        rendered editor is `handleInputChange('value32bit', _)`. */
    method PressBit(k: nat, i: nat)
      requires k < |rows| && i < 32
      modifies this
      ensures rows == BitPress(old(rows), k, i)
    {
      SyncData(rows[k].id, RegisterBits.ToggleBitText(rows[k].value32bit, i), true);
    }

    method ToggleSelectAll()
      modifies this
      ensures rows == ToggledSelection(old(rows))
    {
      var allSelected := |rows| > 0 && forall k :: 0 <= k < |rows| ==> rows[k].isSelected;
      rows := WithSelection(rows, !allSelected);
    }

    /** `deleteSelected()`: reports an error and changes nothing when no row is
        selected; otherwise removes the selected rows and reports how many. */
    method DeleteSelected() returns (outcome: Result<nat, DeleteError>)
      modifies this
      ensures SelectedCount(old(rows)) == 0 ==> outcome == Failure(NothingSelected) && rows == old(rows)
      ensures SelectedCount(old(rows)) > 0 ==>
                outcome == Success(SelectedCount(old(rows))) && rows == Unselected(old(rows))
    {
      var selectedCount := SelectedCount(rows);
      if selectedCount == 0 {
        return Failure(NothingSelected);
      }
      rows := Unselected(rows);
      return Success(selectedCount);
    }

    /** The state change of `importConfig()` once the file is parsed: the rows
        are replaced when validation succeeds and kept when it fails. */
    method ImportConfig(json: Json, stamp: string) returns (outcome: Result<nat, ImportError>)
      modifies this
      ensures ImportRows(json, stamp).Failure? ==>
                outcome == Failure(ImportRows(json, stamp).error) && rows == old(rows)
      ensures ImportRows(json, stamp).Success? ==>
                rows == ImportRows(json, stamp).value && outcome == Success(|rows|)
    {
      var validated := ImportRows(json, stamp);
      if validated.Failure? {
        return Failure(validated.error);
      }
      rows := validated.value;
      return Success(|rows|);
    }
  }
}
