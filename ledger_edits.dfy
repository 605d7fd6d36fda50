/** The edits the shopping ledger (app.js) makes to a category, its fields
    and its items, the check it makes on a typed name, and the two snapshot
    shapes a collection is imported from. Each is a value-to-value rule; the
    app object applies them to its state. */
module LedgerEdits {
  import opened Wrappers
  import opened Text
  import opened LedgerData

  // ---------------------------------------------------------------------
  // Array splicing
  // ---------------------------------------------------------------------

  /** `s.splice(i, 1)`: `s` without the element at `i`; an index past the
      end removes nothing. */
  function RemoveAt<T>(s: seq<T>, i: nat): seq<T> {
    if i < |s| then s[..i] + s[i + 1..] else s
  }

  /** `s.splice(i, 0, x)` for an index within the array. */
  function InsertAt<T>(s: seq<T>, i: nat, x: T): seq<T>
    requires i <= |s|
  {
    s[..i] + [x] + s[i..]
  }

  /** The element at `i` is gone; the ones before it stay where they were,
      the ones after it move one place down. */
  lemma RemoveAtSpec<T>(s: seq<T>, i: nat)
    requires i < |s|
    ensures |RemoveAt(s, i)| == |s| - 1
    ensures forall k :: 0 <= k < i ==> RemoveAt(s, i)[k] == s[k]
    ensures forall k :: i <= k < |s| - 1 ==> RemoveAt(s, i)[k] == s[k + 1]
    ensures multiset(RemoveAt(s, i)) + multiset{s[i]} == multiset(s)
  {
    assert s == s[..i] + [s[i]] + s[i + 1..];
  }

  /** Putting the removed element back where it was gives the array back. */
  lemma InsertRemove<T>(s: seq<T>, i: nat)
    requires i < |s|
    ensures InsertAt(RemoveAt(s, i), i, s[i]) == s
  {
    var r := RemoveAt(s, i);
    assert r[..i] == s[..i];
    assert r[i..] == s[i + 1..];
  }

  /** Removing what was just inserted gives the array back. */
  lemma RemoveInsert<T>(s: seq<T>, i: nat, x: T)
    requires i <= |s|
    ensures RemoveAt(InsertAt(s, i, x), i) == s
  {
    var t := InsertAt(s, i, x);
    assert t[..i] == s[..i];
    assert t[i + 1..] == s[i..];
  }

  /** The field move of `swapFields(fromIndex, toIndex)`: take the element
      out at `from`, then insert it at `to` of what is left. */
  function Move<T>(s: seq<T>, from: nat, to: nat): seq<T>
    requires from < |s| && to < |s|
  {
    InsertAt(RemoveAt(s, from), to, s[from])
  }

  /** A move keeps the elements (as a multiset), puts the moved one at `to`,
      and keeps the others in their relative order: without the moved
      element, before and after are the same sequence. */
  lemma MoveSpec<T>(s: seq<T>, from: nat, to: nat)
    requires from < |s| && to < |s|
    ensures |Move(s, from, to)| == |s|
    ensures Move(s, from, to)[to] == s[from]
    ensures multiset(Move(s, from, to)) == multiset(s)
    ensures RemoveAt(Move(s, from, to), to) == RemoveAt(s, from)
  {
    var r := RemoveAt(s, from);
    RemoveAtSpec(s, from);
    RemoveInsert(r, to, s[from]);
    assert Move(s, from, to) == r[..to] + [s[from]] + r[to..];
    assert r == r[..to] + r[to..];
  }

  /** Dragging the field back where it came from undoes the move. */
  lemma MoveBack<T>(s: seq<T>, from: nat, to: nat)
    requires from < |s| && to < |s|
    ensures Move(Move(s, from, to), to, from) == s
  {
    MoveSpec(s, from, to);
    InsertRemove(s, from);
  }

  /** Moving a field onto itself changes nothing, so the early return of
      `swapFields` for `fromIndex === toIndex` only skips the save. */
  lemma MoveSame<T>(s: seq<T>, i: nat)
    requires i < |s|
    ensures Move(s, i, i) == s
  {
    InsertRemove(s, i);
  }

  // ---------------------------------------------------------------------
  // Fields
  // ---------------------------------------------------------------------

  predicate NoDuplicates(fields: seq<string>) {
    forall a, b :: 0 <= a < b < |fields| ==> fields[a] != fields[b]
  }

  /** What `addFieldFromEditor` does with the typed name. */
  datatype FieldAdd = BlankName | AlreadyThere | Added(fields: seq<string>)

  function AddField(fields: seq<string>, input: string): FieldAdd {
    var name := Trim(input);
    if name == "" then BlankName
    else if name in fields then AlreadyThere
    else Added(fields + [name])
  }

  /** A name that trims to nothing, or one already there, is refused; any
      other is appended, trimmed, after the existing fields. */
  lemma AddFieldSpec(fields: seq<string>, input: string)
    ensures AddField(fields, input).BlankName? <==> Trim(input) == ""
    ensures AddField(fields, input).AlreadyThere? <==> Trim(input) != "" && Trim(input) in fields
    ensures AddField(fields, input).Added? ==>
      && AddField(fields, input).fields[..|fields|] == fields
      && AddField(fields, input).fields[|fields|..] == [Trim(input)]
      && Trimmed(Trim(input))
  {
    TrimSpec(input);
    if AddField(fields, input).Added? {
      assert AddField(fields, input).fields == fields + [Trim(input)];
    }
  }

  /** Field names added through the editor keep the list free of
      duplicates. */
  lemma AddFieldKeepsDistinct(fields: seq<string>, input: string)
    requires NoDuplicates(fields)
    ensures AddField(fields, input).Added? ==> NoDuplicates(AddField(fields, input).fields)
  {
    if AddField(fields, input).Added? {
      var r := AddField(fields, input).fields;
      forall a, b | 0 <= a < b < |r| ensures r[a] != r[b] {
        if b == |fields| {
          assert r[a] == fields[a] && r[b] == Trim(input);
        }
      }
    }
  }

  /** `deleteFieldFromEditor(index)` once confirmed: the field goes from the
      list and its key from every item. */
  function DropField(cat: Category, index: nat): Category
    requires index < |cat.fields|
  {
    var name := cat.fields[index];
    cat.(fields := RemoveAt(cat.fields, index),
         items := seq(|cat.items|, k requires 0 <= k < |cat.items| => cat.items[k] - {name}))
  }

  /** Only the field at `index` and that key in each item go; every other
      key keeps its value, and the category's other parts are unchanged. */
  lemma DropFieldSpec(cat: Category, index: nat)
    requires index < |cat.fields|
    ensures var r := DropField(cat, index);
      && r.id == cat.id && r.name == cat.name && r.color == cat.color
      && r.fields == cat.fields[..index] + cat.fields[index + 1..]
      && |r.items| == |cat.items|
    ensures forall k, key :: 0 <= k < |cat.items| ==>
      (key in DropField(cat, index).items[k] <==> key in cat.items[k] && key != cat.fields[index])
    ensures forall k, key :: 0 <= k < |cat.items| && key in DropField(cat, index).items[k] ==>
      DropField(cat, index).items[k][key] == cat.items[k][key]
  {
  }

  // ---------------------------------------------------------------------
  // Items
  // ---------------------------------------------------------------------

  /** The items after `saveItem` with the form's values `form`: an edited
      item becomes `{ ...old, ...form }`, a new one is appended. */
  function SavedItems(items: seq<Item>, editing: Option<nat>, form: Item): seq<Item>
    requires editing.Some? ==> editing.value < |items|
  {
    match editing
    case None => items + [form]
    case Some(i) => items[i := items[i] + form]
  }

  /** Editing merges: the form's values win, keys the form does not carry
      keep their old values, and no other item changes. */
  lemma SavedItemsMerge(items: seq<Item>, i: nat, form: Item)
    requires i < |items|
    ensures |SavedItems(items, Some(i), form)| == |items|
    ensures forall key :: key in SavedItems(items, Some(i), form)[i] <==> key in items[i] || key in form
    ensures forall key :: key in form ==> SavedItems(items, Some(i), form)[i][key] == form[key]
    ensures forall key :: key in items[i] && key !in form ==> SavedItems(items, Some(i), form)[i][key] == items[i][key]
    ensures forall k :: 0 <= k < |items| && k != i ==> SavedItems(items, Some(i), form)[k] == items[k]
  {
  }

  /** A new item (and `saveAsNew`) goes to the end, and `deleteItem` of that
      last index takes it away again. */
  lemma SavedItemsAppend(items: seq<Item>, form: Item)
    ensures SavedItems(items, None, form)[..|items|] == items
    ensures SavedItems(items, None, form)[|items|] == form
    ensures RemoveAt(SavedItems(items, None, form), |items|) == items
  {
    assert SavedItems(items, None, form)[..|items|] == items;
  }

  // ---------------------------------------------------------------------
  // Names
  // ---------------------------------------------------------------------

  /** The check every rename and every new collection or category makes:
      `name.trim()` must not be empty, and the trimmed name is what is
      stored. */
  function CheckedName(input: string): Option<string> {
    if Trim(input) == "" then None else Some(Trim(input))
  }

  lemma CheckedNameSpec(input: string)
    ensures CheckedName(input).None? <==> Trim(input) == ""
    ensures CheckedName(input).Some? ==>
      && CheckedName(input).value != ""
      && Trimmed(CheckedName(input).value)
      && CheckedName(CheckedName(input).value) == CheckedName(input)
  {
    TrimSpec(input);
    TrimIdempotent(input);
  }

  /** The category `quickAddCategory` and `confirmAddCategory` append; its
      id and colour come from the clock and the colour picker. */
  function NewCategory(id: string, name: string, color: string): Category {
    Category(id, name, color, DefaultFields, [])
  }

  // ---------------------------------------------------------------------
  // Snapshots
  // ---------------------------------------------------------------------

  /** A parsed JSON snapshot file, by the shape `importCurrentCollection`
      tells apart: an object whose `data` is an array (with its
      `timestamp`, `None` where missing), a bare array, or anything else. */
  datatype Snapshot = WithData(data: seq<Category>, timestamp: Option<int>) | Bare(data: seq<Category>) | Other

  /** The content an import puts in place at time `now`: a missing or zero
      (falsy) timestamp is replaced by `now`, and an unrecognised shape
      empties the collection. */
  function Imported(snap: Snapshot, now: int): (c: Content) {
    match snap
    case WithData(data, ts) => Content(if ts.Some? && ts.value != 0 then ts.value else now, data)
    case Bare(data) => Content(now, data)
    case Other => Content(now, [])
  }

  /** `exportCurrentCollection`: `{ timestamp: lastUpdated || now, data }`. */
  function Exported(lastUpdated: Option<int>, data: seq<Category>, now: int): Snapshot {
    WithData(data, Some(if lastUpdated.Some? && lastUpdated.value != 0 then lastUpdated.value else now))
  }

  /** Which shape gives which content. */
  lemma ImportedSpec(snap: Snapshot, now: int)
    ensures snap.WithData? || snap.Bare? ==> Imported(snap, now).data == snap.data
    ensures snap.Other? ==> Imported(snap, now).data == []
    ensures snap.WithData? && snap.timestamp.Some? && snap.timestamp.value != 0 ==>
      Imported(snap, now).timestamp == snap.timestamp.value
    ensures !(snap.WithData? && snap.timestamp.Some? && snap.timestamp.value != 0) ==>
      Imported(snap, now).timestamp == now
  {
  }

  /** Importing an exported file restores the categories and, when the
      collection had a (non-zero) save time, that time too. */
  lemma ExportImport(lastUpdated: Option<int>, data: seq<Category>, now: int, later: int)
    ensures Imported(Exported(lastUpdated, data, now), later).data == data
    ensures lastUpdated.Some? && lastUpdated.value != 0 ==>
      Imported(Exported(lastUpdated, data, now), later).timestamp == lastUpdated.value
  {
  }
}
