/** `ReceiptEditor`: the edit buffer of one receipt (date, store and item list), the
    total shown above the list, and the save button that hands the buffer on. */
module ReceiptEditing {
  import opened Wrappers
  import opened Text
  import opened Receipts
  import Seqs

  /** `initialData` as it may arrive: any of its fields can be missing. */
  datatype InitialData = InitialData(purchaseDate: Option<string>, storeName: Option<string>,
                                     items: Option<seq<Item>>)

  /** `handleItemChange(index, field, value)`: the name as typed, or the text of the price
      input. */
  datatype ItemEdit = SetName(name: string) | SetPrice(text: string)

  datatype EditorState = EditorState(date: string, store: string, items: seq<Item>)

  /** `items.reduce((sum, item) => sum + item.price, 0)`. */
  function Total(items: seq<Item>): int {
    if items == [] then 0 else Total(items[..|items| - 1]) + items[|items| - 1].price
  }

  /** The text a `type="number"` input holds for an integer price: empty, or digits with
      an optional leading minus. */
  predicate IsIntegerText(text: string) {
    text == "" || (AllDigits(text) && text != "") || (|text| > 1 && text[0] == '-' && AllDigits(text[1..]))
  }

  /** `Number(text)` for such text; `Number("")` is 0. */
  function NumberOf(text: string): (n: int)
    requires IsIntegerText(text)
    ensures text == "" ==> n == 0
    ensures text != "" && text[0] == '-' ==> n <= 0
    ensures text != "" && text[0] != '-' ==> n >= 0
  {
    if text == "" then 0
    else if text[0] == '-' then -(DigitValue(text[1..]) as int)
    else DigitValue(text)
  }

  /** The text the price input displays for `n` (`String(n)`). */
  function IntegerText(n: int): (text: string)
    ensures IsIntegerText(text)
  {
    if n < 0 then "-" + DecimalString(-n) else DecimalString(n)
  }

  /** `{ ...item, [field]: value }`, the price converted with `Number`. */
  function ApplyItemEdit(item: Item, edit: ItemEdit): Item
    requires edit.SetPrice? ==> IsIntegerText(edit.text)
  {
    match edit
    case SetName(name) => item.(itemName := name)
    case SetPrice(text) => item.(price := NumberOf(text))
  }

  /** A date or store field falls back to the empty string, the item list to `[]`. */
  function InitialState(initial: InitialData): (s: EditorState)
    ensures s.date == if initial.purchaseDate.Some? then initial.purchaseDate.value else ""
    ensures s.store == if initial.storeName.Some? then initial.storeName.value else ""
    ensures s.items == if initial.items.Some? then initial.items.value else []
  {
    EditorState(
      if initial.purchaseDate.Some? then initial.purchaseDate.value else "",
      if initial.storeName.Some? then initial.storeName.value else "",
      if initial.items.Some? then initial.items.value else [])
  }

  // ---------------------------------------------------------------------------
  // Properties

  /** The total of two lists one after the other is the sum of their totals. */
  lemma {:induction false} TotalAppend(s: seq<Item>, t: seq<Item>)
    ensures Total(s + t) == Total(s) + Total(t)
    decreases |t|
  {
    if t != [] {
      var u := t[..|t| - 1];
      assert (s + t)[..|s + t| - 1] == s + u;
      TotalAppend(s, u);
    } else {
      assert s + t == s;
    }
  }

  /** Appending the blank item `{"", 0}` leaves the total unchanged. */
  lemma {:induction false} BlankItemKeepsTotal(items: seq<Item>)
    ensures Total(items + [Item("", 0)]) == Total(items)
  {
    TotalAppend(items, [Item("", 0)]);
    assert [Item("", 0)][..0] == [];
  }

  /** Deleting item `i` lowers the total by exactly its price. */
  lemma {:induction false} DeleteLowersTotal(items: seq<Item>, i: int)
    requires 0 <= i < |items|
    ensures Total(Seqs.RemoveAt(items, i)) == Total(items) - items[i].price
  {
    var a, b := items[..i], items[i + 1..];
    assert items == a + [items[i]] + b;
    TotalAppend(a + [items[i]], b);
    TotalAppend(a, [items[i]]);
    assert [items[i]][..0] == [];
    TotalAppend(a, b);
  }

  /** Replacing item `i` changes the total by the change in its price. */
  lemma {:induction false} ReplaceAdjustsTotal(items: seq<Item>, i: int, item: Item)
    requires 0 <= i < |items|
    ensures Total(items[i := item]) == Total(items) - items[i].price + item.price
  {
    var a, b := items[..i], items[i + 1..];
    assert items == a + [items[i]] + b;
    assert items[i := item] == a + [item] + b;
    TotalAppend(a + [items[i]], b);
    TotalAppend(a, [items[i]]);
    TotalAppend(a + [item], b);
    TotalAppend(a, [item]);
    assert [items[i]][..0] == [] && [item][..0] == [];
  }

  /** A name edit leaves the total unchanged; a price edit moves it by the difference. */
  lemma {:induction false} EditAdjustsTotal(items: seq<Item>, i: int, edit: ItemEdit)
    requires 0 <= i < |items|
    requires edit.SetPrice? ==> IsIntegerText(edit.text)
    ensures Total(items[i := ApplyItemEdit(items[i], edit)]) ==
      if edit.SetName? then Total(items) else Total(items) - items[i].price + NumberOf(edit.text)
  {
    ReplaceAdjustsTotal(items, i, ApplyItemEdit(items[i], edit));
  }

  /** The price input shows a price as text that reads back as the same price. */
  lemma {:induction false} PriceTextRoundTrip(n: int)
    ensures NumberOf(IntegerText(n)) == n
  {
    if n < 0 {
      var d := DecimalString(-n);
      assert ("-" + d)[1..] == d;
      DecimalStringValue(-n);
    } else {
      DecimalStringValue(n);
    }
  }

  class ReceiptEditor {
    var date: string
    var store: string
    var items: seq<Item>

    ghost function Snapshot(): EditorState
      reads this
    {
      EditorState(date, store, items)
    }

    /** The buffer starts from `initialData`. */
    constructor(initial: InitialData)
      ensures Snapshot() == InitialState(initial)
    {
      var s := InitialState(initial);
      date := s.date;
      store := s.store;
      items := s.items;
    }

    /** `totalAmount`: the sum of the current item prices. */
    function TotalAmount(): int
      reads this
    {
      Total(items)
    }

    /** `handleItemChange`: only the edited field of item `index` changes. */
    method HandleItemChange(index: nat, edit: ItemEdit)
      requires index < |items|
      requires edit.SetPrice? ==> IsIntegerText(edit.text)
      modifies this
      ensures Snapshot() == old(Snapshot()).(items := old(items)[index := ApplyItemEdit(old(items)[index], edit)])
      ensures TotalAmount() == if edit.SetName? then old(TotalAmount())
                               else old(TotalAmount()) - old(items)[index].price + NumberOf(edit.text)
    {
      var newItems := items;
      newItems := newItems[index := ApplyItemEdit(newItems[index], edit)];
      EditAdjustsTotal(items, index, edit);
      items := newItems;
    }

    /** `handleDeleteItem`: item `index` is dropped and the rest keep their order. */
    method HandleDeleteItem(index: int)
      modifies this
      ensures Snapshot() == old(Snapshot()).(items := Seqs.RemoveAt(old(items), index))
      ensures 0 <= index < |old(items)| ==> TotalAmount() == old(TotalAmount()) - old(items)[index].price
    {
      if 0 <= index < |items| {
        DeleteLowersTotal(items, index);
      }
      items := Seqs.RemoveAt(items, index);
    }

    /** `handleAddItem`: appends a blank item, which leaves the total as it was. */
    method HandleAddItem()
      modifies this
      ensures Snapshot() == old(Snapshot()).(items := old(items) + [Item("", 0)])
      ensures TotalAmount() == old(TotalAmount())
    {
      BlankItemKeepsTotal(items);
      items := items + [Item("", 0)];
    }

    /** `handleSaveClick`: hands on the buffer as it stands, whatever it holds (no field
        is checked). */
    method HandleSaveClick() returns (saved: Receipt)
      ensures saved.purchaseDate == date && saved.storeName == store && saved.items == items
    {
      saved := Receipt(date, store, items);
    }
  }
}
