/** Type-length-value lists with one octet each of type and length, as in COTP and in Modbus device identification. */
module Tlv {
  import opened Wrappers
  import opened Bytes

  datatype Item = Item(code: byte, value: bytes)

  predicate Short(items: seq<Item>) {
    forall i | 0 <= i < |items| :: |items[i].value| < 256
  }

  function Encode(items: seq<Item>): bytes
    requires Short(items)
  {
    if items == [] then [] else [items[0].code, |items[0].value|] + items[0].value + Encode(items[1..])
  }

  function Join(items: seq<Item>, more: Result<seq<Item>>): Result<seq<Item>> {
    if more.Raised? then Raised else Ok(items + more.value)
  }

  /** The items that fill `data` to the last octet. */
  function Items(data: bytes): Result<seq<Item>>
    decreases |data|
  {
    if data == [] then Ok([])
    else if |data| < 2 || |data| - 2 < data[1] then Raised
    else Join([Item(data[0], data[2..2 + data[1]])], Items(data[2 + data[1]..]))
  }

  lemma {:induction false} ItemsOfEncoding(items: seq<Item>)
    requires Short(items)
    ensures Items(Encode(items)) == Ok(items)
  {
    if items != [] {
      var item, more := items[0], Encode(items[1..]);
      var data := [item.code, |item.value|] + item.value + more;
      assert data[2..2 + |item.value|] == item.value && data[2 + |item.value|..] == more;
      ItemsOfEncoding(items[1..]);
      assert [item] + items[1..] == items;
    }
  }

  lemma EncodeCons(item: Item, more: seq<Item>)
    requires |item.value| < 256 && Short(more)
    ensures Short([item] + more) && Encode([item] + more) == [item.code, |item.value|] + item.value + Encode(more)
  {
    assert ([item] + more)[1..] == more;
  }

  lemma FirstItem(data: bytes, size: nat)
    requires 2 <= size <= |data|
    ensures data == [data[0], data[1]] + data[2..size] + data[size..]
  {
  }

  lemma {:induction false} EncodingOfItems(data: bytes)
    requires Items(data).Ok?
    ensures Short(Items(data).value) && Encode(Items(data).value) == data
    decreases |data|
  {
    hide Encode, Short;
    if data == [] {
      EmptyEncoding();
    } else {
      var length: nat := data[1];
      var size := 2 + length;
      var first, more := Item(data[0], data[2..size]), Items(data[size..]);
      assert Items(data) == Join([first], more);
      hide Items;
      EncodingOfItems(data[size..]);
      EncodeCons(first, more.value);
      FirstItem(data, size);
    }
  }

  lemma EmptyEncoding()
    ensures Short([]) && Encode([]) == []
  {
  }

  /** A list parses exactly when it is an encoding, and of one list of items only. */
  lemma ItemsIffEncoded(data: bytes, items: seq<Item>)
    ensures Items(data) == Ok(items) <==> Short(items) && data == Encode(items)
  {
    if Items(data) == Ok(items) {
      EncodingOfItems(data);
    }
    if Short(items) && data == Encode(items) {
      ItemsOfEncoding(items);
    }
  }

  // ---- Reading a list in a loop ----

  /** From `base` on, the items before `offset` have been read. */
  ghost predicate ReadUpTo(data: bytes, base: nat, items: seq<Item>, offset: nat) {
    base <= offset <= |data| && Items(data[base..]) == Join(items, Items(data[offset..]))
  }

  lemma ReadNothing(data: bytes, base: nat)
    requires base <= |data|
    ensures ReadUpTo(data, base, [], base)
  {
    if Items(data[base..]).Ok? {
      assert [] + Items(data[base..]).value == Items(data[base..]).value;
    }
  }

  lemma ReadOne(data: bytes, base: nat, items: seq<Item>, offset: nat, next: nat)
    requires ReadUpTo(data, base, items, offset) && offset + 2 <= |data|
    requires next == offset + 2 + data[offset + 1] <= |data|
    ensures ReadUpTo(data, base, items + [Item(data[offset], data[offset + 2..next])], next)
  {
    var rest, item := data[offset..], Item(data[offset], data[offset + 2..next]);
    assert rest[2..2 + rest[1]] == item.value && rest[2 + rest[1]..] == data[next..];
    if Items(data[next..]).Ok? {
      Associative(items, [item], Items(data[next..]).value);
    }
  }

  lemma ReadFails(data: bytes, base: nat, items: seq<Item>, offset: nat)
    requires ReadUpTo(data, base, items, offset) && offset < |data|
    requires |data| - offset < 2 || |data| - offset - 2 < data[offset + 1]
    ensures Items(data[base..]).Raised?
  {
  }

  lemma ReadAll(data: bytes, base: nat, items: seq<Item>)
    requires ReadUpTo(data, base, items, |data|)
    ensures Items(data[base..]) == Ok(items)
  {
    assert data[|data|..] == [];
    assert items + [] == items;
  }

  // ---- Dictionaries ----

  /** The dictionary that a loop of assignments leaves behind. */
  function Dict(items: seq<Item>): map<byte, bytes> {
    if items == [] then map[]
    else
      var last := items[|items| - 1];
      Dict(items[..|items| - 1])[last.code := last.value]
  }

  /** The item that decides the entry of a code: the last one that carries it. */
  predicate LastOf(items: seq<Item>, code: byte, i: nat) {
    i < |items| && items[i].code == code && forall j | i < j < |items| :: items[j].code != code
  }

  lemma {:induction false} DictKeepsTheLast(items: seq<Item>, code: byte, i: nat)
    requires LastOf(items, code, i)
    ensures code in Dict(items) && Dict(items)[code] == items[i].value
  {
    var last := |items| - 1;
    if i < last {
      assert items[last].code != code;
      DictKeepsTheLast(items[..last], code, i);
    }
  }

  lemma {:induction false} DictHasOnlyTheItems(items: seq<Item>, code: byte)
    requires code in Dict(items)
    ensures exists i: nat :: LastOf(items, code, i)
  {
    var last := |items| - 1;
    if items[last].code == code {
      assert LastOf(items, code, last);
    } else {
      DictHasOnlyTheItems(items[..last], code);
      var i: nat :| LastOf(items[..last], code, i);
      assert LastOf(items, code, i);
    }
  }

  lemma DictAppend(items: seq<Item>, item: Item)
    ensures Dict(items + [item]) == Dict(items)[item.code := item.value]
  {
    assert (items + [item])[..|items|] == items;
  }
}
