/** `Item.parse` of src/Analyzer/entities/Item.mjs: the item table, a run of
    four-word records read from `fromOffset` for as long as the position has not
    passed `toOffset`. A read past the end makes the source throw; here the parse
    gives `None`. */
module Items {

  import opened Wrappers
  import opened Constants
  import opened Reading
  import opened Tables

  /** An item: the byte offset of its record, its name and description, the byte
      offset of the location it lies in, and the word of its handler. */
  datatype Item = Item(id: nat, name: Text, description: Text, location: nat, fn: U16)
  {
    /** `get label()`. */
    function Label(): Text
    {
      name
    }
  }

  /** The bytes of one item record. */
  const RecordSize: nat := 8

  /** The item whose record starts at `offset`. */
  function ItemAt(data: seq<Byte>, offset: nat): Option<Item>
  {
    match PStringBehind(data, offset)
    case None => None
    case Some(name) =>
      match PStringBehind(data, offset + 2)
      case None => None
      case Some(description) =>
        match WordAt(data, offset + 4)
        case None => None
        case Some(location) =>
          match WordAt(data, offset + 6)
          case None => None
          case Some(fn) => Some(Item(offset, name, description, location as nat * 2, fn))
  }

  /** Record `i` of the table that starts at `fromOffset`. */
  function ItemOf(data: seq<Byte>, fromOffset: nat, i: nat): Option<Item>
  {
    ItemAt(data, fromOffset + RecordSize * i)
  }

  /** The item reader the table loop is given. */
  function ItemReader(data: seq<Byte>): nat -> Option<Item>
  {
    (offset: nat) => ItemAt(data, offset)
  }

  /** `Item.parse(data, fromOffset, toOffset)`. */
  function Parse(data: seq<Byte>, fromOffset: nat, toOffset: nat): Option<seq<Item>>
  {
    Records(ItemReader(data), RecordSize, fromOffset, toOffset)
  }

  /** A successful parse holds one item per visited record, in order: item i is
      the record at `fromOffset + 8i` and has that offset as its id. */
  lemma ParsedItems(data: seq<Byte>, fromOffset: nat, toOffset: nat)
    requires Parse(data, fromOffset, toOffset).Some?
    ensures var items := Parse(data, fromOffset, toOffset).value;
            |items| == Count(RecordSize, fromOffset, toOffset) &&
            forall i :: 0 <= i < |items| ==> ItemOf(data, fromOffset, i) == Some(items[i]) && items[i].id == fromOffset + RecordSize * i
  {
    RecordsEach(ItemReader(data), RecordSize, fromOffset, toOffset);
    var items := Parse(data, fromOffset, toOffset).value;
    forall i | 0 <= i < |items|
      ensures ItemOf(data, fromOffset, i) == Some(items[i]) && items[i].id == fromOffset + RecordSize * i
    {
      assert At(ItemReader(data), RecordSize, fromOffset, i) == ItemOf(data, fromOffset, i);
    }
  }

  /** The parse succeeds exactly when every visited record can be read. */
  lemma ParseSucceeds(data: seq<Byte>, fromOffset: nat, toOffset: nat)
    ensures Parse(data, fromOffset, toOffset).Some? <==>
              forall i :: 0 <= i < Count(RecordSize, fromOffset, toOffset) ==> ItemOf(data, fromOffset, i).Some?
  {
    RecordsEach(ItemReader(data), RecordSize, fromOffset, toOffset);
    forall i | 0 <= i < Count(RecordSize, fromOffset, toOffset)
      ensures At(ItemReader(data), RecordSize, fromOffset, i) == ItemOf(data, fromOffset, i)
    {
    }
  }

  /** Consecutive items lie one record apart, so the ids strictly increase. */
  lemma ItemIdsStep(data: seq<Byte>, fromOffset: nat, toOffset: nat)
    requires Parse(data, fromOffset, toOffset).Some?
    ensures var items := Parse(data, fromOffset, toOffset).value;
            forall i :: 0 <= i < |items| - 1 ==> items[i + 1].id == items[i].id + RecordSize
  {
    ParsedItems(data, fromOffset, toOffset);
  }

  /** The loop of `Item.parse`: one record per iteration while the position has
      not passed `toOffset`. */
  method ParseItems(data: seq<Byte>, fromOffset: nat, toOffset: nat) returns (items: Option<seq<Item>>)
    ensures items == Parse(data, fromOffset, toOffset)
  {
    var reader := new Reader(data);
    var found: seq<Item> := [];
    reader.pos := fromOffset;
    PrefixedNothing(Parse(data, fromOffset, toOffset));
    while reader.pos <= toOffset
      invariant Parse(data, fromOffset, toOffset) == Prefixed(found, Parse(data, reader.pos, toOffset))
      decreases toOffset + 1 - reader.pos
    {
      ghost var at := reader.pos;
      var item := ReadItem(reader);
      if item.None? {
        return None;
      }
      RecordsStep(ItemReader(data), RecordSize, at, toOffset, found, item.value);
      found := found + [item.value];
    }
    items := Some(found);
    assert found + [] == found;
  }

  /** The body of the loop: the record at the position, which moves past it. */
  method ReadItem(reader: Reader) returns (item: Option<Item>)
    modifies reader
    ensures item == ItemAt(reader.buffer, old(reader.pos))
    ensures item.Some? ==> reader.pos == old(reader.pos) + RecordSize
  {
    var id := reader.pos;
    var pointer := reader.Read();
    if pointer.None? {
      return None;
    }
    var name := reader.ReadPStringAt(pointer.value as nat * 2);
    if name.None? {
      return None;
    }
    pointer := reader.Read();
    if pointer.None? {
      return None;
    }
    var description := reader.ReadPStringAt(pointer.value as nat * 2);
    if description.None? {
      return None;
    }
    var location := reader.Read();
    if location.None? {
      return None;
    }
    var fn := reader.Read();
    if fn.None? {
      return None;
    }
    item := Some(Item(id, name.value, description.value, location.value as nat * 2, fn.value));
  }
}
