/** `Exit.parse` of src/Analyzer/entities/Exit.mjs: the exits of a location, read
    from a table of label pointers and a table of target pointers. A failed read
    or a target count that differs from the label count makes the source throw;
    here the parse gives `None`. */
module Exits {

  import opened Wrappers
  import opened Constants
  import opened Reading

  /** An exit: its index, its label (`name` here, as `label` is a keyword of
      Dafny), the word the player types, and the byte offset of the location it
      leads to. */
  datatype Exit = Exit(id: nat, name: Text, target: nat)

  /** The string behind pointer `i` of the table at `offset`. */
  function LabelOf(data: seq<Byte>, offset: nat, i: nat): Option<Text>
  {
    PStringBehind(data, offset + 2 * i)
  }

  /** The labels of the `count` pointers of the table at `offset`, read in order.
      They are all there exactly when each one is. */
  function Labels(data: seq<Byte>, count: nat, offset: nat): (r: Option<seq<Text>>)
    ensures r.Some? <==> forall i :: 0 <= i < count ==> LabelOf(data, offset, i).Some?
    ensures r.Some? ==> |r.value| == count && forall i :: 0 <= i < count ==> LabelOf(data, offset, i) == Some(r.value[i])
  {
    if count == 0 then Some([])
    else
      match Labels(data, count - 1, offset)
      case None => None
      case Some(front) =>
        match LabelOf(data, offset, count - 1)
        case None => None
        case Some(caption) => Some(front + [caption])
  }

  /** `Exit.parse(data, namesOffset, targetOffset)`. */
  function Parse(data: seq<Byte>, namesOffset: nat, targetOffset: nat): Option<seq<Exit>>
  {
    match WordAt(data, namesOffset)
    case None => None
    case Some(count) =>
      match Labels(data, count, namesOffset + 2)
      case None => None
      case Some(labels) => WithTargets(data, targetOffset, labels)
  }

  /** The second half of the parse: a target table as long as the labels, whose
      words give the targets. */
  function WithTargets(data: seq<Byte>, targetOffset: nat, labels: seq<Text>): Option<seq<Exit>>
  {
    if WordAt(data, targetOffset) != Some(|labels|) then None
    else
      match WordsAt(data, |labels|, targetOffset + 2)
      case None => None
      case Some(targets) => Some(Joined(labels, targets))
  }

  /** The exits with the given labels and target words: exit i gets id i and a
      target of twice its word. */
  function Joined(labels: seq<Text>, targets: seq<U16>): (exits: seq<Exit>)
    requires |labels| == |targets|
    ensures |exits| == |labels|
  {
    seq(|labels|, i requires 0 <= i < |labels| => Exit(i, labels[i], targets[i] as nat * 2))
  }

  /** What a successful parse holds: as many exits as the first word says, ids
      0, 1, ... in order, label i behind pointer i of the names table, and target
      i twice word i of the targets table. */
  lemma ParsedExits(data: seq<Byte>, namesOffset: nat, targetOffset: nat)
    requires Parse(data, namesOffset, targetOffset).Some?
    ensures var exits := Parse(data, namesOffset, targetOffset).value;
            WordAt(data, namesOffset) == Some(|exits|) &&
            forall i :: 0 <= i < |exits| ==>
              exits[i].id == i &&
              LabelOf(data, namesOffset + 2, i) == Some(exits[i].name) &&
              WordOf(data, targetOffset + 2, i) == Some(exits[i].target / 2) &&
              exits[i].target % 2 == 0
  {
    WordsAtEach(data, WordAt(data, namesOffset).value, targetOffset + 2);
  }

  /** The parse succeeds exactly when every read succeeds and the two tables
      have the same length. */
  lemma ParseSucceeds(data: seq<Byte>, namesOffset: nat, targetOffset: nat)
    ensures Parse(data, namesOffset, targetOffset).Some? <==>
              WordAt(data, namesOffset).Some? &&
              Labels(data, WordAt(data, namesOffset).value, namesOffset + 2).Some? &&
              WordAt(data, targetOffset) == WordAt(data, namesOffset) &&
              WordsAt(data, WordAt(data, namesOffset).value, targetOffset + 2).Some?
  {
  }

  /** A target table whose length word differs from the label count fails the
      parse. */
  lemma CountMismatch(data: seq<Byte>, namesOffset: nat, targetOffset: nat)
    requires WordAt(data, targetOffset) != WordAt(data, namesOffset)
    ensures Parse(data, namesOffset, targetOffset).None?
  {
  }

  /** The two loops of `Exit.parse` over one reader: the labels first, then the
      targets. */
  method ParseExits(data: seq<Byte>, namesOffset: nat, targetOffset: nat) returns (exits: Option<seq<Exit>>)
    ensures exits == Parse(data, namesOffset, targetOffset)
  {
    var reader := new Reader(data);
    reader.pos := namesOffset;
    var count := reader.Read();
    if count.None? {
      return None;
    }
    var labels := ReadLabels(reader, count.value);
    if labels.None? {
      return None;
    }
    assert labels == Labels(data, count.value, namesOffset + 2);
    exits := AttachTargets(reader, targetOffset, labels.value);
  }

  /** The second half of `Exit.parse`: checks the length of the target table and
      gives each exit its target. */
  method AttachTargets(reader: Reader, targetOffset: nat, labels: seq<Text>) returns (exits: Option<seq<Exit>>)
    modifies reader
    ensures exits == WithTargets(reader.buffer, targetOffset, labels)
  {
    reader.pos := targetOffset;
    var length := reader.Read();
    if length != Some(|labels|) {
      return None;
    }
    var targets := ReadTargets(reader, |labels|);
    if targets.None? {
      return None;
    }
    exits := Some(Joined(labels, targets.value));
  }

  /** `for (const exit of exits) exit.label = reader.readPStringAt(reader.read() * 2)`. */
  method ReadLabels(reader: Reader, count: nat) returns (labels: Option<seq<Text>>)
    modifies reader
    ensures labels == Labels(reader.buffer, count, old(reader.pos))
    ensures labels.Some? ==> reader.pos == old(reader.pos) + 2 * count
  {
    ghost var start := reader.pos;
    var found: seq<Text> := [];
    var i := 0;
    while i < count
      invariant 0 <= i <= count
      invariant reader.pos == start + 2 * i
      invariant |found| == i && forall j :: 0 <= j < i ==> LabelOf(reader.buffer, start, j) == Some(found[j])
    {
      var pointer := reader.Read();
      if pointer.None? {
        assert LabelOf(reader.buffer, start, i).None?;
        return None;
      }
      var caption := reader.ReadPStringAt(pointer.value as nat * 2);
      if caption.None? {
        assert LabelOf(reader.buffer, start, i).None?;
        return None;
      }
      found := found + [caption.value];
      i := i + 1;
    }
    assert Labels(reader.buffer, count, start).value == found;
    labels := Some(found);
  }

  /** `for (const exit of exits) exit.target = reader.read() * 2`, before the
      doubling. */
  method ReadTargets(reader: Reader, count: nat) returns (targets: Option<seq<U16>>)
    modifies reader
    ensures targets == WordsAt(reader.buffer, count, old(reader.pos))
  {
    ghost var start := reader.pos;
    WordsAtEach(reader.buffer, count, start);
    var found: seq<U16> := [];
    var i := 0;
    while i < count
      invariant 0 <= i <= count
      invariant reader.pos == start + 2 * i
      invariant |found| == i && forall j :: 0 <= j < i ==> WordOf(reader.buffer, start, j) == Some(found[j])
    {
      var target := reader.Read();
      if target.None? {
        assert WordOf(reader.buffer, start, i).None?;
        return None;
      }
      found := found + [target.value];
      i := i + 1;
    }
    assert WordsAt(reader.buffer, count, start).value == found;
    targets := Some(found);
  }
}
