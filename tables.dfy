/** The loop shared by `Item.parse` and `Location.parse`: fixed-size records read
    one after another from `fromOffset` while the position has not passed
    `toOffset`. The record reader is a parameter, so what is proved here holds
    for both tables. */
module Tables {

  import opened Wrappers
  import Arithmetic

  /** How many records of `size` bytes the loop visits: those starting at
      `fromOffset`, `fromOffset + size`, ... up to and including `toOffset`. */
  function Count(size: nat, fromOffset: nat, toOffset: nat): nat
    requires size > 0
    decreases toOffset + 1 - fromOffset
  {
    if fromOffset > toOffset then 0 else Count(size, fromOffset + size, toOffset) + 1
  }

  /** The count in closed form. */
  lemma {:induction false} CountClosed(size: nat, fromOffset: nat, toOffset: nat)
    requires size > 0
    ensures Count(size, fromOffset, toOffset) == if fromOffset <= toOffset then (toOffset - fromOffset) / size + 1 else 0
    decreases toOffset + 1 - fromOffset
  {
    if fromOffset <= toOffset {
      var next := fromOffset + size;
      CountClosed(size, next, toOffset);
      if next <= toOffset {
        DivStep(toOffset - next, size);
      }
    }
  }

  lemma DivStep(n: nat, size: nat)
    requires size > 0
    ensures (n + size) / size == n / size + 1
  {
    var q, r := n / size, n % size;
    assert n + size == (q + 1) * size + r;
    Arithmetic.DivModUnique(n + size, size, q + 1, r);
  }

  /** Every visited record starts at or before `toOffset`. */
  lemma {:induction false} AtWithin(size: nat, fromOffset: nat, toOffset: nat, i: nat)
    requires size > 0 && i < Count(size, fromOffset, toOffset)
    ensures fromOffset + size * i <= toOffset
    decreases i
  {
    if i > 0 {
      AtWithin(size, fromOffset + size, toOffset, i - 1);
      assert fromOffset + size + size * (i - 1) == fromOffset + size * i;
    }
  }

  /** Record `i` of the table at `fromOffset`. */
  function At<T>(read: nat -> Option<T>, size: nat, fromOffset: nat, i: nat): Option<T>
  {
    read(fromOffset + size * i)
  }

  /** The records in order; the first that cannot be read fails the lot. */
  function Records<T>(read: nat -> Option<T>, size: nat, fromOffset: nat, toOffset: nat): Option<seq<T>>
    requires size > 0
    decreases toOffset + 1 - fromOffset
  {
    if fromOffset > toOffset then Some([])
    else
      match read(fromOffset)
      case None => None
      case Some(record) =>
        match Records(read, size, fromOffset + size, toOffset)
        case None => None
        case Some(rest) => Some([record] + rest)
  }

  /** The table is read exactly when every visited record is, and then record
      `i` of the result is the one at `fromOffset + size * i`. */
  lemma {:induction false} RecordsEach<T>(read: nat -> Option<T>, size: nat, fromOffset: nat, toOffset: nat)
    requires size > 0
    ensures Records(read, size, fromOffset, toOffset).Some? <==>
              forall i :: 0 <= i < Count(size, fromOffset, toOffset) ==> At(read, size, fromOffset, i).Some?
    ensures Records(read, size, fromOffset, toOffset).Some? ==>
              |Records(read, size, fromOffset, toOffset).value| == Count(size, fromOffset, toOffset) &&
              forall i :: 0 <= i < Count(size, fromOffset, toOffset) ==>
                At(read, size, fromOffset, i) == Some(Records(read, size, fromOffset, toOffset).value[i])
    decreases toOffset + 1 - fromOffset
  {
    if fromOffset <= toOffset {
      var next := fromOffset + size;
      RecordsEach(read, size, next, toOffset);
      assert At(read, size, fromOffset, 0) == read(fromOffset);
      forall i | 0 < i < Count(size, fromOffset, toOffset)
        ensures At(read, size, fromOffset, i) == At(read, size, next, i - 1)
      {
        assert next + size * (i - 1) == fromOffset + size * i;
      }
      if Records(read, size, fromOffset, toOffset).Some? {
        var all := Records(read, size, fromOffset, toOffset).value;
        var rest := Records(read, size, next, toOffset).value;
        assert all == [all[0]] + rest;
        forall i | 0 < i < Count(size, fromOffset, toOffset)
          ensures At(read, size, fromOffset, i) == Some(all[i])
        {
          assert all[i] == rest[i - 1];
        }
      } else if read(fromOffset).Some? {
        var i :| 0 <= i < Count(size, next, toOffset) && At(read, size, next, i).None?;
        assert At(read, size, fromOffset, i + 1).None?;
      }
    }
  }

  /** `Some(prefix + rest)` when the rest was read. */
  function Prefixed<T>(prefix: seq<T>, rest: Option<seq<T>>): Option<seq<T>>
  {
    match rest
    case None => None
    case Some(records) => Some(prefix + records)
  }

  lemma PrefixedNothing<T>(rest: Option<seq<T>>)
    ensures Prefixed([], rest) == rest
  {
    if rest.Some? {
      assert [] + rest.value == rest.value;
    }
  }

  /** One step of the loop: the records found so far grow by the one just read. */
  lemma RecordsStep<T>(read: nat -> Option<T>, size: nat, fromOffset: nat, toOffset: nat, found: seq<T>, record: T)
    requires size > 0 && fromOffset <= toOffset && read(fromOffset) == Some(record)
    ensures Prefixed(found, Records(read, size, fromOffset, toOffset)) ==
              Prefixed(found + [record], Records(read, size, fromOffset + size, toOffset))
  {
    var rest := Records(read, size, fromOffset + size, toOffset);
    if rest.Some? {
      assert found + ([record] + rest.value) == (found + [record]) + rest.value;
    }
  }

  /** The loop stops at the first record it cannot read, and the whole read fails. */
  lemma RecordsStop<T>(read: nat -> Option<T>, size: nat, fromOffset: nat, toOffset: nat)
    requires size > 0 && fromOffset <= toOffset && read(fromOffset).None?
    ensures Records(read, size, fromOffset, toOffset).None?
  {
  }
}
