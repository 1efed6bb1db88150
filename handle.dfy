/**
 * Handles that identify active equipment entries, and the process-wide
 * counter that issues them.
 */
module ActiveEquipmentHandle {

  /** The engine's "no index" sentinel, held by a handle that was never generated. */
  const INDEX_NONE: int := -1

  /** The value type: one integer; equality, validity and hash look at nothing else. */
  datatype Handle = Handle(id: int)
  {
    /** True once a handle was generated into this value. */
    predicate IsValid()
    {
      id != INDEX_NONE
    }
  }

  /** A default-constructed handle holds the sentinel. */
  function DefaultHandle(): (h: Handle)
    ensures !h.IsValid()
  {
    Handle(INDEX_NONE)
  }

  /** The hash of a handle is the hash of its integer: the int32 reinterpreted as uint32. */
  function GetTypeHash(h: Handle): (r: int)
    ensures 0 <= r < 0x1_0000_0000
    ensures 0 <= h.id < 0x1_0000_0000 ==> r == h.id
    ensures -0x8000_0000 <= h.id < 0 ==> r == h.id + 0x1_0000_0000
  {
    h.id % 0x1_0000_0000
  }

  /** The handles that `n` successive generations starting from counter value `start` issue. */
  function Issued(start: int, n: nat): (hs: seq<Handle>)
    ensures |hs| == n
    decreases n
  {
    if n == 0 then [] else [Handle(start)] + Issued(start + 1, n - 1)
  }

  /** The k-th issued handle carries the counter value start + k. */
  lemma {:induction false} IssuedAt(start: int, n: nat, k: nat)
    requires k < n
    ensures Issued(start, n)[k] == Handle(start + k)
    decreases n
  {
    if k > 0 {
      IssuedAt(start + 1, n - 1, k - 1);
    }
  }

  /**
   * From the initial counter value 1 on, every issued handle is valid, the
   * handles strictly increase and no two of them are equal.
   */
  lemma IssuedHandlesFreshAndValid(start: int, n: nat)
    requires start >= 1
    ensures forall k :: 0 <= k < n ==> Issued(start, n)[k].IsValid() && Issued(start, n)[k].id >= 1
    ensures forall j, k :: 0 <= j < k < n ==> Issued(start, n)[j].id < Issued(start, n)[k].id
    ensures forall j, k :: 0 <= j < k < n ==> Issued(start, n)[j] != Issued(start, n)[k]
  {
    forall k | 0 <= k < n
      ensures Issued(start, n)[k] == Handle(start + k)
    {
      IssuedAt(start, n, k);
    }
  }

  /**
   * The static counter behind `GenerateNewHandle`: one per process, starting at 1.
   * `next` is the value the next call hands out.
   */
  class HandleAllocator {
    var next: int

    ghost predicate Valid()
      reads this
    {
      next >= 1
    }

    constructor ()
      ensures Valid() && next == 1
    {
      next := 1;
    }

    /** Hands out the current counter value, then increments the counter. */
    method GenerateNewHandle() returns (h: Handle)
      requires Valid()
      modifies this
      ensures Valid()
      ensures h == Handle(old(next)) && next == old(next) + 1
      ensures h.IsValid() && h.id >= 1 && h.id < next
    {
      h := Handle(next);
      next := next + 1;
    }
  }
}
