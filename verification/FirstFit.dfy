/** The first-fit scan over an allocation table, which both versions repeat for
    inodes, data blocks and open-file entries. */
module FirstFit {
  import opened Config

  function FirstFreeFrom(ts: seq<Alloc>, i: nat): (r: int)
    requires i <= |ts|
    ensures r == -1 ==> forall k :: i <= k < |ts| ==> ts[k] == TAKEN
    ensures r != -1 ==> i <= r < |ts| && ts[r] == FREE && forall k :: i <= k < r ==> ts[k] == TAKEN
    decreases |ts| - i
  {
    if i == |ts| then -1
    else match ts[i]
      case FREE => i
      case TAKEN => FirstFreeFrom(ts, i + 1)
  }

  function FirstFree(ts: seq<Alloc>): (r: int)
    ensures r == -1 <==> FREE !in ts
    ensures r != -1 ==> 0 <= r < |ts| && ts[r] == FREE && forall k :: 0 <= k < r ==> ts[k] == TAKEN
  {
    FirstFreeFrom(ts, 0)
  }

  function FreeCount(ts: seq<Alloc>): nat { multiset(ts)[FREE] }

  // A slot is found exactly when one is free.
  lemma FreeCountZero(ts: seq<Alloc>)
    ensures FreeCount(ts) == 0 <==> FirstFree(ts) == -1
  {}

  lemma FreeCountUpdate(ts: seq<Alloc>, b: nat, v: Alloc)
    requires b < |ts|
    ensures FreeCount(ts[b := v]) ==
            FreeCount(ts) - (if ts[b] == FREE then 1 else 0) + (if v == FREE then 1 else 0)
  {}

  // The loop of data_block_alloc, inode_create and add_to_open_file_table.
  method TakeFirst(ts: array<Alloc>) returns (r: int)
    modifies ts
    ensures r == FirstFree(old(ts[..]))
    ensures ts[..] == if r == -1 then old(ts[..]) else old(ts[..])[r := TAKEN]
  {
    for i := 0 to ts.Length
      invariant ts[..] == old(ts[..])
      invariant forall k :: 0 <= k < i ==> ts[k] == TAKEN
    {
      if ts[i] == FREE {
        ts[i] := TAKEN;
        return i;
      }
    }
    return -1;
  }
}
