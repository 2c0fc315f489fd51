/** The next-hop index allocator: a free list threaded through an array, and a reference count
    for every index. */
module NextHopList {

  const CTF_MAX_NEXTHOP_TABLE_INDEX: nat := 128

  /** free_idx takes this value when no index is free. */
  const NHOP_FULL: nat := CTF_MAX_NEXTHOP_TABLE_INDEX

  /** `ref` is an array of 16-bit counters. */
  const REF_LIMIT: nat := 0x1_0000

  /** next_hop_t. */
  datatype NextHops = NextHops(flist: seq<nat>, freeIdx: nat, refs: seq<nat>)

  /** What every operation may rely on to stay inside the arrays. */
  predicate InBounds(n: NextHops) {
    && |n.flist| == NHOP_FULL && |n.refs| == NHOP_FULL && n.freeIdx <= NHOP_FULL
    && (forall i :: 0 <= i < NHOP_FULL ==> n.flist[i] <= NHOP_FULL)
    && (forall i :: 0 <= i < NHOP_FULL ==> n.refs[i] < REF_LIMIT)
  }

  /** fa_reset_next_hop_tbl. */
  function Reset(): (n: NextHops)
    ensures InBounds(n)
  {
    NextHops(seq(NHOP_FULL, i requires 0 <= i < NHOP_FULL => i + 1), 0, seq(NHOP_FULL, _ => 0))
  }

  /** GETNEXT_NHIDX: the index handed out is the old free_idx. */
  function GetNext(n: NextHops): (r: NextHops)
    requires InBounds(n) && n.freeIdx != NHOP_FULL
    ensures InBounds(r)
  {
    n.(freeIdx := n.flist[n.freeIdx], flist := n.flist[n.freeIdx := 0])
  }

  /** PUTNEXT_NHIDX.  With an exhausted list free_idx becomes i before it is stored in flist[i]. */
  function PutNext(n: NextHops, i: nat): (r: NextHops)
    requires InBounds(n) && i < NHOP_FULL
    ensures InBounds(r)
  {
    var head := if n.freeIdx == NHOP_FULL then i else n.freeIdx;
    n.(flist := n.flist[i := head], freeIdx := i)
  }

  function Ref(n: NextHops, i: nat): (r: NextHops)
    requires InBounds(n) && i < NHOP_FULL
    ensures InBounds(r)
  {
    n.(refs := n.refs[i := if n.refs[i] + 1 == REF_LIMIT then 0 else n.refs[i] + 1])
  }

  /** `if (ref) ref--`. */
  function Unref(n: NextHops, i: nat): (r: NextHops)
    requires InBounds(n) && i < NHOP_FULL
    ensures InBounds(r)
  {
    if n.refs[i] == 0 then n else n.(refs := n.refs[i := n.refs[i] - 1])
  }

  // ------------------------------------------------------------------ what the list means

  /** `free` is the chain from free_idx through flist: it visits no index twice and ends at
      NHOP_FULL. */
  ghost predicate FreeChain(n: NextHops, free: seq<nat>)
    ensures FreeChain(n, free) ==> InBounds(n)
  {
    && InBounds(n)
    && (forall k :: 0 <= k < |free| ==> free[k] < NHOP_FULL)
    && Distinct(free)
    && n.freeIdx == Next(free, 0)
    && (forall k :: 0 <= k < |free| ==> n.flist[free[k]] == Next(free, k + 1))
  }

  function Next(free: seq<nat>, k: nat): nat {
    if k < |free| then free[k] else NHOP_FULL
  }

  /** The chain holds exactly the indices nobody refers to; the others have a clean flist cell. */
  ghost predicate Partition(n: NextHops, free: seq<nat>) {
    && FreeChain(n, free)
    && (forall i: nat :: i < NHOP_FULL ==> (n.refs[i] == 0 <==> i in free))
    && (forall i: nat :: i < NHOP_FULL && i !in free ==> n.flist[i] == 0)
  }

  ghost predicate Partitioned(n: NextHops) {
    exists free: seq<nat> :: Partition(n, free)
  }

  function Upto(lo: nat, hi: nat): (s: seq<nat>)
    requires lo <= hi
    ensures |s| == hi - lo && forall k :: 0 <= k < |s| ==> s[k] == lo + k
  {
    seq(hi - lo, k requires 0 <= k < hi - lo => lo + k)
  }

  lemma ResetIsPartitioned()
    ensures Partition(Reset(), Upto(0, NHOP_FULL))
  {
    var free := Upto(0, NHOP_FULL);
    forall i: nat | i < NHOP_FULL ensures i in free {
      assert free[i] == i;
    }
  }

  ghost predicate Distinct(free: seq<nat>) {
    forall j, k :: 0 <= j < k < |free| ==> free[j] != free[k]
  }

  lemma TailMembers(free: seq<nat>)
    requires free != [] && Distinct(free)
    ensures forall k :: k in free[1..] <==> k in free && k != free[0]
    ensures Distinct(free[1..])
  {
    var rest := free[1..];
    forall k | k in free && k != free[0] ensures k in rest {
      var j :| 0 <= j < |free| && free[j] == k;
      assert rest[j - 1] == k;
    }
  }

  lemma GetKeepsChain(n: NextHops, free: seq<nat>)
    requires FreeChain(n, free) && n.freeIdx != NHOP_FULL
    ensures free != [] && n.freeIdx == free[0]
    ensures FreeChain(GetNext(n), free[1..])
  {
    var r, rest := GetNext(n), free[1..];
    assert free != [];
    TailMembers(free);
    forall k | 0 <= k < |rest| ensures r.flist[rest[k]] == Next(rest, k + 1) {
      assert rest[k] == free[k + 1];
    }
  }

  /** Handing out an index takes the head off the chain. */
  lemma GetKeepsPartition(n: NextHops, free: seq<nat>)
    requires Partition(n, free) && n.freeIdx != NHOP_FULL
    ensures free != [] && n.freeIdx == free[0] && n.refs[n.freeIdx] == 0
    ensures Partition(Ref(GetNext(n), n.freeIdx), free[1..])
  {
    GetKeepsChain(n, free);
    TailMembers(free);
    var i := n.freeIdx;
    assert i in free;
    var g := GetNext(n);
    RefKeepsChain(g, free[1..], i);
    hide FreeChain;
  }

  lemma RefKeepsChain(n: NextHops, free: seq<nat>, i: nat)
    requires FreeChain(n, free) && i < NHOP_FULL
    ensures FreeChain(Ref(n, i), free)
  {
  }

  /** One more reference to an index that has some already. */
  lemma RefKeepsPartition(n: NextHops, free: seq<nat>, i: nat)
    requires Partition(n, free) && i < NHOP_FULL && 0 < n.refs[i] < REF_LIMIT - 1
    ensures Partition(Ref(n, i), free)
  {
    RefKeepsChain(n, free, i);
  }

  /** One reference less, when it is not the last. */
  lemma UnrefKeepsPartition(n: NextHops, free: seq<nat>, i: nat)
    requires Partition(n, free) && i < NHOP_FULL && n.refs[i] > 1
    ensures Partition(Unref(n, i), free)
  {
  }

  lemma PutKeepsChain(n: NextHops, free: seq<nat>, i: nat)
    requires FreeChain(n, free) && i < NHOP_FULL && i !in free && n.freeIdx != NHOP_FULL
    ensures FreeChain(PutNext(n, i), [i] + free)
  {
    var r := PutNext(n, i);
    var free' := [i] + free;
    assert free != [] && Next(free', 1) == free[0];
    forall k | 0 <= k < |free'| ensures r.flist[free'[k]] == Next(free', k + 1) {
      if k > 0 {
        assert free'[k] == free[k - 1] && free[k - 1] in free;
      }
    }
  }

  lemma UnrefKeepsChain(n: NextHops, free: seq<nat>, i: nat)
    requires FreeChain(n, free) && i < NHOP_FULL
    ensures FreeChain(Unref(n, i), free)
  {
  }

  /** The last reference goes: the index becomes the head of the chain, if there is a chain. */
  lemma PutKeepsPartition(n: NextHops, free: seq<nat>, i: nat)
    requires Partition(n, free) && i < NHOP_FULL && n.refs[i] == 1 && n.freeIdx != NHOP_FULL
    ensures Partition(PutNext(Unref(n, i), i), [i] + free)
  {
    UnrefKeepsChain(n, free, i);
    PutKeepsChain(Unref(n, i), free, i);
    hide FreeChain;
  }

  /** With an exhausted list the put stores i in its own cell: there is no chain any more. */
  lemma PutOnFullLoops(n: NextHops, i: nat)
    requires InBounds(n) && i < NHOP_FULL && n.freeIdx == NHOP_FULL
    ensures var r := PutNext(n, i);
            && r.freeIdx == i && r.flist[i] == i
            && !Partitioned(r)
            && (forall free: seq<nat> :: !FreeChain(r, free))
  {
    var r := PutNext(n, i);
    forall free: seq<nat> ensures !FreeChain(r, free) {
      NotAChain(r, i, free);
    }
  }

  lemma NotAChain(n: NextHops, i: nat, free: seq<nat>)
    requires InBounds(n) && i < NHOP_FULL && n.freeIdx == i && n.flist[i] == i
    ensures !FreeChain(n, free)
  {
  }

  /** Exactly when giving back the last reference keeps the list a list: when it was not
      exhausted. */
  lemma PutKeepsPartitionIff(n: NextHops, i: nat)
    requires Partitioned(n) && i < NHOP_FULL && n.refs[i] == 1
    ensures Partitioned(PutNext(Unref(n, i), i)) <==> n.freeIdx != NHOP_FULL
  {
    var free :| Partition(n, free);
    if n.freeIdx != NHOP_FULL {
      PutKeepsPartition(n, free, i);
    } else {
      PutOnFullLoops(Unref(n, i), i);
    }
  }

  lemma {:induction false} ChainUnique(n: NextHops, a: seq<nat>, b: seq<nat>, k: nat)
    requires FreeChain(n, a) && FreeChain(n, b) && k <= |a|
    ensures k <= |b| && Next(a, k) == Next(b, k)
  {
    hide InBounds, Distinct;
    if k > 0 {
      ChainUnique(n, a, b, k - 1);
      assert a[k - 1] < NHOP_FULL;
      assert b[k - 1] == a[k - 1];
    }
  }

  lemma SameChain(n: NextHops, a: seq<nat>, b: seq<nat>)
    requires FreeChain(n, a) && FreeChain(n, b)
    ensures a == b
  {
    hide InBounds, Distinct;
    ChainUnique(n, a, b, |a|);
    ChainUnique(n, b, a, |b|);
    forall k | 0 <= k < |a| ensures a[k] == b[k] {
      ChainUnique(n, a, b, k);
    }
  }

  /** Referring to an index without taking it off the list. */
  lemma RefOfFreeBreaks(n: NextHops, i: nat)
    requires Partitioned(n) && i < NHOP_FULL && n.refs[i] == 0
    ensures !Partitioned(Ref(n, i))
  {
    hide FreeChain;
    var free :| Partition(n, free);
    assert i in free;
    RefKeepsChain(n, free, i);
    var r := Ref(n, i);
    forall b: seq<nat> | FreeChain(r, b) ensures !Partition(r, b) {
      SameChain(r, free, b);
    }
  }

  /** A new reference keeps the partition exactly when the index has one already and the counter
      does not go round. */
  lemma RefKeepsPartitionIff(n: NextHops, i: nat)
    requires Partitioned(n) && i < NHOP_FULL
    ensures Partitioned(Ref(n, i)) <==> 0 < n.refs[i] < REF_LIMIT - 1
  {
    hide FreeChain;
    var free :| Partition(n, free);
    if n.refs[i] == 0 {
      RefOfFreeBreaks(n, i);
    } else if n.refs[i] < REF_LIMIT - 1 {
      RefKeepsPartition(n, free, i);
    } else {
      RefKeepsChain(n, free, i);
      NotInChain(Ref(n, i), free, i);
    }
  }

  /** An index that nobody refers to and that is not on the list. */
  lemma NotInChain(n: NextHops, free: seq<nat>, i: nat)
    requires FreeChain(n, free) && i < NHOP_FULL && i !in free && n.refs[i] == 0
    ensures !Partitioned(n)
  {
    hide FreeChain;
    forall b: seq<nat> | FreeChain(n, b) ensures !Partition(n, b) {
      SameChain(n, free, b);
    }
  }

  /** Dropping the last reference without putting the index back on the list. */
  lemma UnrefLastBreaks(n: NextHops, i: nat)
    requires Partitioned(n) && i < NHOP_FULL && n.refs[i] == 1
    ensures !Partitioned(Unref(n, i))
  {
    hide FreeChain;
    var free :| Partition(n, free);
    UnrefKeepsChain(n, free, i);
    NotInChain(Unref(n, i), free, i);
  }

  // ------------------------------------------------------------------ the self-loop, step by step

  function GetMany(n: NextHops, count: nat): (r: NextHops)
    requires InBounds(n) && n.freeIdx + count <= NHOP_FULL
    requires forall k :: n.freeIdx <= k < NHOP_FULL ==> n.flist[k] == k + 1
    ensures InBounds(r) && r.freeIdx == n.freeIdx + count
    decreases count
  {
    if count == 0 then n else GetMany(GetNext(n), count - 1)
  }

  /** From reset, 128 allocations exhaust the list; free index 5 and the next two allocations
      both hand out index 5. */
  lemma SelfLoopExample()
    ensures var full := GetMany(Reset(), NHOP_FULL);
            && full.freeIdx == NHOP_FULL
            && var freed := PutNext(full, 5);
               freed.freeIdx == 5 && GetNext(freed).freeIdx == 5
  {
  }
}
