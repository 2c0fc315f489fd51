/** The first addition after the start, access by access, and what a second one then finds. */
module FlowCacheStart {
  import opened FlowKey
  import opened FlowRows
  import opened NextHopList
  import opened Options
  import opened FlowCache
  import opened FlowCacheIndex
  import opened FlowCacheRuns
  import opened FlowCacheReferences
  import opened FlowCacheAgreement
  import opened FlowCacheExact

  /** Nothing but the tables can stand in the way of this request. */
  predicate Plain(q: Request) {
    q.devsOn && !q.v6 && !q.ppp && q.memory && q.dhost != ZERO_MAC && q.shost != ZERO_MAC
  }

  /** The accesses from number a on and before b are carried out in time. */
  ghost predicate DoneBetween(io: nat -> Access, a: nat, b: nat) {
    forall t :: a <= t < b ==> io(t) == Done
  }

  /** All accesses are carried out in time. */
  function InTime(t: nat): Access {
    Done
  }

  /** Looking for an address that no row holds reads all rows. */
  lemma {:induction false} ProbeMiss(hw: Hw, mac: Mac, idx: nat)
    requires HwShape(hw) && idx <= NHOP_FULL && DoneBetween(hw.io, hw.tick, hw.tick + NHOP_FULL - idx)
    requires forall i :: 0 <= i < NHOP_FULL ==> NhDa(hw.nh[i]) != mac
    ensures ProbeHops(hw, mac, idx) == (Absent, hw.(tick := hw.tick + NHOP_FULL - idx))
    decreases NHOP_FULL - idx
  {
    hide NhDa;
    if idx < NHOP_FULL {
      ProbeMiss(Tick(hw), mac, idx + 1);
    }
  }

  lemma {:induction false} PoolMiss(hw: Hw, mac: Mac, external: bv32, idx: nat)
    requires HwShape(hw) && idx <= CTF_MAX_POOL_TABLE_INDEX
    requires DoneBetween(hw.io, hw.tick, hw.tick + CTF_MAX_POOL_TABLE_INDEX - idx)
    requires forall i :: 0 <= i < CTF_MAX_POOL_TABLE_INDEX ==> NpSa(hw.np[i]) != mac
    ensures ProbePool(hw, mac, external, idx) == (Absent, hw.(tick := hw.tick + CTF_MAX_POOL_TABLE_INDEX - idx))
    decreases CTF_MAX_POOL_TABLE_INDEX - idx
  {
    hide NpSa, NpExternal;
    if idx < CTF_MAX_POOL_TABLE_INDEX {
      PoolMiss(Tick(hw), mac, external, idx + 1);
    }
  }

  lemma ZeroPoolMac()
    ensures NpSa(ZERO_POOL) == ZERO_MAC
  {
  }

  /** At the start nothing is cached, so there is no index to start from but 0. */
  lemma InitStart(io: nat -> Access, mac: Mac)
    ensures StartIndex(Init(io), mac) == 0 && AsMap(Init(io)) == map[] && (forall f :: !InCache(Init(io), f))
  {
    InitIndexed(io);
    hide Hash;
    CachedHopMeans(Init(io), mac);
    assert forall f :: !InCache(Init(io), f);
    forall key ensures key !in AsMap(Init(io)) {
      AsMapIsLookup(Init(io), key);
    }
  }

  /** Looking for a next hop takes 128 reads and finds none. */
  lemma InitProbe(io: nat -> Access, mac: Mac)
    requires DoneBetween(io, 0, NHOP_FULL) && mac != ZERO_MAC
    ensures FindNhop(Init(io), mac) == (Absent, Init(io).hw.(tick := NHOP_FULL))
  {
    InitStart(io, mac);
    ZeroHopMac();
    hide NhDa, StartIndex, AsMap, InCache;
    ProbeMiss(Init(io).hw, mac, 0);
  }

  /** The row is written to index 0 with access 128. */
  lemma InitHop(io: nat -> Access, mac: Mac, row: HopRow)
    requires DoneBetween(io, 0, NHOP_FULL) && mac != ZERO_MAC
    ensures var r := AddNhop(Init(io), mac, row);
            && r.hw == WriteHopRow(Init(io).hw.(tick := NHOP_FULL), 0, row)
            && (if io(NHOP_FULL) == Done
                then r.ret == Ok && r.nh == 0 && r.hops == Ref(GetNext(Reset()), 0)
                else r.ret == Busy && r.hops == Reset())
  {
    InitProbe(io, mac);
    hide FindNhop, Shape;
    assert Init(io).hops.freeIdx == 0;
  }

  /** The only flow that is cached. */
  ghost predicate OnlyFlow(s: Fa, f: Flow)
    requires Shape(s)
  {
    forall g :: InCache(s, g) <==> g == f
  }

  /** An addition to an empty cache leaves one flow. */
  lemma AddToNone(s: Fa, q: Request) returns (f: Flow)
    requires Consistent(s) && AsMap(s) == map[] && Add(s, q).1 == Ok
    ensures Consistent(Add(s, q).0) && OnlyFlow(Add(s, q).0, f)
    ensures FlowShape(f) && f == FlowFor(q, f.nh, f.pool, f.slot)
  {
    hide *;
    AddConsistent(s, q);
    f := AsMap(Add(s, q).0)[q.key];
    OneKey(Add(s, q).0, q.key, f);
    ConsistentIndexed(Add(s, q).0);
  }

  lemma AddToEmpty(io: nat -> Access, q: Request) returns (f: Flow)
    requires Add(Init(io), q).1 == Ok
    ensures Consistent(Add(Init(io), q).0) && OnlyFlow(Add(Init(io), q).0, f)
    ensures FlowShape(f) && f == FlowFor(q, f.nh, f.pool, f.slot)
  {
    hide *;
    InitConsistent(io);
    InitStart(io, q.dhost);
    f := AddToNone(Init(io), q);
  }

  lemma ConsistentIndexed(s: Fa)
    requires Consistent(s)
    ensures Indexed(s)
  {
  }

  lemma OneKey(s: Fa, key: Tuple, f: Flow)
    requires Indexed(s) && AsMap(s) == map[key := f]
    ensures OnlyFlow(s, f) && FlowShape(f)
  {
    hide Hash, Lookup, Placed, AsMap, InCache, Indexed;
    AsMapIsLookup(s, key);
    LookupIsCached(s, key);
    forall g ensures InCache(s, g) <==> g == f {
      CachedIffMapped(s, g);
    }
    CachedFlow(s, f);
  }

  lemma InitAdmits(io: nat -> Access, q: Request)
    requires Plain(q)
    ensures Admit(Init(io), q).Some?
  {
    InitIndexed(io);
    InitStart(io, q.dhost);
    hide *;
    EmptyAdmits(Init(io), q);
  }

  /** An empty cache refuses no plain request, and has no index to start from but 0. */
  lemma EmptyAdmits(s: Fa, q: Request)
    requires Indexed(s) && AsMap(s) == map[] && Plain(q)
    ensures Admit(s, q).Some? && StartIndex(s, q.dhost) == 0
  {
    hide Hash, Bucket, AsMap, Admit, InCache, CachedHop;
    forall f ensures !InCache(s, f) {
      CachedIffMapped(s, f);
    }
    CachedHopMeans(s, q.dhost);
    NoneInBucket(s, Bucket(q.key));
    RefusedExactly(s, q);
  }

  lemma NoneInBucket(s: Fa, b: nat)
    requires Indexed(s) && b < 256 && forall f :: !InCache(s, f)
    ensures BucketFlows(s, b) == {}
  {
    BucketFlowsAre(s, b);
    hide BucketFlows, InCache;
  }

  /** The pool row and the flow's row: six more accesses. */
  lemma InitPool(hw: Hw, q: Request)
    requires HwShape(hw) && Plain(q) && hw.np == Init(hw.io).hw.np
    requires DoneBetween(hw.io, hw.tick, hw.tick + CTF_MAX_POOL_TABLE_INDEX + 1)
    ensures var p := AddPool(hw, q.shost, q.snat);
            !p.busy && p.hw.tick == hw.tick + CTF_MAX_POOL_TABLE_INDEX + 1 && p.hw.io == hw.io && p.hw.nh == hw.nh
  {
    ZeroPoolMac();
    hide NpSa, NpExternal, SetNpEntry;
    PoolMiss(hw, q.shost, if q.snat then CTF_NP_EXTERNAL else CTF_NP_INTERNAL, 0);
    hide ProbePool;
  }

  /** How many accesses the first addition makes. */
  const FIRST: nat := NHOP_FULL + CTF_MAX_POOL_TABLE_INDEX + 3

  /** The end of an addition whose flow row is written in time. */
  lemma AddFinishes(s: Fa, q: Request)
    requires Shape(s) && Admit(s, q).Some? && HopFor(s, q).ret == Ok
    requires var p := AddPool(HopFor(s, q).hw, q.shost, q.snat); !p.busy && p.hw.io(p.hw.tick) == Done
    ensures var p := AddPool(HopFor(s, q).hw, q.shost, q.snat);
            var (t, ret) := Add(s, q);
            && ret == Ok && t.hops == HopFor(s, q).hops
            && t.hw.tick == p.hw.tick + 1 && t.hw.io == p.hw.io && t.hw.nh == p.hw.nh
  {
    hide Hash, Bucket, PrepIpv4, FieldsOf, HopRowFor, Insert, Admit, AddNhop, AddPool;
    var p := AddPool(HopFor(s, q).hw, q.shost, q.snat);
    var f := FlowFor(q, HopFor(s, q).nh, p.pool, Admit(s, q).value);
    InsertHops(WithHw(s, HopFor(s, q).hops, WriteFlowRow(p.hw, f.slot, PrepIpv4(FieldsOf(f)))), f);
  }

  /** When the first FIRST accesses are carried out in time, the first addition succeeds, makes just
      these, and gives its flow index 0 with the row it asks for. */
  lemma FirstAdd(io: nat -> Access, q: Request)
    requires Plain(q) && DoneBetween(io, 0, FIRST)
    ensures var (s, ret) := Add(Init(io), q);
            && ret == Ok && s.hw.tick == FIRST && s.hw.io == io && s.hw.nh[0] == HopRowFor(q)
            && s.hops == Ref(GetNext(Reset()), 0) && HopFor(Init(io), q).nh == 0
  {
    assert io(FIRST - 1) == Done;
    hide Init, Shape, HopFor, HopRowFor, Admit, AddPool, Reset, Ref, GetNext, Add;
    InitAdmits(io, q);
    FirstHop(io, q);
    InitPool(HopFor(Init(io), q).hw, q);
    AddFinishes(Init(io), q);
  }

  lemma FirstHop(io: nat -> Access, q: Request)
    requires Plain(q) && DoneBetween(io, 0, FIRST - 1)
    ensures var hop := HopFor(Init(io), q);
            && hop.ret == Ok && hop.nh == 0 && hop.hops == Ref(GetNext(Reset()), 0)
            && hop.hw.tick == NHOP_FULL + 1 && hop.hw.io == io && hop.hw.np == Init(io).hw.np
            && hop.hw.nf == Init(io).hw.nf && hop.hw.nh[0] == HopRowFor(q)
            && DoneBetween(io, NHOP_FULL + 1, NHOP_FULL + 2 + CTF_MAX_POOL_TABLE_INDEX)
  {
    InitHop(io, q.dhost, HopRowFor(q));
    hide HopRowFor, AddNhop, Reset, Ref, GetNext;
  }

  /** And it is the only flow, and the only user of its index. */
  lemma FirstFlow(io: nat -> Access, q: Request) returns (f: Flow)
    requires Plain(q) && DoneBetween(io, 0, FIRST)
    ensures var s := Add(Init(io), q).0;
            && Consistent(s) && OnlyFlow(s, f) && f.key == q.key && f.dhost == q.dhost && f.nh == 0
            && (forall i :: 0 <= i < NHOP_FULL ==> Users(s, i) == One(i == 0))
  {
    FirstAdd(io, q);
    f := AddToEmpty(io, q);
    InitUsers(io);
    hide Add, HopFor, Users, Consistent, InCache, Shape;
    var s := Add(Init(io), q).0;
    forall i | 0 <= i < NHOP_FULL ensures Users(s, i) == One(i == 0) {
      AddUsers(Init(io), q, i);
    }
    ConsistentIndexed(s);
    var g := UserExists(s, 0);
  }

  // ------------------------------------------------------------------ the second request

  lemma SecondAdmitted(s: Fa, f: Flow, q: Request)
    requires Indexed(s) && OnlyFlow(s, f) && Plain(q) && q.key != f.key
    ensures Admit(s, q).Some?
  {
    hide Hash, Bucket, AsMap, Admit, InCache, Lookup, Placed, BucketFlows;
    RefusedExactly(s, q);
    BucketFlowsAre(s, Bucket(q.key));
    var b := BucketFlows(s, Bucket(q.key));
    assert b <= {f};
    Small(b, f);
    if q.key in AsMap(s) {
      AsMapIsLookup(s, q.key);
      LookupIsCached(s, q.key);
    }
  }

  lemma Small(b: set<Flow>, f: Flow)
    requires b <= {f}
    ensures |b| <= 1
  {
    if b != {} {
      assert b == {f};
    }
  }

  lemma SecondStart(s: Fa, f: Flow)
    requires Indexed(s) && OnlyFlow(s, f)
    ensures StartIndex(s, f.dhost) == f.nh
  {
    hide InCache, CachedHop, Indexed;
    CachedHopMeans(s, f.dhost);
    assert InCache(s, f);
  }
}
