/** A next-hop row that is written late: the driver gives up, the row is there, and the address is
    found in the row of an index that is still free. */
module FlowCacheLate {
  import opened FlowKey
  import opened FlowRows
  import opened NextHopList
  import opened Options
  import opened FlowCache
  import opened FlowCacheIndex
  import opened FlowCacheRuns
  import opened FlowCacheReferences
  import opened FlowCacheAgreement
  import opened FlowCacheStart

  /** Only the first write of a next-hop row is late. */
  function OneLate(t: nat): Access {
    if t == NHOP_FULL then TimedOut(true) else Done
  }

  /** An addition whose next hop is late changes the hardware only. */
  lemma BusyHop(s: Fa, q: Request)
    requires Shape(s) && Admit(s, q).Some? && HopFor(s, q).ret == Busy
    ensures Add(s, q) == (WithHw(s, HopFor(s, q).hops, HopFor(s, q).hw), Busy)
  {
    hide Admit, AddNhop, HopRowFor, Shape;
  }

  /** The first attempt: busy, but the row is written. */
  lemma FirstAttempt(q: Request)
    requires Plain(q)
    ensures var (s, ret) := Add(Init(OneLate), q);
            && ret == Busy && Consistent(s) && AsMap(s) == map[] && s.hops == Reset()
            && s.hw == Init(OneLate).hw.(tick := NHOP_FULL + 1, nh := Init(OneLate).hw.nh[0 := HopRowFor(q)])
  {
    var io := OneLate;
    InitAdmits(io, q);
    InitStart(io, q.dhost);
    InitHop(io, q.dhost, HopRowFor(q));
    InitConsistent(io);
    AddConsistent(Init(io), q);
    hide Add, Admit, AddNhop, HopRowFor, Reset, Ref, GetNext, AsMap, Consistent, Shape, StartIndex, InCache;
    BusyHop(Init(io), q);
  }

  /** The row of index 0 holds the address, and nothing is cached: the address is found there. */
  lemma FoundAtZero(s: Fa, q: Request)
    requires Indexed(s) && AsMap(s) == map[] && Plain(q) && s.hops.freeIdx != NHOP_FULL
    requires NhDa(s.hw.nh[0]) == q.dhost && s.hw.io(s.hw.tick) == Done
    ensures HopFor(s, q) == HopResult(Ref(s.hops, 0), Tick(s.hw), 0, Ok)
  {
    EmptyAdmits(s, q);
    hide Admit, AsMap, StartIndex, NhDa, HopRowFor, Ref, Indexed;
  }

  /** The second attempt succeeds with the index that is still at the head of the list. */
  lemma SecondAttempt(s: Fa, q: Request) returns (f: Flow)
    requires Consistent(s) && AsMap(s) == map[] && Plain(q) && s.hops == Reset()
    requires s.hw.np == Init(s.hw.io).hw.np && NhDa(s.hw.nh[0]) == q.dhost
    requires DoneBetween(s.hw.io, s.hw.tick, s.hw.tick + CTF_MAX_POOL_TABLE_INDEX + 3)
    ensures var (t, ret) := Add(s, q);
            && ret == Ok && Consistent(t) && OnlyFlow(t, f) && f.key == q.key && f.dhost == q.dhost && f.nh == 0
            && t.hops == Ref(Reset(), 0) && t.hw.nh == s.hw.nh && t.hw.io == s.hw.io
            && t.hw.tick == s.hw.tick + CTF_MAX_POOL_TABLE_INDEX + 3
  {
    ConsistentIndexed(s);
    EmptyAdmits(s, q);
    ResetHead();
    FoundAtZero(s, q);
    hide Admit, AsMap, StartIndex, NhDa, HopFor, Ref, Reset, Consistent, InCache, Shape, Indexed, AddPool, Add;
    InitPool(Tick(s.hw), q);
    AddFinishes(s, q);
    f := AddToNone(s, q);
    AddHops(s, q);
    TheFlow(s, q, f);
  }

  lemma TheFlow(s: Fa, q: Request, f: Flow)
    requires Consistent(s) && Add(s, q).1 == Ok && OnlyFlow(Add(s, q).0, f)
    ensures f.key == q.key && f.dhost == q.dhost && f.nh == HopFor(s, q).nh
  {
    hide Add, HopFor, AddPool, Consistent, InCache, Shape;
    AddConsistent(s, q);
    var g := AddedFlow(s, q);
    OnlyFound(Add(s, q).0, q.key, f, g);
  }

  lemma ResetHead()
    ensures Reset().freeIdx == 0 != NHOP_FULL && Reset().refs[0] == 0
    ensures Ref(Reset(), 0).freeIdx == 0
  {
  }

  lemma OnlyFound(s: Fa, key: Tuple, f: Flow, g: Flow)
    requires Consistent(s) && OnlyFlow(s, f) && Lookup(s, key) == Some(g)
    ensures f == g && f.key == key
  {
    hide InCache, Lookup, RowsAgree;
    LookupIsCached(s, key);
  }

  /** An address that no row holds gets the index at the head of the list. */
  lemma FreshHop(s: Fa, q: Request)
    requires Shape(s) && s.hops.freeIdx != NHOP_FULL && StartIndex(s, q.dhost) == 0
    requires forall i :: 0 <= i < NHOP_FULL ==> NhDa(s.hw.nh[i]) != q.dhost
    requires DoneBetween(s.hw.io, s.hw.tick, s.hw.tick + NHOP_FULL + 1)
    ensures HopFor(s, q).ret == Ok && HopFor(s, q).hw.nh == s.hw.nh[s.hops.freeIdx := HopRowFor(q)]
  {
    hide StartIndex, NhDa, HopRowFor, Ref, GetNext;
    ProbeMiss(s.hw, q.dhost, 0);
  }

  lemma NoStart(s: Fa, f: Flow, mac: Mac)
    requires Consistent(s) && OnlyFlow(s, f) && f.dhost != mac
    ensures StartIndex(s, mac) == 0
  {
    hide InCache, CachedHop, RowsAgree;
    CachedHopMeans(s, mac);
  }

  /** Both attempts. */
  lemma TwoAttempts(q: Request) returns (f: Flow)
    requires Plain(q)
    ensures var s := Add(Add(Init(OneLate), q).0, q).0;
            && Consistent(s) && OnlyFlow(s, f) && f.key == q.key && f.dhost == q.dhost && f.nh == 0
            && s.hops == Ref(Reset(), 0) && s.hw.io == OneLate && s.hw.tick == NHOP_FULL + CTF_MAX_POOL_TABLE_INDEX + 4
            && s.hw.nh == Init(OneLate).hw.nh[0 := HopRowFor(q)]
  {
    FirstAttempt(q);
    HopRowForMac(q);
    FirstDone();
    hide Add, Init, Admit, AsMap, Consistent, InCache, HopRowFor, NhDa, Shape, Reset, Ref;
    RestIsZero(q);
    f := SecondAttempt(Add(Init(OneLate), q).0, q);
  }

  /** A flow to another address then takes the head of the list, and its row. */
  lemma HeadIsTaken(s: Fa, f: Flow, q: Request)
    requires Consistent(s) && OnlyFlow(s, f) && f.key != q.key && f.dhost != q.dhost && Plain(q)
    requires s.hops.freeIdx == 0 && forall i :: 0 <= i < NHOP_FULL ==> NhDa(s.hw.nh[i]) != q.dhost
    requires DoneBetween(s.hw.io, s.hw.tick, s.hw.tick + NHOP_FULL + 1)
    ensures var t := Add(s, q).0;
            NhDa(t.hw.nh[0]) == q.dhost && Lookup(s, f.key) == Lookup(t, f.key) == Some(f)
  {
    hide Add, Admit, Consistent, InCache, HopRowFor, NhDa, Lookup, StartIndex, HopFor;
    NoStart(s, f, q.dhost);
    ConsistentIndexed(s);
    SecondAdmitted(s, f, q);
    FreshHop(s, q);
    HopRowForMac(q);
    AddHops(s, q);
    assert InCache(s, f);
    StaysFound(s, q, f);
  }

  /** It happens from the start.  The next-hop row of the first flow is written late; asking again
      succeeds, with an index that the list still holds; and the next flow to another address
      overwrites the row, so that the packets of the first go there. */
  lemma LateRowMisdirects(q: Request, q2: Request) returns (f: Flow)
    requires Plain(q) && Plain(q2) && q.key != q2.key && q.dhost != q2.dhost
    ensures var s1 := Add(Init(OneLate), q).0;
            var s2 := Add(s1, q).0;
            var s3 := Add(s2, q2).0;
            && Lookup(s2, q.key) == Lookup(s3, q.key) == Some(f) && f.dhost == q.dhost
            && f.nh == s2.hops.freeIdx == 0 && !Partitioned(s2.hops)
            && NhDa(s3.hw.nh[f.nh]) == q2.dhost
  {
    hide *;
    f := TwoAttempts(q);
    ResetHead();
    ResetBreaks();
    FirstDone();
    RowsDiffer(q, q2);
    HeadIsTaken(Add(Add(Init(OneLate), q).0, q).0, f, q2);
  }

  lemma FirstDone()
    ensures DoneBetween(OneLate, NHOP_FULL + 1, 4 * NHOP_FULL)
    ensures var t := NHOP_FULL + CTF_MAX_POOL_TABLE_INDEX + 4; DoneBetween(OneLate, t, t + NHOP_FULL + 1)
  {
  }

  lemma RowsDiffer(q: Request, q2: Request)
    requires Plain(q) && Plain(q2) && q.dhost != q2.dhost
    ensures var nh := Init(OneLate).hw.nh[0 := HopRowFor(q)];
            forall i :: 0 <= i < NHOP_FULL ==> NhDa(nh[i]) != q2.dhost
  {
    RestIsZero(q);
    HopRowForMac(q);
    ZeroHopMac();
    hide Init, HopRowFor, NhDa;
  }

  lemma RestIsZero(q: Request)
    ensures var nh := Init(OneLate).hw.nh[0 := HopRowFor(q)];
            forall i :: 0 < i < NHOP_FULL ==> nh[i] == ZERO_HOP
    ensures Init(OneLate).hw.io == OneLate && Init(OneLate).hw.np == Init(Init(OneLate).hw.io).hw.np
  {
    hide HopRowFor;
  }

  lemma ResetBreaks()
    ensures !Partitioned(Ref(Reset(), 0))
  {
    ResetIsPartitioned();
    ResetHead();
    RefKeepsPartitionIff(Reset(), 0);
  }

  /** An addition for another tuple does not change what a lookup finds. */
  lemma StaysFound(s: Fa, q: Request, f: Flow)
    requires Consistent(s) && InCache(s, f) && f.key != q.key
    ensures Lookup(s, f.key) == Lookup(Add(s, q).0, f.key) == Some(f)
  {
    hide Add, AsMap, Lookup, InCache, RowsAgree, Shape;
    AddConsistent(s, q);
    CachedFlow(s, f);
    CachedIffMapped(s, f);
    AsMapIsLookup(Add(s, q).0, f.key);
  }
}
