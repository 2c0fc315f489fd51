/** Pool entries: the source address and the direction of a flow's packets. */
module FlowPools {
  import opened FlowKey
  import opened FlowRows
  import opened NextHopList
  import opened Options
  import opened FlowCache
  import opened FlowCacheIndex
  import opened FlowCacheRuns
  import opened FlowCacheReferences

  function Side(external: bool): bv32 {
    if external then CTF_NP_EXTERNAL else CTF_NP_INTERNAL
  }

  /** The slot a new entry for this direction is written to. */
  function SlotFor(external: bool): nat {
    if external then 1 else 0
  }

  predicate RowMatches(row: PoolRow, mac: Mac, external: bool) {
    NpSa(row) == mac && NpExternal(row) == Side(external)
  }

  ghost predicate PoolSays(np: seq<PoolRow>, i: nat, mac: Mac, external: bool) {
    i < |np| && RowMatches(np[i], mac, external)
  }

  lemma WrittenMatches(mac: Mac, external: bool)
    ensures RowMatches(SetNpEntry(mac, Side(external)), mac, external)
  {
    hide NpSa, NpExternal, SetNpEntry;
    NpRoundTrip(mac, Side(external));
    SideFits(external);
  }

  lemma SideFits(external: bool)
    ensures Side(external) & 0x1 == Side(external)
  {
  }

  /** The search stops at the first entry that matches. */
  lemma {:induction false} ProbePoolFirst(hw: Hw, mac: Mac, external: bool, idx: nat)
    requires HwShape(hw) && idx <= CTF_MAX_POOL_TABLE_INDEX
    ensures var r := ProbePool(hw, mac, Side(external), idx).0;
            && (r.Found? ==> && idx <= r.idx < CTF_MAX_POOL_TABLE_INDEX && RowMatches(hw.np[r.idx], mac, external)
                             && forall k :: idx <= k < r.idx ==> !RowMatches(hw.np[k], mac, external))
            && (r.Absent? ==> forall k :: idx <= k < CTF_MAX_POOL_TABLE_INDEX ==> !RowMatches(hw.np[k], mac, external))
    decreases CTF_MAX_POOL_TABLE_INDEX - idx
  {
    hide NpSa, NpExternal;
    if idx < CTF_MAX_POOL_TABLE_INDEX {
      ProbePoolFirst(Tick(hw), mac, external, idx + 1);
    }
  }

  /** Only the slot of the direction is ever written, and only when no entry matches. */
  lemma AddPoolRows(hw: Hw, mac: Mac, external: bool)
    requires HwShape(hw)
    ensures var p := AddPool(hw, mac, external);
            && (forall k :: 0 <= k < CTF_MAX_POOL_TABLE_INDEX && k != SlotFor(external) ==> p.hw.np[k] == hw.np[k])
            && (p.hw.np != hw.np ==>
                  && p.hw.np[SlotFor(external)] == SetNpEntry(mac, Side(external))
                  && (forall k :: 0 <= k < CTF_MAX_POOL_TABLE_INDEX ==> !RowMatches(hw.np[k], mac, external)))
            && (!p.busy ==> PoolSays(p.hw.np, p.pool, mac, external))
            && (!p.busy && p.hw.np == hw.np ==>
                  forall k :: 0 <= k < p.pool ==> !RowMatches(hw.np[k], mac, external))
  {
    hide RowMatches, SetNpEntry, ProbePool;
    ProbePoolFirst(hw, mac, external, 0);
    WrittenMatches(mac, external);
  }

  /** Whatever the hardware does: the pool index of an added flow leads to the source address and
      the direction that were asked for. */
  lemma PoolHolds(s: Fa, q: Request)
    requires Shape(s) && Add(s, q).1 == Ok
    ensures var (t, _) := Add(s, q);
            Lookup(t, q.key).Some? && PoolSays(t.hw.np, Lookup(t, q.key).value.pool, q.shost, q.snat)
  {
    hide Shape, Add, HopFor, AddPool, Lookup, RowMatches;
    var f := AddedFlow(s, q);
    AddPoolRows(HopFor(s, q).hw, q.shost, q.snat);
  }

  // ------------------------------------------------------------------ as long as the flow is cached

  type Sources = bool -> Mac

  /** The pool table of a driver that sends from one address on each side. */
  ghost predicate OneEach(np: seq<PoolRow>, src: Sources) {
    && |np| == CTF_MAX_POOL_TABLE_INDEX
    && (np[0] == ZERO_POOL || np[0] == SetNpEntry(src(false), Side(false)))
    && (np[1] == ZERO_POOL || np[1] == SetNpEntry(src(true), Side(true)))
    && np[2] == np[3] == ZERO_POOL
  }

  ghost predicate PoolsHold(s: Fa, src: Sources)
    requires Shape(s)
  {
    && OneEach(s.hw.np, src)
    && forall f :: InCache(s, f) ==> f.pool == SlotFor(f.snat) && PoolSays(s.hw.np, f.pool, src(f.snat), f.snat)
  }

  lemma ZeroPoolSays()
    ensures NpSa(ZERO_POOL) == ZERO_MAC && NpExternal(ZERO_POOL) == Side(false) != Side(true)
  {
  }

  lemma PoolOfSource(hw: Hw, src: Sources, external: bool)
    requires HwShape(hw) && OneEach(hw.np, src)
    ensures var p := AddPool(hw, src(external), external);
            && OneEach(p.hw.np, src)
            && (!p.busy ==> p.pool == SlotFor(external) && PoolSays(p.hw.np, p.pool, src(external), external))
            && (forall ext :: PoolSays(hw.np, SlotFor(ext), src(ext), ext) ==> PoolSays(p.hw.np, SlotFor(ext), src(ext), ext))
  {
    hide NpSa, NpExternal, SetNpEntry, AddPool;
    AddPoolRows(hw, src(external), external);
    ZeroPoolSays();
    WrittenMatches(src(false), false);
    WrittenMatches(src(true), true);
  }

  /** An addition reaches the pool table once, or not at all. */
  lemma AddPools(s: Fa, q: Request)
    requires Shape(s)
    ensures HopFor(s, q).hw.np == s.hw.np
    ensures Add(s, q).0.hw.np == s.hw.np
            || Add(s, q).0.hw.np == AddPool(HopFor(s, q).hw, q.shost, q.snat).hw.np
  {
    HopNp(s, q);
    if Add(s, q).1 == Ok {
      hide Add, HopFor, AddPool, Insert, Shape;
      var w, f := AddedForm(s, q);
      InsertHops(w, f);
    } else {
      BusyPools(s, q);
    }
  }

  lemma BusyPools(s: Fa, q: Request)
    requires Shape(s) && Add(s, q).1 != Ok
    ensures var np := Add(s, q).0.hw.np;
            np == s.hw.np || np == HopFor(s, q).hw.np || np == AddPool(HopFor(s, q).hw, q.shost, q.snat).hw.np
  {
    hide Hash, Bucket, PrepIpv4, FieldsOf, HopRowFor, Insert, Admit, AddNhop, AddPool, Shape;
  }

  lemma HopNp(s: Fa, q: Request)
    requires Shape(s)
    ensures HopFor(s, q).hw.np == s.hw.np
    ensures Add(s, q).1 != Ok || HopFor(s, q).ret == Ok
  {
    hide Hash, NhDa, FindNhop, HopRowFor, Add;
    FindNhopReads(s, q.dhost);
    AddHops(s, q);
  }

  lemma AddPoolsHold(s: Fa, q: Request, src: Sources)
    requires Consistent(s) && PoolsHold(s, src) && q.shost == src(q.snat)
    ensures PoolsHold(Add(s, q).0, src)
  {
    hide Add, HopFor, AddPool, Consistent, OneEach, PoolSays, InCache, AsMap, Lookup, Shape;
    AddPools(s, q);
    AddConsistent(s, q);
    PoolOfSource(HopFor(s, q).hw, src, q.snat);
    var t := Add(s, q).0;
    Kept(s.hw.np, t.hw.np, HopFor(s, q), q, src);
    var mine := None;
    if Add(s, q).1 == Ok {
      var g := AddedFlow(s, q);
      mine := Some(g);
    }
    forall f | InCache(t, f) ensures f.pool == SlotFor(f.snat) && PoolSays(t.hw.np, f.pool, src(f.snat), f.snat) {
      CachedIffMapped(t, f);
      CachedIffMapped(s, f);
      if f.key == q.key && Add(s, q).1 == Ok {
        AsMapIsLookup(t, q.key);
      }
    }
  }

  lemma Kept(was: seq<PoolRow>, now: seq<PoolRow>, hop: HopResult, q: Request, src: Sources)
    requires HwShape(hop.hw) && hop.hw.np == was && q.shost == src(q.snat) && OneEach(was, src)
    requires now == was || now == AddPool(hop.hw, q.shost, q.snat).hw.np
    ensures OneEach(now, src)
    ensures forall ext :: PoolSays(was, SlotFor(ext), src(ext), ext) ==> PoolSays(now, SlotFor(ext), src(ext), ext)
  {
    hide AddPool, OneEach, PoolSays;
    PoolOfSource(hop.hw, src, q.snat);
  }

  lemma DelPools(s: Fa, key: Tuple)
    requires Shape(s)
    ensures Del(s, key).0.hw.np == s.hw.np
  {
    hide Hash, IsValid, MarkInvalid, Remove;
  }

  lemma StepPoolsHold(s: Fa, e: Event, src: Sources)
    requires Consistent(s) && PoolsHold(s, src) && (e.AddEv? ==> e.q.shost == src(e.q.snat))
    ensures PoolsHold(Step(s, e).0, src)
  {
    hide Add, Del, Consistent, OneEach, PoolSays, InCache, AsMap, Shape;
    var t := Step(s, e).0;
    match e
    case AddEv(q) => AddPoolsHold(s, q, src);
    case DelEv(key) =>
      DelPools(s, key);
      DelConsistent(s, key);
      forall f | InCache(t, f) ensures InCache(s, f) {
        CachedIffMapped(t, f);
        CachedIffMapped(s, f);
      }
    case CountEv(idx, row) =>
      CountConsistent(s, idx, row);
      forall f | InCache(t, f) ensures InCache(s, f) {
        CachedIffMapped(t, f);
        CachedIffMapped(s, f);
      }
  }

  /** All additions of the run send from the address of their side. */
  predicate FromSources(es: seq<Event>, src: Sources) {
    forall k :: 0 <= k < |es| && es[k].AddEv? ==> es[k].q.shost == src(es[k].q.snat)
  }

  /** In every such run, timeouts included, the pool entry of each cached flow holds the address of
      its side and its direction for as long as the flow is cached. */
  lemma {:induction false} AllRunsPoolsHold(s: Fa, es: seq<Event>, src: Sources)
    requires Consistent(s) && PoolsHold(s, src) && FromSources(es, src)
    ensures Consistent(Run(s, es)) && PoolsHold(Run(s, es), src)
    decreases |es|
  {
    if es != [] {
      hide Step, Consistent, PoolsHold, Shape;
      StepConsistent(s, es[0]);
      StepPoolsHold(s, es[0], src);
      assert FromSources(es[1..], src);
      AllRunsPoolsHold(Step(s, es[0]).0, es[1..], src);
    }
  }

  lemma InitPoolsHold(io: nat -> Access, src: Sources)
    ensures Consistent(Init(io)) && PoolsHold(Init(io), src)
  {
    InitConsistent(io);
    hide Hash, NpSa, NpExternal, SetNpEntry, Consistent, Reset;
    assert forall f :: !InCache(Init(io), f);
  }

  /** From the start. */
  lemma PoolsFromInit(io: nat -> Access, es: seq<Event>, src: Sources)
    requires FromSources(es, src)
    ensures PoolsHold(Run(Init(io), es), src)
  {
    InitPoolsHold(io, src);
    hide *;
    AllRunsPoolsHold(Init(io), es, src);
  }

  /** And exactly then: a further addition leaves the entry of a cached flow of its side right if and
      only if it sends from the same address, or from the zero address on the inside, which is found
      in a row that was never written. */
  lemma PoolKeptIff(s: Fa, q: Request, src: Sources, f: Flow)
    requires Consistent(s) && PoolsHold(s, src) && InCache(s, f) && f.snat == q.snat
    requires Add(s, q).1 == Ok
    ensures PoolSays(Add(s, q).0.hw.np, f.pool, src(f.snat), f.snat) <==>
            q.shost == src(q.snat) || (q.shost == ZERO_MAC && !q.snat)
  {
    hide Add, HopFor, AddPool, Consistent, InCache, RowMatches, Shape, OneEach;
    var p := AddPool(HopFor(s, q).hw, q.shost, q.snat);
    var g := AddedFlow(s, q);
    AddPools(s, q);
    AddPoolRows(HopFor(s, q).hw, q.shost, q.snat);
    if q.shost == src(q.snat) {
      PoolOfSource(HopFor(s, q).hw, src, q.snat);
    } else if q.shost == ZERO_MAC && !q.snat {
      ZeroRowMatches(s.hw.np, src);
    } else {
      NoOtherRow(s.hw.np, src, q.shost, q.snat);
      WrittenMatches(q.shost, q.snat);
      OneAddress(p.hw.np[SlotFor(q.snat)], q.shost, src(q.snat), q.snat);
    }
  }

  lemma ZeroRowMatches(np: seq<PoolRow>, src: Sources)
    requires OneEach(np, src)
    ensures RowMatches(np[2], ZERO_MAC, false)
  {
    hide NpSa, NpExternal;
    ZeroPoolSays();
  }

  lemma OneAddress(row: PoolRow, a: Mac, b: Mac, external: bool)
    requires RowMatches(row, a, external) && a != b
    ensures !RowMatches(row, b, external)
  {
    hide NpSa, NpExternal;
  }

  lemma NoOtherRow(np: seq<PoolRow>, src: Sources, mac: Mac, external: bool)
    requires OneEach(np, src) && PoolSays(np, SlotFor(external), src(external), external) && mac != src(external)
    requires mac == ZERO_MAC ==> external
    ensures forall k :: 0 <= k < CTF_MAX_POOL_TABLE_INDEX ==> !RowMatches(np[k], mac, external)
  {
    hide NpSa, NpExternal, SetNpEntry;
    ZeroPoolSays();
    WrittenMatches(src(false), false);
    WrittenMatches(src(true), true);
  }
}
