/** The next-hop allocator and its table in every run, timeouts included: exactly which steps leave
    the free list a list and every cached flow with a row that holds its destination. */
module FlowCacheSound {
  import opened FlowKey
  import opened FlowRows
  import opened NextHopList
  import opened Options
  import opened FlowCache
  import opened FlowCacheIndex
  import opened FlowCacheRuns
  import opened FlowCacheReferences
  import opened FlowCacheAgreement

  /** The free list holds exactly the indices without references, every flow is counted, and the row
      of each cached flow holds its destination, one index for each destination. */
  ghost predicate Sound(s: Fa)
    ensures Sound(s) ==> Consistent(s)
  {
    Consistent(s) && Partitioned(s.hops) && Counted(s) && HopsHold(s)
  }

  // ------------------------------------------------------------------ additions

  /** A destination that is cached is found at the index its flows have, if it is found in time. */
  lemma CachedFirst(s: Fa, g: Flow)
    requires Indexed(s) && HopsHold(s) && InCache(s, g)
    ensures var p := FindNhop(s, g.dhost).0; p.Timeout? || p == Found(g.nh)
  {
    hide InCache, CachedHop, Indexed, FindNhop, NhDa;
    var c := CachedHop(s.chains, 0, g.dhost);
    CachedHopMeans(s, g.dhost);
    assert HopSays(s.hw.nh, c.value) && c.value.nh == g.nh;
    FoundOrLate(s, g.dhost);
  }

  lemma FoundOrLate(s: Fa, mac: Mac)
    requires Shape(s) && NhDa(s.hw.nh[StartIndex(s, mac)]) == mac
    ensures var p := FindNhop(s, mac).0; p.Timeout? || p == Found(StartIndex(s, mac))
  {
    hide NhDa, StartIndex;
  }

  /** What an addition does to the set of cached flows. */
  lemma AddMembers(s: Fa, q: Request) returns (f: Option<Flow>)
    requires Consistent(s)
    ensures Consistent(Add(s, q).0) && (f.Some? <==> Add(s, q).1 == Ok)
    ensures forall g :: InCache(Add(s, q).0, g) <==> InCache(s, g) || f == Some(g)
    ensures f.Some? ==> f.value.dhost == q.dhost && f.value.nh == HopFor(s, q).nh
  {
    hide Add, InCache, AsMap, Consistent, HopFor, AddPool, Shape, Lookup;
    AddConsistent(s, q);
    var t := Add(s, q).0;
    var m, m' := AsMap(s), AsMap(t);
    f := None;
    if Add(s, q).1 == Ok {
      var a := AddedFlow(s, q);
      AsMapIsLookup(t, q.key);
      f := Some(a);
      assert m' == m[q.key := a] && a.key == q.key && q.key !in m;
    }
    hide HopFor, FlowFor;
    forall g ensures InCache(t, g) <==> InCache(s, g) || f == Some(g) {
      CachedIffMapped(s, g);
      CachedIffMapped(t, g);
    }
  }

  /** The rows it leaves alone. */
  lemma AddRows(s: Fa, q: Request)
    requires Shape(s)
    ensures forall i :: 0 <= i < NHOP_FULL && i != s.hops.freeIdx ==> Add(s, q).0.hw.nh[i] == s.hw.nh[i]
    ensures Admit(s, q).Some? && HopFor(s, q).ret == Ok ==> NhDa(Add(s, q).0.hw.nh[HopFor(s, q).nh]) == q.dhost
  {
    hide Add, Admit, HopFor, HopRowFor, Ref, GetNext, NhDa, StartIndex;
    AddHops(s, q);
    HopOutcome(s, q);
    HopRowForMac(q);
  }

  /** The head of the list has no user. */
  lemma FreeUnused(s: Fa, f: Flow)
    requires Sound(s) && InCache(s, f)
    ensures f.nh != s.hops.freeIdx && f.nh < NHOP_FULL && HopSays(s.hw.nh, f)
  {
    hide InCache, Users, RowsAgree, FreeChain;
    CachedUses(s, f);
    if s.hops.freeIdx != NHOP_FULL {
      HeadUnreferenced(s.hops);
    }
  }

  lemma HeadUnreferenced(n: NextHops)
    requires Partitioned(n) && n.freeIdx != NHOP_FULL
    ensures n.freeIdx < NHOP_FULL && n.refs[n.freeIdx] == 0
  {
    var free :| Partition(n, free);
    assert free[0] in free;
  }

  /** After an addition the rows hold, whatever it was. */
  lemma AddHopsHold(s: Fa, q: Request)
    requires Sound(s)
    ensures HopsHold(Add(s, q).0)
  {
    hide Add, InCache, HopFor, Sound, Admit, FindNhop, HopsHold, NhDa;
    var t := Add(s, q).0;
    var f := AddMembers(s, q);
    AddRows(s, q);
    AddHops(s, q);
    SoundHops(s);
    forall g | InCache(s, g) ensures HopSays(t.hw.nh, g) && (f.Some? && g.dhost == f.value.dhost ==> g.nh == f.value.nh) {
      FreeUnused(s, g);
      if f.Some? && g.dhost == q.dhost {
        SharesIndex(s, q, g);
      }
    }
    OneMoreHolds(s, t, f);
  }

  lemma OneMoreHolds(s: Fa, t: Fa, f: Option<Flow>)
    requires Shape(s) && Shape(t) && HopsHold(s)
    requires forall g :: InCache(t, g) <==> InCache(s, g) || f == Some(g)
    requires forall g :: InCache(s, g) ==> HopSays(t.hw.nh, g)
    requires f.Some? ==> f.value.nh < NHOP_FULL && NhDa(t.hw.nh[f.value.nh]) == f.value.dhost
    requires f.Some? ==> forall g :: InCache(s, g) && g.dhost == f.value.dhost ==> g.nh == f.value.nh
    ensures HopsHold(t)
  {
    hide InCache, NhDa, Shape;
  }

  lemma SoundHops(s: Fa)
    requires Sound(s)
    ensures HopsHold(s) && Indexed(s)
  {
  }

  lemma SharesIndex(s: Fa, q: Request, g: Flow)
    requires Sound(s) && InCache(s, g) && g.dhost == q.dhost && HopFor(s, q).ret == Ok
    ensures g.nh == HopFor(s, q).nh
  {
    hide InCache, HopFor, FindNhop;
    SoundHops(s);
    hide Sound, HopsHold;
    CachedFirst(s, g);
    HopOutcome(s, q);
  }

  /** The index that is found is in use already, and its counter has room. */
  predicate Room(s: Fa, q: Request)
    requires Shape(s)
  {
    var p := FindNhop(s, q.dhost).0;
    p.Found? && p.idx < NHOP_FULL ==> 0 < s.hops.refs[p.idx] < REF_LIMIT - 1
  }

  lemma AddPartition(s: Fa, q: Request)
    requires Shape(s) && Partitioned(s.hops)
    ensures Partitioned(Add(s, q).0.hops) <==> Admit(s, q).None? || HopFor(s, q).ret != Ok || Room(s, q)
  {
    hide Add, Admit, HopFor, FindNhop, Partitioned, Ref, GetNext, HopRowFor;
    AddHops(s, q);
    HopOutcome(s, q);
    ProbeInBounds(s, q);
    var p := FindNhop(s, q.dhost).0;
    if p.Found? {
      RefKeepsPartitionIff(s.hops, p.idx);
    } else if s.hops.freeIdx != NHOP_FULL {
      GetKeeps(s.hops);
    }
  }

  lemma ProbeInBounds(s: Fa, q: Request)
    requires Shape(s)
    ensures var p := FindNhop(s, q.dhost).0; p.Found? ==> p.idx < NHOP_FULL
  {
    hide StartIndex, NhDa;
  }

  lemma GetKeeps(n: NextHops)
    requires Partitioned(n) && n.freeIdx != NHOP_FULL
    ensures n.freeIdx < NHOP_FULL && Partitioned(Ref(GetNext(n), n.freeIdx)) && n.refs[n.freeIdx] == 0
  {
    hide FreeChain;
    var free :| Partition(n, free);
    GetKeepsPartition(n, free);
  }

  /** An addition is safe when it is over before it has a next hop, or the index that is found is in
      use, with room in its counter. */
  predicate SafeAdd(s: Fa, q: Request)
    requires Shape(s)
  {
    Admit(s, q).None? || HopFor(s, q).ret != Ok || Room(s, q)
  }

  lemma SafeNeverWraps(s: Fa, q: Request)
    requires Shape(s) && Partitioned(s.hops) && SafeAdd(s, q)
    ensures !Wraps(s, q)
  {
    hide Admit, HopFor, Add, FindNhop, Partitioned, Users;
    HopOutcome(s, q);
    ProbeInBounds(s, q);
    if s.hops.freeIdx != NHOP_FULL {
      HeadUnreferenced(s.hops);
    }
  }

  lemma AddSoundIff(s: Fa, q: Request)
    requires Sound(s)
    ensures Sound(Add(s, q).0) <==> SafeAdd(s, q)
  {
    AddConsistent(s, q);
    AddHops(s, q);
    AddHopsHold(s, q);
    AddPartition(s, q);
    AddCountedIff(s, q);
    hide Admit, HopFor, Add, Room, Consistent, Counted, HopsHold, Partitioned, Wraps, AsMap;
    if SafeAdd(s, q) {
      SafeNeverWraps(s, q);
    }
  }

  // ------------------------------------------------------------------ deletions

  /** The row of the flow is read and written back in time. */
  predicate RowReleased(hw: Hw) {
    !NowBusy(hw) && !NowBusy(Tick(hw))
  }

  /** What a deletion does to the allocator and to the next-hop table. */
  lemma DelHwHops(hops: NextHops, hw: Hw, f: Flow)
    requires InBounds(hops) && HwShape(hw) && FlowShape(f) && IsValid(hw.nf[f.slot]) && hops.refs[f.nh] > 0
    ensures var (hops', hw', _) := DelHw(hops, hw, f);
            if !RowReleased(hw) then hops' == hops && hw'.nh == hw.nh
            else if hops.refs[f.nh] > 1 then hops' == Unref(hops, f.nh) && hw'.nh == hw.nh
            else
              && hops' == (if NowBusy(Tick(Tick(hw))) then Unref(hops, f.nh) else PutNext(Unref(hops, f.nh), f.nh))
              && (hw'.nh == hw.nh || hw'.nh == hw.nh[f.nh := ZERO_HOP])
  {
    hide MarkInvalid, IsValid;
  }

  /** A deletion is safe when the flow is not the last to leave its next hop, or never gets that far,
      or the row is cleared in time and the list is not exhausted. */
  predicate SafeDel(s: Fa, key: Tuple)
    requires Shape(s)
  {
    var f := Lookup(s, key);
    f.Some? && f.value.nh < NHOP_FULL ==>
      || !RowReleased(s.hw)
      || s.hops.refs[f.value.nh] > 1
      || (!NowBusy(Tick(Tick(s.hw))) && s.hops.freeIdx != NHOP_FULL)
  }

  /** What a deletion takes out. */
  lemma DelParts(s: Fa, key: Tuple) returns (h: nat, k: nat)
    requires Consistent(s) && Lookup(s, key).Some?
    ensures h < FA_NAPT_SZ && k < |s.chains[h]| && Lookup(s, key) == Some(s.chains[h][k]) && FlowShape(s.chains[h][k])
    ensures InCache(s, s.chains[h][k]) && IsValid(s.hw.nf[s.chains[h][k].slot])
    ensures var (hops, hw, ret) := DelHw(s.hops, s.hw, s.chains[h][k]);
            Del(s, key) == (WithHw(Remove(s, h, k), hops, hw), ret)
  {
    hide Hash, DelHw, Remove, RowsAgree, IsValid;
    h := Hash(key);
    k := Find(s.chains[h], key);
    ChainedIsCached(s, h, k);
    CachedRowValid(s, s.chains[h][k]);
  }

  lemma DelPartition(s: Fa, key: Tuple)
    requires Consistent(s) && Partitioned(s.hops) && Counted(s)
    ensures Partitioned(Del(s, key).0.hops) <==> SafeDel(s, key)
  {
    hide Del, DelHw, Lookup, Remove, InCache, Partitioned, Users, Indexed, RowsAgree, IsValid, RowReleased, PutNext, Unref;
    if Lookup(s, key).Some? {
      var h, k := DelParts(s, key);
      var f := s.chains[h][k];
      CachedUses(s, f);
      DelHwHops(s.hops, s.hw, f);
      if s.hops.refs[f.nh] > 1 {
        UnrefKeeps(s.hops, f.nh);
      } else {
        UnrefLastBreaks(s.hops, f.nh);
        PutKeepsPartitionIff(s.hops, f.nh);
      }
    } else {
      DelUnknown(s, key);
    }
  }

  lemma UnrefKeeps(n: NextHops, i: nat)
    requires Partitioned(n) && i < NHOP_FULL && n.refs[i] > 1
    ensures Partitioned(Unref(n, i))
  {
    var free :| Partition(n, free);
    UnrefKeepsPartition(n, free, i);
  }

  lemma DelUnknown(s: Fa, key: Tuple)
    requires Consistent(s) && Lookup(s, key).None?
    ensures Del(s, key) == (s, Ok)
  {
    hide Hash, DelHw, Remove, Consistent, Shape;
  }

  /** A deletion always leaves the rows of the other flows as they were. */
  lemma DelHopsHold(s: Fa, key: Tuple)
    requires Sound(s)
    ensures HopsHold(Del(s, key).0)
  {
    hide Del, DelHw, Lookup, Remove, InCache, Partitioned, Users, Indexed, RowsAgree, IsValid, PutNext, Unref, NhDa;
    if Lookup(s, key).Some? {
      var h, k := DelParts(s, key);
      var f := s.chains[h][k];
      CachedUses(s, f);
      DelHwHops(s.hops, s.hw, f);
      var t := Del(s, key).0;
      DelMembers(s, key, h, k);
      if s.hops.refs[f.nh] == 1 {
        NoOtherUser(s, h, k);
      }
      forall g | InCache(t, g) ensures HopSays(t.hw.nh, g) {
        Holds(s, g);
      }
    } else {
      DelUnknown(s, key);
    }
  }

  lemma DelMembers(s: Fa, key: Tuple, h: nat, k: nat)
    requires Consistent(s) && h < FA_NAPT_SZ && k < |s.chains[h]| && Lookup(s, key) == Some(s.chains[h][k])
    ensures forall g :: InCache(Del(s, key).0, g) ==> InCache(s, g) && g != s.chains[h][k]
  {
    hide Del, InCache, Lookup, AsMap, Consistent;
    DelConsistent(s, key);
    LookupIsCached(s, key);
    var t := Del(s, key).0;
    forall g | InCache(t, g) ensures InCache(s, g) && g != s.chains[h][k] {
      CachedIffMapped(t, g);
      CachedIffMapped(s, g);
    }
  }

  lemma DelSoundIff(s: Fa, key: Tuple)
    requires Sound(s)
    ensures Sound(Del(s, key).0) <==> SafeDel(s, key)
  {
    DelConsistent(s, key);
    DelHopsHold(s, key);
    DelPartition(s, key);
    DelCounted(s, key);
    hide Del, SafeDel, Consistent, Counted, HopsHold, Partitioned, AsMap;
  }

  // ------------------------------------------------------------------ every step, every run

  predicate SafeStep(s: Fa, e: Event)
    requires Shape(s)
  {
    match e
    case AddEv(q) => SafeAdd(s, q)
    case DelEv(key) => SafeDel(s, key)
    case CountEv(_, _) => true
  }

  lemma CountSound(s: Fa, idx: nat, row: FlowRow)
    requires Sound(s)
    ensures Sound(Step(s, CountEv(idx, row)).0)
  {
    CountConsistent(s, idx, row);
    var t := Step(s, CountEv(idx, row)).0;
    assert t == WithHw(s, s.hops, t.hw) && t.hw.nh == s.hw.nh;
    hide Consistent, Partitioned, Counted, HopsHold, AsMap, Step;
    SameHops(s, t.hw);
  }

  lemma SameHops(s: Fa, hw: Hw)
    requires Shape(s) && HwShape(hw) && hw.nh == s.hw.nh
    ensures var t := WithHw(s, s.hops, hw); (Counted(s) ==> Counted(t)) && (HopsHold(s) ==> HopsHold(t))
  {
    WithHwUsers(s, s.hops, hw);
    forall f ensures InCache(WithHw(s, s.hops, hw), f) <==> InCache(s, f) {
    }
    hide InCache, Users, NhDa;
  }

  /** Whatever the hardware does, a step keeps the allocator and its table sound if and only if it is
      safe. */
  lemma StepSoundIff(s: Fa, e: Event)
    requires Sound(s)
    ensures Sound(Step(s, e).0) <==> SafeStep(s, e)
  {
    hide Add, Del, Sound, SafeAdd, SafeDel;
    match e
    case AddEv(q) => AddSoundIff(s, q);
    case DelEv(key) => DelSoundIff(s, key);
    case CountEv(idx, row) => CountSound(s, idx, row);
  }

  ghost predicate SafeRun(s: Fa, es: seq<Event>)
    requires Shape(s)
    decreases |es|
  {
    es == [] || (SafeStep(s, es[0]) && SafeRun(Step(s, es[0]).0, es[1..]))
  }

  ghost predicate SoundThroughout(s: Fa, es: seq<Event>)
    requires Shape(s)
    decreases |es|
  {
    Sound(s) && (es == [] || SoundThroughout(Step(s, es[0]).0, es[1..]))
  }

  lemma {:induction false} SoundIffSafe(s: Fa, es: seq<Event>)
    requires Sound(s)
    ensures SoundThroughout(s, es) <==> SafeRun(s, es)
    decreases |es|
  {
    hide Step, Sound, SafeStep, Shape;
    if es != [] {
      StepSoundIff(s, es[0]);
      if Sound(Step(s, es[0]).0) {
        SoundIffSafe(Step(s, es[0]).0, es[1..]);
      }
    }
  }

  lemma InitSound(io: nat -> Access)
    ensures Sound(Init(io))
  {
    InitAgree(io);
    InitCounted(io);
    AgreeSound(Init(io));
  }

  lemma AgreeSound(s: Fa)
    requires Agree(s) && Counted(s)
    ensures Sound(s)
  {
    hide Consistent, Partitioned, Counted, HopsHold, HopsCounted, NoStrayRows;
  }

  /** From the start, in every run with any timeouts. */
  lemma SoundFromInit(io: nat -> Access, es: seq<Event>)
    ensures SoundThroughout(Init(io), es) <==> SafeRun(Init(io), es)
  {
    InitSound(io);
    hide *;
    SoundIffSafe(Init(io), es);
  }
}
