/** Runs without timeouts: exactly when the allocator stays sound and every hardware table agrees
    with the cache. */
module FlowCacheAgreement {
  import opened FlowKey
  import opened FlowRows
  import opened NextHopList
  import opened Options
  import opened FlowCache
  import opened FlowCacheIndex
  import opened FlowCacheRuns
  import opened Counting

  ghost predicate Quiet(hw: Hw) {
    forall t :: hw.io(t) == Done
  }

  /** Reference counts are the numbers of users; a row nobody uses is zero. */
  ghost predicate HopsCounted(s: Fa)
    requires Shape(s)
  {
    forall i :: 0 <= i < NHOP_FULL ==> s.hops.refs[i] == Users(s, i) && (Users(s, i) == 0 ==> s.hw.nh[i] == ZERO_HOP)
  }

  /** The next-hop row of a flow holds the flow's destination address. */
  ghost predicate HopSays(nh: seq<HopRow>, f: Flow)
    requires |nh| == NHOP_FULL
  {
    f.nh < NHOP_FULL && NhDa(nh[f.nh]) == f.dhost
  }

  ghost predicate HopsHold(s: Fa)
    requires Shape(s)
  {
    && (forall f :: InCache(s, f) ==> HopSays(s.hw.nh, f))
    && (forall f, g :: InCache(s, f) && InCache(s, g) && f.dhost == g.dhost ==> f.nh == g.nh)
  }

  /** No flow to the zero address is cached. */
  ghost predicate NoZeroMac(s: Fa)
    requires Shape(s)
  {
    forall f :: InCache(s, f) ==> f.dhost != ZERO_MAC
  }

  /** No row of a slot without a flow is valid. */
  ghost predicate NoStrayRows(s: Fa)
    requires Shape(s)
  {
    forall i :: 0 <= i < CTF_MAX_FLOW_TABLE && s.ftable[i].None? ==> !IsValid(s.hw.nf[i])
  }

  /** The cache and the hardware agree in everything. */
  ghost predicate Agree(s: Fa)
    ensures Agree(s) ==> Consistent(s)
  {
    Consistent(s) && Partitioned(s.hops) && HopsCounted(s) && HopsHold(s) && NoZeroMac(s) && NoStrayRows(s)
  }

  lemma ZeroRowInvalid()
    ensures !IsValid(ZERO_FLOW)
  {
  }

  lemma InitAgree(io: nat -> Access)
    ensures Agree(Init(io))
  {
    hide *;
    InitConsistent(io);
    ResetIsPartitioned();
    InitHopsCounted(io);
    InitRows(io);
    AgreeIs(Init(io), Upto(0, NHOP_FULL));
  }

  lemma AgreeIs(s: Fa, free: seq<nat>)
    requires Consistent(s) && Partition(s.hops, free) && HopsCounted(s) && HopsHold(s) && NoZeroMac(s) && NoStrayRows(s)
    ensures Agree(s)
  {
  }

  lemma InitRows(io: nat -> Access)
    ensures HopsHold(Init(io)) && NoZeroMac(Init(io)) && NoStrayRows(Init(io)) && Init(io).hops == Reset()
  {
    hide Hash, Reset, IsValid;
    ZeroRowInvalid();
    assert forall f :: !InCache(Init(io), f);
  }

  lemma InitHopsCounted(io: nat -> Access)
    ensures HopsCounted(Init(io))
  {
    InitUsers(io);
  }

  // ------------------------------------------------------------------ finding a next hop

  /** An index in use has a flow that uses it. */
  lemma UserExists(s: Fa, i: nat) returns (f: Flow)
    requires Indexed(s) && Users(s, i) > 0
    ensures InCache(s, f) && f.nh == i
  {
    hide Hash, Bucket;
    CountZero(s.ftable, Uses(i));
    var k :| 0 <= k < CTF_MAX_FLOW_TABLE && UsesHop(i, s.ftable[k]);
    f := s.ftable[k].value;
    assert Owned(s.chains, k, f);
  }

  lemma CachedHopMeans(s: Fa, mac: Mac)
    requires Indexed(s)
    ensures var c := CachedHop(s.chains, 0, mac);
            && (c.Some? ==> InCache(s, c.value) && c.value.dhost == mac)
            && (c.None? ==> forall f :: InCache(s, f) ==> f.dhost != mac)
  {
    hide Hash, Bucket;
    CachedHopFinds(s.chains, 0, mac);
    var c := CachedHop(s.chains, 0, mac);
    if c.Some? {
      var h, j :| 0 <= h < FA_NAPT_SZ && 0 <= j < |s.chains[h]| && s.chains[h][j] == c.value;
      ChainedIsCached(s, h, j);
    } else {
      forall f | InCache(s, f) ensures f.dhost != mac {
        var j :| 0 <= j < |s.chains[Hash(f.key)]| && s.chains[Hash(f.key)][j] == f;
      }
    }
  }

  /** A destination that no flow has and no row holds gets the index at the head of the list. */
  lemma AddNhopFresh(s: Fa, mac: Mac, row: HopRow)
    requires Indexed(s) && Quiet(s.hw) && s.hops.freeIdx != NHOP_FULL
    requires forall f :: InCache(s, f) ==> f.dhost != mac
    requires forall i :: 0 <= i < NHOP_FULL ==> NhDa(s.hw.nh[i]) != mac
    ensures var r := AddNhop(s, mac, row);
            && r.ret == Ok && r.nh == s.hops.freeIdx && r.hops == Ref(GetNext(s.hops), r.nh)
            && r.hw == s.hw.(tick := r.hw.tick, nh := s.hw.nh[r.nh := row])
  {
    hide Hash, Bucket, NhDa, InBounds;
    CachedHopMeans(s, mac);
    var p := FindNhop(s, mac);
    assert p.0 == Absent;
  }

  /** A destination that some flow has shares that flow's index. */
  lemma AddNhopShared(s: Fa, mac: Mac, row: HopRow)
    requires Indexed(s) && HopsHold(s) && Quiet(s.hw) && s.hops.freeIdx != NHOP_FULL
    requires exists f :: InCache(s, f) && f.dhost == mac
    ensures var r := AddNhop(s, mac, row);
            && r.ret == Ok && r.hops == Ref(s.hops, r.nh) && r.hw == s.hw.(tick := r.hw.tick)
            && (forall f :: InCache(s, f) && f.dhost == mac ==> f.nh == r.nh)
  {
    hide Hash, Bucket, NhDa, InBounds;
    CachedHopMeans(s, mac);
    var c := CachedHop(s.chains, 0, mac);
    assert c.Some?;
    assert HopSays(s.hw.nh, c.value);
    assert FindNhop(s, mac).0 == Found(c.value.nh);
  }

  /** In an agreeing state the two cases are all there are. */
  lemma RowsAreUsers(s: Fa, mac: Mac)
    requires Agree(s) && mac != ZERO_MAC && forall f :: InCache(s, f) ==> f.dhost != mac
    ensures forall i :: 0 <= i < NHOP_FULL ==> NhDa(s.hw.nh[i]) != mac
  {
    hide Hash, Bucket, NhDa, InBounds, InCache, Users, Partitioned, Indexed;
    ZeroHopMac();
    forall i | 0 <= i < NHOP_FULL ensures NhDa(s.hw.nh[i]) != mac {
      if Users(s, i) > 0 {
        var f := UserExists(s, i);
        assert HopSays(s.hw.nh, f);
      }
    }
  }

  // ------------------------------------------------------------------ additions

  /** What an admitted request does once it has its next hop, when nothing times out. */
  lemma QuietAdd(s: Fa, q: Request) returns (f: Flow, hw: Hw)
    requires Shape(s) && Quiet(s.hw) && Admit(s, q).Some? && AddNhop(s, q.dhost, HopRowFor(q)).ret == Ok
    ensures var hop := AddNhop(s, q.dhost, HopRowFor(q));
            && FlowShape(f) && f == FlowFor(q, hop.nh, f.pool, Admit(s, q).value)
            && HwShape(hw) && hw.nh == hop.hw.nh && hw.io == s.hw.io
            && hw.nf == s.hw.nf[f.slot := PrepIpv4(FieldsOf(f))]
            && Add(s, q) == (Insert(WithHw(s, hop.hops, hw), f), Ok)
  {
    hide Hash, Bucket, PrepIpv4, FieldsOf, HopRowFor, Insert, Admit, NpSa, NpExternal, SetNpEntry;
    var hop := AddNhop(s, q.dhost, HopRowFor(q));
    AddNhopRows(s, q.dhost, HopRowFor(q));
    AddNhopIo(s, q.dhost, HopRowFor(q));
    hide AddNhop;
    var p := AddPool(hop.hw, q.shost, q.snat);
    hide AddPool;
    f := FlowFor(q, hop.nh, p.pool, Admit(s, q).value);
    hw := WriteFlowRow(p.hw, f.slot, PrepIpv4(FieldsOf(f)));
  }

  lemma AddNhopIo(s: Fa, mac: Mac, row: HopRow)
    requires Shape(s)
    ensures AddNhop(s, mac, row).hw.io == s.hw.io
  {
    hide Hash, NhDa, FindNhop;
    FindNhopReads(s, mac);
  }

  /** The next hop a new flow gets keeps the allocator sound and its row right. */
  ghost predicate GoodHop(s: Fa, mac: Mac, hops: NextHops, nh: seq<HopRow>, i: nat)
    requires Shape(s)
  {
    && InBounds(hops) && |nh| == NHOP_FULL && i < NHOP_FULL && Partitioned(hops)
    && NhDa(nh[i]) == mac
    && hops.refs == s.hops.refs[i := s.hops.refs[i] + 1]
    && (forall k :: 0 <= k < NHOP_FULL && k != i ==> nh[k] == s.hw.nh[k])
    && (forall f :: InCache(s, f) ==> (f.nh == i <==> f.dhost == mac))
  }

  lemma FreshIsGood(s: Fa, mac: Mac, row: HopRow)
    requires Agree(s) && Quiet(s.hw) && s.hops.freeIdx != NHOP_FULL && mac != ZERO_MAC && NhDa(row) == mac
    requires forall f :: InCache(s, f) ==> f.dhost != mac
    ensures var r := AddNhop(s, mac, row);
            r.ret == Ok && GoodHop(s, mac, r.hops, r.hw.nh, r.nh)
  {
    hide Hash, Bucket, NhDa, InCache, Users, AddNhop, Partition, GetNext;
    RowsAreUsers(s, mac);
    AddNhopFresh(s, mac, row);
    var r := AddNhop(s, mac, row);
    var free :| Partition(s.hops, free);
    GetKeepsPartition(s.hops, free);
    assert Partition(r.hops, free[1..]);
    GetRefs(s.hops);
    forall f | InCache(s, f) ensures f.nh != r.nh {
      CachedUses(s, f);
      assert HopSays(s.hw.nh, f);
    }
  }

  lemma GetRefs(n: NextHops)
    requires InBounds(n) && n.freeIdx != NHOP_FULL && n.refs[n.freeIdx] == 0
    ensures Ref(GetNext(n), n.freeIdx).refs == n.refs[n.freeIdx := 1]
  {
  }

  lemma SharedIsGood(s: Fa, mac: Mac, row: HopRow)
    requires Agree(s) && Quiet(s.hw) && s.hops.freeIdx != NHOP_FULL && mac != ZERO_MAC
    requires exists f :: InCache(s, f) && f.dhost == mac
    ensures var r := AddNhop(s, mac, row);
            r.ret == Ok && GoodHop(s, mac, r.hops, r.hw.nh, r.nh)
  {
    hide Hash, Bucket, NhDa, InCache, Users, AddNhop, Partition, HopsHold, NoStrayRows, Consistent;
    AddNhopShared(s, mac, row);
    var r := AddNhop(s, mac, row);
    var g :| InCache(s, g) && g.dhost == mac;
    Holds(s, g);
    CachedUses(s, g);
    var free :| Partition(s.hops, free);
    RefKeepsPartition(s.hops, free, r.nh);
    assert Partition(r.hops, free);
    RefRefs(s.hops, r.nh);
    forall f | InCache(s, f) ensures f.nh == r.nh <==> f.dhost == mac {
      Holds(s, f);
    }
  }

  lemma Holds(s: Fa, f: Flow)
    requires Shape(s) && HopsHold(s) && InCache(s, f)
    ensures HopSays(s.hw.nh, f)
  {
    hide Hash, InCache;
  }

  lemma RefRefs(n: NextHops, i: nat)
    requires InBounds(n) && i < NHOP_FULL && n.refs[i] < REF_LIMIT - 1
    ensures Ref(n, i).refs == n.refs[i := n.refs[i] + 1]
  {
  }

  lemma HopIsGood(s: Fa, mac: Mac, row: HopRow)
    requires Agree(s) && Quiet(s.hw) && s.hops.freeIdx != NHOP_FULL && mac != ZERO_MAC && NhDa(row) == mac
    ensures var r := AddNhop(s, mac, row);
            r.ret == Ok && GoodHop(s, mac, r.hops, r.hw.nh, r.nh)
  {
    hide Agree, InCache, AddNhop, Shape;
    if exists f :: InCache(s, f) && f.dhost == mac {
      SharedIsGood(s, mac, row);
    } else {
      FreshIsGood(s, mac, row);
    }
  }

  /** Inserting the flow that a good next hop was found for. */
  lemma InsertAgree(s: Fa, hops: NextHops, hw: Hw, f: Flow)
    requires Agree(s) && FlowShape(f) && HwShape(hw) && f.dhost != ZERO_MAC
    requires GoodHop(s, f.dhost, hops, hw.nh, f.nh) && s.ftable[f.slot].None?
    requires forall i :: 0 <= i < CTF_MAX_FLOW_TABLE && i != f.slot ==> hw.nf[i] == s.hw.nf[i]
    requires Consistent(Insert(WithHw(s, hops, hw), f))
    ensures Agree(Insert(WithHw(s, hops, hw), f))
  {
    hide Hash, Bucket, NhDa, IsValid, Insert, Consistent, Partitioned;
    var w := WithHw(s, hops, hw);
    var s' := Insert(w, f);
    InsertHops(w, f);
    InsertFtable(w, f);
    assert HopsCounted(s') by {
      WithHwUsers(s, hops, hw);
      hide Users;
      forall i | 0 <= i < NHOP_FULL
        ensures s'.hops.refs[i] == Users(s', i) && (Users(s', i) == 0 ==> s'.hw.nh[i] == ZERO_HOP)
      {
        InsertUsers(w, f, i);
      }
    }
    assert HopsHold(s') by {
      InsertMembers(w, f);
      forall g ensures InCache(w, g) <==> InCache(s, g) {
      }
      hide InCache;
      forall g | InCache(s', g) ensures HopSays(s'.hw.nh, g) {
        assert g == f || HopSays(s.hw.nh, g);
      }
    }
  }

  lemma InsertFtable(s: Fa, f: Flow)
    requires Shape(s) && FlowShape(f)
    ensures Insert(s, f).ftable == s.ftable[f.slot := Some(f)]
  {
    hide Hash;
  }

  lemma HopRowForMac(q: Request)
    ensures NhDa(HopRowFor(q)) == q.dhost
  {
    hide NhDa, SetNhEntry, TciFor;
    NhRoundTrip(q.dhost, 0, if q.tag then CTF_NH_OP_CTAG else CTF_NH_OP_NOTAG, TciFor(q));
  }

  /** Without timeouts, adding a flow whose destination address is not zero keeps the agreement;
      it succeeds exactly when the request is admitted and the allocator is not exhausted. */
  lemma AddAgree(s: Fa, q: Request)
    requires Agree(s) && Quiet(s.hw) && q.dhost != ZERO_MAC
    ensures Agree(Add(s, q).0)
    ensures Add(s, q).1 == if Admit(s, q).None? then Error else if s.hops.freeIdx == NHOP_FULL then Busy else Ok
  {
    hide Hash, Bucket, NhDa, Admit, AddNhop, GoodHop, Insert, FieldsOf, PrepIpv4, Agree, Consistent;
    if Admit(s, q).Some? {
      if s.hops.freeIdx == NHOP_FULL {
        AddExhausted(s, q);
      } else {
        HopRowForMac(q);
        HopIsGood(s, q.dhost, HopRowFor(q));
        var hop := AddNhop(s, q.dhost, HopRowFor(q));
        var f, hw := QuietAdd(s, q);
        AddConsistent(s, q);
        AdmitMeans(s, q);
        InsertAgree(s, hop.hops, hw, f);
      }
    }
  }

  /** An exhausted allocator refuses every request, also one whose destination has an index. */
  lemma AddExhausted(s: Fa, q: Request)
    requires Shape(s) && Admit(s, q).Some? && s.hops.freeIdx == NHOP_FULL
    ensures Add(s, q) == (s, Busy)
  {
    hide Hash, Bucket, Admit;
  }

  /** However many there are: while the list is exhausted no addition changes anything. */
  lemma {:induction false} ExhaustedStays(s: Fa, es: seq<Event>)
    requires Shape(s) && s.hops.freeIdx == NHOP_FULL && forall k :: 0 <= k < |es| ==> es[k].AddEv?
    ensures Run(s, es) == s
    decreases |es|
  {
    hide Add, Admit, Shape;
    if es != [] {
      assert Add(s, es[0].q).0 == s by { RefusedStays(s, es[0].q); }
      ExhaustedStays(s, es[1..]);
    }
  }

  lemma RefusedStays(s: Fa, q: Request)
    requires Shape(s) && s.hops.freeIdx == NHOP_FULL
    ensures Add(s, q).0 == s
  {
    hide Admit, Hash, Bucket;
    if Admit(s, q).Some? {
      AddExhausted(s, q);
    }
  }

  // ------------------------------------------------------------------ deletions

  /** The flow is the last user of its next hop. */
  ghost predicate LastUser(s: Fa, f: Flow)
    requires Shape(s) && FlowShape(f)
  {
    s.hops.refs[f.nh] == 1
  }

  /** The hardware half of a deletion, when nothing times out. */
  lemma QuietDelHw(hops: NextHops, hw: Hw, f: Flow)
    requires InBounds(hops) && HwShape(hw) && FlowShape(f) && Quiet(hw) && IsValid(hw.nf[f.slot])
    ensures var (hops', hw', ret) := DelHw(hops, hw, f);
            && ret == Ok && hw'.io == hw.io
            && hw'.nf == hw.nf[f.slot := MarkInvalid(hw.nf[f.slot])]
            && (if Unref(hops, f.nh).refs[f.nh] == 0
                then hops' == PutNext(Unref(hops, f.nh), f.nh) && hw'.nh == hw.nh[f.nh := ZERO_HOP]
                else hops' == Unref(hops, f.nh) && hw'.nh == hw.nh)
  {
    hide MarkInvalid, IsValid;
  }

  /** Nobody else in the cache uses the next hop of the last user. */
  lemma NoOtherUser(s: Fa, h: nat, k: nat)
    requires Indexed(s) && h < FA_NAPT_SZ && k < |s.chains[h]| && Users(s, s.chains[h][k].nh) == 1
    ensures forall g :: InCache(s, g) && g != s.chains[h][k] ==> g.nh != s.chains[h][k].nh
  {
    hide Hash, Bucket, InCache, Users, Remove;
    var f := s.chains[h][k];
    var r := Remove(s, h, k);
    RemoveUsers(s, h, k, f.nh);
    RemoveIndexed(s, h, k);
    RemoveMembers(s, h, k);
    forall g | InCache(s, g) && g != f ensures g.nh != f.nh {
      CachedUses(r, g);
    }
  }

  /** What a deletion leaves of the agreement whatever happens to the free list. */
  ghost predicate AgreeButList(s: Fa)
    ensures AgreeButList(s) ==> Consistent(s)
  {
    Consistent(s) && HopsCounted(s) && HopsHold(s) && NoZeroMac(s) && NoStrayRows(s)
  }

  /** What the hardware half of an undisturbed deletion leaves behind. */
  ghost predicate Released(s: Fa, f: Flow, hops: NextHops, hw: Hw)
    requires Shape(s) && FlowShape(f)
  {
    && InBounds(hops) && HwShape(hw) && s.hops.refs[f.nh] > 0
    && hw.nf == s.hw.nf[f.slot := MarkInvalid(s.hw.nf[f.slot])]
    && hops.refs == s.hops.refs[f.nh := s.hops.refs[f.nh] - 1]
    && hw.nh == if LastUser(s, f) then s.hw.nh[f.nh := ZERO_HOP] else s.hw.nh
  }

  lemma RemoveAgree(s: Fa, h: nat, k: nat, hops: NextHops, hw: Hw)
    requires Agree(s) && h < FA_NAPT_SZ && k < |s.chains[h]| && Released(s, s.chains[h][k], hops, hw)
    ensures AgreeButList(WithHw(Remove(s, h, k), hops, hw))
  {
    hide Hash, Bucket, NhDa, IsValid, MarkInvalid, Remove, InCache, Users, RowsAgree, Partitioned, Lookup;
    var f := s.chains[h][k];
    var r := Remove(s, h, k);
    var s' := WithHw(r, hops, hw);
    RemoveConsistent(s, h, k, hops, hw);
    RemoveIndexed(s, h, k);
    WithHwUsers(r, hops, hw);
    RemovedCounts(s, h, k, hops, hw);
    RemovedHolds(s, h, k, hops, hw);
    RemovedStray(s, h, k, hops, hw);
  }

  lemma RemovedCounts(s: Fa, h: nat, k: nat, hops: NextHops, hw: Hw)
    requires Agree(s) && h < FA_NAPT_SZ && k < |s.chains[h]| && Released(s, s.chains[h][k], hops, hw)
    ensures HopsCounted(WithHw(Remove(s, h, k), hops, hw))
  {
    hide Hash, Bucket, Remove, Users, Consistent, Partitioned, HopsHold, NoStrayRows;
    var r := Remove(s, h, k);
    var s' := WithHw(r, hops, hw);
    WithHwUsers(r, hops, hw);
    forall i | 0 <= i < NHOP_FULL
      ensures s'.hops.refs[i] == Users(s', i) && (Users(s', i) == 0 ==> s'.hw.nh[i] == ZERO_HOP)
    {
      RemoveUsers(s, h, k, i);
    }
  }

  lemma RemovedHolds(s: Fa, h: nat, k: nat, hops: NextHops, hw: Hw)
    requires Agree(s) && h < FA_NAPT_SZ && k < |s.chains[h]| && Released(s, s.chains[h][k], hops, hw)
    ensures HopsHold(WithHw(Remove(s, h, k), hops, hw)) && NoZeroMac(WithHw(Remove(s, h, k), hops, hw))
  {
    hide Hash, Bucket, NhDa, Remove, Users, Partitioned, NoStrayRows;
    var f := s.chains[h][k];
    var r := Remove(s, h, k);
    RemoveMembers(s, h, k);
    var s' := WithHw(r, hops, hw);
    forall g ensures InCache(s', g) <==> InCache(r, g) {
    }
    hide InCache;
    if LastUser(s, f) {
      NoOtherUser(s, h, k);
    }
    forall g | InCache(s', g) ensures HopSays(s'.hw.nh, g) {
      Holds(s, g);
    }
  }

  lemma RemovedStray(s: Fa, h: nat, k: nat, hops: NextHops, hw: Hw)
    requires Agree(s) && h < FA_NAPT_SZ && k < |s.chains[h]| && Released(s, s.chains[h][k], hops, hw)
    ensures NoStrayRows(WithHw(Remove(s, h, k), hops, hw))
  {
    hide Hash, Bucket, IsValid, MarkInvalid, Consistent, Partitioned, HopsHold, HopsCounted;
    var f := s.chains[h][k];
    MarkInvalidOnly(s.hw.nf[f.slot]);
  }

  /** The flow a deletion of this tuple would be the last to leave its next hop with an exhausted
      free list. */
  ghost predicate FreesOnFull(s: Fa, key: Tuple)
    requires Consistent(s)
  {
    s.hops.freeIdx == NHOP_FULL && Lookup(s, key).Some? && FlowShape(Lookup(s, key).value)
    && LastUser(s, Lookup(s, key).value)
  }

  /** Without timeouts, a deletion keeps the agreement of all tables; it keeps the free list a
      list exactly when it does not free an index while the list is exhausted. */
  lemma DelAgree(s: Fa, key: Tuple)
    requires Agree(s) && Quiet(s.hw)
    ensures AgreeButList(Del(s, key).0) && Del(s, key).1 == Ok
    ensures Partitioned(Del(s, key).0.hops) <==> !FreesOnFull(s, key)
  {
    hide Hash, Bucket, NhDa, IsValid, MarkInvalid, Remove, InCache, Users, Partitioned, DelHw, RowsAgree;
    var h := Hash(key);
    var k := Find(s.chains[h], key);
    if k < |s.chains[h]| {
      var f := s.chains[h][k];
      ChainedIsCached(s, h, k);
      CachedRowValid(s, f);
      CachedUses(s, f);
      QuietDelHw(s.hops, s.hw, f);
      var (hops, hw, _) := DelHw(s.hops, s.hw, f);
      UnrefRefs(s.hops, f.nh);
      RemoveAgree(s, h, k, hops, hw);
      DelList(s.hops, f.nh);
    }
  }

  lemma UnrefRefs(n: NextHops, i: nat)
    requires InBounds(n) && i < NHOP_FULL && n.refs[i] > 0
    ensures Unref(n, i).refs == n.refs[i := n.refs[i] - 1]
    ensures PutNext(Unref(n, i), i).refs == n.refs[i := n.refs[i] - 1]
  {
  }

  lemma DelList(n: NextHops, i: nat)
    requires Partitioned(n) && i < NHOP_FULL && n.refs[i] > 0
    ensures n.refs[i] > 1 ==> Partitioned(Unref(n, i))
    ensures n.refs[i] == 1 ==> (Partitioned(PutNext(Unref(n, i), i)) <==> n.freeIdx != NHOP_FULL)
  {
    if n.refs[i] > 1 {
      var free :| Partition(n, free);
      UnrefKeepsPartition(n, free, i);
    } else {
      PutKeepsPartitionIff(n, i);
    }
  }

  /** The assertion in fa_delete_nhop_entry: a cached flow's index is off the free list, its cell is
      clean, and somebody refers to it. */
  lemma DeleteAssertHolds(s: Fa, f: Flow)
    requires Agree(s) && InCache(s, f)
    ensures f.nh < NHOP_FULL && s.hops.flist[f.nh] == 0 && s.hops.refs[f.nh] != 0
  {
    CachedFlow(s, f);
    CachedUses(s, f);
    hide Partitioned, Users, Hash, InCache, Consistent, HopsHold, NoZeroMac, NoStrayRows, Placed, Lookup, Bucket;
    UsedCellClean(s.hops, f.nh);
  }

  lemma UsedCellClean(n: NextHops, i: nat)
    requires Partitioned(n) && i < NHOP_FULL
    ensures |n.refs| == |n.flist| == NHOP_FULL && (n.refs[i] != 0 ==> n.flist[i] == 0)
  {
    var free :| Partition(n, free);
  }
}
