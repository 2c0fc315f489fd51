/** Exactly when the flow cache meets its promises, and what happens when it does not. */
module FlowCacheExact {
  import opened FlowKey
  import opened FlowRows
  import opened NextHopList
  import opened Options
  import opened FlowCache
  import opened FlowCacheIndex
  import opened FlowCacheRuns
  import opened FlowCacheAgreement
  import opened Counting

  // ------------------------------------------------------------------ a zero destination address

  /** A zero destination address matches the first unused row, which stays on the free list. */
  lemma ZeroMacHop(s: Fa, row: HopRow)
    requires Agree(s) && Quiet(s.hw) && s.hops.freeIdx != NHOP_FULL
    ensures var r := AddNhop(s, ZERO_MAC, row);
            r.ret == Ok && s.hops.refs[r.nh] == 0 && r.hops == Ref(s.hops, r.nh)
  {
    ZeroMacFound(s);
    hide FindNhop, HopsCounted, Consistent, HopsHold, Partitioned;
  }

  lemma ZeroMacFound(s: Fa)
    requires Agree(s) && Quiet(s.hw) && s.hops.freeIdx != NHOP_FULL
    ensures var p := FindNhop(s, ZERO_MAC).0;
            p.Found? && p.idx < NHOP_FULL && s.hops.refs[p.idx] == 0 && s.hw.nh[p.idx] == ZERO_HOP
  {
    hide Hash, Bucket, NhDa, InCache, Users, Indexed, RowsAgree, HopsHold;
    CachedHopMeans(s, ZERO_MAC);
    ZeroHopMac();
    var (probe, hw) := FindNhop(s, ZERO_MAC);
    FreeIsUnused(s);
    assert NhDa(s.hw.nh[s.hops.freeIdx]) == ZERO_MAC;
    assert probe.Found?;
    if Users(s, probe.idx) > 0 {
      var f := UserExists(s, probe.idx);
      Holds(s, f);
    }
  }

  lemma FreeIsUnused(s: Fa)
    requires Agree(s) && s.hops.freeIdx != NHOP_FULL
    ensures s.hops.refs[s.hops.freeIdx] == 0 && s.hw.nh[s.hops.freeIdx] == ZERO_HOP
  {
    hide Hash, Users, Consistent, HopsHold, NoStrayRows;
    var free :| Partition(s.hops, free);
    assert free[0] == s.hops.freeIdx;
    assert free[0] in free;
  }

  lemma ZeroMacAdd(s: Fa, q: Request)
    requires Agree(s) && Quiet(s.hw) && q.dhost == ZERO_MAC && Admit(s, q).Some? && s.hops.freeIdx != NHOP_FULL
    ensures Add(s, q).1 == Ok && !Partitioned(Add(s, q).0.hops)
  {
    hide Hash, Bucket, NhDa, AddNhop, Admit, Insert, Agree, Partitioned, FieldsOf, PrepIpv4;
    ZeroMacHop(s, HopRowFor(q));
    var hop := AddNhop(s, q.dhost, HopRowFor(q));
    var f, hw := QuietAdd(s, q);
    InsertHops(WithHw(s, hop.hops, hw), f);
    AgreeParts(s);
    RefOfFreeBreaks(s.hops, hop.nh);
  }

  lemma AgreeParts(s: Fa)
    requires Agree(s)
    ensures Partitioned(s.hops) && AgreeButList(s)
  {
  }

  lemma AgreeFromParts(s: Fa)
    requires AgreeButList(s) && Partitioned(s.hops)
    ensures Agree(s)
  {
  }

  // ------------------------------------------------------------------ one step, exactly

  /** The steps that keep the agreement: an addition must not carry a zero destination address
      past the checks, a deletion must not free an index while none is free. */
  ghost predicate CleanStep(s: Fa, e: Event)
    requires Consistent(s)
  {
    match e
    case AddEv(q) => q.dhost != ZERO_MAC || Admit(s, q).None? || s.hops.freeIdx == NHOP_FULL
    case DelEv(key) => !FreesOnFull(s, key)
    case CountEv(_, _) => true
  }

  lemma CountAgree(s: Fa, idx: nat, row: FlowRow)
    requires Agree(s)
    ensures Agree(Step(s, CountEv(idx, row)).0)
  {
    hide Hash, Bucket, IsValid, SameButCounters, Users, Partitioned, NhDa, Consistent;
    CountConsistent(s, idx, row);
    var s' := Step(s, CountEv(idx, row)).0;
    WithHwUsers(s, s.hops, s'.hw);
    forall f ensures InCache(s', f) <==> InCache(s, f) {
    }
    hide InCache;
    forall i | 0 <= i < CTF_MAX_FLOW_TABLE && s'.ftable[i].None? ensures !IsValid(s'.hw.nf[i]) {
      if i == idx && SameButCounters(row, s.hw.nf[idx]) {
        CountedValid(row, s.hw.nf[idx]);
      }
    }
  }

  lemma CountedValid(now: FlowRow, was: FlowRow)
    requires SameButCounters(now, was)
    ensures IsValid(now) == IsValid(was)
  {
  }

  /** Without timeouts a step keeps cache and hardware in agreement exactly when it is clean. */
  lemma StepAgreesIffClean(s: Fa, e: Event)
    requires Agree(s) && Quiet(s.hw)
    ensures Agree(Step(s, e).0) <==> CleanStep(s, e)
  {
    hide Add, Del, Admit, Agree, AgreeButList, Partitioned, FreesOnFull, Lookup, Shape;
    match e
    case AddEv(q) =>
      if q.dhost != ZERO_MAC {
        AddAgree(s, q);
      } else if Admit(s, q).None? || s.hops.freeIdx == NHOP_FULL {
        RefusedAdd(s, q);
      } else {
        ZeroMacAdd(s, q);
        if Agree(Add(s, q).0) {
          AgreeParts(Add(s, q).0);
        }
      }
    case DelEv(key) =>
      DelAgree(s, key);
      if !FreesOnFull(s, key) {
        AgreeFromParts(Del(s, key).0);
      } else if Agree(Del(s, key).0) {
        AgreeParts(Del(s, key).0);
      }
    case CountEv(idx, row) =>
      CountAgree(s, idx, row);
  }

  lemma RefusedAdd(s: Fa, q: Request)
    requires Shape(s) && (Admit(s, q).None? || s.hops.freeIdx == NHOP_FULL)
    ensures Add(s, q).0 == s
  {
    hide Hash, Bucket, Admit;
  }

  // ------------------------------------------------------------------ all clean runs

  ghost predicate CleanRun(s: Fa, es: seq<Event>)
    requires Consistent(s)
    decreases |es|
  {
    es == [] || (CleanStep(s, es[0]) && (StepConsistent(s, es[0]); CleanRun(Step(s, es[0]).0, es[1..])))
  }

  /** The outcome of accesses is not up to the driver. */
  lemma StepIo(s: Fa, e: Event)
    requires Shape(s)
    ensures Step(s, e).0.hw.io == s.hw.io
  {
    match e
    case AddEv(q) => AddIo(s, q);
    case DelEv(key) => DelIo(s, key);
    case CountEv(_, _) =>
  }

  lemma AddIo(s: Fa, q: Request)
    requires Shape(s)
    ensures Add(s, q).0.hw.io == s.hw.io
  {
    hide Hash, Bucket, PrepIpv4, FieldsOf, HopRowFor, Insert, Admit, NpSa, NpExternal, SetNpEntry;
    AddNhopIo(s, q.dhost, HopRowFor(q));
    var slot := Admit(s, q);
    if slot.Some? {
      var hop := AddNhop(s, q.dhost, HopRowFor(q));
      hide AddNhop;
      if hop.ret != Busy {
        var p := AddPool(hop.hw, q.shost, q.snat);
        hide AddPool;
        if !p.busy {
          var f := FlowFor(q, hop.nh, p.pool, slot.value);
          InsertHops(WithHw(s, hop.hops, WriteFlowRow(p.hw, slot.value, PrepIpv4(FieldsOf(f)))), f);
        }
      }
    }
  }

  lemma DelIo(s: Fa, key: Tuple)
    requires Shape(s)
    ensures Del(s, key).0.hw.io == s.hw.io
  {
    hide Hash, IsValid, MarkInvalid, Remove;
  }

  /** Every run in which nothing times out and every step is clean ends with cache and hardware
      in full agreement. */
  lemma {:induction false} CleanRunsAgree(s: Fa, es: seq<Event>)
    requires Agree(s) && Quiet(s.hw) && CleanRun(s, es)
    ensures Agree(Run(s, es))
    decreases |es|
  {
    if es != [] {
      hide Step, Agree, CleanStep, Shape, Consistent;
      StepAgreesIffClean(s, es[0]);
      StepIo(s, es[0]);
      CleanRunsAgree(Step(s, es[0]).0, es[1..]);
    }
  }

  /** Cache and hardware agree at the start and after each step of the run. */
  ghost predicate AgreeThroughout(s: Fa, es: seq<Event>)
    requires Shape(s)
    decreases |es|
  {
    Agree(s) && (es == [] || AgreeThroughout(Step(s, es[0]).0, es[1..]))
  }

  /** And no other run stays in agreement all the way. */
  lemma {:induction false} AgreeThroughoutIff(s: Fa, es: seq<Event>)
    requires Agree(s) && Quiet(s.hw)
    ensures AgreeThroughout(s, es) <==> CleanRun(s, es)
    decreases |es|
  {
    if es != [] {
      hide Step, Agree, CleanStep, Shape, Consistent;
      StepAgreesIffClean(s, es[0]);
      StepIo(s, es[0]);
      if Agree(Step(s, es[0]).0) {
        AgreeThroughoutIff(Step(s, es[0]).0, es[1..]);
      }
    }
  }

  /** Both from the start. */
  lemma CleanRunsFromInit(io: nat -> Access, es: seq<Event>)
    requires Quiet(Init(io).hw)
    ensures Consistent(Init(io))
    ensures AgreeThroughout(Init(io), es) <==> CleanRun(Init(io), es)
    ensures CleanRun(Init(io), es) ==> Agree(Run(Init(io), es))
  {
    InitAgree(io);
    hide *;
    AgreeThroughoutIff(Init(io), es);
    if CleanRun(Init(io), es) {
      CleanRunsAgree(Init(io), es);
    }
  }

  // ------------------------------------------------------------------ buckets

  /** The flows in the four slots of bucket b. */
  ghost function BucketFlows(s: Fa, b: nat): set<Flow>
    requires Shape(s) && b < 256
  {
    set i | 4 * b <= i < 4 * b + 4 && s.ftable[i].Some? :: s.ftable[i].value
  }

  /** They are the cached flows whose CRC has this low byte. */
  lemma BucketFlowsAre(s: Fa, b: nat)
    requires Indexed(s) && b < 256
    ensures forall f :: f in BucketFlows(s, b) <==> InCache(s, f) && Bucket(f.key) == b
  {
    hide Hash, Bucket, Lookup;
    forall f ensures f in BucketFlows(s, b) <==> InCache(s, f) && Bucket(f.key) == b {
      if f in BucketFlows(s, b) {
        var i :| 4 * b <= i < 4 * b + 4 && s.ftable[i].Some? && s.ftable[i].value == f;
        assert Owned(s.chains, i, f);
        assert InCache(s, f);
        CachedFlow(s, f);
      }
      if InCache(s, f) && Bucket(f.key) == b {
        CachedFlow(s, f);
        assert s.ftable[f.slot] == Some(f);
      }
    }
  }

  /** There are at most four of them, and four exactly when every slot is used. */
  lemma BucketFlowsCount(s: Fa, b: nat)
    requires Indexed(s) && b < 256
    ensures |BucketFlows(s, b)| <= 4
    ensures |BucketFlows(s, b)| == 4 <==> forall i :: 4 * b <= i < 4 * b + 4 ==> s.ftable[i].Some?
  {
    hide Hash, Bucket, Lookup, InCache;
    var t := s.ftable[4 * b..4 * b + 4];
    assert BucketFlows(s, b) == Values(t) by {
      assert forall i :: 0 <= i < 4 ==> t[i] == s.ftable[4 * b + i];
      ValuesAre(s, b);
    }
    forall i, j | 0 <= i < j < 4 && t[i].Some? && t[j].Some? ensures t[i].value != t[j].value {
      assert Owned(s.chains, 4 * b + i, s.ftable[4 * b + i].value);
      assert Owned(s.chains, 4 * b + j, s.ftable[4 * b + j].value);
    }
    ValuesCount(t);
    CountAll(t);
    AllOfBucket(s.ftable, b, t);
    hide Shape, Indexed, Values, Count, Used, BucketFlows;
  }

  lemma AllOfBucket(ftable: seq<Option<Flow>>, b: nat, t: seq<Option<Flow>>)
    requires |ftable| == CTF_MAX_FLOW_TABLE && b < 256 && t == ftable[4 * b..4 * b + 4]
    ensures (forall i :: 0 <= i < 4 ==> t[i].Some?) <==> forall i :: 4 * b <= i < 4 * b + 4 ==> ftable[i].Some?
  {
    if forall i :: 0 <= i < 4 ==> t[i].Some? {
      forall i | 4 * b <= i < 4 * b + 4 ensures ftable[i].Some? {
        assert t[i - 4 * b] == ftable[i];
      }
    }
  }

  ghost function Values(t: seq<Option<Flow>>): set<Flow> {
    set i | 0 <= i < |t| && t[i].Some? :: t[i].value
  }

  lemma ValuesAre(s: Fa, b: nat)
    requires Shape(s) && b < 256
    ensures BucketFlows(s, b) == Values(s.ftable[4 * b..4 * b + 4])
  {
    hide Hash;
    var t := s.ftable[4 * b..4 * b + 4];
    forall f ensures f in BucketFlows(s, b) <==> f in Values(t) {
      if f in BucketFlows(s, b) {
        var i :| 4 * b <= i < 4 * b + 4 && s.ftable[i].Some? && s.ftable[i].value == f;
        assert t[i - 4 * b] == Some(f);
      }
      if f in Values(t) {
        var i :| 0 <= i < 4 && t[i].Some? && t[i].value == f;
        assert s.ftable[4 * b + i] == Some(f);
      }
    }
  }

  lemma {:induction false} ValuesCount(t: seq<Option<Flow>>)
    requires forall i, j :: 0 <= i < j < |t| && t[i].Some? && t[j].Some? ==> t[i].value != t[j].value
    ensures |Values(t)| == Count(t, Used)
  {
    if t == [] {
      assert Values(t) == {};
    } else {
      var rest := t[1..];
      ValuesCount(rest);
      ValuesSplit(t);
      if t[0].Some? {
        assert t[0].value !in Values(rest);
        assert Values(t) == Values(rest) + {t[0].value};
      } else {
        assert Values(t) == Values(rest);
      }
    }
  }

  lemma ValuesSplit(t: seq<Option<Flow>>)
    requires t != []
    ensures forall f :: f in Values(t) <==> f in Values(t[1..]) || (t[0].Some? && t[0].value == f)
  {
    forall f | f in Values(t[1..]) ensures f in Values(t) {
      var i :| 0 <= i < |t[1..]| && t[1..][i].Some? && t[1..][i].value == f;
      assert t[i + 1].value == f;
    }
    forall f | f in Values(t) ensures f in Values(t[1..]) || (t[0].Some? && t[0].value == f) {
      var i :| 0 <= i < |t| && t[i].Some? && t[i].value == f;
      if i > 0 {
        assert t[1..][i - 1].value == f;
      }
    }
  }

  lemma {:induction false} CountAll(t: seq<Option<Flow>>)
    ensures Count(t, Used) == |t| <==> forall i :: 0 <= i < |t| ==> t[i].Some?
  {
    if t != [] {
      CountAll(t[1..]);
      if Count(t, Used) == |t| {
        forall i | 0 <= i < |t| ensures t[i].Some? {
          assert i > 0 ==> t[1..][i - 1].Some?;
        }
      }
    }
  }

  /** Exactly when fa_napt_add refuses a request before it touches anything: a device is not
      ready, the request is for IPv6 or PPP, memory is short, the tuple is cached already, or
      four cached flows share the low byte of its CRC. */
  lemma RefusedExactly(s: Fa, q: Request)
    requires Indexed(s)
    ensures Admit(s, q).None? <==>
              !q.devsOn || q.v6 || q.ppp || !q.memory || q.key in AsMap(s) || |BucketFlows(s, Bucket(q.key))| == 4
  {
    hide Hash, Bucket, Lookup, AsMap, BucketFlows, Indexed;
    AsMapIsLookup(s, q.key);
    BucketFlowsCount(s, Bucket(q.key));
  }

  // ------------------------------------------------------------------ what the hardware can tell apart

  /** The part of a row that packets are matched against. */
  datatype Match = Match(sip: bv32, dip: bv32, tcp: bool, sp: bv32, dp: bv32)

  function MatchOf(r: FlowRow): Match {
    var d := Decode(r);
    Match(d.sip, d.dip, d.tcp, d.sp, d.dp)
  }

  /** The rows of two cached flows match the same packets exactly when the flows differ in
      nothing but a protocol that is not TCP. */
  lemma RowsTellApart(s: Fa, f: Flow, g: Flow)
    requires Consistent(s) && InCache(s, f) && InCache(s, g) && FlowShape(f) && FlowShape(g)
    ensures MatchOf(s.hw.nf[f.slot]) == MatchOf(s.hw.nf[g.slot]) <==>
              f.key.(proto := g.key.proto) == g.key && IsTcp(f.key) == IsTcp(g.key)
  {
    hide Hash, Decode, InCache, Indexed, Ntoh32, Host16, IsTcp;
    assert RowSays(s.hw.nf, f) && RowSays(s.hw.nf, g);
    NtohInjective(f.key.sip, g.key.sip, f.key.sp, g.key.sp);
    NtohInjective(f.key.dip, g.key.dip, f.key.dp, g.key.dp);
  }

  // ------------------------------------------------------------------ freeing an index while none is free

  /** No flow and no row has this destination. */
  ghost predicate Unknown(s: Fa, mac: Mac)
    requires Shape(s)
  {
    && (forall f :: InCache(s, f) ==> f.dhost != mac)
    && (forall i :: 0 <= i < NHOP_FULL ==> NhDa(s.hw.nh[i]) != mac)
  }

  /** An admitted request for an unknown destination takes the index at the head of the list. */
  lemma AddUnknown(s: Fa, q: Request) returns (f: Flow)
    requires Consistent(s) && Quiet(s.hw) && s.hops.freeIdx != NHOP_FULL
    requires Admit(s, q).Some? && Unknown(s, q.dhost)
    ensures var s' := Add(s, q).0;
            && Add(s, q).1 == Ok && Consistent(s') && Quiet(s'.hw)
            && f.key == q.key && f.dhost == q.dhost && f.nh == s.hops.freeIdx
            && (forall g :: InCache(s', g) <==> g == f || InCache(s, g))
            && s'.hw.nh == s.hw.nh[f.nh := HopRowFor(q)]
            && s'.hops.freeIdx == s.hops.flist[f.nh]
  {
    hide Hash, Bucket, NhDa, AddNhop, Admit, Insert, Consistent, FieldsOf, PrepIpv4, HopRowFor;
    AddNhopFresh(s, q.dhost, HopRowFor(q));
    var hop := AddNhop(s, q.dhost, HopRowFor(q));
    var hw;
    f, hw := QuietAdd(s, q);
    var w := WithHw(s, hop.hops, hw);
    AddConsistent(s, q);
    InsertHops(w, f);
    InsertMembers(w, f);
    forall g ensures InCache(w, g) <==> InCache(s, g) {
    }
  }

  /** With an exhausted list every index has a user, so every row holds a cached destination. */
  lemma FullRowsAreUsed(s: Fa, mac: Mac)
    requires Agree(s) && s.hops.freeIdx == NHOP_FULL && forall f :: InCache(s, f) ==> f.dhost != mac
    ensures Unknown(s, mac)
  {
    hide Hash, NhDa, InCache, Users, Consistent, HopsHold, NoStrayRows, Bucket;
    var free :| Partition(s.hops, free);
    assert free == [];
    forall i | 0 <= i < NHOP_FULL ensures NhDa(s.hw.nh[i]) != mac {
      assert s.hops.refs[i] != 0;
      var f := UserExists(s, i);
      Holds(s, f);
    }
  }

  /** A deletion that frees index i while none is free: i comes back as a loop. */
  lemma DelLoops(s: Fa, key: Tuple) returns (i: nat)
    requires Agree(s) && Quiet(s.hw) && FreesOnFull(s, key)
    ensures var s' := Del(s, key).0;
            && Consistent(s') && Quiet(s'.hw) && i < NHOP_FULL
            && i == Lookup(s, key).value.nh
            && s'.hops.freeIdx == i && s'.hops.flist[i] == i
            && s'.hw.nh == s.hw.nh[i := ZERO_HOP]
            && (forall g :: InCache(s', g) ==> InCache(s, g))
  {
    hide Hash, Bucket, NhDa, IsValid, MarkInvalid, Remove, Users, Partitioned, DelHw;
    var h := Hash(key);
    var k := Find(s.chains[h], key);
    var f := s.chains[h][k];
    i := f.nh;
    DelConsistent(s, key);
    ChainedIsCached(s, h, k);
    CachedRowValid(s, f);
    QuietDelHw(s.hops, s.hw, f);
    var (hops, hw, _) := DelHw(s.hops, s.hw, f);
    PutOnFullLoops(Unref(s.hops, i), i);
    RemoveMembers(s, h, k);
    var r := Remove(s, h, k);
    forall g ensures InCache(WithHw(r, hops, hw), g) <==> InCache(r, g) {
    }
  }

  /** What the self-loop does: the next two flows to new destinations are given the same index,
      and the packets of the first are sent to the destination of the second. */
  lemma TwoFlowsOneIndex(s: Fa, key: Tuple, q1: Request, q2: Request)
    requires Agree(s) && Quiet(s.hw) && FreesOnFull(s, key)
    requires q1.dhost != ZERO_MAC && q2.dhost != ZERO_MAC && q1.dhost != q2.dhost
    requires forall f :: InCache(s, f) ==> f.dhost != q1.dhost && f.dhost != q2.dhost
    requires Admit(Del(s, key).0, q1).Some?
    requires Admit(Add(Del(s, key).0, q1).0, q2).Some?
    ensures var s' := Add(Add(Del(s, key).0, q1).0, q2).0;
            && Consistent(s') && Lookup(s', q1.key).Some? && Lookup(s', q2.key).Some?
            && var f1, f2 := Lookup(s', q1.key).value, Lookup(s', q2.key).value;
               && f1.dhost == q1.dhost && f2.dhost == q2.dhost && f1.nh == f2.nh < NHOP_FULL
               && NhDa(s'.hw.nh[f1.nh]) == q2.dhost
  {
    hide Hash, Bucket, NhDa, Lookup, Add, Del, Admit, InCache, Agree, Consistent, HopRowFor;
    FullRowsAreUsed(s, q1.dhost);
    FullRowsAreUsed(s, q2.dhost);
    ZeroHopMac();
    var i := DelLoops(s, key);
    var s1 := Del(s, key).0;
    var f1 := AddUnknown(s1, q1);
    var s2 := Add(s1, q1).0;
    HopRowForMac(q1);
    assert Unknown(s2, q2.dhost);
    var f2 := AddUnknown(s2, q2);
    var s3 := Add(s2, q2).0;
    HopRowForMac(q2);
    assert InCache(s3, f1) && InCache(s3, f2);
    CachedFlow(s3, f1);
    CachedFlow(s3, f2);
  }
}
