/** Rows that are valid in the hardware without a flow in the cache: exactly which steps leave one. */
module FlowCacheStray {
  import opened FlowKey
  import opened FlowRows
  import opened NextHopList
  import opened Options
  import opened FlowCache
  import opened FlowCacheIndex
  import opened FlowCacheRuns
  import opened FlowCacheReferences
  import opened FlowCacheAgreement
  import opened FlowCacheExact
  import opened FlowCacheStart
  import opened FlowCacheSound

  lemma PackedValid(f: RowFields)
    ensures IsValid(PrepIpv4(f))
  {
    hide Ntoh32, Host16, Word1, Word2, Word3, IsTcp;
  }

  // ------------------------------------------------------------------ one step, exactly

  /** The driver gives an addition up although its row is written. */
  predicate StrayAdd(s: Fa, q: Request)
    requires Shape(s)
  {
    && Admit(s, q).Some? && HopFor(s, q).ret == Ok
    && var p := AddPool(HopFor(s, q).hw, q.shost, q.snat); !p.busy && p.hw.io(p.hw.tick) == TimedOut(true)
  }

  /** The driver forgets a flow although its row was not reached, or was not cleared. */
  predicate StrayDel(s: Fa, key: Tuple)
    requires Shape(s)
  {
    Lookup(s, key).Some? && (NowBusy(s.hw) || s.hw.io(s.hw.tick + 1) == TimedOut(false))
  }

  /** What an addition that does not succeed does to the NAPT table. */
  lemma BusyRows(s: Fa, q: Request)
    requires Shape(s) && Add(s, q).1 != Ok
    ensures Add(s, q).0.ftable == s.ftable
    ensures !StrayAdd(s, q) ==> Add(s, q).0.hw.nf == s.hw.nf
    ensures StrayAdd(s, q) ==> Admit(s, q).Some? && exists f :: Add(s, q).0.hw.nf == s.hw.nf[Admit(s, q).value := PrepIpv4(f)]
  {
    AddNhopRows(s, q.dhost, HopRowFor(q));
    hide Hash, Bucket, PrepIpv4, FieldsOf, HopRowFor, Insert, Admit, AddNhop, AddPool, Shape;
  }

  lemma NotStray(s: Fa, q: Request)
    requires Shape(s) && Add(s, q).1 == Ok
    ensures !StrayAdd(s, q)
  {
    hide Hash, Bucket, PrepIpv4, FieldsOf, HopRowFor, Insert, Admit, AddNhop, AddPool;
  }

  lemma OkRows(s: Fa, q: Request)
    requires Shape(s) && Add(s, q).1 == Ok
    ensures var t := Add(s, q).0;
            forall i :: 0 <= i < CTF_MAX_FLOW_TABLE && t.ftable[i].None? ==> s.ftable[i].None? && t.hw.nf[i] == s.hw.nf[i]
  {
    hide Hash, Bucket, PrepIpv4, FieldsOf, Admit, Add, Insert;
    var hops, hw, nh, pool := AddForm(s, q);
    var f := FlowFor(q, nh, pool, Admit(s, q).value);
    InsertFtable(WithHw(s, hops, hw), f);
    InsertHops(WithHw(s, hops, hw), f);
  }

  /** Whatever the hardware does: an addition leaves no stray row if and only if it is not given up
      after its row was written. */
  lemma AddStrayIff(s: Fa, q: Request)
    requires Shape(s) && NoStrayRows(s)
    ensures NoStrayRows(Add(s, q).0) <==> !StrayAdd(s, q)
  {
    hide Add, Admit, StrayAdd, IsValid, PrepIpv4;
    if Add(s, q).1 == Ok {
      OkRows(s, q);
      NotStray(s, q);
    } else {
      BusyRows(s, q);
      if StrayAdd(s, q) {
        var f :| Add(s, q).0.hw.nf == s.hw.nf[Admit(s, q).value := PrepIpv4(f)];
        PackedValid(f);
        assert Add(s, q).0.ftable[Admit(s, q).value].None?;
      }
    }
  }

  /** What the hardware half of a deletion does to the row of the flow. */
  lemma DelHwRow(hops: NextHops, hw: Hw, f: Flow)
    requires InBounds(hops) && HwShape(hw) && FlowShape(f) && IsValid(hw.nf[f.slot])
    ensures IsValid(DelHw(hops, hw, f).1.nf[f.slot]) <==> NowBusy(hw) || hw.io(hw.tick + 1) == TimedOut(false)
  {
    MarkInvalidOnly(hw.nf[f.slot]);
    hide MarkInvalid, IsValid, PutNext, Unref;
  }

  lemma RemovedSlot(s: Fa, h: nat, k: nat)
    requires Shape(s) && h < FA_NAPT_SZ && k < |s.chains[h]|
    ensures FlowShape(s.chains[h][k]) && Remove(s, h, k).ftable == s.ftable[s.chains[h][k].slot := None]
  {
  }

  /** Whatever the hardware does: a deletion leaves no stray row if and only if the tuple is not
      cached, or its row is read in time and its write is not lost. */
  lemma DelStrayIff(s: Fa, key: Tuple)
    requires Consistent(s) && NoStrayRows(s)
    ensures NoStrayRows(Del(s, key).0) <==> !StrayDel(s, key)
  {
    hide Del, Hash, DelHw, Remove, Consistent, IsValid, InCache, Lookup;
    if Lookup(s, key).Some? {
      var h, k := DelParts(s, key);
      var f := s.chains[h][k];
      RemovedSlot(s, h, k);
      DelHwRow(s.hops, s.hw, f);
      DelHwRows(s.hops, s.hw, f);
      assert Del(s, key).0.ftable[f.slot].None?;
    } else {
      DelUnknown(s, key);
    }
  }

  lemma CountStray(s: Fa, idx: nat, row: FlowRow)
    requires Shape(s) && NoStrayRows(s)
    ensures NoStrayRows(Step(s, CountEv(idx, row)).0)
  {
    hide IsValid, SameButCounters;
    if idx < CTF_MAX_FLOW_TABLE && SameButCounters(row, s.hw.nf[idx]) {
      CountedValid(row, s.hw.nf[idx]);
    }
  }

  predicate StrayStep(s: Fa, e: Event)
    requires Shape(s)
  {
    match e
    case AddEv(q) => StrayAdd(s, q)
    case DelEv(key) => StrayDel(s, key)
    case CountEv(_, _) => false
  }

  lemma StepStrayIff(s: Fa, e: Event)
    requires Consistent(s) && NoStrayRows(s)
    ensures NoStrayRows(Step(s, e).0) <==> !StrayStep(s, e)
  {
    hide Add, Del, StrayAdd, StrayDel, NoStrayRows, Consistent, Shape;
    match e
    case AddEv(q) => AddStrayIff(s, q);
    case DelEv(key) => DelStrayIff(s, key);
    case CountEv(idx, row) => CountStray(s, idx, row);
  }

  // ------------------------------------------------------------------ all runs

  ghost predicate NeverStrays(s: Fa, es: seq<Event>)
    requires Shape(s)
    decreases |es|
  {
    es == [] || (!StrayStep(s, es[0]) && NeverStrays(Step(s, es[0]).0, es[1..]))
  }

  /** No row is valid without a flow, at the start and after each step of the run. */
  ghost predicate NoStrayThroughout(s: Fa, es: seq<Event>)
    requires Shape(s)
    decreases |es|
  {
    NoStrayRows(s) && (es == [] || NoStrayThroughout(Step(s, es[0]).0, es[1..]))
  }

  lemma {:induction false} NoStrayIff(s: Fa, es: seq<Event>)
    requires Consistent(s) && NoStrayRows(s)
    ensures NoStrayThroughout(s, es) <==> NeverStrays(s, es)
    decreases |es|
  {
    hide Step, Consistent, NoStrayRows, StrayStep, Shape;
    if es != [] {
      StepConsistent(s, es[0]);
      StepStrayIff(s, es[0]);
      if NoStrayRows(Step(s, es[0]).0) {
        NoStrayIff(Step(s, es[0]).0, es[1..]);
      }
    }
  }

  /** From the start, in every run with any timeouts: the accelerator translates for cached flows only
      if and only if no addition is given up after its row was written, and no flow is forgotten whose
      row was not reached. */
  lemma StrayFromInit(io: nat -> Access, es: seq<Event>)
    ensures NoStrayThroughout(Init(io), es) <==> NeverStrays(Init(io), es)
  {
    InitConsistent(io);
    InitRows(io);
    hide *;
    NoStrayIff(Init(io), es);
  }

  // ------------------------------------------------------------------ from the start

  /** Only the flow row of the first addition is late. */
  function LateRow(t: nat): Access {
    if t == FIRST - 1 then TimedOut(true) else Done
  }

  /** Only the access after the first addition is lost. */
  function LostRead(t: nat): Access {
    if t == FIRST then TimedOut(false) else Done
  }

  lemma StrayAddFromInit(q: Request)
    requires Plain(q)
    ensures var (s, ret) := Add(Init(LateRow), q);
            && ret == Busy && AsMap(s) == map[] && !NoStrayRows(s)
  {
    var io := LateRow;
    FirstInTime();
    InitAdmits(io, q);
    FirstHop(io, q);
    InitStart(io, q.dhost);
    InitConsistent(io);
    InitRows(io);
    hide Init, HopFor, Admit, AddPool, Add, AsMap, NoStrayRows, Consistent, HopRowFor, Reset, Ref, GetNext, InCache;
    InitPool(HopFor(Init(io), q).hw, q);
    AddStrayIff(Init(io), q);
    AddConsistent(Init(io), q);
    if Add(Init(io), q).1 == Ok {
      NotStray(Init(io), q);
    }
    AddHops(Init(io), q);
  }

  lemma FirstInTime()
    ensures DoneBetween(LateRow, 0, FIRST - 1) && DoneBetween(LateRow, NHOP_FULL + 1, FIRST - 1)
    ensures LateRow(FIRST - 1) == TimedOut(true)
    ensures DoneBetween(LostRead, 0, FIRST) && LostRead(FIRST) != Done
  {
  }

  lemma StrayDelFromInit(q: Request)
    requires Plain(q)
    ensures var s := Add(Init(LostRead), q).0;
            var (t, ret) := Del(s, q.key);
            && q.key in AsMap(s) && NoStrayRows(s) && ret == Busy && AsMap(t) == map[] && !NoStrayRows(t)
  {
    var io := LostRead;
    FirstInTime();
    FirstAdd(io, q);
    InitConsistent(io);
    InitStart(io, q.dhost);
    InitRows(io);
    var s := Add(Init(io), q).0;
    AddConsistent(Init(io), q);
    AddStrayIff(Init(io), q);
    NotStray(Init(io), q);
    hide Init, Add, Del, AsMap, NoStrayRows, Consistent, HopFor, HopRowFor, Reset, Ref, GetNext, StrayAdd, Shape, InCache;
    ConsistentIndexed(s);
    AsMapIsLookup(s, q.key);
    DelStrayIff(s, q.key);
    DelConsistent(s, q.key);
    BusyDel(s, q.key);
  }

  lemma BusyDel(s: Fa, key: Tuple)
    requires Shape(s) && Lookup(s, key).Some? && NowBusy(s.hw)
    ensures Del(s, key).1 == Busy
  {
    hide Hash, Remove;
  }
}
