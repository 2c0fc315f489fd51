/** Reference counts in every run, timeouts included: exactly when no cached flow is missing from
    the count of its next hop, and exactly how many references too many there are. */
module FlowCacheReferences {
  import opened FlowKey
  import opened FlowRows
  import opened NextHopList
  import opened Options
  import opened FlowCache
  import opened FlowCacheIndex
  import opened FlowCacheRuns

  /** Every cached flow is counted in its next hop. */
  ghost predicate Counted(s: Fa)
    requires Shape(s)
  {
    forall i :: 0 <= i < NHOP_FULL ==> Users(s, i) <= s.hops.refs[i]
  }

  /** The next hop fa_napt_add asks for. */
  function HopFor(s: Fa, q: Request): (r: HopResult)
    requires Shape(s)
    ensures InBounds(r.hops) && HwShape(r.hw) && r.nh < NHOP_FULL && r.ret != Error
  {
    AddNhop(s, q.dhost, HopRowFor(q))
  }

  function One(b: bool): nat {
    if b then 1 else 0
  }

  /** What an addition does to the allocator and to the next-hop table: all of it is done by the
      time the next hop is found. */
  lemma AddHops(s: Fa, q: Request)
    requires Shape(s)
    ensures Admit(s, q).None? ==> Add(s, q) == (s, Error)
    ensures Admit(s, q).Some? ==>
              && Add(s, q).0.hops == HopFor(s, q).hops && Add(s, q).0.hw.nh == HopFor(s, q).hw.nh
              && Add(s, q).1 != Error && (Add(s, q).1 == Ok ==> HopFor(s, q).ret == Ok)
  {
    hide Hash, Bucket, PrepIpv4, FieldsOf, HopRowFor, Insert, Admit;
    var slot := Admit(s, q);
    var hop := HopFor(s, q);
    if slot.Some? && hop.ret != Busy {
      hide AddNhop, HopFor;
      var p := AddPool(hop.hw, q.shost, q.snat);
      hide AddPool;
      if !p.busy {
        var f := FlowFor(q, hop.nh, p.pool, slot.value);
        InsertHops(WithHw(s, hop.hops, WriteFlowRow(p.hw, slot.value, PrepIpv4(FieldsOf(f)))), f);
      }
    }
  }

  /** Where the next hop comes from: a row that holds the address, which nothing is written to, or
      the head of the free list, whose row is written. */
  lemma HopOutcome(s: Fa, q: Request)
    requires Shape(s)
    ensures var r, p := HopFor(s, q), FindNhop(s, q.dhost).0;
            && (r.ret == Ok ==> s.hops.freeIdx != NHOP_FULL && !p.Timeout?)
            && (r.ret == Ok && p.Found? ==> r.nh == p.idx && r.hops == Ref(s.hops, p.idx) && r.hw.nh == s.hw.nh)
            && (r.ret == Ok && p.Absent? ==> r.nh == s.hops.freeIdx && r.hops == Ref(GetNext(s.hops), r.nh)
                                             && r.hw.nh == s.hw.nh[r.nh := HopRowFor(q)])
            && (r.ret != Ok ==> r.hops == s.hops
                                && (r.hw.nh == s.hw.nh
                                    || (s.hops.freeIdx != NHOP_FULL && p.Absent?
                                        && r.hw.nh == s.hw.nh[s.hops.freeIdx := HopRowFor(q)])))
  {
    hide Hash, NhDa, FindNhop, HopRowFor, Ref, GetNext;
    FindNhopReads(s, q.dhost);
  }

  /** The counter of the next hop that is found goes up, and round. */
  lemma AddRefs(s: Fa, q: Request, i: nat)
    requires Shape(s) && i < NHOP_FULL
    ensures s.hops.refs[i] < REF_LIMIT
    ensures Add(s, q).0.hops.refs[i]
         == (s.hops.refs[i] + One(Admit(s, q).Some? && HopFor(s, q).ret == Ok && HopFor(s, q).nh == i)) % REF_LIMIT
  {
    hide Admit, Add, AddNhop, HopRowFor;
    AddHops(s, q);
    AddNhopRows(s, q.dhost, HopRowFor(q));
  }

  lemma AddUsers(s: Fa, q: Request, i: nat)
    requires Shape(s)
    ensures Users(Add(s, q).0, i) == Users(s, i) + One(Add(s, q).1 == Ok && HopFor(s, q).nh == i)
  {
    hide Hash, Bucket, PrepIpv4, FieldsOf, HopRowFor, Insert, Admit, Users;
    var slot := Admit(s, q);
    var hop := HopFor(s, q);
    if slot.Some? {
      hide AddNhop, HopFor;
      AdmitMeans(s, q);
      var p := AddPool(hop.hw, q.shost, q.snat);
      hide AddPool;
      WithHwUsers(s, hop.hops, hop.hw);
      WithHwUsers(s, hop.hops, p.hw);
      var f := FlowFor(q, hop.nh, p.pool, slot.value);
      var hw := WriteFlowRow(p.hw, slot.value, PrepIpv4(FieldsOf(f)));
      WithHwUsers(s, hop.hops, hw);
      InsertUsers(WithHw(s, hop.hops, hw), f, i);
    }
  }

  /** A successful addition, with the pool entry it found. */
  lemma AddedForm(s: Fa, q: Request) returns (w: Fa, f: Flow)
    requires Shape(s) && Add(s, q).1 == Ok
    ensures var p := AddPool(HopFor(s, q).hw, q.shost, q.snat);
            && !p.busy && Shape(w) && w.hw.np == p.hw.np && FlowShape(f)
            && f == FlowFor(q, HopFor(s, q).nh, p.pool, f.slot)
    ensures Add(s, q).0 == Insert(w, f)
  {
    hide Hash, Bucket, PrepIpv4, FieldsOf, HopRowFor, Admit, AddNhop, AddPool, Insert;
    var p := AddPool(HopFor(s, q).hw, q.shost, q.snat);
    f := FlowFor(q, HopFor(s, q).nh, p.pool, Admit(s, q).value);
    w := WithHw(s, HopFor(s, q).hops, WriteFlowRow(p.hw, f.slot, PrepIpv4(FieldsOf(f))));
  }

  /** The flow that it caches. */
  lemma AddedFlow(s: Fa, q: Request) returns (f: Flow)
    requires Shape(s) && Add(s, q).1 == Ok
    ensures var p := AddPool(HopFor(s, q).hw, q.shost, q.snat);
            && !p.busy && Add(s, q).0.hw.np == p.hw.np && f == FlowFor(q, HopFor(s, q).nh, p.pool, f.slot)
    ensures FlowShape(f) && Lookup(Add(s, q).0, q.key) == Some(f)
  {
    hide Shape, Add, Insert, HopFor, AddPool, Lookup;
    var w;
    w, f := AddedForm(s, q);
    InsertedIsFound(w, f);
  }

  lemma InsertedIsFound(w: Fa, f: Flow)
    requires Shape(w) && FlowShape(f)
    ensures Lookup(Insert(w, f), f.key) == Some(f)
    ensures Insert(w, f).hw == w.hw
  {
    hide Hash;
  }

  // ------------------------------------------------------------------ one step, exactly

  /** The increment that goes round: the counter stands at its last value, and the index has a user
      or gets one. */
  ghost predicate Wraps(s: Fa, q: Request)
    requires Shape(s)
  {
    && Admit(s, q).Some? && HopFor(s, q).ret == Ok
    && s.hops.refs[HopFor(s, q).nh] == REF_LIMIT - 1
    && (Users(s, HopFor(s, q).nh) > 0 || Add(s, q).1 == Ok)
  }

  /** Whatever the hardware does, an addition keeps every flow counted if and only if it does not
      make a counter go round. */
  lemma AddCountedIff(s: Fa, q: Request)
    requires Shape(s) && Counted(s)
    ensures Counted(Add(s, q).0) <==> !Wraps(s, q)
  {
    hide Admit, Add, HopFor, Users;
    var s' := Add(s, q).0;
    AddHops(s, q);
    var k := HopFor(s, q).nh;
    AddRefs(s, q, k);
    AddUsers(s, q, k);
    if !Wraps(s, q) {
      forall i | 0 <= i < NHOP_FULL ensures Users(s', i) <= s'.hops.refs[i] {
        AddRefs(s, q, i);
        AddUsers(s, q, i);
      }
    }
  }

  /** A deletion always does. */
  lemma DelCounted(s: Fa, key: Tuple)
    requires Consistent(s) && Counted(s)
    ensures Counted(Del(s, key).0)
  {
    hide Del, Users, Consistent;
    forall i | 0 <= i < NHOP_FULL ensures Users(Del(s, key).0, i) <= Del(s, key).0.hops.refs[i] {
      DelRefs(s, key, i);
    }
  }

  /** Index i loses a user exactly when a cached flow that has it is deleted, and a reference unless
      the deletion ends with a timeout. */
  lemma DelRefs(s: Fa, key: Tuple, i: nat)
    requires Consistent(s) && i < NHOP_FULL && Users(s, i) <= s.hops.refs[i]
    ensures Del(s, key).1 != Error && (Del(s, key).1 == Busy ==> Lookup(s, key).Some?)
    ensures var mine := Lookup(s, key).Some? && Lookup(s, key).value.nh == i;
            && Users(Del(s, key).0, i) == Users(s, i) - One(mine)
            && Del(s, key).0.hops.refs[i] == s.hops.refs[i] - One(mine && Del(s, key).1 == Ok)
  {
    hide Hash, Bucket, DelHw, RowsAgree, Users, Indexed;
    var h := Hash(key);
    var k := Find(s.chains[h], key);
    if k < |s.chains[h]| {
      var f := s.chains[h][k];
      ChainedIsCached(s, h, k);
      CachedRowValid(s, f);
      CachedUses(s, f);
      DelHwRefs(s.hops, s.hw, f);
      var (hops, hw, ret) := DelHw(s.hops, s.hw, f);
      RemoveUsers(s, h, k, i);
      WithHwUsers(Remove(s, h, k), hops, hw);
      hide Remove;
    }
  }

  /** The index at which a step leaves a reference that no flow answers for. */
  ghost function KeptHop(s: Fa, e: Event): Option<nat>
    requires Shape(s)
  {
    match e
    case AddEv(q) =>
      if Admit(s, q).Some? && HopFor(s, q).ret == Ok && Add(s, q).1 == Busy then Some(HopFor(s, q).nh) else None
    case DelEv(key) =>
      if Del(s, key).1 == Busy && Lookup(s, key).Some? then Some(Lookup(s, key).value.nh) else None
    case CountEv(_, _) => None
  }

  ghost predicate StepWraps(s: Fa, e: Event)
    requires Shape(s)
  {
    e.AddEv? && Wraps(s, e.q)
  }

  /** Every step: it keeps every flow counted if and only if it makes no counter go round. */
  lemma StepCountedIff(s: Fa, e: Event)
    requires Consistent(s) && Counted(s)
    ensures Counted(Step(s, e).0) <==> !StepWraps(s, e)
  {
    hide Add, Del, Wraps, Consistent, Users;
    match e
    case AddEv(q) => AddCountedIff(s, q);
    case DelEv(key) => DelCounted(s, key);
    case CountEv(_, _) => WithHwUsers(s, s.hops, Step(s, e).0.hw);
  }

  /** Index i has `extra` references that no cached flow answers for, as far as a 16-bit counter can
      tell. */
  ghost predicate HasExtra(s: Fa, i: nat, extra: nat)
    requires Shape(s) && i < NHOP_FULL
  {
    s.hops.refs[i] == (Users(s, i) + extra) % REF_LIMIT
  }

  lemma AddExtra(s: Fa, q: Request, i: nat, extra: nat)
    requires Shape(s) && i < NHOP_FULL && HasExtra(s, i, extra)
    ensures HasExtra(Add(s, q).0, i, extra + One(KeptHop(s, AddEv(q)) == Some(i)))
  {
    hide Admit, Add, HopFor, Users;
    AddHops(s, q);
    AddRefs(s, q, i);
    AddUsers(s, q, i);
  }

  lemma DelExtra(s: Fa, key: Tuple, i: nat, extra: nat)
    requires Consistent(s) && Counted(s) && i < NHOP_FULL && HasExtra(s, i, extra)
    ensures HasExtra(Del(s, key).0, i, extra + One(KeptHop(s, DelEv(key)) == Some(i)))
  {
    hide Del, Users, Consistent, Lookup;
    DelRefs(s, key, i);
    var gone := Lookup(s, key).Some? && Lookup(s, key).value.nh == i;
    var u, r := Users(s, i), s.hops.refs[i];
    var kept := KeptHop(s, DelEv(key)) == Some(i);
    var t := Del(s, key).0;
    assert kept <==> gone && Del(s, key).1 == Busy;
    assert Users(t, i) == u - One(gone) && t.hops.refs[i] == r - One(gone && !kept);
    hide Counted, KeptHop, Shape;
    Shrunk(u, extra, r, gone, kept);
  }

  lemma Shrunk(u: nat, extra: nat, r: nat, gone: bool, kept: bool)
    requires r == (u + extra) % REF_LIMIT && (gone ==> u > 0 && r > 0) && (kept ==> gone)
    ensures r - One(gone && !kept) == (u - One(gone) + extra + One(kept)) % REF_LIMIT
  {
  }

  lemma StepExtra(s: Fa, e: Event, i: nat, extra: nat)
    requires Consistent(s) && Counted(s) && i < NHOP_FULL && HasExtra(s, i, extra)
    ensures HasExtra(Step(s, e).0, i, extra + One(KeptHop(s, e) == Some(i)))
  {
    hide Add, Del, Users, HopFor, HasExtra, Consistent, Counted, KeptHop;
    match e
    case AddEv(q) => AddExtra(s, q, i, extra);
    case DelEv(key) => DelExtra(s, key, i, extra);
    case CountEv(idx, row) => CountExtra(s, idx, row, i, extra);
  }

  lemma CountExtra(s: Fa, idx: nat, row: FlowRow, i: nat, extra: nat)
    requires Shape(s) && i < NHOP_FULL && HasExtra(s, i, extra)
    ensures KeptHop(s, CountEv(idx, row)) == None && HasExtra(Step(s, CountEv(idx, row)).0, i, extra)
  {
    hide Users;
    WithHwUsers(s, s.hops, Step(s, CountEv(idx, row)).0.hw);
  }

  // ------------------------------------------------------------------ all runs

  /** No step of the run makes a counter go round. */
  ghost predicate NeverWraps(s: Fa, es: seq<Event>)
    requires Shape(s)
    decreases |es|
  {
    es == [] || (!StepWraps(s, es[0]) && NeverWraps(Step(s, es[0]).0, es[1..]))
  }

  /** Every flow is counted at the start and after each step of the run. */
  ghost predicate CountedThroughout(s: Fa, es: seq<Event>)
    requires Shape(s)
    decreases |es|
  {
    Counted(s) && (es == [] || CountedThroughout(Step(s, es[0]).0, es[1..]))
  }

  /** How many steps of the run leave a reference too many at index i. */
  ghost function KeptAt(s: Fa, es: seq<Event>, i: nat): nat
    requires Shape(s)
    decreases |es|
  {
    if es == [] then 0 else One(KeptHop(s, es[0]) == Some(i)) + KeptAt(Step(s, es[0]).0, es[1..], i)
  }

  /** How many steps of the run leave a reference too many anywhere. */
  ghost function KeptSteps(s: Fa, es: seq<Event>): nat
    requires Shape(s)
    decreases |es|
  {
    if es == [] then 0 else One(KeptHop(s, es[0]).Some?) + KeptSteps(Step(s, es[0]).0, es[1..])
  }

  lemma NoSteps(s: Fa, i: nat)
    requires Shape(s)
    ensures Run(s, []) == s && NeverWraps(s, []) && (CountedThroughout(s, []) <==> Counted(s))
    ensures KeptAt(s, [], i) == 0 == KeptSteps(s, [])
  {
    hide Shape, Counted;
  }

  /** What a run is made of. */
  lemma RunParts(s: Fa, es: seq<Event>, i: nat)
    requires Shape(s) && es != []
    ensures Run(s, es) == Run(Step(s, es[0]).0, es[1..])
    ensures NeverWraps(s, es) <==> !StepWraps(s, es[0]) && NeverWraps(Step(s, es[0]).0, es[1..])
    ensures CountedThroughout(s, es) <==> Counted(s) && CountedThroughout(Step(s, es[0]).0, es[1..])
    ensures KeptAt(s, es, i) == One(KeptHop(s, es[0]) == Some(i)) + KeptAt(Step(s, es[0]).0, es[1..], i)
    ensures KeptSteps(s, es) == One(KeptHop(s, es[0]).Some?) + KeptSteps(Step(s, es[0]).0, es[1..])
  {
    hide Step, Shape, StepWraps, Counted, KeptHop;
  }

  /** In every run, timeouts included, each ref[i] stays at least the number of cached flows with
      next hop i if and only if no addition increments a counter that stands at its last value for
      an index in use. */
  lemma {:induction false} CountedIffNeverWraps(s: Fa, es: seq<Event>)
    requires Consistent(s) && Counted(s)
    ensures CountedThroughout(s, es) <==> NeverWraps(s, es)
    decreases |es|
  {
    hide *;
    NoSteps(s, 0);
    if es != [] {
      RunParts(s, es, 0);
      StepConsistent(s, es[0]);
      StepCountedIff(s, es[0]);
      var t := Step(s, es[0]).0;
      if Counted(t) {
        CountedIffNeverWraps(t, es[1..]);
      } else {
        NotThroughout(t, es[1..]);
      }
    }
  }

  lemma NotThroughout(s: Fa, es: seq<Event>)
    requires Shape(s) && !Counted(s)
    ensures !CountedThroughout(s, es)
  {
  }

  /** And then ref[i] is exactly the number of its flows plus the references that steps have left
      behind, to within the 16 bits of the counter. */
  lemma {:induction false} AllRunsReferenced(s: Fa, es: seq<Event>, i: nat, extra: nat)
    requires Consistent(s) && Counted(s) && NeverWraps(s, es) && i < NHOP_FULL && HasExtra(s, i, extra)
    ensures Counted(Run(s, es)) && HasExtra(Run(s, es), i, extra + KeptAt(s, es, i))
    decreases |es|
  {
    hide *;
    NoSteps(s, i);
    if es != [] {
      RunParts(s, es, i);
      StepConsistent(s, es[0]);
      StepCountedIff(s, es[0]);
      StepExtra(s, es[0], i, extra);
      AllRunsReferenced(Step(s, es[0]).0, es[1..], i, extra + One(KeptHop(s, es[0]) == Some(i)));
    }
  }

  /** At most `extra` references too many are held at any index. */
  ghost predicate Surplus(s: Fa, extra: nat)
    requires Shape(s)
  {
    forall i :: 0 <= i < NHOP_FULL ==> s.hops.refs[i] <= Users(s, i) + extra
  }

  /** Below this many surplus references no 16-bit counter can go round. */
  const EXTRA_LIMIT: nat := REF_LIMIT - CTF_MAX_FLOW_TABLE - 1

  lemma StepSurplus(s: Fa, e: Event, extra: nat)
    requires Consistent(s) && Counted(s) && Surplus(s, extra)
    ensures Surplus(Step(s, e).0, extra + One(KeptHop(s, e).Some?))
  {
    hide Add, Del, Users, HopFor, Admit, Consistent, Lookup;
    var t := Step(s, e).0;
    var more := One(KeptHop(s, e).Some?);
    forall i | 0 <= i < NHOP_FULL ensures t.hops.refs[i] <= Users(t, i) + extra + more {
      match e
      case AddEv(q) =>
        AddHops(s, q);
        AddRefs(s, q, i);
        AddUsers(s, q, i);
      case DelEv(key) => DelRefs(s, key, i);
      case CountEv(_, _) => WithHwUsers(s, s.hops, t.hw);
    }
  }

  lemma NoWrapBelow(s: Fa, e: Event, extra: nat)
    requires Shape(s) && Surplus(s, extra) && extra < EXTRA_LIMIT
    ensures !StepWraps(s, e)
  {
    hide Users, Admit, HopFor, Add;
  }

  /** So a run in which fewer than EXTRA_LIMIT steps leave a reference behind makes none go round;
      steps that are refused do not matter, however many there are. */
  lemma {:induction false} FewKeptNeverWraps(s: Fa, es: seq<Event>, extra: nat)
    requires Consistent(s) && Counted(s) && Surplus(s, extra) && extra + KeptSteps(s, es) < EXTRA_LIMIT
    ensures NeverWraps(s, es)
    decreases |es|
  {
    hide *;
    NoSteps(s, 0);
    if es != [] {
      RunParts(s, es, 0);
      NoWrapBelow(s, es[0], extra);
      StepConsistent(s, es[0]);
      StepCountedIff(s, es[0]);
      StepSurplus(s, es[0], extra);
      FewKeptNeverWraps(Step(s, es[0]).0, es[1..], extra + One(KeptHop(s, es[0]).Some?));
    }
  }

  lemma InitCounted(io: nat -> Access)
    ensures Consistent(Init(io)) && Counted(Init(io)) && Surplus(Init(io), 0)
    ensures forall i :: 0 <= i < NHOP_FULL ==> HasExtra(Init(io), i, 0)
  {
    InitConsistent(io);
    InitUsers(io);
    hide Users, Consistent;
  }

  /** From the start: the reference counts after any run, whatever times out. */
  lemma FromInit(io: nat -> Access, es: seq<Event>)
    ensures CountedThroughout(Init(io), es) <==> NeverWraps(Init(io), es)
    ensures NeverWraps(Init(io), es) ==>
              forall i :: 0 <= i < NHOP_FULL ==> HasExtra(Run(Init(io), es), i, KeptAt(Init(io), es, i))
    ensures KeptSteps(Init(io), es) < EXTRA_LIMIT ==> NeverWraps(Init(io), es)
  {
    InitCounted(io);
    hide *;
    CountedIffNeverWraps(Init(io), es);
    if NeverWraps(Init(io), es) {
      forall i | 0 <= i < NHOP_FULL ensures HasExtra(Run(Init(io), es), i, KeptAt(Init(io), es, i)) {
        AllRunsReferenced(Init(io), es, i, 0);
      }
    }
    if KeptSteps(Init(io), es) < EXTRA_LIMIT {
      FewKeptNeverWraps(Init(io), es, 0);
    }
  }
}
