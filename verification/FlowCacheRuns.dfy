/** What holds of the connection cache in every run, timeouts included: the index is a map, each
    cached flow's hardware row says what the flow says. */
module FlowCacheRuns {
  import opened FlowKey
  import opened FlowRows
  import opened NextHopList
  import opened Options
  import opened FlowCache
  import opened FlowCacheIndex
  import opened Counting

  /** The hardware row of a flow is valid and decodes to the flow's tuple, its next-hop and pool
      indices, its action and the translation that was asked for. */
  ghost predicate RowSays(nf: seq<FlowRow>, f: Flow)
    requires |nf| == CTF_MAX_FLOW_TABLE
  {
    FlowShape(f) && Decode(nf[f.slot]) == Expected(FieldsOf(f))
  }

  ghost predicate RowsAgree(s: Fa)
    requires Shape(s)
  {
    forall f :: InCache(s, f) ==> RowSays(s.hw.nf, f)
  }

  ghost predicate Consistent(s: Fa)
    ensures Consistent(s) ==> Indexed(s)
  {
    Indexed(s) && RowsAgree(s)
  }

  lemma InitConsistent(io: nat -> Access)
    ensures Consistent(Init(io))
  {
    hide Hash, Reset;
    InitIndexed(io);
    assert forall f :: !InCache(Init(io), f);
  }

  lemma WidthOfFields(q: Request, nh: nat, pool: nat, slot: nat)
    requires nh < NHOP_FULL && pool < CTF_MAX_POOL_TABLE_INDEX && slot < CTF_MAX_FLOW_TABLE
    ensures InWidth(FieldsOf(FlowFor(q, nh, pool, slot)))
  {
    assert (nh as bv32) < 128;
    assert (pool as bv32) < 4;
    assert ActionFor(q) < 4;
  }

  /** A change of the hardware that leaves the rows of cached flows as they are. */
  lemma OtherRows(s: Fa, hops: NextHops, hw: Hw)
    requires Consistent(s) && InBounds(hops) && HwShape(hw)
    requires forall i :: 0 <= i < CTF_MAX_FLOW_TABLE && s.ftable[i].Some? ==> hw.nf[i] == s.hw.nf[i]
    ensures Consistent(WithHw(s, hops, hw))
  {
    hide Hash, Bucket, Decode, Expected, FieldsOf;
    var s' := WithHw(s, hops, hw);
    forall f | InCache(s', f) ensures RowSays(hw.nf, f) {
      assert InCache(s, f);
      CachedFlow(s, f);
    }
  }

  lemma InsertConsistent(s: Fa, f: Flow)
    requires Consistent(s) && FlowShape(f) && s.ftable[f.slot].None? && Lookup(s, f.key).None?
    requires f.slot / CTF_MAX_BUCKET_INDEX == Bucket(f.key) && RowSays(s.hw.nf, f)
    ensures Consistent(Insert(s, f))
  {
    hide Hash, Bucket, Decode, Expected, FieldsOf, Lookup, InCache, Indexed;
    InsertIndexed(s, f);
    InsertMembers(s, f);
  }

  lemma RemoveConsistent(s: Fa, h: nat, k: nat, hops: NextHops, hw: Hw)
    requires Consistent(s) && h < FA_NAPT_SZ && k < |s.chains[h]| && InBounds(hops) && HwShape(hw)
    requires forall i :: 0 <= i < CTF_MAX_FLOW_TABLE && i != s.chains[h][k].slot ==> hw.nf[i] == s.hw.nf[i]
    ensures Consistent(WithHw(Remove(s, h, k), hops, hw))
  {
    hide Hash, Bucket, Decode, Expected, FieldsOf;
    RemoveIndexed(s, h, k);
    RemoveMembers(s, h, k);
    var r := Remove(s, h, k);
    assert Consistent(r);
    OtherRows(r, hops, hw);
  }

  // ------------------------------------------------------------------ one addition

  /** The three ways fa_napt_add can end, and what it has written by then. */
  ghost predicate AddEnds(s: Fa, q: Request, hops: NextHops, hw: Hw, nh: nat, pool: nat, r: (Fa, Ret))
    requires Shape(s)
  {
    match r.1
    case Error => Admit(s, q).None? && r.0 == s
    case Busy =>
      && Admit(s, q).Some? && InBounds(hops) && HwShape(hw) && r.0 == WithHw(s, hops, hw)
      && (forall i :: 0 <= i < CTF_MAX_FLOW_TABLE && i != Admit(s, q).value ==> hw.nf[i] == s.hw.nf[i])
      && (hops.refs == s.hops.refs || (nh < NHOP_FULL && hops.refs == Ref(s.hops, nh).refs))
    case Ok =>
      && Admit(s, q).Some? && InBounds(hops) && HwShape(hw) && nh < NHOP_FULL && pool < CTF_MAX_POOL_TABLE_INDEX
      && hops.refs == Ref(s.hops, nh).refs
      && var f := FlowFor(q, nh, pool, Admit(s, q).value);
         hw.nf == s.hw.nf[f.slot := PrepIpv4(FieldsOf(f))] && r.0 == Insert(WithHw(s, hops, hw), f)
  }

  lemma AddForm(s: Fa, q: Request) returns (hops: NextHops, hw: Hw, nh: nat, pool: nat)
    requires Shape(s)
    ensures AddEnds(s, q, hops, hw, nh, pool, Add(s, q))
  {
    hide Hash, Bucket, PrepIpv4, FieldsOf, HopRowFor, Insert, Admit;
    var slot := Admit(s, q);
    var hop := AddNhop(s, q.dhost, HopRowFor(q));
    hops, hw, nh, pool := hop.hops, hop.hw, hop.nh, 0;
    if slot.Some? {
      AddNhopRows(s, q.dhost, HopRowFor(q));
      hide AddNhop;
      if hop.ret != Busy {
        var p := AddPool(hop.hw, q.shost, q.snat);
        hw, pool := p.hw, p.pool;
        if !p.busy {
          var f := FlowFor(q, nh, pool, slot.value);
          hw := WriteFlowRow(p.hw, slot.value, PrepIpv4(FieldsOf(f)));
        }
      }
    }
  }

  lemma FindNhopReads(s: Fa, mac: Mac)
    requires Shape(s)
    ensures FindNhop(s, mac).1 == s.hw.(tick := FindNhop(s, mac).1.tick)
  {
    hide Hash, NhDa;
  }

  lemma AddNhopRows(s: Fa, mac: Mac, row: HopRow)
    requires Shape(s)
    ensures AddNhop(s, mac, row).hw.nf == s.hw.nf
    ensures var r := AddNhop(s, mac, row);
            r.hops.refs == if r.ret == Ok then Ref(s.hops, r.nh).refs else s.hops.refs
  {
    hide Hash, NhDa, FindNhop;
    FindNhopReads(s, mac);
  }

  lemma AdmitMeans(s: Fa, q: Request)
    requires Shape(s) && Admit(s, q).Some?
    ensures Lookup(s, q.key).None? && s.ftable[Admit(s, q).value].None?
    ensures Admit(s, q).value / CTF_MAX_BUCKET_INDEX == Bucket(q.key)
  {
    hide Hash, Bucket, Lookup;
  }

  /** Whatever the hardware does, an addition keeps the cache consistent; it adds exactly the
      flow that was asked for when it succeeds, and changes no lookup when it does not. */
  lemma AddConsistent(s: Fa, q: Request)
    requires Consistent(s)
    ensures Consistent(Add(s, q).0)
    ensures var m, m' := AsMap(s), AsMap(Add(s, q).0);
            if Add(s, q).1 == Ok
            then && q.key !in m && q.key in m'
                 && m'[q.key] == FlowFor(q, m'[q.key].nh, m'[q.key].pool, m'[q.key].slot)
                 && m' == m[q.key := m'[q.key]]
            else m' == m
  {
    hide Hash, Bucket, Lookup, AsMap, Admit, Add, Insert, PrepIpv4, FieldsOf, Expected, Decode, Consistent, Shape;
    var hops, hw, nh, pool := AddForm(s, q);
    if Add(s, q).1 == Busy {
      AdmitMeans(s, q);
      OtherRows(s, hops, hw);
      SameMap(s, hops, hw);
    } else if Add(s, q).1 == Ok {
      AdmitMeans(s, q);
      AddOk(s, hops, hw, q, nh, pool, Admit(s, q).value);
    }
  }

  lemma SameMap(s: Fa, hops: NextHops, hw: Hw)
    requires Shape(s) && InBounds(hops) && HwShape(hw)
    ensures AsMap(WithHw(s, hops, hw)) == AsMap(s)
  {
    hide Hash;
    assert Keys(WithHw(s, hops, hw)) == Keys(s);
  }

  lemma AddOk(s: Fa, hops: NextHops, hw: Hw, q: Request, nh: nat, pool: nat, slot: nat)
    requires Consistent(s) && InBounds(hops) && HwShape(hw)
    requires nh < NHOP_FULL && pool < CTF_MAX_POOL_TABLE_INDEX && slot < CTF_MAX_FLOW_TABLE
    requires s.ftable[slot].None? && Lookup(s, q.key).None? && slot / CTF_MAX_BUCKET_INDEX == Bucket(q.key)
    requires hw.nf == s.hw.nf[slot := PrepIpv4(FieldsOf(FlowFor(q, nh, pool, slot)))]
    ensures var f := FlowFor(q, nh, pool, slot);
            var s' := Insert(WithHw(s, hops, hw), f);
            Consistent(s') && q.key !in AsMap(s) && AsMap(s') == AsMap(s)[q.key := f]
  {
    hide Hash, Bucket, AsMap, PrepIpv4, FieldsOf, Expected, Decode, ActionFor, InWidth;
    var f := FlowFor(q, nh, pool, slot);
    WidthOfFields(q, nh, pool, slot);
    PrepRoundTrip(FieldsOf(f));
    OtherRows(s, hops, hw);
    var w := WithHw(s, hops, hw);
    SameMap(s, hops, hw);
    assert Lookup(w, q.key) == Lookup(s, q.key);
    InsertConsistent(w, f);
    InsertMap(w, f);
    AsMapIsLookup(s, q.key);
  }

  // ------------------------------------------------------------------ one deletion

  /** The row of a cached flow is valid, so _fa_napt_del never takes its early exit. */
  lemma CachedRowValid(s: Fa, f: Flow)
    requires Consistent(s) && InCache(s, f)
    ensures FlowShape(f) && IsValid(s.hw.nf[f.slot])
  {
    hide Hash, InCache, Indexed, FieldsOf;
    assert RowSays(s.hw.nf, f);
    MarkInvalidOnly(s.hw.nf[f.slot]);
    hide Decode, Expected, IsValid;
    ExpectedValid(FieldsOf(f));
  }

  lemma ExpectedValid(f: RowFields)
    ensures Expected(f).valid
  {
  }

  lemma DelHwRows(hops: NextHops, hw: Hw, f: Flow)
    requires InBounds(hops) && HwShape(hw) && FlowShape(f)
    ensures forall i :: 0 <= i < CTF_MAX_FLOW_TABLE && i != f.slot ==> DelHw(hops, hw, f).1.nf[i] == hw.nf[i]
  {
    hide MarkInvalid, IsValid;
  }

  /** Whatever the hardware does, a deletion keeps the cache consistent and takes exactly the
      named tuple out of it. */
  lemma DelConsistent(s: Fa, key: Tuple)
    requires Consistent(s)
    ensures Consistent(Del(s, key).0)
    ensures AsMap(Del(s, key).0) == AsMap(s) - {key}
    ensures key !in AsMap(s) ==> Del(s, key) == (s, Ok)
  {
    hide Hash, Bucket, AsMap, DelHw, Remove, RowsAgree;
    var h := Hash(key);
    var chain := s.chains[h];
    var k := Find(chain, key);
    AsMapIsLookup(s, key);
    if k == |chain| {
      assert AsMap(s) - {key} == AsMap(s);
    } else {
      var f := chain[k];
      var (hops, hw, ret) := DelHw(s.hops, s.hw, f);
      DelHwRows(s.hops, s.hw, f);
      RemoveConsistent(s, h, k, hops, hw);
      RemoveIndexed(s, h, k);
      RemoveMap(s, h, k);
      SameMap(Remove(s, h, k), hops, hw);
    }
  }

  // ------------------------------------------------------------------ all runs

  lemma CountConsistent(s: Fa, idx: nat, row: FlowRow)
    requires Consistent(s)
    ensures Consistent(Step(s, CountEv(idx, row)).0)
    ensures AsMap(Step(s, CountEv(idx, row)).0) == AsMap(s)
  {
    hide Hash, Bucket, Decode, Expected, FieldsOf, SameButCounters;
    var s' := Step(s, CountEv(idx, row)).0;
    SameMap(s, s.hops, s'.hw);
    forall f | InCache(s', f) ensures RowSays(s'.hw.nf, f) {
      assert InCache(s, f);
      assert RowSays(s.hw.nf, f);
      if f.slot == idx && SameButCounters(row, s.hw.nf[idx]) {
        CountersDoNotShow(row, s.hw.nf[idx]);
      }
    }
  }

  lemma StepConsistent(s: Fa, e: Event)
    requires Consistent(s)
    ensures Consistent(Step(s, e).0)
  {
    hide Add, Del, Consistent, Shape;
    match e
    case AddEv(q) => AddConsistent(s, q);
    case DelEv(key) => DelConsistent(s, key);
    case CountEv(idx, row) => CountConsistent(s, idx, row);
  }

  /** After any run, with any timeouts: the cache is an index, every cached flow's hardware row
      is valid and says what the flow says, and the flow counter is the number of flows. */
  lemma {:induction false} AllRunsConsistent(s: Fa, es: seq<Event>)
    requires Consistent(s)
    ensures Consistent(Run(s, es))
    ensures |AsMap(Run(s, es))| == Run(s, es).nflows
    decreases |es|
  {
    if es == [] {
      CounterIsSize(s);
    } else {
      hide Step, Consistent, Shape, Indexed, AsMap;
      StepConsistent(s, es[0]);
      AllRunsConsistent(Step(s, es[0]).0, es[1..]);
    }
  }

  // ------------------------------------------------------------------ what a run builds

  /** The requests that a history leaves in force: an addition counts when it reported success,
      a deletion always. */
  ghost function InForce(s: Fa, m: map<Tuple, Request>, es: seq<Event>): map<Tuple, Request>
    requires Shape(s)
    decreases |es|
  {
    if es == [] then m
    else InForce(Step(s, es[0]).0, InForceStep(m, es[0], Step(s, es[0]).1), es[1..])
  }

  function InForceStep(m: map<Tuple, Request>, e: Event, ret: Ret): map<Tuple, Request> {
    match e
    case AddEv(q) => if ret == Ok then m[q.key := q] else m
    case DelEv(key) => m - {key}
    case CountEv(_, _) => m
  }

  /** A flow carries out a request. */
  predicate CarriesOut(f: Flow, q: Request) {
    f == FlowFor(q, f.nh, f.pool, f.slot)
  }

  ghost predicate Matches(m: map<Tuple, Flow>, d: map<Tuple, Request>) {
    (forall t :: t in m <==> t in d) && (forall t :: t in m ==> CarriesOut(m[t], d[t]))
  }

  lemma StepMatches(s: Fa, d: map<Tuple, Request>, e: Event)
    requires Consistent(s) && Matches(AsMap(s), d)
    ensures Matches(AsMap(Step(s, e).0), InForceStep(d, e, Step(s, e).1))
  {
    hide Add, Del, Consistent, Shape, AsMap;
    match e
    case AddEv(q) => AddConsistent(s, q);
    case DelEv(key) => DelConsistent(s, key);
    case CountEv(idx, row) => CountConsistent(s, idx, row);
  }

  /** After any run, with any timeouts: the cache holds exactly the requests in force, and what a
      lookup of their tuples finds carries them out. */
  lemma {:induction false} AllRunsMatch(s: Fa, d: map<Tuple, Request>, es: seq<Event>)
    requires Consistent(s) && Matches(AsMap(s), d)
    ensures Matches(AsMap(Run(s, es)), InForce(s, d, es))
    decreases |es|
  {
    if es != [] {
      hide Step, Consistent, Matches, AsMap, Shape, Indexed;
      StepConsistent(s, es[0]);
      StepMatches(s, d, es[0]);
      AllRunsMatch(Step(s, es[0]).0, InForceStep(d, es[0], Step(s, es[0]).1), es[1..]);
    }
  }

  // ------------------------------------------------------------------ references

  predicate UsesHop(i: nat, o: Option<Flow>) {
    o.Some? && o.value.nh == i
  }

  function Uses(i: nat): Option<Flow> -> bool {
    o => UsesHop(i, o)
  }

  /** The number of cached flows whose next hop has index i. */
  function Users(s: Fa, i: nat): (n: nat)
    requires Shape(s)
    ensures n <= CTF_MAX_FLOW_TABLE
  {
    Count(s.ftable, Uses(i))
  }

  lemma InsertUsers(s: Fa, f: Flow, i: nat)
    requires Shape(s) && FlowShape(f) && s.ftable[f.slot].None?
    ensures Users(Insert(s, f), i) == Users(s, i) + if f.nh == i then 1 else 0
  {
    hide Hash;
    CountUpdate(s.ftable, Uses(i), f.slot, Some(f));
  }

  lemma RemoveUsers(s: Fa, h: nat, k: nat, i: nat)
    requires Indexed(s) && h < FA_NAPT_SZ && k < |s.chains[h]|
    ensures Users(Remove(s, h, k), i) == Users(s, i) - if s.chains[h][k].nh == i then 1 else 0
  {
    hide Hash, Bucket;
    var f := s.chains[h][k];
    assert Placed(s.ftable, h, f);
    CountUpdate(s.ftable, Uses(i), f.slot, None);
  }

  lemma CachedUses(s: Fa, f: Flow)
    requires Indexed(s) && InCache(s, f)
    ensures Users(s, f.nh) > 0
  {
    hide Hash, Bucket, Lookup;
    CachedFlow(s, f);
    CountPositive(s.ftable, Uses(f.nh), f.slot);
  }

  lemma WithHwUsers(s: Fa, hops: NextHops, hw: Hw)
    requires Shape(s) && InBounds(hops) && HwShape(hw)
    ensures forall i :: Users(WithHw(s, hops, hw), i) == Users(s, i)
  {
  }

  lemma InsertHops(s: Fa, f: Flow)
    requires Shape(s) && FlowShape(f)
    ensures Insert(s, f).hops == s.hops && Insert(s, f).hw == s.hw
  {
    hide Hash;
  }

  lemma DelHwRefs(hops: NextHops, hw: Hw, f: Flow)
    requires InBounds(hops) && HwShape(hw) && FlowShape(f) && IsValid(hw.nf[f.slot])
    ensures DelHw(hops, hw, f).2 != Error
    ensures DelHw(hops, hw, f).0.refs == if DelHw(hops, hw, f).2 == Ok then Unref(hops, f.nh).refs else hops.refs
  {
    hide MarkInvalid, IsValid;
  }

  /** At the start nobody uses a next hop. */
  lemma InitUsers(io: nat -> Access)
    ensures forall i :: Users(Init(io), i) == 0
  {
    var s := Init(io);
    forall i ensures Users(s, i) == 0 {
      CountZero(s.ftable, Uses(i));
    }
  }
}
