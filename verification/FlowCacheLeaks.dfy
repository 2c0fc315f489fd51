/** Additions that time out keep a reference: what enough of them do to a 16-bit counter. */
module FlowCacheLeaks {
  import opened FlowKey
  import opened FlowRows
  import opened NextHopList
  import opened Options
  import opened FlowCache
  import opened FlowCacheRuns
  import opened FlowCacheReferences
  import opened FlowCacheAgreement
  import opened FlowCacheStart

  /** An addition to a known destination whose pool lookup times out leaves a reference behind. */
  ghost predicate Leaks(s: Fa, q: Request, i: nat)
    requires Shape(s)
  {
    && Admit(s, q).Some? && s.hops.freeIdx != NHOP_FULL && StartIndex(s, q.dhost) == i
    && NhDa(s.hw.nh[i]) == q.dhost
  }

  /** s with i referred to r times, t accesses later. */
  ghost function Later(s: Fa, i: nat, r: nat, t: nat): (s': Fa)
    requires Shape(s) && i < NHOP_FULL && r < REF_LIMIT
    ensures Shape(s')
  {
    WithHw(s, s.hops.(refs := s.hops.refs[i := r]), s.hw.(tick := s.hw.tick + t))
  }

  function RefsOf(s: Fa, i: nat): (r: nat)
    requires Shape(s) && i < NHOP_FULL
    ensures r < REF_LIMIT
  {
    s.hops.refs[i]
  }

  function Round(r: nat): (r': nat)
    ensures r < REF_LIMIT ==> r' == r
    ensures r <= REF_LIMIT ==> r' < REF_LIMIT
  {
    if r == REF_LIMIT then 0 else r
  }

  lemma LeakStep(s: Fa, q: Request, i: nat)
    requires Shape(s) && Leaks(s, q, i)
    requires s.hw.io(s.hw.tick) == Done && s.hw.io(s.hw.tick + 1).TimedOut?
    ensures i < NHOP_FULL && Add(s, q) == (Later(s, i, Round(RefsOf(s, i) + 1), 2), Busy)
  {
    hide Admit, StartIndex, NhDa, NpSa, NpExternal, Shape;
    assert FindNhop(s, q.dhost) == (Found(i), Tick(s.hw));
    assert Tick(Tick(s.hw)) == s.hw.(tick := s.hw.tick + 2);
  }

  lemma LaterLeaks(s: Fa, q: Request, i: nat, r: nat, t: nat)
    requires Shape(s) && Leaks(s, q, i) && r < REF_LIMIT
    ensures Leaks(Later(s, i, r, t), q, i)
  {
    hide Shape, Hash, Bucket, NhDa;
  }

  lemma LaterLater(s: Fa, i: nat, r: nat, t: nat, r': nat, t': nat)
    requires Shape(s) && i < NHOP_FULL && r < REF_LIMIT && r' < REF_LIMIT
    ensures Later(Later(s, i, r, t), i, r', t') == Later(s, i, r', t + t')
    ensures Later(s, i, r, t).hw.io == s.hw.io && Later(s, i, r, t).hw.tick == s.hw.tick + t
    ensures RefsOf(Later(s, i, r, t), i) == r
  {
    hide Hash, FlowShape;
    assert s.hops.refs[i := r][i := r'] == s.hops.refs[i := r'];
  }

  function Again(q: Request, n: nat): (es: seq<Event>)
    ensures |es| == n && forall k :: 0 <= k < n ==> es[k] == AddEv(q)
  {
    seq(n, _ => AddEv(q))
  }

  ghost predicate Pattern(hw: Hw, n: nat) {
    forall k: nat :: k < n ==> hw.io(hw.tick + 2 * k) == Done && hw.io(hw.tick + 2 * k + 1).TimedOut?
  }

  lemma PatternStep(hw: Hw, hw': Hw, n: nat)
    requires Pattern(hw, n) && n > 0 && hw'.io == hw.io && hw'.tick == hw.tick + 2
    ensures hw.io(hw.tick) == Done && hw.io(hw.tick + 1).TimedOut?
    ensures Pattern(hw', n - 1)
  {
    assert hw.io(hw.tick + 2 * 0) == Done && hw.io(hw.tick + 2 * 0 + 1).TimedOut?;
    forall k: nat | k < n - 1
      ensures hw'.io(hw'.tick + 2 * k) == Done && hw'.io(hw'.tick + 2 * k + 1).TimedOut?
    {
      assert hw.io(hw.tick + 2 * (k + 1)) == Done && hw.io(hw.tick + 2 * (k + 1) + 1).TimedOut?;
    }
  }

  lemma RunAgain(s: Fa, q: Request, n: nat)
    requires Shape(s) && n > 0
    ensures Run(s, Again(q, n)) == Run(Add(s, q).0, Again(q, n - 1))
  {
    hide Shape, Add;
    assert Again(q, n)[1..] == Again(q, n - 1);
  }

  /** n such additions: nothing is cached, and the counter has gone up, and round. */
  lemma {:induction false} LeakRun(s: Fa, q: Request, i: nat, n: nat)
    requires Shape(s) && i < NHOP_FULL && Leaks(s, q, i) && 0 < n && RefsOf(s, i) + n <= REF_LIMIT
    requires Pattern(s.hw, n)
    ensures Run(s, Again(q, n)) == Later(s, i, Round(RefsOf(s, i) + n), 2 * n)
    decreases n
  {
    hide Shape, Add, Leaks, Pattern, Later, Again, Run, RefsOf;
    var r := RefsOf(s, i) + 1;
    var t := Later(s, i, Round(r), 2);
    LaterLater(s, i, Round(r), 2, Round(RefsOf(s, i) + n), 2 * (n - 1));
    PatternStep(s.hw, t.hw, n);
    assert Add(s, q).0 == t by { LeakStep(s, q, i); }
    RunAgain(s, q, n);
    if n > 1 {
      LaterLeaks(s, q, i, r, 2);
      LeakRun(t, q, i, n - 1);
    } else {
      NoRun(t, q);
    }
  }

  lemma NoRun(t: Fa, q: Request)
    requires Shape(t)
    ensures Run(t, Again(q, 0)) == t
  {
  }

  /** With enough timeouts the 16-bit counter of a next hop that is in use comes round to zero. */
  lemma CounterComesRound(s: Fa, q: Request, i: nat)
    requires Shape(s) && Leaks(s, q, i) && i < NHOP_FULL && Users(s, i) > 0
    requires Pattern(s.hw, REF_LIMIT - RefsOf(s, i))
    ensures var s' := Run(s, Again(q, REF_LIMIT - RefsOf(s, i)));
            RefsOf(s', i) == 0 && Users(s', i) == Users(s, i)
  {
    var n := REF_LIMIT - RefsOf(s, i);
    hide Leaks, Run, Pattern, Again, Hash;
    LeakRun(s, q, i, n);
  }

  /** The first addition goes through; from then on every other access is lost. */
  function EveryOther(t: nat): Access {
    if t < FIRST || (t - FIRST) % 2 == 0 then Done else TimedOut(false)
  }

  /** It happens from the start: one flow is cached, 65535 more requests for its destination find the
      next hop and lose their pool access, and the counter of the cached flow's next hop is zero. */
  lemma WrapFromInit(q1: Request, q2: Request)
    requires Plain(q1) && Plain(q2) && q1.dhost == q2.dhost && q1.key != q2.key
    ensures var s := Run(Init(EveryOther), [AddEv(q1)] + Again(q2, REF_LIMIT - 1));
            RefsOf(s, 0) == 0 && Users(s, 0) == 1 && !Counted(s)
  {
    hide Add, Init, Shape, Users, Counted, Leaks, Pattern, Run, Again, Plain, RefsOf;
    var s := Add(Init(EveryOther), q1).0;
    RunFirst(EveryOther, q1, Again(q2, REF_LIMIT - 1));
    FirstReady(q1, q2);
    CounterComesRound(s, q2, 0);
    Uncounted(Run(s, Again(q2, REF_LIMIT - 1)));
  }

  lemma FirstReady(q1: Request, q2: Request)
    requires Plain(q1) && Plain(q2) && q1.dhost == q2.dhost && q1.key != q2.key
    ensures var s := Add(Init(EveryOther), q1).0;
            0 < NHOP_FULL && Leaks(s, q2, 0) && Pattern(s.hw, REF_LIMIT - 1) && RefsOf(s, 0) == 1 && Users(s, 0) == 1
  {
    var s := Add(Init(EveryOther), q1).0;
    FirstAdd(EveryOther, q1);
    var f := FirstFlow(EveryOther, q1);
    HopRowForMac(q1);
    hide Add, Init, Users, Reset, HopRowFor, Admit, Consistent, NhDa, Leaks, Pattern, OnlyFlow, HopFor;
    FirstRefs(s);
    WrapReady(s, f, q2);
  }

  lemma Uncounted(s: Fa)
    requires Shape(s) && RefsOf(s, 0) == 0 && Users(s, 0) == 1
    ensures !Counted(s)
  {
    hide Users;
    assert s.hops.refs[0] < Users(s, 0);
  }

  lemma RunFirst(io: nat -> Access, q: Request, es: seq<Event>)
    ensures Run(Init(io), [AddEv(q)] + es) == Run(Add(Init(io), q).0, es)
  {
    hide Init, Add, Shape;
    assert ([AddEv(q)] + es)[1..] == es;
  }

  lemma FirstRefs(s: Fa)
    requires Shape(s) && s.hops == Ref(GetNext(Reset()), 0)
    ensures RefsOf(s, 0) == 1 && s.hops.freeIdx == 1
  {
  }

  lemma WrapReady(s: Fa, f: Flow, q: Request)
    requires Consistent(s) && OnlyFlow(s, f) && f.nh == 0 && Plain(q) && q.dhost == f.dhost && q.key != f.key
    requires s.hops.freeIdx == 1 && NhDa(s.hw.nh[0]) == q.dhost && s.hw.tick == FIRST && s.hw.io == EveryOther
    ensures Leaks(s, q, 0) && Pattern(s.hw, REF_LIMIT - 1)
  {
    hide Admit, StartIndex, NhDa, Shape, Consistent;
    ConsistentIndexed(s);
    SecondAdmitted(s, f, q);
    SecondStart(s, f);
  }
}
