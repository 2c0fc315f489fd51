/** How the free list is exhausted from the attach on, and what the next deletion then does. */
module FlowCacheFull {
  import opened FlowKey
  import opened FlowBuckets
  import opened FlowRows
  import opened NextHopList
  import opened Options
  import opened FlowCache
  import opened FlowCacheIndex
  import opened FlowCacheRuns
  import opened FlowCacheReferences
  import opened FlowCacheAgreement
  import opened FlowCacheExact
  import opened FlowCacheStart

  // ------------------------------------------------------------------ requests that do not get in each other's way

  /** Plain requests to different addresses, no two in one bucket. */
  ghost predicate Spread(qs: seq<Request>) {
    && (forall i :: 0 <= i < |qs| ==> Plain(qs[i]))
    && (forall i, j :: 0 <= i < j < |qs| ==> Apart(qs[i], qs[j]))
  }

  ghost predicate Apart(q: Request, r: Request) {
    q.dhost != r.dhost && Bucket(q.key) != Bucket(r.key)
  }

  lemma SpreadApart(qs: seq<Request>, i: nat, j: nat)
    requires Spread(qs) && i < |qs| && j < |qs| && i != j
    ensures Apart(qs[i], qs[j])
  {
    hide Bucket, Plain;
    assert i < j ==> Apart(qs[i], qs[j]);
    assert j < i ==> Apart(qs[j], qs[i]);
  }

  // ------------------------------------------------------------------ n additions

  /** Adding the first n. */
  function Additions(qs: seq<Request>, n: nat): (es: seq<Event>)
    requires n <= |qs|
    ensures |es| == n && forall i :: 0 <= i < n ==> es[i] == AddEv(qs[i])
  {
    seq(n, i requires 0 <= i < n => AddEv(qs[i]))
  }

  lemma {:induction false} RunAppend(s: Fa, es: seq<Event>, e: Event)
    requires Shape(s)
    ensures Run(s, es + [e]) == Step(Run(s, es), e).0
    decreases |es|
  {
    hide Step, Shape;
    NoSteps(s, 0);
    if es == [] {
      assert [] + [e] == [e] && [e][1..] == [];
      NoSteps(Step(s, e).0, 0);
    } else {
      assert (es + [e])[1..] == es[1..] + [e];
      RunAppend(Step(s, es[0]).0, es[1..], e);
    }
  }

  lemma AddOne(s: Fa, qs: seq<Request>, n: nat)
    requires Shape(s) && n < |qs|
    ensures Run(s, Additions(qs, n + 1)) == Add(Run(s, Additions(qs, n)), qs[n]).0
  {
    hide Add, Shape, Run;
    assert Additions(qs, n + 1) == Additions(qs, n) + [AddEv(qs[n])];
    RunAppend(s, Additions(qs, n), AddEv(qs[n]));
  }

  /** The flow of request number i, at index i. */
  ghost predicate FlowOf(qs: seq<Request>, i: nat, g: Flow) {
    i < |qs| && g.key == qs[i].key && g.dhost == qs[i].dhost && g.nh == i
  }

  ghost predicate OneOf(qs: seq<Request>, n: nat, g: Flow) {
    exists i: nat :: i < n && FlowOf(qs, i, g)
  }

  /** The allocator has handed out 0 .. n - 1, once each. */
  predicate HandedOut(hops: NextHops, n: nat) {
    && InBounds(hops) && n <= NHOP_FULL && hops.freeIdx == n
    && (forall i :: 0 <= i < n ==> hops.refs[i] == 1)
    && (forall i :: n <= i < NHOP_FULL ==> hops.flist[i] == i + 1 && hops.refs[i] == 0)
  }

  /** The first n requests are cached, and nothing else. */
  ghost predicate Holding(s: Fa, qs: seq<Request>, n: nat)
    ensures Holding(s, qs, n) ==> Consistent(s)
  {
    && Agree(s) && Quiet(s.hw) && HandedOut(s.hops, n) && n <= |qs|
    && (forall g :: InCache(s, g) ==> OneOf(qs, n, g))
    && (forall i: nat :: i < n ==> Carried(s, qs, i))
  }

  /** Request number i has its flow. */
  ghost predicate Carried(s: Fa, qs: seq<Request>, i: nat)
    requires Shape(s)
  {
    exists g :: InCache(s, g) && FlowOf(qs, i, g)
  }

  lemma HoldsNone(qs: seq<Request>)
    ensures Holding(Init(InTime), qs, 0)
  {
    InitAgree(InTime);
    InitConsistent(InTime);
    hide Agree, Consistent, Hash;
    assert forall g :: !InCache(Init(InTime), g);
  }

  lemma OtherBuckets(qs: seq<Request>, n: nat, g: Flow)
    requires Spread(qs) && n < |qs| && OneOf(qs, n, g)
    ensures g.dhost != qs[n].dhost && Bucket(g.key) != Bucket(qs[n].key)
  {
    hide Bucket, Spread;
    var i: nat :| i < n && FlowOf(qs, i, g);
    SpreadApart(qs, i, n);
  }

  /** A request for a bucket without flows is admitted. */
  lemma EmptyBucketAdmits(s: Fa, q: Request)
    requires Indexed(s) && Plain(q) && forall g :: InCache(s, g) ==> Bucket(g.key) != Bucket(q.key)
    ensures Admit(s, q).Some?
  {
    hide Hash, Bucket, AsMap, Admit, InCache, BucketFlows, Lookup;
    BucketFlowsAre(s, Bucket(q.key));
    assert BucketFlows(s, Bucket(q.key)) == {};
    AsMapIsLookup(s, q.key);
    LookupIsCached(s, q.key);
    RefusedExactly(s, q);
  }

  lemma TakesNext(hops: NextHops, n: nat)
    requires HandedOut(hops, n) && n < NHOP_FULL
    ensures HandedOut(Ref(GetNext(hops), n), n + 1)
  {
  }

  /** One more. */
  lemma HoldsMore(s: Fa, qs: seq<Request>, n: nat)
    requires Spread(qs) && Holding(s, qs, n) && n < |qs| && n < NHOP_FULL
    ensures Holding(Add(s, qs[n]).0, qs, n + 1)
  {
    hide Add, Agree, InCache, Bucket, Spread, NhDa, HopRowFor, AddNhop, Admit, Ref, GetNext, Shape, Indexed;
    var q := qs[n];
    assert Plain(q) by { SpreadPlain(qs, n); }
    forall g | InCache(s, g) ensures g.dhost != q.dhost && Bucket(g.key) != Bucket(q.key) {
      OtherBuckets(qs, n, g);
    }
    ConsistentIndexed(s);
    EmptyBucketAdmits(s, q);
    RowsAreUsers(s, q.dhost);
    AddNhopFresh(s, q.dhost, HopRowFor(q));
    AddHops(s, q);
    TakesNext(s.hops, n);
    AddAgree(s, q);
    AddIo(s, q);
    var f := AddUnknown(s, q);
    NextHolds(s, Add(s, q).0, qs, n, f);
  }

  lemma SpreadPlain(qs: seq<Request>, n: nat)
    requires Spread(qs) && n < |qs|
    ensures Plain(qs[n])
  {
    hide Plain, Apart;
  }

  lemma NextHolds(s: Fa, t: Fa, qs: seq<Request>, n: nat, f: Flow)
    requires Holding(s, qs, n) && n < |qs| && FlowOf(qs, n, f)
    requires Agree(t) && Quiet(t.hw) && HandedOut(t.hops, n + 1)
    requires forall g :: InCache(t, g) <==> g == f || InCache(s, g)
    ensures Holding(t, qs, n + 1)
  {
    hide Agree, InCache, HandedOut, FlowOf, Shape;
    forall g | InCache(t, g) ensures OneOf(qs, n + 1, g) {
      if g != f {
        var i: nat :| i < n && FlowOf(qs, i, g);
      }
    }
    forall i: nat | i < n + 1 ensures Carried(t, qs, i) {
      if i < n {
        assert Carried(s, qs, i);
        var g :| InCache(s, g) && FlowOf(qs, i, g);
        assert InCache(t, g);
      } else {
        assert InCache(t, f);
      }
    }
  }

  lemma {:induction false} HoldsFirst(qs: seq<Request>, n: nat)
    requires Spread(qs) && n <= |qs| && n <= NHOP_FULL
    ensures Holding(Run(Init(InTime), Additions(qs, n)), qs, n)
  {
    hide Add, Init, Run, Additions, Holding, Spread;
    if n == 0 {
      HoldsNone(qs);
      NoSteps(Init(InTime), 0);
    } else {
      HoldsFirst(qs, n - 1);
      AddOne(Init(InTime), qs, n - 1);
      HoldsMore(Run(Init(InTime), Additions(qs, n - 1)), qs, n - 1);
    }
  }

  // ------------------------------------------------------------------ one deletion too many

  /** With 128 flows to different addresses no index is free, and each flow is the last user of its
      own. */
  lemma FullFrees(s: Fa, qs: seq<Request>, i: nat)
    requires Holding(s, qs, NHOP_FULL) && i < NHOP_FULL
    ensures FreesOnFull(s, qs[i].key) && Lookup(s, qs[i].key).value.nh == i
  {
    hide InCache, Agree, Lookup, Bucket, Hash;
    assert Carried(s, qs, i);
    var g :| InCache(s, g) && FlowOf(qs, i, g);
    ConsistentIndexed(s);
    CachedFlow(s, g);
  }

  /** A request past the first 128 is to an unknown address, and for an empty bucket. */
  lemma LaterApart(s: Fa, qs: seq<Request>, n: nat, m: nat)
    requires Spread(qs) && Holding(s, qs, n) && n <= m < |qs|
    ensures Plain(qs[m]) && forall g :: InCache(s, g) ==> g.dhost != qs[m].dhost && Bucket(g.key) != Bucket(qs[m].key)
  {
    hide InCache, Bucket, Agree, Spread, Plain;
    SpreadPlain(qs, m);
    forall g | InCache(s, g) ensures g.dhost != qs[m].dhost && Bucket(g.key) != Bucket(qs[m].key) {
      assert OneOf(qs, n, g);
      var i: nat :| i < n && FlowOf(qs, i, g);
      SpreadApart(qs, i, m);
    }
  }

  /** The flow that an addition caches is its own. */
  lemma AddedKeys(s: Fa, q: Request)
    requires Consistent(s)
    ensures Consistent(Add(s, q).0)
    ensures forall g :: InCache(Add(s, q).0, g) ==> g.key == q.key || InCache(s, g)
  {
    hide Add, AsMap, InCache, Consistent, Shape;
    AddConsistent(s, q);
    forall g | InCache(Add(s, q).0, g) ensures g.key == q.key || InCache(s, g) {
      CachedIffMapped(s, g);
      CachedIffMapped(Add(s, q).0, g);
    }
  }

  lemma BothAdmitted(s: Fa, q1: Request, q2: Request)
    requires Consistent(s) && Plain(q1) && Plain(q2) && Bucket(q1.key) != Bucket(q2.key)
    requires forall g :: InCache(s, g) ==> Bucket(g.key) != Bucket(q1.key) && Bucket(g.key) != Bucket(q2.key)
    ensures Admit(s, q1).Some? && Admit(Add(s, q1).0, q2).Some?
  {
    hide Add, InCache, Bucket, Consistent, Admit, Plain, Shape;
    ConsistentIndexed(s);
    EmptyBucketAdmits(s, q1);
    AddedKeys(s, q1);
    ConsistentIndexed(Add(s, q1).0);
    EmptyBucketAdmits(Add(s, q1).0, q2);
  }

  /** It happens from the start, without a single timeout: 128 flows to different addresses, one of
      them deleted, and two more.  The two get the same index, and the packets of the first go to the
      address of the second. */
  lemma SelfLoopFromInit(qs: seq<Request>)
    requires Spread(qs) && |qs| == NHOP_FULL + 2
    ensures var s := Run(Init(InTime), Additions(qs, NHOP_FULL));
            var t := Add(Add(Del(s, qs[0].key).0, qs[128]).0, qs[129]).0;
            && Agree(s) && FreesOnFull(s, qs[0].key) && !Partitioned(Del(s, qs[0].key).0.hops)
            && Lookup(t, qs[128].key).Some? && Lookup(t, qs[129].key).Some?
            && var f1, f2 := Lookup(t, qs[128].key).value, Lookup(t, qs[129].key).value;
               && f1.dhost == qs[128].dhost && f2.dhost == qs[129].dhost && f1.nh == f2.nh < NHOP_FULL
               && NhDa(t.hw.nh[f1.nh]) == qs[129].dhost != qs[128].dhost
  {
    var s := Run(Init(InTime), Additions(qs, NHOP_FULL));
    HoldsFirst(qs, NHOP_FULL);
    FullFrees(s, qs, 0);
    LaterApart(s, qs, NHOP_FULL, 128);
    LaterApart(s, qs, NHOP_FULL, 129);
    SpreadApart(qs, 128, 129);
    hide Init, Run, Additions, Spread, Add, Del, Agree, InCache, Lookup, Bucket, Admit, Partitioned, NhDa, FreesOnFull, Consistent;
    DelAgree(s, qs[0].key);
    var i := DelLoops(s, qs[0].key);
    BothAdmitted(Del(s, qs[0].key).0, qs[128], qs[129]);
    TwoFlowsOneIndex(s, qs[0].key, qs[128], qs[129]);
  }

  // ------------------------------------------------------------------ there are such requests

  function Nibble(n: nat): bv8
    requires n < 16
  {
    if n < 8 then
      if n == 0 then 0 else if n == 1 then 1 else if n == 2 then 2 else if n == 3 then 3
      else if n == 4 then 4 else if n == 5 then 5 else if n == 6 then 6 else 7
    else
      if n == 8 then 8 else if n == 9 then 9 else if n == 10 then 10 else if n == 11 then 11
      else if n == 12 then 12 else if n == 13 then 13 else if n == 14 then 14 else 15
  }

  function TwoNibbles(x: bv8, y: bv8): bv8 {
    (x << 4) | y
  }

  /** 256 different octets. */
  function Octet(i: nat): bv8
    requires i < 256
  {
    TwoNibbles(Nibble(i / 16), Nibble(i % 16))
  }

  lemma NibblesDiffer(n: nat, m: nat)
    requires n < 16 && m < 16
    ensures Nibble(n) < 16 && (Nibble(n) == Nibble(m) ==> n == m)
  {
  }

  lemma SameNibbles(x: bv8, y: bv8, z: bv8, w: bv8)
    requires x < 16 && y < 16 && z < 16 && w < 16 && TwoNibbles(x, y) == TwoNibbles(z, w)
    ensures x == z && y == w
  {
  }

  lemma OctetsDiffer(i: nat, j: nat)
    requires i < j < 256
    ensures Octet(i) != Octet(j)
  {
    hide Nibble, TwoNibbles;
    NibblesDiffer(i / 16, j / 16);
    NibblesDiffer(i % 16, j % 16);
    NibblesDiffer(j / 16, i / 16);
    NibblesDiffer(j % 16, i % 16);
    if Octet(i) == Octet(j) {
      SameNibbles(Nibble(i / 16), Nibble(i % 16), Nibble(j / 16), Nibble(j % 16));
    }
  }

  /** Requests like q, to different ports and addresses. */
  function Variant(q: Request, i: nat): Request
    requires i < 256
  {
    q.(key := q.key.(dp := PortFor(q.key.dp, Octet(i))), dhost := Mac(2, 0, 0, 0, 0, Octet(i)))
  }

  function PortFor(dp: bv16, i: bv8): bv16 {
    (dp & 0xff) | ((i as bv16) << 8)
  }

  lemma PortBytes(dp: bv16, i: bv8)
    ensures PortFor(dp, i) & 0xff == dp & 0xff && ((PortFor(dp, i) >> 8) & 0xff) as bv8 == i
  {
  }

  lemma VariantsApart(q: Request, i: nat, j: nat)
    requires i < j < 256
    ensures Apart(Variant(q, i), Variant(q, j))
  {
    var t, u := Variant(q, i).key, Variant(q, j).key;
    PortBytes(q.key.dp, Octet(i));
    PortBytes(q.key.dp, Octet(j));
    OctetsDiffer(i, j);
    hide PortFor, Bucket, Mem32, Mem16, Octet;
    assert Front(t) == Front(u);
    BucketsApart(t, u);
  }

  lemma VariantsSpread(q: Request, n: nat)
    requires Plain(q) && n <= 256
    ensures Spread(seq(n, i requires 0 <= i < n => Variant(q, i)))
  {
    var qs := seq(n, i requires 0 <= i < n => Variant(q, i));
    hide Apart, Bucket, PortFor, Octet;
    forall i, j | 0 <= i < j < |qs| ensures Apart(qs[i], qs[j]) {
      VariantsApart(q, i, j);
    }
  }
}
