/** The path of a packet through the three tables: the row of its flow, the next-hop row and the pool
    entry that the row names, and the bucket the accelerator looks in. */
module FlowPaths {
  import opened Polynomials
  import opened Numbers
  import opened FlowKey
  import opened FlowRows
  import opened FlowOctets
  import opened NextHopList
  import opened Options
  import opened FlowCache
  import opened FlowCacheIndex
  import opened FlowCacheRuns
  import opened FlowCacheAgreement
  import opened FlowCacheExact
  import opened FlowCacheSound
  import opened FlowPools
  import opened FlowRequests

  /** What the accelerator reads in the row of a flow. */
  function Row(s: Fa, f: Flow): Decoded
    requires Shape(s) && FlowShape(f)
  {
    Decode(s.hw.nf[f.slot])
  }

  /** Whatever the hardware did: the row of a cached flow names its next hop and its pool entry. */
  lemma RowNames(s: Fa, f: Flow)
    requires Consistent(s) && InCache(s, f)
    ensures FlowShape(f)
    ensures var d := Row(s, f);
            && d.nh as nat == f.nh && d.pool as nat == f.pool && d.dma == 0 && d.valid && d.v4
            && d.sip == Ntoh32(f.key.sip) && d.dip == Ntoh32(f.key.dip)
            && d.sp == Host16(f.key.sp) && d.dp == Host16(f.key.dp) && (d.tcp <==> f.key.proto == 6)
            && d.external == !f.snat
  {
    hide Decode, InCache, Indexed, Ntoh32, Host16;
    CachedFlow(s, f);
    assert RowSays(s.hw.nf, f);
    IndexBack(f.nh);
    IndexBack(f.pool);
  }

  /** The row lies in the bucket of its own CRC. */
  lemma SlotFromRow(s: Fa, f: Flow)
    requires Consistent(s) && InCache(s, f)
    ensures FlowShape(f)
    ensures f.slot / CTF_MAX_BUCKET_INDEX == Value(Remainder(RowKey(Row(s, f)) + Zeros(16))[8..])
  {
    hide InCache, Indexed, Remainder, Value, KeyBits, RowsAgree, Digits, Row, Ntoh32, Host16;
    CachedFlow(s, f);
    RowNames(s, f);
    KeyDigits(f.key);
    assert KeyBits(f.key) == RowKey(Row(s, f));
  }

  /** The next-hop row that the row of a flow names holds its destination. */
  ghost predicate HopPath(s: Fa, f: Flow)
    requires Shape(s) && FlowShape(f)
  {
    var i := Row(s, f).nh as nat; i < NHOP_FULL && NhDa(s.hw.nh[i]) == f.dhost
  }

  /** The pool entry that it names holds this source address, and the direction of its side. */
  ghost predicate PoolPath(s: Fa, f: Flow, mac: Mac)
    requires Shape(s) && FlowShape(f)
  {
    PoolSays(s.hw.np, Row(s, f).pool as nat, mac, f.snat)
  }

  lemma HopsLead(s: Fa, f: Flow)
    requires Consistent(s) && HopsHold(s) && InCache(s, f)
    ensures FlowShape(f) && HopPath(s, f)
  {
    hide InCache, Row, NhDa, Indexed, RowsAgree;
    RowNames(s, f);
    Holds(s, f);
  }

  lemma PoolsLead(s: Fa, f: Flow, src: Sources)
    requires Consistent(s) && PoolsHold(s, src) && InCache(s, f)
    ensures FlowShape(f) && PoolPath(s, f, src(f.snat))
  {
    hide InCache, Row, PoolSays, OneEach, Indexed, RowsAgree;
    RowNames(s, f);
  }

  // ------------------------------------------------------------------ all runs

  lemma {:induction false} SoundAtEnd(s: Fa, es: seq<Event>)
    requires Shape(s) && SoundThroughout(s, es)
    ensures Sound(Run(s, es))
    decreases |es|
  {
    hide Step, Sound, Shape;
    if es != [] {
      SoundAtEnd(Step(s, es[0]).0, es[1..]);
    }
  }

  /** From the start, whatever times out: after every run of safe steps each cached flow's row names a
      next-hop row that holds its destination. */
  lemma HopPathsFromInit(io: nat -> Access, es: seq<Event>, f: Flow)
    requires SafeRun(Init(io), es) && InCache(Run(Init(io), es), f)
    ensures FlowShape(f) && HopPath(Run(Init(io), es), f)
  {
    hide Init, Run, SafeRun, InCache, HopPath, SoundThroughout;
    SoundFromInit(io, es);
    SoundAtEnd(Init(io), es);
    HopsLead(Run(Init(io), es), f);
  }

  /** And after every run whose additions send from one address on each side, a pool entry that holds
      the address of its side. */
  lemma PoolPathsFromInit(io: nat -> Access, es: seq<Event>, src: Sources, f: Flow)
    requires FromSources(es, src) && InCache(Run(Init(io), es), f)
    ensures FlowShape(f) && PoolPath(Run(Init(io), es), f, src(f.snat))
  {
    hide Init, Run, InCache, PoolPath, Consistent, PoolsHold, FromSources;
    InitPoolsHold(io, src);
    AllRunsPoolsHold(Init(io), es, src);
    PoolsLead(Run(Init(io), es), f, src);
  }

  /** Without timeouts and with clean steps the same holds, in full agreement. */
  lemma CleanPaths(io: nat -> Access, es: seq<Event>, f: Flow)
    requires Quiet(Init(io).hw) && Consistent(Init(io)) && CleanRun(Init(io), es) && InCache(Run(Init(io), es), f)
    ensures FlowShape(f) && HopPath(Run(Init(io), es), f)
  {
    hide Init, Run, CleanRun, InCache, HopPath, Agree;
    CleanRunsFromInit(io, es);
    AgreeHops(Run(Init(io), es));
    AgreeParts(Run(Init(io), es));
    HopsLead(Run(Init(io), es), f);
  }

  // ------------------------------------------------------------------ from the request to the packet

  /** The hardware does for the packets of this tuple what the request asked for: the row matches them,
      leads to the destination and to the source address, and translates as asked. */
  ghost predicate Serves(s: Fa, q: Request, f: Flow, mac: Mac)
    requires Shape(s)
  {
    && FlowShape(f) && MatchesRequest(q, Row(s, f)) && HopPath(s, f) && f.dhost == q.dhost
    && PoolPath(s, f, mac) && f.snat == q.snat
    && (Translated(Row(s, f)) == AskedOf(q) <==> q.snat || q.dnat || q.natIp == q.key.dip)
  }

  lemma FlowServes(s: Fa, q: Request, f: Flow, src: Sources)
    requires Consistent(s) && HopsHold(s) && PoolsHold(s, src) && InCache(s, f) && CarriesOut(f, q)
    ensures Serves(s, q, f, src(f.snat))
  {
    hide InCache, HopPath, PoolPath, Translated, AskedOf, MatchesRequest, Decode, Expected, HopsHold, PoolsHold, Indexed;
    HopsLead(s, f);
    PoolsLead(s, f, src);
    ExpectedAsAsked(q, f);
    assert RowSays(s.hw.nf, f);
  }

  /** From the start, whatever times out: after every run of safe steps whose additions send from one
      address on each side, the hardware serves each request that is in force. */
  lemma EndToEnd(io: nat -> Access, es: seq<Event>, src: Sources, key: Tuple)
    requires SafeRun(Init(io), es) && FromSources(es, src) && key in InForce(Init(io), map[], es)
    ensures var s, q := Run(Init(io), es), InForce(Init(io), map[], es)[key];
            && q.key == key && Lookup(s, key).Some?
            && Serves(s, q, Lookup(s, key).value, src(q.snat))
  {
    hide Init, Run, SafeRun, InCache, FromSources, SoundThroughout, Serves, InForce, AsMap, Lookup, PoolsHold, Consistent, HopsHold;
    var s := Run(Init(io), es);
    SoundFromInit(io, es);
    SoundAtEnd(Init(io), es);
    InitPoolsHold(io, src);
    AllRunsPoolsHold(Init(io), es, src);
    NothingInForce(io);
    AllRunsMatch(Init(io), map[], es);
    SoundHops(s);
    AsMapIsLookup(s, key);
    LookupIsCached(s, key);
    FlowServes(s, InForce(Init(io), map[], es)[key], Lookup(s, key).value, src);
  }

  lemma NothingInForce(io: nat -> Access)
    ensures Matches(AsMap(Init(io)), map[])
  {
    InitIndexed(io);
    hide Hash, Indexed, Lookup, AsMap, Keys;
    forall t ensures t !in AsMap(Init(io)) {
      AsMapIsLookup(Init(io), t);
      NoneFound(io, t);
    }
  }

  lemma NoneFound(io: nat -> Access, t: Tuple)
    ensures Lookup(Init(io), t).None?
  {
    hide Hash;
  }
}
