/** What an addition asks for, and that the rows it leaves in the hardware carry it out. */
module FlowRequests {
  import opened FlowKey
  import opened FlowRows
  import opened NextHopList
  import opened Options
  import opened FlowCache
  import opened FlowCacheIndex
  import opened FlowCacheRuns
  import opened FlowCacheReferences
  import opened FlowCacheAgreement
  import opened FlowCacheExact
  import opened FlowCacheStart

  /** The next-hop row of a request decodes to its destination, whether to tag, and its tag control
      field. */
  lemma HopRowSays(q: Request)
    ensures var r := HopRowFor(q);
            && NhDa(r) == q.dhost && NhOp(r) == (if q.tag then CTF_NH_OP_CTAG else CTF_NH_OP_NOTAG)
            && NhTci(r) == TciFor(q) as bv32
  {
    var op := if q.tag then CTF_NH_OP_CTAG else CTF_NH_OP_NOTAG;
    var tci := TciFor(q);
    assert HopRowFor(q) == SetNhEntry(q.dhost, 0, op, tci);
    OpFits(op);
    hide TciFor, SetNhEntry, NhDa, NhOp, NhTci, NhFtype, HopRowFor;
    NhRoundTrip(q.dhost, 0, op, tci);
    NhTagRoundTrip(q.dhost, 0, op, tci);
  }

  lemma OpFits(op: bv32)
    ensures op == CTF_NH_OP_CTAG || op == CTF_NH_OP_NOTAG ==> op & 0x3 == op
  {
  }

  /** That field holds the VLAN number below the precedence bits of the TOS byte. */
  lemma TciParts(q: Request)
    ensures TciFor(q) & 0xfff == q.vid & 0xfff && TciFor(q) >> 13 == (q.tos >> 5) as bv16
    ensures TciFor(q) & 0x1000 == 0
  {
  }

  /** The next-hop row of the flow cached for this tuple. */
  function HopRowOf(s: Fa, key: Tuple): Option<HopRow>
    requires Shape(s)
  {
    match Lookup(s, key)
    case None => None
    case Some(f) => LookupShape(s, key); Some(s.hw.nh[f.nh])
  }

  lemma LookupShape(s: Fa, key: Tuple)
    requires Shape(s) && Lookup(s, key).Some?
    ensures FlowShape(Lookup(s, key).value)
  {
    hide Hash, InBounds, HwShape;
  }

  /** Whatever the hardware does: the row of an added flow is the one it asked for exactly when no
      row held its destination, or the one that was found is that row already. */
  lemma RowIsAskedIff(s: Fa, q: Request)
    requires Shape(s) && Add(s, q).1 == Ok
    ensures var p := FindNhop(s, q.dhost).0;
            HopRowOf(Add(s, q).0, q.key) == Some(HopRowFor(q)) <==>
            p.Absent? || (p.Found? && p.idx < NHOP_FULL && s.hw.nh[p.idx] == HopRowFor(q))
  {
    hide Add, HopFor, AddPool, Lookup, Admit, HopRowFor, FindNhop, Ref, GetNext;
    var f := AddedFlow(s, q);
    AddHops(s, q);
    HopOutcome(s, q);
  }

  /** A flow with this destination is cached, and its row is this one. */
  ghost predicate Holder(s: Fa, mac: Mac, row: HopRow)
    requires Shape(s)
  {
    exists g :: InCache(s, g) && g.dhost == mac && g.nh < NHOP_FULL && s.hw.nh[g.nh] == row
  }

  ghost predicate Known(s: Fa, mac: Mac)
    requires Shape(s)
  {
    exists g :: InCache(s, g) && g.dhost == mac
  }

  /** In agreement and without timeouts, as a caller sees it: an added flow gets the VLAN tag it
      asked for if and only if its destination is not zero, and no cached flow has it, or one that
      has it goes with the same row already. */
  lemma TagIsAskedIff(s: Fa, q: Request)
    requires Agree(s) && Quiet(s.hw) && Admit(s, q).Some? && s.hops.freeIdx != NHOP_FULL
    ensures Add(s, q).1 == Ok
    ensures HopRowOf(Add(s, q).0, q.key) == Some(HopRowFor(q)) <==>
            q.dhost != ZERO_MAC && (!Known(s, q.dhost) || Holder(s, q.dhost, HopRowFor(q)))
  {
    if q.dhost != ZERO_MAC {
      AddAgree(s, q);
      RowIsAskedIff(s, q);
      FoundIsHolder(s, q.dhost);
      hide Add, HopRowFor, Agree, InCache, Admit, FindNhop, HopRowOf;
    } else {
      ZeroMacAdd(s, q);
      RowIsAskedIff(s, q);
      ZeroRowFound(s, q);
      hide Add, HopRowFor, Agree, InCache, Admit, FindNhop, HopRowOf;
    }
  }

  /** A zero destination is found in a row without a tag operation. */
  lemma ZeroRowFound(s: Fa, q: Request)
    requires Agree(s) && Quiet(s.hw) && q.dhost == ZERO_MAC && s.hops.freeIdx != NHOP_FULL
    ensures var p := FindNhop(s, ZERO_MAC).0;
            p.Found? && (p.idx < NHOP_FULL ==> s.hw.nh[p.idx] != HopRowFor(q))
  {
    ZeroMacFound(s);
    HopRowSays(q);
    ZeroHopOp();
    hide FindNhop, HopRowFor, NhOp, NhDa, NhTci, TciFor, Agree;
  }

  lemma ZeroHopOp()
    ensures NhOp(ZERO_HOP) == 0
  {
  }

  /** All flows with this destination have the index that is found. */
  lemma FoundIndex(s: Fa, mac: Mac)
    requires Agree(s) && Quiet(s.hw) && mac != ZERO_MAC
    ensures var p := FindNhop(s, mac).0;
            && (!Known(s, mac) ==> p.Absent?)
            && (Known(s, mac) ==> p.Found? && p.idx < NHOP_FULL)
            && (p.Found? ==> forall g :: InCache(s, g) && g.dhost == mac ==> g.nh == p.idx)
  {
    if Known(s, mac) {
      KnownIndex(s, mac);
    } else {
      hide Agree, InCache, FindNhop, Shape, NhDa;
      RowsAreUsers(s, mac);
      AbsentIs(s, mac);
    }
  }

  lemma KnownIndex(s: Fa, mac: Mac)
    requires Agree(s) && Quiet(s.hw) && Known(s, mac)
    ensures var p := FindNhop(s, mac).0;
            p.Found? && p.idx < NHOP_FULL && forall g :: InCache(s, g) && g.dhost == mac ==> g.nh == p.idx
  {
    hide InCache, Agree, CachedHop, Shape, FindNhop;
    var c := CachedHop(s.chains, 0, mac);
    AgreeHops(s);
    CachedHopMeans(s, mac);
    hide HopsHold;
    Holds(s, c.value);
    FoundAtStart(s, mac);
    forall g | InCache(s, g) && g.dhost == mac ensures g.nh == c.value.nh {
      SameHop(s, g, c.value);
    }
  }

  lemma AgreeHops(s: Fa)
    requires Agree(s)
    ensures Indexed(s) && HopsHold(s)
  {
  }

  lemma SameHop(s: Fa, f: Flow, g: Flow)
    requires Shape(s) && HopsHold(s) && InCache(s, f) && InCache(s, g) && f.dhost == g.dhost
    ensures f.nh == g.nh
  {
    hide InCache, HopSays, Shape;
  }

  lemma FoundAtStart(s: Fa, mac: Mac)
    requires Shape(s) && Quiet(s.hw) && NhDa(s.hw.nh[StartIndex(s, mac)]) == mac
    ensures FindNhop(s, mac).0 == Found(StartIndex(s, mac))
  {
    hide NhDa, StartIndex;
  }

  lemma AbsentIs(s: Fa, mac: Mac)
    requires Shape(s) && Quiet(s.hw) && forall i :: 0 <= i < NHOP_FULL ==> NhDa(s.hw.nh[i]) != mac
    ensures FindNhop(s, mac).0.Absent?
  {
    hide NhDa, StartIndex;
  }

  /** The row that is found belongs to every flow with this destination. */
  lemma FoundIsHolder(s: Fa, mac: Mac)
    requires Agree(s) && Quiet(s.hw) && mac != ZERO_MAC
    ensures var p := FindNhop(s, mac).0;
            && (!Known(s, mac) ==> p.Absent?)
            && (Known(s, mac) ==> p.Found? && p.idx < NHOP_FULL && forall row :: Holder(s, mac, row) <==> s.hw.nh[p.idx] == row)
  {
    hide InCache, FindNhop, Agree, Shape;
    FoundIndex(s, mac);
  }

  lemma RowsTell(q1: Request, q2: Request)
    requires q1.vid & 0xfff != q2.vid & 0xfff
    ensures HopRowFor(q1) != HopRowFor(q2)
  {
    HopRowSays(q1);
    HopRowSays(q2);
    TciParts(q1);
    TciParts(q2);
    hide HopRowFor, TciFor, NhDa, NhOp, NhTci;
    WordsTell(TciFor(q1), TciFor(q2));
  }

  lemma WordsTell(x: bv16, y: bv16)
    ensures x as bv32 == y as bv32 ==> x == y
  {
  }

  lemma FirstAgrees(q: Request)
    requires Plain(q)
    ensures var s := Add(Init(InTime), q).0; Agree(s) && Quiet(s.hw)
  {
    hide Add, Agree, Admit;
    InitAgree(InTime);
    AddAgree(Init(InTime), q);
    AddIo(Init(InTime), q);
  }

  /** The second flow to an address shares the row that is there. */
  lemma SecondTag(s: Fa, f: Flow, q: Request, row: HopRow)
    requires Agree(s) && Quiet(s.hw) && OnlyFlow(s, f) && f.nh < NHOP_FULL && s.hw.nh[f.nh] == row
    requires Plain(q) && q.key != f.key && q.dhost == f.dhost && s.hops.freeIdx != NHOP_FULL
    ensures var t := Add(s, q).0;
            HopRowOf(t, f.key) == HopRowOf(t, q.key) == Some(row)
  {
    hide Add, Admit, Agree, InCache, HopRowFor, FindNhop, HopFor, AddPool, AsMap, Lookup, Indexed, Consistent;
    hide Ref, GetNext, InBounds, HwShape;
    ConsistentIndexed(s);
    SecondAdmitted(s, f, q);
    AddAgree(s, q);
    assert InCache(s, f);
    FoundIsHolder(s, q.dhost);
    assert Holder(s, q.dhost, row);
    HopOutcome(s, q);
    AddHops(s, q);
    var g := AddedFlow(s, q);
    AddConsistent(s, q);
    CachedIffMapped(s, f);
    AsMapIsLookup(Add(s, q).0, f.key);
  }

  /** It happens from the start: of two flows to one address on different VLANs the second one's
      packets leave with the tag of the first. */
  lemma TwoTagsFromInit(q1: Request, q2: Request)
    requires Plain(q1) && Plain(q2) && q1.dhost == q2.dhost && q1.key != q2.key && q1.vid & 0xfff != q2.vid & 0xfff
    ensures var s := Run(Init(InTime), [AddEv(q1), AddEv(q2)]);
            HopRowOf(s, q1.key) == HopRowOf(s, q2.key) == Some(HopRowFor(q1)) && HopRowFor(q1) != HopRowFor(q2)
  {
    hide *;
    var s1 := Add(Init(InTime), q1).0;
    RunTwo(Init(InTime), q1, q2);
    RowsTell(q1, q2);
    AllInTime();
    FirstAdd(InTime, q1);
    var f1 := FirstFlow(InTime, q1);
    FirstAgrees(q1);
    FirstRest();
    SecondTag(s1, f1, q2, HopRowFor(q1));
  }

  lemma RunTwo(s: Fa, q1: Request, q2: Request)
    requires Shape(s)
    ensures Run(s, [AddEv(q1), AddEv(q2)]) == Add(Add(s, q1).0, q2).0
  {
    hide *;
    RunOn(s, q1, [AddEv(q2)]);
    RunOn(Add(s, q1).0, q2, []);
    NoSteps(Add(Add(s, q1).0, q2).0, 0);
    assert [AddEv(q1)] + [AddEv(q2)] == [AddEv(q1), AddEv(q2)];
    assert [AddEv(q2)] + [] == [AddEv(q2)];
  }

  lemma RunOn(s: Fa, q: Request, es: seq<Event>)
    requires Shape(s)
    ensures Run(s, [AddEv(q)] + es) == Run(Add(s, q).0, es)
  {
    hide Shape, Add;
    assert ([AddEv(q)] + es)[1..] == es;
  }

  lemma AllInTime()
    ensures DoneBetween(InTime, 0, FIRST)
  {
  }

  lemma FirstRest()
    ensures InBounds(GetNext(Reset())) && Ref(GetNext(Reset()), 0).freeIdx == 1 != NHOP_FULL
  {
  }

  /** What the hardware row of a tuple decodes to. */
  function RowOf(s: Fa, key: Tuple): Option<Decoded>
    requires Shape(s)
  {
    match Lookup(s, key)
    case None => None
    case Some(f) => LookupShape(s, key); Some(Decode(s.hw.nf[f.slot]))
  }

  /** The row is valid and matches the packets of the request. */
  predicate MatchesRequest(q: Request, d: Decoded) {
    && d.valid && d.v4 && d.sip == Ntoh32(q.key.sip) && d.dip == Ntoh32(q.key.dip)
    && d.sp == Host16(q.key.sp) && d.dp == Host16(q.key.dp) && (d.tcp <==> q.key.proto == 6)
  }

  /** What the request wants its packets to leave with. */
  function AskedOf(q: Request): Leaving {
    var sip, dip, sp, dp := Ntoh32(q.key.sip), Ntoh32(q.key.dip), Host16(q.key.sp), Host16(q.key.dp);
    if q.snat then Leaving(Ntoh32(q.natIp), dip, Host16(q.natPort), dp)
    else if q.dnat then Leaving(sip, Ntoh32(q.natIp), sp, Host16(q.natPort))
    else Leaving(sip, dip, sp, dp)
  }

  /** The row of a flow that was added matches its packets, and rewrites them as asked if and only if
      the request asks for a translation, or names its own destination as the new address. */
  lemma TranslatesAsAsked(s: Fa, q: Request)
    requires Consistent(s) && Add(s, q).1 == Ok
    ensures var r := RowOf(Add(s, q).0, q.key);
            && r.Some? && MatchesRequest(q, r.value)
            && (Translated(r.value) == AskedOf(q) <==> q.snat || q.dnat || q.natIp == q.key.dip)
  {
    AddConsistent(s, q);
    var s' := Add(s, q).0;
    AsMapIsLookup(s', q.key);
    LookupIsCached(s', q.key);
    hide Add, Decode, Indexed, InCache, AsMap, Hash, Translated, AskedOf, MatchesRequest, Lookup, Shape, Expected;
    var f := Lookup(s', q.key).value;
    assert f == FlowFor(q, f.nh, f.pool, f.slot);
    assert RowSays(s'.hw.nf, f);
    ExpectedAsAsked(q, f);
  }

  lemma ExpectedAsAsked(q: Request, f: Flow)
    requires FlowShape(f) && f == FlowFor(q, f.nh, f.pool, f.slot)
    ensures var d := Expected(FieldsOf(f));
            && MatchesRequest(q, d)
            && (Translated(d) == AskedOf(q) <==> q.snat || q.dnat || q.natIp == q.key.dip)
  {
    NtohInjective(q.natIp, q.key.dip, q.natPort, q.key.sp);
    ActionBits(q);
    hide Host16, Ntoh32, ActionFor;
  }

  lemma ActionBits(q: Request)
    ensures ActionFor(q) & CTF_NAPT_OVRW_IP != 0
    ensures ActionFor(q) & CTF_NAPT_OVRW_PORT != 0 <==>
            (q.snat && q.key.sp != q.natPort) || (q.dnat && q.key.dp != q.natPort)
  {
  }
}
