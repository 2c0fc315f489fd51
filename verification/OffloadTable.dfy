/** The project's own offload backend: 32 slots keyed by cookie, rows built from a decoded rule,
    written to the accelerator and read back before the flow is accepted. */
module OffloadTable {
  import opened FlowKey
  import opened FlowRows
  import opened Numbers
  import opened Options

  const FA_MAX_LIVE_FLOWS: nat := 32
  const NH_ROWS: nat := 128

  // ------------------------------------------------------------------ the table memory

  /** How one table access ends: as asked, busy to the end of the polling (carried out or not), in
      time but with another row than the one that was meant, or as asked just after the accelerator
      has counted packets in the NAPT row. */
  datatype Access = Done | TimedOut(landed: bool) | Garbled(nh: HopRow, nf: FlowRow) | Counted(now: FlowRow)

  datatype Mem = Mem(nh: seq<HopRow>, nf: seq<FlowRow>, io: nat -> Access, tick: nat)

  predicate MemShape(m: Mem) {
    |m.nh| == NH_ROWS && |m.nf| == CTF_MAX_FLOW_TABLE
  }

  function Now(m: Mem): Access {
    m.io(m.tick)
  }

  function WriteNh(m: Mem, idx: nat, row: HopRow): (r: (Mem, bool))
    requires MemShape(m) && idx < NH_ROWS
    ensures MemShape(r.0)
  {
    var t := m.(tick := m.tick + 1);
    match Now(m)
    case Done => (t.(nh := m.nh[idx := row]), true)
    case Counted(_) => (t.(nh := m.nh[idx := row]), true)
    case TimedOut(landed) => (if landed then t.(nh := m.nh[idx := row]) else t, false)
    case Garbled(nh, _) => (t.(nh := m.nh[idx := nh]), true)
  }

  function WriteNf(m: Mem, idx: nat, row: FlowRow): (r: (Mem, bool))
    requires MemShape(m) && idx < CTF_MAX_FLOW_TABLE
    ensures MemShape(r.0)
  {
    var t := m.(tick := m.tick + 1);
    match Now(m)
    case Done => (t.(nf := m.nf[idx := row]), true)
    case Counted(_) => (t.(nf := m.nf[idx := row]), true)
    case TimedOut(landed) => (if landed then t.(nf := m.nf[idx := row]) else t, false)
    case Garbled(_, nf) => (t.(nf := m.nf[idx := nf]), true)
  }

  /** What is read, if it is read in time. */
  datatype Seen<T> = Seen(row: T) | NotSeen

  function ReadNh(m: Mem, idx: nat): (r: (Mem, Seen<HopRow>))
    requires MemShape(m) && idx < NH_ROWS
    ensures MemShape(r.0)
  {
    var t := m.(tick := m.tick + 1);
    match Now(m)
    case Done => (t, Seen(m.nh[idx]))
    case TimedOut(_) => (t, NotSeen)
    case Garbled(nh, _) => (t, Seen(nh))
    case Counted(_) => (t, Seen(m.nh[idx]))
  }

  /** A counted packet changes nothing but the counters of the row, in the table itself. */
  function ReadNf(m: Mem, idx: nat): (r: (Mem, Seen<FlowRow>))
    requires MemShape(m) && idx < CTF_MAX_FLOW_TABLE
    ensures MemShape(r.0)
  {
    var t := m.(tick := m.tick + 1);
    match Now(m)
    case Done => (t, Seen(m.nf[idx]))
    case TimedOut(_) => (t, NotSeen)
    case Garbled(_, nf) => (t, Seen(nf))
    case Counted(now) =>
      if SameButCounters(now, m.nf[idx]) then (t.(nf := m.nf[idx := now]), Seen(now)) else (t, Seen(m.nf[idx]))
  }

  // ------------------------------------------------------------------ rules

  /** The actions of a rule, as far as they are looked at.  Values are as they lie in memory. */
  datatype Action =
    | MangleIp4(offset: nat, val: bv32)
    | MangleL4(offset: nat, mask: bv32, val: bv32)
    | MangleEth(offset: nat, mask: bv32, val: bv32)
    | Redirect(wan: bool)
    | Other

  datatype Rule = Rule(proto: bv8, ips: Option<(bv32, bv32)>, ports: (bv16, bv16), mac: Option<Mac>, actions: seq<Action>)

  const SADDR: nat := 12
  const DADDR: nat := 16

  /** The two ports in a rewritten word. */
  function UpperPort(val: bv32): bv16 {
    Ntoh16((Ntoh32(val) >> 16) as bv16)
  }

  function LowerPort(val: bv32): bv16 {
    Ntoh16((Ntoh32(val) & 0xffff) as bv16)
  }

  /** What the walk over the actions collects. */
  datatype Found = Found(natSrc: bv32, natSport: bv16, mangledIp: bool, mangledEth: bool, wan: bool)

  function Collect(actions: seq<Action>): Found {
    if actions == [] then Found(0, 0, false, false, false)
    else Look(Collect(actions[..|actions| - 1]), actions[|actions| - 1])
  }

  /** One action.  The rewritten destination is decoded by the driver but goes nowhere, and of a
      rewritten Ethernet address the driver only notes that there is one. */
  function Look(f: Found, a: Action): Found {
    match a
    case MangleIp4(offset, val) =>
      if offset == SADDR then f.(natSrc := val, mangledIp := true)
      else if offset == DADDR then f.(mangledIp := true)
      else f
    case MangleL4(offset, mask, val) =>
      if offset == 0 && mask != 0x0000ffff then f.(natSport := UpperPort(val)) else f
    case MangleEth(_, _, _) => f.(mangledEth := true)
    case Redirect(wan) => f.(wan := wan)
    case Other => f
  }

  /** The rows a rule asks for, in slot k; None when the driver declines the rule. */
  datatype Rows = Rows(nh: HopRow, nf: FlowRow)

  function KeyOf(rule: Rule): Tuple {
    var (src, dst) := if rule.ips.Some? then rule.ips.value else (0, 0);
    Tuple(src, dst, rule.ports.0, rule.ports.1, rule.proto)
  }

  predicate Supported(rule: Rule) {
    var f := Collect(rule.actions);
    (rule.ips.Some? || f.mangledIp) && rule.proto == IP_PROT_TCP && (rule.mac.Some? || f.mangledEth)
  }

  function FieldsFrom(rule: Rule, f: Found, nh: bv32): RowFields {
    var key := KeyOf(rule);
    RowFields(CTF_NAPT_OVRW_IP, 0, 0, nh, if f.natSrc != 0 then f.natSrc else key.sip,
              if f.natSport != 0 then f.natSport else key.sp, key, f.wan)
  }

  function FieldsFor(rule: Rule, k: nat): RowFields
    requires k < FA_MAX_LIVE_FLOWS
  {
    FieldsFrom(rule, Collect(rule.actions), (k + 1) as bv32)
  }

  function RowsFor(rule: Rule, k: nat): Rows
    requires k < FA_MAX_LIVE_FLOWS
  {
    Rows(SetNhEntry(if rule.mac.Some? then rule.mac.value else ZERO_MAC, 0, CTF_NH_OP_NOTAG, 0),
         PrepIpv4(FieldsFor(rule, k)))
  }

  // ------------------------------------------------------------------ the flow table

  /** struct fa_live_flow. */
  datatype LiveFlow = LiveFlow(cookie: nat, nhIdx: nat, nfIdx: nat, inUse: bool)

  /** fa_flows[] and the memory behind the registers.  `rules` is what each slot was last given. */
  datatype Off = Off(flows: seq<LiveFlow>, mem: Mem, rules: seq<Rule>)

  /** Slot k always names rows k + 1 while it is in use. */
  predicate SlotOk(f: LiveFlow, k: nat) {
    f.inUse ==> f.nhIdx == k + 1 && f.nfIdx == k + 1
  }

  predicate Shape(s: Off) {
    && |s.flows| == FA_MAX_LIVE_FLOWS && |s.rules| == FA_MAX_LIVE_FLOWS && MemShape(s.mem)
    && forall k :: 0 <= k < FA_MAX_LIVE_FLOWS ==> SlotOk(s.flows[k], k)
  }

  /** The first slot from the i-th on that is not in use, or FA_MAX_LIVE_FLOWS. */
  function FreeFrom(flows: seq<LiveFlow>, i: nat): (k: nat)
    requires |flows| == FA_MAX_LIVE_FLOWS && i <= FA_MAX_LIVE_FLOWS
    ensures i <= k <= FA_MAX_LIVE_FLOWS && (k < FA_MAX_LIVE_FLOWS ==> !flows[k].inUse)
    ensures forall j :: i <= j < k ==> flows[j].inUse
    decreases FA_MAX_LIVE_FLOWS - i
  {
    if i == FA_MAX_LIVE_FLOWS || !flows[i].inUse then i else FreeFrom(flows, i + 1)
  }

  predicate Holds(f: LiveFlow, cookie: nat) {
    f.inUse && f.cookie == cookie
  }

  /** The first slot from the i-th on that holds this cookie, or FA_MAX_LIVE_FLOWS. */
  function FindFrom(flows: seq<LiveFlow>, i: nat, cookie: nat): (k: nat)
    requires |flows| == FA_MAX_LIVE_FLOWS && i <= FA_MAX_LIVE_FLOWS
    ensures i <= k <= FA_MAX_LIVE_FLOWS && (k < FA_MAX_LIVE_FLOWS ==> Holds(flows[k], cookie))
    ensures forall j :: i <= j < k ==> !Holds(flows[j], cookie)
    decreases FA_MAX_LIVE_FLOWS - i
  {
    if i == FA_MAX_LIVE_FLOWS || Holds(flows[i], cookie) then i else FindFrom(flows, i + 1, cookie)
  }

  function TakeSlot(s: Off, k: nat, cookie: nat, rule: Rule): (r: Off)
    requires Shape(s) && k < FA_MAX_LIVE_FLOWS
    ensures Shape(r)
  {
    s.(flows := s.flows[k := LiveFlow(cookie, k + 1, k + 1, true)], rules := s.rules[k := rule])
  }

  function FreeSlot(s: Off, k: nat): (r: Off)
    requires Shape(s) && k < FA_MAX_LIVE_FLOWS
    ensures Shape(r)
  {
    s.(flows := s.flows[k := s.flows[k].(inUse := false)])
  }

  /** Writing both rows and reading each back, stopping at the first thing that goes wrong. */
  function Program(m: Mem, nhIdx: nat, nfIdx: nat, rows: Rows): (r: (Mem, bool))
    requires MemShape(m) && nhIdx < NH_ROWS && nfIdx < CTF_MAX_FLOW_TABLE
    ensures MemShape(r.0)
  {
    var (m1, ok1) := WriteNh(m, nhIdx, rows.nh);
    if !ok1 then (m1, false)
    else
      var (m2, back) := ReadNh(m1, nhIdx);
      if back != Seen(rows.nh) then (m2, false)
      else
        var (m3, ok3) := WriteNf(m2, nfIdx, rows.nf);
        if !ok3 then (m3, false)
        else
          var (m4, back') := ReadNf(m3, nfIdx);
          (m4, back' == Seen(rows.nf))
  }

  /** fa_flow_replace_live: whether the flow was accepted. */
  function Replace(s: Off, cookie: nat, rule: Rule): (r: (Off, bool))
    requires Shape(s)
    ensures Shape(r.0)
  {
    if !Supported(rule) then (s, false)
    else
      var k := FreeFrom(s.flows, 0);
      if k == FA_MAX_LIVE_FLOWS then (s, false)
      else
        var t := TakeSlot(s, k, cookie, rule);
        var (m, ok) := Program(s.mem, k + 1, k + 1, RowsFor(rule, k));
        if ok then (t.(mem := m), true) else (FreeSlot(t, k).(mem := m), false)
  }

  /** Reading the row and writing it back without its valid bit, if it can be read. */
  function Clear(m: Mem, idx: nat): (r: Mem)
    requires MemShape(m) && idx < CTF_MAX_FLOW_TABLE
    ensures MemShape(r)
  {
    var (m1, back) := ReadNf(m, idx);
    if back.Seen? then WriteNf(m1, idx, MarkInvalid(back.row)).0 else m1
  }

  /** fa_flow_destroy_live. */
  function Destroy(s: Off, cookie: nat): (r: Off)
    requires Shape(s)
    ensures Shape(r)
  {
    var k := FindFrom(s.flows, 0, cookie);
    if k == FA_MAX_LIVE_FLOWS then s
    else FreeSlot(s, k).(mem := Clear(s.mem, s.flows[k].nfIdx))
  }

  /** A rule is replaced or destroyed, or the accelerator counts a packet in a row. */
  datatype Event = ReplaceEv(cookie: nat, rule: Rule) | DestroyEv(cookie: nat) | CountEv(idx: nat, row: FlowRow)

  function Step(s: Off, e: Event): (r: (Off, bool))
    requires Shape(s)
    ensures Shape(r.0)
  {
    match e
    case ReplaceEv(cookie, rule) => Replace(s, cookie, rule)
    case DestroyEv(cookie) => (Destroy(s, cookie), true)
    case CountEv(idx, row) =>
      if idx < CTF_MAX_FLOW_TABLE && SameButCounters(row, s.mem.nf[idx])
      then (s.(mem := s.mem.(nf := s.mem.nf[idx := row])), true)
      else (s, true)
  }

  const NO_RULE: Rule := Rule(0, None, (0, 0), None, [])

  /** After the bring-up: no slot in use and both tables zeroed. */
  function Init(io: nat -> Access): (s: Off)
    ensures Shape(s)
  {
    Off(seq(FA_MAX_LIVE_FLOWS, _ => LiveFlow(0, 0, 0, false)),
        Mem(seq(NH_ROWS, _ => ZERO_HOP), seq(CTF_MAX_FLOW_TABLE, _ => ZERO_FLOW), io, 0),
        seq(FA_MAX_LIVE_FLOWS, _ => NO_RULE))
  }

  function Run(io: nat -> Access, es: seq<Event>): (s: Off)
    ensures Shape(s)
  {
    if es == [] then Init(io) else Step(Run(io, es[..|es| - 1]), es[|es| - 1]).0
  }

  // ------------------------------------------------------------------ slots and cookies, all runs

  /** The cookies that were accepted and not destroyed since: what the caller knows. */
  function Live(io: nat -> Access, es: seq<Event>): multiset<nat> {
    if es == [] then multiset{}
    else
      var s, e := Run(io, es[..|es| - 1]), es[|es| - 1];
      After(Live(io, es[..|es| - 1]), e, Step(s, e).1)
  }

  function After(live: multiset<nat>, e: Event, accepted: bool): multiset<nat> {
    match e
    case ReplaceEv(cookie, _) => if accepted then live + multiset{cookie} else live
    case DestroyEv(cookie) => live - multiset{cookie}
    case CountEv(_, _) => live
  }

  /** The cookies of the slots in use. */
  function Cookies(flows: seq<LiveFlow>): multiset<nat> {
    if flows == [] then multiset{} else Own(flows[0]) + Cookies(flows[1..])
  }

  function Own(f: LiveFlow): multiset<nat> {
    if f.inUse then multiset{f.cookie} else multiset{}
  }

  lemma {:induction false} CookiesUpdate(flows: seq<LiveFlow>, k: nat, f: LiveFlow)
    requires k < |flows|
    ensures Cookies(flows[k := f]) + Own(flows[k]) == Cookies(flows) + Own(f)
  {
    hide Own;
    var flows' := flows[k := f];
    assert Cookies(flows') == Own(flows'[0]) + Cookies(flows'[1..]);
    if k == 0 {
      assert flows'[1..] == flows[1..];
    } else {
      assert flows'[1..] == flows[1..][k - 1 := f] && flows[1..][k - 1] == flows[k];
      CookiesUpdate(flows[1..], k - 1, f);
      assert Cookies(flows') + Own(flows[k]) == Own(flows[0]) + (Cookies(flows'[1..]) + Own(flows[k]));
    }
  }

  lemma {:induction false} NoCookie(flows: seq<LiveFlow>, cookie: nat)
    ensures cookie in Cookies(flows) <==> exists k :: 0 <= k < |flows| && Holds(flows[k], cookie)
  {
    if flows != [] {
      NoCookie(flows[1..], cookie);
      if k :| 0 <= k < |flows| && Holds(flows[k], cookie) {
        assert k > 0 ==> Holds(flows[1..][k - 1], cookie);
      }
      if k :| 0 <= k < |flows[1..]| && Holds(flows[1..][k], cookie) {
        assert Holds(flows[k + 1], cookie);
      }
    }
  }

  lemma TakeCookies(s: Off, k: nat, cookie: nat, rule: Rule)
    requires Shape(s) && k < FA_MAX_LIVE_FLOWS && !s.flows[k].inUse
    ensures Cookies(TakeSlot(s, k, cookie, rule).flows) == Cookies(s.flows) + multiset{cookie}
  {
    hide Cookies;
    CookiesUpdate(s.flows, k, LiveFlow(cookie, k + 1, k + 1, true));
  }

  lemma FreeCookies(s: Off, k: nat)
    requires Shape(s) && k < FA_MAX_LIVE_FLOWS && s.flows[k].inUse
    ensures Cookies(FreeSlot(s, k).flows) == Cookies(s.flows) - multiset{s.flows[k].cookie}
  {
    hide Cookies;
    var f := s.flows[k].(inUse := false);
    CookiesUpdate(s.flows, k, f);
    var c := multiset{s.flows[k].cookie};
    var now := Cookies(s.flows[k := f]);
    assert now == (now + c) - c;
  }

  lemma ReplaceCookies(s: Off, cookie: nat, rule: Rule)
    requires Shape(s)
    ensures var (r, ok) := Replace(s, cookie, rule);
            Cookies(r.flows) == if ok then Cookies(s.flows) + multiset{cookie} else Cookies(s.flows)
  {
    hide Program, RowsFor, Supported, Cookies;
    var k := FreeFrom(s.flows, 0);
    if k < FA_MAX_LIVE_FLOWS {
      TakeCookies(s, k, cookie, rule);
      FreeCookies(TakeSlot(s, k, cookie, rule), k);
    }
  }

  lemma DestroyCookies(s: Off, cookie: nat)
    requires Shape(s)
    ensures Cookies(Destroy(s, cookie).flows) == Cookies(s.flows) - multiset{cookie}
  {
    hide Clear, Cookies;
    var k := FindFrom(s.flows, 0, cookie);
    if k < FA_MAX_LIVE_FLOWS {
      FreeCookies(s, k);
    } else {
      NoCookie(s.flows, cookie);
    }
  }

  lemma StepCookies(s: Off, e: Event)
    requires Shape(s)
    ensures Cookies(Step(s, e).0.flows) == After(Cookies(s.flows), e, Step(s, e).1)
  {
    hide Replace, Destroy, Cookies;
    match e {
      case ReplaceEv(cookie, rule) => ReplaceCookies(s, cookie, rule);
      case DestroyEv(cookie) => DestroyCookies(s, cookie);
      case CountEv(_, _) =>
    }
  }

  /** Every run, timeouts and garbled rows included: the slots in use hold exactly the cookies that
      were accepted and not destroyed, and slot k owns rows k + 1. */
  lemma {:induction false} SlotsAreLive(io: nat -> Access, es: seq<Event>)
    ensures var s := Run(io, es);
            && Cookies(s.flows) == Live(io, es)
            && forall k :: 0 <= k < FA_MAX_LIVE_FLOWS ==> SlotOk(s.flows[k], k)
  {
    hide Step, Cookies, After;
    if es == [] {
      NoneInUse(Init(io).flows);
    } else {
      var n := |es| - 1;
      SlotsAreLive(io, es[..n]);
      StepCookies(Run(io, es[..n]), es[n]);
    }
  }

  /** A cookie that was accepted once is in one slot. */
  lemma {:induction false} OneSlotPerCookie(flows: seq<LiveFlow>, cookie: nat, i: nat, j: nat)
    requires i < j < |flows| && Holds(flows[i], cookie) && Holds(flows[j], cookie)
    ensures Cookies(flows)[cookie] >= 2
  {
    NoCookie(flows[1..], cookie);
    if i > 0 {
      assert flows[1..][i - 1] == flows[i] && flows[1..][j - 1] == flows[j];
      OneSlotPerCookie(flows[1..], cookie, i - 1, j - 1);
    } else {
      assert flows[1..][j - 1] == flows[j];
    }
  }

  lemma {:induction false} NoneInUse(flows: seq<LiveFlow>)
    requires forall k :: 0 <= k < |flows| ==> !flows[k].inUse
    ensures Cookies(flows) == multiset{}
  {
    if flows != [] {
      NoneInUse(flows[1..]);
    }
  }

  // ------------------------------------------------------------------ rows, runs without faults

  ghost predicate Faultless(io: nat -> Access) {
    forall t :: io(t) == Done
  }

  /** What the rows of slot k hold. */
  ghost predicate RowsOk(s: Off, k: nat)
    requires Shape(s) && k < FA_MAX_LIVE_FLOWS
  {
    if s.flows[k].inUse then
      && Supported(s.rules[k])
      && s.mem.nh[k + 1] == RowsFor(s.rules[k], k).nh
      && SameButCounters(s.mem.nf[k + 1], RowsFor(s.rules[k], k).nf)
    else !IsValid(s.mem.nf[k + 1])
  }

  ghost predicate Untouched(s: Off)
    requires Shape(s)
  {
    && (forall i :: 0 <= i < NH_ROWS && (i == 0 || i > FA_MAX_LIVE_FLOWS) ==> s.mem.nh[i] == ZERO_HOP)
    && (forall i :: 0 <= i < CTF_MAX_FLOW_TABLE && (i == 0 || i > FA_MAX_LIVE_FLOWS) ==> !IsValid(s.mem.nf[i]))
  }

  ghost predicate Clean(s: Off)
    ensures Clean(s) ==> Shape(s)
  {
    && Shape(s) && Faultless(s.mem.io) && Untouched(s)
    && forall k :: 0 <= k < FA_MAX_LIVE_FLOWS ==> RowsOk(s, k)
  }

  lemma CountersKeepValid(now: FlowRow, was: FlowRow)
    requires SameButCounters(now, was)
    ensures IsValid(now) == IsValid(was)
  {
    CountersDoNotShow(now, was);
    MarkInvalidOnly(now);
    MarkInvalidOnly(was);
  }

  lemma ProgramFaultless(m: Mem, k: nat, rows: Rows)
    requires MemShape(m) && Faultless(m.io) && k < FA_MAX_LIVE_FLOWS
    ensures Program(m, k + 1, k + 1, rows)
         == (m.(nh := m.nh[k + 1 := rows.nh], nf := m.nf[k + 1 := rows.nf], tick := m.tick + 4), true)
  {
  }

  lemma ClearFaultless(m: Mem, k: nat)
    requires MemShape(m) && Faultless(m.io) && k < FA_MAX_LIVE_FLOWS
    ensures Clear(m, k + 1) == m.(nf := m.nf[k + 1 := MarkInvalid(m.nf[k + 1])], tick := m.tick + 2)
  {
  }

  /** Without faults a rule is accepted exactly when it is supported and there is a free slot. */
  lemma ReplaceClean(s: Off, cookie: nat, rule: Rule)
    requires Clean(s)
    ensures Clean(Replace(s, cookie, rule).0)
    ensures Replace(s, cookie, rule).1 <==>
            Supported(rule) && exists k :: 0 <= k < FA_MAX_LIVE_FLOWS && !s.flows[k].inUse
  {
    hide RowsFor, Supported, Clean, Replace;
    if Supported(rule) && FreeFrom(s.flows, 0) < FA_MAX_LIVE_FLOWS {
      ReplaceKeepsClean(s, cookie, rule);
    } else {
      Declined(s, cookie, rule);
    }
  }

  lemma ReplaceKeepsClean(s: Off, cookie: nat, rule: Rule)
    requires Clean(s) && Supported(rule) && FreeFrom(s.flows, 0) < FA_MAX_LIVE_FLOWS
    ensures Clean(Replace(s, cookie, rule).0) && Replace(s, cookie, rule).1
  {
    hide RowsFor, Supported, Program, IsValid, Faultless, SameButCounters, Replace;
    var k := FreeFrom(s.flows, 0);
    ReplaceFaultless(s, cookie, rule);
    SameRow(RowsFor(rule, k).nf);
    var r := Replace(s, cookie, rule).0;
    forall j | 0 <= j < FA_MAX_LIVE_FLOWS ensures RowsOk(r, j) {
      assert RowsOk(s, j);
    }
  }

  lemma ReplaceFaultless(s: Off, cookie: nat, rule: Rule)
    requires Shape(s) && Faultless(s.mem.io) && Supported(rule) && FreeFrom(s.flows, 0) < FA_MAX_LIVE_FLOWS
    ensures var k := FreeFrom(s.flows, 0);
            var rows := RowsFor(rule, k);
            Replace(s, cookie, rule)
            == (s.(flows := s.flows[k := LiveFlow(cookie, k + 1, k + 1, true)], rules := s.rules[k := rule],
                   mem := s.mem.(nh := s.mem.nh[k + 1 := rows.nh], nf := s.mem.nf[k + 1 := rows.nf], tick := s.mem.tick + 4)),
                true)
  {
    hide RowsFor, Supported, Program, Faultless;
    var k := FreeFrom(s.flows, 0);
    ProgramFaultless(s.mem, k, RowsFor(rule, k));
  }

  lemma Declined(s: Off, cookie: nat, rule: Rule)
    requires Shape(s) && (!Supported(rule) || FreeFrom(s.flows, 0) == FA_MAX_LIVE_FLOWS)
    ensures Replace(s, cookie, rule) == (s, false)
  {
    hide RowsFor, Supported, Program;
  }

  lemma SameRow(row: FlowRow)
    ensures SameButCounters(row, row)
  {
  }

  /** Without faults destroying a flow makes its row invalid and its slot free, and changes nothing
      else; an unknown cookie changes nothing at all. */
  lemma DestroyClean(s: Off, cookie: nat)
    requires Clean(s)
    ensures Clean(Destroy(s, cookie))
    ensures var k, r := FindFrom(s.flows, 0, cookie), Destroy(s, cookie);
            if k == FA_MAX_LIVE_FLOWS then r == s && forall j :: 0 <= j < FA_MAX_LIVE_FLOWS ==> !Holds(s.flows[j], cookie)
            else
              && Holds(s.flows[k], cookie) && !r.flows[k].inUse && !IsValid(r.mem.nf[k + 1])
              && (forall j :: 0 <= j < FA_MAX_LIVE_FLOWS && j != k ==> r.flows[j] == s.flows[j])
              && (forall i :: 0 <= i < CTF_MAX_FLOW_TABLE && i != k + 1 ==> r.mem.nf[i] == s.mem.nf[i])
              && r.mem.nh == s.mem.nh && r.rules == s.rules
  {
    hide RowsFor, Supported, IsValid, SameButCounters, MarkInvalid, Destroy, SlotOk, RowsOk, Faultless, Untouched;
    if FindFrom(s.flows, 0, cookie) < FA_MAX_LIVE_FLOWS {
      DestroyKeepsClean(s, cookie);
      hide Clean;
      DestroyEffects(s, cookie);
    } else {
      UnknownCookie(s, cookie);
    }
  }

  lemma DestroyEffects(s: Off, cookie: nat)
    requires Shape(s) && Faultless(s.mem.io) && FindFrom(s.flows, 0, cookie) < FA_MAX_LIVE_FLOWS
    ensures var k, r := FindFrom(s.flows, 0, cookie), Destroy(s, cookie);
            && !r.flows[k].inUse && !IsValid(r.mem.nf[k + 1])
            && (forall j :: 0 <= j < FA_MAX_LIVE_FLOWS && j != k ==> r.flows[j] == s.flows[j])
            && (forall i :: 0 <= i < CTF_MAX_FLOW_TABLE && i != k + 1 ==> r.mem.nf[i] == s.mem.nf[i])
            && r.mem.nh == s.mem.nh && r.rules == s.rules
  {
    DestroyIs(s, cookie);
    MarkInvalidOnly(s.mem.nf[FindFrom(s.flows, 0, cookie) + 1]);
    hide IsValid, MarkInvalid, Destroy, SlotOk, Faultless;
  }

  lemma DestroyKeepsClean(s: Off, cookie: nat)
    requires Clean(s) && FindFrom(s.flows, 0, cookie) < FA_MAX_LIVE_FLOWS
    ensures Clean(Destroy(s, cookie))
  {
    hide RowsFor, Supported, IsValid, Faultless, SameButCounters, MarkInvalid, Destroy;
    var k := FindFrom(s.flows, 0, cookie);
    DestroyIs(s, cookie);
    MarkInvalidOnly(s.mem.nf[k + 1]);
    var r := Destroy(s, cookie);
    forall j | 0 <= j < FA_MAX_LIVE_FLOWS ensures RowsOk(r, j) {
      assert RowsOk(s, j);
    }
  }

  lemma DestroyIs(s: Off, cookie: nat)
    requires Shape(s) && Faultless(s.mem.io) && FindFrom(s.flows, 0, cookie) < FA_MAX_LIVE_FLOWS
    ensures var k := FindFrom(s.flows, 0, cookie);
            (Destroy(s, cookie)
             == s.(flows := s.flows[k := s.flows[k].(inUse := false)],
                   mem := s.mem.(nf := s.mem.nf[k + 1 := MarkInvalid(s.mem.nf[k + 1])], tick := s.mem.tick + 2)))
  {
    hide Clear, Faultless, MarkInvalid;
    var k := FindFrom(s.flows, 0, cookie);
    assert SlotOk(s.flows[k], k);
    ClearFaultless(s.mem, k);
  }

  lemma UnknownCookie(s: Off, cookie: nat)
    requires Shape(s) && FindFrom(s.flows, 0, cookie) == FA_MAX_LIVE_FLOWS
    ensures Destroy(s, cookie) == s && forall j :: 0 <= j < FA_MAX_LIVE_FLOWS ==> !Holds(s.flows[j], cookie)
  {
    hide Clear;
  }

  lemma CountClean(s: Off, idx: nat, row: FlowRow)
    requires Clean(s)
    ensures Clean(Step(s, CountEv(idx, row)).0)
  {
    hide RowsFor, Supported, Faultless, IsValid;
    if idx < CTF_MAX_FLOW_TABLE && SameButCounters(row, s.mem.nf[idx]) {
      CountersKeepValid(row, s.mem.nf[idx]);
      var r := Step(s, CountEv(idx, row)).0;
      forall j | 0 <= j < FA_MAX_LIVE_FLOWS ensures RowsOk(r, j) {
        assert RowsOk(s, j);
      }
    }
  }

  lemma InitClean(io: nat -> Access)
    requires Faultless(io)
    ensures Clean(Init(io))
  {
    assert !IsValid(ZERO_FLOW) by { ZeroInvalid(); }
    hide IsValid, Faultless;
  }

  lemma ZeroInvalid()
    ensures !IsValid(ZERO_FLOW)
  {
  }

  /** Runs without faults: the rows of every slot in use are the ones built from its rule, all
      other rows are invalid, and rows 0 and 33 up are never touched. */
  lemma {:induction false} FaultlessRuns(io: nat -> Access, es: seq<Event>)
    requires Faultless(io)
    ensures Clean(Run(io, es))
  {
    hide Clean, Step, Faultless;
    if es == [] {
      InitClean(io);
    } else {
      FaultlessRuns(io, es[..|es| - 1]);
      StepClean(Run(io, es[..|es| - 1]), es[|es| - 1]);
    }
  }

  lemma StepClean(s: Off, e: Event)
    requires Clean(s)
    ensures Clean(Step(s, e).0)
  {
    hide Clean, Replace, Destroy;
    match e {
      case ReplaceEv(cookie, rule) => ReplaceClean(s, cookie, rule);
      case DestroyEv(cookie) => DestroyClean(s, cookie);
      case CountEv(idx, row) => CountClean(s, idx, row);
    }
  }

  /** What a rule has to have: TCP, addresses to match on or an address rewrite, an Ethernet address to
      match on or a rewrite of one. */
  lemma SupportedIff(rule: Rule)
    ensures Supported(rule) <==>
            && rule.proto == 6
            && (rule.ips.Some? || exists a :: a in rule.actions && RewritesAddress(a))
            && (rule.mac.Some? || exists a :: a in rule.actions && a.MangleEth?)
  {
    IpIsMangled(rule.actions);
    EthIsMangled(rule.actions);
    hide Collect;
  }

  predicate RewritesAddress(a: Action) {
    a.MangleIp4? && (a.offset == 12 || a.offset == 16)
  }

  lemma {:induction false} IpIsMangled(actions: seq<Action>)
    ensures Collect(actions).mangledIp <==> exists a :: a in actions && RewritesAddress(a)
  {
    if actions != [] {
      var n := |actions| - 1;
      IpIsMangled(actions[..n]);
      MarksAddress(Collect(actions[..n]), actions[n]);
      hide Look, RewritesAddress;
      assert forall a :: a in actions <==> a in actions[..n] || a == actions[n];
    }
  }

  lemma MarksAddress(f: Found, a: Action)
    ensures Look(f, a).mangledIp <==> f.mangledIp || RewritesAddress(a)
  {
    hide UpperPort;
  }

  /** Without faults a rule is accepted exactly when it has all that and a slot is free. */
  lemma AcceptedIff(s: Off, cookie: nat, rule: Rule)
    requires Clean(s)
    ensures Replace(s, cookie, rule).1 <==>
            && (exists k :: 0 <= k < FA_MAX_LIVE_FLOWS && !s.flows[k].inUse)
            && rule.proto == 6
            && (rule.ips.Some? || exists a :: a in rule.actions && RewritesAddress(a))
            && (rule.mac.Some? || exists a :: a in rule.actions && a.MangleEth?)
  {
    ReplaceClean(s, cookie, rule);
    SupportedIff(rule);
    hide Replace, Supported, Clean;
  }

  /** A row matches the packets of a rule: TCP between its addresses and ports. */
  predicate RowMatches(rule: Rule, d: Decoded) {
    && d.valid && d.v4 && d.tcp && d.sp == Host16(rule.ports.0) && d.dp == Host16(rule.ports.1)
    && (rule.ips.Some? ==> d.sip == Ntoh32(rule.ips.value.0) && d.dip == Ntoh32(rule.ips.value.1))
    && (rule.ips.None? ==> d.sip == d.dip == 0)
  }

  /** A row names next hop i, whose row holds the destination address the rule matches on and adds no
      tag. */
  predicate Leads(nh: seq<HopRow>, rule: Rule, d: Decoded, i: nat)
    requires i < |nh|
  {
    && d.nh as nat == i && NhDa(nh[i]) == (if rule.mac.Some? then rule.mac.value else ZERO_MAC)
    && NhOp(nh[i]) == 2 && NhTci(nh[i]) == 0
  }

  /** What the accelerator reads in the rows of a slot in use: a row that matches the rule's packets
      and leads to the next-hop row of the slot. */
  lemma RowsDecode(io: nat -> Access, es: seq<Event>, k: nat)
    requires Faultless(io) && k < FA_MAX_LIVE_FLOWS && Run(io, es).flows[k].inUse
    ensures var s := Run(io, es);
            var d, rule := Decode(s.mem.nf[k + 1]), s.rules[k];
            d == Expected(FieldsFor(rule, k)) && RowMatches(rule, d) && Leads(s.mem.nh, rule, d, k + 1)
  {
    FaultlessRuns(io, es);
    var s := Run(io, es);
    hide Run;
    assert RowsOk(s, k);
    var rule := s.rules[k];
    var f := FieldsFor(rule, k);
    assert RowsFor(rule, k).nf == PrepIpv4(f);
    SlotInWidth(k);
    CountersDoNotShow(s.mem.nf[k + 1], PrepIpv4(f));
    PrepRoundTrip(f);
    HopAddress(rule, k);
    SupportedIff(rule);
    FieldsMatch(rule, k);
    IndexBack(k + 1);
    hide *;
  }

  lemma FieldsMatch(rule: Rule, k: nat)
    requires k < FA_MAX_LIVE_FLOWS && rule.proto == 6
    ensures RowMatches(rule, Expected(FieldsFor(rule, k))) && Expected(FieldsFor(rule, k)).nh == (k + 1) as bv32
  {
    ZeroAddress();
    hide Ntoh32, Host16, Collect;
  }

  lemma ZeroAddress()
    ensures Ntoh32(0) == 0
  {
  }

  lemma SlotInWidth(k: nat)
    requires k < FA_MAX_LIVE_FLOWS
    ensures (k + 1) as bv32 < 128
  {
  }

  // ------------------------------------------------------------------ where intent and code part

  /** An action that rewrites the source port: both ports in one word, the source port in the upper
      half, unless the mask leaves that half alone. */
  predicate RewritesSport(a: Action) {
    a.MangleL4? && a.offset == 0 && a.mask != 0x0000ffff
  }

  /** An action that the driver looks at without keeping anything of it. */
  predicate Unseen(a: Action) {
    match a
    case MangleIp4(offset, _) => offset != SADDR && offset != DADDR
    case MangleL4(_, _, _) => !RewritesSport(a)
    case MangleEth(_, _, _) => false
    case Redirect(_) => false
    case Other => true
  }

  /** Actions that differ at most in what a destination is rewritten to: the IPv4 address, the
      Ethernet addresses, the destination port. */
  predicate Alike(a: Action, b: Action) {
    || a == b
    || (a.MangleIp4? && b.MangleIp4? && a.offset == b.offset == DADDR)
    || (a.MangleEth? && b.MangleEth?)
    || (Unseen(a) && Unseen(b))
  }

  predicate AllAlike(a: seq<Action>, b: seq<Action>) {
    |a| == |b| && forall i :: 0 <= i < |a| ==> Alike(a[i], b[i])
  }

  lemma {:induction false} CollectAlike(a: seq<Action>, b: seq<Action>)
    requires AllAlike(a, b)
    ensures Collect(a) == Collect(b)
  {
    if a != [] {
      var n := |a| - 1;
      assert Alike(a[n], b[n]);
      CollectAlike(a[..n], b[..n]);
    }
  }

  /** No rewritten destination reaches the rows: two rules that differ in nothing else are accepted
      or declined together, with the same rows. */
  lemma DestinationRewriteLost(rule: Rule, actions: seq<Action>, k: nat)
    requires k < FA_MAX_LIVE_FLOWS && AllAlike(rule.actions, actions)
    ensures Supported(rule.(actions := actions)) == Supported(rule)
    ensures RowsFor(rule.(actions := actions), k) == RowsFor(rule, k)
  {
    CollectAlike(rule.actions, actions);
    hide Collect, PrepIpv4, SetNhEntry;
  }

  /** So a packet of the flow goes to the address the rule matches on, rewritten or not, or to the
      zero address when it matches on none: then it takes a rewrite for the rule to be accepted. */
  lemma HopAddress(rule: Rule, k: nat)
    requires k < FA_MAX_LIVE_FLOWS
    ensures NhDa(RowsFor(rule, k).nh) == if rule.mac.Some? then rule.mac.value else ZERO_MAC
    ensures NhOp(RowsFor(rule, k).nh) == 2 && NhTci(RowsFor(rule, k).nh) == 0
    ensures Supported(rule) && rule.mac.None? ==> exists a :: a in rule.actions && a.MangleEth?
  {
    NhRoundTrip(if rule.mac.Some? then rule.mac.value else ZERO_MAC, 0, CTF_NH_OP_NOTAG, 0);
    NhTagRoundTrip(if rule.mac.Some? then rule.mac.value else ZERO_MAC, 0, CTF_NH_OP_NOTAG, 0);
    NoTagFits();
    EthIsMangled(rule.actions);
    hide NhDa, NhOp, NhTci, NhFtype, SetNhEntry, PrepIpv4, Collect;
  }

  lemma NoTagFits()
    ensures CTF_NH_OP_NOTAG & 0x3 == 2 && (0 as bv16) as bv32 == 0
  {
  }

  lemma {:induction false} EthIsMangled(actions: seq<Action>)
    ensures Collect(actions).mangledEth <==> exists a :: a in actions && a.MangleEth?
  {
    if actions != [] {
      var n := |actions| - 1;
      EthIsMangled(actions[..n]);
      assert forall a :: a in actions <==> a in actions[..n] || a == actions[n];
    }
  }

  /** A source rewrite that no later action overrides is the one in the row. */
  lemma {:induction false} LastSourceWins(before: seq<Action>, val: bv32, after: seq<Action>)
    requires forall a :: a in after && a.MangleIp4? ==> a.offset != SADDR
    ensures Collect(before + [MangleIp4(SADDR, val)] + after).natSrc == val
    decreases |after|
  {
    var all := before + [MangleIp4(SADDR, val)] + after;
    if after == [] {
      assert all[..|all| - 1] == before;
    } else {
      var n := |after| - 1;
      assert all[..|all| - 1] == before + [MangleIp4(SADDR, val)] + after[..n];
      LastSourceWins(before, val, after[..n]);
    }
  }

  /** The direction in the row is that of the last redirection: towards "wan" or not. */
  lemma {:induction false} LastRedirectWins(before: seq<Action>, wan: bool, after: seq<Action>)
    requires forall a :: a in after ==> !a.Redirect?
    ensures Collect(before + [Redirect(wan)] + after).wan == wan
    decreases |after|
  {
    var all := before + [Redirect(wan)] + after;
    if after == [] {
      assert all[..|all| - 1] == before;
    } else {
      var n := |after| - 1;
      assert all[..|all| - 1] == before + [Redirect(wan)] + after[..n];
      LastRedirectWins(before, wan, after[..n]);
    }
  }

  lemma {:induction false} LastSportWins(before: seq<Action>, a: Action, after: seq<Action>)
    requires RewritesSport(a) && forall b :: b in after ==> !RewritesSport(b)
    ensures Collect(before + [a] + after).natSport == UpperPort(a.val)
    decreases |after|
  {
    hide UpperPort;
    var all := before + [a] + after;
    if after == [] {
      assert all[..|all| - 1] == before;
    } else {
      var n := |after| - 1;
      assert all[..|all| - 1] == before + [a] + after[..n];
      assert all[|all| - 1] == after[n] && !RewritesSport(after[n]);
      LastSportWins(before, a, after[..n]);
    }
  }

  /** The addresses and ports that a rule wants its packets to leave with, as they lie in memory. */
  datatype Wish = Wish(src: bv32, dst: bv32, sport: bv16, dport: bv16)

  /** One action's part in it, as the driver's own decoders read actions. */
  function Grant(w: Wish, a: Action): Wish {
    match a
    case MangleIp4(offset, val) =>
      if offset == SADDR then w.(src := val) else if offset == DADDR then w.(dst := val) else w
    case MangleL4(offset, mask, val) =>
      if offset == 0 && mask != 0x0000ffff then w.(sport := UpperPort(val))
      else if offset == 0 || offset == 2 then w.(dport := LowerPort(val))
      else w
    case _ => w
  }

  function Wanted(key: Tuple, actions: seq<Action>): Wish {
    if actions == [] then Wish(key.sip, key.dip, key.sp, key.dp)
    else Grant(Wanted(key, actions[..|actions| - 1]), actions[|actions| - 1])
  }

  function Granted(w: Wish): Leaving {
    Leaving(Ntoh32(w.src), Ntoh32(w.dst), Host16(w.sport), Host16(w.dport))
  }

  /** What is collected of the source address is the one that is wanted, unless that is zero. */
  lemma {:induction false} CollectedSource(key: Tuple, actions: seq<Action>)
    ensures SourceIs(key, Collect(actions), Wanted(key, actions))
  {
    hide SourceIs, Look, Grant;
    if actions == [] {
      StartSource(key);
    } else {
      var n := |actions| - 1;
      CollectedSource(key, actions[..n]);
      StepSource(key, Collect(actions[..n]), Wanted(key, actions[..n]), actions[n]);
    }
  }

  predicate SourceIs(key: Tuple, f: Found, w: Wish) {
    (f.natSrc == 0 && w.src == key.sip) || w.src == f.natSrc
  }

  lemma StartSource(key: Tuple)
    ensures SourceIs(key, Collect([]), Wanted(key, []))
  {
  }

  lemma StepSource(key: Tuple, f: Found, w: Wish, a: Action)
    requires SourceIs(key, f, w)
    ensures SourceIs(key, Look(f, a), Grant(w, a))
  {
    hide UpperPort, LowerPort;
  }

  /** The action of a row overwrites addresses only: no rewritten port ever reaches a packet.  Towards
      "wan" the row replaces the source address, elsewhere the destination, in both cases by the
      rewritten source or, where nothing rewrites it, by the rule's own source. */
  lemma RewriteInRow(rule: Rule, k: nat)
    requires k < FA_MAX_LIVE_FLOWS
    ensures var f, d := Collect(rule.actions), Expected(FieldsFor(rule, k));
            && d.natIp == Ntoh32(if f.natSrc != 0 then f.natSrc else KeyOf(rule).sip)
            && d.natPort == Host16(if f.natSport != 0 then f.natSport else KeyOf(rule).sp)
            && d.external == !f.wan && d.pool == 0 && d.dma == 0
    ensures var f, key := Collect(rule.actions), KeyOf(rule);
            var ip := Ntoh32(if f.natSrc != 0 then f.natSrc else key.sip);
            (Translated(Expected(FieldsFor(rule, k)))
             == if f.wan then Leaving(ip, Ntoh32(key.dip), Host16(key.sp), Host16(key.dp))
                else Leaving(Ntoh32(key.sip), ip, Host16(key.sp), Host16(key.dp)))
  {
    OverwritesAddress();
    hide Ntoh32, Host16, Collect;
  }

  lemma OverwritesAddress()
    ensures CTF_NAPT_OVRW_IP & CTF_NAPT_OVRW_IP != 0 && CTF_NAPT_OVRW_IP & CTF_NAPT_OVRW_PORT == 0
  {
  }

  /** Exactly when the row of a rule gives its packets the addresses and ports that the rule wants.
      Towards "wan": when no port and no destination changes, and the source does not become zero.
      Elsewhere: when no port and no source changes, and the destination becomes the rule's own
      source. */
  lemma TranslatesIff(rule: Rule, k: nat)
    requires k < FA_MAX_LIVE_FLOWS
    ensures var key, w := KeyOf(rule), Wanted(KeyOf(rule), rule.actions);
            Translated(Expected(FieldsFor(rule, k))) == Granted(w) <==>
            && w.sport == key.sp && w.dport == key.dp
            && (if Collect(rule.actions).wan then w.dst == key.dip && (w.src == 0 ==> key.sip == 0)
                else w.src == key.sip && w.dst == key.sip)
  {
    RewriteInRow(rule, k);
    var key, f, w := KeyOf(rule), Collect(rule.actions), Wanted(KeyOf(rule), rule.actions);
    CollectedSource(key, rule.actions);
    var ip := if f.natSrc != 0 then f.natSrc else key.sip;
    NtohInjective(w.src, key.sip, w.sport, key.sp);
    NtohInjective(w.dst, key.dip, w.dport, key.dp);
    NtohInjective(w.src, ip, w.sport, key.sp);
    NtohInjective(w.dst, ip, w.dport, key.dp);
    hide Ntoh32, Host16, Collect, Wanted, FieldsFor, Expected, Translated, KeyOf;
  }

  /** A flow from outside whose rule rewrites the destination to an inside host: the packets go back
      to where they came from. */
  lemma InboundLost(ips: (bv32, bv32), ports: (bv16, bv16), mac: Mac, host: bv32, k: nat)
    requires k < FA_MAX_LIVE_FLOWS && host != ips.0
    ensures var rule := Rule(IP_PROT_TCP, Some(ips), ports, Some(mac), [MangleIp4(DADDR, host), Redirect(false)]);
            && Supported(rule)
            && Translated(Expected(FieldsFor(rule, k))).dip == Ntoh32(ips.0) != Ntoh32(host)
  {
    var actions := [MangleIp4(DADDR, host), Redirect(false)];
    assert actions[..1] == [MangleIp4(DADDR, host)] && actions[..1][..0] == [];
    var rule := Rule(IP_PROT_TCP, Some(ips), ports, Some(mac), actions);
    assert Collect(actions[..1]) == Found(0, 0, true, false, false);
    RewriteInRow(rule, k);
    NtohInjective(host, ips.0, 0, 0);
    hide Ntoh32, Host16, Expected, Translated, FieldsFor;
  }

  /** A flow from inside whose source port is rewritten keeps its own. */
  lemma SportLost(rule: Rule, k: nat)
    requires k < FA_MAX_LIVE_FLOWS && Collect(rule.actions).wan
    ensures var sport := Collect(rule.actions).natSport;
            Translated(Expected(FieldsFor(rule, k))).sp == Host16(if sport != 0 then sport else rule.ports.0) <==>
            sport == 0 || sport == rule.ports.0
  {
    RewriteInRow(rule, k);
    NtohInjective(0, 0, Collect(rule.actions).natSport, rule.ports.0);
    hide Ntoh32, Host16, Collect, Expected, Translated, FieldsFor;
  }

  /** What a write of `row` over `was` leaves in the NAPT table. */
  function StoredNf(a: Access, was: FlowRow, row: FlowRow): FlowRow {
    match a
    case Done => row
    case TimedOut(landed) => if landed then row else was
    case Garbled(_, nf) => nf
    case Counted(_) => row
  }

  /** The next-hop row was written in time, and read back in time as it was meant. */
  predicate HopVerified(written: Access, readBack: Access, row: HopRow) {
    && !written.TimedOut? && !readBack.TimedOut?
    && (if readBack.Garbled? then readBack.nh == row else written.Garbled? ==> written.nh == row)
  }

  /** A read in time shows this instead of what is stored. */
  predicate Differs(a: Access, stored: FlowRow, row: FlowRow) {
    match a
    case Done => stored != row
    case TimedOut(_) => true
    case Garbled(_, nf) => nf != row
    case Counted(now) => (if SameButCounters(now, stored) then now else stored) != row
  }

  /** Whatever the accesses do: a refused rule leaves a valid row behind, in a slot that is free
      again, exactly when one of these holds.  The next-hop row was not verified, and the old NAPT
      row is valid.  Or the row stored in the NAPT table is valid, and the write was late, or the
      read-back was late or showed another row. */
  lemma RefusedLeavesRow(m: Mem, k: nat, rows: Rows)
    requires MemShape(m) && k < FA_MAX_LIVE_FLOWS
    ensures var (r, ok) := Program(m, k + 1, k + 1, rows);
            var stored := StoredNf(m.io(m.tick + 2), m.nf[k + 1], rows.nf);
            !ok && IsValid(r.nf[k + 1]) <==>
            if !HopVerified(m.io(m.tick), m.io(m.tick + 1), rows.nh) then IsValid(m.nf[k + 1])
            else IsValid(stored) && (m.io(m.tick + 2).TimedOut? || Differs(m.io(m.tick + 3), stored, rows.nf))
    ensures var stored := StoredNf(m.io(m.tick + 2), m.nf[k + 1], rows.nf);
            Program(m, k + 1, k + 1, rows).1 <==>
            && HopVerified(m.io(m.tick), m.io(m.tick + 1), rows.nh)
            && !m.io(m.tick + 2).TimedOut? && !Differs(m.io(m.tick + 3), stored, rows.nf)
  {
    hide IsValid, SameButCounters;
    HopSteps(m, k, rows);
    var m2 := ReadNh(WriteNh(m, k + 1, rows.nh).0, k + 1).0;
    FlowSteps(m2, k, rows.nf);
    if HopVerified(m.io(m.tick), m.io(m.tick + 1), rows.nh) {
      hide WriteNh, ReadNh, HopVerified, Differs, StoredNf, WriteNf, ReadNf;
    }
  }

  lemma HopSteps(m: Mem, k: nat, rows: Rows)
    requires MemShape(m) && k < FA_MAX_LIVE_FLOWS
    ensures var m1 := WriteNh(m, k + 1, rows.nh);
            var m2 := ReadNh(m1.0, k + 1);
            && m2.0 == m.(tick := m.tick + 2, nh := m2.0.nh)
            && (m1.1 && m2.1 == Seen(rows.nh) <==> HopVerified(m.io(m.tick), m.io(m.tick + 1), rows.nh))
            && (!HopVerified(m.io(m.tick), m.io(m.tick + 1), rows.nh) ==>
                  !Program(m, k + 1, k + 1, rows).1 && Program(m, k + 1, k + 1, rows).0.nf == m.nf)
  {
  }

  lemma FlowSteps(m: Mem, k: nat, row: FlowRow)
    requires MemShape(m) && k < FA_MAX_LIVE_FLOWS
    ensures var (m3, ok3) := WriteNf(m, k + 1, row);
            var (m4, back) := ReadNf(m3, k + 1);
            var stored := StoredNf(m.io(m.tick), m.nf[k + 1], row);
            && (ok3 <==> !m.io(m.tick).TimedOut?)
            && IsValid(m3.nf[k + 1]) == IsValid(m4.nf[k + 1]) == IsValid(stored)
            && (back != Seen(row) <==> Differs(m.io(m.tick + 1), stored, row))
  {
    WriteStep(m, k, row);
    hide IsValid, WriteNf, ReadNf, Differs, StoredNf;
    ReadStep(WriteNf(m, k + 1, row).0, k, row);
  }

  lemma WriteStep(m: Mem, k: nat, row: FlowRow)
    requires MemShape(m) && k < FA_MAX_LIVE_FLOWS
    ensures var (r, ok) := WriteNf(m, k + 1, row);
            && r.nf[k + 1] == StoredNf(m.io(m.tick), m.nf[k + 1], row) && (ok <==> !m.io(m.tick).TimedOut?)
            && r.tick == m.tick + 1 && r.io == m.io
  {
  }

  lemma ReadStep(m: Mem, k: nat, row: FlowRow)
    requires MemShape(m) && k < FA_MAX_LIVE_FLOWS
    ensures var (r, back) := ReadNf(m, k + 1);
            && IsValid(r.nf[k + 1]) == IsValid(m.nf[k + 1])
            && (back != Seen(row) <==> Differs(m.io(m.tick), m.nf[k + 1], row))
  {
    hide IsValid, SameButCounters;
    var a := m.io(m.tick);
    if a.Counted? && SameButCounters(a.now, m.nf[k + 1]) {
      CountersKeepValid(a.now, m.nf[k + 1]);
    }
  }

  /** Whatever the accesses do: destroying a flow leaves its row valid exactly when the row was
      valid and could not be read, or was valid and its write was lost, or another valid row was
      stored in its place. */
  lemma DestroyLeavesRow(m: Mem, k: nat)
    requires MemShape(m) && k < FA_MAX_LIVE_FLOWS
    ensures var was, read, write := IsValid(m.nf[k + 1]), m.io(m.tick), m.io(m.tick + 1);
            IsValid(Clear(m, k + 1).nf[k + 1]) <==>
            if read.TimedOut? || write == TimedOut(false) then was else write.Garbled? && IsValid(write.nf)
  {
    var (m1, back) := ReadNf(m, k + 1);
    assert m1.tick == m.tick + 1 && m1.io == m.io && (back.Seen? <==> !m.io(m.tick).TimedOut?);
    ReadStep(m, k, ZERO_FLOW);
    hide IsValid, ReadNf;
    if back.Seen? {
      MarkInvalidOnly(back.row);
      hide MarkInvalid;
      WriteStep(m1, k, MarkInvalid(back.row));
    }
  }

  /** A packet counted between the write and the read-back makes the comparison fail: the rule is
      refused, and the row stays valid and goes on counting in a slot that is free. */
  lemma CountedTooSoon(m: Mem, k: nat, rows: Rows, now: FlowRow)
    requires MemShape(m) && k < FA_MAX_LIVE_FLOWS && IsValid(rows.nf)
    requires m.io(m.tick) == m.io(m.tick + 1) == m.io(m.tick + 2) == Done && m.io(m.tick + 3) == Counted(now)
    requires SameButCounters(now, rows.nf) && now != rows.nf
    ensures var (r, ok) := Program(m, k + 1, k + 1, rows);
            !ok && IsValid(r.nf[k + 1]) && r.nf[k + 1] == now
  {
    RefusedLeavesRow(m, k, rows);
    hide IsValid, SameButCounters;
  }
}
