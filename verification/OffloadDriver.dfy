/** The backend's functions over the table they update.  They are proved to do what module
    OffloadTable says. */
module OffloadDriver {
  import opened FlowKey
  import opened FlowRows
  import opened OffloadTable

  // The words that fa_set_nh_entry stores, with a 32-bit tag control field.
  function Nh0(s: Mac, ft: bv32, o: bv32, vt: bv32): bv32 {
    (ft & 0x1) | ((o & 0x3) << 1) | ((vt & 0xFFFF) << 3) | ((s.o5 as bv32) << 19) | (((s.o4 & 0x1F) as bv32) << 27)
  }
  function Nh1(s: Mac): bv32 {
    (((s.o4 & 0xE0) as bv32) >> 5) | ((s.o3 as bv32) << 3) | ((s.o2 as bv32) << 11) | ((s.o1 as bv32) << 19)
    | (((s.o0 & 0x1F) as bv32) << 27)
  }
  function Nh2(s: Mac): bv32 { ((s.o0 & 0xE0) as bv32) >> 5 }

  /** They are those of the SDK's macro. */
  lemma NhRowIs(s: Mac, ft: bv32, o: bv32, tci: bv16)
    ensures HopRow(Nh0(s, ft, o, tci as bv32), Nh1(s), Nh2(s)) == SetNhEntry(s, ft, o, tci)
  {
  }

  // The words that fa_prep_napt_ipv4_row stores, from values in host order.
  function Nf1(action: bv32, dma: bv32, pool: bv32, nh: bv32, natIp: bv32): bv32 {
    (action << 3) | (dma << 5) | (pool << 6) | (nh << 8) | ((natIp & 0x1FFFF) << 15)
  }
  function Nf2(natIp: bv32, natPort: bv32, dp: bv32): bv32 {
    ((natIp & 0xFFFE0000) >> 17) | (natPort << 15) | ((dp & 0x1) << 31)
  }
  function Nf3(dp: bv32, sp: bv32, tcp: bv32): bv32 {
    ((dp & 0xFFFE) >> 1) | (sp << 15) | (tcp << 31)
  }
  function Nf6(snat: bool): bv32 { (if snat then CTF_NP_INTERNAL else CTF_NP_EXTERNAL) | (1 << 20) }

  function Nf7(): bv32 { 1 << 31 }
  function IsSix(proto: bv8): bv32 { if proto == 6 then 1 else 0 }

  function NfRow(f: RowFields): FlowRow {
    var natIp, dp, sp := Ntoh32(f.natIp), Host16(f.key.dp), Host16(f.key.sp);
    FlowRow(0, Nf1(f.action, f.dma, f.pool, f.nh, natIp), Nf2(natIp, Host16(f.natPort), dp),
            Nf3(dp, sp, IsSix(f.key.proto)), Ntoh32(f.key.dip), Ntoh32(f.key.sip), Nf6(f.snat), Nf7())
  }

  /** And these are those of the SDK's function. */
  lemma NfRowIs(f: RowFields)
    ensures NfRow(f) == PrepIpv4(f)
  {
    NfWords(f.action, f.dma, f.pool, f.nh, Ntoh32(f.natIp), Host16(f.natPort), Host16(f.key.dp));
    NfPorts(Host16(f.key.dp), Host16(f.key.sp), f.key.proto, f.snat);
    hide Nf1, Nf2, Nf3, Nf6, Word1, Word2, Word3, Word6, Nf7, Ntoh32, Host16, IsSix;
  }

  lemma NfWords(action: bv32, dma: bv32, pool: bv32, nh: bv32, natIp: bv32, natPort: bv32, dp: bv32)
    ensures Nf1(action, dma, pool, nh, natIp) == Word1(action, dma, pool, nh, natIp)
    ensures Nf2(natIp, natPort, dp) == Word2(natIp, natPort, dp)
  {
  }

  lemma NfPorts(dp: bv32, sp: bv32, proto: bv8, snat: bool)
    ensures Nf3(dp, sp, IsSix(proto)) == Word3(dp, sp, proto == IP_PROT_TCP)
    ensures Nf6(snat) == Word6(snat) && Nf7() == 0x80000000
  {
  }

  function HopOf(d: seq<bv32>): HopRow
    requires |d| == 3
  {
    HopRow(d[0], d[1], d[2])
  }

  function FlowOf(d: seq<bv32>): FlowRow
    requires |d| == 8
  {
    FlowRow(d[0], d[1], d[2], d[3], d[4], d[5], d[6], d[7])
  }

  lemma ReplaceIs(s: Off, cookie: nat, rule: Rule)
    requires Shape(s)
    ensures var k := FreeFrom(s.flows, 0);
            if !Supported(rule) || k == FA_MAX_LIVE_FLOWS then Replace(s, cookie, rule) == (s, false)
            else
              var t := TakeSlot(s, k, cookie, rule);
              var (m, ok) := Program(s.mem, k + 1, k + 1, RowsFor(rule, k));
              Replace(s, cookie, rule) == ((if ok then t else FreeSlot(t, k)).(mem := m), ok)
  {
    hide Program, RowsFor, Supported, FreeSlot, TakeSlot;
  }

  class FaAccel {
    // fa_flows[]
    const flows: array<LiveFlow>
    // the tables behind the registers
    var mem: Mem
    ghost var rules: seq<Rule>

    ghost function Abs(): Off
      reads this, flows
    {
      Off(flows[..], mem, rules)
    }

    ghost predicate Valid()
      reads this, flows
    {
      flows.Length == FA_MAX_LIVE_FLOWS && Shape(Abs())
    }

    constructor (io: nat -> Access)
      ensures Valid() && Abs() == Init(io) && fresh(flows)
    {
      flows := new LiveFlow[FA_MAX_LIVE_FLOWS](_ => LiveFlow(0, 0, 0, false));
      mem := Init(io).mem;
      rules := Init(io).rules;
      new;
      assert flows[..] == Init(io).flows;
    }

    /** fa_flow_alloc: the slot, or the number of slots. */
    method FlowAlloc(cookie: nat, ghost rule: Rule) returns (k: nat)
      requires Valid()
      modifies flows, `rules
      ensures Valid() && k == FreeFrom(old(flows[..]), 0)
      ensures k < FA_MAX_LIVE_FLOWS ==> Abs() == TakeSlot(old(Abs()), k, cookie, rule)
      ensures k == FA_MAX_LIVE_FLOWS ==> Abs() == old(Abs())
    {
      k := 0;
      while k < FA_MAX_LIVE_FLOWS && flows[k].inUse
        invariant k <= FA_MAX_LIVE_FLOWS && FreeFrom(flows[..], 0) == FreeFrom(flows[..], k)
      {
        k := k + 1;
      }
      if k < FA_MAX_LIVE_FLOWS {
        flows[k] := LiveFlow(cookie, k + 1, k + 1, true);
        rules := rules[k := rule];
      }
    }

    /** fa_flow_find. */
    method FlowFind(cookie: nat) returns (k: nat)
      requires Valid()
      ensures k == FindFrom(flows[..], 0, cookie)
    {
      k := 0;
      while k < FA_MAX_LIVE_FLOWS && !(flows[k].inUse && flows[k].cookie == cookie)
        invariant k <= FA_MAX_LIVE_FLOWS && FindFrom(flows[..], 0, cookie) == FindFrom(flows[..], k, cookie)
      {
        k := k + 1;
      }
    }

    /** fa_flow_free. */
    method FlowFree(k: nat)
      requires Valid() && k < FA_MAX_LIVE_FLOWS
      modifies flows
      ensures Valid() && Abs() == FreeSlot(old(Abs()), k)
    {
      flows[k] := flows[k].(inUse := false);
    }

    /** The walk over the actions of a rule. */
    static method Decode(actions: seq<Action>) returns (f: Found)
      ensures f == Collect(actions)
    {
      f := Found(0, 0, false, false, false);
      var i := 0;
      while i < |actions|
        invariant i <= |actions| && f == Collect(actions[..i])
      {
        f := Look(f, actions[i]);
        i := i + 1;
        assert actions[..i][..i - 1] == actions[..i - 1];
      }
      assert actions[..i] == actions;
    }

    /** fa_set_nh_entry. */
    static method SetNhRow(d: array<bv32>, s: Mac, ft: bv32, o: bv32, tci: bv16)
      requires d.Length == 3
      modifies d
      ensures HopOf(d[..]) == SetNhEntry(s, ft, o, tci)
    {
      NhRowIs(s, ft, o, tci);
      hide Nh0, Nh1, Nh2, SetNhEntry;
      d[0] := Nh0(s, ft, o, tci as bv32);
      d[1] := Nh1(s);
      d[2] := Nh2(s);
    }

    /** fa_prep_napt_ipv4_row. */
    static method PrepRow(tbl: array<bv32>, f: RowFields)
      requires tbl.Length == 8
      modifies tbl
      ensures FlowOf(tbl[..]) == PrepIpv4(f)
    {
      NfRowIs(f);
      hide Ntoh32, Host16, Nf1, Nf2, Nf3, Nf6, Nf7, IsSix, PrepIpv4;
      forall i | 0 <= i < 8 {
        tbl[i] := 0;
      }
      var natIp, natPort, dp, sp := Ntoh32(f.natIp), Host16(f.natPort), Host16(f.key.dp), Host16(f.key.sp);
      tbl[1] := Nf1(f.action, f.dma, f.pool, f.nh, natIp);
      tbl[2] := Nf2(natIp, natPort, dp);
      tbl[3] := Nf3(dp, sp, IsSix(f.key.proto));
      tbl[4], tbl[5] := Ntoh32(f.key.dip), Ntoh32(f.key.sip);
      tbl[6] := Nf6(f.snat);
      tbl[7] := Nf7();
    }

    /** Both rows of a rule. */
    static method BuildRows(rule: Rule, f: Found, nhIdx: nat, ghost k: nat) returns (rows: Rows)
      requires k < FA_MAX_LIVE_FLOWS && nhIdx == k + 1 && f == Collect(rule.actions)
      ensures rows == RowsFor(rule, k)
    {
      hide Collect, FieldsFrom, SetNhEntry, PrepIpv4, NfRow;
      var nh, nf := new bv32[3], new bv32[8];
      SetNhRow(nh, if rule.mac.Some? then rule.mac.value else ZERO_MAC, 0, CTF_NH_OP_NOTAG, 0);
      PrepRow(nf, FieldsFrom(rule, f, nhIdx as bv32));
      rows := Rows(HopOf(nh[..]), FlowOf(nf[..]));
    }

    /** The two writes and the two read-backs. */
    method WriteAndVerify(nhIdx: nat, nfIdx: nat, rows: Rows) returns (ok: bool)
      requires Valid() && nhIdx < NH_ROWS && nfIdx < CTF_MAX_FLOW_TABLE
      modifies `mem
      ensures Valid() && (mem, ok) == Program(old(mem), nhIdx, nfIdx, rows)
    {
      mem, ok := WriteNh(mem, nhIdx, rows.nh).0, WriteNh(mem, nhIdx, rows.nh).1;
      if ok {
        var r := ReadNh(mem, nhIdx);
        mem, ok := r.0, r.1 == Seen(rows.nh);
      }
      if ok {
        var r := WriteNf(mem, nfIdx, rows.nf);
        mem, ok := r.0, r.1;
      }
      if ok {
        var r := ReadNf(mem, nfIdx);
        mem, ok := r.0, r.1 == Seen(rows.nf);
      }
    }

    /** The rows of a slot that was just taken; the slot is given up when they cannot be verified. */
    method Install(k: nat, rule: Rule, f: Found) returns (accepted: bool)
      requires Valid() && k < FA_MAX_LIVE_FLOWS && flows[k].inUse && f == Collect(rule.actions)
      modifies flows, `mem
      ensures Valid()
      ensures var (m, ok) := Program(old(mem), k + 1, k + 1, RowsFor(rule, k));
              accepted == ok && Abs() == (if ok then old(Abs()) else FreeSlot(old(Abs()), k)).(mem := m)
    {
      hide Program, RowsFor, Collect;
      assert SlotOk(Abs().flows[k], k);
      var rows := BuildRows(rule, f, flows[k].nhIdx, k);
      accepted := WriteAndVerify(flows[k].nhIdx, flows[k].nfIdx, rows);
      if !accepted {
        FlowFree(k);
      }
    }

    /** fa_flow_replace_live. */
    method ReplaceLive(cookie: nat, rule: Rule) returns (accepted: bool)
      requires Valid()
      modifies flows, `mem, `rules
      ensures Valid() && (Abs(), accepted) == Replace(old(Abs()), cookie, rule)
    {
      ghost var s := Abs();
      ReplaceIs(s, cookie, rule);
      hide Replace, Program, RowsFor, Collect, TakeSlot, FreeSlot, SlotOk, Shape, FreeFrom;
      var f := Decode(rule.actions);
      if !((rule.ips.Some? || f.mangledIp) && rule.proto == IP_PROT_TCP) {
        return false;
      }
      if !(rule.mac.Some? || f.mangledEth) {
        return false;
      }
      var k := FlowAlloc(cookie, rule);
      if k == FA_MAX_LIVE_FLOWS {
        return false;
      }
      ghost var t := TakeSlot(s, k, cookie, rule);
      assert Supported(rule) && Abs() == t && mem == s.mem;
      hide Supported;
      accepted := Install(k, rule, f);
    }

    /** fa_flow_destroy_live. */
    method DestroyLive(cookie: nat)
      requires Valid()
      modifies flows, `mem
      ensures Valid() && Abs() == Destroy(old(Abs()), cookie)
    {
      hide MarkInvalid;
      var k := FlowFind(cookie);
      if k == FA_MAX_LIVE_FLOWS {
        return;
      }
      var idx := flows[k].nfIdx;
      var r := ReadNf(mem, idx);
      mem := r.0;
      if r.1.Seen? {
        mem := WriteNf(mem, idx, MarkInvalid(r.1.row)).0;
      }
      FlowFree(k);
    }
  }
}
