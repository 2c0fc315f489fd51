/** The rows of the flow accelerator's hardware tables: how the driver packs them into 32-bit
    words and how it reads the fields back. */
module FlowRows {
  import opened FlowKey

  datatype Mac = Mac(o0: bv8, o1: bv8, o2: bv8, o3: bv8, o4: bv8, o5: bv8)

  const ZERO_MAC := Mac(0, 0, 0, 0, 0, 0)

  /** One row of the next-hop table, the pool table and the NAPT flow table. */
  datatype HopRow = HopRow(d0: bv32, d1: bv32, d2: bv32)
  datatype PoolRow = PoolRow(d0: bv32, d1: bv32)
  datatype FlowRow = FlowRow(w0: bv32, w1: bv32, w2: bv32, w3: bv32, w4: bv32, w5: bv32, w6: bv32, w7: bv32)

  const ZERO_HOP := HopRow(0, 0, 0)
  const ZERO_POOL := PoolRow(0, 0)
  const ZERO_FLOW := FlowRow(0, 0, 0, 0, 0, 0, 0, 0)

  const CTF_NH_OP_CTAG: bv32 := 1
  const CTF_NH_OP_NOTAG: bv32 := 2

  function Wide(b: bv8): bv32 {
    b as bv32
  }

  function Octet(w: bv32): bv8 {
    (w & 0xff) as bv8
  }

  // ------------------------------------------------------------------ next-hop rows

  /** CTF_FA_SET_NH_ENTRY. */
  function SetNhEntry(s: Mac, ftype: bv32, op: bv32, tci: bv16): HopRow {
    HopRow(HopWord0(s.o5, s.o4, ftype, op, tci), HopWord1(s.o4, s.o3, s.o2, s.o1, s.o0), HopWord2(s.o0))
  }

  function HopWord0(o5: bv8, o4: bv8, ftype: bv32, op: bv32, tci: bv16): bv32 {
    (ftype & 0x1) | ((op & 0x3) << 1) | ((tci as bv32) << 3) | (Wide(o5) << 19) | ((Wide(o4) & 0x1F) << 27)
  }

  function HopWord1(o4: bv8, o3: bv8, o2: bv8, o1: bv8, o0: bv8): bv32 {
    ((Wide(o4) & 0xE0) >> 5) | (Wide(o3) << 3) | (Wide(o2) << 11) | (Wide(o1) << 19) | ((Wide(o0) & 0x1F) << 27)
  }

  // Fields of a word: an octet at a bit offset, and the two ends of a word that hold the parts
  // of an octet cut by a word boundary.
  function At1(w: bv32): bv8 { Octet(w >> 1) }
  function At3(w: bv32): bv8 { Octet(w >> 3) }
  function At9(w: bv32): bv8 { Octet(w >> 9) }
  function At11(w: bv32): bv8 { Octet(w >> 11) }
  function At17(w: bv32): bv8 { Octet(w >> 17) }
  function At19(w: bv32): bv8 { Octet(w >> 19) }
  function Join5(w: bv32, next: bv32): bv8 { Octet(((w >> 27) & 0x1F) | ((next & 0x7) << 5)) }
  function Join7(w: bv32, next: bv32): bv8 { Octet(((w >> 25) & 0x7F) | ((next & 0x1) << 7)) }

  /** CTF_FA_GET_NH_DA. */
  function NhDa(r: HopRow): Mac {
    Mac(Join5(r.d1, r.d2), At19(r.d1), At11(r.d1), At3(r.d1), Join5(r.d0, r.d1), At19(r.d0))
  }

  /** The other fields of a next-hop row, as the table dump shows them. */
  function NhTci(r: HopRow): bv32 { (r.d0 >> 3) & 0xFFFF }
  function NhOp(r: HopRow): bv32 { (r.d0 >> 1) & 0x3 }
  function NhFtype(r: HopRow): bv32 { r.d0 & 0x1 }

  lemma HopWord0Fields(o5: bv8, o4: bv8, ftype: bv32, op: bv32, tci: bv16)
    ensures var w := HopWord0(o5, o4, ftype, op, tci);
            && At19(w) == o5 && (w >> 27) & 0x1F == Wide(o4) & 0x1F
            && (w >> 3) & 0xFFFF == tci as bv32 && (w >> 1) & 0x3 == op & 0x3 && w & 0x1 == ftype & 0x1
  {
  }

  lemma HopWord1Fields(o4: bv8, o3: bv8, o2: bv8, o1: bv8, o0: bv8)
    ensures var w := HopWord1(o4, o3, o2, o1, o0);
            && (w & 0x7) << 5 == Wide(o4) & 0xE0 && At3(w) == o3 && At11(w) == o2 && At19(w) == o1
            && (w >> 27) & 0x1F == Wide(o0) & 0x1F
  {
  }

  lemma HopCut(o4: bv8, w0: bv32, w1: bv32)
    requires (w0 >> 27) & 0x1F == Wide(o4) & 0x1F && (w1 & 0x7) << 5 == Wide(o4) & 0xE0
    ensures Join5(w0, w1) == o4
  {
  }

  function HopWord2(o0: bv8): bv32 {
    (Wide(o0) & 0xE0) >> 5
  }

  lemma HopWord2Field(o0: bv8)
    ensures (HopWord2(o0) & 0x7) << 5 == Wide(o0) & 0xE0
  {
  }

  /** A next-hop row gives back the destination address that was put into it. */
  lemma NhRoundTrip(s: Mac, ftype: bv32, op: bv32, tci: bv16)
    ensures NhDa(SetNhEntry(s, ftype, op, tci)) == s
  {
    hide HopWord0, HopWord1, HopWord2, At19, At11, At3, Join5;
    var r := SetNhEntry(s, ftype, op, tci);
    HopWord0Fields(s.o5, s.o4, ftype, op, tci);
    HopWord1Fields(s.o4, s.o3, s.o2, s.o1, s.o0);
    HopWord2Field(s.o0);
    HopCut(s.o4, r.d0, r.d1);
    HopCut(s.o0, r.d1, r.d2);
  }

  /** So it does the VLAN tag, the tag operation and the frame type. */
  lemma NhTagRoundTrip(s: Mac, ftype: bv32, op: bv32, tci: bv16)
    ensures var r := SetNhEntry(s, ftype, op, tci);
            NhTci(r) == tci as bv32 && NhOp(r) == op & 0x3 && NhFtype(r) == ftype & 0x1
  {
    HopWord0Fields(s.o5, s.o4, ftype, op, tci);
  }

  lemma ZeroHopMac()
    ensures NhDa(ZERO_HOP) == ZERO_MAC
  {
  }

  // ------------------------------------------------------------------ pool rows

  /** CTF_FA_SET_NP_ENTRY. */
  function SetNpEntry(s: Mac, external: bv32): PoolRow {
    PoolRow(PoolWord0(s.o5, s.o4, s.o3, s.o2, external), PoolWord1(s.o2, s.o1, s.o0))
  }

  function PoolWord0(o5: bv8, o4: bv8, o3: bv8, o2: bv8, external: bv32): bv32 {
    (external & 0x1) | (Wide(o5) << 1) | (Wide(o4) << 9) | (Wide(o3) << 17) | ((Wide(o2) & 0x7F) << 25)
  }

  function PoolWord1(o2: bv8, o1: bv8, o0: bv8): bv32 {
    ((Wide(o2) & 0x80) >> 7) | (Wide(o1) << 1) | (Wide(o0) << 9)
  }

  /** CTF_FA_GET_NP_SA. */
  function NpSa(r: PoolRow): Mac {
    Mac(At9(r.d1), At1(r.d1), Join7(r.d0, r.d1), At17(r.d0), At9(r.d0), At1(r.d0))
  }

  function NpExternal(r: PoolRow): bv32 { r.d0 & 0x1 }

  lemma PoolWord0Fields(o5: bv8, o4: bv8, o3: bv8, o2: bv8, external: bv32)
    ensures var w := PoolWord0(o5, o4, o3, o2, external);
            && At1(w) == o5 && At9(w) == o4 && At17(w) == o3 && (w >> 25) & 0x7F == Wide(o2) & 0x7F
            && w & 0x1 == external & 0x1
  {
  }

  lemma PoolWord1Fields(o2: bv8, o1: bv8, o0: bv8)
    ensures var w := PoolWord1(o2, o1, o0);
            At9(w) == o0 && At1(w) == o1 && (w & 0x1) << 7 == Wide(o2) & 0x80
  {
  }

  lemma PoolCut(o2: bv8, w0: bv32, w1: bv32)
    requires (w0 >> 25) & 0x7F == Wide(o2) & 0x7F && (w1 & 0x1) << 7 == Wide(o2) & 0x80
    ensures Join7(w0, w1) == o2
  {
  }

  /** A pool row gives back the source address and the direction that were put into it. */
  lemma NpRoundTrip(s: Mac, external: bv32)
    ensures var r := SetNpEntry(s, external);
            NpSa(r) == s && NpExternal(r) == external & 0x1
  {
    hide PoolWord0, PoolWord1, At1, At9, At17, Join7;
    var r := SetNpEntry(s, external);
    PoolWord0Fields(s.o5, s.o4, s.o3, s.o2, external);
    PoolWord1Fields(s.o2, s.o1, s.o0);
    PoolCut(s.o2, r.d0, r.d1);
  }

  // ------------------------------------------------------------------ NAPT flow rows

  function Ntoh32(x: bv32): bv32 {
    ((x & 0xff) << 24) | ((x & 0xff00) << 8) | ((x >> 8) & 0xff00) | ((x >> 24) & 0xff)
  }

  function Ntoh16(x: bv16): bv16 {
    ((x & 0xff) << 8) | ((x >> 8) & 0xff)
  }

  lemma NtohInvolutive(x: bv32, y: bv16)
    ensures Ntoh32(Ntoh32(x)) == x && Ntoh16(Ntoh16(y)) == y
  {
  }

  /** What fa_napt_prep_ipv4_word takes from the flow and from the request. */
  datatype RowFields = RowFields(action: bv32, dma: bv32, pool: bv32, nh: bv32, natIp: bv32, natPort: bv16,
                                 key: Tuple, snat: bool)

  /** The widths within which the packed fields do not run into each other. */
  predicate InWidth(f: RowFields) {
    f.action < 4 && f.dma < 2 && f.pool < 4 && f.nh < 128
  }

  const CTF_NP_INTERNAL: bv32 := 0
  const CTF_NP_EXTERNAL: bv32 := 1
  const VALID_BIT: bv32 := 0x100000

  function Word1(action: bv32, dma: bv32, pool: bv32, nh: bv32, ip: bv32): bv32 {
    (action << 3) | (dma << 5) | (pool << 6) | (nh << 8) | ((ip & 0x1FFFF) << 15)
  }

  function Word2(ip: bv32, port: bv32, dp: bv32): bv32 {
    ((ip & 0xFFFE0000) >> 17) | (port << 15) | ((dp & 0x1) << 31)
  }

  function Word3(dp: bv32, sp: bv32, tcp: bool): bv32 {
    ((dp & 0xFFFE) >> 1) | (sp << 15) | (if tcp then 0x80000000 else 0)
  }

  // The fields of a flow row, as fa_dump_nf_entry takes them out of the words.
  function ActionOf(w1: bv32): bv32 { (w1 >> 3) & 0x3 }
  function DmaOf(w1: bv32): bv32 { (w1 >> 5) & 0x1 }
  function PoolOf(w1: bv32): bv32 { (w1 >> 6) & 0x3 }
  function NhOf(w1: bv32): bv32 { (w1 >> 8) & 0x7F }
  function IpOf(w2: bv32, w1: bv32): bv32 { ((w2 & 0x7FFF) << 17) | (w1 >> 15) }
  function PortOf(w: bv32): bv32 { (w >> 15) & 0xFFFF }
  function DpOf(w3: bv32, w2: bv32): bv32 { ((w3 & 0x7FFF) << 1) | (w2 >> 31) }
  predicate TcpOf(w3: bv32) { w3 >> 31 != 0 }
  predicate ExternalOf(w6: bv32) { w6 & CTF_NP_EXTERNAL != 0 }
  predicate ValidOf(w6: bv32) { (w6 >> 20) & 1 != 0 }
  predicate V4Of(w7: bv32) { w7 & 0x80000000 != 0 }

  datatype Decoded = Decoded(sip: bv32, dip: bv32, tcp: bool, sp: bv32, dp: bv32, external: bool, natPort: bv32,
                             natIp: bv32, valid: bool, v4: bool, nh: bv32, pool: bv32, dma: bv32, action: bv32)

  /** Everything fa_dump_nf_entry prints for an IPv4 row but the hardware's own counters. */
  function Decode(r: FlowRow): Decoded {
    Decoded(r.w5, r.w4, TcpOf(r.w3), PortOf(r.w3), DpOf(r.w3, r.w2), ExternalOf(r.w6), PortOf(r.w2),
            IpOf(r.w2, r.w1), ValidOf(r.w6), V4Of(r.w7), NhOf(r.w1), PoolOf(r.w1), DmaOf(r.w1), ActionOf(r.w1))
  }

  // The action of a row.
  const CTF_NAPT_OVRW_IP: bv32 := 1
  const CTF_NAPT_OVRW_PORT: bv32 := 2

  /** The addresses and ports a packet leaves with. */
  datatype Leaving = Leaving(sip: bv32, dip: bv32, sp: bv32, dp: bv32)

  /** What a row does to the packets it matches: an internal row rewrites their source, an external
      one their destination, the address and the port each if the action says so. */
  function Translated(d: Decoded): Leaving {
    var ip, port := d.action & CTF_NAPT_OVRW_IP != 0, d.action & CTF_NAPT_OVRW_PORT != 0;
    if d.external then Leaving(d.sip, if ip then d.natIp else d.dip, d.sp, if port then d.natPort else d.dp)
    else Leaving(if ip then d.natIp else d.sip, d.dip, if port then d.natPort else d.sp, d.dp)
  }

  lemma Word1Fields(action: bv32, dma: bv32, pool: bv32, nh: bv32, ip: bv32)
    requires action < 4 && dma < 2 && pool < 4 && nh < 128
    ensures var w := Word1(action, dma, pool, nh, ip);
            ActionOf(w) == action && DmaOf(w) == dma && PoolOf(w) == pool && NhOf(w) == nh
  {
  }

  lemma Word2Fields(ip: bv32, port: bv32, dp: bv32)
    requires port <= 0xFFFF
    ensures var w := Word2(ip, port, dp);
            PortOf(w) == port
  {
  }

  lemma Word3Fields(dp: bv32, sp: bv32, tcp: bool)
    requires dp <= 0xFFFF && sp <= 0xFFFF
    ensures var w := Word3(dp, sp, tcp);
            PortOf(w) == sp && TcpOf(w) == tcp
  {
  }

  lemma IpAcrossWords(action: bv32, dma: bv32, pool: bv32, nh: bv32, ip: bv32, port: bv32, dp: bv32)
    requires action < 4 && dma < 2 && pool < 4 && nh < 128 && port <= 0xFFFF
    ensures IpOf(Word2(ip, port, dp), Word1(action, dma, pool, nh, ip)) == ip
  {
  }

  lemma DpAcrossWords(ip: bv32, port: bv32, dp: bv32, sp: bv32, tcp: bool)
    requires port <= 0xFFFF && dp <= 0xFFFF && sp <= 0xFFFF
    ensures DpOf(Word3(dp, sp, tcp), Word2(ip, port, dp)) == dp
  {
  }

  function Host16(x: bv16): (y: bv32)
    ensures y <= 0xFFFF
  {
    Ntoh16(x) as bv32
  }

  function Word6(snat: bool): bv32 {
    (if snat then CTF_NP_INTERNAL else CTF_NP_EXTERNAL) | VALID_BIT
  }

  lemma Word6Fields(snat: bool)
    ensures ExternalOf(Word6(snat)) == !snat && ValidOf(Word6(snat)) && V4Of(0x80000000)
  {
  }

  lemma NtohInjective(a: bv32, b: bv32, c: bv16, d: bv16)
    ensures Ntoh32(a) == Ntoh32(b) ==> a == b
    ensures Host16(c) == Host16(d) ==> c == d
  {
    NtohInvolutive(a, c);
    NtohInvolutive(b, d);
    hide Ntoh32, Ntoh16;
    WideInjective(Ntoh16(c), Ntoh16(d));
  }

  lemma WideInjective(c: bv16, d: bv16)
    ensures c as bv32 == d as bv32 ==> c == d
  {
  }

  /** fa_napt_prep_ipv4_word. */
  function PrepIpv4(f: RowFields): FlowRow {
    FlowRow(0, Word1(f.action, f.dma, f.pool, f.nh, Ntoh32(f.natIp)),
            Word2(Ntoh32(f.natIp), Host16(f.natPort), Host16(f.key.dp)),
            Word3(Host16(f.key.dp), Host16(f.key.sp), IsTcp(f.key)),
            Ntoh32(f.key.dip), Ntoh32(f.key.sip), Word6(f.snat), 0x80000000)
  }

  /** What a row packed from f decodes to: everything that was packed, but of the protocol only
      whether it is TCP. */
  function Expected(f: RowFields): Decoded {
    Decoded(Ntoh32(f.key.sip), Ntoh32(f.key.dip), IsTcp(f.key), Host16(f.key.sp), Host16(f.key.dp), !f.snat,
            Host16(f.natPort), Ntoh32(f.natIp), true, true, f.nh, f.pool, f.dma, f.action)
  }

  lemma PrepRoundTrip(f: RowFields)
    requires InWidth(f)
    ensures Decode(PrepIpv4(f)) == Expected(f)
  {
    hide Ntoh32, Host16, Word1, Word2, Word3, Word6, IsTcp, InWidth;
    hide ActionOf, DmaOf, PoolOf, NhOf, IpOf, PortOf, DpOf, TcpOf, ExternalOf, ValidOf, V4Of;
    PrepWord1(f);
    PrepPorts(f);
    PrepIp(f);
    PrepDp(f);
    Word6Fields(f.snat);
  }

  lemma PrepWord1(f: RowFields)
    requires InWidth(f)
    ensures var w := PrepIpv4(f).w1;
            ActionOf(w) == f.action && DmaOf(w) == f.dma && PoolOf(w) == f.pool && NhOf(w) == f.nh
  {
    hide Ntoh32;
    Word1Fields(f.action, f.dma, f.pool, f.nh, Ntoh32(f.natIp));
  }

  lemma PrepPorts(f: RowFields)
    ensures PortOf(PrepIpv4(f).w2) == Host16(f.natPort)
    ensures PortOf(PrepIpv4(f).w3) == Host16(f.key.sp) && TcpOf(PrepIpv4(f).w3) == IsTcp(f.key)
  {
    hide Ntoh32, Host16, IsTcp, Word2, Word3, PortOf, TcpOf;
    Word2Fields(Ntoh32(f.natIp), Host16(f.natPort), Host16(f.key.dp));
    Word3Fields(Host16(f.key.dp), Host16(f.key.sp), IsTcp(f.key));
  }

  lemma PrepIp(f: RowFields)
    requires InWidth(f)
    ensures IpOf(PrepIpv4(f).w2, PrepIpv4(f).w1) == Ntoh32(f.natIp)
  {
    hide Ntoh32, Host16, Word1, Word2, IpOf;
    IpAcrossWords(f.action, f.dma, f.pool, f.nh, Ntoh32(f.natIp), Host16(f.natPort), Host16(f.key.dp));
  }

  lemma PrepDp(f: RowFields)
    ensures DpOf(PrepIpv4(f).w3, PrepIpv4(f).w2) == Host16(f.key.dp)
  {
    hide Ntoh32, Host16, Word2, Word3, DpOf, IsTcp;
    DpAcrossWords(Ntoh32(f.natIp), Host16(f.natPort), Host16(f.key.dp), Host16(f.key.sp), IsTcp(f.key));
  }

  // ------------------------------------------------------------------ what happens to a row later

  /** Row `now` differs from row `was` at most in the words the hardware counts in: the time
      stamp and the hit counter. */
  predicate SameButCounters(now: FlowRow, was: FlowRow) {
    && NotCounted(now.w1) == NotCounted(was.w1)
    && now.w2 == was.w2 && now.w3 == was.w3 && now.w4 == was.w4 && now.w5 == was.w5 && now.w6 == was.w6 && now.w7 == was.w7
  }

  function NotCounted(w1: bv32): bv32 {
    w1 >> 3
  }

  lemma CountersDoNotShow(now: FlowRow, was: FlowRow)
    requires SameButCounters(now, was)
    ensures Decode(now) == Decode(was)
  {
    hide ActionOf, DmaOf, PoolOf, NhOf, IpOf, PortOf, DpOf, TcpOf, ExternalOf, ValidOf, V4Of, NotCounted;
    Word1Counters(now.w1, was.w1, was.w2);
  }

  lemma Word1Counters(w: bv32, v: bv32, w2: bv32)
    requires NotCounted(w) == NotCounted(v)
    ensures ActionOf(w) == ActionOf(v) && DmaOf(w) == DmaOf(v) && PoolOf(w) == PoolOf(v) && NhOf(w) == NhOf(v)
    ensures IpOf(w2, w) == IpOf(w2, v)
  {
    Shifts(w);
    Shifts(v);
  }

  lemma Shifts(w: bv32)
    ensures w >> 5 == (w >> 3) >> 2 && w >> 6 == (w >> 3) >> 3 && w >> 8 == (w >> 3) >> 5 && w >> 15 == (w >> 3) >> 12
  {
  }

  predicate IsValid(r: FlowRow) {
    r.w6 & VALID_BIT != 0
  }

  /** `tbl[6] &= ~(1 << 20)`. */
  function MarkInvalid(r: FlowRow): FlowRow {
    r.(w6 := r.w6 & !VALID_BIT)
  }

  /** Clearing the valid bit changes nothing else that a row says. */
  lemma MarkInvalidOnly(r: FlowRow)
    ensures Decode(MarkInvalid(r)) == Decode(r).(valid := false)
    ensures !IsValid(MarkInvalid(r))
    ensures IsValid(r) == Decode(r).valid
  {
    hide ActionOf, DmaOf, PoolOf, NhOf, IpOf, PortOf, DpOf, TcpOf, V4Of;
    Word6Clear(r.w6);
  }

  lemma Word6Clear(w: bv32)
    ensures ExternalOf(w & !VALID_BIT) == ExternalOf(w) && !ValidOf(w & !VALID_BIT)
    ensures (w & !VALID_BIT) & VALID_BIT == 0
    ensures (w & VALID_BIT != 0) == ValidOf(w)
  {
  }
}
