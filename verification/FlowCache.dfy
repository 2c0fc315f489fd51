/** The flow accelerator's connection cache as a state machine on values: the chained hash table,
    the table of used hardware slots, the next-hop allocator and the three hardware tables, and
    what fa_napt_add, fa_napt_del and fa_napt_lkup_ll do to them. */
module FlowCache {
  import opened FlowKey
  import opened FlowRows
  import opened NextHopList
  import opened Options

  // ------------------------------------------------------------------ the hardware

  /** How one access to a hardware table ends.  An access that times out was either lost or
      carried out after all; the driver cannot tell. */
  datatype Access = Done | TimedOut(landed: bool)

  const CTF_MAX_POOL_TABLE_INDEX: nat := 4

  /** The three tables, the outcome of every access there will ever be, and the number of
      accesses made so far. */
  datatype Hw = Hw(nf: seq<FlowRow>, nh: seq<HopRow>, np: seq<PoolRow>, io: nat -> Access, tick: nat)

  predicate HwShape(hw: Hw) {
    |hw.nf| == CTF_MAX_FLOW_TABLE && |hw.nh| == NHOP_FULL && |hw.np| == CTF_MAX_POOL_TABLE_INDEX
  }

  predicate NowBusy(hw: Hw) {
    hw.io(hw.tick) != Done
  }

  predicate NowLands(hw: Hw) {
    hw.io(hw.tick) == Done || hw.io(hw.tick) == TimedOut(true)
  }

  function Tick(hw: Hw): Hw {
    hw.(tick := hw.tick + 1)
  }

  function WriteFlowRow(hw: Hw, idx: nat, row: FlowRow): (r: Hw)
    requires HwShape(hw) && idx < CTF_MAX_FLOW_TABLE
    ensures HwShape(r)
  {
    Tick(if NowLands(hw) then hw.(nf := hw.nf[idx := row]) else hw)
  }

  function WriteHopRow(hw: Hw, idx: nat, row: HopRow): (r: Hw)
    requires HwShape(hw) && idx < NHOP_FULL
    ensures HwShape(r)
  {
    Tick(if NowLands(hw) then hw.(nh := hw.nh[idx := row]) else hw)
  }

  function WritePoolRow(hw: Hw, idx: nat, row: PoolRow): (r: Hw)
    requires HwShape(hw) && idx < CTF_MAX_POOL_TABLE_INDEX
    ensures HwShape(r)
  {
    Tick(if NowLands(hw) then hw.(np := hw.np[idx := row]) else hw)
  }

  // ------------------------------------------------------------------ the state

  /** fa_napt_t.  natIp, natPort and snat are what the request asked the hardware to do; the
      driver keeps them only in the hardware row. */
  datatype Flow = Flow(key: Tuple, dhost: Mac, nh: nat, pool: nat, slot: nat, action: bv32,
                       natIp: bv32, natPort: bv16, snat: bool)

  /** fa_info_t: napt, ftable, nflows, nhi and the tables behind regs. */
  datatype Fa = Fa(chains: seq<seq<Flow>>, ftable: seq<Option<Flow>>, nflows: nat, hops: NextHops, hw: Hw)

  const NFLOWS_LIMIT: nat := 0x1_0000

  predicate Shape(s: Fa) {
    && |s.chains| == FA_NAPT_SZ && |s.ftable| == CTF_MAX_FLOW_TABLE && s.nflows < NFLOWS_LIMIT
    && InBounds(s.hops) && HwShape(s.hw)
    && (forall h, j :: 0 <= h < FA_NAPT_SZ && 0 <= j < |s.chains[h]| ==> FlowShape(s.chains[h][j]))
  }

  predicate FlowShape(f: Flow) {
    f.nh < NHOP_FULL && f.pool < CTF_MAX_POOL_TABLE_INDEX && f.slot < CTF_MAX_FLOW_TABLE
  }

  function FieldsOf(f: Flow): RowFields
    requires FlowShape(f)
  {
    RowFields(f.action, 0, f.pool as bv32, f.nh as bv32, f.natIp, f.natPort, f.key, f.snat)
  }

  function WithHw(s: Fa, hops: NextHops, hw: Hw): (r: Fa)
    requires Shape(s) && InBounds(hops) && HwShape(hw)
    ensures Shape(r)
  {
    s.(hops := hops, hw := hw)
  }

  /** ctf_ipc_t, as far as fa_napt_add looks at it; `memory` says whether MALLOC succeeds. */
  datatype Request = Request(devsOn: bool, v6: bool, ppp: bool, key: Tuple, dhost: Mac, shost: Mac,
                             snat: bool, dnat: bool, tag: bool, tos: bv8, vid: bv16,
                             natIp: bv32, natPort: bv16, memory: bool)

  datatype Ret = Ok | Error | Busy

  // ------------------------------------------------------------------ lookups

  /** The position of the first entry of a chain with this tuple, or the chain's length. */
  function Find(chain: seq<Flow>, key: Tuple): (k: nat)
    ensures k <= |chain|
    ensures k < |chain| ==> chain[k].key == key
    ensures forall j :: 0 <= j < k ==> chain[j].key != key
  {
    if chain == [] then 0 else if chain[0].key == key then 0 else 1 + Find(chain[1..], key)
  }

  /** fa_napt_lkup_ll. */
  function Lookup(s: Fa, key: Tuple): Option<Flow>
    requires Shape(s)
  {
    var chain := s.chains[Hash(key)];
    var k := Find(chain, key);
    if k < |chain| then Some(chain[k]) else None
  }

  /** The first unused slot of the four that start at `base`, from the i-th on. */
  function FreeSlot(ftable: seq<Option<Flow>>, base: nat, i: nat): (r: Option<nat>)
    requires |ftable| == CTF_MAX_FLOW_TABLE && base + CTF_MAX_BUCKET_INDEX <= CTF_MAX_FLOW_TABLE
    requires i <= CTF_MAX_BUCKET_INDEX
    ensures r.Some? ==> base + i <= r.value < base + CTF_MAX_BUCKET_INDEX && ftable[r.value] == None
    ensures r.None? <==> forall k :: base + i <= k < base + CTF_MAX_BUCKET_INDEX ==> ftable[k].Some?
    decreases CTF_MAX_BUCKET_INDEX - i
  {
    if i == CTF_MAX_BUCKET_INDEX then None
    else if ftable[base + i].None? then Some(base + i)
    else FreeSlot(ftable, base, i + 1)
  }

  /** The position of the first entry of a chain with this destination, or the chain's length. */
  function FindMac(chain: seq<Flow>, mac: Mac): (k: nat)
    ensures k <= |chain|
    ensures k < |chain| ==> chain[k].dhost == mac
    ensures forall j :: 0 <= j < k ==> chain[j].dhost != mac
  {
    if chain == [] then 0 else if chain[0].dhost == mac then 0 else 1 + FindMac(chain[1..], mac)
  }

  /** The flow fa_find_nhop finds first, bucket by bucket from the h-th on, with this
      destination. */
  function CachedHop(chains: seq<seq<Flow>>, h: nat, mac: Mac): Option<Flow>
    requires h <= |chains|
    decreases |chains| - h
  {
    if h == |chains| then None
    else
      var k := FindMac(chains[h], mac);
      if k < |chains[h]| then Some(chains[h][k]) else CachedHop(chains, h + 1, mac)
  }

  // ------------------------------------------------------------------ next hops

  datatype Probe = Found(idx: nat) | Absent | Timeout

  /** The second half of fa_find_nhop: read next-hop rows from idx on until one has the address. */
  function ProbeHops(hw: Hw, mac: Mac, idx: nat): (r: (Probe, Hw))
    requires HwShape(hw) && idx <= NHOP_FULL
    ensures r.0.Found? ==> idx <= r.0.idx < NHOP_FULL && NhDa(hw.nh[r.0.idx]) == mac
    ensures r.0.Found? ==> forall k :: idx <= k < r.0.idx ==> NhDa(hw.nh[k]) != mac
    ensures r.0.Absent? ==> forall k :: idx <= k < NHOP_FULL ==> NhDa(hw.nh[k]) != mac
    ensures r.1.tick >= hw.tick && r.1 == hw.(tick := r.1.tick)
    ensures (forall t :: hw.io(t) == Done) ==> !r.0.Timeout?
    decreases NHOP_FULL - idx
  {
    if idx == NHOP_FULL then (Absent, hw)
    else if NowBusy(hw) then (Timeout, Tick(hw))
    else if NhDa(hw.nh[idx]) == mac then (Found(idx), Tick(hw))
    else ProbeHops(Tick(hw), mac, idx + 1)
  }

  /** The index of a flow with this destination, if there is one. */
  function StartIndex(s: Fa, mac: Mac): (idx: nat)
    requires Shape(s)
    ensures idx < NHOP_FULL
  {
    CachedHopFinds(s.chains, 0, mac);
    var cached := CachedHop(s.chains, 0, mac);
    if cached.Some? then cached.value.nh else 0
  }

  lemma {:induction false} CachedHopFinds(chains: seq<seq<Flow>>, h: nat, mac: Mac)
    requires h <= |chains|
    ensures var r := CachedHop(chains, h, mac);
            && (r.Some? ==> r.value.dhost == mac
                            && exists i, j :: h <= i < |chains| && 0 <= j < |chains[i]| && chains[i][j] == r.value)
            && (r.None? ==> forall i, j :: h <= i < |chains| && 0 <= j < |chains[i]| ==> chains[i][j].dhost != mac)
    decreases |chains| - h
  {
    if h < |chains| {
      CachedHopFinds(chains, h + 1, mac);
    }
  }

  /** fa_find_nhop. */
  function FindNhop(s: Fa, mac: Mac): (r: (Probe, Hw))
    requires Shape(s)
    ensures HwShape(r.1)
  {
    ProbeHops(s.hw, mac, StartIndex(s, mac))
  }

  /** The outcome of giving a new flow its next hop: the index, when ret is Ok. */
  datatype HopResult = HopResult(hops: NextHops, hw: Hw, nh: nat, ret: Ret)

  /** fa_add_nhop_entry. */
  function AddNhop(s: Fa, mac: Mac, row: HopRow): (r: HopResult)
    requires Shape(s)
    ensures InBounds(r.hops) && HwShape(r.hw) && r.nh < NHOP_FULL && r.ret != Error
  {
    if s.hops.freeIdx == NHOP_FULL then HopResult(s.hops, s.hw, 0, Busy)
    else
      var (probe, hw) := FindNhop(s, mac);
      match probe
      case Timeout => HopResult(s.hops, hw, 0, Busy)
      case Found(idx) => HopResult(Ref(s.hops, idx), hw, idx, Ok)
      case Absent =>
        var idx := s.hops.freeIdx;
        var hw' := WriteHopRow(hw, idx, row);
        if NowBusy(hw) then HopResult(s.hops, hw', 0, Busy)
        else HopResult(Ref(GetNext(s.hops), idx), hw', idx, Ok)
  }

  /** fa_delete_nhop_entry. */
  function DeleteNhop(hops: NextHops, hw: Hw, nh: nat): (r: (NextHops, Hw))
    requires InBounds(hops) && HwShape(hw) && nh < NHOP_FULL
    ensures InBounds(r.0) && HwShape(r.1)
  {
    var hops' := Unref(hops, nh);
    if hops'.refs[nh] != 0 then (hops', hw)
    else
      var hw' := WriteHopRow(hw, nh, ZERO_HOP);
      if NowBusy(hw) then (hops', hw') else (PutNext(hops', nh), hw')
  }

  // ------------------------------------------------------------------ pool entries

  function ProbePool(hw: Hw, mac: Mac, external: bv32, idx: nat): (r: (Probe, Hw))
    requires HwShape(hw) && idx <= CTF_MAX_POOL_TABLE_INDEX
    ensures r.0.Found? ==> r.0.idx < CTF_MAX_POOL_TABLE_INDEX
    ensures r.1.tick >= hw.tick && r.1 == hw.(tick := r.1.tick)
    ensures (forall t :: hw.io(t) == Done) ==> !r.0.Timeout?
    decreases CTF_MAX_POOL_TABLE_INDEX - idx
  {
    if idx == CTF_MAX_POOL_TABLE_INDEX then (Absent, hw)
    else if NowBusy(hw) then (Timeout, Tick(hw))
    else if NpSa(hw.np[idx]) == mac && NpExternal(hw.np[idx]) == external then (Found(idx), Tick(hw))
    else ProbePool(Tick(hw), mac, external, idx + 1)
  }

  datatype PoolResult = PoolResult(hw: Hw, pool: nat, busy: bool)

  /** fa_add_pool_entry: one slot for each direction is all it ever writes. */
  function AddPool(hw: Hw, mac: Mac, external: bool): (r: PoolResult)
    requires HwShape(hw)
    ensures HwShape(r.hw) && r.pool < CTF_MAX_POOL_TABLE_INDEX
    ensures r.hw == hw.(tick := r.hw.tick, np := r.hw.np) && r.hw.tick >= hw.tick
    ensures (forall t :: hw.io(t) == Done) ==> !r.busy
  {
    var ext: bv32 := if external then CTF_NP_EXTERNAL else CTF_NP_INTERNAL;
    var (probe, hw1) := ProbePool(hw, mac, ext, 0);
    match probe
    case Timeout => PoolResult(hw1, 0, true)
    case Found(idx) => PoolResult(hw1, idx, false)
    case Absent =>
      var idx := if external then 1 else 0;
      PoolResult(WritePoolRow(hw1, idx, SetNpEntry(mac, ext)), idx, NowBusy(hw1))
  }

  // ------------------------------------------------------------------ adding and deleting flows

  /** The next-hop row a request asks for: an untagged or C-tagged frame with the priority taken
      from the precedence bits of the TOS byte. */
  function HopRowFor(q: Request): HopRow {
    SetNhEntry(q.dhost, 0, if q.tag then CTF_NH_OP_CTAG else CTF_NH_OP_NOTAG, TciFor(q))
  }

  function TciFor(q: Request): bv16 {
    ((((q.tos >> 5) & 0x7) as bv16) << 13) | (q.vid & 0xFFF)
  }

  function ActionFor(q: Request): bv32 {
    if (q.snat && q.key.sp != q.natPort) || (q.dnat && q.key.dp != q.natPort)
    then CTF_NAPT_OVRW_IP | CTF_NAPT_OVRW_PORT
    else CTF_NAPT_OVRW_IP
  }

  function FlowFor(q: Request, nh: nat, pool: nat, slot: nat): Flow {
    Flow(q.key, q.dhost, nh, pool, slot, ActionFor(q), q.natIp, q.natPort, q.snat)
  }

  /** The checks of fa_napt_add that come before anything is touched: the slot, or None when the
      request is refused. */
  function Admit(s: Fa, q: Request): (r: Option<nat>)
    requires Shape(s)
    ensures r.Some? ==> r.value < CTF_MAX_FLOW_TABLE && s.ftable[r.value].None?
  {
    if !q.devsOn || q.v6 || q.ppp then None
    else
      var slot := FreeSlot(s.ftable, Bucket(q.key) * CTF_MAX_BUCKET_INDEX, 0);
      if slot.None? || Lookup(s, q.key).Some? || !q.memory then None else slot
  }

  function Insert(s: Fa, f: Flow): (s': Fa)
    requires Shape(s) && FlowShape(f)
    ensures Shape(s')
  {
    var h := Hash(f.key);
    var s' := s.(chains := s.chains[h := [f] + s.chains[h]],
                 ftable := s.ftable[f.slot := Some(f)],
                 nflows := if s.nflows + 1 == NFLOWS_LIMIT then 0 else s.nflows + 1);
    InsertShape(s, f, s');
    s'
  }

  lemma InsertShape(s: Fa, f: Flow, s': Fa)
    requires Shape(s) && FlowShape(f)
    requires s' == s.(chains := s.chains[Hash(f.key) := [f] + s.chains[Hash(f.key)]],
                      ftable := s.ftable[f.slot := Some(f)],
                      nflows := if s.nflows + 1 == NFLOWS_LIMIT then 0 else s.nflows + 1)
    ensures Shape(s')
  {
    hide Hash, HwShape, InBounds;
    var h := Hash(f.key);
    forall g, j | 0 <= g < FA_NAPT_SZ && 0 <= j < |s'.chains[g]| ensures FlowShape(s'.chains[g][j]) {
      if g == h && j > 0 {
        assert s'.chains[g][j] == s.chains[g][j - 1];
      }
    }
  }

  /** fa_napt_add. */
  function Add(s: Fa, q: Request): (r: (Fa, Ret))
    requires Shape(s)
    ensures Shape(r.0)
  {
    var slot := Admit(s, q);
    if slot.None? then (s, Error)
    else
      var hop := AddNhop(s, q.dhost, HopRowFor(q));
      if hop.ret == Busy then (WithHw(s, hop.hops, hop.hw), Busy)
      else
        var pool := AddPool(hop.hw, q.shost, q.snat);
        if pool.busy then (WithHw(s, hop.hops, pool.hw), Busy)
        else
          var f := FlowFor(q, hop.nh, pool.pool, slot.value);
          var hw := WriteFlowRow(pool.hw, slot.value, PrepIpv4(FieldsOf(f)));
          if NowBusy(pool.hw) then (WithHw(s, hop.hops, hw), Busy)
          else (Insert(WithHw(s, hop.hops, hw), f), Ok)
  }

  function Without<T>(chain: seq<T>, k: nat): (r: seq<T>)
    requires k < |chain|
    ensures |r| == |chain| - 1
  {
    chain[..k] + chain[k + 1..]
  }

  function Remove(s: Fa, h: nat, k: nat): (s': Fa)
    requires Shape(s) && h < FA_NAPT_SZ && k < |s.chains[h]|
    ensures Shape(s')
  {
    var f := s.chains[h][k];
    var s' := s.(chains := s.chains[h := Without(s.chains[h], k)],
                 ftable := s.ftable[f.slot := None],
                 nflows := if s.nflows == 0 then NFLOWS_LIMIT - 1 else s.nflows - 1);
    RemoveShape(s, h, k, s');
    s'
  }

  lemma RemoveShape(s: Fa, h: nat, k: nat, s': Fa)
    requires Shape(s) && h < FA_NAPT_SZ && k < |s.chains[h]| && FlowShape(s.chains[h][k])
    requires s' == s.(chains := s.chains[h := Without(s.chains[h], k)],
                      ftable := s.ftable[s.chains[h][k].slot := None],
                      nflows := if s.nflows == 0 then NFLOWS_LIMIT - 1 else s.nflows - 1)
    ensures Shape(s')
  {
    hide HwShape, InBounds;
    forall g, j | 0 <= g < FA_NAPT_SZ && 0 <= j < |s'.chains[g]| ensures FlowShape(s'.chains[g][j]) {
      if g == h {
        assert s'.chains[g][j] == s.chains[g][if j < k then j else j + 1];
      }
    }
  }

  /** _fa_napt_del: take the flow's row and its reference out of the hardware. */
  function DelHw(hops: NextHops, hw: Hw, f: Flow): (r: (NextHops, Hw, Ret))
    requires InBounds(hops) && HwShape(hw) && FlowShape(f)
    ensures InBounds(r.0) && HwShape(r.1)
  {
    var row := hw.nf[f.slot];
    var hw1 := Tick(hw);
    if NowBusy(hw) then (hops, hw1, Busy)
    else if !IsValid(row) then (hops, hw1, Ok)
    else
      var hw2 := WriteFlowRow(hw1, f.slot, MarkInvalid(row));
      if NowBusy(hw1) then (hops, hw2, Busy)
      else
        var (hops', hw3) := DeleteNhop(hops, hw2, f.nh);
        (hops', hw3, Ok)
  }

  /** fa_napt_del.  A tuple that is not cached is not an error. */
  function Del(s: Fa, key: Tuple): (r: (Fa, Ret))
    requires Shape(s)
    ensures Shape(r.0)
  {
    hide Hash, Remove, DelHw;
    var h := Hash(key);
    var k := Find(s.chains[h], key);
    if k == |s.chains[h]| then (s, Ok)
    else
      var (hops, hw, ret) := DelHw(s.hops, s.hw, s.chains[h][k]);
      (WithHw(Remove(s, h, k), hops, hw), ret)
  }

  // ------------------------------------------------------------------ runs

  /** The state fa_attach and fa_up leave: nothing cached, all tables zeroed by the INIT strobes. */
  function Init(io: nat -> Access): (s: Fa)
    ensures Shape(s)
  {
    Fa(seq(FA_NAPT_SZ, _ => []), seq(CTF_MAX_FLOW_TABLE, _ => None), 0, Reset(),
       Hw(seq(CTF_MAX_FLOW_TABLE, _ => ZERO_FLOW), seq(NHOP_FULL, _ => ZERO_HOP),
          seq(CTF_MAX_POOL_TABLE_INDEX, _ => ZERO_POOL), io, 0))
  }

  /** What can happen: a flow is added or deleted, or the hardware counts a packet in a row. */
  datatype Event = AddEv(q: Request) | DelEv(key: Tuple) | CountEv(idx: nat, row: FlowRow)

  function Step(s: Fa, e: Event): (r: (Fa, Ret))
    requires Shape(s)
    ensures Shape(r.0)
  {
    match e
    case AddEv(q) => Add(s, q)
    case DelEv(key) => Del(s, key)
    case CountEv(idx, row) =>
      if idx < CTF_MAX_FLOW_TABLE && SameButCounters(row, s.hw.nf[idx])
      then (s.(hw := s.hw.(nf := s.hw.nf[idx := row])), Ok)
      else (s, Ok)
  }

  function Run(s: Fa, es: seq<Event>): (r: Fa)
    requires Shape(s)
    ensures Shape(r)
    decreases |es|
  {
    if es == [] then s else Run(Step(s, es[0]).0, es[1..])
  }
}
