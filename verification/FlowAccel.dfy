/** The connection cache as the driver keeps it: entries linked through `next` from an array of
    bucket heads, a second array that points at the entry of every used hardware slot, counters
    and the allocator's arrays, all updated in place.  Every method is proved to do to the abstract
    state what the state machine of module FlowCache does. */
module FlowAccel {
  import opened CrcCcitt
  import opened FlowKey
  import opened FlowRows
  import opened NextHopList
  import opened Options
  import opened FlowCache
  import opened FlowCacheIndex
  import opened FlowCacheRuns

  /** fa_napt_t. */
  class NaptEntry {
    var key: Tuple
    var dhost: Mac
    var nh: nat
    var pool: nat
    var slot: nat
    var action: bv32
    var next: NaptEntry?
    // what the request asked the hardware to translate to
    ghost var natIp: bv32
    ghost var natPort: bv16
    ghost var snat: bool

    ghost function Abs(): Flow
      reads `key, `dhost, `nh, `pool, `slot, `action, `natIp, `natPort, `snat
    {
      Flow(key, dhost, nh, pool, slot, action, natIp, natPort, snat)
    }

    /** MALLOC and bzero, then the two fields that are known from the start. */
    constructor (slot: nat, dhost: Mac)
      ensures this.slot == slot && this.dhost == dhost && next == null
    {
      this.key := Tuple(0, 0, 0, 0, 0);
      this.dhost := dhost;
      this.nh, this.pool, this.slot, this.action := 0, 0, slot, 0;
      this.next := null;
    }
  }

  ghost function Entry(c: seq<NaptEntry>, j: nat): NaptEntry? {
    if j < |c| then c[j] else null
  }

  /** The entries of c, linked in this order, hang off `head`, and hold exactly the flows fs. */
  ghost predicate ChainMatches(head: NaptEntry?, c: seq<NaptEntry>, fs: seq<Flow>)
    reads c
  {
    && |fs| == |c| && head == Entry(c, 0)
    && (forall j :: 0 <= j < |c| ==> c[j].next == Entry(c, j + 1))
    && (forall j :: 0 <= j < |c| ==> fs[j] == c[j].Abs())
  }

  ghost predicate Among(c: seq<NaptEntry>, entries: set<NaptEntry>) {
    forall j :: 0 <= j < |c| ==> c[j] in entries
  }

  ghost predicate ChainsMatch(napt: array<NaptEntry?>, chains: seq<seq<NaptEntry>>, fss: seq<seq<Flow>>,
                              entries: set<NaptEntry>)
    reads napt, entries
    ensures ChainsMatch(napt, chains, fss, entries) ==> napt.Length == |chains| == |fss| == FA_NAPT_SZ
  {
    && napt.Length == FA_NAPT_SZ && |chains| == FA_NAPT_SZ && |fss| == FA_NAPT_SZ
    && (forall h :: 0 <= h < FA_NAPT_SZ ==> Among(chains[h], entries))
    && (forall h :: 0 <= h < FA_NAPT_SZ ==> ChainMatches(napt[h], chains[h], fss[h]))
  }

  /** Each used slot points at an entry that is in its chain. */
  ghost predicate SlotMatches(p: NaptEntry?, chains: seq<seq<NaptEntry>>, o: Option<Flow>, entries: set<NaptEntry>)
    reads (if p == null then {} else {p})`key, (if p == null then {} else {p})`dhost
    reads (if p == null then {} else {p})`nh, (if p == null then {} else {p})`pool
    reads (if p == null then {} else {p})`slot, (if p == null then {} else {p})`action
    reads (if p == null then {} else {p})`natIp, (if p == null then {} else {p})`natPort
    reads (if p == null then {} else {p})`snat
    requires |chains| == FA_NAPT_SZ
  {
    if p == null then o == None
    else p in entries && p in chains[Hash(p.key)] && o == Some(p.Abs())
  }

  ghost predicate SlotsMatch(ftable: array<NaptEntry?>, chains: seq<seq<NaptEntry>>, os: seq<Option<Flow>>,
                             entries: set<NaptEntry>)
    reads ftable, entries`key, entries`dhost, entries`nh, entries`pool, entries`slot, entries`action
    reads entries`natIp, entries`natPort, entries`snat
    ensures SlotsMatch(ftable, chains, os, entries) ==> ftable.Length == |os| == CTF_MAX_FLOW_TABLE
  {
    && ftable.Length == CTF_MAX_FLOW_TABLE && |os| == CTF_MAX_FLOW_TABLE && |chains| == FA_NAPT_SZ
    && (forall i :: 0 <= i < CTF_MAX_FLOW_TABLE && ftable[i] != null ==> ftable[i] in entries)
    && (forall i :: 0 <= i < CTF_MAX_FLOW_TABLE ==> SlotMatches(ftable[i], chains, os[i], entries))
  }

  ghost predicate TableReady(tab: array<bv16>)
    reads tab
  {
    tab.Length == 256 && IsCrcTable(tab[..])
  }

  /** The walk along a chain that fa_napt_lkup_ll and fa_napt_del make: the first entry with this
      tuple, its predecessor and its position. */
  method Walk(head: NaptEntry?, key: Tuple, ghost c: seq<NaptEntry>, ghost fs: seq<Flow>)
    returns (prev: NaptEntry?, p: NaptEntry?, ghost k: nat)
    requires ChainMatches(head, c, fs)
    ensures p != null ==> p.key == key
    ensures k == Find(fs, key) && p == Entry(c, k)
    ensures prev == if k == 0 then null else c[k - 1]
  {
    prev, p, k := null, head, 0;
    while p != null && p.key != key
      invariant 0 <= k <= |c| && p == Entry(c, k)
      invariant prev == if k == 0 then null else c[k - 1]
      invariant forall i :: 0 <= i < k ==> fs[i].key != key
      decreases |c| - k
    {
      prev := p;
      p := p.next;
      k := k + 1;
    }
  }

  /** The walk along one chain in fa_find_nhop. */
  method WalkMac(head: NaptEntry?, mac: Mac, ghost c: seq<NaptEntry>, ghost fs: seq<Flow>)
    returns (p: NaptEntry?, ghost k: nat)
    requires ChainMatches(head, c, fs)
    ensures p != null ==> p.dhost == mac
    ensures k == FindMac(fs, mac) && p == Entry(c, k)
  {
    p, k := head, 0;
    while p != null && p.dhost != mac
      invariant 0 <= k <= |c| && p == Entry(c, k)
      invariant forall i :: 0 <= i < k ==> fs[i].dhost != mac
      decreases |c| - k
    {
      p := p.next;
      k := k + 1;
    }
  }

  /** Reading next-hop rows from idx on until one has the address. */
  method ProbeRows(hw0: Hw, mac: Mac, idx0: nat) returns (probe: Probe, hw: Hw)
    requires HwShape(hw0) && idx0 <= NHOP_FULL
    ensures (probe, hw) == ProbeHops(hw0, mac, idx0)
  {
    hide NhDa;
    hw := hw0;
    var idx := idx0;
    while idx < NHOP_FULL
      invariant HwShape(hw) && idx0 <= idx <= NHOP_FULL
      invariant ProbeHops(hw0, mac, idx0) == ProbeHops(hw, mac, idx)
    {
      if NowBusy(hw) {
        return Timeout, Tick(hw);
      }
      if NhDa(hw.nh[idx]) == mac {
        return Found(idx), Tick(hw);
      }
      hw := Tick(hw);
      idx := idx + 1;
    }
    probe := Absent;
  }

  /** fa_find_pool. */
  method FindPool(hw0: Hw, mac: Mac, external: bv32) returns (probe: Probe, hw: Hw)
    requires HwShape(hw0)
    ensures (probe, hw) == ProbePool(hw0, mac, external, 0)
  {
    hide NpSa, NpExternal;
    hw := hw0;
    var i := 0;
    while i < CTF_MAX_POOL_TABLE_INDEX
      invariant HwShape(hw) && 0 <= i <= CTF_MAX_POOL_TABLE_INDEX
      invariant ProbePool(hw0, mac, external, 0) == ProbePool(hw, mac, external, i)
    {
      if NowBusy(hw) {
        return Timeout, Tick(hw);
      }
      if NpSa(hw.np[i]) == mac && NpExternal(hw.np[i]) == external {
        return Found(i), Tick(hw);
      }
      hw := Tick(hw);
      i := i + 1;
    }
    probe := Absent;
  }

  /** fa_add_pool_entry, on the hardware. */
  method PoolEntry(hw0: Hw, mac: Mac, external: bool) returns (r: PoolResult)
    requires HwShape(hw0)
    ensures r == AddPool(hw0, mac, external)
  {
    hide NpSa, NpExternal, SetNpEntry, ProbePool;
    var ext: bv32 := if external then CTF_NP_EXTERNAL else CTF_NP_INTERNAL;
    var probe, h := FindPool(hw0, mac, ext);
    match probe {
      case Timeout =>
        r := PoolResult(h, 0, true);
      case Found(idx) =>
        r := PoolResult(h, idx, false);
      case Absent =>
        var idx := if external then 1 else 0;
        r := PoolResult(WritePoolRow(h, idx, SetNpEntry(mac, ext)), idx, NowBusy(h));
    }
  }

  /** The search for an unused slot among the four of a bucket. */
  method FirstUnused(ftable: array<NaptEntry?>, base: nat, ghost os: seq<Option<Flow>>) returns (slot: Option<nat>)
    requires ftable.Length == |os| == CTF_MAX_FLOW_TABLE && base + CTF_MAX_BUCKET_INDEX <= CTF_MAX_FLOW_TABLE
    requires forall i :: 0 <= i < CTF_MAX_FLOW_TABLE ==> (ftable[i] == null <==> os[i] == None)
    ensures slot == FreeSlot(os, base, 0)
  {
    var i := 0;
    while i < CTF_MAX_BUCKET_INDEX
      invariant 0 <= i <= CTF_MAX_BUCKET_INDEX
      invariant FreeSlot(os, base, 0) == FreeSlot(os, base, i)
    {
      if ftable[base + i] == null {
        return Some(base + i);
      }
      i := i + 1;
    }
    slot := None;
  }

  /** fa_info_t. */
  class FlowAccel {
    const crctab: array<bv16>
    const napt: array<NaptEntry?>
    const ftable: array<NaptEntry?>
    var nflows: nat
    const flist: array<nat>
    const refs: array<nat>
    var freeIdx: nat
    // the accelerator behind the registers
    var hw: Hw

    ghost var chains: seq<seq<NaptEntry>>
    ghost var entries: set<NaptEntry>
    // the abstract state this object stands for
    ghost var m: Fa

    ghost predicate HopsMatch(hops: NextHops)
      reads this`freeIdx, flist, refs
    {
      && flist.Length == NHOP_FULL && refs.Length == NHOP_FULL && flist != refs
      && hops == NextHops(flist[..], freeIdx, refs[..])
    }

    ghost predicate Valid()
      reads this, crctab, napt, ftable, flist, refs, entries
      ensures Valid() ==> Shape(m)
    {
      && TableReady(crctab) && napt != ftable && crctab as object !in {flist as object, refs, napt, ftable}
      && ChainsMatch(napt, chains, m.chains, entries) && SlotsMatch(ftable, chains, m.ftable, entries)
      && HopsMatch(m.hops) && m.hw == hw && m.nflows == nflows
      && Indexed(m)
    }

    /** fa_attach and fa_up. */
    constructor (io: nat -> Access)
      ensures Valid() && m == Init(io)
      ensures fresh(crctab) && fresh(napt) && fresh(ftable) && fresh(flist) && fresh(refs) && entries == {}
    {
      var tab := InitCrcCcittTab();
      crctab := tab;
      napt := new NaptEntry?[FA_NAPT_SZ](_ => null);
      ftable := new NaptEntry?[CTF_MAX_FLOW_TABLE](_ => null);
      nflows := 0;
      flist := new nat[NHOP_FULL](i => i + 1);
      refs := new nat[NHOP_FULL](_ => 0);
      freeIdx := 0;
      hw := Init(io).hw;
      chains := seq(FA_NAPT_SZ, _ => []);
      entries := {};
      m := Init(io);
      new;
      InitIndexed(io);
      NothingLinked(napt, ftable, io);
      hide Indexed, ChainsMatch, SlotsMatch, IsCrcTable;
      assert flist[..] == Reset().flist && refs[..] == Reset().refs;
    }

    /** fa_napt_lkup_ll. */
    method LookupEntry(key: Tuple) returns (p: NaptEntry?)
      requires Valid()
      ensures Lookup(m, key) == if p == null then None else Some(p.Abs())
      ensures p != null ==> p in entries
    {
      hide Hash, Indexed, SlotsMatch, TableReady;
      var prev;
      ghost var k;
      prev, p, k := Walk(napt[Hash(key)], key, chains[Hash(key)], m.chains[Hash(key)]);
    }

    /** fa_find_nhop, first half: the index to try first. */
    method CachedIndex(mac: Mac) returns (idx: nat)
      requires Valid()
      ensures idx == StartIndex(m, mac)
    {
      hide Hash, Indexed, SlotsMatch, TableReady, HopsMatch;
      for h := 0 to FA_NAPT_SZ
        invariant CachedHop(m.chains, 0, mac) == CachedHop(m.chains, h, mac)
      {
        assert ChainMatches(napt[h], chains[h], m.chains[h]);
        hide ChainsMatch, FindMac, Valid;
        var p;
        ghost var k;
        p, k := WalkMac(napt[h], mac, chains[h], m.chains[h]);
        if p != null {
          return p.nh;
        }
      }
      idx := 0;
    }

    // The allocator's macros and counters, on the arrays.

    /** GETNEXT_NHIDX. */
    method TakeNext(ghost n: NextHops) returns (idx: nat)
      requires HopsMatch(n) && InBounds(n) && freeIdx != NHOP_FULL
      modifies `freeIdx, flist
      ensures idx == n.freeIdx && HopsMatch(GetNext(n))
    {
      idx := freeIdx;
      freeIdx := flist[idx];
      flist[idx] := 0;
    }

    /** PUTNEXT_NHIDX. */
    method GiveBack(i: nat, ghost n: NextHops)
      requires HopsMatch(n) && InBounds(n) && i < NHOP_FULL
      modifies `freeIdx, flist
      ensures HopsMatch(PutNext(n, i))
    {
      if freeIdx == NHOP_FULL {
        freeIdx := i;
      }
      flist[i] := freeIdx;
      freeIdx := i;
    }

    method AddRef(i: nat, ghost n: NextHops)
      requires HopsMatch(n) && InBounds(n) && i < NHOP_FULL
      modifies refs
      ensures HopsMatch(Ref(n, i))
    {
      refs[i] := if refs[i] + 1 == REF_LIMIT then 0 else refs[i] + 1;
    }

    method DropRef(i: nat, ghost n: NextHops)
      requires HopsMatch(n) && InBounds(n) && i < NHOP_FULL
      modifies refs
      ensures HopsMatch(Unref(n, i))
    {
      if refs[i] != 0 {
        refs[i] := refs[i] - 1;
      }
    }

    /** fa_add_nhop_entry, on the allocator and the hardware. */
    method ChooseNextHop(mac: Mac, row: HopRow) returns (ret: Ret, idx: nat)
      requires Valid()
      modifies `freeIdx, `hw, flist, refs
      ensures var r := AddNhop(m, mac, row);
              HopsMatch(r.hops) && hw == r.hw && ret == r.ret && (ret == Ok ==> idx == r.nh)
    {
      hide Hash, SlotsMatch, ChainsMatch, TableReady, NhDa, Ref, GetNext;
      ghost var hops := m.hops;
      assert freeIdx == hops.freeIdx && HopsMatch(hops) && InBounds(hops);
      idx := 0;
      if freeIdx == NHOP_FULL {
        return Busy, 0;
      }
      var start := CachedIndex(mac);
      var probe, h := ProbeRows(hw, mac, start);
      assert FindNhop(m, mac) == (probe, h);
      hide FindNhop, Valid, Shape, Indexed, HopsMatch;
      if probe == Timeout {
        hw := h;
        return Busy, 0;
      }
      if probe.Found? {
        hw := h;
        idx := probe.idx;
        AddRef(idx, hops);
        return Ok, idx;
      }
      hw := WriteHopRow(h, freeIdx, row);
      if NowBusy(h) {
        return Busy, 0;
      }
      idx := TakeNext(hops);
      AddRef(idx, GetNext(hops));
      ret := Ok;
    }

    /** fa_add_nhop_entry: the new entry e gets its next-hop index. */
    method AddNextHop(e: NaptEntry, mac: Mac, row: HopRow) returns (ret: Ret)
      requires Valid() && e !in entries
      modifies `freeIdx, `hw, `m, flist, refs, e`nh
      ensures Valid()
      ensures var r := AddNhop(old(m), mac, row);
              m == WithHw(old(m), r.hops, r.hw) && ret == r.ret && (ret == Ok ==> e.nh == r.nh)
    {
      hide Hash, SlotsMatch, ChainsMatch, TableReady, AddNhop, HopsMatch, Indexed, InBounds, HwShape;
      ghost var r := AddNhop(m, mac, row);
      var idx;
      ret, idx := ChooseNextHop(mac, row);
      if ret == Ok {
        e.nh := idx;
      }
      m := WithHw(m, r.hops, r.hw);
      SameIndex(old(m), r.hops, r.hw);
    }

    /** fa_add_pool_entry. */
    method AddPoolEntry(e: NaptEntry, mac: Mac, external: bool) returns (busy: bool)
      requires Valid() && e !in entries
      modifies `hw, `m, e`pool
      ensures Valid()
      ensures var r := AddPool(old(m).hw, mac, external);
              m == WithHw(old(m), old(m).hops, r.hw) && busy == r.busy && (!busy ==> e.pool == r.pool)
    {
      hide Hash, SlotsMatch, ChainsMatch, TableReady, HopsMatch, Indexed, InBounds, HwShape, AddPool;
      var r := PoolEntry(hw, mac, external);
      if !r.busy {
        e.pool := r.pool;
      }
      busy := r.busy;
      hw := r.hw;
      SameIndex(m, m.hops, hw);
      m := WithHw(m, m.hops, hw);
    }

    /** Picking the slot: the CRC gives the bucket, the first unused slot of the bucket is taken. */
    method PickSlot(key: Tuple) returns (slot: Option<nat>)
      requires Valid()
      ensures slot == FreeSlot(m.ftable, Bucket(key) * CTF_MAX_BUCKET_INDEX, 0)
    {
      hide Hash, ChainsMatch, HopsMatch, Indexed, IsCrcTable, Bucket;
      var crc := FaCrcCcitt(crctab, key);
      LowByteIsBucket(crc, key);
      slot := FirstUnused(ftable, (Low(crc) as nat) * CTF_MAX_BUCKET_INDEX, m.ftable);
    }

    /** Linking a finished entry: at the head of its chain and from its slot. */
    method Link(e: NaptEntry)
      requires Valid() && e !in entries && FlowShape(e.Abs())
      requires Indexed(Insert(m, e.Abs()))
      modifies `chains, `entries, `m, `nflows, napt, ftable, e`next
      ensures Valid() && m == Insert(old(m), e.Abs()) && entries == old(entries) + {e}
    {
      hide TableReady, HopsMatch, Indexed, InBounds, HwShape, ChainsMatch, SlotsMatch, Hash;
      var h := Hash(e.key);
      PushEntry(napt, h, e, chains, m.chains, entries);
      SetSlot(ftable, e, h, chains, m.ftable, entries);
      nflows := if nflows + 1 == NFLOWS_LIMIT then 0 else nflows + 1;
      chains := chains[h := [e] + chains[h]];
      entries := entries + {e};
      m := Insert(m, e.Abs());
    }

    /** The checks at the start of fa_napt_add. */
    method CheckRequest(q: Request) returns (slot: Option<nat>)
      requires Valid()
      ensures slot == Admit(m, q)
    {
      hide Hash, Bucket, ChainsMatch, SlotsMatch, HopsMatch, TableReady, InBounds, HwShape, Indexed, FreeSlot, Lookup;
      if !q.devsOn || q.v6 || q.ppp {
        return None;
      }
      slot := PickSlot(q.key);
      if slot.None? {
        return None;
      }
      var p := LookupEntry(q.key);
      if p != null || !q.memory {
        return None;
      }
    }

    /** fa_napt_add. */
    method NaptAdd(q: Request) returns (ret: Ret)
      requires Valid()
      modifies this, napt, ftable, flist, refs
      ensures Valid() && (m, ret) == Add(old(m), q)
      ensures fresh(entries - old(entries))
    {
      hide Hash, Bucket, ChainsMatch, SlotsMatch, HopsMatch, TableReady, InBounds, HwShape, Indexed;
      hide AddNhop, AddPool, FieldsOf, PrepIpv4, HopRowFor, ActionFor, Insert, Admit, Lookup, FreeSlot;
      var slot := CheckRequest(q);
      if slot.None? {
        return Error;
      }
      ghost var s := m;
      var e := new NaptEntry(slot.value, q.dhost);
      ret := AddNextHop(e, q.dhost, HopRowFor(q));
      if ret == Busy {
        return;
      }
      var busy := AddPoolEntry(e, q.shost, q.snat);
      if busy {
        return Busy;
      }
      e.action := ActionFor(q);
      AdmitMeans(s, q);
      SameLookup(s, m.hops, m.hw, q.key);
      ret := WriteAndLink(e, q);
    }

    /** fa_write_napt_entry. */
    method WriteFlow(slot: nat, row: FlowRow) returns (busy: bool)
      requires Valid() && slot < CTF_MAX_FLOW_TABLE
      modifies `hw, `m
      ensures Valid() && busy == NowBusy(old(m).hw)
      ensures m == WithHw(old(m), old(m).hops, WriteFlowRow(old(m).hw, slot, row))
    {
      hide Hash, ChainsMatch, SlotsMatch, HopsMatch, TableReady, InBounds, HwShape, Indexed, WriteFlowRow;
      busy := NowBusy(hw);
      hw := WriteFlowRow(hw, slot, row);
      SameIndex(m, m.hops, hw);
      m := WithHw(m, m.hops, hw);
    }

    /** The last part of fa_napt_add: write the row, save the tuple, link the entry. */
    method WriteAndLink(e: NaptEntry, q: Request) returns (ret: Ret)
      requires Valid() && e !in entries
      requires e.nh < NHOP_FULL && e.pool < CTF_MAX_POOL_TABLE_INDEX && e.slot < CTF_MAX_FLOW_TABLE
      requires e.dhost == q.dhost && e.action == ActionFor(q)
      requires m.ftable[e.slot].None? && Lookup(m, q.key).None? && e.slot / CTF_MAX_BUCKET_INDEX == Bucket(q.key)
      modifies `hw, `m, `chains, `entries, `nflows, napt, ftable, e
      ensures Valid() && entries <= old(entries) + {e}
      ensures (m, ret) == Finish(old(m), FlowFor(q, old(e.nh), old(e.pool), old(e.slot)))
    {
      hide Hash, Bucket, ChainsMatch, SlotsMatch, HopsMatch, TableReady, InBounds, HwShape, Lookup;
      hide FieldsOf, PrepIpv4, ActionFor, Insert, Indexed, WriteFlowRow;
      var f := FlowFor(q, e.nh, e.pool, e.slot);
      ghost var s := m;
      var busy := WriteFlow(f.slot, PrepIpv4(FieldsOf(f)));
      if busy {
        return Busy;
      }
      e.key := q.key;
      e.natIp, e.natPort, e.snat := q.natIp, q.natPort, q.snat;
      SameLookup(s, s.hops, m.hw, q.key);
      InsertIndexed(m, f);
      Link(e);
      ret := Ok;
    }

    /** fa_delete_nhop_entry. */
    method DeleteNextHop(nh: nat)
      requires Valid() && nh < NHOP_FULL
      modifies `freeIdx, `hw, `m, flist, refs
      ensures Valid()
      ensures var r := DeleteNhop(old(m).hops, old(m).hw, nh);
              m == WithHw(old(m), r.0, r.1)
    {
      hide Hash, ChainsMatch, SlotsMatch, TableReady, Indexed, PutNext, WriteHopRow;
      ghost var s := m;
      DropRef(nh, m.hops);
      ghost var hops := Unref(s.hops, nh);
      assert refs[nh] == hops.refs[nh];
      hide Unref, HopsMatch;
      if refs[nh] == 0 {
        var busy := NowBusy(hw);
        hw := WriteHopRow(hw, nh, ZERO_HOP);
        if !busy {
          GiveBack(nh, hops);
          hops := PutNext(hops, nh);
        }
      }
      m := WithHw(s, hops, hw);
      SameIndex(s, hops, hw);
    }

    /** _fa_napt_del: read the row, clear its valid bit, let go of the next hop. */
    method ReleaseRow(slot: nat, nh: nat, ghost f: Flow) returns (ret: Ret)
      requires Valid() && FlowShape(f) && slot == f.slot && nh == f.nh
      modifies `freeIdx, `hw, `m, flist, refs
      ensures Valid()
      ensures var r := DelHw(old(m).hops, old(m).hw, f);
              m == WithHw(old(m), r.0, r.1) && ret == r.2
    {
      hide Hash, ChainsMatch, SlotsMatch, HopsMatch, TableReady, Indexed, DeleteNhop, WriteFlowRow, IsValid, MarkInvalid;
      ghost var s := m;
      var row := hw.nf[slot];
      var busy := NowBusy(hw);
      hw := Tick(hw);
      m := WithHw(s, s.hops, hw);
      SameIndex(s, s.hops, hw);
      if busy {
        return Busy;
      }
      if !IsValid(row) {
        return Ok;
      }
      busy := WriteFlow(slot, MarkInvalid(row));
      if busy {
        return Busy;
      }
      DeleteNextHop(nh);
      ret := Ok;
    }

    /** No entry is linked twice. */
    lemma LinkedOnce(h: nat, k: nat)
      requires Valid() && h < FA_NAPT_SZ && k < |chains[h]|
      ensures Elsewhere(chains, h, k)
    {
      hide Hash, Bucket, TableReady, HopsMatch, SlotsMatch, InBounds, HwShape;
      assert ChainMatches(napt[h], chains[h], m.chains[h]);
      assert Placed(m.ftable, h, m.chains[h][k]);
      assert NoDuplicates(m.chains[h]);
      forall g, j | 0 <= g < FA_NAPT_SZ && 0 <= j < |chains[g]| && chains[g][j] == chains[h][k]
        ensures g == h && j == k
      {
        assert ChainMatches(napt[g], chains[g], m.chains[g]);
        assert Placed(m.ftable, g, m.chains[g][j]);
      }
    }

    lemma UnlinkReady(h: nat, k: nat, f: Flow)
      requires Valid() && h < FA_NAPT_SZ && k < |chains[h]| && |m.chains[h]| == |chains[h]|
      ensures Indexed(Remove(m, h, k)) && Elsewhere(chains, h, k) && (k > 0 ==> Elsewhere(chains, h, k - 1))
      ensures forall i :: 0 <= i < CTF_MAX_FLOW_TABLE && m.ftable[i] == Some(f) ==> i == f.slot
    {
      hide TableReady, HopsMatch, Indexed, ChainsMatch, SlotsMatch, Hash, Remove, Elsewhere;
      RemoveIndexed(m, h, k);
      LinkedOnce(h, k);
      if k > 0 {
        LinkedOnce(h, k - 1);
      }
      OneSlot(m, f);
    }

    /** Taking the k-th entry of chain h out of the chain and out of its slot. */
    method Unlink(h: nat, prev: NaptEntry?, p: NaptEntry, ghost k: nat)
      requires Valid() && h < FA_NAPT_SZ && k < |chains[h]| && p == chains[h][k]
      requires prev == if k == 0 then null else chains[h][k - 1]
      requires |m.chains[h]| == |chains[h]| && m.chains[h][k] == p.Abs() && p.slot < CTF_MAX_FLOW_TABLE
      modifies `chains, `entries, `m, `nflows, napt, ftable, (if prev == null then {} else {prev})`next
      ensures Valid() && m == Remove(old(m), h, k) && entries == old(entries) - {p}
    {
      hide TableReady, HopsMatch, Indexed, InBounds, HwShape, ChainsMatch, SlotsMatch, Hash, Bucket, Without, Elsewhere;
      UnlinkReady(h, k, p.Abs());
      CutEntry(napt, h, prev, p, k, chains, m.chains, entries);
      ClearSlot(ftable, p, h, k, chains, m.ftable, entries);
      nflows := if nflows == 0 then NFLOWS_LIMIT - 1 else nflows - 1;
      chains := chains[h := Without(chains[h], k)];
      entries := entries - {p};
      m := Remove(m, h, k);
    }

    /** fa_napt_del. */
    method NaptDel(key: Tuple) returns (ret: Ret)
      requires Valid()
      modifies this, napt, ftable, flist, refs, entries
      ensures Valid() && (m, ret) == Del(old(m), key)
      ensures entries <= old(entries)
    {
      hide TableReady, HopsMatch, Indexed, InBounds, HwShape, SlotsMatch, Bucket, DelHw, Remove, Hash;
      var h := Hash(key);
      var prev, p;
      ghost var k;
      prev, p, k := Walk(napt[h], key, chains[h], m.chains[h]);
      ret := Ok;
      if p != null {
        ghost var f := p.Abs();
        assert m.chains[h][k] == f && p in entries && (prev == null || prev in entries);
        hide ChainsMatch;
        RemoveKeeps(m, h, k);
        Unlink(h, prev, p, k);
        ret := ReleaseRow(p.slot, p.nh, f);
      }
    }
  }

  lemma NothingLinked(napt: array<NaptEntry?>, ftable: array<NaptEntry?>, io: nat -> Access)
    requires napt.Length == FA_NAPT_SZ && forall i :: 0 <= i < napt.Length ==> napt[i] == null
    requires ftable.Length == CTF_MAX_FLOW_TABLE && forall i :: 0 <= i < ftable.Length ==> ftable[i] == null
    ensures ChainsMatch(napt, seq(FA_NAPT_SZ, _ => []), Init(io).chains, {})
    ensures SlotsMatch(ftable, seq(FA_NAPT_SZ, _ => []), Init(io).ftable, {})
  {
    hide Hash;
  }

  lemma RemoveKeeps(s: Fa, h: nat, k: nat)
    requires Shape(s) && h < FA_NAPT_SZ && k < |s.chains[h]|
    ensures Remove(s, h, k).hops == s.hops && Remove(s, h, k).hw == s.hw
    ensures FlowShape(s.chains[h][k])
  {
  }

  ghost predicate Elsewhere(chains: seq<seq<NaptEntry>>, h: nat, k: nat)
    requires h < |chains| && k < |chains[h]|
  {
    forall g, j :: 0 <= g < |chains| && 0 <= j < |chains[g]| && chains[g][j] == chains[h][k] ==> g == h && j == k
  }

  /** `prev->next = napt->next`, or the same for the bucket head. */
  method CutChain(napt: array<NaptEntry?>, h: nat, prev: NaptEntry?, p: NaptEntry, ghost k: nat,
                  ghost c: seq<NaptEntry>, ghost fs: seq<Flow>)
    requires h < napt.Length && k < |c| && p == c[k] && ChainMatches(napt[h], c, fs)
    requires prev == if k == 0 then null else c[k - 1]
    requires k > 0 ==> forall j :: 0 <= j < |c| && j != k - 1 ==> c[j] != c[k - 1]
    modifies napt, (if prev == null then {} else {prev})`next
    ensures ChainMatches(napt[h], Without(c, k), Without(fs, k))
    ensures forall g :: 0 <= g < napt.Length && g != h ==> napt[g] == old(napt[g])
  {
    hide NaptEntry.Abs;
    if prev != null {
      prev.next := p.next;
    } else {
      napt[h] := p.next;
    }
    CutMatches(napt[h], c, fs, k);
  }

  /** The same, seen from all chains. */
  method CutEntry(napt: array<NaptEntry?>, h: nat, prev: NaptEntry?, p: NaptEntry, ghost k: nat,
                  ghost chains: seq<seq<NaptEntry>>, ghost fss: seq<seq<Flow>>, ghost entries: set<NaptEntry>)
    requires ChainsMatch(napt, chains, fss, entries) && h < FA_NAPT_SZ && k < |chains[h]| && p == chains[h][k]
    requires prev == if k == 0 then null else chains[h][k - 1]
    requires Elsewhere(chains, h, k) && (k > 0 ==> Elsewhere(chains, h, k - 1))
    modifies napt, (if prev == null then {} else {prev})`next
    ensures ChainsMatch(napt, chains[h := Without(chains[h], k)], fss[h := Without(fss[h], k)], entries - {p})
  {
    hide NaptEntry.Abs;
    ghost var c, fs := chains[h], fss[h];
    ChainsParts(napt, chains, fss, entries);
    if k > 0 {
      OnlyThere(chains, h, k - 1);
    }
    AmongCut(chains, h, k, entries);
    hide ChainsMatch, Elsewhere, Among, ChainMatches, Without;
    CutChain(napt, h, prev, p, k, c, fs);
    forall g | 0 <= g < FA_NAPT_SZ && g != h ensures ChainMatches(napt[g], chains[g], fss[g]) {
      assert old(ChainMatches(napt[g], chains[g], fss[g]));
    }
    ChainsAssembled(napt, chains, fss, h, Without(c, k), Without(fs, k), entries - {p});
  }

  lemma ChainsParts(napt: array<NaptEntry?>, chains: seq<seq<NaptEntry>>, fss: seq<seq<Flow>>, entries: set<NaptEntry>)
    requires ChainsMatch(napt, chains, fss, entries)
    ensures forall g :: 0 <= g < FA_NAPT_SZ ==> Among(chains[g], entries)
    ensures forall g :: 0 <= g < FA_NAPT_SZ ==> ChainMatches(napt[g], chains[g], fss[g])
    ensures forall g :: 0 <= g < FA_NAPT_SZ ==> |chains[g]| == |fss[g]|
  {
  }

  lemma ChainsAssembled(napt: array<NaptEntry?>, chains: seq<seq<NaptEntry>>, fss: seq<seq<Flow>>, h: nat,
                        c: seq<NaptEntry>, fs: seq<Flow>, entries: set<NaptEntry>)
    requires napt.Length == |chains| == |fss| == FA_NAPT_SZ && h < FA_NAPT_SZ
    requires var d := chains[h := c]; forall g :: 0 <= g < FA_NAPT_SZ ==> Among(d[g], entries)
    requires forall g :: 0 <= g < FA_NAPT_SZ && g != h ==> ChainMatches(napt[g], chains[g], fss[g])
    requires ChainMatches(napt[h], c, fs)
    ensures ChainsMatch(napt, chains[h := c], fss[h := fs], entries)
  {
    hide Among;
  }

  lemma OnlyThere(chains: seq<seq<NaptEntry>>, h: nat, k: nat)
    requires h < |chains| && k < |chains[h]| && Elsewhere(chains, h, k)
    ensures forall g :: 0 <= g < |chains| && g != h ==> chains[h][k] !in chains[g]
    ensures forall j :: 0 <= j < |chains[h]| && j != k ==> chains[h][j] != chains[h][k]
  {
  }

  lemma AmongCut(chains: seq<seq<NaptEntry>>, h: nat, k: nat, entries: set<NaptEntry>)
    requires h < |chains| && k < |chains[h]| && Elsewhere(chains, h, k)
    requires forall g :: 0 <= g < |chains| ==> Among(chains[g], entries)
    ensures var d := chains[h := Without(chains[h], k)];
            forall g :: 0 <= g < |d| ==> Among(d[g], entries - {chains[h][k]})
  {
    var d := chains[h := Without(chains[h], k)];
    forall g | 0 <= g < |d| ensures Among(d[g], entries - {chains[h][k]}) {
      assert Among(chains[g], entries);
      forall j | 0 <= j < |d[g]| ensures d[g][j] in entries && d[g][j] != chains[h][k] {
        assert d[g][j] == chains[g][if g == h && j >= k then j + 1 else j];
      }
    }
  }

  lemma CutMatches(head: NaptEntry?, c: seq<NaptEntry>, fs: seq<Flow>, k: nat)
    requires k < |c| == |fs| && forall j :: 0 <= j < |c| ==> fs[j] == c[j].Abs()
    requires forall j :: 0 <= j < |c| && j != k - 1 ==> c[j].next == Entry(c, j + 1)
    requires k > 0 ==> c[k - 1].next == Entry(c, k + 1)
    requires head == Entry(c, if k == 0 then 1 else 0)
    ensures ChainMatches(head, Without(c, k), Without(fs, k))
  {
    hide NaptEntry.Abs;
    var d, gs := Without(c, k), Without(fs, k);
    WithoutAt(c, k);
    WithoutAt(fs, k);
    hide Without;
    forall j | 0 <= j < |d| ensures d[j].next == Entry(d, j + 1) {
    }
  }

  lemma WithoutAt<T>(c: seq<T>, k: nat)
    requires k < |c|
    ensures forall j :: 0 <= j < |c| - 1 ==> Without(c, k)[j] == c[if j < k then j else j + 1]
  {
  }

  /** A flow is in one slot only. */
  lemma OneSlot(s: Fa, f: Flow)
    requires Indexed(s)
    ensures forall i :: 0 <= i < CTF_MAX_FLOW_TABLE && s.ftable[i] == Some(f) ==> i == f.slot
  {
    hide Hash, Bucket;
    forall i | 0 <= i < CTF_MAX_FLOW_TABLE && s.ftable[i] == Some(f) ensures i == f.slot {
      assert Owned(s.chains, i, s.ftable[i].value);
    }
  }

  /** `fai->ftable[napt->nfi.napt_idx] = NULL`. */
  method ClearSlot(ftable: array<NaptEntry?>, p: NaptEntry, h: nat, ghost k: nat, ghost chains: seq<seq<NaptEntry>>,
                   ghost os: seq<Option<Flow>>, ghost entries: set<NaptEntry>)
    requires SlotsMatch(ftable, chains, os, entries) && h < FA_NAPT_SZ && k < |chains[h]| && p == chains[h][k]
    requires p.slot < CTF_MAX_FLOW_TABLE
    requires forall i :: 0 <= i < CTF_MAX_FLOW_TABLE && os[i] == Some(p.Abs()) ==> i == p.slot
    modifies ftable
    ensures SlotsMatch(ftable, chains[h := Without(chains[h], k)], os[p.slot := None], entries - {p})
  {
    hide Hash;
    ftable[p.slot] := null;
    ghost var chains' := chains[h := Without(chains[h], k)];
    forall i | 0 <= i < CTF_MAX_FLOW_TABLE && i != p.slot
      ensures SlotMatches(ftable[i], chains', os[i], entries - {p})
      ensures ftable[i] != null ==> ftable[i] in entries - {p}
    {
      assert old(SlotMatches(ftable[i], chains, os[i], entries));
      if ftable[i] != null {
        StillLinked(chains[h], k, ftable[i]);
      }
    }
  }

  lemma StillLinked(c: seq<NaptEntry>, k: nat, q: NaptEntry)
    requires k < |c| && q != c[k]
    ensures q in c ==> q in Without(c, k)
  {
    if q in c {
      var j :| 0 <= j < |c| && c[j] == q;
      assert Without(c, k)[if j < k then j else j - 1] == q;
    }
  }

  /** What is left to do for a new flow when it has its indices. */
  ghost function Finish(s: Fa, f: Flow): (r: (Fa, Ret))
    requires Shape(s) && FlowShape(f)
  {
    var w := WithHw(s, s.hops, WriteFlowRow(s.hw, f.slot, PrepIpv4(FieldsOf(f))));
    if NowBusy(s.hw) then (w, Busy) else (Insert(w, f), Ok)
  }

  /** `napt->next = FA_NAPT(fai)[hash]; FA_NAPT(fai)[hash] = napt`. */
  method PushEntry(napt: array<NaptEntry?>, h: nat, e: NaptEntry, ghost chains: seq<seq<NaptEntry>>,
                   ghost fss: seq<seq<Flow>>, ghost entries: set<NaptEntry>)
    requires ChainsMatch(napt, chains, fss, entries) && h < FA_NAPT_SZ && e !in entries
    modifies napt, e`next
    ensures e.Abs() == old(e.Abs())
    ensures ChainsMatch(napt, chains[h := [e] + chains[h]], fss[h := [e.Abs()] + fss[h]], entries + {e})
  {
    hide NaptEntry.Abs;
    ghost var c, fs := chains[h], fss[h];
    ChainsParts(napt, chains, fss, entries);
    hide ChainsMatch, ChainMatches;
    forall g | 0 <= g < FA_NAPT_SZ ensures e !in chains[g] {
      assert Among(chains[g], entries);
    }
    ghost var d := chains[h := [e] + c];
    forall g | 0 <= g < FA_NAPT_SZ ensures Among(d[g], entries + {e}) {
      assert Among(chains[g], entries);
    }
    hide Among;
    e.next := napt[h];
    napt[h] := e;
    assert ChainMatches(e.next, c, fs);
    ConsMatches(e, c, fs);
    forall g | 0 <= g < FA_NAPT_SZ && g != h ensures ChainMatches(napt[g], chains[g], fss[g]) {
      assert old(ChainMatches(napt[g], chains[g], fss[g]));
    }
    ChainsAssembled(napt, chains, fss, h, [e] + c, [e.Abs()] + fs, entries + {e});
  }

  lemma ConsMatches(e: NaptEntry, c: seq<NaptEntry>, fs: seq<Flow>)
    requires ChainMatches(e.next, c, fs)
    ensures ChainMatches(e, [e] + c, [e.Abs()] + fs)
  {
    hide NaptEntry.Abs;
    var d, gs := [e] + c, [e.Abs()] + fs;
    forall j | 0 <= j < |d| ensures d[j].next == Entry(d, j + 1) && gs[j] == d[j].Abs() {
      if j > 0 {
        assert d[j] == c[j - 1];
      }
    }
  }

  /** `fai->ftable[napt_idx] = napt`. */
  method SetSlot(ftable: array<NaptEntry?>, e: NaptEntry, h: nat, ghost chains: seq<seq<NaptEntry>>,
                 ghost os: seq<Option<Flow>>, ghost entries: set<NaptEntry>)
    requires SlotsMatch(ftable, chains, os, entries) && h == Hash(e.key) && e.slot < CTF_MAX_FLOW_TABLE
    modifies ftable
    ensures SlotsMatch(ftable, chains[h := [e] + chains[h]], os[e.slot := Some(e.Abs())], entries + {e})
  {
    hide Hash;
    ftable[e.slot] := e;
    ghost var chains' := chains[h := [e] + chains[h]];
    forall i | 0 <= i < CTF_MAX_FLOW_TABLE && i != e.slot
      ensures SlotMatches(ftable[i], chains', os[i], entries + {e})
    {
      assert old(SlotMatches(ftable[i], chains, os[i], entries));
    }
  }

  lemma SameLookup(s: Fa, hops: NextHops, hw: Hw, key: Tuple)
    requires Shape(s) && InBounds(hops) && HwShape(hw)
    ensures Lookup(WithHw(s, hops, hw), key) == Lookup(s, key)
  {
  }

  lemma SameIndex(s: Fa, hops: NextHops, hw: Hw)
    requires Indexed(s) && InBounds(hops) && HwShape(hw)
    ensures Indexed(WithHw(s, hops, hw))
  {
    hide Hash, Bucket;
  }
}
