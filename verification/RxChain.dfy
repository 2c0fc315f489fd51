/** Receive chaining: how one call of et_rxevent sorts the packets it takes from the ring into at
    most 32 chains and one list of unchained packets, and in which order it hands them up. */
module RxChain {
  import opened Filtering

  const PKTCMC: nat := 32

  /** What a chain has in common: destination, source and the precedence bits of the TOS byte. */
  datatype Key = Key(da: bv48, sa: bv48, prio: bv8)

  /** A frame on the ring.  `brcm`: a Broadcom management frame.  `fit`: everything PKT_CHAINABLE
      asks besides the key (a known destination, the hot bridge entry, no error flags, a VLAN tag,
      IP inside).  `control`: short enough to be a TCP control packet. */
  datatype Packet = Packet(key: Key, brcm: bool, fit: bool, control: bool, body: nat)

  /** `enabled`: chaining is on and this is not the accelerator's auxiliary device.  `skip`: the
      TCP control check is skipped.  `bound`: PKTCBND. */
  datatype Config = Config(enabled: bool, skip: bool, bound: nat)

  /** A used element of cd[]. */
  datatype Slot = Slot(key: Key, chain: seq<Packet>)

  /** cd[0..cidx], stop_chain and the list from h to t. */
  datatype Rx = Rx(slots: seq<Slot>, stopped: bool, loose: seq<Packet>)

  const EMPTY: Rx := Rx([], false, [])

  predicate Matches(p: Packet, key: Key) {
    p.fit && p.key == key
  }

  predicate Searched(cfg: Config, p: Packet) {
    cfg.enabled && (cfg.skip || !p.control)
  }

  /** The first slot whose chain p may join, or the number of slots. */
  function FirstMatch(slots: seq<Slot>, p: Packet): (i: nat)
    ensures i <= |slots| && (i < |slots| ==> Matches(p, slots[i].key))
    ensures forall j :: 0 <= j < i ==> !Matches(p, slots[j].key)
  {
    if slots == [] then 0 else if Matches(p, slots[0].key) then 0 else 1 + FirstMatch(slots[1..], p)
  }

  function Copies(key: Key, n: nat): (r: seq<Slot>)
    ensures |r| == n && forall j :: 0 <= j < n ==> r[j] == Slot(key, [])
  {
    seq(n, _ => Slot(key, []))
  }

  /** The search among the slots: the slots afterwards, and the slot that was found or PKTCMC.
      A packet that fits and finds nothing opens the next slot; a packet that does not fit takes
      all the slots that are left. */
  function Search(slots: seq<Slot>, p: Packet): (r: (seq<Slot>, nat))
    requires 0 < |slots| <= PKTCMC
    ensures slots <= r.0 && |r.0| <= PKTCMC && r.1 <= PKTCMC
    ensures r.1 < PKTCMC <==> r.1 < |r.0| && Matches(p, r.0[r.1].key)
    ensures forall j :: 0 <= j < |r.0| && j < r.1 ==> !Matches(p, r.0[j].key)
  {
    var i := FirstMatch(slots, p);
    if i < |slots| then (slots, i)
    else if p.fit && |slots| < PKTCMC then (slots + Copies(p.key, 1), |slots|)
    else (slots + Copies(p.key, PKTCMC - |slots|), PKTCMC)
  }

  /** The first packet of a call that is not thrown away names slot 0. */
  function Started(st: Rx, p: Packet): Rx {
    if st.slots == [] then st.(slots := Copies(p.key, 1)) else st
  }

  predicate Joins(cfg: Config, st: Rx, p: Packet)
    requires 0 < |st.slots| <= PKTCMC
  {
    Searched(cfg, p) && !st.stopped && Search(st.slots, p).1 < PKTCMC
  }

  function Chain(cfg: Config, slots: seq<Slot>, loose: seq<Packet>, i: nat, p: Packet): Rx
    requires i < |slots|
  {
    var chain := slots[i].chain + [p];
    Rx(slots[i := Slot(slots[i].key, chain)], |chain| >= cfg.bound, loose)
  }

  /** What et_rxevent does with one packet it keeps. */
  function Accept(cfg: Config, st: Rx, p: Packet): (r: Rx)
    requires |st.slots| <= PKTCMC
    ensures 0 < |r.slots| <= PKTCMC
  {
    var s := Started(st, p);
    if Joins(cfg, s, p) then
      var (slots, i) := Search(s.slots, p);
      Chain(cfg, slots, s.loose, i, p)
    else
      Rx(if Searched(cfg, p) then Search(s.slots, p).0 else s.slots, s.stopped, s.loose + [p])
  }

  /** The frames of a from the first on; management frames are freed. */
  function Process(cfg: Config, st: Rx, a: seq<Packet>): (r: Rx)
    requires |st.slots| <= PKTCMC
    ensures |r.slots| <= PKTCMC
  {
    if a == [] then st
    else
      var st' := Process(cfg, st, a[..|a| - 1]);
      var p := a[|a| - 1];
      if p.brcm then st' else Accept(cfg, st', p)
  }

  /** The chains, slot by slot, one after the other. */
  function Flatten(slots: seq<Slot>): (r: seq<Packet>) {
    if slots == [] then [] else Flatten(slots[..|slots| - 1]) + slots[|slots| - 1].chain
  }

  /** The order in which the packets go up. */
  function Delivered(st: Rx): seq<Packet> {
    Flatten(st.slots) + st.loose
  }

  function Kept(): Packet -> bool {
    (p: Packet) => !p.brcm
  }

  /** The packets of one flow that may be chained. */
  function Eligible(skip: bool, k: Key): Packet -> bool {
    (p: Packet) => !p.brcm && p.key == k && p.fit && (skip || !p.control)
  }

  // ------------------------------------------------------------------ what the slots keep

  /** Every member of a chain has the key of its slot, and only the first slot of a key has one. */
  ghost predicate SlotOk(cfg: Config, slots: seq<Slot>, i: nat)
    requires i < |slots|
  {
    && (forall p :: p in slots[i].chain ==> Matches(p, slots[i].key) && Searched(cfg, p) && !p.brcm)
    && (slots[i].chain != [] ==> forall j :: 0 <= j < i ==> slots[j].key != slots[i].key)
  }

  ghost predicate SlotsOk(cfg: Config, slots: seq<Slot>) {
    |slots| <= PKTCMC && forall i :: 0 <= i < |slots| ==> SlotOk(cfg, slots, i)
  }

  ghost predicate NoSlot(slots: seq<Slot>, k: Key) {
    |slots| == PKTCMC && forall i :: 0 <= i < |slots| ==> slots[i].key != k
  }

  /** An eligible packet is unchained only when no later one of its flow can be chained. */
  ghost predicate LooseOk(cfg: Config, st: Rx, k: Key) {
    cfg.enabled && Filter(st.loose, Eligible(cfg.skip, k)) != [] ==> st.stopped || NoSlot(st.slots, k)
  }

  lemma StartedKeeps(cfg: Config, st: Rx, p: Packet, k: Key)
    requires SlotsOk(cfg, st.slots)
    ensures var s := Started(st, p);
            && SlotsOk(cfg, s.slots) && 0 < |s.slots| && s.loose == st.loose && Flatten(s.slots) == Flatten(st.slots)
            && (LooseOk(cfg, st, k) ==> LooseOk(cfg, s, k))
  {
    if st.slots == [] {
      assert Flatten(Copies(p.key, 1)) == [] by { FlattenCopies([], p.key, 1); }
    }
  }

  lemma {:induction false} FlattenCopies(slots: seq<Slot>, key: Key, n: nat)
    ensures Flatten(slots + Copies(key, n)) == Flatten(slots)
  {
    if n == 0 {
      assert slots + Copies(key, 0) == slots;
    } else {
      assert (slots + Copies(key, n))[..|slots| + n - 1] == slots + Copies(key, n - 1);
      FlattenCopies(slots, key, n - 1);
    }
  }

  lemma SlotsExtend(cfg: Config, slots: seq<Slot>, key: Key, n: nat)
    requires SlotsOk(cfg, slots) && |slots| + n <= PKTCMC
    ensures SlotsOk(cfg, slots + Copies(key, n))
  {
    hide Matches, Searched;
    var t := slots + Copies(key, n);
    forall i | 0 <= i < |t| ensures SlotOk(cfg, t, i) {
      if i < |slots| {
        assert SlotOk(cfg, slots, i);
        assert t[i] == slots[i];
        forall j | 0 <= j < i ensures t[j] == slots[j] {
        }
      } else {
        assert t[i].chain == [];
      }
    }
  }

  lemma SearchKeeps(cfg: Config, slots: seq<Slot>, p: Packet)
    requires SlotsOk(cfg, slots) && 0 < |slots|
    ensures var r := Search(slots, p);
            && SlotsOk(cfg, r.0) && Flatten(r.0) == Flatten(slots)
            && (|slots| == PKTCMC ==> r.0 == slots)
  {
    hide Flatten, SlotOk;
    var r := Search(slots, p);
    var n := |r.0| - |slots|;
    assert r.0 == slots + Copies(p.key, n);
    hide Search;
    FlattenCopies(slots, p.key, n);
    SlotsExtend(cfg, slots, p.key, n);
  }

  lemma FlattenUpdate(slots: seq<Slot>, i: nat, chain: seq<Packet>)
    requires i < |slots|
    ensures Flatten(slots[i := Slot(slots[i].key, chain)])
         == Flatten(slots[..i]) + chain + FlattenFrom(slots, i + 1)
    ensures Flatten(slots) == Flatten(slots[..i]) + slots[i].chain + FlattenFrom(slots, i + 1)
  {
    hide Flatten, FlattenFrom;
    var t := slots[i := Slot(slots[i].key, chain)];
    FlattenAt(slots, i);
    FlattenAt(t, i);
    assert t[..i] == slots[..i];
    FlattenFromSame(slots, t, i + 1);
  }

  lemma {:induction false} FlattenAt(slots: seq<Slot>, i: nat)
    requires i < |slots|
    ensures Flatten(slots) == Flatten(slots[..i]) + slots[i].chain + FlattenFrom(slots, i + 1)
  {
    var n := |slots| - 1;
    if i < n {
      assert slots[..n][..i] == slots[..i];
      FlattenAt(slots[..n], i);
    }
  }

  lemma {:induction false} FlattenFromSame(slots: seq<Slot>, t: seq<Slot>, i: nat)
    requires i <= |slots| == |t| && forall j :: i <= j < |t| ==> t[j] == slots[j]
    ensures FlattenFrom(t, i) == FlattenFrom(slots, i)
  {
    if i < |t| {
      var n := |t| - 1;
      FlattenFromSame(slots[..n], t[..n], i);
    }
  }

  function FlattenFrom(slots: seq<Slot>, i: nat): (r: seq<Packet>)
    requires i <= |slots|
  {
    if |slots| == i then [] else FlattenFrom(slots[..|slots| - 1], i) + slots[|slots| - 1].chain
  }

  lemma {:induction false} FlattenFromNone(slots: seq<Slot>, i: nat, k: Key, q: Packet -> bool)
    requires i <= |slots| && PicksFlow(q, k)
    requires forall j, p :: i <= j < |slots| && p in slots[j].chain ==> p.key != k
    ensures Filter(FlattenFrom(slots, i), q) == []
  {
    if |slots| > i {
      var s := slots[..|slots| - 1];
      FlattenFromNone(s, i, k, q);
      var c := slots[|slots| - 1].chain;
      FilterNone(c, q);
      FilterConcat(FlattenFrom(s, i), c, q);
    }
  }

  /** A packet joins the first slot it matches. */
  lemma JoinKeepsSlots(cfg: Config, slots: seq<Slot>, i: nat, p: Packet)
    requires SlotsOk(cfg, slots) && i < |slots| && Searched(cfg, p) && !p.brcm && Matches(p, slots[i].key)
    requires forall j :: 0 <= j < i ==> !Matches(p, slots[j].key)
    ensures SlotsOk(cfg, slots[i := Slot(slots[i].key, slots[i].chain + [p])])
  {
    hide Searched;
    var t := slots[i := Slot(slots[i].key, slots[i].chain + [p])];
    forall j | 0 <= j < |t| ensures SlotOk(cfg, t, j) {
      assert SlotOk(cfg, slots, j);
    }
  }

  /** q picks packets of flow k only. */
  ghost predicate PicksFlow(q: Packet -> bool, k: Key) {
    forall x :: q(x) ==> x.key == k
  }

  lemma JoinOrder(cfg: Config, slots: seq<Slot>, loose: seq<Packet>, i: nat, p: Packet, k: Key, q: Packet -> bool)
    requires SlotsOk(cfg, slots) && i < |slots| && p.key == slots[i].key && PicksFlow(q, k)
    requires q(p) ==> Filter(loose, q) == []
    ensures Filter(Flatten(slots[i := Slot(slots[i].key, slots[i].chain + [p])]) + loose, q)
         == Filter(Flatten(slots) + loose, q) + if q(p) then [p] else []
  {
    var c := slots[i].chain;
    var pre, post := Flatten(slots[..i]), FlattenFrom(slots, i + 1);
    FlattenUpdate(slots, i, c + [p]);
    if q(p) {
      LaterSlotsEmpty(cfg, slots, i, k, q);
    }
    hide *;
    FilterInsert(pre, c, post, loose, p, q);
  }

  lemma LaterSlotsEmpty(cfg: Config, slots: seq<Slot>, i: nat, k: Key, q: Packet -> bool)
    requires SlotsOk(cfg, slots) && i < |slots| && slots[i].key == k && PicksFlow(q, k)
    ensures Filter(FlattenFrom(slots, i + 1), q) == []
  {
    forall j, p | i + 1 <= j < |slots| && p in slots[j].chain ensures p.key != k {
      assert SlotOk(cfg, slots, j);
    }
    hide SlotsOk, FlattenFrom;
    FlattenFromNone(slots, i + 1, k, q);
  }

  lemma ChainStep(cfg: Config, slots: seq<Slot>, loose: seq<Packet>, i: nat, p: Packet, k: Key)
    requires SlotsOk(cfg, slots) && i < |slots| && Searched(cfg, p) && !p.brcm && Matches(p, slots[i].key)
    requires forall j :: 0 <= j < i ==> !Matches(p, slots[j].key)
    requires LooseOk(cfg, Rx(slots, false, loose), k)
    ensures var r := Chain(cfg, slots, loose, i, p);
            && SlotsOk(cfg, r.slots) && LooseOk(cfg, r, k)
            && Filter(Delivered(r), Eligible(cfg.skip, k))
            == Filter(Delivered(Rx(slots, false, loose)), Eligible(cfg.skip, k)) + if Eligible(cfg.skip, k)(p) then [p] else []
  {
    var r := Chain(cfg, slots, loose, i, p);
    JoinKeepsSlots(cfg, slots, i, p);
    assert r.slots[i].key == slots[i].key;
    assert NoSlot(slots, k) ==> NoSlot(r.slots, k);
    JoinOrder(cfg, slots, loose, i, p, k, Eligible(cfg.skip, k));
  }

  lemma LooseStep(cfg: Config, st: Rx, slots: seq<Slot>, p: Packet, k: Key)
    requires LooseOk(cfg, st, k) && Flatten(slots) == Flatten(st.slots)
    requires st.slots <= slots && (|st.slots| == PKTCMC ==> slots == st.slots)
    requires cfg.enabled && Eligible(cfg.skip, k)(p) ==> st.stopped || NoSlot(slots, k)
    ensures var r := Rx(slots, st.stopped, st.loose + [p]);
            && LooseOk(cfg, r, k)
            && Filter(Delivered(r), Eligible(cfg.skip, k))
            == Filter(Delivered(st), Eligible(cfg.skip, k)) + if Eligible(cfg.skip, k)(p) then [p] else []
  {
    var q := Eligible(cfg.skip, k);
    hide Eligible, Flatten;
    FilterAppend(st.loose, p, q);
    assert Flatten(slots) + (st.loose + [p]) == Delivered(st) + [p];
    FilterAppend(Delivered(st), p, q);
  }

  /** One packet: the eligible packets of every flow stay in order. */
  lemma AcceptKeepsOrder(cfg: Config, st: Rx, p: Packet, k: Key)
    requires SlotsOk(cfg, st.slots) && LooseOk(cfg, st, k) && !p.brcm
    ensures var r := Accept(cfg, st, p);
            && SlotsOk(cfg, r.slots) && LooseOk(cfg, r, k)
            && Filter(Delivered(r), Eligible(cfg.skip, k))
            == Filter(Delivered(st), Eligible(cfg.skip, k)) + if Eligible(cfg.skip, k)(p) then [p] else []
  {
    StartedKeeps(cfg, st, p, k);
    var s := Started(st, p);
    SearchKeeps(cfg, s.slots, p);
    var r := Search(s.slots, p);
    hide Started, Search, SlotsOk, Flatten;
    assert LooseOk(cfg, Rx(r.0, s.stopped, s.loose), k);
    if Joins(cfg, s, p) {
      hide Delivered, LooseOk;
      ChainStep(cfg, r.0, s.loose, r.1, p, k);
    } else {
      hide LooseOk;
      LooseStep(cfg, s, if Searched(cfg, p) then r.0 else s.slots, p, k);
    }
  }

  /** A whole call: for every flow, its eligible packets go up in the order in which they came. */
  lemma {:induction false} ProcessKeepsOrder(cfg: Config, a: seq<Packet>, k: Key)
    ensures var r := Process(cfg, EMPTY, a);
            && SlotsOk(cfg, r.slots) && LooseOk(cfg, r, k)
            && Filter(Delivered(r), Eligible(cfg.skip, k)) == Filter(a, Eligible(cfg.skip, k))
  {
    if a == [] {
    } else {
      var n := |a| - 1;
      ProcessKeepsOrder(cfg, a[..n], k);
      assert a == a[..n] + [a[n]];
      FilterAppend(a[..n], a[n], Eligible(cfg.skip, k));
      hide Accept, SlotsOk, Filter, LooseOk, Delivered;
      if !a[n].brcm {
        AcceptKeepsOrder(cfg, Process(cfg, EMPTY, a[..n]), a[n], k);
      }
    }
  }

  // ------------------------------------------------------------------ nothing lost, nothing twice

  lemma JoinConserves(slots: seq<Slot>, i: nat, p: Packet)
    requires i < |slots|
    ensures multiset(Flatten(slots[i := Slot(slots[i].key, slots[i].chain + [p])])) == multiset(Flatten(slots)) + multiset{p}
  {
    FlattenUpdate(slots, i, slots[i].chain + [p]);
  }

  lemma AcceptConserves(cfg: Config, st: Rx, p: Packet)
    requires SlotsOk(cfg, st.slots)
    ensures multiset(Delivered(Accept(cfg, st, p))) == multiset(Delivered(st)) + multiset{p}
  {
    StartedKeeps(cfg, st, p, p.key);
    var s := Started(st, p);
    SearchKeeps(cfg, s.slots, p);
    var r := Search(s.slots, p);
    hide Started, Search, SlotsOk, Flatten, LooseOk, Matches, Searched;
    if Joins(cfg, s, p) {
      JoinConserves(r.0, r.1, p);
      hide Joins;
    } else {
      LooseConserves(Flatten(s.slots), s.loose, p);
      hide Joins;
    }
  }

  lemma LooseConserves(chained: seq<Packet>, loose: seq<Packet>, p: Packet)
    ensures multiset(chained + (loose + [p])) == multiset(chained + loose) + multiset{p}
  {
    assert chained + (loose + [p]) == (chained + loose) + [p];
  }

  /** Every packet the call keeps goes up exactly once. */
  lemma {:induction false} ProcessConserves(cfg: Config, a: seq<Packet>)
    ensures multiset(Delivered(Process(cfg, EMPTY, a))) == multiset(Filter(a, Kept()))
  {
    if a == [] {
    } else {
      var n := |a| - 1;
      ProcessConserves(cfg, a[..n]);
      ProcessKeepsOrder(cfg, a[..n], a[n].key);
      assert a == a[..n] + [a[n]];
      FilterAppend(a[..n], a[n], Kept());
      var st := Process(cfg, EMPTY, a[..n]);
      assert Process(cfg, EMPTY, a) == if a[n].brcm then st else Accept(cfg, st, a[n]);
      assert Kept()(a[n]) <==> !a[n].brcm;
      hide *;
      if !a[n].brcm {
        AcceptConserves(cfg, st, a[n]);
      }
    }
  }

  // ------------------------------------------------------------------ the bounds

  /** No chain is longer than the bound, and chaining has stopped exactly when one is that long. */
  ghost predicate Bounded(cfg: Config, st: Rx) {
    && (forall i :: 0 <= i < |st.slots| ==> |st.slots[i].chain| <= cfg.bound)
    && (st.stopped <==> exists i :: 0 <= i < |st.slots| && |st.slots[i].chain| == cfg.bound)
  }

  lemma AcceptBounded(cfg: Config, st: Rx, p: Packet)
    requires cfg.bound > 0 && |st.slots| <= PKTCMC && Bounded(cfg, st)
    ensures Bounded(cfg, Accept(cfg, st, p))
  {
    var s := Started(st, p);
    var r := Accept(cfg, st, p);
    var m := Search(s.slots, p);
    assert forall i :: 0 <= i < |m.0| ==> m.0[i].chain == if i < |st.slots| then st.slots[i].chain else [];
    if Joins(cfg, s, p) {
      assert r.slots[m.1].chain == m.0[m.1].chain + [p];
    }
    forall i | 0 <= i < |st.slots| && |st.slots[i].chain| == cfg.bound ensures |r.slots[i].chain| == cfg.bound {
    }
  }

  lemma {:induction false} ProcessBounded(cfg: Config, a: seq<Packet>)
    requires cfg.bound > 0
    ensures Bounded(cfg, Process(cfg, EMPTY, a))
  {
    if a != [] {
      hide Accept, Bounded;
      ProcessBounded(cfg, a[..|a| - 1]);
      if !a[|a| - 1].brcm {
        AcceptBounded(cfg, Process(cfg, EMPTY, a[..|a| - 1]), a[|a| - 1]);
      }
    } else {
    }
  }

  /** A packet that may not be chained but is looked for takes every slot that is left. */
  lemma UnfitTakesAllSlots(cfg: Config, st: Rx, p: Packet)
    requires |st.slots| <= PKTCMC && Searched(cfg, p) && !p.fit
    ensures var r := Accept(cfg, st, p);
            && |r.slots| == PKTCMC && r.loose == st.loose + [p]
            && forall i :: |st.slots| <= i < PKTCMC ==> r.slots[i] == Slot(p.key, [])
  {
  }

  /** Once all slots are taken their keys never change: a flow without a slot is not chained any
      more in this call. */
  lemma {:induction false} FullStaysFull(cfg: Config, st: Rx, a: seq<Packet>, k: Key)
    requires NoSlot(st.slots, k)
    ensures var r := Process(cfg, st, a);
            && NoSlot(r.slots, k)
            && (forall p :: p in r.loose <== p in a && !p.brcm && p.key == k)
  {
    if a != [] {
      var n := |a| - 1;
      FullStaysFull(cfg, st, a[..n], k);
      FullStep(cfg, Process(cfg, st, a[..n]), a[n], k);
      assert a == a[..n] + [a[n]];
    }
  }

  /** So one packet that is looked for but may not be chained ends chaining for every flow that has no
      slot by then: whatever else the call takes, their packets go up unchained. */
  lemma UnfitStopsChaining(cfg: Config, st: Rx, u: Packet, a: seq<Packet>, k: Key)
    requires |st.slots| <= PKTCMC && Searched(cfg, u) && !u.fit && k != u.key
    requires forall i :: 0 <= i < |st.slots| ==> st.slots[i].key != k
    ensures forall p :: p in a && !p.brcm && p.key == k ==> p in Process(cfg, Accept(cfg, st, u), a).loose
  {
    UnfitTakesAllSlots(cfg, st, u);
    UnfitKeepsSlots(cfg, st, u);
    hide Accept, Process;
    FullStaysFull(cfg, Accept(cfg, st, u), a, k);
  }

  lemma UnfitKeepsSlots(cfg: Config, st: Rx, u: Packet)
    requires |st.slots| <= PKTCMC && Searched(cfg, u) && !u.fit
    ensures st.slots <= Accept(cfg, st, u).slots
  {
  }

  lemma FullStep(cfg: Config, st: Rx, p: Packet, k: Key)
    requires NoSlot(st.slots, k)
    ensures var r := Accept(cfg, st, p);
            NoSlot(r.slots, k) && st.loose <= r.loose && (p.key == k ==> r.loose == st.loose + [p])
  {
  }

  // ------------------------------------------------------------------ packets that are not eligible

  function OfFlow(k: Key): Packet -> bool {
    (p: Packet) => !p.brcm && p.key == k
  }

  /** p joins a chain while another packet of its flow waits among the unchained ones. */
  predicate Overtakes(cfg: Config, st: Rx, p: Packet, k: Key)
    requires |st.slots| <= PKTCMC
  {
    !p.brcm && p.key == k && Joins(cfg, Started(st, p), p) && Filter(st.loose, OfFlow(k)) != []
  }

  predicate SomeOvertakes(cfg: Config, a: seq<Packet>, k: Key) {
    exists n :: 0 <= n < |a| && Overtakes(cfg, Process(cfg, EMPTY, a[..n]), a[n], k)
  }

  /** p joins a chain exactly when it is eligible, no chain is full, and its flow has a slot or
      there is a slot left. */
  lemma JoinsWhen(cfg: Config, st: Rx, p: Packet)
    requires 0 < |st.slots| <= PKTCMC
    ensures Joins(cfg, st, p) <==>
            Searched(cfg, p) && p.fit && !st.stopped && !NoSlot(st.slots, p.key)
  {
  }

  /** The unchained packets of p's flow cannot be eligible when p joins a chain. */
  lemma WaitingUnfit(cfg: Config, st: Rx, p: Packet, k: Key)
    requires LooseOk(cfg, st, k) && |st.slots| <= PKTCMC && Joins(cfg, Started(st, p), p) && p.key == k
    ensures forall x :: x in st.loose ==> !Eligible(cfg.skip, k)(x)
  {
    JoinsWhen(cfg, Started(st, p), p);
    hide Joins, Eligible;
  }

  function OneIf(b: bool, p: Packet): seq<Packet> {
    if b then [p] else []
  }

  lemma JoinStep(cfg: Config, slots: seq<Slot>, loose: seq<Packet>, i: nat, p: Packet, k: Key)
    requires SlotsOk(cfg, slots) && i < |slots| && p.key == slots[i].key
    ensures var r := Chain(cfg, slots, loose, i, p);
            && Filter(Flatten(r.slots), OfFlow(k)) == Filter(Flatten(slots), OfFlow(k)) + OneIf(OfFlow(k)(p), p)
            && ((OfFlow(k)(p) ==> Filter(loose, OfFlow(k)) == []) ==>
                  (Filter(Flatten(r.slots) + loose, OfFlow(k))
                   == Filter(Flatten(slots) + loose, OfFlow(k)) + OneIf(OfFlow(k)(p), p)))
  {
    hide SlotsOk, Flatten;
    var q := OfFlow(k);
    var t := slots[i := Slot(slots[i].key, slots[i].chain + [p])];
    assert Flatten(t) + [] == Flatten(t) && Flatten(slots) + [] == Flatten(slots);
    JoinOrder(cfg, slots, [], i, p, k, q);
    hide Filter;
    if q(p) ==> Filter(loose, q) == [] {
      JoinOrder(cfg, slots, loose, i, p, k, q);
    }
  }

  /** What one packet does to the chained and to all packets of a flow. */
  lemma AcceptStep(cfg: Config, st: Rx, p: Packet, k: Key)
    requires SlotsOk(cfg, st.slots)
    ensures var r := Accept(cfg, st, p);
            && Filter(Flatten(r.slots), OfFlow(k))
            == Filter(Flatten(st.slots), OfFlow(k)) + OneIf(OfFlow(k)(p) && Joins(cfg, Started(st, p), p), p)
            && (!Overtakes(cfg, st, p, k)
                ==> Filter(Delivered(r), OfFlow(k)) == Filter(Delivered(st), OfFlow(k)) + OneIf(OfFlow(k)(p), p))
  {
    StartedKeeps(cfg, st, p, k);
    var s := Started(st, p);
    SearchKeeps(cfg, s.slots, p);
    var r := Search(s.slots, p);
    hide Started, Search, SlotsOk, Flatten, LooseOk, Filter;
    if Joins(cfg, s, p) {
      JoinStep(cfg, r.0, s.loose, r.1, p, k);
    } else {
      assert Flatten(s.slots) + (s.loose + [p]) == Delivered(st) + [p];
      FilterAppend(Delivered(st), p, OfFlow(k));
    }
  }

  /** A flow is out of order for good: one of its packets that may not be chained stands at a
      place where a chained one goes up. */
  ghost predicate Disordered(cfg: Config, st: Rx, a: seq<Packet>, k: Key) {
    var c, b := Filter(Flatten(st.slots), OfFlow(k)), Filter(a, OfFlow(k));
    exists x :: 0 <= x < |c| && x < |b| && !Eligible(cfg.skip, k)(b[x])
  }

  lemma {:induction false} ChainedEligible(cfg: Config, slots: seq<Slot>, n: nat, p: Packet)
    requires SlotsOk(cfg, slots) && n <= |slots| && p in Flatten(slots[..n])
    ensures Eligible(cfg.skip, p.key)(p)
    decreases n
  {
    if p in slots[n - 1].chain {
      assert SlotOk(cfg, slots, n - 1);
    } else {
      assert slots[..n][..n - 1] == slots[..n - 1];
      ChainedEligible(cfg, slots, n - 1, p);
    }
  }

  lemma DisorderedShows(cfg: Config, st: Rx, a: seq<Packet>, k: Key)
    requires SlotsOk(cfg, st.slots) && Disordered(cfg, st, a, k)
    ensures Filter(Delivered(st), OfFlow(k)) != Filter(a, OfFlow(k))
  {
    hide Eligible, OfFlow, SlotsOk, Flatten;
    var q := OfFlow(k);
    var c, b := Filter(Flatten(st.slots), q), Filter(a, q);
    var x :| 0 <= x < |c| && x < |b| && !Eligible(cfg.skip, k)(b[x]);
    FilterConcat(Flatten(st.slots), st.loose, q);
    assert c[x] in c;
    hide Filter;
    assert st.slots[..|st.slots|] == st.slots;
    ChainedEligible(cfg, st.slots, |st.slots|, c[x]);
    assert c[x].key == k by { KeyOf(c[x], k); }
  }

  lemma KeyOf(p: Packet, k: Key)
    requires OfFlow(k)(p)
    ensures p.key == k
  {
  }

  /** The moment of overtaking: the first unchained packet of the flow loses its place. */
  lemma OvertakingDisorders(cfg: Config, st: Rx, a: seq<Packet>, p: Packet, k: Key)
    requires SlotsOk(cfg, st.slots) && LooseOk(cfg, st, k) && Overtakes(cfg, st, p, k)
    requires Filter(Delivered(st), OfFlow(k)) == Filter(a, OfFlow(k))
    ensures Disordered(cfg, Accept(cfg, st, p), a + [p], k)
  {
    var q := OfFlow(k);
    var c, l := Filter(Flatten(st.slots), q), Filter(st.loose, q);
    FirstWaiting(cfg, st, p, k);
    AcceptStep(cfg, st, p, k);
    FilterConcat(Flatten(st.slots), st.loose, q);
    FilterAppend(a, p, q);
    assert Filter(Delivered(st), q) == c + l;
    hide Flatten, Filter, Eligible, Accept, Joins, Started, Disordered, Delivered, SlotOk, LooseOk, Overtakes, SlotsOk;
    var b := Filter(a + [p], q);
    assert b == (c + l) + [p] && b[|c|] == l[0];
    assert |Filter(Flatten(Accept(cfg, st, p).slots), q)| == |c| + 1;
    DisorderedAt(cfg, Accept(cfg, st, p), a + [p], k, |c|);
  }

  lemma FirstWaiting(cfg: Config, st: Rx, p: Packet, k: Key)
    requires SlotsOk(cfg, st.slots) && LooseOk(cfg, st, k) && Overtakes(cfg, st, p, k)
    ensures OfFlow(k)(p) && Joins(cfg, Started(st, p), p)
    ensures var l := Filter(st.loose, OfFlow(k)); l != [] && !Eligible(cfg.skip, k)(l[0])
  {
    WaitingUnfit(cfg, st, p, k);
    var l := Filter(st.loose, OfFlow(k));
    assert l != [] && l[0] in l && l[0] in st.loose;
  }

  lemma DisorderedAt(cfg: Config, st: Rx, a: seq<Packet>, k: Key, x: nat)
    requires x < |Filter(Flatten(st.slots), OfFlow(k))| && x < |Filter(a, OfFlow(k))|
    requires !Eligible(cfg.skip, k)(Filter(a, OfFlow(k))[x])
    ensures Disordered(cfg, st, a, k)
  {
    hide Flatten, Filter, Eligible, OfFlow;
  }

  lemma DisorderStays(cfg: Config, st: Rx, a: seq<Packet>, p: Packet, k: Key)
    requires SlotsOk(cfg, st.slots) && Disordered(cfg, st, a, k)
    ensures Disordered(cfg, st, a + [p], k)
    ensures !p.brcm ==> Disordered(cfg, Accept(cfg, st, p), a + [p], k)
  {
    hide Flatten, Filter, Eligible, OfFlow, Accept, Joins, Started, Disordered, Delivered, SlotOk, Overtakes;
    var x := DisorderPlace(cfg, st, a, k);
    AcceptStep(cfg, st, p, k);
    FilterAppend(a, p, OfFlow(k));
    assert Filter(a + [p], OfFlow(k))[x] == Filter(a, OfFlow(k))[x];
    DisorderedAt(cfg, st, a + [p], k, x);
    DisorderedAt(cfg, Accept(cfg, st, p), a + [p], k, x);
  }

  lemma DisorderPlace(cfg: Config, st: Rx, a: seq<Packet>, k: Key) returns (x: nat)
    requires Disordered(cfg, st, a, k)
    ensures x < |Filter(Flatten(st.slots), OfFlow(k))| && x < |Filter(a, OfFlow(k))|
    ensures !Eligible(cfg.skip, k)(Filter(a, OfFlow(k))[x])
  {
    hide Flatten, Filter, Eligible, OfFlow;
    x :| 0 <= x < |Filter(Flatten(st.slots), OfFlow(k))| && x < |Filter(a, OfFlow(k))|
         && !Eligible(cfg.skip, k)(Filter(a, OfFlow(k))[x]);
  }

  lemma SomeOvertakesStep(cfg: Config, a: seq<Packet>, p: Packet, k: Key)
    ensures SomeOvertakes(cfg, a + [p], k) <==>
            SomeOvertakes(cfg, a, k) || Overtakes(cfg, Process(cfg, EMPTY, a), p, k)
  {
    hide Process, Overtakes;
    var b := a + [p];
    forall n | 0 <= n < |a| ensures b[..n] == a[..n] {
    }
    assert b[..|a|] == a;
    if SomeOvertakes(cfg, a, k) {
      var n :| 0 <= n < |a| && Overtakes(cfg, Process(cfg, EMPTY, a[..n]), a[n], k);
      assert Overtakes(cfg, Process(cfg, EMPTY, b[..n]), b[n], k);
    }
    if Overtakes(cfg, Process(cfg, EMPTY, a), p, k) {
      assert Overtakes(cfg, Process(cfg, EMPTY, b[..|a|]), b[|a|], k);
    }
  }

  ghost predicate OrderOrDisorder(cfg: Config, a: seq<Packet>, k: Key) {
    var r := Process(cfg, EMPTY, a);
    if SomeOvertakes(cfg, a, k) then Disordered(cfg, r, a, k)
    else Filter(Delivered(r), OfFlow(k)) == Filter(a, OfFlow(k))
  }

  lemma OrderStep(cfg: Config, a: seq<Packet>, p: Packet, k: Key)
    requires OrderOrDisorder(cfg, a, k)
    ensures OrderOrDisorder(cfg, a + [p], k)
  {
    var st := Process(cfg, EMPTY, a);
    ProcessKeepsOrder(cfg, a, k);
    SomeOvertakesStep(cfg, a, p, k);
    FilterAppend(a, p, OfFlow(k));
    assert (a + [p])[..|a|] == a;
    assert Process(cfg, EMPTY, a + [p]) == if p.brcm then st else Accept(cfg, st, p);
    hide Accept, SlotsOk, LooseOk, Disordered, Process, Joins, SomeOvertakes, Filter, Delivered;
    if SomeOvertakes(cfg, a, k) {
      DisorderStays(cfg, st, a, p, k);
    } else if Overtakes(cfg, st, p, k) {
      OvertakingDisorders(cfg, st, a, p, k);
    } else if !p.brcm {
      AcceptStep(cfg, st, p, k);
    }
  }

  lemma {:induction false} OrderOrDisorderAlways(cfg: Config, a: seq<Packet>, k: Key)
    ensures OrderOrDisorder(cfg, a, k)
  {
    if a == [] {
    } else {
      var n := |a| - 1;
      OrderOrDisorderAlways(cfg, a[..n], k);
      hide OrderOrDisorder;
      OrderStep(cfg, a[..n], a[n], k);
      assert a == a[..n] + [a[n]];
    }
  }

  /** All packets of a flow go up in the order in which they came exactly when none of them joins
      a chain while an earlier one waits among the unchained. */
  lemma OrderIff(cfg: Config, a: seq<Packet>, k: Key)
    ensures Filter(Delivered(Process(cfg, EMPTY, a)), OfFlow(k)) == Filter(a, OfFlow(k))
       <==> !SomeOvertakes(cfg, a, k)
  {
    OrderOrDisorderAlways(cfg, a, k);
    ProcessKeepsOrder(cfg, a, k);
    hide Process, Disordered, SomeOvertakes, SlotsOk, LooseOk, Delivered, Filter;
    if SomeOvertakes(cfg, a, k) {
      DisorderedShows(cfg, Process(cfg, EMPTY, a), a, k);
    }
  }

  /** Not every packet keeps its place: a packet that may not be chained is overtaken by the next
      one of its flow that may. */
  lemma UnfitIsOvertaken(cfg: Config, u: Packet, f: Packet)
    requires cfg.enabled && !u.brcm && !u.fit && Eligible(cfg.skip, u.key)(f)
    ensures Delivered(Process(cfg, EMPTY, [u, f])) == [f, u]
  {
    var a := [u, f];
    assert a[..1] == [u] && [u][..0] == [];
    assert Process(cfg, EMPTY, []) == EMPTY;
    var st := Process(cfg, EMPTY, [u]);
    assert st == Accept(cfg, EMPTY, u);
    hide Process, Flatten;
    UnfitFirst(cfg, u, f);
    var more := |st.slots| - 1;
    FlattenCopies([Slot(u.key, [f])], u.key, more);
    assert Flatten([Slot(u.key, [f])]) == [f] by { FlattenOne(Slot(u.key, [f])); }
  }

  lemma FlattenOne(s: Slot)
    ensures Flatten([s]) == s.chain
  {
    assert [s][..0] == [];
  }

  lemma UnfitFirst(cfg: Config, u: Packet, f: Packet)
    requires cfg.enabled && !u.brcm && !u.fit && Eligible(cfg.skip, u.key)(f)
    ensures var st := Accept(cfg, EMPTY, u);
            && |st.slots| > 0
            && Accept(cfg, st, f).slots == [Slot(u.key, [f])] + Copies(u.key, |st.slots| - 1)
            && Accept(cfg, st, f).loose == [u]
  {
    var st := Accept(cfg, EMPTY, u);
    assert st.slots[0] == Slot(u.key, []) && st.loose == [u] && !st.stopped;
    assert FirstMatch(st.slots, f) == 0 && [] + [f] == [f];
  }

  // ------------------------------------------------------------------ one call

  /** How much of the ring one call takes: until it has kept as many packets as the quota allows. */
  function Reach(ring: seq<Packet>, left: nat): (n: nat)
    requires left > 0
    ensures n <= |ring|
  {
    if ring == [] then 0
    else if ring[0].brcm then 1 + Reach(ring[1..], left)
    else if left == 1 then 1
    else 1 + Reach(ring[1..], left - 1)
  }

  /** The packets kept of the first n on the ring. */
  function KeptOf(ring: seq<Packet>, n: nat): seq<Packet>
    requires n <= |ring|
  {
    Filter(ring[..n], Kept())
  }

  /** A call keeps at most its quota, and stops short of it only when the ring is empty. */
  lemma {:induction false} ReachQuota(ring: seq<Packet>, left: nat)
    requires left > 0
    ensures var n := Reach(ring, left);
            |KeptOf(ring, n)| <= left && (|KeptOf(ring, n)| < left ==> n == |ring|)
  {
    hide KeptOf;
    if ring == [] {
      KeptNone(ring);
    } else {
      KeptOfTake(ring, Reach(ring, left));
      if ring[0].brcm {
        ReachQuota(ring[1..], left);
      } else if left > 1 {
        ReachQuota(ring[1..], left - 1);
      } else {
        KeptNone(ring[1..]);
      }
    }
  }

  lemma KeptNone(ring: seq<Packet>)
    ensures KeptOf(ring, 0) == []
  {
  }

  lemma KeptOfTake(ring: seq<Packet>, n: nat)
    requires 0 < n <= |ring|
    ensures |KeptOf(ring, n)| == (if ring[0].brcm then 0 else 1) + |KeptOf(ring[1..], n - 1)|
  {
    assert ring[..n] == [ring[0]] + ring[1..][..n - 1];
    FilterOne(ring[0]);
    hide Filter, Kept;
    FilterConcat([ring[0]], ring[1..][..n - 1], Kept());
  }

  lemma FilterOne(p: Packet)
    ensures Filter([p], Kept()) == if p.brcm then [] else [p]
  {
    FilterAppend([], p, Kept());
    assert [] + [p] == [p];
  }

  function Max(a: nat, b: nat): nat {
    if a < b then b else a
  }

  /** The packets the call takes off the ring. */
  function Taken(ring: seq<Packet>, quota: nat): (n: nat)
    ensures n <= |ring|
  {
    Reach(ring, Max(quota, 1))
  }

  /** What goes up together: a chain, or one packet. */
  datatype HandUp = ChainUp(chain: seq<Packet>) | SkbUp(p: Packet)

  function ChainUps(slots: seq<Slot>): (r: seq<HandUp>)
  {
    if slots == [] then []
    else
      var c := slots[|slots| - 1].chain;
      ChainUps(slots[..|slots| - 1]) + if c == [] then [] else [ChainUp(c)]
  }

  function SkbUps(loose: seq<Packet>): (r: seq<HandUp>)
    ensures |r| == |loose| && forall i :: 0 <= i < |r| ==> r[i] == SkbUp(loose[i])
  {
    seq(|loose|, i requires 0 <= i < |loose| => SkbUp(loose[i]))
  }

  function HandUps(st: Rx): seq<HandUp> {
    ChainUps(st.slots) + SkbUps(st.loose)
  }

  function Members(u: HandUp): seq<Packet> {
    match u case ChainUp(c) => c case SkbUp(p) => [p]
  }

  /** The packets in the order in which they are handed up. */
  function Flat(ups: seq<HandUp>): seq<Packet> {
    if ups == [] then []
    else Flat(ups[..|ups| - 1]) + Members(ups[|ups| - 1])
  }

  lemma FlatAppend(a: seq<HandUp>, u: HandUp)
    ensures Flat(a + [u]) == Flat(a) + Members(u)
  {
    assert (a + [u])[..|a|] == a;
  }

  lemma {:induction false} FlatConcat(a: seq<HandUp>, b: seq<HandUp>)
    ensures Flat(a + b) == Flat(a) + Flat(b)
  {
    if b == [] {
      assert a + b == a;
    } else {
      var c, u := b[..|b| - 1], b[|b| - 1];
      assert b == c + [u] && a + b == (a + c) + [u];
      hide Flat;
      FlatConcat(a, c);
      FlatAppend(c, u);
      FlatAppend(a + c, u);
    }
  }

  lemma {:induction false} FlatChains(slots: seq<Slot>)
    ensures Flat(ChainUps(slots)) == Flatten(slots)
  {
    if slots != [] {
      var n := |slots| - 1;
      FlatChains(slots[..n]);
      var c := slots[n].chain;
      if c != [] {
        var u := ChainUps(slots[..n]);
        assert (u + [ChainUp(c)])[..|u|] == u;
      } else {
        assert ChainUps(slots) == ChainUps(slots[..n]);
      }
    }
  }

  lemma {:induction false} FlatSkbs(loose: seq<Packet>)
    ensures Flat(SkbUps(loose)) == loose
  {
    if loose != [] {
      var n := |loose| - 1;
      FlatSkbs(loose[..n]);
      assert SkbUps(loose)[..n] == SkbUps(loose[..n]);
    }
  }

  lemma FlatIsDelivered(st: Rx)
    ensures Flat(HandUps(st)) == Delivered(st)
  {
    FlatChains(st.slots);
    FlatSkbs(st.loose);
    FlatConcat(ChainUps(st.slots), SkbUps(st.loose));
  }

  /** The assertion et_sendup_chain makes about the length of every chain it is given. */
  lemma ChainSizes(cfg: Config, a: seq<Packet>, u: HandUp)
    requires cfg.bound > 0 && u in HandUps(Process(cfg, EMPTY, a)) && u.ChainUp?
    ensures 0 < |u.chain| <= cfg.bound
    ensures forall p :: p in u.chain ==> p.key == u.chain[0].key && p.fit && Searched(cfg, p)
  {
    var st := Process(cfg, EMPTY, a);
    ProcessBounded(cfg, a);
    ProcessKeepsOrder(cfg, a, Key(0, 0, 0));
    hide Process, Flatten, LooseOk, Delivered;
    var i := ChainFrom(st.slots, u);
    assert SlotOk(cfg, st.slots, i);
  }

  lemma {:induction false} ChainFrom(slots: seq<Slot>, u: HandUp) returns (i: nat)
    requires u.ChainUp? && u in ChainUps(slots)
    ensures i < |slots| && u.chain == slots[i].chain != []
  {
    var n := |slots| - 1;
    if u in ChainUps(slots[..n]) {
      i := ChainFrom(slots[..n], u);
    } else {
      i := n;
    }
  }

  // ------------------------------------------------------------------ many calls

  /** The ring and everything that has been handed up. */
  datatype Receiver = Receiver(ring: seq<Packet>, up: seq<HandUp>)

  /** A frame arrives, or et_rxevent is called. */
  datatype RxEvent = Arrive(p: Packet) | Poll(enabled: bool, quota: nat)

  function Step(skip: bool, bound: nat, s: Receiver, e: RxEvent): Receiver {
    match e
    case Arrive(p) => s.(ring := s.ring + [p])
    case Poll(enabled, quota) =>
      var n := Taken(s.ring, quota);
      Receiver(s.ring[n..], s.up + HandUps(Process(Config(enabled, skip, bound), EMPTY, s.ring[..n])))
  }

  function Run(skip: bool, bound: nat, es: seq<RxEvent>): Receiver {
    if es == [] then Receiver([], [])
    else Step(skip, bound, Run(skip, bound, es[..|es| - 1]), es[|es| - 1])
  }

  function Arrivals(es: seq<RxEvent>): seq<Packet> {
    if es == [] then []
    else Arrivals(es[..|es| - 1]) + match es[|es| - 1] case Arrive(p) => [p] case Poll(_, _) => []
  }

  /** The eligible packets of a flow: what has gone up, then what is on the ring. */
  ghost function Line(skip: bool, s: Receiver, k: Key): seq<Packet> {
    Filter(Flat(s.up), Eligible(skip, k)) + Filter(s.ring, Eligible(skip, k))
  }

  lemma PollKeepsLine(cfg: Config, s: Receiver, n: nat, k: Key)
    requires n <= |s.ring|
    ensures Line(cfg.skip, Receiver(s.ring[n..], s.up + HandUps(Process(cfg, EMPTY, s.ring[..n]))), k)
         == Line(cfg.skip, s, k)
  {
    var a, b := s.ring[..n], s.ring[n..];
    assert a + b == s.ring;
    var st := Process(cfg, EMPTY, a);
    ProcessKeepsOrder(cfg, a, k);
    FlatIsDelivered(st);
    FlatConcat(s.up, HandUps(st));
    hide Process, SlotsOk, LooseOk, Delivered, Eligible, HandUps, Flat, Filter;
    FilterMove(Flat(s.up), Flat(HandUps(st)), a, b, Eligible(cfg.skip, k));
  }

  lemma ArriveKeepsLine(skip: bool, s: Receiver, p: Packet, k: Key)
    ensures Line(skip, s.(ring := s.ring + [p]), k) == Line(skip, s, k) + OneIf(Eligible(skip, k)(p), p)
  {
    hide Flat, Filter, Eligible;
    FilterAppend(s.ring, p, Eligible(skip, k));
  }

  /** Every run of arrivals and calls: what has gone up of a flow's eligible packets, followed by
      what is still on the ring, is what arrived, in order. */
  lemma {:induction false} RunKeepsOrder(skip: bool, bound: nat, es: seq<RxEvent>, k: Key)
    ensures Line(skip, Run(skip, bound, es), k) == Filter(Arrivals(es), Eligible(skip, k))
  {
    hide Line, Process, Eligible, Filter, HandUps;
    if es == [] {
      EmptyLine(skip, k);
    } else {
      var n := |es| - 1;
      RunKeepsOrder(skip, bound, es[..n], k);
      var s := Run(skip, bound, es[..n]);
      match es[n] {
        case Arrive(p) =>
          ArriveKeepsLine(skip, s, p, k);
          FilterAppend(Arrivals(es[..n]), p, Eligible(skip, k));
        case Poll(enabled, quota) =>
          PollKeepsLine(Config(enabled, skip, bound), s, Taken(s.ring, quota), k);
          assert Arrivals(es) == Arrivals(es[..n]);
      }
    }
  }

  lemma EmptyLine(skip: bool, k: Key)
    ensures Line(skip, Receiver([], []), k) == [] == Filter([], Eligible(skip, k))
  {
  }

  /** What has gone up and what will be kept of the ring. */
  ghost function Stock(s: Receiver): multiset<Packet> {
    multiset(Flat(s.up)) + multiset(Filter(s.ring, Kept()))
  }

  lemma PollKeepsStock(cfg: Config, s: Receiver, n: nat)
    requires n <= |s.ring|
    ensures Stock(Receiver(s.ring[n..], s.up + HandUps(Process(cfg, EMPTY, s.ring[..n])))) == Stock(s)
  {
    var a, b := s.ring[..n], s.ring[n..];
    assert a + b == s.ring;
    var st := Process(cfg, EMPTY, a);
    ProcessConserves(cfg, a);
    FlatIsDelivered(st);
    hide Process, Delivered, HandUps, Flat, Filter, Kept;
    FlatConcat(s.up, HandUps(st));
    FilterConcat(a, b, Kept());
  }

  lemma ArriveKeepsStock(s: Receiver, p: Packet)
    ensures Stock(s.(ring := s.ring + [p])) == Stock(s) + multiset(OneIf(Kept()(p), p))
  {
    hide Flat, Filter, Kept;
    FilterAppend(s.ring, p, Kept());
  }

  /** Every run: each frame that arrived and is no management frame has gone up exactly once or is
      still on the ring. */
  lemma {:induction false} RunConserves(skip: bool, bound: nat, es: seq<RxEvent>)
    ensures Stock(Run(skip, bound, es)) == multiset(Filter(Arrivals(es), Kept()))
  {
    if es == [] {
    } else {
      var n := |es| - 1;
      RunConserves(skip, bound, es[..n]);
      var s := Run(skip, bound, es[..n]);
      hide Stock, Process, Kept, Filter, HandUps;
      match es[n] {
        case Arrive(p) =>
          ArriveKeepsStock(s, p);
          FilterAppend(Arrivals(es[..n]), p, Kept());
        case Poll(enabled, quota) =>
          PollKeepsStock(Config(enabled, skip, bound), s, Taken(s.ring, quota));
          assert Arrivals(es) == Arrivals(es[..n]);
      }
    }
  }
}
