/** et_rxevent as it runs: an array of 32 chain descriptors that grows while it is searched, two
    lists, and the loops that take packets off the ring and hand them up.  It is proved to do what
    module RxChain says one call does. */
module RxEngine {
  import opened Filtering
  import opened RxChain

  /** pktc_data_t; an element without an address is not in use. */
  datatype Cd = Unused | Cd(slot: Slot)

  /** cd[0..cidx] are the slots; before the first packet there is none and cidx is 0. */
  ghost predicate CdMatches(cd: array<Cd>, cidx: nat, slots: seq<Slot>)
    reads cd
  {
    && cd.Length == PKTCMC && |slots| <= PKTCMC
    && cidx == (if slots == [] then 0 else |slots| - 1)
    && (forall j :: 0 <= j < |slots| ==> cd[j] == Cd(slots[j]))
    && (forall j :: |slots| <= j < PKTCMC ==> cd[j] == Unused)
  }

  /** What the search loop leaves is what Search says. */
  lemma SearchIs(slots: seq<Slot>, p: Packet, now: seq<Slot>, i: nat)
    requires 0 < |slots| <= |now| <= PKTCMC && now == slots + Copies(p.key, |now| - |slots|)
    requires forall j :: 0 <= j < i && j < |now| ==> !Matches(p, now[j].key)
    requires if i < |now| then Matches(p, now[i].key) && |now| == Max(|slots|, i + 1) else i == |now| == PKTCMC
    ensures Search(slots, p) == (now, i)
  {
    var f := FirstMatch(slots, p);
    if f < |slots| {
      assert now[f] == slots[f];
      assert i == f;
      assert now == slots;
    } else if i < |now| {
      assert now[|slots|] == Slot(p.key, []);
    } else {
      assert p.fit && |slots| < PKTCMC ==> Matches(p, now[|slots|].key);
    }
  }

  /** The search loop.  It opens the next slot whenever the one it looks at does not match and the
      next one is not in use. */
  method SearchSlots(cd: array<Cd>, cidx0: nat, p: Packet, ghost slots: seq<Slot>) returns (i: nat, cidx: nat)
    requires CdMatches(cd, cidx0, slots) && slots != []
    modifies cd
    ensures CdMatches(cd, cidx, Search(slots, p).0) && i == Search(slots, p).1
  {
    i, cidx := 0, cidx0;
    ghost var now := slots;
    while i <= cidx
      invariant i <= cidx + 1 && CdMatches(cd, cidx, now) && |slots| <= |now|
      invariant now == slots + Copies(p.key, |now| - |slots|)
      invariant |now| == Max(|slots|, if i < PKTCMC then i + 1 else PKTCMC)
      invariant forall j :: 0 <= j < i ==> !Matches(p, now[j].key)
      decreases PKTCMC - i
    {
      if Matches(p, cd[i].slot.key) {
        break;
      } else if i + 1 < PKTCMC && cd[i + 1].Unused? {
        cidx := cidx + 1;
        cd[cidx] := Cd(Slot(p.key, []));
        now := now + Copies(p.key, 1);
      }
      i := i + 1;
    }
    SearchIs(slots, p, now, i);
  }

  /** The body of the receive loop for a frame that is kept: it ends up in a chain or on the list
      of unchained packets. */
  method Sort(cfg: Config, p: Packet, cd: array<Cd>, cidx0: nat, stop0: bool, loose0: seq<Packet>, ghost st: Rx)
    returns (cidx: nat, stop: bool, loose: seq<Packet>)
    requires CdMatches(cd, cidx0, st.slots) && st.stopped == stop0 && st.loose == loose0
    modifies cd
    ensures var r := Accept(cfg, st, p);
            CdMatches(cd, cidx, r.slots) && stop == r.stopped && loose == r.loose
  {
    cidx, stop, loose := cidx0, stop0, loose0;
    if cd[0].Unused? {
      cd[0] := Cd(Slot(p.key, []));
    }
    ghost var s := Started(st, p);
    assert CdMatches(cd, cidx, s.slots);
    var chaining := cfg.enabled && (cfg.skip || !p.control);
    var i := 0;
    if chaining {
      i, cidx := SearchSlots(cd, cidx, p, s.slots);
      chaining := i < PKTCMC;
    }
    if chaining && !stop {
      var chain := cd[i].slot.chain + [p];
      cd[i] := Cd(Slot(cd[i].slot.key, chain));
      if |chain| >= cfg.bound {
        stop := true;
      }
    } else {
      loose := loose + [p];
    }
  }

  /** The driver's side of the ring and of the stack above it. */
  class EtRx {
    var ring: seq<Packet>
    var up: seq<HandUp>
    var resched: bool

    /** The loop over cd[] that sends the chains up. */
    method SendChains(cd: array<Cd>, cidx: nat, ghost slots: seq<Slot>)
      requires CdMatches(cd, cidx, slots)
      modifies `up
      ensures up == old(up) + ChainUps(slots)
    {
      var i := 0;
      assert slots[..0] == [];
      while i <= cidx
        invariant i <= cidx + 1
        invariant up == old(up) + ChainUps(slots[..if i < |slots| then i else |slots|])
      {
        if cd[i].Cd? && cd[i].slot.chain != [] {
          up := up + [ChainUp(cd[i].slot.chain)];
        }
        if i < |slots| {
          assert slots[..i + 1][..i] == slots[..i];
        }
        i := i + 1;
      }
      assert slots[..|slots|] == slots;
    }

    /** The loop over the unchained packets. */
    method SendLoose(loose: seq<Packet>)
      modifies `up
      ensures up == old(up) + SkbUps(loose)
    {
      var h := loose;
      ghost var n := 0;
      while h != []
        invariant n <= |loose| && h == loose[n..] && up == old(up) + SkbUps(loose[..n])
        decreases |h|
      {
        up := up + [SkbUp(h[0])];
        h := h[1..];
        assert SkbUps(loose[..n + 1]) == SkbUps(loose[..n]) + [SkbUp(loose[n])];
        n := n + 1;
      }
      assert loose[..n] == loose;
    }

    /** et_rxevent. */
    method RxEvent(cfg: Config, quota: nat) returns (processed: nat)
      modifies this
      ensures var n := Taken(old(ring), quota);
              && ring == old(ring)[n..] && processed == |KeptOf(old(ring), n)|
              && up == old(up) + HandUps(Process(cfg, EMPTY, old(ring)[..n]))
      ensures processed <= Max(quota, 1)
      ensures resched == (old(resched) || processed == Max(quota, 1))
      ensures processed < Max(quota, 1) ==> ring == []
    {
      hide Process, Accept, KeptOf, Reach, Started, Joins, ChainUps, SkbUps, Filter;
      ghost var was := ring;
      var cd := new Cd[PKTCMC](_ => Unused);
      var cidx, stop, loose := 0, false, [];
      processed := 0;
      ghost var n := 0;
      ghost var st := EMPTY;
      ReachQuota(was, Max(quota, 1));
      NothingYet(cfg, was);
      while ring != []
        invariant n <= |was| && ring == was[n..] && st == Process(cfg, EMPTY, was[..n])
        invariant CdMatches(cd, cidx, st.slots) && stop == st.stopped && loose == st.loose
        invariant processed == |KeptOf(was, n)| && processed < Max(quota, 1)
        invariant Taken(was, quota) == n + Reach(ring, Max(quota, 1) - processed)
        invariant up == old(up) && resched == old(resched) && fresh(cd)
        decreases |ring|
      {
        var p := ring[0];
        OneMore(cfg, was, n);
        ReachStep(was, n, Max(quota, 1) - processed);
        ring := ring[1..];
        n := n + 1;
        if p.brcm {
          continue;
        }
        cidx, stop, loose := Sort(cfg, p, cd, cidx, stop, loose, st);
        st := Accept(cfg, st, p);
        processed := processed + 1;
        if processed >= quota {
          resched := true;
          break;
        }
      }
      SendChains(cd, cidx, st.slots);
      SendLoose(loose);
    }
  }

  lemma OneMore(cfg: Config, ring: seq<Packet>, n: nat)
    requires n < |ring|
    ensures var p := ring[n];
            && Process(cfg, EMPTY, ring[..n + 1])
            == (if p.brcm then Process(cfg, EMPTY, ring[..n]) else Accept(cfg, Process(cfg, EMPTY, ring[..n]), p))
            && |KeptOf(ring, n + 1)| == |KeptOf(ring, n)| + if p.brcm then 0 else 1
  {
    assert ring[..n + 1][..n] == ring[..n];
    assert ring[..n + 1] == ring[..n] + [ring[n]];
    FilterAppend(ring[..n], ring[n], Kept());
  }

  lemma NothingYet(cfg: Config, ring: seq<Packet>)
    ensures Process(cfg, EMPTY, ring[..0]) == EMPTY && KeptOf(ring, 0) == [] && ring[0..] == ring
    ensures ring == [] ==> forall left: nat :: left > 0 ==> Reach(ring, left) == 0
  {
  }

  lemma ReachStep(ring: seq<Packet>, n: nat, left: nat)
    requires n < |ring| && left > 0
    ensures ring[n..][1..] == ring[n + 1..]
    ensures Reach(ring[n..], left)
         == if ring[n].brcm then 1 + Reach(ring[n + 1..], left)
            else if left == 1 then 1
            else 1 + Reach(ring[n + 1..], left - 1)
  {
    assert ring[n..][1..] == ring[n + 1..];
  }
}
