/** The transmit functions over the fields they update: an array of queues and an array of packet
    counters.  They are proved to do what module TxQueues says. */
module TxEngine {
  import opened TxQueues

  class EtTx {
    const txq: array<seq<Skb>>
    const txqPktcnt: array<int>
    var txqState: bv8
    var qos: bool
    var stopped: bool

    ghost var taken: seq<seq<Skb>>
    ghost var out: seq<seq<Skb>>
    ghost var sent: seq<Skb>
    ghost var dropped: seq<Skb>
    ghost var refused: seq<Skb>

    ghost function Abs(): Tx
      reads this, txq, txqPktcnt
    {
      Tx(txq[..], txqState, txqPktcnt[..], qos, stopped, taken, out, sent, dropped, refused)
    }

    ghost predicate Valid()
      reads this, txq, txqPktcnt
    {
      txq.Length == NUMTXQ && txqPktcnt.Length == NUMTXQ && txq as object != txqPktcnt as object && Inv(Abs())
    }

    constructor (qos: bool)
      ensures Valid() && Abs() == Init(qos) && fresh(txq) && fresh(txqPktcnt)
    {
      txq := new seq<Skb>[NUMTXQ](_ => []);
      txqPktcnt := new int[NUMTXQ](_ => 0);
      txqState, this.qos, stopped := 0, qos, false;
      taken, out := [[], [], [], []], [[], [], [], []];
      sent, dropped, refused := [], [], [];
      new;
      InitInv(qos);
      assert txq[..] == [[], [], [], []] && txqPktcnt[..] == [0, 0, 0, 0];
    }

    /** et_start, up to where it serves the queues. */
    method EtStart(cfg: Config, skb: Skb)
      requires Valid() && SkbOk(skb)
      modifies `txqState, `taken, `refused, txq, txqPktcnt
      ensures Valid() && Abs() == Start(cfg, old(Abs()), skb)
    {
      StartKeeps(cfg, Abs(), skb);
      hide Inv, SetBit;
      assert txq.Length == NUMTXQ && |taken| == NUMTXQ by { SizesOf(Abs()); }
      var q := 0;
      if qos {
        q := UP2TC[skb.prio];
      }
      if cfg.thresh != 0 && txqPktcnt[q] >= cfg.thresh {
        refused := refused + [skb];
        return;
      }
      txq[q] := txq[q] + [skb];
      txqPktcnt[q] := txqPktcnt[q] + skb.count;
      txqState := SetBit(txqState, q);
      taken := taken[q := taken[q] + [skb]];
    }

    /** et_skb_dequeue; its assertions hold. */
    method DequeueHead(q: nat) returns (skb: Skb)
      requires Valid() && q < NUMTXQ && txq[q] != []
      modifies `out, txq, txqPktcnt
      ensures Valid() && Abs() == Dequeue(old(Abs()), q) && skb == old(txq[q])[0]
    {
      DequeueKeeps(Abs(), q);
      hide Inv;
      assert |out| == NUMTXQ by { SizesOf(Abs()); }
      skb := txq[q][0];
      txq[q] := txq[q][1..];
      assert txqPktcnt[q] > 0;
      txqPktcnt[q] := txqPktcnt[q] - skb.count;
      assert txqPktcnt[q] >= 0;
      out := out[q := out[q] + [skb]];
    }

    /** One turn of the loop of et_sendnext. */
    method ServeOne(priq0: nat, avail: nat) returns (again: bool, priq: nat)
      requires Valid() && priq0 < NUMTXQ
      modifies `txqState, `out, `sent, txq, txqPktcnt
      ensures Valid()
      ensures var l := Peek(old(Abs()), avail);
              && Abs() == Serve(old(Abs()), l) && (again <==> l.Stale? || l.Sent?)
              && priq == if l.Nothing? then priq0 else l.q
    {
      priq := priq0;
      if txqState == 0 {
        return false, priq0;
      }
      ServeKeeps(Abs(), avail);
      PriqIsHighest(txqState);
      priq := Priq(txqState);
      hide Inv, Priq, Bit, ClearBit;
      again := true;
      if txq[priq] == [] {
        txqState := ClearBit(txqState, priq);
      } else if avail < txq[priq][0].desc {
        again := false;
      } else {
        var skb := DequeueHead(priq);
        sent := sent + [skb];
      }
    }

    /** The loop of et_sendnext. */
    method ServeQueues(avail: nat -> nat) returns (priq: nat)
      requires Valid()
      modifies `txqState, `out, `sent, txq, txqPktcnt
      ensures Valid() && priq < NUMTXQ
      ensures var r := SendLoop(old(Abs()), 0, avail, 0); Abs() == r.0 && priq == r.1
    {
      hide Inv, SendLoop, Serve, Entries, BitCount, Peek;
      priq := 0;
      var again, tick := true, 0;
      while again
        invariant Valid() && priq < NUMTXQ
        invariant var r, n := SendLoop(old(Abs()), 0, avail, 0), SendLoop(Abs(), priq, avail, tick);
                  if again then r.0 == n.0 && r.1 == n.1 else r.0 == Abs() && r.1 == priq
        decreases again, Entries(Abs()), BitCount(txqState)
      {
        Unroll(Abs(), priq, avail, tick);
        again, priq := ServeOne(priq, avail(tick));
        tick := tick + 1;
      }
    }

    /** et_sendnext. */
    method SendNext(cfg: Config, avail: nat -> nat)
      requires Valid()
      modifies `txqState, `out, `sent, `dropped, `stopped, txq, txqPktcnt
      ensures Valid()
      ensures var r := SendLoop(old(Abs()), 0, avail, 0); Abs() == End(cfg, r.0, r.1)
    {
      var priq := ServeQueues(avail);
      EndKeeps(cfg, Abs(), priq);
      NotEmpty(Abs(), priq);
      hide Inv, SendLoop;
      if !qos {
        if txqPktcnt[0] > cfg.hiwat && !stopped {
          stopped := true;
        } else if stopped && txqPktcnt[0] < cfg.hiwat / 2 {
          stopped := false;
        }
      } else if txqPktcnt[priq] > cfg.hiwat {
        var skb := DequeueHead(priq);
        dropped := dropped + [skb];
      }
    }
  }

  lemma SizesOf(s: Tx)
    requires Inv(s)
    ensures |s.queues| == |s.cnt| == |s.taken| == |s.out| == NUMTXQ
  {
  }

  lemma Unroll(s: Tx, priq: nat, avail: nat -> nat, t: nat)
    requires Inv(s) && priq < NUMTXQ
    ensures var l, r := Peek(s, avail(t)), SendLoop(s, priq, avail, t);
            && Inv(Serve(s, l)) && |s.queues| == NUMTXQ
            && (l.Sent? ==> Entries(Serve(s, l)) < Entries(s))
            && (l.Stale? ==> Entries(Serve(s, l)) == Entries(s) && BitCount(Serve(s, l).state) < BitCount(s.state))
            && (if l.Stale? || l.Sent?
                then var n := SendLoop(Serve(s, l), l.q, avail, t + 1); r.0 == n.0 && r.1 == n.1
                else r.0 == Serve(s, l) && r.1 == if l.Nothing? then priq else l.q)
  {
    ServeKeeps(s, avail(t));
    LookProgress(s, avail(t));
    hide Inv, Entries, BitCount, Peek;
  }
}
