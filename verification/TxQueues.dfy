/** Transmission: four queues, a bitmap of the queues that may hold something, packet counters,
    and the loop of et_sendnext that always serves the highest queue. */
module TxQueues {

  const NUMTXQ: nat := 4
  const NUMPRIO: nat := 8

  // ------------------------------------------------------------------ the bitmap and its tables

  const UP2TC: seq<nat> := [1, 0, 0, 1, 2, 2, 3, 3]
  const TC_NONE: int := -1
  const PRIQ_SELECTOR: seq<int> := [-1, 0, 1, 1, 2, 2, 2, 2, 3, 3, 3, 3, 3, 3, 3, 3]

  /** `1 << q`. */
  function Mask(q: nat): bv8
    requires q < NUMTXQ
  {
    if q == 0 then 1 else if q == 1 then 2 else if q == 2 then 4 else 8
  }

  predicate Bit(state: bv8, q: nat)
    requires q < NUMTXQ
  {
    state & Mask(q) != 0
  }

  function SetBit(state: bv8, q: nat): bv8
    requires q < NUMTXQ
  {
    state | Mask(q)
  }

  function ClearBit(state: bv8, q: nat): bv8
    requires q < NUMTXQ
  {
    state & !Mask(q)
  }

  lemma SetBitBits(state: bv8, q: nat, r: nat)
    requires q < NUMTXQ && r < NUMTXQ
    ensures Bit(SetBit(state, q), r) <==> r == q || Bit(state, r)
    ensures state < 16 ==> SetBit(state, q) < 16
  {
  }

  lemma ClearBitBits(state: bv8, q: nat, r: nat)
    requires q < NUMTXQ && r < NUMTXQ
    ensures Bit(ClearBit(state, q), r) <==> r != q && Bit(state, r)
    ensures state < 16 ==> ClearBit(state, q) < 16
  {
  }

  /** etc_priq. */
  function Priq(state: bv8): int
    requires state < 16
  {
    PRIQ_SELECTOR[state as nat]
  }

  /** The table gives the highest bit that is set. */
  lemma PriqIsHighest(state: bv8)
    requires state < 16
    ensures state == 0 <==> Priq(state) == TC_NONE
    ensures state == 0 <==> forall r :: 0 <= r < NUMTXQ ==> !Bit(state, r)
    ensures state != 0 ==> (0 <= Priq(state) < NUMTXQ && Bit(state, Priq(state))
                            && forall r :: Priq(state) < r < NUMTXQ ==> !Bit(state, r))
  {
    if forall r :: 0 <= r < NUMTXQ ==> !Bit(state, r) {
      assert !Bit(state, 0) && !Bit(state, 1) && !Bit(state, 2) && !Bit(state, 3);
    }
  }

  /** The rank of a user priority in IEEE 802.1D: background is below best effort. */
  function Rank(prio: nat): nat
    requires prio < NUMPRIO
  {
    if prio == 0 then 2 else if prio <= 2 then prio - 1 else prio
  }

  /** The table never puts a packet of higher rank on a lower queue, and gives each queue two
      priorities. */
  lemma ClassesOrdered(a: nat, b: nat)
    requires a < NUMPRIO && b < NUMPRIO
    ensures Rank(a) <= Rank(b) ==> UP2TC[a] <= UP2TC[b]
    ensures UP2TC[a] == Rank(a) / 2
  {
  }

  // ------------------------------------------------------------------ the state

  /** An entry of a queue: `count` packets (more than one in a chain), `desc` descriptors needed. */
  datatype Skb = Skb(prio: nat, count: nat, desc: nat, body: nat)

  predicate SkbOk(skb: Skb) {
    skb.prio < NUMPRIO && skb.count > 0
  }

  /** `thresh`: et_txq_thresh, 0 for none.  `hiwat`: DATAHIWAT. */
  datatype Config = Config(thresh: nat, hiwat: nat)

  /** `halted`: the stack was asked to stop sending.  For each queue, `taken` is what was put on
      it and `out` what has left it, so far; `sent` and `dropped` is what has left any queue, and
      `refused` what et_start did not take. */
  datatype Tx = Tx(queues: seq<seq<Skb>>, state: bv8, cnt: seq<int>, qos: bool, halted: bool,
                   taken: seq<seq<Skb>>, out: seq<seq<Skb>>, sent: seq<Skb>, dropped: seq<Skb>, refused: seq<Skb>)

  /** The packets in a list of entries. */
  function Packets(q: seq<Skb>): (n: nat)
  {
    if q == [] then 0 else q[0].count + Packets(q[1..])
  }

  lemma {:induction false} PacketsConcat(a: seq<Skb>, b: seq<Skb>)
    ensures Packets(a + b) == Packets(a) + Packets(b)
  {
    if a == [] {
      assert a + b == b;
    } else {
      assert (a + b)[1..] == a[1..] + b;
      PacketsConcat(a[1..], b);
    }
  }

  /** What is known of one queue. */
  ghost predicate QueueOk(s: Tx, q: nat)
    requires q < NUMTXQ && |s.queues| == |s.cnt| == |s.taken| == |s.out| == NUMTXQ
  {
    && (s.queues[q] != [] ==> Bit(s.state, q))
    && s.cnt[q] == Packets(s.queues[q])
    && (forall skb :: skb in s.queues[q] ==> SkbOk(skb))
    && s.taken[q] == s.out[q] + s.queues[q]
  }

  ghost predicate Inv(s: Tx) {
    && |s.queues| == |s.cnt| == |s.taken| == |s.out| == NUMTXQ && s.state < 16
    && forall q :: 0 <= q < NUMTXQ ==> QueueOk(s, q)
  }

  function Init(qos: bool): Tx {
    Tx([[], [], [], []], 0, [0, 0, 0, 0], qos, false, [[], [], [], []], [[], [], [], []], [], [], [])
  }

  lemma InitInv(qos: bool)
    ensures Inv(Init(qos))
  {
  }

  // ------------------------------------------------------------------ et_start

  /** The queue a packet belongs on. */
  function QueueFor(qos: bool, skb: Skb): (q: nat)
    requires skb.prio < NUMPRIO
    ensures q < NUMTXQ
  {
    if qos then UP2TC[skb.prio] else 0
  }

  /** et_skb_queue_tail, and the bit. */
  function Enqueue(s: Tx, q: nat, skb: Skb): Tx
    requires q < NUMTXQ && |s.queues| == |s.cnt| == |s.taken| == NUMTXQ
  {
    s.(queues := s.queues[q := s.queues[q] + [skb]],
       cnt := s.cnt[q := s.cnt[q] + skb.count],
       state := SetBit(s.state, q),
       taken := s.taken[q := s.taken[q] + [skb]])
  }

  /** et_start, up to the point where the queues are served. */
  function Start(cfg: Config, s: Tx, skb: Skb): Tx
    requires skb.prio < NUMPRIO && |s.queues| == |s.cnt| == |s.taken| == NUMTXQ
  {
    var q := QueueFor(s.qos, skb);
    if cfg.thresh != 0 && s.cnt[q] >= cfg.thresh then s.(refused := s.refused + [skb])
    else Enqueue(s, q, skb)
  }

  lemma EnqueueKeeps(s: Tx, q: nat, skb: Skb)
    requires Inv(s) && q < NUMTXQ && SkbOk(skb)
    ensures Inv(Enqueue(s, q, skb))
  {
    var t := Enqueue(s, q, skb);
    SetBitBits(s.state, q, q);
    hide SetBit, Bit;
    forall r | 0 <= r < NUMTXQ ensures QueueOk(t, r) {
      assert QueueOk(s, r);
      SetBitBits(s.state, q, r);
      if r == q {
        PacketsConcat(s.queues[q], [skb]);
      }
    }
  }

  lemma StartKeeps(cfg: Config, s: Tx, skb: Skb)
    requires Inv(s) && SkbOk(skb)
    ensures Inv(Start(cfg, s, skb))
  {
    hide QueueFor, Enqueue;
    EnqueueKeeps(s, QueueFor(s.qos, skb), skb);
    LogsFree(s, s.sent, s.dropped, s.refused + [skb], s.halted, s.qos);
  }

  // ------------------------------------------------------------------ et_sendnext

  /** et_skb_dequeue, from a queue that holds something. */
  function Dequeue(s: Tx, q: nat): Tx
    requires q < NUMTXQ && |s.queues| == |s.cnt| == |s.out| == NUMTXQ && s.queues[q] != []
  {
    var skb := s.queues[q][0];
    s.(queues := s.queues[q := s.queues[q][1..]],
       cnt := s.cnt[q := s.cnt[q] - skb.count],
       out := s.out[q := s.out[q] + [skb]])
  }

  lemma DequeueKeeps(s: Tx, q: nat)
    requires Inv(s) && q < NUMTXQ && s.queues[q] != []
    ensures Inv(Dequeue(s, q)) && s.cnt[q] > 0 && Dequeue(s, q).cnt[q] >= 0
  {
    var t := Dequeue(s, q);
    assert QueueOk(s, q);
    assert s.queues[q][0] in s.queues[q];
    hide Bit;
    forall r | 0 <= r < NUMTXQ ensures QueueOk(t, r) {
      assert QueueOk(s, r);
      if r == q {
        assert s.out[q] + s.queues[q] == (s.out[q] + [s.queues[q][0]]) + s.queues[q][1..];
      }
    }
  }

  /** One look at the queues: a stale bit goes, or a head is sent, or the loop ends. */
  datatype Look = Stale(q: nat) | Sent(q: nat, skb: Skb) | Full(q: nat) | Nothing

  function Peek(s: Tx, avail: nat): (l: Look)
    requires Inv(s)
    ensures l.Nothing? <==> s.state == 0
    ensures !l.Nothing? ==> l.q < NUMTXQ
    ensures l.Sent? ==> s.queues[l.q] != [] && l.skb == s.queues[l.q][0]
    ensures l.Full? ==> s.queues[l.q] != []
  {
    if s.state == 0 then Nothing
    else
      PriqIsHighest(s.state);
      var q: nat := Priq(s.state);
      if s.queues[q] == [] then Stale(q)
      else if avail < s.queues[q][0].desc then Full(q)
      else Sent(q, s.queues[q][0])
  }

  /** What a look does to the queues. */
  function Serve(s: Tx, l: Look): Tx
    requires Inv(s) && (!l.Nothing? ==> l.q < NUMTXQ) && (l.Sent? ==> s.queues[l.q] != [])
  {
    match l
    case Stale(q) => s.(state := ClearBit(s.state, q))
    case Sent(q, skb) => Dequeue(s, q).(sent := s.sent + [skb])
    case _ => s
  }

  /** Strict priority: whatever is looked at, every higher queue is empty, and what is sent is the
      head of the highest queue that is not, and fits. */
  lemma HighestFirst(s: Tx, avail: nat)
    requires Inv(s)
    ensures var l := Peek(s, avail);
            && (!l.Nothing? ==> forall r :: l.q < r < NUMTXQ ==> s.queues[r] == [])
            && (l.Sent? ==> l.skb == s.queues[l.q][0] && l.skb.desc <= avail)
            && (l.Full? ==> s.queues[l.q][0].desc > avail)
            && (l.Nothing? ==> forall r :: 0 <= r < NUMTXQ ==> s.queues[r] == [])
  {
    PriqIsHighest(s.state);
    hide Bit, Priq;
    forall r | 0 <= r < NUMTXQ && !Bit(s.state, r) ensures s.queues[r] == [] {
      assert QueueOk(s, r);
    }
  }

  /** The logs of what was sent, dropped and refused are no concern of the queues. */
  lemma LogsFree(s: Tx, sent: seq<Skb>, dropped: seq<Skb>, refused: seq<Skb>, halted: bool, qos: bool)
    requires Inv(s)
    ensures Inv(s.(sent := sent, dropped := dropped, refused := refused, halted := halted, qos := qos))
  {
    var t := s.(sent := sent, dropped := dropped, refused := refused, halted := halted, qos := qos);
    forall q | 0 <= q < NUMTXQ ensures QueueOk(t, q) {
      assert QueueOk(s, q);
    }
  }

  lemma ServeKeeps(s: Tx, avail: nat)
    requires Inv(s)
    ensures Inv(Serve(s, Peek(s, avail)))
  {
    var l := Peek(s, avail);
    match l {
      case Stale(q) =>
        ClearBitBits(s.state, q, q);
        var t := Serve(s, l);
        hide Bit, ClearBit, Priq;
        forall r | 0 <= r < NUMTXQ ensures QueueOk(t, r) {
          assert QueueOk(s, r);
          ClearBitBits(s.state, q, r);
        }
      case Sent(q, skb) =>
        DequeueKeeps(s, q);
        LogsFree(Dequeue(s, q), s.sent + [skb], s.dropped, s.refused, s.halted, s.qos);
      case _ =>
    }
  }

  /** The end of et_sendnext, still with the queues locked: flow control, or the oldest entry of
      the queue looked at last is dropped when that queue holds too many packets. */
  function End(cfg: Config, s: Tx, priq: nat): Tx
    requires Inv(s) && priq < NUMTXQ
  {
    if !s.qos then
      if s.cnt[0] > cfg.hiwat && !s.halted then s.(halted := true)
      else if s.halted && s.cnt[0] < cfg.hiwat / 2 then s.(halted := false)
      else s
    else if s.cnt[priq] > cfg.hiwat then
      NotEmpty(s, priq);
      Dequeue(s, priq).(dropped := s.dropped + [s.queues[priq][0]])
    else s
  }

  lemma NotEmpty(s: Tx, q: nat)
    requires Inv(s) && q < NUMTXQ
    ensures s.cnt[q] > 0 <==> s.queues[q] != []
  {
    assert QueueOk(s, q);
    if s.queues[q] != [] {
      assert s.queues[q][0] in s.queues[q];
    }
  }

  lemma EndKeeps(cfg: Config, s: Tx, priq: nat)
    requires Inv(s) && priq < NUMTXQ
    ensures Inv(End(cfg, s, priq))
  {
    LogsFree(s, s.sent, s.dropped, s.refused, true, s.qos);
    LogsFree(s, s.sent, s.dropped, s.refused, false, s.qos);
    NotEmpty(s, priq);
    if s.queues[priq] != [] {
      DequeueKeeps(s, priq);
      var d := Dequeue(s, priq);
      LogsFree(d, d.sent, s.dropped + [s.queues[priq][0]], d.refused, d.halted, d.qos);
    }
  }

  function Entries(s: Tx): nat
    requires |s.queues| == NUMTXQ
  {
    |s.queues[0]| + |s.queues[1]| + |s.queues[2]| + |s.queues[3]|
  }

  function BitCount(state: bv8): nat {
    One(state, 0) + One(state, 1) + One(state, 2) + One(state, 3)
  }

  function One(state: bv8, q: nat): nat
    requires q < NUMTXQ
  {
    if Bit(state, q) then 1 else 0
  }

  /** The loop makes progress: an entry goes, or a bit. */
  lemma LookProgress(s: Tx, avail: nat)
    requires Inv(s)
    ensures var l := Peek(s, avail);
            var t := Serve(s, l);
            && (l.Sent? ==> Entries(t) < Entries(s))
            && (l.Stale? ==> Entries(t) == Entries(s) && BitCount(t.state) < BitCount(s.state))
  {
    var l := Peek(s, avail);
    if l.Stale? {
      PriqIsHighest(s.state);
      hide Bit, ClearBit, Priq;
      ClearBitBits(s.state, l.q, 0);
      ClearBitBits(s.state, l.q, 1);
      ClearBitBits(s.state, l.q, 2);
      ClearBitBits(s.state, l.q, 3);
    }
  }

  /** The loop of et_sendnext when nobody else touches the queues; `avail(t)` is what the t-th look
      finds in the descriptor counter.  It gives the queue looked at last and the queues that were
      served, in order. */
  function SendLoop(s: Tx, priq: nat, avail: nat -> nat, t: nat): (r: (Tx, nat, seq<nat>))
    requires Inv(s) && priq < NUMTXQ
    ensures Inv(r.0) && r.1 < NUMTXQ
    decreases Entries(s), BitCount(s.state)
  {
    hide Inv, Serve, Entries, BitCount;
    var l := Peek(s, avail(t));
    ServeKeeps(s, avail(t));
    LookProgress(s, avail(t));
    match l
    case Nothing => (s, priq, [])
    case Full(q) => (s, q, [])
    case Stale(q) => SendLoop(Serve(s, l), q, avail, t + 1)
    case Sent(q, _) =>
      var (r, priq', served) := SendLoop(Serve(s, l), q, avail, t + 1);
      (r, priq', [q] + served)
  }

  ghost predicate EmptyAbove(s: Tx, q: int)
    requires |s.queues| == NUMTXQ
  {
    forall r :: 0 <= r < NUMTXQ && r > q ==> s.queues[r] == []
  }

  ghost predicate Descending(served: seq<nat>, top: nat) {
    && (forall i :: 0 <= i < |served| ==> served[i] <= top)
    && (forall i, j :: 0 <= i < j < |served| ==> served[i] >= served[j])
  }

  lemma DescendingCons(q: nat, served: seq<nat>, top: nat)
    requires Descending(served, q) && q <= top
    ensures Descending([q] + served, top)
  {
  }

  /** One call of et_sendnext serves the queues from the highest down, never back up. */
  lemma {:induction false} SendLoopOrder(s: Tx, priq: nat, avail: nat -> nat, t: nat, top: nat)
    requires Inv(s) && priq < NUMTXQ && EmptyAbove(s, top)
    ensures Descending(SendLoop(s, priq, avail, t).2, top)
    decreases Entries(s), BitCount(s.state)
  {
    var l := Peek(s, avail(t));
    ServeKeeps(s, avail(t));
    LookProgress(s, avail(t));
    ServedStaysEmpty(s, avail(t), top);
    hide Inv, Serve, Entries, BitCount, Peek, EmptyAbove, Descending;
    match l {
      case Stale(q) => SendLoopOrder(Serve(s, l), q, avail, t + 1, top);
      case Sent(q, _) =>
        SendLoopOrder(Serve(s, l), q, avail, t + 1, q);
        DescendingCons(q, SendLoop(Serve(s, l), q, avail, t + 1).2, top);
      case _ => assert Descending([], top) by { NoneDescending(top); }
    }
  }

  lemma NoneDescending(top: nat)
    ensures Descending([], top)
  {
  }

  lemma ServedStaysEmpty(s: Tx, avail: nat, top: nat)
    requires Inv(s) && EmptyAbove(s, top)
    ensures var l := Peek(s, avail);
            && EmptyAbove(Serve(s, l), top)
            && (l.Sent? ==> l.q <= top && EmptyAbove(Serve(s, l), l.q))
  {
    HighestFirst(s, avail);
    hide QueueOk, Bit, Priq, ClearBit;
  }

  /** Where the loop stops, and what is dropped there: only the oldest entry of the highest queue
      that holds anything. */
  lemma {:induction false} SendLoopStops(s: Tx, priq: nat, avail: nat -> nat, t: nat)
    requires Inv(s) && priq < NUMTXQ
    ensures var (r, q, served) := SendLoop(s, priq, avail, t);
            || (r.state == 0 && EmptyAbove(r, -1))
            || (r.queues[q] != [] && EmptyAbove(r, q) && exists n :: n >= t && r.queues[q][0].desc > avail(n))
    decreases Entries(s), BitCount(s.state)
  {
    var l := Peek(s, avail(t));
    ServeKeeps(s, avail(t));
    LookProgress(s, avail(t));
    HighestFirst(s, avail(t));
    hide Inv, Serve, Entries, BitCount, Peek;
    if l.Stale? || l.Sent? {
      SendLoopStops(Serve(s, l), l.q, avail, t + 1);
    }
  }

  lemma DropsFromHighest(cfg: Config, s: Tx, priq: nat, avail: nat -> nat, t: nat)
    requires Inv(s) && priq < NUMTXQ && s.qos
    ensures var (r, q, _) := SendLoop(s, priq, avail, t);
            var e := End(cfg, r, q);
            && (e.dropped != r.dropped <==> r.cnt[q] > cfg.hiwat)
            && (e.dropped != r.dropped ==> r.queues[q] != [] && EmptyAbove(r, q)
                                           && e.dropped == r.dropped + [r.queues[q][0]])
  {
    SendLoopStops(s, priq, avail, t);
    SendLoopQos(s, priq, avail, t);
    var (r, q, _) := SendLoop(s, priq, avail, t);
    NotEmpty(r, q);
    hide SendLoop, QueueOk;
  }

  lemma {:induction false} SendLoopQos(s: Tx, priq: nat, avail: nat -> nat, t: nat)
    requires Inv(s) && priq < NUMTXQ
    ensures SendLoop(s, priq, avail, t).0.qos == s.qos
    decreases Entries(s), BitCount(s.state)
  {
    var l := Peek(s, avail(t));
    ServeKeeps(s, avail(t));
    LookProgress(s, avail(t));
    assert Serve(s, l).qos == s.qos;
    hide Inv, Serve, Entries, BitCount, Peek;
    if l.Stale? || l.Sent? {
      SendLoopQos(Serve(s, l), l.q, avail, t + 1);
    }
  }

  // ------------------------------------------------------------------ all interleavings

  /** et_start runs on any processor between two looks of et_sendnext, which one caller at a time
      is in. */
  datatype Sys = Sys(tx: Tx, sending: bool, priq: nat)

  datatype Event =
    | StartEv(skb: Skb)
    | BeginEv
    | LookEv(avail: nat)
    | QosEv(on: bool)
    | FlushEv

  ghost predicate SysInv(y: Sys) {
    Inv(y.tx) && y.priq < NUMTXQ
  }

  /** et_down empties the queues; the bits stay. */
  function Flush(s: Tx): Tx
    requires Inv(s)
    decreases Entries(s)
  {
    hide Inv, QueueOk;
    if s.queues[0] != [] then FlushOne(s, 0); Flush(FlushHead(s, 0))
    else if s.queues[1] != [] then FlushOne(s, 1); Flush(FlushHead(s, 1))
    else if s.queues[2] != [] then FlushOne(s, 2); Flush(FlushHead(s, 2))
    else if s.queues[3] != [] then FlushOne(s, 3); Flush(FlushHead(s, 3))
    else s
  }

  function FlushHead(s: Tx, q: nat): Tx
    requires Inv(s) && q < NUMTXQ && s.queues[q] != []
  {
    Dequeue(s, q).(dropped := s.dropped + [s.queues[q][0]])
  }

  lemma FlushOne(s: Tx, q: nat)
    requires Inv(s) && q < NUMTXQ && s.queues[q] != []
    ensures Inv(FlushHead(s, q)) && Entries(FlushHead(s, q)) < Entries(s)
  {
    DequeueKeeps(s, q);
    var d := Dequeue(s, q);
    LogsFree(d, d.sent, s.dropped + [s.queues[q][0]], d.refused, d.halted, d.qos);
  }

  function Step(cfg: Config, y: Sys, e: Event): Sys
    requires SysInv(y)
  {
    match e
    case StartEv(skb) => if SkbOk(skb) then y.(tx := Start(cfg, y.tx, skb)) else y
    case BeginEv => if y.sending then y else y.(sending := true, priq := 0)
    case LookEv(avail) =>
      if !y.sending then y
      else
        var l := Peek(y.tx, avail);
        (match l
         case Nothing => Sys(End(cfg, y.tx, y.priq), false, y.priq)
         case Full(q) => Sys(End(cfg, y.tx, q), false, q)
         case _ => Sys(Serve(y.tx, l), true, l.q))
    case QosEv(on) => y.(tx := y.tx.(qos := on))
    case FlushEv => y.(tx := Flush(y.tx))
  }

  function Run(cfg: Config, qos: bool, es: seq<Event>): (y: Sys)
    ensures SysInv(y)
  {
    if es == [] then
      InitInv(qos);
      Sys(Init(qos), false, 0)
    else
      var y := Run(cfg, qos, es[..|es| - 1]);
      StepKeeps(cfg, y, es[|es| - 1]);
      Step(cfg, y, es[|es| - 1])
  }

  lemma {:induction false} FlushKeeps(s: Tx)
    requires Inv(s)
    ensures Inv(Flush(s)) && (Ledger(s) ==> Ledger(Flush(s)))
    decreases Entries(s)
  {
    assert |s.queues| == NUMTXQ;
    hide Inv, Ledger, Entries, FlushHead;
    var q := if s.queues[0] != [] then 0 else if s.queues[1] != [] then 1 else if s.queues[2] != [] then 2 else 3;
    if s.queues[q] != [] {
      FlushOne(s, q);
      FlushLedger(s, q);
      FlushKeeps(FlushHead(s, q));
    }
  }

  lemma StepKeeps(cfg: Config, y: Sys, e: Event)
    requires SysInv(y)
    ensures SysInv(Step(cfg, y, e)) && (Ledger(y.tx) ==> Ledger(Step(cfg, y, e).tx))
  {
    var s := y.tx;
    hide Ledger, Start, Peek, Serve, End, Flush, QueueOk;
    match e {
      case StartEv(skb) =>
        if SkbOk(skb) {
          StartKeeps(cfg, s, skb);
          StartLedger(cfg, s, skb);
        }
      case BeginEv =>
      case LookEv(avail) =>
        ServeKeeps(s, avail);
        ServeLedger(s, avail);
        EndKeeps(cfg, s, y.priq);
        EndLedger(cfg, s, y.priq);
        if Peek(s, avail).Full? {
          EndKeeps(cfg, s, Peek(s, avail).q);
          EndLedger(cfg, s, Peek(s, avail).q);
        }
      case QosEv(on) =>
        LogsFree(s, s.sent, s.dropped, s.refused, s.halted, on);
        QosLedger(s, on);
      case FlushEv => FlushKeeps(s);
    }
  }

  // ------------------------------------------------------------------ the order of sending, with senders in between

  /** A run from a given point on. */
  function Play(cfg: Config, y: Sys, es: seq<Event>): (r: Sys)
    requires SysInv(y)
    ensures SysInv(r)
    decreases |es|
  {
    StepsKeep(cfg, y);
    if es == [] then y else Play(cfg, Step(cfg, y, es[0]), es[1..])
  }

  lemma StepsKeep(cfg: Config, y: Sys)
    requires SysInv(y)
    ensures forall e :: SysInv(Step(cfg, y, e))
  {
    forall e ensures SysInv(Step(cfg, y, e)) {
      StepKeeps(cfg, y, e);
    }
  }

  /** The queue that a step sends from. */
  function SentFrom(y: Sys, e: Event): seq<nat>
    requires SysInv(y)
  {
    if y.sending && e.LookEv? && Peek(y.tx, e.avail).Sent? then [Peek(y.tx, e.avail).q] else []
  }

  /** The queues that a run sends from, in order. */
  function Served(cfg: Config, y: Sys, es: seq<Event>): seq<nat>
    requires SysInv(y)
    decreases |es|
  {
    StepsKeep(cfg, y);
    if es == [] then [] else SentFrom(y, es[0]) + Served(cfg, Step(cfg, y, es[0]), es[1..])
  }

  /** The step puts nothing on a queue above `top`. */
  predicate BelowStep(y: Sys, e: Event, top: nat) {
    e.StartEv? && SkbOk(e.skb) ==> QueueFor(y.tx.qos, e.skb) <= top
  }

  predicate NoneAbove(cfg: Config, y: Sys, es: seq<Event>, top: nat)
    requires SysInv(y)
    decreases |es|
  {
    StepsKeep(cfg, y);
    es == [] || (BelowStep(y, es[0], top) && NoneAbove(cfg, Step(cfg, y, es[0]), es[1..], top))
  }

  /** What is empty stays empty, unless something is put on it. */
  lemma EmptyStays(cfg: Config, y: Sys, e: Event, top: nat)
    requires SysInv(y) && EmptyAbove(y.tx, top) && BelowStep(y, e, top)
    ensures SysInv(Step(cfg, y, e)) && EmptyAbove(Step(cfg, y, e).tx, top)
    ensures forall q :: q in SentFrom(y, e) ==> q <= top
  {
    StepKeeps(cfg, y, e);
    match e
    case StartEv(skb) => StartEmpty(cfg, y.tx, skb, top);
    case LookEv(avail) =>
      ServedStaysEmpty(y.tx, avail, top);
      hide Inv, Peek, Serve, SkbOk;
      EndEmpty(cfg, y.tx, y.priq, top);
      if Peek(y.tx, avail).Full? {
        EndEmpty(cfg, y.tx, Peek(y.tx, avail).q, top);
      }
    case FlushEv => FlushEmpty(y.tx);
    case _ =>
  }

  lemma StartEmpty(cfg: Config, s: Tx, skb: Skb, top: nat)
    requires Inv(s) && EmptyAbove(s, top) && (SkbOk(skb) ==> QueueFor(s.qos, skb) <= top)
    ensures SkbOk(skb) ==> |Start(cfg, s, skb).queues| == NUMTXQ && EmptyAbove(Start(cfg, s, skb), top)
  {
    hide QueueOk, QueueFor, SetBit;
  }

  lemma EndEmpty(cfg: Config, s: Tx, priq: nat, top: nat)
    requires Inv(s) && priq < NUMTXQ && EmptyAbove(s, top)
    ensures |End(cfg, s, priq).queues| == NUMTXQ && EmptyAbove(End(cfg, s, priq), top)
  {
    NotEmpty(s, priq);
    hide QueueOk;
  }

  lemma {:induction false} FlushEmpty(s: Tx)
    requires Inv(s)
    ensures |Flush(s).queues| == NUMTXQ && EmptyAbove(Flush(s), -1)
    decreases Entries(s)
  {
    assert |s.queues| == NUMTXQ;
    hide Inv, Entries, FlushHead;
    var q := if s.queues[0] != [] then 0 else if s.queues[1] != [] then 1 else if s.queues[2] != [] then 2 else 3;
    if s.queues[q] != [] {
      FlushOne(s, q);
      FlushEmpty(FlushHead(s, q));
    }
  }

  lemma {:induction false} NoneAboveOrder(cfg: Config, y: Sys, es: seq<Event>, top: nat)
    requires SysInv(y) && EmptyAbove(y.tx, top) && NoneAbove(cfg, y, es, top)
    ensures EmptyAbove(Play(cfg, y, es).tx, top) && forall q :: q in Served(cfg, y, es) ==> q <= top
    decreases |es|
  {
    if es != [] {
      hide Step, Inv, EmptyAbove, SentFrom, BelowStep;
      EmptyStays(cfg, y, es[0], top);
      NoneAboveOrder(cfg, Step(cfg, y, es[0]), es[1..], top);
    }
  }

  /** All interleavings: after a packet was sent from a queue, no later one is sent from a higher
      queue unless one was put on a higher queue in between. */
  lemma NeverBackUp(cfg: Config, y: Sys, avail: nat, es: seq<Event>)
    requires SysInv(y) && y.sending && Peek(y.tx, avail).Sent?
    requires SysInv(Step(cfg, y, LookEv(avail)))
    requires NoneAbove(cfg, Step(cfg, y, LookEv(avail)), es, Peek(y.tx, avail).q)
    ensures forall q :: q in Served(cfg, Step(cfg, y, LookEv(avail)), es) ==> q <= Peek(y.tx, avail).q
  {
    HighestFirst(y.tx, avail);
    hide Served, NoneAbove, QueueOk, Peek, Serve;
    ServedStaysEmpty(y.tx, avail, Peek(y.tx, avail).q);
    NoneAboveOrder(cfg, Step(cfg, y, LookEv(avail)), es, Peek(y.tx, avail).q);
  }

  // ------------------------------------------------------------------ which packet is where

  /** The traffic class of a packet: two 802.1D ranks each. */
  function Class(skb: Skb): nat {
    if skb.prio < NUMPRIO then Rank(skb.prio) / 2 else 0
  }

  /** What et_start does: the packet goes to the end of the queue of its class, or of the only queue
      without QoS, unless that holds as many packets as the threshold allows. */
  lemma StartPlaces(cfg: Config, s: Tx, skb: Skb)
    requires Inv(s) && SkbOk(skb)
    ensures var t, q := Start(cfg, s, skb), if s.qos then Class(skb) else 0;
            && q < NUMTXQ
            && (if cfg.thresh != 0 && s.cnt[q] >= cfg.thresh then t == s.(refused := s.refused + [skb])
                else && t.queues == s.queues[q := s.queues[q] + [skb]] && t.cnt == s.cnt[q := s.cnt[q] + skb.count]
                     && t.refused == s.refused && t.sent == s.sent && t.dropped == s.dropped && t.out == s.out
                     && t.qos == s.qos && t.halted == s.halted)
  {
    ClassesOrdered(skb.prio, skb.prio);
    hide SetBit, QueueOk, Rank;
  }

  /** Each entry is on the queue of its class, or on queue 0 without QoS. */
  ghost predicate ByClass(s: Tx, on: bool) {
    s.qos == on && |s.queues| == NUMTXQ && forall q :: 0 <= q < NUMTXQ ==> AllOf(s.queues[q], q, on)
  }

  ghost predicate AllOf(queue: seq<Skb>, q: nat, on: bool) {
    forall skb :: skb in queue ==> q == if on then Class(skb) else 0
  }

  lemma AllOfMore(queue: seq<Skb>, skb: Skb, q: nat, on: bool)
    requires AllOf(queue, q, on) && q == if on then Class(skb) else 0
    ensures AllOf(queue + [skb], q, on)
  {
    hide Class;
  }

  lemma AllOfLess(queue: seq<Skb>, q: nat, on: bool)
    requires queue != [] && AllOf(queue, q, on)
    ensures AllOf(queue[1..], q, on)
  {
    hide Class;
    forall skb | skb in queue[1..] ensures skb in queue {
    }
  }

  lemma StartByClass(cfg: Config, s: Tx, skb: Skb, on: bool)
    requires Inv(s) && SkbOk(skb) && ByClass(s, on)
    ensures ByClass(Start(cfg, s, skb), on)
  {
    StartPlaces(cfg, s, skb);
    hide Start, Inv, Class, SkbOk, AllOf;
    var q := if s.qos then Class(skb) else 0;
    AllOfMore(s.queues[q], skb, q, on);
    if cfg.thresh != 0 && s.cnt[q] >= cfg.thresh {
      Refusal(cfg, s, skb);
    }
  }

  lemma Refusal(cfg: Config, s: Tx, skb: Skb)
    requires |s.queues| == |s.cnt| == |s.taken| == NUMTXQ && skb.prio < NUMPRIO
    ensures Start(cfg, s, skb).qos == s.qos
  {
  }

  lemma ServeByClass(s: Tx, l: Look, on: bool)
    requires Inv(s) && (!l.Nothing? ==> l.q < NUMTXQ) && (l.Sent? ==> s.queues[l.q] != []) && ByClass(s, on)
    ensures ByClass(Serve(s, l), on)
  {
    hide QueueOk, ClearBit, AllOf;
    if l.Sent? {
      AllOfLess(s.queues[l.q], l.q, on);
    }
  }

  lemma EndByClass(cfg: Config, s: Tx, priq: nat, on: bool)
    requires Inv(s) && priq < NUMTXQ && ByClass(s, on)
    ensures ByClass(End(cfg, s, priq), on)
  {
    NotEmpty(s, priq);
    hide QueueOk, AllOf;
    if s.queues[priq] != [] {
      AllOfLess(s.queues[priq], priq, on);
    }
  }

  lemma {:induction false} FlushByClass(s: Tx, on: bool)
    requires Inv(s) && ByClass(s, on)
    ensures ByClass(Flush(s), on)
    decreases Entries(s)
  {
    assert |s.queues| == NUMTXQ;
    hide Inv, Entries, FlushHead, ByClass;
    var q := if s.queues[0] != [] then 0 else if s.queues[1] != [] then 1 else if s.queues[2] != [] then 2 else 3;
    if s.queues[q] != [] {
      FlushOne(s, q);
      HeadByClass(s, q, on);
      FlushByClass(FlushHead(s, q), on);
    }
  }

  lemma HeadByClass(s: Tx, q: nat, on: bool)
    requires Inv(s) && q < NUMTXQ && s.queues[q] != [] && ByClass(s, on)
    ensures ByClass(FlushHead(s, q), on)
  {
    hide QueueOk, AllOf;
    AllOfLess(s.queues[q], q, on);
  }

  lemma StepByClass(cfg: Config, y: Sys, e: Event, on: bool)
    requires SysInv(y) && ByClass(y.tx, on) && (e.QosEv? ==> e.on == on)
    ensures ByClass(Step(cfg, y, e).tx, on)
  {
    hide Inv, Peek, Serve, End, Flush, Start, SkbOk;
    match e
    case StartEv(skb) => if SkbOk(skb) { StartByClass(cfg, y.tx, skb, on); }
    case LookEv(avail) =>
      var l := Peek(y.tx, avail);
      ServeByClass(y.tx, l, on);
      EndByClass(cfg, y.tx, y.priq, on);
      if l.Full? {
        EndByClass(cfg, y.tx, l.q, on);
      }
    case FlushEv => FlushByClass(y.tx, on);
    case _ =>
  }

  /** Every interleaving with QoS on throughout: each entry of queue q is of class q.  With QoS off
      throughout, all are on queue 0. */
  lemma {:induction false} AllRunsByClass(cfg: Config, qos: bool, es: seq<Event>)
    requires forall i :: 0 <= i < |es| && es[i].QosEv? ==> es[i].on == qos
    ensures ByClass(Run(cfg, qos, es).tx, qos)
  {
    if es != [] {
      hide Step, ByClass;
      AllRunsByClass(cfg, qos, es[..|es| - 1]);
      StepByClass(cfg, Run(cfg, qos, es[..|es| - 1]), es[|es| - 1], qos);
    } else {
    }
  }

  /** So what is sent is of the highest class that waits. */
  lemma HighestClass(cfg: Config, es: seq<Event>, avail: nat)
    requires forall i :: 0 <= i < |es| && es[i].QosEv? ==> es[i].on
    ensures var s := Run(cfg, true, es).tx;
            var l := Peek(s, avail);
            l.Sent? ==> forall q, skb :: 0 <= q < NUMTXQ && skb in s.queues[q] ==> Class(skb) <= Class(l.skb)
  {
    AllRunsByClass(cfg, true, es);
    var s := Run(cfg, true, es).tx;
    HighestFirst(s, avail);
    hide Run, QueueOk, Class, Priq, Bit;
    var l := Peek(s, avail);
    if l.Sent? {
      assert l.skb in s.queues[l.q] && AllOf(s.queues[l.q], l.q, true);
      forall q, skb | 0 <= q < NUMTXQ && skb in s.queues[q] ensures Class(skb) <= Class(l.skb) {
        assert AllOf(s.queues[q], q, true);
      }
    }
  }

  // ------------------------------------------------------------------ the limits

  /** The threshold bounds every queue, by what one entry can add to it. */
  ghost predicate WithinLimit(cfg: Config, s: Tx, most: nat) {
    cfg.thresh != 0 && |s.cnt| == NUMTXQ ==> forall q :: 0 <= q < NUMTXQ ==> s.cnt[q] < cfg.thresh + most
  }

  lemma ServeCounts(s: Tx, l: Look)
    requires Inv(s) && (!l.Nothing? ==> l.q < NUMTXQ) && (l.Sent? ==> s.queues[l.q] != [])
    ensures |Serve(s, l).cnt| == NUMTXQ && forall q :: 0 <= q < NUMTXQ ==> Serve(s, l).cnt[q] <= s.cnt[q]
  {
    hide QueueOk, ClearBit;
  }

  lemma EndCounts(cfg: Config, s: Tx, priq: nat)
    requires Inv(s) && priq < NUMTXQ
    ensures |End(cfg, s, priq).cnt| == NUMTXQ && forall q :: 0 <= q < NUMTXQ ==> End(cfg, s, priq).cnt[q] <= s.cnt[q]
  {
    NotEmpty(s, priq);
    hide QueueOk;
  }

  lemma {:induction false} FlushCounts(s: Tx)
    requires Inv(s)
    ensures |Flush(s).cnt| == NUMTXQ && forall q :: 0 <= q < NUMTXQ ==> Flush(s).cnt[q] <= s.cnt[q]
    decreases Entries(s)
  {
    assert |s.queues| == |s.cnt| == NUMTXQ;
    hide Inv, Entries, FlushHead;
    var q := if s.queues[0] != [] then 0 else if s.queues[1] != [] then 1 else if s.queues[2] != [] then 2 else 3;
    if s.queues[q] != [] {
      FlushOne(s, q);
      HeadCounts(s, q);
      FlushCounts(FlushHead(s, q));
    }
  }

  lemma HeadCounts(s: Tx, q: nat)
    requires Inv(s) && q < NUMTXQ && s.queues[q] != []
    ensures |FlushHead(s, q).cnt| == NUMTXQ && forall r :: 0 <= r < NUMTXQ ==> FlushHead(s, q).cnt[r] <= s.cnt[r]
  {
    hide QueueOk;
  }

  lemma StepWithin(cfg: Config, y: Sys, e: Event, most: nat)
    requires SysInv(y) && WithinLimit(cfg, y.tx, most) && (e.StartEv? ==> e.skb.count <= most)
    ensures WithinLimit(cfg, Step(cfg, y, e).tx, most)
  {
    hide QueueOk, Peek, Serve, End, Flush, Start, Class;
    match e
    case StartEv(skb) => if SkbOk(skb) { StartPlaces(cfg, y.tx, skb); }
    case LookEv(avail) =>
      var l := Peek(y.tx, avail);
      ServeCounts(y.tx, l);
      EndCounts(cfg, y.tx, y.priq);
      if l.Full? {
        EndCounts(cfg, y.tx, l.q);
      }
    case FlushEv => FlushCounts(y.tx);
    case _ =>
  }

  /** Every interleaving: with a threshold no queue ever holds more packets than it and one entry. */
  lemma {:induction false} AllRunsWithin(cfg: Config, qos: bool, es: seq<Event>, most: nat)
    requires forall i :: 0 <= i < |es| && es[i].StartEv? ==> es[i].skb.count <= most
    ensures WithinLimit(cfg, Run(cfg, qos, es).tx, most)
  {
    if es != [] {
      hide Step, WithinLimit;
      AllRunsWithin(cfg, qos, es[..|es| - 1], most);
      StepWithin(cfg, Run(cfg, qos, es[..|es| - 1]), es[|es| - 1], most);
    } else {
    }
  }

  /** The stack is asked to stop above the high-water mark and to go on below half of it, and in
      between is left as it is; only without QoS. */
  lemma FlowControl(cfg: Config, s: Tx, priq: nat)
    requires Inv(s) && priq < NUMTXQ
    ensures var e := End(cfg, s, priq);
            && (s.qos ==> e.halted == s.halted)
            && (!s.qos ==> e == s.(halted := e.halted))
            && (!s.qos && s.cnt[0] > cfg.hiwat ==> e.halted)
            && (!s.qos && s.cnt[0] < cfg.hiwat / 2 ==> !e.halted)
            && (!s.qos && cfg.hiwat / 2 <= s.cnt[0] <= cfg.hiwat ==> e.halted == s.halted)
  {
    NotEmpty(s, priq);
    hide QueueOk;
  }

  /** A send loop without QoS that empties the queues always leaves the stack free to send. */
  lemma DrainedIsFree(cfg: Config, y: Sys, avail: nat)
    requires SysInv(y) && y.sending && !y.tx.qos && Peek(y.tx, avail).Nothing? && cfg.hiwat >= 2
    ensures !Step(cfg, y, LookEv(avail)).tx.halted
  {
    HighestFirst(y.tx, avail);
    NotEmpty(y.tx, 0);
    assert QueueOk(y.tx, 0);
    FlowControl(cfg, y.tx, y.priq);
    hide QueueOk, Peek, End;
  }

  // ------------------------------------------------------------------ nothing lost

  ghost function AllOut(out: seq<seq<Skb>>): multiset<Skb>
    requires |out| == NUMTXQ
  {
    multiset(out[0]) + multiset(out[1]) + multiset(out[2]) + multiset(out[3])
  }

  function Sum(a: seq<seq<Skb>>): nat
    requires |a| == NUMTXQ
  {
    Packets(a[0]) + Packets(a[1]) + Packets(a[2]) + Packets(a[3])
  }

  /** What has left the queues is what was sent and what was dropped. */
  ghost predicate Ledger(s: Tx) {
    Books(s.out, s.sent, s.dropped)
  }

  ghost predicate Books(out: seq<seq<Skb>>, sent: seq<Skb>, dropped: seq<Skb>) {
    && |out| == NUMTXQ
    && AllOut(out) == multiset(sent) + multiset(dropped)
    && Sum(out) == Packets(sent) + Packets(dropped)
  }

  lemma OutOne(out: seq<seq<Skb>>, q: nat, skb: Skb)
    requires |out| == NUMTXQ && q < NUMTXQ
    ensures var out' := out[q := out[q] + [skb]];
            AllOut(out') == AllOut(out) + multiset{skb} && Sum(out') == Sum(out) + skb.count
  {
    PacketsConcat(out[q], [skb]);
  }

  lemma LogOne(log: seq<Skb>, skb: Skb)
    ensures multiset(log + [skb]) == multiset(log) + multiset{skb} && Packets(log + [skb]) == Packets(log) + skb.count
  {
    PacketsConcat(log, [skb]);
  }

  /** An entry that leaves a queue is booked on one of the two sides. */
  lemma Balance(out: seq<seq<Skb>>, sent: seq<Skb>, dropped: seq<Skb>, q: nat, skb: Skb)
    requires q < NUMTXQ && Books(out, sent, dropped)
    ensures Books(out[q := out[q] + [skb]], sent + [skb], dropped)
    ensures Books(out[q := out[q] + [skb]], sent, dropped + [skb])
  {
    hide AllOut, Sum, Packets;
    OutOne(out, q, skb);
    LogOne(sent, skb);
    LogOne(dropped, skb);
    AddTo(multiset(sent), multiset(dropped), multiset{skb});
  }

  lemma AddTo<T>(b: multiset<T>, c: multiset<T>, x: multiset<T>)
    ensures (b + c) + x == (b + x) + c == b + (c + x)
  {
  }

  lemma DequeueLedger(s: Tx, q: nat)
    requires Inv(s) && Ledger(s) && q < NUMTXQ && s.queues[q] != []
    ensures Ledger(Dequeue(s, q).(sent := s.sent + [s.queues[q][0]]))
    ensures Ledger(Dequeue(s, q).(dropped := s.dropped + [s.queues[q][0]]))
  {
    var skb := s.queues[q][0];
    assert Ledger(s) <==> Books(s.out, s.sent, s.dropped);
    hide Books, QueueOk;
    Balance(s.out, s.sent, s.dropped, q, skb);
  }

  lemma StartLedger(cfg: Config, s: Tx, skb: Skb)
    requires Inv(s) && SkbOk(skb)
    ensures Ledger(s) ==> Ledger(Start(cfg, s, skb))
  {
    hide Books, Inv, Packets;
  }

  lemma ServeLedger(s: Tx, avail: nat)
    requires Inv(s)
    ensures Ledger(s) ==> Ledger(Serve(s, Peek(s, avail)))
  {
    var l := Peek(s, avail);
    hide Books, Inv, Packets, Dequeue, Peek;
    if l.Sent? && Ledger(s) {
      DequeueLedger(s, l.q);
    }
  }

  lemma EndLedger(cfg: Config, s: Tx, priq: nat)
    requires Inv(s) && priq < NUMTXQ
    ensures Ledger(s) ==> Ledger(End(cfg, s, priq))
  {
    NotEmpty(s, priq);
    hide Books, Inv, Packets, Dequeue;
    if s.queues[priq] != [] && Ledger(s) {
      DequeueLedger(s, priq);
    }
  }

  lemma QosLedger(s: Tx, on: bool)
    ensures Ledger(s) ==> Ledger(s.(qos := on))
  {
  }

  lemma FlushLedger(s: Tx, q: nat)
    requires Inv(s) && q < NUMTXQ && s.queues[q] != []
    ensures Ledger(s) ==> Ledger(FlushHead(s, q))
  {
    hide Ledger, Inv;
    if Ledger(s) {
      DequeueLedger(s, q);
    }
  }

  /** Every interleaving of senders, the send loop, flushes and mode changes: the bits cover the
      queues that hold something, the counters count packets, each queue is first in first out,
      and every packet taken has been sent, dropped, or is queued. */
  lemma {:induction false} AllRuns(cfg: Config, qos: bool, es: seq<Event>)
    ensures var s := Run(cfg, qos, es).tx;
            && Inv(s) && Ledger(s)
            && (forall q :: 0 <= q < NUMTXQ ==> s.out[q] <= s.taken[q])
            && Sum(s.taken) == Packets(s.sent) + Packets(s.dropped) + s.cnt[0] + s.cnt[1] + s.cnt[2] + s.cnt[3]
  {
    LedgerAlways(cfg, qos, es);
    var s := Run(cfg, qos, es).tx;
    hide Run;
    Counted(s);
  }

  lemma {:induction false} LedgerAlways(cfg: Config, qos: bool, es: seq<Event>)
    ensures Inv(Run(cfg, qos, es).tx) && Ledger(Run(cfg, qos, es).tx)
  {
    if es == [] {
    } else {
      LedgerAlways(cfg, qos, es[..|es| - 1]);
      hide Ledger, Step;
      StepKeeps(cfg, Run(cfg, qos, es[..|es| - 1]), es[|es| - 1]);
    }
  }

  lemma Counted(s: Tx)
    requires Inv(s)
    ensures forall q :: 0 <= q < NUMTXQ ==> s.out[q] <= s.taken[q]
    ensures Sum(s.taken) == Sum(s.out) + s.cnt[0] + s.cnt[1] + s.cnt[2] + s.cnt[3]
  {
    forall q | 0 <= q < NUMTXQ ensures s.out[q] <= s.taken[q] && Packets(s.taken[q]) == Packets(s.out[q]) + s.cnt[q] {
      assert QueueOk(s, q);
      PacketsConcat(s.out[q], s.queues[q]);
    }
    hide Packets, Inv;
  }
}
