/** Access to the switch's registers over MDIO: a page register, an address register that starts an
    operation, four data registers, and the driver's cached page that saves selecting it again. */
module SwitchPages {
  import opened Numbers

  // ------------------------------------------------------------------ the switch

  /** How one operation ends: within the polling limit, or not (carried out later, or never). */
  datatype Outcome = InTime(polls: nat) | TimedOut(landed: bool)

  const MII_MAX_RETRY: nat := 100

  /** The selected page, the data registers, and the registers behind them, eight bytes each. */
  datatype Switch = Switch(page: bv8, data: seq<bv16>, regs: map<(bv8, bv8), seq<bv16>>, io: nat -> Outcome, tick: nat)

  const ZEROS: seq<bv16> := [0, 0, 0, 0]

  predicate Shape(sw: Switch) {
    |sw.data| == 4 && forall k :: k in sw.regs ==> |sw.regs[k]| == 4
  }

  function Content(sw: Switch, page: bv8, reg: bv8): (c: seq<bv16>)
    requires Shape(sw)
    ensures |c| == 4
  {
    if (page, reg) in sw.regs then sw.regs[(page, reg)] else ZEROS
  }

  predicate Finishes(o: Outcome) {
    o.InTime? && o.polls < MII_MAX_RETRY
  }

  predicate Lands(o: Outcome) {
    Finishes(o) || o == TimedOut(true)
  }

  datatype Op = WriteOp | ReadOp

  /** Writing the address register: the operation on the selected page. */
  function Operate(sw: Switch, reg: bv8, op: Op): (r: Switch)
    requires Shape(sw)
    ensures Shape(r)
  {
    var t := sw.(tick := sw.tick + 1);
    if !Lands(sw.io(sw.tick)) then t
    else if op == WriteOp then t.(regs := sw.regs[(sw.page, reg) := sw.data])
    else t.(data := Content(sw, sw.page, reg))
  }

  // ------------------------------------------------------------------ values in data registers

  function Word(hi: bv8, lo: bv8): bv16 {
    ((hi as bv16) << 8) | (lo as bv16)
  }

  function Hi(w: bv16): bv8 {
    (w >> 8) as bv8
  }

  function Lo(w: bv16): bv8 {
    (w & 0xff) as bv8
  }

  lemma WordBytes(hi: bv8, lo: bv8)
    ensures Hi(Word(hi, lo)) == hi && Lo(Word(hi, lo)) == lo
  {
  }

  /** The lengths a register access may have. */
  predicate Length(len: nat) {
    len == 1 || len == 2 || len == 4 || len == 6 || len == 8
  }

  /** The data registers after a value was put into them; the upper ones keep what they held. */
  function Put(data: seq<bv16>, val: seq<bv8>): (r: seq<bv16>)
    requires |data| == 4 && Length(|val|)
    ensures |r| == 4
  {
    if |val| == 1 then data[0 := Word(0, val[0])]
    else
      var d := data[0 := Word(val[1], val[0])];
      if |val| == 2 then d
      else
        var e := d[1 := Word(val[3], val[2])];
        if |val| == 4 then e
        else
          var f := e[2 := Word(val[5], val[4])];
          if |val| == 6 then f else f[3 := Word(val[7], val[6])]
  }

  function Get(data: seq<bv16>, len: nat): (val: seq<bv8>)
    requires |data| == 4 && Length(len)
    ensures |val| == len
  {
    if len == 1 then [Lo(data[0])]
    else
      var a := [Lo(data[0]), Hi(data[0])];
      if len == 2 then a
      else
        var b := a + [Lo(data[1]), Hi(data[1])];
        if len == 4 then b
        else
          var c := b + [Lo(data[2]), Hi(data[2])];
          if len == 6 then c else c + [Lo(data[3]), Hi(data[3])]
  }

  lemma PutGet(data: seq<bv16>, val: seq<bv8>)
    requires |data| == 4 && Length(|val|)
    ensures Get(Put(data, val), |val|) == val
  {
    WordBytes(0, val[0]);
    if |val| > 1 { WordBytes(val[1], val[0]); }
    if |val| > 2 { WordBytes(val[3], val[2]); }
    if |val| > 4 { WordBytes(val[5], val[4]); }
    if |val| > 6 { WordBytes(val[7], val[6]); }
    hide Word, Hi, Lo;
  }

  lemma WordIs(hi: bv8, lo: bv8)
    ensures Word(hi, lo) as nat == 0x100 * (hi as nat) + lo as nat
  {
    assert Word(hi, lo) == More16(hi as bv16, lo);
    WideOctet(hi);
    hide Word, More16;
    More16Is(hi as bv16, lo);
  }

  /** The number in a data register: two bytes of the value, the lower one first. */
  predicate Holds(w: bv16, val: seq<bv8>, i: nat)
    requires 2 * i < |val|
  {
    w as nat == val[2 * i] as nat + if 2 * i + 1 < |val| then 0x100 * (val[2 * i + 1] as nat) else 0
  }

  /** A value fills the data registers from the lowest on, and leaves the others. */
  lemma PutWords(data: seq<bv16>, val: seq<bv8>, i: nat)
    requires |data| == 4 && Length(|val|) && i < 4
    ensures if 2 * i < |val| then Holds(Put(data, val)[i], val, i) else Put(data, val)[i] == data[i]
  {
    PutAt(data, val, i);
    hide Put, Word;
    if 2 * i < |val| {
      WordIs(if 2 * i + 1 < |val| then val[2 * i + 1] else 0, val[2 * i]);
    }
  }

  lemma PutAt(data: seq<bv16>, val: seq<bv8>, i: nat)
    requires |data| == 4 && Length(|val|) && i < 4
    ensures Put(data, val)[i]
         == if 2 * i >= |val| then data[i] else Word(if 2 * i + 1 < |val| then val[2 * i + 1] else 0, val[2 * i])
  {
    hide Word;
  }

  // ------------------------------------------------------------------ the transport

  /** The driver's state is the cached page; after the attach it is -1 in eight bits. */
  const NO_PAGE: bv8 := 0xff

  datatype Robo = Robo(cached: bv8, sw: Switch)

  /** The page is selected only when it is not the cached one. */
  function Select(r: Robo, page: bv8): (s: Robo)
    requires Shape(r.sw)
    ensures Shape(s.sw)
  {
    if r.cached == page then r else Robo(page, r.sw.(page := page))
  }

  datatype Access = Write(page: bv8, reg: bv8, val: seq<bv8>) | Read(page: bv8, reg: bv8, len: nat)

  predicate AccessOk(a: Access) {
    match a
    case Write(_, _, val) => Length(|val|)
    case Read(_, _, len) => Length(len)
  }

  /** -1, or 0 and what was read. */
  datatype Answer = Failed | Written | Got(val: seq<bv8>)

  /** mii_wreg or mii_rreg on the page that is selected. */
  function Perform(sw: Switch, a: Access): (r: (Switch, Answer))
    requires Shape(sw) && AccessOk(a)
    ensures Shape(r.0)
  {
    match a
    case Write(_, reg, val) =>
      var t := Operate(sw.(data := Put(sw.data, val)), reg, WriteOp);
      (t, if Finishes(sw.io(sw.tick)) then Written else Failed)
    case Read(_, reg, len) =>
      var t := Operate(sw, reg, ReadOp);
      (t, if Finishes(sw.io(sw.tick)) then Got(Get(t.data, len)) else Failed)
  }

  function Step(r: Robo, a: Access): (s: (Robo, Answer))
    requires Shape(r.sw) && AccessOk(a)
    ensures Shape(s.0.sw)
  {
    var t := Select(r, a.page);
    var (sw, answer) := Perform(t.sw, a);
    (t.(sw := sw), answer)
  }

  /** A transport without a cache: it selects the page every time. */
  function Always(sw: Switch, a: Access): (s: (Switch, Answer))
    requires Shape(sw) && AccessOk(a)
    ensures Shape(s.0)
  {
    Perform(sw.(page := a.page), a)
  }

  function Run(r: Robo, accesses: seq<Access>): (s: (Robo, seq<Answer>))
    requires Shape(r.sw) && forall a :: a in accesses ==> AccessOk(a)
    ensures Shape(s.0.sw)
    decreases |accesses|
  {
    if accesses == [] then (r, [])
    else
      var (t, answer) := Step(r, accesses[0]);
      var (u, answers) := Run(t, accesses[1..]);
      (u, [answer] + answers)
  }

  function RunAlways(sw: Switch, accesses: seq<Access>): (s: (Switch, seq<Answer>))
    requires Shape(sw) && forall a :: a in accesses ==> AccessOk(a)
    ensures Shape(s.0)
    decreases |accesses|
  {
    if accesses == [] then (sw, [])
    else
      var (t, answer) := Always(sw, accesses[0]);
      var (u, answers) := RunAlways(t, accesses[1..]);
      (u, [answer] + answers)
  }

  // ------------------------------------------------------------------ the cache is invisible

  /** The cached page is the selected one. */
  predicate Coherent(r: Robo) {
    r.cached == r.sw.page
  }

  lemma PerformKeepsPage(sw: Switch, a: Access)
    requires Shape(sw) && AccessOk(a)
    ensures Perform(sw, a).0.page == sw.page && Perform(sw, a).0.tick == sw.tick + 1
  {
  }

  /** After any access the caches agree, unless the access was to the page that stands for "none"
      when nothing had been selected yet. */
  lemma StepCoherentIff(r: Robo, a: Access)
    requires Shape(r.sw) && AccessOk(a)
    ensures Coherent(Step(r, a).0) <==> Coherent(r) || a.page != r.cached
  {
    PerformKeepsPage(Select(r, a.page).sw, a);
    hide Perform;
  }

  /** A coherent transport with a cache cannot be told from one that selects every time. */
  lemma {:induction false} CoherentRuns(r: Robo, accesses: seq<Access>)
    requires Shape(r.sw) && Coherent(r) && forall a :: a in accesses ==> AccessOk(a)
    ensures var (s, answers) := Run(r, accesses);
            Coherent(s) && (accesses != [] ==> RunAlways(r.sw, accesses) == (s.sw, answers))
    decreases |accesses|
  {
    hide Perform;
    if accesses != [] {
      var a := accesses[0];
      assert Select(r, a.page).sw == r.sw.(page := a.page);
      StepCoherentIff(r, a);
      CoherentRuns(Step(r, a).0, accesses[1..]);
      if accesses[1..] == [] {
        assert RunAlways(Always(r.sw, a).0, []) == (Always(r.sw, a).0, []);
      }
    }
  }

  /** From the attach on, whatever page the switch had selected: unless the first access is to page
      0xff, every run reads and writes what it would read and write without the cache. */
  lemma CacheInvisible(sw: Switch, accesses: seq<Access>)
    requires Shape(sw) && accesses != [] && (forall a :: a in accesses ==> AccessOk(a))
    requires accesses[0].page != NO_PAGE
    ensures var (s, answers) := Run(Robo(NO_PAGE, sw), accesses);
            Coherent(s) && RunAlways(sw, accesses) == (s.sw, answers)
  {
    var r := Robo(NO_PAGE, sw);
    var a := accesses[0];
    StepCoherentIff(r, a);
    assert Select(r, a.page).sw == sw.(page := a.page);
    assert Step(r, a) == (Robo(a.page, Always(sw, a).0), Always(sw, a).1);
    CoherentRuns(Step(r, a).0, accesses[1..]);
    if accesses[1..] == [] {
      assert RunAlways(Always(sw, a).0, []) == (Always(sw, a).0, []);
    }
  }

  /** The one page that cannot be reached first: the write goes to whatever page was selected. */
  lemma PageFfMissed(sw: Switch, reg: bv8, val: seq<bv8>)
    requires Shape(sw) && Length(|val|) && sw.page != NO_PAGE && Finishes(sw.io(sw.tick))
    ensures var s := Step(Robo(NO_PAGE, sw), Write(NO_PAGE, reg, val)).0.sw;
            Content(s, sw.page, reg) == Put(sw.data, val) && Content(s, NO_PAGE, reg) == Content(sw, NO_PAGE, reg)
  {
  }

  /** When the cache is right after a run that starts at the attach. */
  lemma {:induction false} CoherentIff(r: Robo, accesses: seq<Access>)
    requires Shape(r.sw) && r.cached == NO_PAGE && forall a :: a in accesses ==> AccessOk(a)
    ensures Coherent(Run(r, accesses).0) <==>
            r.sw.page == NO_PAGE || exists i :: 0 <= i < |accesses| && accesses[i].page != NO_PAGE
    decreases |accesses|
  {
    hide Perform, Always;
    if accesses != [] {
      var a := accesses[0];
      StepCoherentIff(r, a);
      if Coherent(Step(r, a).0) {
        CoherentRuns(Step(r, a).0, accesses[1..]);
      } else {
        PerformKeepsPage(r.sw, a);
        CoherentIff(Step(r, a).0, accesses[1..]);
        assert forall i :: 0 < i < |accesses| ==> accesses[i] == accesses[1..][i - 1];
        if i :| 0 <= i < |accesses| && accesses[i].page != NO_PAGE {
          assert accesses[1..][i - 1].page != NO_PAGE;
        }
      }
    }
  }

  // ------------------------------------------------------------------ write, then read

  predicate Touches(a: Access, page: bv8, reg: bv8) {
    a.Write? && a.page == page && a.reg == reg
  }

  lemma OthersKeep(r: Robo, a: Access, page: bv8, reg: bv8)
    requires Shape(r.sw) && Coherent(r) && AccessOk(a) && !Touches(a, page, reg)
    ensures Content(Step(r, a).0.sw, page, reg) == Content(r.sw, page, reg)
  {
  }

  lemma {:induction false} OtherRunsKeep(r: Robo, between: seq<Access>, page: bv8, reg: bv8)
    requires Shape(r.sw) && Coherent(r) && (forall a :: a in between ==> AccessOk(a) && !Touches(a, page, reg))
    ensures var s := Run(r, between).0;
            Coherent(s) && Content(s.sw, page, reg) == Content(r.sw, page, reg)
    decreases |between|
  {
    hide Step;
    if between != [] {
      OthersKeep(r, between[0], page, reg);
      StepCoherentIff(r, between[0]);
      OtherRunsKeep(Step(r, between[0]).0, between[1..], page, reg);
    }
  }

  /** What one access to a page that the cache is right about answers and does. */
  lemma StepSays(r: Robo, a: Access)
    requires Shape(r.sw) && AccessOk(a) && (Coherent(r) || a.page != r.cached)
    ensures var o, (s, answer) := r.sw.io(r.sw.tick), Step(r, a);
            && s.sw.page == a.page && s.sw.tick == r.sw.tick + 1
            && (answer == Failed <==> !Finishes(o))
            && (a.Read? ==> s.sw.regs == r.sw.regs
                            && (Finishes(o) ==> answer == Got(Get(Content(r.sw, a.page, a.reg), a.len))))
            && (a.Write? ==>
                  Content(s.sw, a.page, a.reg)
                  == if Finishes(o) || o == TimedOut(true) then Put(r.sw.data, a.val) else Content(r.sw, a.page, a.reg))
            && (forall page, reg :: (page, reg) != (a.page, a.reg) ==> Content(s.sw, page, reg) == Content(r.sw, page, reg))
  {
    hide Put, Get;
  }

  /** A register that was written gives the same bytes back, whatever else was accessed in between,
      until it is written again; the read fails only when it is not done in time. */
  lemma WriteThenRead(r: Robo, page: bv8, reg: bv8, val: seq<bv8>, between: seq<Access>)
    requires Shape(r.sw) && Length(|val|) && (Coherent(r) || page != r.cached)
    requires forall a :: a in between ==> AccessOk(a) && !Touches(a, page, reg)
    ensures var (w, answer) := Step(r, Write(page, reg, val));
            var m := Run(w, between).0;
            var got := Step(m, Read(page, reg, |val|)).1;
            answer == Written ==> got == if Finishes(m.sw.io(m.sw.tick)) then Got(val) else Failed
  {
    var (w, answer) := Step(r, Write(page, reg, val));
    StepCoherentIff(r, Write(page, reg, val));
    if answer == Written {
      StepSays(r, Write(page, reg, val));
      OtherRunsKeep(w, between, page, reg);
      StepSays(Run(w, between).0, Read(page, reg, |val|));
      hide Put, Get, Run, Step;
      PutGet(r.sw.data, val);
    }
  }

  // ------------------------------------------------------------------ the driver's functions

  /** What a poll of the address register shows. */
  predicate StillBusy(o: Outcome, poll: nat) {
    o.TimedOut? || poll < o.polls
  }

  /** The polling loop; `left` is what remains of the retries when it stops. */
  method Poll(o: Outcome) returns (left: nat)
    ensures left == 0 <==> !Finishes(o)
  {
    left := MII_MAX_RETRY;
    while left > 0 && StillBusy(o, MII_MAX_RETRY - left)
      invariant left <= MII_MAX_RETRY
      invariant forall poll :: 0 <= poll < MII_MAX_RETRY - left ==> StillBusy(o, poll)
    {
      left := left - 1;
    }
    if left == 0 {
      assert StillBusy(o, MII_MAX_RETRY - 1);
    }
  }

  /** robo_info_t, over the switch behind the MDIO bus. */
  class RoboInfo {
    var page: bv8
    var sw: Switch

    ghost function Abs(): Robo
      reads this
    {
      Robo(page, sw)
    }

    constructor (sw: Switch)
      ensures Abs() == Robo(NO_PAGE, sw)
    {
      this.page := NO_PAGE;
      this.sw := sw;
    }

    method SelectPage(p: bv8)
      requires Shape(sw)
      modifies this
      ensures Abs() == Select(old(Abs()), p) && Shape(sw)
    {
      if page != p {
        sw := sw.(page := p);
        page := p;
      }
    }

    /** Writing one data register. */
    method WriteData(i: nat, w: bv16)
      requires Shape(sw) && i < 4
      modifies `sw
      ensures Shape(sw) && sw == old(sw).(data := old(sw).data[i := w])
    {
      sw := sw.(data := sw.data[i := w]);
    }

    /** The switch over the length of the value: the highest data register first. */
    method WriteValue(val: seq<bv8>)
      requires Shape(sw) && Length(|val|)
      modifies `sw
      ensures Shape(sw) && sw == old(sw).(data := Put(old(sw).data, val))
    {
      hide Word;
      if |val| == 8 {
        WriteData(3, Word(val[7], val[6]));
      }
      if |val| >= 6 {
        WriteData(2, Word(val[5], val[4]));
      }
      if |val| >= 4 {
        WriteData(1, Word(val[3], val[2]));
      }
      WriteData(0, if |val| == 1 then Word(0, val[0]) else Word(val[1], val[0]));
    }

    /** mii_wreg. */
    method MiiWreg(p: bv8, reg: bv8, val: seq<bv8>) returns (ok: bool)
      requires Shape(sw) && Length(|val|)
      modifies this
      ensures Shape(sw)
      ensures (Abs(), if ok then Written else Failed) == Step(old(Abs()), Write(p, reg, val))
    {
      hide Put, Operate, Select;
      SelectPage(p);
      WriteValue(val);
      var left := Poll(sw.io(sw.tick));
      sw := Operate(sw, reg, WriteOp);
      ok := left != 0;
    }

    /** mii_rreg; on success `val` holds the bytes. */
    method MiiRreg(p: bv8, reg: bv8, len: nat) returns (ok: bool, val: seq<bv8>)
      requires Shape(sw) && Length(len)
      modifies this
      ensures Shape(sw)
      ensures (Abs(), if ok then Got(val) else Failed) == Step(old(Abs()), Read(p, reg, len))
    {
      hide Operate, Select;
      SelectPage(p);
      var left := Poll(sw.io(sw.tick));
      sw := Operate(sw, reg, ReadOp);
      ok := left != 0;
      if !ok {
        return false, [];
      }
      val := ReadValue(len);
    }

    /** The data registers, lowest first, as bytes. */
    method ReadValue(len: nat) returns (val: seq<bv8>)
      requires Shape(sw) && Length(len)
      ensures val == Get(sw.data, len)
    {
      hide Lo, Hi;
      val := [Lo(sw.data[0])];
      if len > 1 {
        val := val + [Hi(sw.data[0])];
        assert val == [Lo(sw.data[0]), Hi(sw.data[0])];
      }
      if len > 2 {
        val := val + [Lo(sw.data[1]), Hi(sw.data[1])];
      }
      if len > 4 {
        val := val + [Lo(sw.data[2]), Hi(sw.data[2])];
      }
      if len > 6 {
        val := val + [Lo(sw.data[3]), Hi(sw.data[3])];
      }
    }
  }
}
