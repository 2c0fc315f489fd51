/** The interrupt protocol between the chip, et_isr, et_dpc, et_up and et_down, tasklet build.  The
    chip raises conditions and the interrupt handler runs between any two steps of the others. */
module IntrProtocol {

  /** The condition bits of the interrupt status registers: a frame was received, a frame was
      sent, an error that asks for a re-init, an error that does not. */
  datatype Bits = Bits(rx: bool, tx: bool, fatal: bool, soft: bool)

  const NONE: Bits := Bits(false, false, false, false)

  function Or(a: Bits, b: Bits): Bits {
    Bits(a.rx || b.rx, a.tx || b.tx, a.fatal || b.fatal, a.soft || b.soft)
  }

  function And(a: Bits, b: Bits): Bits {
    Bits(a.rx && b.rx, a.tx && b.tx, a.fatal && b.fatal, a.soft && b.soft)
  }

  function Minus(a: Bits, b: Bits): Bits {
    Bits(a.rx && !b.rx, a.tx && !b.tx, a.fatal && !b.fatal, a.soft && !b.soft)
  }

  /** INTR_NEW, INTR_RX, INTR_TX, INTR_ERROR. */
  datatype Events = Events(isNew: bool, rx: bool, tx: bool, error: bool)

  const QUIET: Events := Events(false, false, false, false)

  /** Where et_dpc is. */
  datatype Pc = Idle | Receive | Reclaim | Errors | Finish

  /** `mask`: interrupts are unmasked.  `hw` and `sw`: the chip's status register and the
      driver's persistent copy.  `pending`: the tasklet is scheduled.  `downing`: et_down has
      flagged the device down and waits for the tasklet.  `owed`: what the chip has done that the
      driver has not looked at yet; `frames` of it are on the receive ring. */
  datatype Et = Et(up: bool, mask: bool, hw: Bits, sw: Bits, events: Events, resched: bool,
                   pending: bool, pc: Pc, downing: bool, frames: nat, owed: Bits, def: Bits)

  // ------------------------------------------------------------------ the chip's operations

  /** chipgetintrevents: new conditions are or'ed into the persistent copy. */
  function GetIntrEvents(s: Et, inIsr: bool): (r: (Et, Events)) {
    var now := if inIsr && !s.mask then NONE else And(s.hw, s.def);
    var sw := Or(s.sw, now);
    (s.(sw := sw), Events(now != NONE, sw.rx, sw.tx, sw.fatal || sw.soft))
  }

  /** chipintrson. */
  function IntrsOn(s: Et): Et {
    s.(mask := true)
  }

  /** chipintrsoff: masks, and acknowledges what the persistent copy holds. */
  function IntrsOff(s: Et): Et {
    s.(mask := false, hw := Minus(s.hw, s.sw))
  }

  // ------------------------------------------------------------------ the driver's steps

  /** et_isr. */
  function Isr(s: Et): Et {
    if !s.up then s
    else
      var (t, events) := GetIntrEvents(s, true);
      if !events.isNew then t
      else IntrsOff(t).(events := events, pending := true)
  }

  /** How a call of et_rxevent ends: with an empty ring, or after `taken` frames because the quota
      is used up. */
  datatype Outcome = Drained | Quota(taken: nat)

  function RxEvent(s: Et, o: Outcome): Et {
    match o
    case Drained => s.(frames := 0, owed := s.owed.(rx := false), sw := s.sw.(rx := false))
    case Quota(taken) => s.(frames := if taken <= s.frames then s.frames - taken else 0, resched := true)
  }

  /** The tasklet starts: et_dpc up to the refresh of the condition bits. */
  function DpcStart(s: Et): Et {
    var t := s.(pending := false);
    if !s.up then t
    else if s.resched then
      var (u, events) := GetIntrEvents(t, false);
      u.(events := events, resched := false, pc := Receive)
    else t.(pc := Receive)
  }

  function DpcReceive(s: Et, o: Outcome): Et {
    (if s.events.rx then RxEvent(s, o) else s).(pc := Reclaim)
  }

  function DpcReclaim(s: Et): Et {
    (if s.events.tx then s.(owed := s.owed.(tx := false), sw := s.sw.(tx := false)) else s).(pc := Errors)
  }

  /** chiperrors; without a fatal error and with quota left the ring is looked at once more.
      Re-initialising with INTROFF leaves the mask alone. */
  function DpcErrors(s: Et, o: Outcome): Et {
    var t := s.(owed := s.owed.(fatal := false, soft := false), sw := s.sw.(fatal := false, soft := false));
    if !s.events.error then s.(pc := Finish)
    else (if s.sw.fatal || s.resched then t else RxEvent(t, o)).(pc := Finish)
  }

  /** The end of et_dpc: schedule again, or unmask. */
  function DpcFinish(s: Et): Et {
    var t := s.(events := QUIET, pc := Idle);
    if !s.up then t.(resched := false)
    else if s.resched then t.(pending := true)
    else IntrsOn(t)
  }

  /** et_up; serialised with et_down. */
  function Up(s: Et): Et {
    if s.up || s.downing then s else IntrsOn(s.(up := true))
  }

  /** The first half of et_down: ET_FLAG_DOWN.  The tasklet may still run. */
  function FlagDown(s: Et): Et {
    IntrsOff(s).(up := false, downing := true)
  }

  /** The second half, when tasklet_kill has returned.  `core`: the chip's reset also clears its
      status register. */
  function FinishDown(s: Et, reset: bool, core: bool): Et {
    if !s.downing || s.pending || s.pc != Idle then s
    else
      var t := IntrsOff(s).(up := false, downing := false);
      if !reset then t
      else t.(sw := NONE, frames := 0, owed := NONE, events := QUIET, resched := false,
              hw := if core then NONE else t.hw)
  }

  /** The chip raises conditions; each received frame raises one. */
  function Raise(s: Et, b: Bits): Et {
    var t := s.(hw := Or(s.hw, b));
    if s.up then t.(owed := Or(s.owed, b), frames := if b.rx then s.frames + 1 else s.frames) else t
  }

  datatype Event =
    | RaiseEv(b: Bits)
    | IsrEv
    | TaskletEv(o: Outcome)
    | UpEv
    | FlagDownEv
    | FinishDownEv(core: bool)

  /** The tasklet runs its next step, if it is running or scheduled. */
  function Tasklet(s: Et, o: Outcome): Et {
    match s.pc
    case Idle => if s.pending then DpcStart(s) else s
    case Receive => DpcReceive(s, o)
    case Reclaim => DpcReclaim(s)
    case Errors => DpcErrors(s, o)
    case Finish => DpcFinish(s)
  }

  function Step(s: Et, e: Event): Et {
    match e
    case RaiseEv(b) => Raise(s, b)
    case IsrEv => Isr(s)
    case TaskletEv(o) => Tasklet(s, o)
    case UpEv => Up(s)
    case FlagDownEv => FlagDown(s)
    case FinishDownEv(core) => FinishDown(s, true, core)
  }

  /** After chipattach the software mask already is the default one. */
  function Attached(def: Bits): Et {
    Et(false, true, NONE, NONE, QUIET, false, false, Idle, false, 0, NONE, def)
  }

  function Run(def: Bits, es: seq<Event>): Et {
    if es == [] then Attached(def) else Step(Run(def, es[..|es| - 1]), es[|es| - 1])
  }

  // ------------------------------------------------------------------ what every step keeps

  ghost predicate Busy(s: Et) {
    s.pending || s.pc != Idle
  }

  /** The driver is idle: nothing saved, nothing to repeat, no tasklet. */
  ghost predicate AtRest(s: Et) {
    s.events == QUIET && !s.resched && !Busy(s) && s.sw == NONE
  }

  /** Every condition in the persistent copy is one the tasklet is going to look at. */
  ghost predicate Serving(s: Et) {
    && (s.pending ==> s.resched || Announced(s))
    && (s.pc == Receive ==> Announced(s))
    && (s.pc == Reclaim ==> Announced(s) && (s.sw.rx ==> s.resched))
    && (s.pc == Errors ==> Announced(s) && (s.sw.rx ==> s.resched) && !s.sw.tx)
    && (s.pc == Finish ==> (s.sw.rx ==> s.resched) && !s.sw.tx && !s.sw.fatal && !s.sw.soft)
  }

  ghost predicate Announced(s: Et) {
    && (s.sw.rx ==> s.events.rx) && (s.sw.tx ==> s.events.tx)
    && (s.sw.fatal || s.sw.soft ==> s.events.error)
  }

  ghost predicate Inv(s: Et) {
    && (s.up ==> !s.downing && (s.mask <==> !Busy(s)) && !(s.pending && s.pc != Idle))
    && (s.up && s.mask ==> AtRest(s))
    && (s.up && s.pending && s.resched ==> s.events == QUIET)
    && (s.up && s.pc == Receive ==> !s.resched)
    && (s.up ==> Serving(s))
    && (!s.up && !s.downing ==> AtRest(s) && s.owed == NONE)
    && (s.frames > 0 ==> s.owed.rx)
    // a condition the driver has not dealt with is still recorded
    && (s.up ==> Minus(And(s.owed, s.def), Or(s.hw, s.sw)) == NONE)
  }

  lemma IsrKeeps(s: Et)
    requires Inv(s)
    ensures Inv(Isr(s))
  {
  }

  lemma StartKeeps(s: Et)
    requires Inv(s) && s.pc == Idle && s.pending
    ensures Inv(DpcStart(s))
  {
  }

  lemma ReceiveKeeps(s: Et, o: Outcome)
    requires Inv(s) && s.pc == Receive
    ensures Inv(DpcReceive(s, o))
  {
  }

  lemma ReclaimKeeps(s: Et)
    requires Inv(s) && s.pc == Reclaim
    ensures Inv(DpcReclaim(s))
  {
  }

  lemma ErrorsKeep(s: Et, o: Outcome)
    requires Inv(s) && s.pc == Errors
    ensures Inv(DpcErrors(s, o))
  {
  }

  lemma FinishKeeps(s: Et)
    requires Inv(s) && s.pc == Finish
    ensures Inv(DpcFinish(s))
  {
  }

  lemma TaskletKeeps(s: Et, o: Outcome)
    requires Inv(s)
    ensures Inv(Tasklet(s, o))
  {
    hide Inv, DpcStart, DpcReceive, DpcReclaim, DpcErrors, DpcFinish;
    match s.pc {
      case Idle => if s.pending { StartKeeps(s); }
      case Receive => ReceiveKeeps(s, o);
      case Reclaim => ReclaimKeeps(s);
      case Errors => ErrorsKeep(s, o);
      case Finish => FinishKeeps(s);
    }
  }

  lemma UpDownKeeps(s: Et, core: bool)
    requires Inv(s)
    ensures Inv(Up(s)) && Inv(FlagDown(s)) && Inv(FinishDown(s, true, core))
  {
  }

  lemma RaiseKeeps(s: Et, b: Bits)
    requires Inv(s)
    ensures Inv(Raise(s, b))
  {
  }

  lemma {:induction false} RunKeeps(def: Bits, es: seq<Event>)
    ensures Inv(Run(def, es))
  {
    if es == [] {
    } else {
      var s := Run(def, es[..|es| - 1]);
      RunKeeps(def, es[..|es| - 1]);
      match es[|es| - 1] {
        case RaiseEv(b) => RaiseKeeps(s, b);
        case IsrEv => IsrKeeps(s);
        case TaskletEv(o) => TaskletKeeps(s, o);
        case UpEv => UpDownKeeps(s, false);
        case FlagDownEv => UpDownKeeps(s, false);
        case FinishDownEv(core) => UpDownKeeps(s, core);
      }
    }
  }

  /** Masked conditions are nobody's business, and a device that goes down stays masked. */
  ghost predicate Closed(s: Et) {
    Minus(s.sw, s.def) == NONE && (s.downing ==> !s.mask)
  }

  lemma StepCloses(s: Et, e: Event)
    requires Inv(s) && Closed(s)
    ensures Closed(Step(s, e))
  {
    hide Serving, AtRest;
    match e {
      case RaiseEv(_) => hide Inv;
      case IsrEv =>
      case TaskletEv(o) => TaskletCloses(s, o);
      case UpEv => hide Inv;
      case FlagDownEv => hide Inv;
      case FinishDownEv(core) => hide Inv;
    }
  }

  lemma TaskletCloses(s: Et, o: Outcome)
    requires (s.up ==> !s.downing) && Closed(s)
    ensures Closed(Tasklet(s, o))
  {
    hide DpcStart, DpcReceive, DpcReclaim, DpcErrors, DpcFinish, Closed;
    match s.pc {
      case Idle => StartCloses(s);
      case Receive => ReceiveCloses(s, o);
      case Reclaim => EndCloses(s);
      case Errors => ErrorsClose(s, o);
      case Finish => EndCloses(s);
    }
  }

  lemma EndCloses(s: Et)
    requires (s.up ==> !s.downing) && Closed(s)
    ensures Closed(DpcReclaim(s)) && Closed(DpcFinish(s))
  {
  }

  lemma StartCloses(s: Et)
    requires Closed(s)
    ensures Closed(DpcStart(s))
  {
  }

  lemma ReceiveCloses(s: Et, o: Outcome)
    requires Closed(s)
    ensures Closed(DpcReceive(s, o))
  {
  }

  lemma ErrorsClose(s: Et, o: Outcome)
    requires Closed(s)
    ensures Closed(DpcErrors(s, o))
  {
  }

  lemma {:induction false} RunCloses(def: Bits, es: seq<Event>)
    ensures Closed(Run(def, es))
  {
    if es != [] {
      hide Step, Closed, Inv;
      RunKeeps(def, es[..|es| - 1]);
      RunCloses(def, es[..|es| - 1]);
      StepCloses(Run(def, es[..|es| - 1]), es[|es| - 1]);
    } else {
    }
  }

  // ------------------------------------------------------------------ what that means

  /** The two assertions in et_isr, where they stand. */
  ghost predicate IsrAsserts(s: Et) {
    s.up && GetIntrEvents(s, true).1.isNew ==> s.events == QUIET && !s.resched
  }

  /** All runs: the handler's assertions hold, and while the device is up exactly one of
      "interrupts unmasked" and "et_dpc scheduled or running" is true.  No masked condition is ever
      served, and the mask is closed while the device goes down. */
  lemma AllRunsSafe(def: Bits, es: seq<Event>)
    ensures var s := Run(def, es);
            && IsrAsserts(s)
            && (s.up && s.mask ==> AtRest(s))
            && (s.up ==> (s.mask <==> !Busy(s)) && !(s.pending && s.pc != Idle))
            && Minus(s.sw, s.def) == NONE && (s.downing ==> !s.mask)
  {
    RunKeeps(def, es);
    RunCloses(def, es);
    hide Run;
  }

  /** What the handler does with interrupts unmasked: it takes exactly the conditions that are not masked
      out of the status register, announces them, closes the mask and schedules et_dpc; without one it
      leaves everything alone. */
  lemma IsrTakes(s: Et)
    requires Inv(s) && s.up && s.mask
    ensures var r, now := Isr(s), And(s.hw, s.def);
            if now == NONE then r == s
            else
              && r.sw == now && r.hw == Minus(s.hw, s.def) && !r.mask && r.pending
              && r.events == Events(true, now.rx, now.tx, now.fatal || now.soft)
              && r.owed == s.owed && r.frames == s.frames && r.up && r.pc == Idle
  {
  }

  /** The tasklet looks at what was announced and at nothing else. */
  lemma LooksWhereAnnounced(s: Et, o: Outcome)
    ensures !s.events.rx ==> DpcReceive(s, o) == s.(pc := Reclaim)
    ensures !s.events.tx ==> DpcReclaim(s) == s.(pc := Errors)
    ensures s.events.tx ==> !DpcReclaim(s).owed.tx && !DpcReclaim(s).sw.tx && DpcReclaim(s).owed.rx == s.owed.rx
  {
  }

  /** The second look at the ring, after an error that asks for no re-init and with quota left: it takes
      what came since the first look.  After any other error, or without one, the ring is left alone. */
  lemma SecondLook(s: Et, o: Outcome)
    ensures var r := DpcErrors(s, o);
            && (s.events.error ==> !r.sw.fatal && !r.sw.soft && !r.owed.fatal && !r.owed.soft)
            && (!s.events.error || s.sw.fatal || s.resched ==>
                  r.frames == s.frames && r.owed.rx == s.owed.rx && r.resched == s.resched)
            && (s.events.error && !s.sw.fatal && !s.resched ==>
                  if o.Drained? then r.frames == 0 && !r.owed.rx && !r.sw.rx && !r.resched
                  else r.resched && r.frames == Left(s.frames, o.taken) && r.owed.rx == s.owed.rx && r.sw.rx == s.sw.rx)
  {
  }

  function Left(frames: nat, taken: nat): nat {
    if taken <= frames then frames - taken else 0
  }

  /** A reset that clears the status register leaves nothing over for the next et_up: the first call of
      the handler finds nothing. */
  lemma ResetClears(s: Et)
    requires Inv(s) && s.downing && !s.pending && s.pc == Idle
    ensures var r := Up(FinishDown(s, true, true));
            r.up && r.mask && r.hw == NONE && r.owed == NONE && r.frames == 0 && Isr(r) == r
  {
  }

  /** All runs: when the chip has done something the driver has not looked at, et_dpc is on its
      way, or the next interrupt handler puts it there with that condition announced. */
  lemma NoWakeupLost(def: Bits, es: seq<Event>)
    ensures var s := Run(def, es);
            s.up && And(s.owed, s.def) != NONE ==>
              Busy(s) || (Isr(s).pending && Minus(And(s.owed, s.def), Isr(s).sw) == NONE && Announced(Isr(s)))
  {
    RunKeeps(def, es);
    hide Run;
  }

  /** et_dpc without anything in between. */
  function Pass(s: Et, o1: Outcome, o2: Outcome): Et {
    Tasklet(Tasklet(Tasklet(Tasklet(Tasklet(s, o1), o1), o1), o2), o1)
  }

  lemma PassIs(s: Et, o1: Outcome, o2: Outcome)
    requires s.up && s.pending && s.pc == Idle
    ensures Pass(s, o1, o2) == DpcFinish(DpcErrors(DpcReclaim(DpcReceive(DpcStart(s), o1)), o2))
  {
    var a := DpcStart(s);
    assert a.pc == Receive;
    var b := DpcReceive(a, o1);
    assert b.pc == Reclaim;
    var c := DpcReclaim(b);
    assert c.pc == Errors;
    assert DpcErrors(c, o2).pc == Finish;
  }

  /** One interrupt and one uninterrupted et_dpc that empties the ring leave nothing undone and
      the interrupts unmasked; what was served is acknowledged, so that the chip does not interrupt
      again. */
  lemma OneRoundHandlesAll(s: Et)
    requires Inv(s) && s.up && s.mask && And(s.owed, s.def) != NONE
    ensures var r := Pass(Isr(s), Drained, Drained);
            && r.mask && !Busy(r) && And(r.owed, r.def) == NONE && (s.def.rx ==> r.frames == 0)
            && And(r.hw, r.def) == NONE && Isr(r) == r
  {
    IsrAnnounces(s);
    IsrKeeps(s);
    RoundFrom(Isr(s));
    RoundIsQuiet(Isr(s));
  }

  /** The pass ends with nothing to interrupt for: what the handler found is acknowledged, and nothing
      came since. */
  lemma RoundIsQuiet(t: Et)
    requires Inv(t) && t.up && t.pending && t.pc == Idle && !t.resched && And(t.hw, t.def) == NONE
    ensures var r := Pass(t, Drained, Drained); And(r.hw, r.def) == NONE && Isr(r) == r
  {
    PassIs(t, Drained, Drained);
    hide Pass, Isr, DpcStart, DpcReceive, DpcReclaim, DpcErrors, DpcFinish;
    PassKeepsStatus(t);
    QuietIsr(DpcFinish(DpcErrors(DpcReclaim(DpcReceive(DpcStart(t), Drained)), Drained)));
  }

  lemma PassKeepsStatus(t: Et)
    requires t.up && !t.resched
    ensures var r := DpcFinish(DpcErrors(DpcReclaim(DpcReceive(DpcStart(t), Drained)), Drained));
            r.hw == t.hw && r.def == t.def
  {
    hide DpcStart, DpcReceive, DpcReclaim, DpcErrors, DpcFinish;
    StartKeepsStatus(t);
    var a := DpcStart(t);
    LooksKeepStatus(a, Drained);
    var b := DpcReceive(a, Drained);
    EndKeepsStatus(b);
    ErrorsKeepStatus(DpcReclaim(b), Drained);
    EndKeepsStatus(DpcErrors(DpcReclaim(b), Drained));
  }

  lemma StartKeepsStatus(s: Et)
    requires s.up && !s.resched
    ensures DpcStart(s).hw == s.hw && DpcStart(s).def == s.def
  {
  }

  lemma LooksKeepStatus(s: Et, o: Outcome)
    ensures DpcReceive(s, o).hw == s.hw && DpcReceive(s, o).def == s.def
  {
  }

  lemma ErrorsKeepStatus(s: Et, o: Outcome)
    ensures DpcErrors(s, o).hw == s.hw && DpcErrors(s, o).def == s.def
  {
  }

  lemma EndKeepsStatus(s: Et)
    ensures DpcReclaim(s).hw == s.hw && DpcReclaim(s).def == s.def
    ensures DpcFinish(s).hw == s.hw && DpcFinish(s).def == s.def
  {
  }

  lemma QuietIsr(r: Et)
    requires And(r.hw, r.def) == NONE
    ensures Isr(r) == r
  {
  }

  lemma IsrAnnounces(s: Et)
    requires Inv(s) && s.up && s.mask && And(s.owed, s.def) != NONE
    ensures var t := Isr(s);
            && t.up && t.pending && t.pc == Idle && !t.resched && Announced(t)
            && Minus(And(t.owed, t.def), t.sw) == NONE && t.def == s.def
            && And(t.hw, t.def) == NONE
  {
  }

  lemma RoundFrom(t: Et)
    requires Inv(t) && t.up && t.pending && t.pc == Idle && !t.resched && Announced(t)
    requires Minus(And(t.owed, t.def), t.sw) == NONE
    ensures var r := Pass(t, Drained, Drained);
            r.mask && !Busy(r) && And(r.owed, r.def) == NONE && (t.def.rx ==> r.frames == 0)
  {
    PassIs(t, Drained, Drained);
    hide Pass;
  }

  /** A pass that is cut short by its quota takes frames off the ring and schedules the next. */
  lemma QuotaReschedules(s: Et, taken: nat, o2: Outcome)
    requires Inv(s) && s.up && s.pending && s.pc == Idle && DpcStart(s).events.rx && 0 < taken <= s.frames
    ensures var r := Pass(s, Quota(taken), o2);
            r.pending && r.resched && !r.mask && r.frames == s.frames - taken
  {
    PassIs(s, Quota(taken), o2);
    hide Pass;
  }

  /** The comment in et_dpc wants interrupts left off when the chip has to be re-initialised.  A pass
      with a fatal error leaves them off if and only if its first look at the ring used up the quota,
      as in a pass without an error. */
  lemma FatalErrorUnmasks(s: Et, o1: Outcome, o2: Outcome)
    requires Inv(s) && s.up && s.pending && s.pc == Idle && DpcStart(s).sw.fatal
    ensures !Pass(s, o1, o2).mask <==> DpcStart(s).events.rx && o1.Quota?
    ensures Pass(s, o1, o2).up
  {
    PassIs(s, o1, o2);
    hide Pass;
    StartAnnounces(s);
    ErrorsResched(DpcReclaim(DpcReceive(DpcStart(s), o1)), o2);
  }

  lemma StartAnnounces(s: Et)
    requires Inv(s) && s.up && s.pending && s.pc == Idle
    ensures var t := DpcStart(s); Announced(t) && !t.resched && !t.mask && t.up
  {
  }

  /** With a fatal error the second look at the ring does not happen. */
  lemma ErrorsResched(s: Et, o: Outcome)
    requires s.sw.fatal && s.events.error
    ensures DpcErrors(s, o).resched == s.resched && DpcErrors(s, o).mask == s.mask && DpcErrors(s, o).up == s.up
  {
  }

  const FATAL: Bits := Bits(false, false, true, false)

  /** It happens from the start: the device goes up, a fatal error comes, the handler and one pass
      run, and interrupts are unmasked. */
  lemma FatalRun(def: Bits, o1: Outcome, o2: Outcome)
    requires def.fatal
    ensures var s := Run(def, [UpEv, RaiseEv(FATAL), IsrEv]);
            && Inv(s) && s.up && s.pending && s.pc == Idle && DpcStart(s).sw.fatal
            && Pass(s, o1, o2).mask
  {
    var es := [UpEv, RaiseEv(FATAL), IsrEv];
    RunKeeps(def, es);
    assert es[..2] == [UpEv, RaiseEv(FATAL)] && es[..2][..1] == [UpEv] && [UpEv][..0] == [];
    var s := Isr(Raise(Up(Attached(def)), FATAL));
    assert Run(def, [UpEv]) == Up(Attached(def));
    assert Run(def, es[..2]) == Raise(Up(Attached(def)), FATAL);
    assert Run(def, es) == s;
    hide Run, Pass;
    FatalErrorUnmasks(s, o1, o2);
  }

  /** et_down without a reset (no caller asks for it) would keep the invariant over the next
      et_up exactly when nothing was saved when the device went down. */
  lemma DownWithoutReset(s: Et, core: bool)
    requires Inv(s) && s.downing && !s.pending && s.pc == Idle
    ensures Inv(Up(FinishDown(s, false, core))) <==>
            AtRest(s) && Minus(And(s.owed, s.def), s.hw) == NONE
  {
  }
}
