/** The interrupt entry points over the fields they update.  et_dpc is cut where an interrupt
    handler may run in between; `pc` is the place it was cut at. */
module IntrDriver {
  import opened IntrProtocol

  class EtDriver {
    // etc_info_t and et_info_t
    var up: bool
    var events: Events
    var resched: bool
    // ch_t and the chip's registers
    var mask: bool
    var intstatus: Bits
    var hwStatus: Bits
    const def: Bits
    // the tasklet
    var pending: bool
    var pc: Pc
    var downing: bool
    // what is there to be done
    var frames: nat
    var owed: Bits

    ghost function Abs(): Et
      reads this
    {
      Et(up, mask, hwStatus, intstatus, events, resched, pending, pc, downing, frames, owed, def)
    }

    constructor (def: Bits)
      ensures Abs() == Attached(def) && Inv(Abs())
    {
      up, events, resched := false, QUIET, false;
      mask, intstatus, hwStatus, this.def := true, NONE, NONE, def;
      pending, pc, downing, frames, owed := false, Idle, false, 0, NONE;
    }

    method GetIntrEventsBits(inIsr: bool) returns (ev: Events)
      modifies `intstatus
      ensures (Abs(), ev) == GetIntrEvents(old(Abs()), inIsr)
    {
      var status := if inIsr then (if mask then And(hwStatus, def) else NONE) else And(hwStatus, def);
      var isNew := status != NONE;
      intstatus := Or(intstatus, status);
      if intstatus == NONE {
        return QUIET;
      }
      ev := Events(isNew, intstatus.rx, intstatus.tx, intstatus.fatal || intstatus.soft);
    }

    method ChipIntrsOff()
      modifies `mask, `hwStatus
      ensures Abs() == IntrsOff(old(Abs()))
    {
      mask := false;
      hwStatus := Minus(hwStatus, intstatus);
    }

    /** et_isr; its assertions hold. */
    method EtIsr() returns (mine: bool)
      requires Inv(Abs())
      modifies `intstatus, `mask, `hwStatus, `events, `pending
      ensures Abs() == Isr(old(Abs())) && Inv(Abs())
      ensures mine <==> old(up) && old(mask) && And(old(hwStatus), def) != NONE
    {
      IsrKeeps(Abs());
      hide Inv;
      mine := false;
      if !up {
        return;
      }
      assert IsrAsserts(Abs()) by { AssertsHold(Abs()); }
      var ev := GetIntrEventsBits(true);
      if !ev.isNew {
        return;
      }
      ChipIntrsOff();
      assert events == QUIET;
      events := ev;
      assert resched == false;
      pending := true;
      mine := true;
    }

    method ReceiveFrames(o: Outcome)
      modifies `frames, `owed, `intstatus, `resched
      ensures Abs() == RxEvent(old(Abs()), o)
    {
      match o {
        case Drained =>
          frames := 0;
          owed := owed.(rx := false);
          intstatus := intstatus.(rx := false);
        case Quota(taken) =>
          frames := if taken <= frames then frames - taken else 0;
          resched := true;
      }
    }

    method Begin()
      requires pc == Idle && pending
      modifies `pending, `events, `intstatus, `resched, `pc
      ensures Abs() == DpcStart(old(Abs()))
    {
      pending := false;
      if !up {
        return;
      }
      if resched {
        events := GetIntrEventsBits(false);
        resched := false;
      }
      pc := Receive;
    }

    method ReclaimSent()
      requires pc == Reclaim
      modifies `owed, `intstatus, `pc
      ensures Abs() == DpcReclaim(old(Abs()))
    {
      if events.tx {
        owed := owed.(tx := false);
        intstatus := intstatus.(tx := false);
      }
      pc := Errors;
    }

    method HandleErrors(o: Outcome)
      requires pc == Errors
      modifies `owed, `intstatus, `frames, `resched, `pc
      ensures Abs() == DpcErrors(old(Abs()), o)
    {
      if events.error {
        var fatal := intstatus.fatal;
        owed := owed.(fatal := false, soft := false);
        intstatus := intstatus.(fatal := false, soft := false);
        if !fatal && !resched {
          ReceiveFrames(o);
        }
      }
      pc := Finish;
    }

    method End()
      requires pc == Finish
      modifies `events, `pc, `resched, `pending, `mask
      ensures Abs() == DpcFinish(old(Abs()))
    {
      events := QUIET;
      pc := Idle;
      if !up {
        resched := false;
      } else if resched {
        pending := true;
      } else {
        mask := true;
      }
    }

    /** The next stretch of et_dpc. */
    method EtDpc(o: Outcome)
      requires Inv(Abs()) && (pc != Idle || pending)
      modifies this
      ensures Abs() == Tasklet(old(Abs()), o) && Inv(Abs())
    {
      TaskletKeeps(Abs(), o);
      hide Inv, DpcStart, DpcReclaim, DpcErrors, DpcFinish, RxEvent;
      match pc {
        case Idle =>
          Begin();
        case Receive =>
          if events.rx {
            ReceiveFrames(o);
          }
          pc := Reclaim;
        case Reclaim =>
          ReclaimSent();
        case Errors =>
          HandleErrors(o);
        case Finish =>
          End();
      }
    }

    /** et_up. */
    method EtUp()
      requires Inv(Abs())
      modifies `up, `mask
      ensures Abs() == Up(old(Abs())) && Inv(Abs())
    {
      UpDownKeeps(Abs(), false);
      hide Inv;
      if up || downing {
        return;
      }
      up := true;
      mask := true;
    }

    /** et_down up to tasklet_kill. */
    method EtFlagDown()
      requires Inv(Abs())
      modifies `up, `mask, `hwStatus, `downing
      ensures Abs() == FlagDown(old(Abs())) && Inv(Abs())
    {
      UpDownKeeps(Abs(), false);
      hide Inv;
      ChipIntrsOff();
      up := false;
      downing := true;
    }

    /** et_down from there on, with et_reset. */
    method EtFinishDown(core: bool)
      requires Inv(Abs()) && downing && !pending && pc == Idle
      modifies this
      ensures Abs() == FinishDown(old(Abs()), true, core) && Inv(Abs())
    {
      UpDownKeeps(Abs(), core);
      hide Inv;
      ChipIntrsOff();
      up, downing := false, false;
      intstatus, frames, owed := NONE, 0, NONE;
      if core {
        hwStatus := NONE;
      }
      events := QUIET;
      resched := false;
    }
  }

  lemma AssertsHold(s: Et)
    requires Inv(s)
    ensures IsrAsserts(s)
  {
  }
}
