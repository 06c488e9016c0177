/** The clock task as it is written: scans over the alarms of all processes. */
module AlarmTask {
  import opened AlarmClock

  /** What the scan of do_clock_int has done after i processes. */
  ghost predicate Scanned(was: seq<Tick>, now: Tick, i: nat, alarms: seq<Tick>, next: Tick, fired: seq<Firing>)
    requires i <= |was|
  {
    && |alarms| == |was|
    && (forall j :: 0 <= j < |was| ==> alarms[j] == if j < i then Silenced(was, now)[j] else was[j])
    && next == Earliest(Silenced(was, now)[..i]) && fired == Due(was, now, i)
  }

  lemma {:induction false} ScanAdvances(was: seq<Tick>, now: Tick, i: nat, alarms: seq<Tick>, next: Tick,
                                        fired: seq<Firing>)
    requires i < |was| && Scanned(was, now, i, alarms, next, fired)
    ensures var a, due := alarms[i], IsDue(alarms[i], now);
            Scanned(was, now, i + 1, alarms[i := if due then 0 else a], if a != 0 && !due && a < next then a else next,
                    fired + if due then [Firing(i, a, now)] else [])
  {
    var silent := Silenced(was, now);
    assert silent[..i + 1][..i] == silent[..i];
  }

  lemma {:induction false} ScanEnds(was: seq<Tick>, now: Tick, alarms: seq<Tick>, next: Tick, fired: seq<Firing>)
    requires Scanned(was, now, |was|, alarms, next, fired)
    ensures alarms == Silenced(was, now) && next == Earliest(Silenced(was, now)) && fired == Due(was, now, |was|)
  {
    assert Silenced(was, now)[..|was|] == Silenced(was, now);
  }

  class Clock {
    const alarm: array<Tick>
    var ticks: Tick
    var pendingTicks: Tick
    var nextAlarm: Tick
    var fired: seq<Firing>

    ghost function Value(): Timer
      reads this, alarm
    {
      Timer(alarm[..], ticks, pendingTicks, nextAlarm, fired)
    }

    constructor (nrProcs: nat)
      ensures Value() == Timer(seq(nrProcs, _ => 0), 0, 0, 0, []) && Inv(Value()) && fresh(alarm)
    {
      alarm := new Tick[nrProcs](_ => 0);
      ticks, pendingTicks, nextAlarm := 0, 0, 0;
      fired := [];
    }

    /** The start of every turn of clock_task. */
    method Count()
      modifies `ticks, `pendingTicks
      ensures Value() == Counted(old(Value()))
    {
      ticks := (ticks + pendingTicks) % WRAP;
      pendingTicks := 0;
    }

    /** common_set_alarm. */
    method CommonSetAlarm(p: nat, delta: Tick)
      requires p < alarm.Length
      modifies alarm, `nextAlarm
      ensures Value() == SetAlarm(old(Value()), p, delta)
    {
      ghost var alarms := SetAlarm(Value(), p, delta).alarms;
      alarm[p] := if delta == 0 then 0 else (ticks + delta) % WRAP;
      assert alarm[..] == alarms;
      nextAlarm := LONG_MAX;
      var i := 0;
      while i < alarm.Length
        modifies `nextAlarm
        invariant 0 <= i <= alarm.Length && nextAlarm == Earliest(alarms[..i]) && alarm[..] == alarms
      {
        assert alarms[..i + 1][..i] == alarms[..i] && alarm[i] == alarms[i];
        if alarm[i] != 0 && alarm[i] < nextAlarm {
          nextAlarm := alarm[i];
        }
        i := i + 1;
      }
      assert alarms[..i] == alarms;
    }

    /** The body of the loop of do_clock_int. */
    method Scan(i: nat)
      requires i < alarm.Length
      modifies alarm, `nextAlarm, `fired
      ensures var a, due := old(alarm[i]), IsDue(old(alarm[i]), ticks);
              && alarm[..] == old(alarm[..])[i := if due then 0 else a]
              && fired == old(fired) + (if due then [Firing(i, a, ticks)] else [])
              && nextAlarm == if a != 0 && !due && a < old(nextAlarm) then a else old(nextAlarm)
    {
      if alarm[i] != 0 {
        if alarm[i] <= ticks {
          fired := fired + [Firing(i, alarm[i], ticks)];
          alarm[i] := 0;
        }
        if alarm[i] != 0 && alarm[i] < nextAlarm {
          nextAlarm := alarm[i];
        }
      }
    }

    /** do_clock_int. Watchdogs are taken not to set alarms. */
    method DoClockInt()
      modifies alarm, `nextAlarm, `fired
      ensures Value() == ClockInt(old(Value()))
    {
      ghost var was, before, found := alarm[..], fired, [];
      if nextAlarm <= ticks {
        nextAlarm := LONG_MAX;
        var i := 0;
        while i < alarm.Length
          modifies alarm, `nextAlarm, `fired
          invariant 0 <= i <= alarm.Length && fired == before + found
          invariant Scanned(was, ticks, i, alarm[..], nextAlarm, found)
        {
          ScanAdvances(was, ticks, i, alarm[..], nextAlarm, found);
          found := found + if IsDue(alarm[i], ticks) then [Firing(i, alarm[i], ticks)] else [];
          Scan(i);
          i := i + 1;
        }
        ScanEnds(was, ticks, alarm[..], nextAlarm, found);
      }
    }

    /** A turn of clock_task for a request to set an alarm. */
    method ServeSetAlarm(p: nat, delta: Tick)
      requires p < alarm.Length
      modifies alarm, `ticks, `pendingTicks, `nextAlarm
      ensures Value() == Step(old(Value()), Set(p, delta))
    {
      Count();
      CommonSetAlarm(p, delta);
    }

    /** A turn of clock_task for a message from the clock's interrupt handler. */
    method ServeInterrupt()
      modifies alarm, `ticks, `pendingTicks, `nextAlarm, `fired
      ensures Value() == Step(old(Value()), Wake)
    {
      Count();
      DoClockInt();
    }

    /** clock_handler, as far as alarms go: whether the clock task is to be woken. */
    method ClockHandler(lost: Tick) returns (wakes: bool)
      modifies `pendingTicks
      ensures Value() == Ticked(old(Value()), lost) && (wakes <==> Wakes(Value()))
    {
      var oneTicks := (lost + 1) % 0x1_0000;
      pendingTicks := (pendingTicks + oneTicks) % WRAP;
      var now := (ticks + pendingTicks) % WRAP;
      wakes := nextAlarm != 0 && nextAlarm <= now;
    }
  }
}
