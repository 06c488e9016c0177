/** Alarms: one per process, and the earliest of them, which a tick of the clock is compared with. */
module AlarmClock {
  const WRAP := 0x1_0000_0000
  const LONG_MAX: Tick := 2147483647

  /** A time in clock ticks: 32 bits, unsigned. */
  type Tick = x: nat | x < 0x1_0000_0000

  function Plus(a: Tick, b: Tick): Tick {
    (a + b) % WRAP
  }

  /** alarms: 0 for a process without one. pending: ticks that the clock task has not yet counted. fired: the processes
      whose alarms went off, in order, with the alarm and the time. */
  datatype Firing = Firing(nr: nat, alarm: Tick, at: Tick)
  datatype Timer = Timer(alarms: seq<Tick>, ticks: Tick, pending: Tick, nextAlarm: Tick, fired: seq<Firing>)

  // ---------------------------------------------------------------- the operations

  /** The earliest alarm, or LONG_MAX if there is none or all are later. */
  function Earliest(alarms: seq<Tick>): Tick {
    if alarms == [] then LONG_MAX
    else
      var a, e := alarms[|alarms| - 1], Earliest(alarms[..|alarms| - 1]);
      if a != 0 && a < e then a else e
  }

  predicate IsDue(alarm: Tick, now: Tick) {
    alarm != 0 && alarm <= now
  }

  /** The alarms of the first n processes that are due. */
  function Due(alarms: seq<Tick>, now: Tick, n: nat): seq<Firing>
    requires n <= |alarms|
  {
    if n == 0 then []
    else Due(alarms, now, n - 1) + if IsDue(alarms[n - 1], now) then [Firing(n - 1, alarms[n - 1], now)] else []
  }

  function Silenced(alarms: seq<Tick>, now: Tick): (r: seq<Tick>)
    ensures |r| == |alarms|
  {
    seq(|alarms|, i requires 0 <= i < |alarms| => if IsDue(alarms[i], now) then 0 else alarms[i])
  }

  /** The clock task has a message: the ticks since the last one are counted. */
  function Counted(t: Timer): Timer {
    t.(ticks := Plus(t.ticks, t.pending), pending := 0)
  }

  /** common_set_alarm; 0 turns the alarm off. */
  function SetAlarm(t: Timer, p: nat, delta: Tick): (r: Timer)
    requires p < |t.alarms|
    ensures |r.alarms| == |t.alarms|
  {
    var alarms := t.alarms[p := if delta == 0 then 0 else Plus(t.ticks, delta)];
    t.(alarms := alarms, nextAlarm := Earliest(alarms))
  }

  /** do_clock_int. */
  function ClockInt(t: Timer): (r: Timer)
    ensures |r.alarms| == |t.alarms|
  {
    if t.nextAlarm > t.ticks then t
    else
      var alarms := Silenced(t.alarms, t.ticks);
      t.(alarms := alarms, nextAlarm := Earliest(alarms), fired := t.fired + Due(t.alarms, t.ticks, |t.alarms|))
  }

  /** A tick of the clock, with `lost` ticks that went unnoticed before it. All of them are counted in 16 bits. */
  function Ticked(t: Timer, lost: Tick): Timer {
    t.(pending := Plus(t.pending, (lost + 1) % 0x1_0000))
  }

  /** Whether a tick that leaves t wakes the clock task for an alarm. */
  predicate Wakes(t: Timer) {
    t.nextAlarm != 0 && t.nextAlarm <= Plus(t.ticks, t.pending)
  }

  // ---------------------------------------------------------------- what holds in every run

  datatype Event =
    | Set(p: nat, delta: Tick)
    | Tock(lost: Tick)
    | Wake
    | Fork(child: nat, parent: nat)
    | Exit(p: nat)

  predicate Fits(t: Timer, e: Event) {
    match e
    case Set(p, _) => p < |t.alarms|
    case Fork(c, p) => c < |t.alarms| && p < |t.alarms| && t.alarms[c] == 0
    case Exit(p) => p < |t.alarms|
    case _ => true
  }

  /** A forked process inherits its parent's alarm; an exiting one loses its own. */
  function Step(t: Timer, e: Event): (r: Timer)
    requires Fits(t, e)
    ensures |r.alarms| == |t.alarms|
  {
    match e
    case Set(p, delta) => SetAlarm(Counted(t), p, delta)
    case Tock(lost) => Ticked(t, lost)
    case Wake => ClockInt(Counted(t))
    case Fork(c, p) => t.(alarms := t.alarms[c := t.alarms[p]])
    case Exit(p) => t.(alarms := t.alarms[p := 0])
  }

  /** nextAlarm is never later than an alarm, and is not 0 while there is one. */
  predicate Inv(t: Timer) {
    forall i :: 0 <= i < |t.alarms| && t.alarms[i] != 0 ==> 0 < t.nextAlarm <= t.alarms[i]
  }

  lemma {:induction false} EarliestIs(alarms: seq<Tick>)
    ensures forall i :: 0 <= i < |alarms| && alarms[i] != 0 ==> Earliest(alarms) <= alarms[i]
    ensures 0 < Earliest(alarms) <= LONG_MAX
    ensures Earliest(alarms) < LONG_MAX ==> Earliest(alarms) in alarms
  {
    if alarms != [] {
      var rest := alarms[..|alarms| - 1];
      EarliestIs(rest);
      assert forall i :: 0 <= i < |rest| ==> rest[i] == alarms[i];
      if Earliest(alarms) < LONG_MAX && Earliest(alarms) == Earliest(rest) {
        assert Earliest(rest) in rest;
      }
    }
  }

  lemma StepKeepsInv(t: Timer, e: Event)
    requires Inv(t) && Fits(t, e)
    ensures Inv(Step(t, e))
    ensures e.Set? ==> Step(t, e).nextAlarm == Earliest(Step(t, e).alarms)
  {
    EarliestIs(Step(t, e).alarms);
  }

  predicate Legal(t: Timer, run: seq<Event>)
    decreases |run|
  {
    run == [] || (Fits(t, run[0]) && Legal(Step(t, run[0]), run[1..]))
  }

  function After(t: Timer, run: seq<Event>): (r: Timer)
    requires Legal(t, run)
    ensures |r.alarms| == |t.alarms|
    decreases |run|
  {
    if run == [] then t else After(Step(t, run[0]), run[1..])
  }

  lemma {:induction false} RunKeepsInv(t: Timer, run: seq<Event>)
    requires Inv(t) && Legal(t, run)
    ensures Inv(After(t, run))
    ensures run != [] && run[|run| - 1].Set? ==> After(t, run).nextAlarm == Earliest(After(t, run).alarms)
    decreases |run|
  {
    if run != [] {
      StepKeepsInv(t, run[0]);
      RunKeepsInv(Step(t, run[0]), run[1..]);
    }
  }

  // ---------------------------------------------------------------- who is woken, and when

  lemma {:induction false} NothingDue(alarms: seq<Tick>, now: Tick, n: nat)
    requires n <= |alarms| && forall i :: 0 <= i < n ==> !IsDue(alarms[i], now)
    ensures Due(alarms, now, n) == []
  {
    if n > 0 {
      NothingDue(alarms, now, n - 1);
    }
  }

  /** The list of those that are due holds nothing else, in the order of the processes. */
  lemma {:induction false} DueIsSound(alarms: seq<Tick>, now: Tick, n: nat, k: nat)
    requires n <= |alarms| && k < |Due(alarms, now, n)|
    ensures var f := Due(alarms, now, n)[k];
            f.nr < n && f.alarm == alarms[f.nr] && f.at == now && IsDue(f.alarm, now)
    ensures k > 0 ==> Due(alarms, now, n)[k - 1].nr < Due(alarms, now, n)[k].nr
  {
    var m := |Due(alarms, now, n - 1)|;
    if k < m {
      DueIsSound(alarms, now, n - 1, k);
    } else if k > 0 {
      DueIsSound(alarms, now, n - 1, k - 1);
    }
  }

  /** After an alarm interrupt no alarm is due; exactly those that were due have gone off, each once, and the others
      stand. */
  lemma DueAlarmsGoOff(t: Timer)
    requires Inv(t)
    ensures var r := ClockInt(t);
            && r.fired == t.fired + Due(t.alarms, t.ticks, |t.alarms|)
            && r.alarms == Silenced(t.alarms, t.ticks)
            && (forall i :: 0 <= i < |t.alarms| ==> !IsDue(r.alarms[i], t.ticks))
            && (t.nextAlarm <= t.ticks ==> r.nextAlarm == Earliest(r.alarms))
  {
    if t.nextAlarm > t.ticks {
      NothingDue(t.alarms, t.ticks, |t.alarms|);
      assert Silenced(t.alarms, t.ticks) == t.alarms;
      assert t.fired + [] == t.fired;
    }
  }

  /** In numbers: an alarm that is set and not later than the clock goes off once, with its process, and is cleared;
      one that is later stands; and nothing else goes off. */
  lemma AlarmsGoOffExactly(t: Timer, i: nat)
    requires Inv(t) && i < |t.alarms|
    ensures var r, due := ClockInt(t), t.alarms[i] != 0 && t.alarms[i] <= t.ticks;
            && |r.fired| >= |t.fired| && r.fired[..|t.fired|] == t.fired
            && r.alarms[i] == (if due then 0 else t.alarms[i])
            && (due <==> exists k :: |t.fired| <= k < |r.fired| && r.fired[k] == Firing(i, t.alarms[i], t.ticks))
            && forall k :: |t.fired| <= k < |r.fired| && r.fired[k].nr == i ==>
                 r.fired[k] == Firing(i, t.alarms[i], t.ticks)
                 && forall j :: |t.fired| <= j < |r.fired| && r.fired[j].nr == i ==> j == k
  {
    var due := Due(t.alarms, t.ticks, |t.alarms|);
    DueAlarmsGoOff(t);
    DueIsExact(t.alarms, t.ticks);
    if IsDue(t.alarms[i], t.ticks) {
      DueIsComplete(t.alarms, t.ticks, |t.alarms|, i);
      var k :| 0 <= k < |due| && due[k] == Firing(i, t.alarms[i], t.ticks);
      assert ClockInt(t).fired[|t.fired| + k] == due[k];
    }
  }

  lemma {:induction false} DueIsComplete(alarms: seq<Tick>, now: Tick, n: nat, i: nat)
    requires i < n <= |alarms| && IsDue(alarms[i], now)
    ensures Firing(i, alarms[i], now) in Due(alarms, now, n)
  {
    if i < n - 1 {
      DueIsComplete(alarms, now, n - 1, i);
    }
  }

  lemma {:induction false} DueInOrder(alarms: seq<Tick>, now: Tick, n: nat, j: nat, k: nat)
    requires n <= |alarms| && j < k < |Due(alarms, now, n)|
    ensures Due(alarms, now, n)[j].nr < Due(alarms, now, n)[k].nr
  {
    DueIsSound(alarms, now, n, k);
    if j < k - 1 {
      DueInOrder(alarms, now, n, j, k - 1);
    }
  }

  /** What went off, and that it did so once. */
  lemma {:induction false} DueIsExact(alarms: seq<Tick>, now: Tick)
    ensures var due := Due(alarms, now, |alarms|);
            && (forall k :: 0 <= k < |due| ==>
                  due[k].nr < |alarms| && IsDue(due[k].alarm, now)
                    && due[k] == Firing(due[k].nr, alarms[due[k].nr], now))
            && forall j, k :: 0 <= j < k < |due| ==> due[j].nr != due[k].nr
  {
    var due := Due(alarms, now, |alarms|);
    forall k | 0 <= k < |due|
      ensures due[k].nr < |alarms| && IsDue(due[k].alarm, now) && due[k] == Firing(due[k].nr, alarms[due[k].nr], now)
    {
      DueIsSound(alarms, now, |alarms|, k);
    }
    forall j, k | 0 <= j < k < |due|
      ensures due[j].nr != due[k].nr
    {
      DueInOrder(alarms, now, |alarms|, j, k);
    }
  }

  /** A tick that finds an alarm due always wakes the clock task. */
  lemma NoAlarmIsMissed(t: Timer, lost: Tick, i: nat)
    requires Inv(t) && i < |t.alarms| && IsDue(t.alarms[i], Plus(t.ticks, Ticked(t, lost).pending))
    ensures Wakes(Ticked(t, lost))
  {
  }

  function One(b: bool): nat {
    if b then 1 else 0
  }

  /** How often process i goes off in a list. */
  function Firings(fs: seq<Firing>, i: nat): nat {
    if fs == [] then 0 else Firings(fs[..|fs| - 1], i) + One(fs[|fs| - 1].nr == i)
  }

  lemma {:induction false} FiringsAdd(a: seq<Firing>, b: seq<Firing>, i: nat)
    ensures Firings(a + b, i) == Firings(a, i) + Firings(b, i)
  {
    if b == [] {
      assert a + b == a;
    } else {
      assert (a + b)[..|a + b| - 1] == a + b[..|b| - 1];
      FiringsAdd(a, b[..|b| - 1], i);
    }
  }

  lemma {:induction false} FiringsOfDue(alarms: seq<Tick>, now: Tick, n: nat, i: nat)
    requires n <= |alarms|
    ensures Firings(Due(alarms, now, n), i) == One(i < n && IsDue(alarms[i], now))
  {
    if n > 0 {
      FiringsOfDue(alarms, now, n - 1, i);
      var last := if IsDue(alarms[n - 1], now) then [Firing(n - 1, alarms[n - 1], now)] else [];
      FiringsAdd(Due(alarms, now, n - 1), last, i);
      assert forall f: Firing :: [f][..0] == [];
    }
  }

  /** The event gives process i an alarm. */
  predicate Arms(t: Timer, e: Event, i: nat)
    requires Fits(t, e) && i < |t.alarms|
  {
    Step(t, e).alarms[i] != 0 && ((e.Set? && e.p == i) || (e.Fork? && e.child == i))
  }

  /** How often process i comes to have an alarm. */
  function Armings(t: Timer, run: seq<Event>, i: nat): nat
    requires Legal(t, run) && i < |t.alarms|
    decreases |run|
  {
    if run == [] then 0 else One(Arms(t, run[0], i)) + Armings(Step(t, run[0]), run[1..], i)
  }

  lemma {:induction false} StepFires(t: Timer, e: Event, i: nat)
    requires Inv(t) && Fits(t, e) && i < |t.alarms|
    ensures var r := Step(t, e);
            Firings(r.fired, i) + One(r.alarms[i] != 0)
            <= Firings(t.fired, i) + One(t.alarms[i] != 0) + One(Arms(t, e, i))
  {
    if e.Wake? {
      var c := Counted(t);
      DueAlarmsGoOff(c);
      FiringsAdd(t.fired, Due(c.alarms, c.ticks, |c.alarms|), i);
      FiringsOfDue(c.alarms, c.ticks, |c.alarms|, i);
    }
  }

  /** In every run an alarm goes off at most once for each time it is set or inherited. */
  lemma {:induction false} AlarmsGoOffOnce(t: Timer, run: seq<Event>, i: nat)
    requires Inv(t) && Legal(t, run) && i < |t.alarms|
    ensures Firings(After(t, run).fired, i) + One(After(t, run).alarms[i] != 0)
            <= Firings(t.fired, i) + One(t.alarms[i] != 0) + Armings(t, run, i)
    decreases |run|
  {
    if run != [] {
      StepFires(t, run[0], i);
      StepKeepsInv(t, run[0]);
      AlarmsGoOffOnce(Step(t, run[0]), run[1..], i);
    }
  }

  /** A process that has exited goes off no more, unless it is given an alarm again. */
  lemma {:induction false} ExitedStaysSilent(t: Timer, run: seq<Event>, i: nat)
    requires Inv(t) && i < |t.alarms| && Legal(Step(t, Exit(i)), run) && Armings(Step(t, Exit(i)), run, i) == 0
    ensures Firings(After(Step(t, Exit(i)), run).fired, i) <= Firings(t.fired, i)
  {
    StepKeepsInv(t, Exit(i));
    AlarmsGoOffOnce(Step(t, Exit(i)), run, i);
  }

  /** A forked process goes off when its parent does, at the first interrupt that finds the parent's alarm due. */
  lemma InheritedGoesOff(t: Timer, child: nat, parent: nat)
    requires Inv(t) && Fits(t, Fork(child, parent))
    ensures var c, r := Counted(t), Step(Step(t, Fork(child, parent)), Wake);
            && (forall f :: f in t.fired ==> f in r.fired)
            && (t.alarms[parent] != 0 && t.alarms[parent] <= c.ticks ==>
                  && Firing(parent, t.alarms[parent], c.ticks) in r.fired
                  && Firing(child, t.alarms[parent], c.ticks) in r.fired)
  {
    var c := Counted(Step(t, Fork(child, parent)));
    StepKeepsInv(t, Fork(child, parent));
    DueAlarmsGoOff(c);
    if IsDue(t.alarms[parent], c.ticks) {
      DueIsComplete(c.alarms, c.ticks, |c.alarms|, parent);
      DueIsComplete(c.alarms, c.ticks, |c.alarms|, child);
    }
  }

  /** Setting an alarm `delta` ticks ahead works exactly if the clock does not wrap before then: otherwise the alarm is
      due at once, or there is none. */
  lemma AlarmIsAheadExactly(t: Timer, p: nat, delta: Tick)
    requires p < |t.alarms| && 0 < delta
    ensures var a := SetAlarm(t, p, delta).alarms[p];
            && (t.ticks + delta < WRAP <==> a == t.ticks + delta)
            && (t.ticks + delta >= WRAP <==> a == 0 || IsDue(a, t.ticks))
            && (t.ticks + delta == WRAP <==> a == 0)
  {
  }

  // ---------------------------------------------------------------- uptime

  function Passed(e: Event): nat {
    if e.Tock? then e.lost + 1 else 0
  }

  /** How many ticks pass in a run. */
  function Elapsed(run: seq<Event>): nat {
    if run == [] then 0 else Passed(run[0]) + Elapsed(run[1..])
  }

  /** Of the ticks of one interrupt, those that 16 bits do not hold. */
  function Missed(e: Event): nat {
    Passed(e) - Passed(e) % 0x1_0000
  }

  function Dropped(run: seq<Event>): nat {
    if run == [] then 0 else Missed(run[0]) + Dropped(run[1..])
  }

  /** Some interrupt finds 65535 ticks or more lost. */
  predicate LongGap(run: seq<Event>) {
    exists k :: 0 <= k < |run| && run[k].Tock? && run[k].lost >= 0xFFFF
  }

  lemma SumWraps(a: nat, b: nat)
    ensures (a % WRAP + b) % WRAP == (a + b) % WRAP
  {
  }

  lemma SameReading(a: nat, b: nat, c: nat)
    requires a % WRAP == b % WRAP
    ensures (a + c) % WRAP == (b + c) % WRAP
  {
    SumWraps(a, c);
    SumWraps(b, c);
  }

  lemma StepCounts(t: Timer, e: Event)
    requires Fits(t, e)
    ensures (Step(t, e).ticks + Step(t, e).pending) % WRAP == (t.ticks + t.pending + (Passed(e) - Missed(e))) % WRAP
  {
    if e.Tock? {
      SumWraps(t.pending + (e.lost + 1) % 0x1_0000, t.ticks);
    }
  }

  lemma {:induction false} RunCounts(t: Timer, run: seq<Event>)
    requires Legal(t, run)
    ensures Dropped(run) <= Elapsed(run)
    ensures (After(t, run).ticks + After(t, run).pending) % WRAP
            == (t.ticks + t.pending + (Elapsed(run) - Dropped(run))) % WRAP
    decreases |run|
  {
    if run != [] {
      var t1, rest := Step(t, run[0]), run[1..];
      StepCounts(t, run[0]);
      RunCounts(t1, rest);
      SameReading(t1.ticks + t1.pending, t.ticks + t.pending + (Passed(run[0]) - Missed(run[0])),
                  Elapsed(rest) - Dropped(rest));
    }
  }

  lemma {:induction false} DroppedInLongGaps(run: seq<Event>)
    ensures Dropped(run) > 0 <==> LongGap(run)
  {
    if run != [] {
      DroppedInLongGaps(run[1..]);
      assert Missed(run[0]) > 0 <==> run[0].Tock? && run[0].lost >= 0xFFFF;
      if LongGap(run[1..]) {
        var k :| 0 <= k < |run[1..]| && run[1..][k].Tock? && run[1..][k].lost >= 0xFFFF;
        assert run[k + 1].Tock?;
      }
      if LongGap(run) && !(run[0].Tock? && run[0].lost >= 0xFFFF) {
        var k :| 0 <= k < |run| && run[k].Tock? && run[k].lost >= 0xFFFF;
        assert run[1..][k - 1].Tock?;
      }
    }
  }

  lemma LessWraps(a: nat, b: nat, d: nat)
    requires d <= b
    ensures (a + (b - d)) % WRAP == (a + b) % WRAP <==> d % WRAP == 0
  {
  }

  /** Uptime is the number of ticks that have passed, modulo 2^32, exactly if what 16 bits did not hold adds up to a
      multiple of that; before the clock has wrapped once, exactly if no interrupt found 65535 ticks or more lost. */
  lemma {:induction false} TicksAreConserved(t: Timer, run: seq<Event>)
    requires Legal(t, run)
    ensures var r := After(t, run);
            var counted := (r.ticks + r.pending) % WRAP == (t.ticks + t.pending + Elapsed(run)) % WRAP;
            && (counted <==> Dropped(run) % WRAP == 0)
            && (Elapsed(run) < WRAP ==> (counted <==> !LongGap(run)))
  {
    RunCounts(t, run);
    DroppedInLongGaps(run);
    LessWraps(t.ticks + t.pending, Elapsed(run), Dropped(run));
  }

  // ---------------------------------------------------------------- requests and what becomes of them

  /** An alarm was asked for at time `at`, when `count` ticks had been counted, for `delta` ticks later. */
  datatype Request = Nothing | Asked(at: nat, count: nat, delta: Tick)
  {
    predicate BeforeWrap() {
      Asked? && count % WRAP + delta < WRAP
    }
  }

  /** A process was notified at time `at` because of a request. */
  datatype Outcome = Outcome(nr: nat, request: Request, at: nat)
  {
    /** Sooner than was asked for. */
    predicate Early() {
      request.Asked? && at < request.at + request.delta
    }
  }

  /** The timer beside a clock that never wraps: now is the number of ticks since the start, count the number of those
      that were counted. requests: what each process last asked for, or inherited. log: what became of the requests. */
  datatype Watch = Watch(t: Timer, now: nat, count: nat, requests: seq<Request>, log: seq<Outcome>)

  /** What goes off among the first n processes. */
  function Noted(alarms: seq<Tick>, ticks: Tick, requests: seq<Request>, now: nat, n: nat): seq<Outcome>
    requires n <= |alarms| == |requests|
  {
    if n == 0 then []
    else
      Noted(alarms, ticks, requests, now, n - 1)
      + if IsDue(alarms[n - 1], ticks) then [Outcome(n - 1, requests[n - 1], now)] else []
  }

  predicate Observable(w: Watch, e: Event) {
    Fits(w.t, e) && |w.requests| == |w.t.alarms|
  }

  function Observe(w: Watch, e: Event): (r: Watch)
    requires Observable(w, e)
    ensures r.t == Step(w.t, e) && |r.requests| == |r.t.alarms|
  {
    var w1 := w.(t := Step(w.t, e));
    match e
    case Set(p, delta) => w1.(requests := w.requests[p := Asked(w.now, w.count, delta)])
    case Tock(lost) => w1.(now := w.now + Passed(e), count := w.count + (Passed(e) - Missed(e)))
    case Wake =>
      var c := Counted(w.t);
      if c.nextAlarm > c.ticks then w1
      else w1.(log := w.log + Noted(c.alarms, c.ticks, w.requests, w.now, |c.alarms|))
    case Fork(c, p) => w1.(requests := w.requests[c := w.requests[p]])
    case Exit(_) => w1
  }

  predicate Watchable(w: Watch, run: seq<Event>) {
    Legal(w.t, run) && |w.requests| == |w.t.alarms|
  }

  function Watched(w: Watch, run: seq<Event>): (r: Watch)
    requires Watchable(w, run)
    ensures r.t == After(w.t, run) && |r.requests| == |r.t.alarms|
    decreases |run|
  {
    if run == [] then w else Watched(Observe(w, run[0]), run[1..])
  }

  /** Before anybody has asked for anything. */
  function NewWatch(n: nat): Watch {
    Watch(Timer(seq(n, _ => 0), 0, 0, 0, []), 0, 0, seq(n, _ => Nothing), [])
  }

  /** The alarm a process has is the one it asked for: no more ticks were counted since than have passed. */
  predicate Backed(w: Watch, alarm: Tick, q: Request) {
    alarm != 0 ==>
      && q.Asked? && q.delta > 0 && alarm == (q.count % WRAP + q.delta) % WRAP
      && q.count <= w.count && q.at + (w.count - q.count) <= w.now
  }

  /** Nothing goes off early that was asked for before the wrap. */
  predicate OnTime(o: Outcome) {
    o.request.Asked? && o.request.count % WRAP + o.request.delta != WRAP && (o.request.BeforeWrap() ==> !o.Early())
  }

  predicate WatchInv(w: Watch) {
    && |w.requests| == |w.t.alarms|
    && w.count % WRAP == (w.t.ticks + w.t.pending) % WRAP
    && (forall i :: 0 <= i < |w.requests| ==> Backed(w, w.t.alarms[i], w.requests[i]))
    && |w.log| == |w.t.fired|
    && (forall k :: 0 <= k < |w.log| ==> w.log[k].nr == w.t.fired[k].nr && OnTime(w.log[k]))
  }

  /** A clock that has come from a to b has gone at least as far as its readings are apart. */
  lemma ReadingsApart(a: nat, b: nat)
    requires a <= b
    ensures b - a >= b % WRAP - a % WRAP
  {
  }

  lemma DueIsOnTime(w: Watch, i: nat)
    requires WatchInv(w) && w.t.pending == 0 && i < |w.t.alarms| && IsDue(w.t.alarms[i], w.t.ticks)
    ensures OnTime(Outcome(i, w.requests[i], w.now))
  {
    var q := w.requests[i];
    assert Backed(w, w.t.alarms[i], q);
    ReadingsApart(q.count, w.count);
  }

  lemma {:induction false} NotedIsOnTime(w: Watch, n: nat)
    requires WatchInv(w) && w.t.pending == 0 && n <= |w.t.alarms|
    ensures var due, noted := Due(w.t.alarms, w.t.ticks, n), Noted(w.t.alarms, w.t.ticks, w.requests, w.now, n);
            && |noted| == |due|
            && (forall k :: 0 <= k < |noted| ==> noted[k].nr == due[k].nr && OnTime(noted[k]))
  {
    if n > 0 {
      NotedIsOnTime(w, n - 1);
      if IsDue(w.t.alarms[n - 1], w.t.ticks) {
        DueIsOnTime(w, n - 1);
      }
    }
  }

  lemma CountingKeepsInv(w: Watch)
    requires WatchInv(w)
    ensures WatchInv(w.(t := Counted(w.t)))
  {
    var w1 := w.(t := Counted(w.t));
    forall i | 0 <= i < |w.requests|
      ensures Backed(w1, w1.t.alarms[i], w1.requests[i])
    {
      assert Backed(w, w.t.alarms[i], w.requests[i]);
    }
  }

  lemma WakingKeepsInv(w: Watch)
    requires WatchInv(w) && w.t.pending == 0
    ensures WatchInv(Observe(w, Wake))
  {
    var r := Observe(w, Wake);
    assert Counted(w.t) == w.t;
    NotedIsOnTime(w, |w.t.alarms|);
    forall i | 0 <= i < |r.requests|
      ensures Backed(r, r.t.alarms[i], r.requests[i])
    {
      assert Backed(w, w.t.alarms[i], w.requests[i]);
    }
  }

  lemma TockKeepsInv(w: Watch, lost: Tick)
    requires WatchInv(w)
    ensures WatchInv(Observe(w, Tock(lost)))
  {
    var e := Tock(lost);
    var r := Observe(w, e);
    StepCounts(w.t, e);
    SumWraps(w.count, Passed(e) - Missed(e));
    SumWraps(w.t.ticks + w.t.pending, Passed(e) - Missed(e));
    forall i | 0 <= i < |r.requests|
      ensures Backed(r, r.t.alarms[i], r.requests[i])
    {
      assert Backed(w, w.t.alarms[i], w.requests[i]);
    }
  }

  lemma SettingKeepsInv(w: Watch, p: nat, delta: Tick)
    requires WatchInv(w) && w.t.pending == 0 && p < |w.t.alarms|
    ensures WatchInv(Observe(w, Set(p, delta)))
  {
    var r := Observe(w, Set(p, delta));
    assert Counted(w.t) == w.t;
    forall i | 0 <= i < |r.requests|
      ensures Backed(r, r.t.alarms[i], r.requests[i])
    {
      assert Backed(w, w.t.alarms[i], w.requests[i]);
    }
  }

  lemma ForkingKeepsInv(w: Watch, c: nat, p: nat)
    requires WatchInv(w) && Fits(w.t, Fork(c, p))
    ensures WatchInv(Observe(w, Fork(c, p)))
  {
    var r := Observe(w, Fork(c, p));
    assert Backed(w, w.t.alarms[p], w.requests[p]);
    forall i | 0 <= i < |r.requests|
      ensures Backed(r, r.t.alarms[i], r.requests[i])
    {
      assert Backed(w, w.t.alarms[i], w.requests[i]);
    }
  }

  lemma ExitingKeepsInv(w: Watch, p: nat)
    requires WatchInv(w) && p < |w.t.alarms|
    ensures WatchInv(Observe(w, Exit(p)))
  {
    var r := Observe(w, Exit(p));
    forall i | 0 <= i < |r.requests|
      ensures Backed(r, r.t.alarms[i], r.requests[i])
    {
      assert Backed(w, w.t.alarms[i], w.requests[i]);
    }
  }

  lemma ObservingKeepsInv(w: Watch, e: Event)
    requires WatchInv(w) && Fits(w.t, e)
    ensures WatchInv(Observe(w, e))
  {
    var w1 := w.(t := Counted(w.t));
    CountingKeepsInv(w);
    match e
    case Tock(lost) => TockKeepsInv(w, lost);
    case Wake =>
      assert Observe(w, Wake) == Observe(w1, Wake);
      WakingKeepsInv(w1);
    case Set(p, delta) =>
      assert Observe(w, Set(p, delta)) == Observe(w1, Set(p, delta));
      SettingKeepsInv(w1, p, delta);
    case Fork(c, p) => ForkingKeepsInv(w, c, p);
    case Exit(p) => ExitingKeepsInv(w, p);
  }

  lemma {:induction false} WatchingKeepsInv(w: Watch, run: seq<Event>)
    requires WatchInv(w) && Legal(w.t, run)
    ensures WatchInv(Watched(w, run))
    decreases |run|
  {
    if run != [] {
      ObservingKeepsInv(w, run[0]);
      WatchingKeepsInv(Observe(w, run[0]), run[1..]);
    }
  }

  /** Over every run from the start, with however many ticks lost, whatever goes off goes off because its process asked
      for it or inherited it, and not sooner than that many ticks later if the request did not reach beyond the wrap. */
  lemma {:induction false} AlarmsAreNotEarly(n: nat, run: seq<Event>)
    requires Legal(NewWatch(n).t, run)
    ensures var r := Watched(NewWatch(n), run);
            && |r.log| == |r.t.fired|
            && (forall k :: 0 <= k < |r.log| ==>
                  r.log[k].nr == r.t.fired[k].nr && r.log[k].request.Asked?
                    && (r.log[k].request.BeforeWrap() ==> !r.log[k].Early()))
  {
    WatchingKeepsInv(NewWatch(n), run);
  }

  /** In no continuation of w is request q answered early. */
  ghost predicate NeverEarly(w: Watch, q: Request)
    requires |w.requests| == |w.t.alarms|
  {
    forall run :: Legal(w.t, run) ==>
      var r := Watched(w, run); forall k :: |w.log| <= k < |r.log| && r.log[k].request == q ==> !r.log[k].Early()
  }

  /** If p now asks for delta, it is never answered early. */
  ghost predicate Kept(w: Watch, p: nat, delta: Tick)
    requires Observable(w, Set(p, delta))
  {
    var w1 := Observe(w, Set(p, delta)); NeverEarly(w1, w1.requests[p])
  }

  lemma {:induction false} NotedHasDue(alarms: seq<Tick>, ticks: Tick, requests: seq<Request>, now: nat, n: nat, i: nat)
      returns (k: nat)
    requires i < n <= |alarms| == |requests| && IsDue(alarms[i], ticks)
    ensures k < |Noted(alarms, ticks, requests, now, n)|
    ensures Noted(alarms, ticks, requests, now, n)[k] == Outcome(i, requests[i], now)
  {
    if i < n - 1 {
      k := NotedHasDue(alarms, ticks, requests, now, n - 1, i);
    } else {
      k := |Noted(alarms, ticks, requests, now, n - 1)|;
    }
  }

  /** A request that reaches beyond the wrap is answered at once if the clock task is woken. */
  lemma BeyondWrapIsEarly(w: Watch, p: nat, delta: Tick)
    requires WatchInv(w) && Inv(w.t) && p < |w.t.alarms| && Counted(w.t).ticks + delta > WRAP
    ensures !Kept(w, p, delta)
  {
    var w1 := Observe(w, Set(p, delta));
    StepKeepsInv(w.t, Set(p, delta));
    var c := Counted(w1.t);
    assert IsDue(c.alarms[p], c.ticks);
    var k := NotedHasDue(c.alarms, c.ticks, w1.requests, w1.now, |c.alarms|, p);
    assert Legal(Step(w1.t, Wake), []) && [Wake][1..] == [];
    assert Legal(w1.t, [Wake]);
    var r := Watched(w1, [Wake]);
    assert r == Observe(w1, Wake);
    assert r.log[|w1.log| + k] == Outcome(p, w1.requests[p], w1.now);
    assert r.log[|w1.log| + k].Early();
  }

  lemma BeforeWrapIsOnTime(w: Watch, p: nat, delta: Tick)
    requires WatchInv(w) && p < |w.t.alarms| && Counted(w.t).ticks + delta <= WRAP
    ensures Kept(w, p, delta)
  {
    var w1 := Observe(w, Set(p, delta));
    ObservingKeepsInv(w, Set(p, delta));
    forall run | Legal(w1.t, run)
      ensures var r := Watched(w1, run);
              forall k :: |w1.log| <= k < |r.log| && r.log[k].request == w1.requests[p] ==> !r.log[k].Early()
    {
      WatchingKeepsInv(w1, run);
      var r := Watched(w1, run);
      forall k | |w1.log| <= k < |r.log| && r.log[k].request == w1.requests[p]
        ensures !r.log[k].Early()
      {
        assert OnTime(r.log[k]);
      }
    }
  }

  /** A request is never answered early, whatever follows, exactly if it does not reach beyond the wrap of the clock. */
  lemma OnTimeExactly(w: Watch, p: nat, delta: Tick)
    requires WatchInv(w) && Inv(w.t) && p < |w.t.alarms|
    ensures Kept(w, p, delta) <==> Counted(w.t).ticks + delta <= WRAP
  {
    if Counted(w.t).ticks + delta > WRAP {
      BeyondWrapIsEarly(w, p, delta);
    } else {
      BeforeWrapIsOnTime(w, p, delta);
    }
  }

  lemma {:induction false} TicksPass(t: Timer, v: nat) returns (run: seq<Event>)
    ensures Legal(t, run) && After(t, run) == t.(pending := (t.pending + v) % WRAP)
    decreases v
  {
    if v == 0 {
      run := [];
    } else {
      var rest := TicksPass(Step(t, Tock(0)), v - 1);
      SumWraps(t.pending + 1, v - 1);
      run := [Tock(0)] + rest;
      assert run[1..] == rest;
    }
  }

  lemma StartIsConsistent(n: nat)
    ensures WatchInv(NewWatch(n)) && Inv(NewWatch(n).t)
  {
  }

  /** A clock at 0 comes to every reading. */
  lemma ReadingIsReached(w: Watch, v: Tick) returns (run: seq<Event>)
    requires WatchInv(w) && Inv(w.t) && w.t.ticks == 0 && w.t.pending == 0
    ensures Legal(w.t, run) && WatchInv(Watched(w, run)) && Inv(Watched(w, run).t)
    ensures Counted(Watched(w, run).t).ticks == v
  {
    run := TicksPass(w.t, v);
    WatchingKeepsInv(w, run);
    RunKeepsInv(w.t, run);
  }

  /** So for any request that reaches beyond the wrap there is a run from the start in which it is answered early. */
  lemma EarlyFromStart(n: nat, ticks: Tick, p: nat, delta: Tick) returns (run: seq<Event>)
    requires p < n
    ensures Legal(NewWatch(n).t, run)
    ensures var w := Watched(NewWatch(n), run);
            Counted(w.t).ticks == ticks && p < |w.t.alarms| && (Kept(w, p, delta) <==> ticks + delta <= WRAP)
  {
    StartIsConsistent(n);
    var w := NewWatch(n);
    run := ReadingIsReached(w, ticks);
    OnTimeExactly(Watched(w, run), p, delta);
  }
}
