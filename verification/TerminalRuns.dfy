/** A terminal over whole runs of typing and reading. */
module TerminalRuns {
  import opened Terminal

  datatype Event = Typed(b: Byte) | Asked(n: nat)

  /** Typing wakes the terminal task, which serves the read in progress. */
  function Step(t: Tty, s: Termios, e: Event, room: nat): Tty {
    match e
    case Typed(b) => Handle(Input(t, s, b, room), s)
    case Asked(n) => Read(t, s, n)
  }

  /** One read at a time, for at least one byte; no typed character is dropped for want of room. */
  predicate Fits(t: Tty, s: Termios, e: Event, room: nat) {
    match e
    case Typed(b) => var a := Reading(s, t.mode, b).0; a.store.Some? ==> |Cut(t.q, a)| < room
    case Asked(n) => t.inLeft == 0 && 0 < n
  }

  predicate Legal(t: Tty, s: Termios, run: seq<Event>, room: nat)
    decreases |run|
  {
    run == [] || (Fits(t, s, run[0], room) && Legal(Step(t, s, run[0], room), s, run[1..], room))
  }

  function After(t: Tty, s: Termios, run: seq<Event>, room: nat): Tty
    decreases |run|
  {
    if run == [] then t else After(Step(t, s, run[0], room), s, run[1..], room)
  }

  /** What an event adds to a text of unlimited length that nobody reads. */
  function EditedOnce(h: seq<Cell>, m: Mode, s: Termios, e: Event): (seq<Cell>, Mode) {
    match e
    case Asked(_) => (h, m)
    case Typed(b) => var (a, m1) := Reading(s, m, b); (Acted(h, a, |h| + 1), m1)
  }

  /** All that is typed, edited as one text. */
  function Edited(h: seq<Cell>, m: Mode, s: Termios, run: seq<Event>): seq<Cell>
    decreases |run|
  {
    if run == [] then h
    else var (h1, m1) := EditedOnce(h, m, s, run[0]); Edited(h1, m1, s, run[1..])
  }

  // ---------------------------------------------------------------- reads do not disturb editing

  /** What readers have taken ends with a line, or the line they are in the middle of is complete in the queue. */
  predicate Boundary(taken: seq<Cell>, q: seq<Cell>) {
    taken == [] || taken[|taken| - 1].eot || CountEot(q) > 0
  }

  lemma {:induction false} KilledCommutes(taken: seq<Cell>, q: seq<Cell>)
    requires Boundary(taken, q)
    ensures Killed(taken + q) == taken + Killed(q)
  {
    var h := taken + q;
    if q == [] {
      assert h == taken;
    } else if !q[|q| - 1].eot {
      assert h[..|h| - 1] == taken + q[..|q| - 1];
      KilledCommutes(taken, q[..|q| - 1]);
    }
  }

  lemma CutCommutes(taken: seq<Cell>, q: seq<Cell>, a: Action)
    requires Boundary(taken, q)
    ensures Cut(taken + q, a) == taken + Cut(q, a)
  {
    KilledCommutes(taken, q);
    var h := taken + q;
    if q == [] {
      assert h == taken;
    } else {
      assert h[..|h| - 1] == taken + q[..|q| - 1];
    }
  }

  lemma CutKeepsBoundary(taken: seq<Cell>, q: seq<Cell>, a: Action)
    requires Boundary(taken, q)
    ensures Boundary(taken, Cut(q, a))
    ensures a.store.Some? ==> Boundary(taken, Cut(q, a) + [a.store.value])
  {
    CutKeepsCount(q, a);
    if a.store.Some? {
      CountSplits(Cut(q, a), [a.store.value]);
    }
  }

  lemma ActedCommutes(taken: seq<Cell>, q: seq<Cell>, a: Action, room: nat)
    requires Boundary(taken, q) && (a.store.Some? ==> |Cut(q, a)| < room)
    ensures Acted(taken + q, a, |taken + q| + 1) == taken + Acted(q, a, room)
    ensures Boundary(taken, Acted(q, a, room))
  {
    CutCommutes(taken, q, a);
    CutKeepsBoundary(taken, q, a);
    if a.store.Some? {
      Associates(taken, Cut(q, a), [a.store.value]);
    }
  }

  /** The reader's share after one transfer. */
  ghost predicate Splits(t: Tty, taken: seq<Cell>, r: Tty, taken1: seq<Cell>) {
    taken1 + r.q == taken + t.q && Boundary(taken1, r.q) && r.user == Text(taken1) && r.mode == t.mode
  }

  lemma {:induction false} LineEnds(q: seq<Cell>)
    requires CountEot(q) > 0
    ensures LineLength(q) > 0 && q[LineLength(q) - 1].eot
  {
    var n := LineLength(q);
    if n == |q| && !q[n - 1].eot {
      NoEotCountsNothing(q);
    }
  }

  lemma MovedSplits(t: Tty, taken: seq<Cell>) returns (taken1: seq<Cell>)
    requires Ok(t) && Boundary(taken, t.q) && t.user == Text(taken)
    ensures Splits(t, taken, Moved(t, true), taken1)
  {
    taken1 := taken;
    if t.inLeft > 0 && t.eotCount > 0 {
      MovedTakesOneLine(t);
      var n := Min(t.inLeft, LineLength(t.q));
      taken1 := taken + t.q[..n];
      LineEnds(t.q);
      TakenSplits(taken, t.q, n);
    }
  }

  lemma {:induction false} TakenSplits(taken: seq<Cell>, q: seq<Cell>, n: nat)
    requires CountEot(q) > 0 && 0 < n <= LineLength(q) && q[LineLength(q) - 1].eot
    ensures taken + q[..n] + q[n..] == taken + q && Boundary(taken + q[..n], q[n..])
    ensures Text(taken + q[..n]) == Text(taken) + Text(q[..n])
  {
    assert q == q[..n] + q[n..];
    Associates(taken, q[..n], q[n..]);
    TextSplits(taken, q[..n]);
    CountSplits(q[..n], q[n..]);
    if n < LineLength(q) {
      NoEotCountsNothing(q[..n]);
    }
  }

  lemma TransferSplits(t: Tty, s: Termios, taken: seq<Cell>) returns (taken1: seq<Cell>)
    requires s.icanon && Ok(t) && Boundary(taken, t.q) && t.user == Text(taken)
    ensures Splits(t, taken, Transfer(t, s), taken1)
  {
    taken1 := taken;
    var t1 := Hung(t, s);
    if t1.inLeft > 0 && t1.eotCount >= t1.min {
      taken1 := MovedSplits(t1, taken);
    }
  }

  lemma TypedSplits(t: Tty, s: Termios, b: Byte, room: nat, taken: seq<Cell>) returns (taken1: seq<Cell>)
    requires s.icanon && Ok(t) && |t.q| <= room && Boundary(taken, t.q) && t.user == Text(taken)
    requires Fits(t, s, Typed(b), room)
    ensures var (a, m) := Reading(s, t.mode, b);
            Splits(t.(q := Acted(t.q, a, room), mode := m), taken, Step(t, s, Typed(b), room), taken1)
  {
    var (a, m) := Reading(s, t.mode, b);
    ActedCommutes(taken, t.q, a, room);
    InputKeepsOk(t, s, b, room);
    taken1 := InputSplits(t, s, b, room, taken);
    taken1 := TransferSplits(Input(t, s, b, room), s, taken1);
  }

  lemma InputSplits(t: Tty, s: Termios, b: Byte, room: nat, taken: seq<Cell>) returns (taken1: seq<Cell>)
    requires s.icanon && Ok(t) && |t.q| <= room && Boundary(taken, t.q) && t.user == Text(taken)
    requires Fits(t, s, Typed(b), room)
    ensures var (a, m) := Reading(s, t.mode, b);
            Splits(t.(q := Acted(t.q, a, room), mode := m), taken, Input(t, s, b, room), taken1)
  {
    var (a, m) := Reading(s, t.mode, b);
    var t1 := Entered(t, a, m, room);
    ActedCommutes(taken, t.q, a, room);
    EnteredIsOk(t, s, b, room);
    taken1 := taken;
    if a.store.Some? && |t1.q| == room {
      taken1 := TransferSplits(t1, s, taken);
    }
  }

  lemma AskedSplits(t: Tty, s: Termios, n: nat, taken: seq<Cell>) returns (taken1: seq<Cell>)
    requires s.icanon && Ok(t) && Boundary(taken, t.q) && t.user == Text(taken)
    ensures Splits(t, taken, Read(t, s, n), taken1)
  {
    var t1 := t.(inLeft := n, min := ReadMin(t, s));
    HandleKeepsOk(t1, s);
    taken1 := TransferSplits(t1, s, taken);
    taken1 := TransferSplits(Transfer(t1, s), s, taken1);
  }

  lemma StepKeepsOk(t: Tty, s: Termios, e: Event, room: nat)
    requires s.icanon && Ok(t) && |t.q| <= room
    ensures Ok(Step(t, s, e, room)) && |Step(t, s, e, room).q| <= room
  {
    match e
    case Typed(b) =>
      InputKeepsOk(t, s, b, room);
      HandleKeepsOk(Input(t, s, b, room), s);
      MovedKeepsOk(Hung(Input(t, s, b, room), s), true);
    case Asked(n) =>
      var t1 := t.(inLeft := n, min := ReadMin(t, s));
      ReadKeepsOk(t, s, n);
      HandleKeepsOk(t1, s);
      MovedKeepsOk(Hung(t1, s), true);
      MovedKeepsOk(Hung(Transfer(t1, s), s), true);
  }

  lemma StepSplits(t: Tty, s: Termios, e: Event, room: nat, taken: seq<Cell>) returns (taken1: seq<Cell>)
    requires s.icanon && Ok(t) && |t.q| <= room && Boundary(taken, t.q) && t.user == Text(taken) && Fits(t, s, e, room)
    ensures var t1 := Step(t, s, e, room);
            && Boundary(taken1, t1.q) && t1.user == Text(taken1)
            && (taken1 + t1.q, t1.mode) == EditedOnce(taken + t.q, t.mode, s, e)
  {
    match e
    case Typed(b) =>
      ActedCommutes(taken, t.q, Reading(s, t.mode, b).0, room);
      taken1 := TypedSplits(t, s, b, room, taken);
    case Asked(n) =>
      taken1 := AskedSplits(t, s, n, taken);
  }

  lemma {:induction false} ReadsFollow(t: Tty, s: Termios, run: seq<Event>, room: nat, taken: seq<Cell>)
    requires s.icanon && Ok(t) && |t.q| <= room && Boundary(taken, t.q) && t.user == Text(taken)
    requires Legal(t, s, run, room)
    ensures var r := After(t, s, run, room); r.user + Text(r.q) == Text(Edited(taken + t.q, t.mode, s, run))
    decreases |run|
  {
    if run == [] {
      TextSplits(taken, t.q);
    } else {
      StepKeepsOk(t, s, run[0], room);
      var taken1 := StepSplits(t, s, run[0], room, taken);
      ReadsFollow(Step(t, s, run[0], room), s, run[1..], room, taken1);
    }
  }

  /** Canonical mode: whenever and in whatever pieces readers read, what they were given followed by what is still
      queued is what was typed, edited as one text. */
  lemma {:induction false} ReadingIsInvisible(t: Tty, s: Termios, run: seq<Event>, room: nat)
    requires s.icanon && t.q == [] && t.eotCount == 0 && t.user == [] && Legal(t, s, run, room)
    ensures var r := After(t, s, run, room); r.user + Text(r.q) == Text(Edited([], t.mode, s, run))
  {
    ReadsFollow(t, s, run, room, []);
    assert [] + t.q == [];
  }

  // ---------------------------------------------------------------- a full line

  /** While no line is complete, serving a reader changes neither the queue nor what readers were given. */
  ghost predicate Untouched(t: Tty, r: Tty) {
    r.q == t.q && r.user == t.user && r.eotCount == t.eotCount && r.mode == t.mode
  }

  lemma NothingToTransfer(t: Tty, s: Termios)
    requires t.eotCount == 0
    ensures Untouched(t, Transfer(t, s)) && Untouched(t, Handle(t, s))
    ensures t.min > 0 && !s.hungUp ==> Transfer(t, s) == t && (t.inCum == 0 ==> Handle(t, s) == t)
  {
  }

  lemma ActedOnFullLine(t: Tty, s: Termios, a: Action, room: nat)
    requires CountEot(t.q) == 0 && |t.q| == room && 0 < room && (a.erase ==> a.store.None?)
    ensures Acted(t.q, a, room)
            == if a.erase then t.q[..room - 1]
               else if !a.kill then t.q
               else if a.store.Some? then [a.store.value]
               else []
  {
    NoneEnds(t.q);
    KilledIsPrefix(t.q);
    assert a.kill ==> Killed(t.q) == [];
  }

  lemma ServingShrinks(t: Tty, s: Termios)
    requires Ok(t)
    ensures |Transfer(t, s).q| <= |t.q| && |Handle(t, s).q| <= |t.q|
  {
    MovedKeepsOk(Hung(t, s), s.icanon);
  }

  /** A full queue without a line end, in canonical mode, is never read, and only erasing changes it: even the end of
      the line is dropped. */
  lemma FullLineIsStuck(t: Tty, s: Termios, b: Byte, room: nat)
    requires s.icanon && Ok(t) && |t.q| == room && t.eotCount == 0 && 0 < room
    ensures var (a, m) := Reading(s, t.mode, b);
            var t1 := Step(t, s, Typed(b), room);
            if a.erase then t1.q == t.q[..room - 1] && t1.user == t.user
            else if a.kill then |t1.q| <= 1
            else Untouched(t.(mode := m), t1) && (t.min > 0 && t.inCum == 0 && !s.hungUp ==> t1 == t.(mode := m))
    ensures forall n: nat :: Untouched(t, Read(t, s, n))
  {
    var (a, m) := Reading(s, t.mode, b);
    ActedOnFullLine(t, s, a, room);
    if a.kill {
      var t1 := Entered(t, a, m, room);
      EnteredIsOk(t, s, b, room);
      InputKeepsOk(t, s, b, room);
      ServingShrinks(t1, s);
      ServingShrinks(Input(t, s, b, room), s);
    } else {
      NothingToTransfer(Input(t, s, b, room), s);
    }
    forall n: nat
      ensures Untouched(t, Read(t, s, n))
    {
      var t1 := t.(inLeft := n, min := ReadMin(t, s));
      NothingToTransfer(t1, s);
      NothingToTransfer(Transfer(t1, s), s);
    }
  }

  lemma {:induction false} NoneEnds(q: seq<Cell>)
    requires CountEot(q) == 0
    ensures forall i :: 0 <= i < |q| ==> !q[i].eot
  {
    if q != [] {
      NoneEnds(q[..|q| - 1]);
    }
  }
}
