/** The input side of a terminal: what typed bytes do to the queue, and what a read takes from it. */
module Terminal {
  type Byte = b: nat | b < 256

  const LF: Byte := 10
  const CR: Byte := 13
  const DISABLED: Byte := 255

  /** A queued character: its byte, whether it was escaped, whether it ends a line, whether it is an end of file. */
  datatype Cell = Cell(ch: Byte, escaped: bool, eot: bool, eof: bool)

  /** The settings that input depends on. A test of a flag in the wrong word of the settings is kept: isCanon and isIxon
      are what set_attr sees, and istrip is a bit of the control flags. hungUp: the output speed is 0. */
  datatype Termios = Termios(
    icanon: bool, echoe: bool, iexten: bool, istrip: bool, igncr: bool, icrnl: bool, inlcr: bool, ixon: bool,
    ixany: bool,
    isCanon: bool, isIxon: bool, hungUp: bool,
    lnext: Byte, reprint: Byte, erase: Byte, kill: Byte, eof: Byte, eol: Byte, start: Byte, stop: Byte,
    vmin: Byte, vtime: Byte)

  datatype Mode = Mode(escaped: bool, inhibited: bool)

  datatype Option<T> = None | Some(value: T)

  /** What a byte does to the queue: at most one of erase and kill, then perhaps a new character. */
  datatype Action = Action(erase: bool, kill: bool, store: Option<Cell>)

  const SKIP := Action(false, false, None)

  // ---------------------------------------------------------------- typing

  /** The character is cc itself, not escaped and not yet marked. */
  predicate Is(c: Cell, cc: Byte) {
    c == Cell(cc, false, false, false)
  }

  /** Carriage return and line feed, as the settings map them; None if the character is dropped. */
  function Mapped(s: Termios, c: Cell): Option<Cell> {
    if Is(c, CR) then
      if s.igncr then None else Some(if s.icrnl then c.(ch := LF) else c)
    else Some(if Is(c, LF) && s.inlcr then c.(ch := CR) else c)
  }

  /** In canonical mode the characters that end a line are marked. */
  function Marked(s: Termios, c: Cell): Cell {
    if !s.icanon then c
    else if Is(c, s.eof) then c.(eot := true, eof := true)
    else if Is(c, LF) || Is(c, s.eol) then c.(eot := true)
    else c
  }

  /** Flow control: whether it takes the character, and the mode it leaves. */
  function Flow(s: Termios, m: Mode, c: Cell): (bool, Mode) {
    if s.ixon && Is(c, s.stop) then (true, m.(inhibited := true))
    else if s.ixon && m.inhibited && (Is(c, s.start) || s.ixany) then (Is(c, s.start), m.(inhibited := false))
    else (false, m)
  }

  /** The character a byte stands for, if editing is to see it: escapes, and the mapping of line ends. */
  function Prepared(s: Termios, m: Mode, b: Byte): (Option<Cell>, Mode) {
    var c := Cell(if s.istrip then b % 128 else b, s.iexten && m.escaped, false, false);
    var m1 := if s.iexten then m.(escaped := false) else m;
    if s.iexten && Is(c, s.lnext) then (None, m1.(escaped := true))
    else if s.iexten && Is(c, s.reprint) then (None, m1)
    else (Mapped(s, if Is(c, DISABLED) then c.(escaped := true) else c), m1)
  }

  /** What byte b does, and the mode it leaves. Outside canonical mode every character is marked as a line. */
  function Reading(s: Termios, m: Mode, b: Byte): (Action, Mode) {
    match Prepared(s, m, b)
    case (None, m1) => (SKIP, m1)
    case (Some(d), m1) =>
      var kills := s.icanon && Is(d, s.kill) && !Is(d, s.erase);
      if s.icanon && Is(d, s.erase) then (Action(true, false, None), m1)
      else if kills && !s.echoe then (Action(false, true, None), m1)
      else
        var c := Marked(s, d);
        var (taken, m2) := Flow(s, m1, c);
        (Action(false, kills, if taken then None else Some(if s.icanon then c else c.(eot := true))), m2)
  }

  /** back_over: the last character goes, unless it ends a line. */
  function Erased(q: seq<Cell>): seq<Cell> {
    if q == [] || q[|q| - 1].eot then q else q[..|q| - 1]
  }

  /** back_over until nothing goes. */
  function Killed(q: seq<Cell>): seq<Cell> {
    if q == [] || q[|q| - 1].eot then q else Killed(q[..|q| - 1])
  }

  /** The queue after the erasing part of an action. */
  function Cut(q: seq<Cell>, a: Action): (r: seq<Cell>)
    ensures |r| <= |q|
  {
    KilledIsPrefix(q);
    if a.erase then Erased(q) else if a.kill then Killed(q) else q
  }

  /** The queue after an action, if it holds at most `room` characters. */
  function Acted(q: seq<Cell>, a: Action, room: nat): seq<Cell> {
    var q1 := Cut(q, a);
    if a.store.Some? && |q1| < room then q1 + [a.store.value] else q1
  }

  // ---------------------------------------------------------------- reading

  function CountEot(q: seq<Cell>): nat {
    if q == [] then 0 else CountEot(q[..|q| - 1]) + (if q[|q| - 1].eot then 1 else 0)
  }

  /** inLeft: how many bytes the read in progress still wants. user: all bytes readers were given. replies: what each
      finished read was told. */
  datatype Tty = Tty(
    q: seq<Cell>,
    eotCount: int,
    min: nat,
    inLeft: nat,
    inCum: nat,
    mode: Mode,
    user: seq<Byte>,
    replies: seq<nat>)

  /** The first character leaves the queue. */
  function MoveOne(t: Tty, canon: bool): Tty
    requires t.q != []
  {
    var c := t.q[0];
    var t1 := t.(q := t.q[1..], eotCount := if c.eot then t.eotCount - 1 else t.eotCount);
    var t2 := if c.eof then t1 else t1.(user := t.user + [c.ch], inCum := t.inCum + 1,
                                        inLeft := if t.inLeft > 0 then t.inLeft - 1 else 0);
    if c.eot && canon then t2.(inLeft := 0) else t2
  }

  /** Characters go to the reader until it has enough, no line end is left, or, in canonical mode, a line has ended. */
  function Moved(t: Tty, canon: bool): Tty
    decreases |t.q|
  {
    if t.inLeft == 0 || t.eotCount <= 0 || t.q == [] then t else Moved(MoveOne(t, canon), canon)
  }

  /** A read that has all it wants is answered. */
  function Finished(t: Tty): Tty {
    if t.inLeft == 0 then t.(replies := t.replies + [t.inCum], inCum := 0) else t
  }

  /** A terminal that has hung up makes every read succeed. */
  function Hung(t: Tty, s: Termios): Tty {
    if s.hungUp then t.(min := 0) else t
  }

  function Transfer(t: Tty, s: Termios): Tty {
    var t1 := Hung(t, s);
    if t1.inLeft == 0 || t1.eotCount < t1.min then t1 else Finished(Moved(t1, s.icanon))
  }

  // ---------------------------------------------------------------- the operations

  /** The queue and the counter after an action, before a reader is served. */
  function Entered(t: Tty, a: Action, m: Mode, room: nat): Tty {
    var stores := a.store.Some? && |Cut(t.q, a)| < room;
    t.(q := Acted(t.q, a, room), mode := m, eotCount := t.eotCount + if stores && a.store.value.eot then 1 else 0)
  }

  /** One byte is typed. A queue that becomes full is offered to the reader. */
  function Input(t: Tty, s: Termios, b: Byte, room: nat): Tty {
    var (a, m) := Reading(s, t.mode, b);
    var t1 := Entered(t, a, m, room);
    if a.store.Some? && |Cut(t.q, a)| < room && |t1.q| == room then Transfer(t1, s) else t1
  }

  /** A byte is refused, and stays with the device, exactly if there is no room outside canonical mode. */
  predicate Refused(t: Tty, s: Termios, b: Byte, room: nat) {
    var a := Reading(s, t.mode, b).0;
    !s.icanon && a.store.Some? && |Cut(t.q, a)| >= room
  }

  /** handle_read: outside canonical mode a read may also end with fewer bytes than it wants. */
  function Handle(t: Tty, s: Termios): Tty {
    var t1 := Transfer(t, s);
    if t1.inCum >= t1.min && t1.inLeft > 0 then t1.(replies := t1.replies + [t1.inCum], inLeft := 0, inCum := 0) else t1
  }

  /** The minimum a new read has to find: outside canonical mode it depends on the timer. */
  function ReadMin(t: Tty, s: Termios): nat {
    if s.icanon || s.vtime == 0 then t.min
    else if s.vmin == 0 then 1
    else if t.eotCount == 0 then s.vmin
    else t.min
  }

  /** A process asks for n bytes; no read is in progress. */
  function Read(t: Tty, s: Termios, n: nat): Tty {
    Handle(Transfer(t.(inLeft := n, min := ReadMin(t, s)), s), s)
  }

  function Cancel(t: Tty): Tty {
    t.(q := [], eotCount := 0)
  }

  function AllEot(q: seq<Cell>): (r: seq<Cell>)
    ensures |r| == |q|
  {
    seq(|q|, i requires 0 <= i < |q| => q[i].(eot := true))
  }

  /** The minimum the values VMIN and VTIME ask for. */
  function AskedMin(s: Termios): nat {
    if s.vmin == 0 && s.vtime > 0 then 1 else s.vmin
  }

  /** The minimum that new settings set. */
  function SettingsMin(s: Termios): nat {
    if s.isCanon then 1 else AskedMin(s)
  }

  /** New settings take effect. */
  function SetAttr(t: Tty, s: Termios): Tty {
    var t1 := if s.isCanon then t.(min := SettingsMin(s))
              else t.(q := AllEot(t.q), eotCount := |t.q|, min := SettingsMin(s));
    if s.isIxon then t1 else t1.(mode := t1.mode.(inhibited := false))
  }

  // ---------------------------------------------------------------- erasing

  lemma {:induction false} KilledIsPrefix(q: seq<Cell>)
    ensures Killed(q) <= q
    ensures Killed(q) == [] || Killed(q)[|Killed(q)| - 1].eot
    ensures forall i :: |Killed(q)| <= i < |q| ==> !q[i].eot
  {
    if q != [] && !q[|q| - 1].eot {
      KilledIsPrefix(q[..|q| - 1]);
    }
  }

  /** The completed lines of a queue: all of it up to the last line end. */
  predicate Completed(q: seq<Cell>, n: nat) {
    n <= |q| && (n == 0 || q[n - 1].eot)
  }

  /** No byte takes anything from a completed line. */
  lemma ErasingSparesLines(q: seq<Cell>, a: Action, room: nat, n: nat)
    requires Completed(q, n)
    ensures n <= |Cut(q, a)| && q[..n] <= Acted(q, a, room)
  {
    KilledIsPrefix(q);
    assert n > 0 ==> q[n - 1].eot;
  }

  /** KILL leaves exactly the completed lines. */
  lemma {:induction false} KillLeavesLines(q: seq<Cell>)
    ensures Completed(q, |Killed(q)|) && Killed(q) == q[..|Killed(q)|]
    ensures forall n: nat :: Completed(q, n) ==> n <= |Killed(q)|
  {
    KilledIsPrefix(q);
  }

  lemma {:induction false} CountSplits(p: seq<Cell>, q: seq<Cell>)
    ensures CountEot(p + q) == CountEot(p) + CountEot(q)
  {
    if q == [] {
      assert p + q == p;
    } else {
      assert (p + q)[..|p + q| - 1] == p + q[..|q| - 1];
      CountSplits(p, q[..|q| - 1]);
    }
  }

  lemma {:induction false} NoEotCountsNothing(q: seq<Cell>)
    requires forall i :: 0 <= i < |q| ==> !q[i].eot
    ensures CountEot(q) == 0
  {
    if q != [] {
      NoEotCountsNothing(q[..|q| - 1]);
    }
  }

  lemma CutIsPrefix(q: seq<Cell>, a: Action)
    ensures Cut(q, a) == q[..|Cut(q, a)|]
    ensures forall i :: |Cut(q, a)| <= i < |q| ==> !q[i].eot
  {
    KilledIsPrefix(q);
  }

  lemma {:induction false} CutKeepsCount(q: seq<Cell>, a: Action)
    ensures CountEot(Cut(q, a)) == CountEot(q)
  {
    CutIsPrefix(q, a);
    var n := |Cut(q, a)|;
    assert q == q[..n] + q[n..];
    CountSplits(q[..n], q[n..]);
    NoEotCountsNothing(q[n..]);
  }

  /** The KILL character leaves the completed lines, and itself behind them exactly if ECHOE is set and there is
      room. */
  lemma KillQueuesItself(t: Tty, s: Termios, b: Byte, room: nat)
    requires s.kill != s.eof && s.kill != s.eol && s.kill != s.start && s.kill != s.stop && s.kill != LF
    ensures var (a, m) := Reading(s, t.mode, b);
            var q := Killed(t.q);
            a.kill ==> Entered(t, a, m, room).q
                       == if s.echoe && |q| < room then q + [Cell(s.kill, false, false, false)] else q
  {
  }

  // ---------------------------------------------------------------- what every operation keeps

  /** eotCount counts the line ends in the queue, and an end of file is a line end. */
  ghost predicate Ok(t: Tty) {
    t.eotCount == CountEot(t.q) && forall i :: 0 <= i < |t.q| && t.q[i].eof ==> t.q[i].eot
  }

  lemma MoveOneKeepsOk(t: Tty, canon: bool)
    requires Ok(t) && t.q != []
    ensures Ok(MoveOne(t, canon))
  {
    assert t.q == [t.q[0]] + t.q[1..];
    CountSplits([t.q[0]], t.q[1..]);
  }

  lemma {:induction false} MovedKeepsOk(t: Tty, canon: bool)
    requires Ok(t)
    ensures Ok(Moved(t, canon)) && |Moved(t, canon).q| <= |t.q|
    decreases |t.q|
  {
    if t.inLeft > 0 && t.eotCount > 0 && t.q != [] {
      MoveOneKeepsOk(t, canon);
      MovedKeepsOk(MoveOne(t, canon), canon);
    }
  }

  lemma StoredIsMarked(s: Termios, m: Mode, b: Byte)
    ensures var a := Reading(s, m, b).0; a.store.Some? && a.store.value.eof ==> a.store.value.eot
  {
  }

  lemma {:induction false} StoreKeepsOk(t: Tty, q: seq<Cell>, c: Cell, m: Mode)
    requires Ok(t) && CountEot(q) == CountEot(t.q) && q <= t.q && (c.eof ==> c.eot)
    ensures Ok(t.(q := q + [c], mode := m, eotCount := t.eotCount + if c.eot then 1 else 0))
  {
    CountSplits(q, [c]);
  }

  lemma EnteredIsOk(t: Tty, s: Termios, b: Byte, room: nat)
    requires Ok(t) && |t.q| <= room
    ensures var (a, m) := Reading(s, t.mode, b); Ok(Entered(t, a, m, room)) && |Entered(t, a, m, room).q| <= room
  {
    var (a, m) := Reading(s, t.mode, b);
    StoredIsMarked(s, t.mode, b);
    CutKeepsCount(t.q, a);
    CutIsPrefix(t.q, a);
    if a.store.Some? {
      StoreKeepsOk(t, Cut(t.q, a), a.store.value, m);
    }
  }

  lemma InputKeepsOk(t: Tty, s: Termios, b: Byte, room: nat)
    requires Ok(t) && |t.q| <= room
    ensures Ok(Input(t, s, b, room)) && |Input(t, s, b, room).q| <= room
  {
    var (a, m) := Reading(s, t.mode, b);
    EnteredIsOk(t, s, b, room);
    MovedKeepsOk(Hung(Entered(t, a, m, room), s), s.icanon);
  }

  lemma {:induction false} AllEotCounts(q: seq<Cell>)
    ensures CountEot(AllEot(q)) == |q|
  {
    if q != [] {
      assert AllEot(q)[..|q| - 1] == AllEot(q[..|q| - 1]);
      AllEotCounts(q[..|q| - 1]);
    }
  }

  lemma HandleKeepsOk(t: Tty, s: Termios)
    requires Ok(t)
    ensures Ok(Handle(t, s)) && Ok(Transfer(t, s))
  {
    MovedKeepsOk(Hung(t, s), s.icanon);
  }

  lemma ReadKeepsOk(t: Tty, s: Termios, n: nat)
    requires Ok(t)
    ensures Ok(Read(t, s, n))
  {
    var t1 := t.(inLeft := n, min := ReadMin(t, s));
    HandleKeepsOk(t1, s);
    HandleKeepsOk(Transfer(t1, s), s);
  }

  lemma SettingsKeepOk(t: Tty, s: Termios)
    requires Ok(t)
    ensures Ok(Cancel(t)) && Ok(SetAttr(t, s))
  {
    AllEotCounts(t.q);
  }

  // ---------------------------------------------------------------- what a read is given

  /** The bytes a reader sees. */
  function Text(q: seq<Cell>): (r: seq<Byte>)
    ensures |r| <= |q|
  {
    if q == [] then [] else if q[0].eof then Text(q[1..]) else [q[0].ch] + Text(q[1..])
  }

  lemma {:induction false} TextSplits(p: seq<Cell>, q: seq<Cell>)
    ensures Text(p + q) == Text(p) + Text(q)
  {
    if p == [] {
      assert p + q == q;
    } else {
      assert (p + q)[1..] == p[1..] + q;
      TextSplits(p[1..], q);
    }
  }

  /** The length of the first line, its end included, or |q|. */
  function LineLength(q: seq<Cell>): (n: nat)
    ensures n <= |q| && (forall i :: 0 <= i < n - 1 ==> !q[i].eot)
    ensures n > 0 && n < |q| ==> q[n - 1].eot
  {
    if q == [] then 0 else if q[0].eot then 1 else 1 + LineLength(q[1..])
  }

  function Min(a: nat, b: nat): nat {
    if a < b then a else b
  }

  /** t after the first n characters have gone to the reader, which wants `left` more. */
  function Taken(t: Tty, n: nat, left: nat): Tty
    requires n <= |t.q|
  {
    t.(q := t.q[n..], user := t.user + Text(t.q[..n]), inCum := t.inCum + |Text(t.q[..n])|, inLeft := left,
       eotCount := t.eotCount - CountEot(t.q[..n]))
  }

  lemma OneCell(c: Cell)
    ensures CountEot([c]) == (if c.eot then 1 else 0) && Text([c]) == if c.eof then [] else [c.ch]
  {
    assert [c][..0] == [] && [c][1..] == [];
  }

  lemma TakenOneMore(t: Tty, canon: bool, n: nat, left: nat)
    requires 0 < n <= |t.q|
    ensures Taken(MoveOne(t, canon), n - 1, left) == Taken(t, n, left)
  {
    var c := t.q[0];
    var rest := t.q[1..][..n - 1];
    assert t.q[..n] == [c] + rest;
    CountSplits([c], rest);
    TextSplits([c], rest);
    OneCell(c);
    assert t.q[n..] == t.q[1..][n - 1..];
    Associates(t.user, Text([c]), Text(rest));
  }

  lemma Associates<T>(a: seq<T>, b: seq<T>, c: seq<T>)
    ensures a + (b + c) == a + b + c
  {
  }

  lemma TakenNothing(t: Tty)
    ensures Taken(t, 0, t.inLeft) == t
  {
  }

  /** In canonical mode characters are taken up to the end of the first line, and no more than are asked for. */
  lemma {:induction false} MovedTakesOneLine(t: Tty)
    requires Ok(t) && t.eotCount > 0 && t.inLeft > 0
    ensures Moved(t, true) == Taken(t, Min(t.inLeft, LineLength(t.q)), 0)
    decreases |t.q|
  {
    var c, n := t.q[0], Min(t.inLeft, LineLength(t.q));
    var t1 := MoveOne(t, true);
    MoveOneKeepsOk(t, true);
    TakenOneMore(t, true, n, 0);
    if t1.inLeft > 0 {
      MovedTakesOneLine(t1);
    } else {
      TakenNothing(t1);
    }
  }

  /** The minimum that counts when a read is served. */
  function Minimum(t: Tty, s: Termios): nat {
    if s.hungUp then 0 else ReadMin(t, s)
  }

  /** A read of n bytes in canonical mode waits and takes nothing while there are fewer complete lines than the minimum;
      otherwise it is answered once: with the first line or its first n bytes, or, if there is no line, with nothing. */
  lemma CanonicalRead(t: Tty, s: Termios, n: nat)
    requires Ok(t) && s.icanon && t.inLeft == 0 && t.inCum == 0 && 0 < n
    ensures var r := Read(t, s, n);
            var m := if t.eotCount == 0 then 0 else Min(n, LineLength(t.q));
            && r.min == Minimum(t, s)
            && if t.eotCount < r.min then r == t.(inLeft := n)
               else r.q == t.q[m..] && r.user == t.user + Text(t.q[..m]) && r.inLeft == 0 && r.inCum == 0
                    && r.eotCount == t.eotCount - CountEot(t.q[..m]) && r.replies == t.replies + [|Text(t.q[..m])|]
  {
    var t1 := t.(inLeft := n, min := Minimum(t, s));
    if t.eotCount > 0 {
      MovedTakesOneLine(t1);
    } else {
      assert Moved(t1, true) == t1;
    }
  }

  // ---------------------------------------------------------------- outside canonical mode

  /** Every character counts as a line, as outside canonical mode. */
  predicate Raw(q: seq<Cell>) {
    forall i :: 0 <= i < |q| ==> q[i].eot
  }

  /** How many characters of the queue give n bytes: ends of file, typed before, give none. */
  function Giving(q: seq<Cell>, n: nat): (k: nat)
    ensures k <= |q|
  {
    if n == 0 || q == [] then 0 else 1 + Giving(q[1..], if q[0].eof then n else n - 1)
  }

  lemma {:induction false} GivingStep(q: seq<Cell>, n: nat)
    requires 0 < n && q != []
    ensures var k, n1 := Giving(q, n), if q[0].eof then n else n - 1;
            && k == 1 + Giving(q[1..], n1) && (k > 1 ==> q[k - 1] == q[1..][k - 2])
            && Text(q[..k]) == (if q[0].eof then [] else [q[0].ch]) + Text(q[1..][..k - 1])
            && |Text(q)| == (if q[0].eof then 0 else 1) + |Text(q[1..])|
  {
    var k := Giving(q, n);
    assert q[..k] == [q[0]] + q[1..][..k - 1];
    TextSplits([q[0]], q[1..][..k - 1]);
    OneCell(q[0]);
  }

  /** These are all, or they give exactly n bytes and the last one is one of these. */
  lemma {:induction false} GivingGives(q: seq<Cell>, n: nat)
    ensures var k := Giving(q, n);
            && |Text(q[..k])| == Min(n, |Text(q)|)
            && (k < |q| ==> |Text(q[..k])| == n) && (k > 0 && |Text(q[..k])| == n ==> !q[k - 1].eof)
  {
    if n > 0 && q != [] {
      GivingStep(q, n);
      GivingGives(q[1..], if q[0].eof then n else n - 1);
    }
  }

  /** What is left of the marked part of a queue when its first character has gone. */
  lemma {:induction false} KilledRest(q: seq<Cell>)
    requires CountEot(q) > 0
    ensures Killed(q) != [] && Killed(q)[0] == q[0] && Killed(q[1..]) == Killed(q)[1..]
  {
    if !q[|q| - 1].eot {
      KilledRest(q[..|q| - 1]);
      assert q[1..][..|q[1..]| - 1] == q[..|q| - 1][1..];
    }
  }

  lemma {:induction false} NothingMarked(q: seq<Cell>)
    requires CountEot(q) == 0
    ensures Killed(q) == []
  {
    if q != [] {
      NothingMarked(q[..|q| - 1]);
    }
  }

  /** k characters of the marked part, which give m bytes, are what the read in progress takes of it. */
  ghost predicate Takes(t: Tty, k: nat, m: nat) {
    && Ok(t) && k == Giving(Killed(t.q), t.inLeft) && k <= |Killed(t.q)|
    && m == |Text(Killed(t.q)[..k])| <= t.inLeft
  }

  lemma {:induction false} TakesRest(t: Tty, k: nat, m: nat)
    requires Takes(t, k, m) && t.eotCount > 0 && t.inLeft > 0
    ensures var m1 := if t.q[0].eof then m else m - 1;
            && t.q != [] && 0 < k && 0 <= m1 && Takes(MoveOne(t, false), k - 1, m1)
            && MoveOne(t, false).inLeft - m1 == t.inLeft - m
  {
    KilledRest(t.q);
    GivingStep(Killed(t.q), t.inLeft);
    MoveOneKeepsOk(t, false);
  }

  /** Outside canonical mode a read takes, of the characters up to the last marked one, as many as it takes to give
      what it wants. */
  lemma {:induction false} MovedTakesAll(t: Tty, k: nat, m: nat)
    requires Takes(t, k, m)
    ensures k <= |t.q| && Moved(t, false) == Taken(t, k, t.inLeft - m)
    decreases |t.q|
  {
    KilledIsPrefix(t.q);
    if t.eotCount == 0 || t.inLeft == 0 {
      if t.eotCount == 0 {
        NothingMarked(t.q);
      }
      TakenNothing(t);
    } else {
      TakesRest(t, k, m);
      TakenOneMore(t, false, k, t.inLeft - m);
      MovedTakesAll(MoveOne(t, false), k - 1, if t.q[0].eof then m else m - 1);
    }
  }

  lemma {:induction false} AllMarkedCounts(q: seq<Cell>)
    requires Raw(q)
    ensures CountEot(q) == |q| && Killed(q) == q
  {
    if q != [] {
      AllMarkedCounts(q[..|q| - 1]);
    }
  }

  /** One transfer outside canonical mode. */
  lemma RawTransfer(t: Tty, s: Termios, k: nat, m: nat)
    requires Ok(t) && !s.icanon && Hung(t, s) == t && t.min <= t.eotCount && 0 < t.inLeft
    requires k == Giving(Killed(t.q), t.inLeft) && m == Min(t.inLeft, |Text(Killed(t.q))|)
    ensures k <= |t.q| && Killed(t.q)[..k] == t.q[..k] && |Text(t.q[..k])| == m
    ensures Transfer(t, s) == Finished(Taken(t, k, t.inLeft - m))
    ensures m < t.inLeft ==> k == |Killed(t.q)| && CountEot(t.q[..k]) == t.eotCount
  {
    KilledIsPrefix(t.q);
    GivingGives(Killed(t.q), t.inLeft);
    MovedTakesAll(t, k, m);
    if k == |Killed(t.q)| {
      CutKeepsCount(t.q, Action(false, true, None));
      assert t.q[..k] == Killed(t.q);
    }
  }

  /** Once no mark is left, the read is answered with what it got if that is enough. */
  lemma HandleUnmarked(t: Tty, s: Termios)
    requires t.eotCount == 0 && 0 < t.inLeft && Hung(t, s) == t
    ensures Handle(t, s)
            == if t.inCum >= t.min then t.(replies := t.replies + [t.inCum], inLeft := 0, inCum := 0) else t
  {
  }

  /** Outside canonical mode, whatever is queued: a read that finds as many marked characters as the minimum takes all
      it can have of the characters up to the last marked one; it is answered if it has all it wants or as many bytes
      as the minimum. */
  lemma {:induction false} RawRead(t: Tty, s: Termios, n: nat)
    requires Ok(t) && !s.icanon && t.inLeft == 0 && t.inCum == 0 && 0 < n
    ensures var r := Read(t, s, n);
            var k := Giving(Killed(t.q), n);
            var m := Min(n, |Text(Killed(t.q))|);
            && r.min == Minimum(t, s) && k <= |t.q|
            && if t.eotCount < r.min then r == t.(inLeft := n, min := r.min)
               else r.q == t.q[k..] && r.user == t.user + Text(t.q[..k]) && |Text(t.q[..k])| == m
                    && (r.inLeft == 0 <==> m == n || m >= r.min)
                    && r.replies == if r.inLeft == 0 then t.replies + [m] else t.replies
  {
    var t0 := t.(inLeft := n, min := ReadMin(t, s));
    var t1 := t.(inLeft := n, min := Minimum(t, s));
    KilledIsPrefix(t.q);
    assert Transfer(t0, s) == Transfer(t1, s);
    if t1.min <= t.eotCount {
      var k, m := Giving(Killed(t.q), n), Min(n, |Text(Killed(t.q))|);
      RawTransfer(t1, s, k, m);
      if m < n {
        HandleUnmarked(Transfer(t1, s), s);
      }
    }
  }

  // ---------------------------------------------------------------- new settings in canonical mode

  /** What canonical mode promises a reader of n bytes: to wait for a line, and to get it. */
  ghost predicate ReadsLine(t: Tty, r: Tty, n: nat) {
    var m := Min(n, LineLength(t.q));
    if CountEot(t.q) == 0 then r.user == t.user && r.replies == t.replies
    else |r.q| == |t.q| - m && r.user == t.user + Text(t.q[..m]) && r.replies == t.replies + [|Text(t.q[..m])|]
  }

  /** New settings leave the minimum and the lines as canonical mode has them exactly if the tested bit is set, or the
      values in force outside canonical mode happen to be the same. */
  lemma SettingsKeepLinesExactly(t: Tty, s: Termios)
    ensures SetAttr(t, s).min == 1 <==> s.isCanon || s.vmin == 1 || (s.vmin == 0 && s.vtime > 0)
    ensures SetAttr(t, s).q == t.q <==> s.isCanon || Raw(t.q)
    ensures |Killed(SetAttr(t, s).q)| == |Killed(t.q)| <==> s.isCanon || Killed(t.q) == t.q
  {
    KilledIsPrefix(t.q);
    KilledIsPrefix(AllEot(t.q));
    if SetAttr(t, s).q == t.q && !s.isCanon {
      assert forall i :: 0 <= i < |t.q| ==> AllEot(t.q)[i].eot;
    }
  }

  /** Every queued character is a line when the tested bit is not set. */
  lemma ReadAfterSettings(t: Tty, s: Termios, n: nat)
    requires Ok(t) && s.icanon && !s.hungUp && !s.isCanon && t.inLeft == 0 && t.inCum == 0 && 0 < n
    ensures var r := Read(SetAttr(t, s), s, n);
            if |t.q| < SettingsMin(s) then r.user == t.user && r.replies == t.replies && |r.q| == |t.q|
            else if t.q == [] then r.replies == t.replies + [0]
            else |r.q| == |t.q| - 1 && r.user == t.user + Text(t.q[..1]) && r.replies == t.replies + [|Text(t.q[..1])|]
  {
    var t1 := SetAttr(t, s);
    SettingsKeepOk(t, s);
    CanonicalRead(t1, s, n);
    if t.q != [] {
      assert LineLength(t1.q) == 1;
      assert t1.q[..1] == [t.q[0].(eot := true)] && t.q[..1] == [t.q[0]];
      OneCell(t1.q[0]);
      OneCell(t.q[0]);
    }
  }

  /** After new settings in canonical mode every reader gets what that mode promises exactly if the tested bit is set;
      or, with nothing queued, the minimum is not 0; or, with no line queued, it is more than the queue holds; or it is
      no more than that and the first character is a line by itself. */
  lemma CanonicalAfterSettingsExactly(t: Tty, s: Termios)
    requires Ok(t) && s.icanon && !s.hungUp && t.inLeft == 0 && t.inCum == 0
    ensures (forall n: nat :: 0 < n ==> ReadsLine(t, Read(SetAttr(t, s), s, n), n))
            <==> (|| s.isCanon
                  || (CountEot(t.q) == 0 && |t.q| < SettingsMin(s))
                  || (CountEot(t.q) > 0 && SettingsMin(s) <= |t.q| && t.q[0].eot))
  {
    if s.isCanon {
      forall n: nat | 0 < n
        ensures ReadsLine(t, Read(SetAttr(t, s), s, n), n)
      {
        CanonicalRead(SetAttr(t, s), s, n);
      }
    } else {
      forall n: nat | 0 < n
        ensures ReadsLine(t, Read(SetAttr(t, s), s, n), n)
                <==> (if CountEot(t.q) == 0 then |t.q| < SettingsMin(s)
                      else SettingsMin(s) <= |t.q| && Min(n, LineLength(t.q)) == 1)
      {
        ReadAfterSettings(t, s, n);
      }
      assert ReadsLine(t, Read(SetAttr(t, s), s, |t.q| + 1), |t.q| + 1)
             <==> (if CountEot(t.q) == 0 then |t.q| < SettingsMin(s)
                   else SettingsMin(s) <= |t.q| && LineLength(t.q) == 1);
      if CountEot(t.q) > 0 {
        FirstLineIsOne(t.q);
      }
    }
  }

  lemma {:induction false} FirstLineIsOne(q: seq<Cell>)
    requires CountEot(q) > 0
    ensures LineLength(q) == 1 <==> q[0].eot
  {
    if q[1..] == [] {
      OneCell(q[0]);
      assert q == [q[0]];
    }
  }

  // ---------------------------------------------------------------- new settings outside canonical mode

  /** What these values promise a reader of n bytes: to wait for that many characters, and to get what there is. */
  ghost predicate ReadsEnough(t: Tty, s: Termios, r: Tty, n: nat) {
    var k, m := Giving(t.q, n), Min(n, |Text(t.q)|);
    if |t.q| < AskedMin(s) then |r.q| == |t.q| && r.user == t.user && r.replies == t.replies
    else
      && |r.q| == |t.q| - k && r.user == t.user + Text(t.q[..k])
      && r.replies == if m == n || m >= AskedMin(s) then t.replies + [m] else t.replies
  }

  /** Marks do not matter to what is given. */
  lemma {:induction false} MarksGiveNothing(q: seq<Cell>, n: nat)
    ensures Giving(AllEot(q), n) == Giving(q, n) && Text(AllEot(q)) == Text(q)
  {
    if q != [] {
      assert AllEot(q)[1..] == AllEot(q[1..]);
      MarksGiveNothing(q[1..], if n == 0 then 0 else if q[0].eof then n else n - 1);
    }
  }

  /** If the tested bit is clear, as it should be, the promise is kept. */
  lemma ClearBitKeepsPromise(t: Tty, s: Termios, n: nat)
    requires Ok(t) && !s.icanon && !s.isCanon && !s.hungUp && t.inLeft == 0 && t.inCum == 0 && 0 < n
    ensures ReadsEnough(t, s, Read(SetAttr(t, s), s, n), n)
  {
    var t1, k := SetAttr(t, s), Giving(t.q, n);
    SettingsKeepOk(t, s);
    RawRead(t1, s, n);
    AllMarkedCounts(t1.q);
    MarksGiveNothing(t.q, n);
    assert t1.q[..k] == AllEot(t.q[..k]);
    MarksGiveNothing(t.q[..k], 0);
  }

  /** If it is set, a reader waits for a mark, and gets what is in front of it. */
  lemma {:induction false} ReadAfterSetBit(t: Tty, s: Termios, n: nat)
    requires Ok(t) && !s.icanon && s.isCanon && !s.hungUp && t.inLeft == 0 && t.inCum == 0 && 0 < n
    ensures var r := Read(SetAttr(t, s), s, n);
            var k, m := Giving(Killed(t.q), n), Min(n, |Text(Killed(t.q))|);
            && k <= |t.q|
            && if t.eotCount == 0 then r.q == t.q && r.user == t.user && r.replies == t.replies
               else r.q == t.q[k..] && r.user == t.user + Text(t.q[..k])
                    && r.replies == if m > 0 then t.replies + [m] else t.replies
  {
    SettingsKeepOk(t, s);
    RawRead(SetAttr(t, s), s, n);
  }

  /** When a set bit makes no difference: nobody is to be answered and nothing is marked; or somebody is, and all up to
      the last character is marked or in front of a mark, and gives as many bytes as are asked for if it gives any. */
  predicate BitMakesNoDifference(q: seq<Cell>, s: Termios) {
    if CountEot(q) == 0 then |q| < AskedMin(s)
    else AskedMin(s) <= |q| && q[|q| - 1].eot && (AskedMin(s) <= |Text(q)| <==> 0 < |Text(q)|)
  }

  lemma {:induction false} MoreThanAll(q: seq<Cell>)
    ensures Giving(q, |q| + 1) == |q|
  {
    GivingGives(q, |q| + 1);
  }

  /** If nothing is marked, nobody is answered. */
  lemma UnmarkedKeepsPromise(t: Tty, s: Termios, n: nat)
    requires Ok(t) && !s.icanon && s.isCanon && !s.hungUp && t.inLeft == 0 && t.inCum == 0 && 0 < n
    requires t.eotCount == 0
    ensures ReadsEnough(t, s, Read(SetAttr(t, s), s, n), n) <==> |t.q| < AskedMin(s)
  {
    ReadAfterSetBit(t, s, n);
    assert t.q != [] ==> Giving(t.q, n) > 0;
  }

  /** If everything is marked or in front of a mark, the same is taken, and only whether it is answered can differ. */
  lemma MarkedKeepsPromise(t: Tty, s: Termios, n: nat)
    requires Ok(t) && !s.icanon && s.isCanon && !s.hungUp && t.inLeft == 0 && t.inCum == 0 && 0 < n
    requires t.eotCount > 0 && Killed(t.q) == t.q && AskedMin(s) <= |t.q|
    ensures var m := Min(n, |Text(t.q)|);
            ReadsEnough(t, s, Read(SetAttr(t, s), s, n), n) <==> (m == n || AskedMin(s) <= m <==> 0 < m)
  {
    ReadAfterSetBit(t, s, n);
  }

  /** If something is behind the last mark, it is not given to a reader who wants all; if too little is queued,
      somebody is answered all the same. */
  lemma BehindMarkBreaksPromise(t: Tty, s: Termios)
    requires Ok(t) && !s.icanon && s.isCanon && !s.hungUp && t.inLeft == 0 && t.inCum == 0
    requires t.eotCount > 0 && (Killed(t.q) != t.q || |t.q| < AskedMin(s))
    ensures !ReadsEnough(t, s, Read(SetAttr(t, s), s, |t.q| + 1), |t.q| + 1)
  {
    var n := |t.q| + 1;
    KilledIsPrefix(t.q);
    KilledRest(t.q);
    ReadAfterSetBit(t, s, n);
    GivingGives(Killed(t.q), n);
    MoreThanAll(t.q);
    assert Giving(Killed(t.q), n) == |Killed(t.q)| > 0;
    assert Killed(t.q) != t.q ==> |Killed(t.q)| < |t.q|;
  }

  /** After new settings outside canonical mode every reader gets what VMIN and VTIME promise exactly if the tested bit
      is clear, or makes no difference to what is queued. */
  lemma RawAfterSettingsExactly(t: Tty, s: Termios)
    requires Ok(t) && !s.icanon && !s.hungUp && t.inLeft == 0 && t.inCum == 0
    ensures (forall n: nat :: 0 < n ==> ReadsEnough(t, s, Read(SetAttr(t, s), s, n), n))
            <==> !s.isCanon || BitMakesNoDifference(t.q, s)
  {
    if !s.isCanon {
      forall n: nat | 0 < n
        ensures ReadsEnough(t, s, Read(SetAttr(t, s), s, n), n)
      {
        ClearBitKeepsPromise(t, s, n);
      }
    } else {
      SetBitKeepsPromiseExactly(t, s);
    }
  }

  lemma SetBitKeepsPromiseExactly(t: Tty, s: Termios)
    requires Ok(t) && !s.icanon && s.isCanon && !s.hungUp && t.inLeft == 0 && t.inCum == 0
    ensures (forall n: nat :: 0 < n ==> ReadsEnough(t, s, Read(SetAttr(t, s), s, n), n))
            <==> BitMakesNoDifference(t.q, s)
  {
    KilledIsPrefix(t.q);
    if t.eotCount == 0 {
      forall n: nat | 0 < n
        ensures ReadsEnough(t, s, Read(SetAttr(t, s), s, n), n) <==> |t.q| < AskedMin(s)
      {
        UnmarkedKeepsPromise(t, s, n);
      }
      assert ReadsEnough(t, s, Read(SetAttr(t, s), s, 1), 1) <==> |t.q| < AskedMin(s);
    } else if Killed(t.q) != t.q || |t.q| < AskedMin(s) {
      BehindMarkBreaksPromise(t, s);
      assert Killed(t.q) != t.q ==> !t.q[|t.q| - 1].eot;
    } else {
      forall n: nat | 0 < n
        ensures var m := Min(n, |Text(t.q)|);
                ReadsEnough(t, s, Read(SetAttr(t, s), s, n), n) <==> (m == n || AskedMin(s) <= m <==> 0 < m)
      {
        MarkedKeepsPromise(t, s, n);
      }
      var n := |t.q| + 1;
      assert ReadsEnough(t, s, Read(SetAttr(t, s), s, n), n) <==> (AskedMin(s) <= |Text(t.q)| <==> 0 < |Text(t.q)|);
    }
  }
}
