/** What single bytes and typed lines do, in terms of bytes and settings. */
module TerminalTyping {
  import opened Terminal
  import opened TerminalRuns

  // ---------------------------------------------------------------- what a byte is taken for

  function Stripped(s: Termios, b: Byte): Byte {
    if s.istrip then b % 128 else b
  }

  /** The byte says that the next one is to be taken as it is. */
  predicate Escapes(s: Termios, m: Mode, b: Byte) {
    s.iexten && !m.escaped && Stripped(s, b) == s.lnext
  }

  /** The byte only asks for the line to be shown again. */
  predicate Reprints(s: Termios, m: Mode, b: Byte) {
    s.iexten && !m.escaped && Stripped(s, b) == s.reprint
  }

  /** The byte is taken as it is. */
  predicate Literal(s: Termios, m: Mode, b: Byte) {
    (s.iexten && m.escaped) || Stripped(s, b) == 255
  }

  /** A carriage return is dropped or becomes a line feed, and a line feed a carriage return, as the settings say. */
  predicate BecomesByte(s: Termios, c: Byte, d: Byte) {
    if c == 13 then !s.igncr && d == (if s.icrnl then 10 else 13)
    else if c == 10 then d == (if s.inlcr then 13 else 10)
    else d == c
  }

  predicate EndsLine(s: Termios, d: Byte) {
    d == 10 || d == s.eol || d == s.eof
  }

  /** The byte, which ends no line, stops or resumes the output, and is not queued. */
  predicate Controls(s: Termios, m: Mode, d: Byte) {
    s.ixon && (d == s.stop || (m.inhibited && d == s.start))
  }

  /** q1 is q with the character c behind it if there is room. */
  ghost predicate Put(q: seq<Cell>, q1: seq<Cell>, c: Cell, room: nat) {
    q1 == if |q| < room then q + [c] else q
  }

  /** q1 is what is left of q when the last line, which is not complete, is erased. */
  ghost predicate LineErased(q: seq<Cell>, q1: seq<Cell>) {
    && q1 <= q && (q1 == [] || q1[|q1| - 1].eot) && forall i :: |q1| <= i < |q| ==> !q[i].eot
  }

  /** q1 is q without its last character, unless that ends a line. */
  ghost predicate LastErased(q: seq<Cell>, q1: seq<Cell>) {
    if q == [] || q[|q| - 1].eot then q1 == q else q1 == q[..|q| - 1]
  }

  /** The byte d is queued, as a line end if it is one, unless it controls the output. */
  ghost predicate Queues(s: Termios, m: Mode, q: seq<Cell>, q1: seq<Cell>, d: Byte, room: nat) {
    if EndsLine(s, d) then Put(q, q1, Cell(d, false, true, d == s.eof), room)
    else if Controls(s, m, d) then q1 == q
    else Put(q, q1, Cell(d, false, false, false), room)
  }

  /** In canonical mode: ERASE takes the last character, KILL the line, and with ECHOE is then queued like any other
      character. */
  ghost predicate Edits(s: Termios, m: Mode, q: seq<Cell>, q1: seq<Cell>, d: Byte, room: nat) {
    if d == s.erase then LastErased(q, q1)
    else if d == s.kill then
      if s.echoe then exists k :: LineErased(q, k) && Queues(s, m, k, q1, d, room) else LineErased(q, q1)
    else Queues(s, m, q, q1, d, room)
  }

  /** What byte b, typed in canonical mode, does to the queue. */
  ghost predicate CanonicalByte(s: Termios, m: Mode, q: seq<Cell>, q1: seq<Cell>, b: Byte, room: nat) {
    var c := Stripped(s, b);
    if Escapes(s, m, b) || Reprints(s, m, b) then q1 == q
    else if Literal(s, m, b) then Put(q, q1, Cell(c, true, false, false), room)
    else if c == 13 && s.igncr then q1 == q
    else exists d: Byte :: BecomesByte(s, c, d) && Edits(s, m, q, q1, d, room)
  }

  /** And outside canonical mode: it is queued, as a line end, unless it escapes, controls the output, or is dropped. */
  ghost predicate RawByte(s: Termios, m: Mode, q: seq<Cell>, q1: seq<Cell>, b: Byte, room: nat) {
    var c := Stripped(s, b);
    if Escapes(s, m, b) || Reprints(s, m, b) then q1 == q
    else if Literal(s, m, b) then Put(q, q1, Cell(c, true, true, false), room)
    else if c == 13 && s.igncr then q1 == q
    else exists d: Byte :: BecomesByte(s, c, d)
           && if Controls(s, m, d) then q1 == q else Put(q, q1, Cell(d, false, true, false), room)
  }

  /** Whether output is stopped after a queued or controlling byte: STOP stops it, START resumes it, and with IXANY so
      does any other. plain: the byte is no line end and not to be taken as it is. */
  function Stopped(s: Termios, m: Mode, d: Byte, plain: bool): bool {
    if s.ixon && plain && d == s.stop then true
    else if s.ixon && m.inhibited && (s.ixany || (plain && d == s.start)) then false
    else m.inhibited
  }

  /** Whether output is stopped after byte b. */
  ghost predicate StoppedAfter(s: Termios, m: Mode, b: Byte, stopped: bool) {
    var c := Stripped(s, b);
    if Escapes(s, m, b) || Reprints(s, m, b) then stopped == m.inhibited
    else if Literal(s, m, b) then stopped == Stopped(s, m, c, false)
    else if c == 13 && s.igncr then stopped == m.inhibited
    else exists d: Byte :: BecomesByte(s, c, d)
           && stopped == if s.icanon && (d == s.erase || (d == s.kill && !s.echoe)) then m.inhibited
                         else Stopped(s, m, d, !(s.icanon && EndsLine(s, d)))
  }

  // ---------------------------------------------------------------- what the code does with it

  /** t after byte b, before a reader is served. */
  function Keyed(t: Tty, s: Termios, b: Byte, room: nat): Tty {
    var (a, m) := Reading(s, t.mode, b); Entered(t, a, m, room)
  }

  /** The byte c after the mapping of line ends. */
  function Becomes(s: Termios, c: Byte): (d: Byte)
    ensures (c == 13 && s.igncr) || BecomesByte(s, c, d)
  {
    if c == 13 then (if s.icrnl then 10 else 13) else if c == 10 then (if s.inlcr then 13 else 10) else c
  }

  /** The start of the loop, in bytes. */
  lemma PreparedIs(s: Termios, m: Mode, b: Byte)
    ensures var (c, (o, m1)) := (Stripped(s, b), Prepared(s, m, b));
            && m1 == Mode(if s.iexten then Escapes(s, m, b) else m.escaped, m.inhibited)
            && o == if Escapes(s, m, b) || Reprints(s, m, b) then None
                    else if Literal(s, m, b) then Some(Cell(c, true, false, false))
                    else if c == 13 && s.igncr then None
                    else Some(Cell(Becomes(s, c), false, false, false))
  {
  }

  /** What follows it does with a character. */
  function Done(s: Termios, m: Mode, d: Cell): (Action, Mode) {
    var kills := s.icanon && Is(d, s.kill) && !Is(d, s.erase);
    if s.icanon && Is(d, s.erase) then (Action(true, false, None), m)
    else if kills && !s.echoe then (Action(false, true, None), m)
    else
      var c := Marked(s, d);
      var (taken, m2) := Flow(s, m, c);
      (Action(false, kills, if taken then None else Some(if s.icanon then c else c.(eot := true))), m2)
  }

  lemma LiteralIsPut(s: Termios, m: Mode, q: seq<Cell>, c: Byte, room: nat)
    ensures var (a, m1) := Done(s, m, Cell(c, true, false, false));
            && Put(q, Acted(q, a, room), Cell(c, true, !s.icanon, false), room)
            && m1 == m.(inhibited := Stopped(s, m, c, false))
  {
  }

  lemma PlainIsEdited(s: Termios, m: Mode, q: seq<Cell>, d: Byte, room: nat)
    requires s.icanon
    ensures var (a, m1) := Done(s, m, Cell(d, false, false, false));
            && Edits(s, m, q, Acted(q, a, room), d, room)
            && m1 == m.(inhibited := if d == s.erase || (d == s.kill && !s.echoe) then m.inhibited
                                     else Stopped(s, m, d, !EndsLine(s, d)))
  {
    KilledIsPrefix(q);
    assert LineErased(q, Killed(q));
  }

  lemma PlainIsRaw(s: Termios, m: Mode, q: seq<Cell>, d: Byte, room: nat)
    requires !s.icanon
    ensures var (a, m1) := Done(s, m, Cell(d, false, false, false));
            && (if Controls(s, m, d) then Acted(q, a, room) == q
                else Put(q, Acted(q, a, room), Cell(d, false, true, false), room))
            && m1 == m.(inhibited := Stopped(s, m, d, true))
  {
  }

  /** The two together. */
  lemma ReadingIs(s: Termios, m: Mode, b: Byte)
    ensures var (c, m1) := (Stripped(s, b), Mode(if s.iexten then Escapes(s, m, b) else m.escaped, m.inhibited));
            Reading(s, m, b)
            == if Escapes(s, m, b) || Reprints(s, m, b) then (SKIP, m1)
               else if Literal(s, m, b) then Done(s, m1, Cell(c, true, false, false))
               else if c == 13 && s.igncr then (SKIP, m1)
               else Done(s, m1, Cell(Becomes(s, c), false, false, false))
  {
    PreparedIs(s, m, b);
  }

  /** In canonical mode every byte does to the queue what the settings say. */
  lemma CanonicalByteExactly(t: Tty, s: Termios, b: Byte, room: nat)
    requires s.icanon
    ensures CanonicalByte(s, t.mode, t.q, Keyed(t, s, b, room).q, b, room)
  {
    var c, m1 := Stripped(s, b), Mode(if s.iexten then Escapes(s, t.mode, b) else t.mode.escaped, t.mode.inhibited);
    ReadingIs(s, t.mode, b);
    if Literal(s, t.mode, b) {
      LiteralIsPut(s, m1, t.q, c, room);
    } else {
      PlainIsEdited(s, m1, t.q, Becomes(s, c), room);
    }
  }

  /** And so it does outside canonical mode. */
  lemma RawByteExactly(t: Tty, s: Termios, b: Byte, room: nat)
    requires !s.icanon
    ensures RawByte(s, t.mode, t.q, Keyed(t, s, b, room).q, b, room)
  {
    var c, m1 := Stripped(s, b), Mode(if s.iexten then Escapes(s, t.mode, b) else t.mode.escaped, t.mode.inhibited);
    ReadingIs(s, t.mode, b);
    if Literal(s, t.mode, b) {
      LiteralIsPut(s, m1, t.q, c, room);
    } else {
      PlainIsRaw(s, m1, t.q, Becomes(s, c), room);
    }
  }

  /** A byte is refused, and stays with the device, exactly if it is typed outside canonical mode, is to be queued, and
      there is no room. */
  lemma RefusedExactly(t: Tty, s: Termios, b: Byte, room: nat)
    ensures Refused(t, s, b, room)
            <==> (&& !s.icanon && |t.q| >= room && !Escapes(s, t.mode, b) && !Reprints(s, t.mode, b)
                  && (|| Literal(s, t.mode, b)
                      || exists d: Byte :: BecomesByte(s, Stripped(s, b), d) && !Controls(s, t.mode, d)))
  {
    var c, m1 := Stripped(s, b), Mode(if s.iexten then Escapes(s, t.mode, b) else t.mode.escaped, t.mode.inhibited);
    ReadingIs(s, t.mode, b);
    if Literal(s, t.mode, b) {
      LiteralIsPut(s, m1, t.q, c, room);
    } else if !s.icanon {
      PlainIsRaw(s, m1, t.q, Becomes(s, c), room);
    }
  }

  /** In both modes every byte stops or resumes the output as the settings say, and escapes the next one if it is
      LNEXT and not escaped itself. */
  lemma ModeExactly(t: Tty, s: Termios, b: Byte, room: nat)
    ensures var r := Keyed(t, s, b, room);
            && StoppedAfter(s, t.mode, b, r.mode.inhibited)
            && r.mode.escaped == if s.iexten then Escapes(s, t.mode, b) else t.mode.escaped
  {
    var c, m1 := Stripped(s, b), Mode(if s.iexten then Escapes(s, t.mode, b) else t.mode.escaped, t.mode.inhibited);
    ReadingIs(s, t.mode, b);
    if Literal(s, t.mode, b) {
      LiteralIsPut(s, m1, t.q, c, room);
    } else if s.icanon {
      PlainIsEdited(s, m1, t.q, Becomes(s, c), room);
    } else {
      PlainIsRaw(s, m1, t.q, Becomes(s, c), room);
    }
  }

  // ---------------------------------------------------------------- the end of a line

  /** Byte b is queued as the end of a line: it is a line feed, EOF or EOL once mapped, is no editing character of its
      own, unless it is KILL with ECHOE, and there is room. */
  ghost predicate CompletesLine(s: Termios, m: Mode, q: seq<Cell>, b: Byte, room: nat) {
    && !Escapes(s, m, b) && !Reprints(s, m, b) && !Literal(s, m, b)
    && exists d: Byte :: BecomesByte(s, Stripped(s, b), d) && EndsLine(s, d) && d != s.erase
         && if d == s.kill then s.echoe && exists k :: LineErased(q, k) && |k| < room else |q| < room
  }

  lemma {:induction false} ErasedLineIs(q: seq<Cell>, k: seq<Cell>)
    requires LineErased(q, k)
    ensures k == Killed(q)
  {
    KilledIsPrefix(q);
  }

  lemma PlainCompletes(s: Termios, m: Mode, q: seq<Cell>, d: Byte, room: nat)
    requires s.icanon
    ensures var a := Done(s, m, Cell(d, false, false, false)).0;
            (a.store.Some? && |Cut(q, a)| < room && a.store.value.eot)
            <==> (EndsLine(s, d) && d != s.erase
                  && if d == s.kill then s.echoe && exists k :: LineErased(q, k) && |k| < room else |q| < room)
  {
    KilledIsPrefix(q);
    assert LineErased(q, Killed(q));
    forall k | LineErased(q, k)
      ensures k == Killed(q)
    {
      ErasedLineIs(q, k);
    }
  }

  /** In canonical mode these bytes complete one line each, and no other byte completes one. */
  lemma LinesEndExactly(t: Tty, s: Termios, b: Byte, room: nat)
    requires s.icanon
    ensures Keyed(t, s, b, room).eotCount == t.eotCount + if CompletesLine(s, t.mode, t.q, b, room) then 1 else 0
  {
    var c, m1 := Stripped(s, b), Mode(if s.iexten then Escapes(s, t.mode, b) else t.mode.escaped, t.mode.inhibited);
    ReadingIs(s, t.mode, b);
    if !Literal(s, t.mode, b) && !(c == 13 && s.igncr) {
      PlainCompletes(s, m1, t.q, Becomes(s, c), room);
    }
  }

  // ---------------------------------------------------------------- a line is typed and read

  /** The byte has no meaning of its own. */
  predicate Ordinary(s: Termios, b: Byte) {
    var c := Stripped(s, b);
    && c != 10 && c != 13 && c != 255 && c != s.erase && c != s.kill && c != s.eof && c != s.eol
    && (s.iexten ==> c != s.lnext && c != s.reprint) && (s.ixon ==> c != s.stop)
  }

  /** The byte ends a line, and a reader gets `last` for it: a line feed, or a carriage return that stands for one,
      gives a line feed, EOL gives itself, and EOF nothing. It has no other meaning. */
  predicate IsEnd(s: Termios, b: Byte, last: seq<Byte>) {
    var c := Stripped(s, b);
    && c != 255 && (s.iexten ==> c != s.lnext && c != s.reprint) && c != s.erase && c != s.kill
    && if (c == 10 && !s.inlcr) || (c == 13 && s.icrnl && !s.igncr) then
         s.erase != 10 && s.kill != 10 && s.eof != 10 && last == [10]
       else c != 10 && c != 13 && if c == s.eof then last == [] else c == s.eol && last == [c]
  }

  /** Nothing is escaped and output runs; no line is complete; a reader, if there is one, waits for a line and has got
      nothing yet. */
  ghost predicate Quiet(t: Tty, s: Termios) {
    && s.icanon && !s.hungUp && Ok(t) && t.eotCount == 0 && t.inCum == 0 && t.mode == Mode(false, false)
    && (t.inLeft == 0 || t.min == 1)
  }

  function Typing(bytes: seq<Byte>): (run: seq<Event>)
    ensures |run| == |bytes|
  {
    seq(|bytes|, i requires 0 <= i < |bytes| => Typed(bytes[i]))
  }

  /** The bytes as they are queued. */
  function Plain(s: Termios, bytes: seq<Byte>): (q: seq<Cell>)
    ensures |q| == |bytes|
  {
    seq(|bytes|, i requires 0 <= i < |bytes| => Cell(Stripped(s, bytes[i]), false, false, false))
  }

  /** The bytes as they are read. */
  function AsRead(s: Termios, bytes: seq<Byte>): (r: seq<Byte>)
    ensures |r| == |bytes|
  {
    seq(|bytes|, i requires 0 <= i < |bytes| => Stripped(s, bytes[i]))
  }

  lemma {:induction false} PlainText(s: Termios, bytes: seq<Byte>)
    ensures Text(Plain(s, bytes)) == AsRead(s, bytes) && CountEot(Plain(s, bytes)) == 0
  {
    var q := Plain(s, bytes);
    NoEotCountsNothing(q);
    if bytes != [] {
      assert q[1..] == Plain(s, bytes[1..]);
      PlainText(s, bytes[1..]);
      assert AsRead(s, bytes) == [Stripped(s, bytes[0])] + AsRead(s, bytes[1..]);
    }
  }

  /** An ordinary byte is queued, and nobody is served. */
  lemma OrdinaryIsQueued(t: Tty, s: Termios, b: Byte, room: nat)
    requires Quiet(t, s) && Ordinary(s, b) && |t.q| < room
    ensures var t1 := Step(t, s, Typed(b), room);
            t1 == t.(q := t.q + [Cell(Stripped(s, b), false, false, false)]) && Quiet(t1, s)
  {
    ReadingIs(s, t.mode, b);
    var t1 := t.(q := t.q + [Cell(Stripped(s, b), false, false, false)]);
    CountSplits(t.q, [Cell(Stripped(s, b), false, false, false)]);
    NothingToTransfer(t1, s);
  }

  lemma {:induction false} PlainSplits(s: Termios, q: seq<Cell>, bytes: seq<Byte>)
    requires bytes != []
    ensures q + Plain(s, bytes) == q + [Cell(Stripped(s, bytes[0]), false, false, false)] + Plain(s, bytes[1..])
    ensures Typing(bytes)[0] == Typed(bytes[0]) && Typing(bytes)[1..] == Typing(bytes[1..])
  {
    assert Plain(s, bytes) == [Cell(Stripped(s, bytes[0]), false, false, false)] + Plain(s, bytes[1..]);
  }

  lemma {:induction false} OrdinaryAreQueued(t: Tty, s: Termios, bytes: seq<Byte>, room: nat)
    requires Quiet(t, s) && |t.q| + |bytes| <= room && forall i :: 0 <= i < |bytes| ==> Ordinary(s, bytes[i])
    ensures var t1 := t.(q := t.q + Plain(s, bytes)); After(t, s, Typing(bytes), room) == t1 && Quiet(t1, s)
    decreases |bytes|
  {
    if bytes == [] {
      assert t.q + Plain(s, bytes) == t.q;
    } else {
      var t1 := Step(t, s, Typed(bytes[0]), room);
      OrdinaryIsQueued(t, s, bytes[0], room);
      PlainSplits(s, t.q, bytes);
      OrdinaryAreQueued(t1, s, bytes[1..], room);
      assert After(t, s, Typing(bytes), room) == After(t1, s, Typing(bytes[1..]), room);
    }
  }

  lemma {:induction false} AfterOneMore(t: Tty, s: Termios, run: seq<Event>, e: Event, room: nat)
    ensures After(t, s, run + [e], room) == Step(After(t, s, run, room), s, e, room)
    decreases |run|
  {
    if run == [] {
      assert run + [e] == [e] && [e][1..] == [];
    } else {
      assert (run + [e])[1..] == run[1..] + [e];
      AfterOneMore(Step(t, s, run[0], room), s, run[1..], e, room);
    }
  }

  /** The character that ends the line. */
  function EndCell(s: Termios, e: Byte, last: seq<Byte>): Cell {
    if last == [] then Cell(Stripped(s, e), false, true, true) else Cell(last[0], false, true, false)
  }

  /** t with c, which completes one line, behind its queue. */
  function Ended(t: Tty, c: Cell): Tty {
    t.(q := t.q + [c], eotCount := 1)
  }

  lemma EndIsQueued(t: Tty, s: Termios, e: Byte, last: seq<Byte>, room: nat)
    requires Quiet(t, s) && IsEnd(s, e, last) && |t.q| < room
    ensures var c := EndCell(s, e, last);
            Keyed(t, s, e, room) == Ended(t, c) && Ok(Ended(t, c)) && c.eot && last == if c.eof then [] else [c.ch]
  {
    ReadingIs(s, t.mode, e);
    CountSplits(t.q, [EndCell(s, e, last)]);
    OneCell(EndCell(s, e, last));
  }

  lemma {:induction false} WholeIsOneLine(q: seq<Cell>, c: Cell)
    requires CountEot(q) == 0 && c.eot
    ensures LineLength(q + [c]) == |q| + 1
  {
    NoneEnds(q);
    assert forall i :: 0 <= i < |q| ==> !(q + [c])[i].eot;
  }

  /** t after its reader has got the line in the queue. */
  ghost predicate GotLine(t: Tty, r: Tty, text: seq<Byte>) {
    && r.q == [] && r.eotCount == 0 && r.inLeft == 0 && r.inCum == 0
    && r.user == t.user + text && r.replies == t.replies + [|text|]
  }

  lemma EndedIsServed(t: Tty, s: Termios, c: Cell, n: nat)
    requires Quiet(t, s) && t.min <= 1 && |t.q| < n && c.eot && Ok(Ended(t, c))
    ensures GotLine(t, Transfer(Ended(t, c).(inLeft := n), s), Text(t.q) + if c.eof then [] else [c.ch])
  {
    var t1 := Ended(t, c).(inLeft := n);
    CountSplits(t.q, [c]);
    OneCell(c);
    TextSplits(t.q, [c]);
    WholeIsOneLine(t.q, c);
    MovedTakesOneLine(t1);
    assert t1.q[..|t1.q|] == t1.q;
  }

  /** The text of the queue with the line typed behind it. */
  lemma LineText(t: Tty, s: Termios, bytes: seq<Byte>)
    ensures Text(t.q + Plain(s, bytes)) == Text(t.q) + AsRead(s, bytes)
  {
    TextSplits(t.q, Plain(s, bytes));
    PlainText(s, bytes);
  }

  /** Ordinary bytes and the end of the line complete exactly one line behind what is queued, and nothing is read. */
  lemma {:induction false} TypedLineIsComplete(t: Tty, s: Termios, bytes: seq<Byte>, e: Byte, last: seq<Byte>,
                                               room: nat)
    requires Quiet(t, s) && t.inLeft == 0 && |t.q| + |bytes| < room
    requires (forall i :: 0 <= i < |bytes| ==> Ordinary(s, bytes[i])) && IsEnd(s, e, last)
    ensures After(t, s, Typing(bytes + [e]), room)
            == t.(q := t.q + Plain(s, bytes) + [EndCell(s, e, last)], eotCount := 1)
  {
    var t1 := t.(q := t.q + Plain(s, bytes));
    OrdinaryAreQueued(t, s, bytes, room);
    assert Typing(bytes + [e]) == Typing(bytes) + [Typed(e)];
    AfterOneMore(t, s, Typing(bytes), Typed(e), room);
    EndIsQueued(t1, s, e, last, room);
  }

  /** And the next read that asks for enough gets what was queued, those bytes, and what the end of the line gives. */
  lemma {:induction false} TypedLineIsRead(t: Tty, s: Termios, bytes: seq<Byte>, e: Byte, last: seq<Byte>, room: nat,
                                           n: nat)
    requires Quiet(t, s) && t.inLeft == 0 && t.min <= 1 && |t.q| + |bytes| < room && |t.q| + |bytes| < n
    requires (forall i :: 0 <= i < |bytes| ==> Ordinary(s, bytes[i])) && IsEnd(s, e, last)
    ensures GotLine(t, Read(After(t, s, Typing(bytes + [e]), room), s, n), Text(t.q) + AsRead(s, bytes) + last)
  {
    var t1 := t.(q := t.q + Plain(s, bytes));
    OrdinaryAreQueued(t, s, bytes, room);
    TypedLineIsComplete(t, s, bytes, e, last, room);
    EndedIsServed(t1, s, EndCell(s, e, last), n);
    LineText(t, s, bytes);
  }

  /** So does a reader who was there before the line: it sleeps until the end of the line, and gets all of it. */
  lemma {:induction false} SleeperGetsTypedLine(t: Tty, s: Termios, bytes: seq<Byte>, e: Byte, last: seq<Byte>,
                                                room: nat)
    requires Quiet(t, s) && |t.q| + |bytes| < room && |t.q| + |bytes| < t.inLeft
    requires (forall i :: 0 <= i < |bytes| ==> Ordinary(s, bytes[i])) && IsEnd(s, e, last)
    ensures GotLine(t, After(t, s, Typing(bytes + [e]), room), Text(t.q) + AsRead(s, bytes) + last)
    ensures After(t, s, Typing(bytes), room).user == t.user && After(t, s, Typing(bytes), room).replies == t.replies
  {
    var t1 := t.(q := t.q + Plain(s, bytes));
    OrdinaryAreQueued(t, s, bytes, room);
    assert Typing(bytes + [e]) == Typing(bytes) + [Typed(e)];
    AfterOneMore(t, s, Typing(bytes), Typed(e), room);
    EndIsQueued(t1, s, e, last, room);
    EndedIsServed(t1, s, EndCell(s, e, last), t.inLeft);
    assert Ended(t1, EndCell(s, e, last)).(inLeft := t.inLeft) == Ended(t1, EndCell(s, e, last));
    LineText(t, s, bytes);
  }

  // ---------------------------------------------------------------- the minimum, and hanging up

  /** What VMIN and VTIME ask a read to wait for. */
  function Wanted(s: Termios): nat {
    if s.vmin == 0 && s.vtime > 0 then 1 else s.vmin
  }

  /** Outside canonical mode a read asks for that minimum exactly if the minimum in force is that one, or the timer is
      in use and either VMIN is 0 or nothing is queued. */
  lemma ReadAsksExactly(t: Tty, s: Termios, n: nat)
    requires Ok(t) && !s.icanon && !s.hungUp && t.inLeft == 0 && t.inCum == 0 && 0 < n
    ensures Read(t, s, n).min == Wanted(s)
            <==> t.min == Wanted(s) || (s.vtime > 0 && (s.vmin == 0 || CountEot(t.q) == 0))
  {
    RawRead(t, s, n);
  }

  /** After new settings it does exactly if the tested bit is clear, or that minimum is 1, or the timer is in use and
      nothing is marked in the queue. */
  lemma ReadAsksAfterSettingsExactly(t: Tty, s: Termios, n: nat)
    requires Ok(t) && !s.icanon && !s.hungUp && t.inLeft == 0 && t.inCum == 0 && 0 < n
    ensures Read(SetAttr(t, s), s, n).min == Wanted(s)
            <==> !s.isCanon || Wanted(s) == 1 || (s.vtime > 0 && CountEot(t.q) == 0)
  {
    SettingsKeepOk(t, s);
    ReadAsksExactly(SetAttr(t, s), s, n);
  }

  /** Once the terminal has hung up every read is answered at once, in both modes and whatever it asks for. */
  lemma HungUpAnswersAtOnce(t: Tty, s: Termios, n: nat)
    requires Ok(t) && s.hungUp && t.inLeft == 0 && t.inCum == 0 && 0 < n
    ensures var r := Read(t, s, n); r.inLeft == 0 && |r.replies| == |t.replies| + 1
  {
    if s.icanon {
      CanonicalRead(t, s, n);
    } else {
      RawRead(t, s, n);
    }
  }

  // ---------------------------------------------------------------- stopped output

  lemma StepStaysStopped(t: Tty, s: Termios, e: Event, room: nat)
    requires !s.ixon
    ensures Step(t, s, e, room).mode.inhibited == t.mode.inhibited
  {
    if e.Typed? {
      ModeExactly(t, s, e.b, room);
      ServingKeepsMode(Keyed(t, s, e.b, room), s);
      ServingKeepsMode(Input(t, s, e.b, room), s);
    } else {
      var t1 := t.(inLeft := e.n, min := ReadMin(t, s));
      ServingKeepsMode(t1, s);
      ServingKeepsMode(Transfer(t1, s), s);
    }
  }

  lemma {:induction false} MovingKeepsMode(t: Tty, canon: bool)
    ensures Moved(t, canon).mode == t.mode
    decreases |t.q|
  {
    if t.inLeft > 0 && t.eotCount > 0 && t.q != [] {
      MovingKeepsMode(MoveOne(t, canon), canon);
    }
  }

  lemma ServingKeepsMode(t: Tty, s: Termios)
    ensures Transfer(t, s).mode == t.mode && Handle(t, s).mode == t.mode
  {
    MovingKeepsMode(Hung(t, s), s.icanon);
  }

  lemma {:induction false} RunStaysStopped(t: Tty, s: Termios, run: seq<Event>, room: nat)
    requires !s.ixon
    ensures After(t, s, run, room).mode.inhibited == t.mode.inhibited
    decreases |run|
  {
    if run != [] {
      StepStaysStopped(t, s, run[0], room);
      RunStaysStopped(Step(t, s, run[0], room), s, run[1..], room);
    }
  }

  /** Settings without flow control, put in force while output is stopped, leave it stopped for good, whatever is typed
      or read from then on, exactly if the bit that is tested, in the wrong word, is set. */
  lemma {:induction false} StoppedForGoodExactly(t: Tty, s: Termios, run: seq<Event>, room: nat)
    requires !s.ixon
    ensures After(SetAttr(t, s), s, run, room).mode.inhibited <==> t.mode.inhibited && s.isIxon
  {
    RunStaysStopped(SetAttr(t, s), s, run, room);
  }
}
