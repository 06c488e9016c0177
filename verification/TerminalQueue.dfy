/** The input queue of a terminal as it is written: a ring of characters, a staging buffer, and counters. */
module TerminalQueue {
  import opened Terminal

  // ---------------------------------------------------------------- the ring

  /** The place i steps after p in a ring of n. */
  function Place(n: nat, p: nat, i: nat): nat {
    if p + i < n then p + i else p + i - n
  }

  /** The count characters from place p on. */
  ghost function Ring(buf: seq<Cell>, p: nat, count: nat): (q: seq<Cell>)
    requires p < |buf| && count <= |buf|
    ensures |q| == count
  {
    seq(count, i requires 0 <= i < count => buf[Place(|buf|, p, i)])
  }

  lemma RingAppends(buf: seq<Cell>, p: nat, count: nat, c: Cell)
    requires p < |buf| && count < |buf|
    ensures Ring(buf[Place(|buf|, p, count) := c], p, count + 1) == Ring(buf, p, count) + [c]
  {
  }

  lemma RingDropsFirst(buf: seq<Cell>, p: nat, count: nat)
    requires p < |buf| && 0 < count <= |buf|
    ensures Ring(buf, p, count)[0] == buf[p]
    ensures Ring(buf, if p + 1 == |buf| then 0 else p + 1, count - 1) == Ring(buf, p, count)[1..]
  {
  }

  lemma RingDropsLast(buf: seq<Cell>, p: nat, count: nat)
    requires p < |buf| && 0 < count <= |buf|
    ensures Ring(buf, p, count - 1) == Ring(buf, p, count)[..count - 1]
    ensures Ring(buf, p, count)[count - 1] == buf[Place(|buf|, p, count - 1)]
  {
  }

  lemma ErasedIsOk(t: Tty)
    requires Ok(t)
    ensures Ok(t.(q := Erased(t.q)))
  {
    CutKeepsCount(t.q, Action(true, false, None));
    CutIsPrefix(t.q, Action(true, false, None));
  }

  /** Typed bytes until one is refused, and how many were not. */
  ghost function InputAll(t: Tty, s: Termios, bytes: seq<Byte>, room: nat): (Tty, nat)
    decreases |bytes|
  {
    if bytes == [] then (t, 0)
    else
      var t1 := Input(t, s, bytes[0], room);
      if Refused(t, s, bytes[0], room) then (t1, 0)
      else var (r, n) := InputAll(t1, s, bytes[1..], room); (r, n + 1)
  }

  /** What is left to do after n bytes have been taken and t is the state. */
  ghost predicate Continues(all: (Tty, nat), t: Tty, s: Termios, bytes: seq<Byte>, n: nat, room: nat) {
    n <= |bytes| && var r := InputAll(t, s, bytes[n..], room); all == (r.0, r.1 + n)
  }

  lemma {:induction false} InputAllStep(all: (Tty, nat), t: Tty, s: Termios, bytes: seq<Byte>, n: nat, room: nat)
    requires n < |bytes| && Continues(all, t, s, bytes, n, room)
    ensures if Refused(t, s, bytes[n], room) then all == (Input(t, s, bytes[n], room), n)
            else Continues(all, Input(t, s, bytes[n], room), s, bytes, n + 1, room)
  {
    assert bytes[n..][1..] == bytes[n + 1..];
  }

  lemma {:induction false} InputAllEnds(all: (Tty, nat), t: Tty, s: Termios, bytes: seq<Byte>, room: nat)
    requires Continues(all, t, s, bytes, |bytes|, room)
    ensures all == (t, |bytes|)
  {
  }

  /** A character is queued if there is room; a queue that becomes full is offered to the reader. */
  ghost function Queued(t: Tty, s: Termios, c: Cell, room: nat): Tty {
    if |t.q| >= room then t
    else
      var t1 := t.(q := t.q + [c], eotCount := t.eotCount + if c.eot then 1 else 0);
      if |t1.q| == room then Transfer(t1, s) else t1
  }

  lemma InputQueues(t: Tty, s: Termios, b: Byte, room: nat)
    ensures var (a, m) := Reading(s, t.mode, b);
            var t0 := t.(q := Cut(t.q, a), mode := m);
            Input(t, s, b, room) == if a.store.Some? then Queued(t0, s, a.store.value, room) else t0
  {
  }

  /** What a caller of do_read is told at once; a suspended one is answered later. */
  datatype Answer = Answered | Suspended | Again | Busy | Invalid | Fault

  class Device {
    const inputBuffer: array<Cell>
    const staging: array<Byte>
    var inputFree: nat
    var inputHandle: nat
    var inputCount: nat
    var eotCount: int
    var min: nat
    var inLeft: nat
    var inCum: nat
    var escaped: bool
    var inhibited: bool
    var termios: Termios
    var user: seq<Byte>
    var replies: seq<nat>

    ghost predicate Shape()
      reads this
    {
      && 0 < inputBuffer.Length && 0 < staging.Length
      && inputHandle < inputBuffer.Length && inputCount <= inputBuffer.Length
      && inputFree == Place(inputBuffer.Length, inputHandle, inputCount)
    }

    /** What the fields stand for, with `more` bytes on their way to the reader. */
    ghost function Value(more: seq<Byte>): Tty
      requires Shape()
      reads this, inputBuffer
    {
      Tty(Ring(inputBuffer[..], inputHandle, inputCount), eotCount, min, inLeft, inCum + |more|,
          Mode(escaped, inhibited), user + more, replies)
    }

    ghost predicate Valid()
      reads this, inputBuffer
    {
      Shape() && Ok(Value([]))
    }

    constructor (size: nat, stagingSize: nat, settings: Termios)
      requires 0 < size && 0 < stagingSize
      ensures Valid() && termios == settings && inputBuffer.Length == size
      ensures Value([]) == Tty([], 0, 1, 0, 0, Mode(false, false), [], [])
      ensures fresh(inputBuffer) && fresh(staging)
    {
      inputBuffer := new Cell[size](_ => Cell(0, false, false, false));
      staging := new Byte[stagingSize](_ => 0);
      inputFree, inputHandle, inputCount, eotCount := 0, 0, 0, 0;
      min := 1;
      inLeft, inCum := 0, 0;
      escaped, inhibited := false, false;
      termios := settings;
      user, replies := [], [];
    }

    /** back_over. */
    method BackOver() returns (erased: bool)
      requires Valid()
      modifies `inputFree, `inputCount
      ensures Valid() && Value([]) == old(Value([])).(q := Erased(old(Value([])).q))
      ensures erased <==> Erased(old(Value([])).q) != old(Value([])).q
    {
      if inputCount == 0 {
        return false;
      }
      ghost var t := Value([]);
      assert |t.q| == inputCount;
      var free := if inputFree == 0 then inputBuffer.Length - 1 else inputFree - 1;
      RingDropsLast(inputBuffer[..], inputHandle, inputCount);
      ErasedIsOk(t);
      if inputBuffer[free].eot {
        return false;
      }
      inputFree := free;
      inputCount := inputCount - 1;
      assert Value([]) == t.(q := Erased(t.q));
      return true;
    }

    /** The current line is erased. */
    method Kill()
      requires Valid()
      modifies `inputFree, `inputCount
      ensures Valid() && Value([]) == old(Value([])).(q := Killed(old(Value([])).q))
    {
      var erased := BackOver();
      while erased
        invariant Valid() && Killed(Value([]).q) == Killed(old(Value([])).q)
        invariant Value([]) == old(Value([])).(q := Value([]).q)
        invariant !erased ==> Erased(Value([]).q) == Value([]).q
        decreases inputCount, erased
      {
        erased := BackOver();
      }
    }

    /** One character moves from the queue to the staging buffer, or is dropped there. */
    method Unqueue(ghost more: seq<Byte>) returns (c: Cell)
      requires Shape() && inputCount > 0
      modifies `inputHandle, `inputCount
      ensures Shape() && inputCount == old(inputCount) - 1 && c == old(Value(more)).q[0]
      ensures Value(more) == old(Value(more)).(q := old(Value(more)).q[1..])
    {
      RingDropsFirst(inputBuffer[..], inputHandle, inputCount);
      c := inputBuffer[inputHandle];
      inputHandle := inputHandle + 1;
      if inputHandle == inputBuffer.Length {
        inputHandle := 0;
      }
      inputCount := inputCount - 1;
    }

    /** The staged bytes are copied to the reader. */
    method Flush(count: nat)
      requires Shape() && count <= staging.Length
      modifies `user, `inCum
      ensures Shape() && Value([]) == old(Value(staging[..count]))
    {
      user := user + staging[..count];
      inCum := inCum + count;
    }

    /** in_transfer. */
    method InTransfer()
      requires Valid()
      modifies this, staging
      ensures Valid() && termios == old(termios) && Value([]) == Transfer(old(Value([])), termios)
    {
      if termios.hungUp {
        min := 0;
      }
      assert Value([]) == Hung(old(Value([])), termios);
      if inLeft == 0 || eotCount < min {
        return;
      }
      TransferAll();
    }

    /** The rest of in_transfer, once there is something to transfer. */
    method TransferAll()
      requires Valid()
      modifies this, staging
      ensures Valid() && termios == old(termios) && Value([]) == Finished(Moved(old(Value([])), termios.icanon))
    {
      ghost var t := Value([]);
      var pb: nat := 0;
      assert staging[..0] == [];
      while inLeft > 0 && eotCount > 0
        invariant Shape() && pb < staging.Length && termios == old(termios)
        invariant inputBuffer[..] == old(inputBuffer[..])
        invariant Ok(Value(staging[..pb]))
        invariant Moved(Value(staging[..pb]), termios.icanon) == Moved(t, termios.icanon)
        decreases inputCount
      {
        ghost var t1 := Value(staging[..pb]);
        MoveOneKeepsOk(t1, termios.icanon);
        pb := MoveChar(pb);
      }
      ghost var t1 := Value(staging[..pb]);
      assert t1 == Moved(t, termios.icanon);
      MovedKeepsOk(t, termios.icanon);
      if pb > 0 {
        Flush(pb);
      }
      assert Value([]) == t1;
      Finish();
    }

    /** The body of the loop of in_transfer: pb bytes are staged before and after. */
    method MoveChar(pb0: nat) returns (pb: nat)
      requires Shape() && inputCount > 0 && pb0 < staging.Length && inLeft > 0
      modifies `inputHandle, `inputCount, `user, `inCum, `eotCount, `inLeft, staging
      ensures Shape() && pb < staging.Length && inputCount == old(inputCount) - 1
      ensures Value(staging[..pb]) == MoveOne(old(Value(staging[..pb0])), termios.icanon)
    {
      pb := pb0;
      var c := Unqueue(staging[..pb]);
      if !c.eof {
        pb := Stage(pb, c.ch);
      }
      if c.eot {
        eotCount := eotCount - 1;
        if termios.icanon {
          inLeft := 0;
        }
      }
    }

    /** One byte is staged; a full staging buffer is copied to the reader. */
    method Stage(pb0: nat, b: Byte) returns (pb: nat)
      requires Shape() && pb0 < staging.Length && inLeft > 0
      modifies `user, `inCum, `inLeft, staging
      ensures Shape() && pb < staging.Length
      ensures var t := old(Value(staging[..pb0]));
              Value(staging[..pb]) == t.(user := t.user + [b], inCum := t.inCum + 1, inLeft := t.inLeft - 1)
    {
      ghost var before := staging[..pb0];
      staging[pb0] := b;
      assert staging[..pb0 + 1] == before + [b];
      Associates(user, before, [b]);
      inLeft := inLeft - 1;
      pb := pb0 + 1;
      if pb == staging.Length {
        Flush(pb);
        pb := 0;
        assert staging[..0] == [];
      }
    }

    /** A read that has all it wants is answered. */
    method Finish()
      requires Shape()
      modifies `inLeft, `inCum, `replies
      ensures Shape() && Value([]) == Finished(old(Value([])))
    {
      if inLeft == 0 {
        replies := replies + [inCum];
        inLeft, inCum := 0, 0;
      }
    }

    /** A character enters the ring. */
    method PushCell(c: Cell)
      requires Shape() && inputCount < inputBuffer.Length
      modifies inputBuffer, `inputFree, `inputCount
      ensures Shape() && inputCount == old(inputCount) + 1
      ensures Value([]) == old(Value([])).(q := old(Value([])).q + [c])
    {
      ghost var buf := inputBuffer[..];
      RingAppends(buf, inputHandle, inputCount, c);
      inputBuffer[inputFree] := c;
      assert inputBuffer[..] == buf[inputFree := c];
      inputFree := inputFree + 1;
      if inputFree == inputBuffer.Length {
        inputFree := 0;
      }
      inputCount := inputCount + 1;
    }

    /** A character enters the ring, and is counted if it ends a line. */
    method Push(c: Cell)
      requires Valid() && inputCount < inputBuffer.Length && (c.eof ==> c.eot)
      modifies inputBuffer, `inputFree, `inputCount, `eotCount
      ensures Valid() && inputCount == old(inputCount) + 1
      ensures var t := old(Value([]));
              Value([]) == t.(q := t.q + [c], eotCount := t.eotCount + if c.eot then 1 else 0)
    {
      ghost var t := Value([]);
      StoreKeepsOk(t, t.q, c, t.mode);
      PushCell(c);
      if c.eot {
        eotCount := eotCount + 1;
      }
      assert Value([]) == t.(q := t.q + [c], mode := t.mode, eotCount := t.eotCount + if c.eot then 1 else 0);
    }

    /** A character enters the ring, which is offered to the reader once it is full. */
    method Admit(c: Cell)
      requires Valid() && inputCount < inputBuffer.Length && (c.eof ==> c.eot)
      modifies this, staging, inputBuffer
      ensures Valid() && termios == old(termios)
      ensures Value([]) == Queued(old(Value([])), termios, c, inputBuffer.Length)
    {
      ghost var t := Value([]);
      Push(c);
      ghost var t1 := Value([]);
      assert |t.q| + 1 == |t1.q| == inputCount;
      assert Queued(t, termios, c, inputBuffer.Length)
             == if inputCount == inputBuffer.Length then Transfer(t1, termios) else t1;
      if inputCount == inputBuffer.Length {
        InTransfer();
      }
    }

    /** The end of the loop of input_handler: full queues, the mark outside canonical mode, and storing. */
    method Store(c0: Cell) returns (more: bool)
      requires Valid() && (c0.eof ==> c0.eot)
      modifies this, staging, inputBuffer
      ensures Valid() && termios == old(termios)
      ensures var c := if termios.icanon then c0 else c0.(eot := true);
              Value([]) == Queued(old(Value([])), termios, c, inputBuffer.Length)
      ensures more <==> termios.icanon || |old(Value([])).q| < inputBuffer.Length
    {
      if inputCount == inputBuffer.Length {
        return termios.icanon;
      }
      var c := c0;
      if !termios.icanon {
        c := c.(eot := true);
      }
      Admit(c);
      return true;
    }

    /** The start of the loop of input_handler; None where it goes on to the next byte. */
    method Prepare(b: Byte) returns (c: Option<Cell>)
      requires Valid()
      modifies `escaped
      ensures Valid() && c == Prepared(termios, old(Value([])).mode, b).0
      ensures Value([]) == old(Value([])).(mode := Prepared(termios, old(Value([])).mode, b).1)
    {
      var ch := Cell(if termios.istrip then b % 128 else b, false, false, false);
      if termios.iexten {
        if escaped {
          escaped := false;
          ch := ch.(escaped := true);
        }
        if Is(ch, termios.lnext) {
          escaped := true;
          return None;
        }
        if Is(ch, termios.reprint) {
          return None;
        }
      }
      if Is(ch, DISABLED) {
        ch := ch.(escaped := true);
      }
      if Is(ch, CR) {
        if termios.igncr {
          return None;
        }
        if termios.icrnl {
          ch := ch.(ch := LF);
        }
      } else if Is(ch, LF) {
        if termios.inlcr {
          ch := ch.(ch := CR);
        }
      }
      return Some(ch);
    }

    /** Start and stop characters; true where the loop goes on to the next byte. */
    method Control(ch: Cell) returns (taken: bool)
      requires Valid()
      modifies `inhibited
      ensures Valid() && taken == Flow(termios, old(Value([])).mode, ch).0
      ensures Value([]) == old(Value([])).(mode := Flow(termios, old(Value([])).mode, ch).1)
    {
      if termios.ixon {
        if Is(ch, termios.stop) {
          inhibited := true;
          return true;
        }
        if inhibited {
          if Is(ch, termios.start) || termios.ixany {
            inhibited := false;
            if Is(ch, termios.start) {
              return true;
            }
          }
        }
      }
      return false;
    }

    /** The body of the loop of input_handler; false where that loop is left. */
    method InputOne(b: Byte) returns (more: bool)
      requires Valid()
      modifies this, staging, inputBuffer
      ensures Valid() && termios == old(termios)
      ensures Value([]) == Input(old(Value([])), termios, b, inputBuffer.Length)
      ensures more <==> !Refused(old(Value([])), termios, b, inputBuffer.Length)
    {
      InputQueues(Value([]), termios, b, inputBuffer.Length);
      var prepared := Prepare(b);
      if prepared.None? {
        return true;
      }
      var ch := prepared.value;
      if termios.icanon {
        if Is(ch, termios.erase) {
          var _ := BackOver();
          return true;
        }
        if Is(ch, termios.kill) {
          Kill();
          if !termios.echoe {
            return true;
          }
        }
        if Is(ch, termios.eof) {
          ch := ch.(eot := true, eof := true);
        }
        if Is(ch, LF) {
          ch := ch.(eot := true);
        }
        if Is(ch, termios.eol) {
          ch := ch.(eot := true);
        }
      }
      var taken := Control(ch);
      if taken {
        return true;
      }
      more := Store(ch);
    }

    /** input_handler: how many bytes were taken. */
    method InputHandler(bytes: seq<Byte>) returns (n: nat)
      requires Valid()
      modifies this, staging, inputBuffer
      ensures Valid() && termios == old(termios)
      ensures (Value([]), n) == InputAll(old(Value([])), termios, bytes, inputBuffer.Length)
    {
      n := 0;
      ghost var s, room := termios, inputBuffer.Length;
      ghost var all := InputAll(Value([]), s, bytes, room);
      assert bytes[0..] == bytes;
      while n < |bytes|
        invariant n <= |bytes| && Valid() && termios == s
        invariant Continues(all, Value([]), s, bytes, n, room)
      {
        InputAllStep(all, Value([]), s, bytes, n, room);
        var more := InputOne(bytes[n]);
        if !more {
          return;
        }
        n := n + 1;
      }
      InputAllEnds(all, Value([]), s, bytes, room);
    }

    /** handle_read, once the device has been read. */
    method HandleRead()
      requires Valid()
      modifies this, staging
      ensures Valid() && termios == old(termios) && Value([]) == Handle(old(Value([])), termios)
    {
      InTransfer();
      if inCum >= min && inLeft > 0 {
        replies := replies + [inCum];
        inLeft, inCum := 0, 0;
      }
    }

    /** A new read wants n bytes. Outside canonical mode its minimum depends on the timer. */
    method BeginRead(n: nat)
      requires Valid()
      modifies `min, `inLeft
      ensures Valid() && Value([]) == old(Value([])).(inLeft := n, min := ReadMin(old(Value([])), termios))
    {
      inLeft := n;
      if !termios.icanon {
        if termios.vtime > 0 {
          if termios.vmin == 0 {
            min := 1;
          } else if eotCount == 0 {
            min := termios.vmin;
          }
        }
      }
    }

    /** A new read is served from what is queued, or waits. */
    method StartRead(n: nat)
      requires Valid() && inLeft == 0
      modifies this, staging
      ensures Valid() && termios == old(termios) && Value([]) == Read(old(Value([])), termios, n)
    {
      ghost var t, s := Value([]), termios;
      BeginRead(n);
      InTransfer();
      assert Value([]) == Transfer(t.(inLeft := n, min := ReadMin(t, s)), s);
      HandleRead();
    }

    /** do_read: a process asks for n bytes, at an address that is mapped or not. A read that must not block and is not
        answered at once is given up. Of the timer only the minimum it sets is kept. */
    method DoRead(n: int, mapped: bool, nonBlocking: bool) returns (answer: Answer)
      requires Valid()
      modifies this, staging
      ensures Valid() && termios == old(termios)
      ensures var refused := if old(inLeft) > 0 then Busy else if n <= 0 then Invalid else Fault;
              if old(inLeft) > 0 || n <= 0 || !mapped then answer == refused && Value([]) == old(Value([]))
              else
                var r := Read(old(Value([])), termios, n);
                if r.inLeft == 0 then answer == Answered && Value([]) == r
                else if nonBlocking then answer == Again && Value([]) == r.(inLeft := 0, inCum := 0)
                else answer == Suspended && Value([]) == r
    {
      if inLeft > 0 {
        return Busy;
      }
      if n <= 0 {
        return Invalid;
      }
      if !mapped {
        return Fault;
      }
      StartRead(n);
      if inLeft == 0 {
        return Answered;
      }
      if nonBlocking {
        inLeft, inCum := 0, 0;
        return Again;
      }
      return Suspended;
    }

    /** tty_input_cancel. */
    method InputCancel()
      requires Valid()
      modifies this
      ensures Valid() && termios == old(termios) && Value([]) == Cancel(old(Value([])))
    {
      inputCount, eotCount := 0, 0;
      inputHandle := inputFree;
    }

    /** Every queued character comes to count as a line. */
    method MarkAll()
      requires Valid()
      modifies inputBuffer, `eotCount
      ensures Valid()
      ensures var t := old(Value([])); Value([]) == t.(q := AllEot(t.q), eotCount := |t.q|)
    {
      ghost var t, buf := Value([]), inputBuffer[..];
      var count := inputCount;
      eotCount := inputCount;
      var inp := inputHandle;
      while count > 0
        modifies inputBuffer
        invariant 0 <= count <= inputCount && inp == Place(inputBuffer.Length, inputHandle, inputCount - count)
        invariant forall i :: 0 <= i < inputCount ==>
                    var p := Place(inputBuffer.Length, inputHandle, i);
                    inputBuffer[p] == if i < inputCount - count then buf[p].(eot := true) else buf[p]
      {
        inputBuffer[inp] := inputBuffer[inp].(eot := true);
        inp := inp + 1;
        if inp == inputBuffer.Length {
          inp := 0;
        }
        count := count - 1;
      }
      AllEotCounts(t.q);
      assert Ring(inputBuffer[..], inputHandle, inputCount) == AllEot(t.q);
    }

    /** set_attr. */
    method SetAttributes(settings: Termios)
      requires Valid()
      modifies this, inputBuffer
      ensures Valid() && termios == settings && Value([]) == SetAttr(old(Value([])), settings)
    {
      termios := settings;
      if !termios.isCanon {
        MarkAll();
      }
      if termios.isCanon {
        min := 1;
      } else {
        min := termios.vmin;
        if min == 0 && termios.vtime > 0 {
          min := 1;
        }
      }
      if !termios.isIxon {
        inhibited := false;
      }
    }
  }
}
