/** The kernel as it is written: a table of process entries joined by links, changed in place. Every method is proved
    to have exactly the effect of the operation of the same name in KernelState. */
module KernelTable {
  import opened Lists
  import opened KernelState
  import opened KernelInvariants
  import opened KernelSteps
  import opened KernelRuns
  import opened KernelLinks

  class Kernel {
    const nrTasks: nat
    const process: array<Process>
    const readyHead: array<Link>
    const readyTail: array<Link>
    var currProc: nat
    var heldHead: Link
    var heldTail: Link
    var switching: bool
    var kernelReenter: nat
    ghost var st: Sys

    /** The links represent the abstract state st. */
    ghost predicate Valid()
      reads this, process, readyHead, readyTail
    {
      && process as object != readyHead && process as object != readyTail && readyHead != readyTail
      && st.nrTasks == nrTasks && st.curr == currProc
      && Represents(process[..], readyHead[..], readyTail[..], heldHead, heldTail, st)
    }

    /** Fills the table, makes every process but IDLE and HARDWARE ready in slot order, and picks the first to run. */
    constructor (nrTasks: nat, nrProcs: nat)
      requires 3 <= nrTasks && NR_SERVERS < nrProcs <= ANY
      ensures Valid() && st == Boot(nrTasks, nrProcs)
      ensures fresh(process) && fresh(readyHead) && fresh(readyTail)
    {
      this.nrTasks := nrTasks;
      process := new Process[nrTasks + nrProcs](i requires 0 <= i => Process(BootProc(nrTasks, i), NIL, NIL, NIL, NIL));
      readyHead := new Link[3](i => NIL);
      readyTail := new Link[3](i => NIL);
      currProc, heldHead, heldTail := nrTasks - 3, NIL, NIL;
      switching, kernelReenter := false, 0;
      st := BootTable(nrTasks, nrProcs, 0, nrTasks - 3);
      new;
      EmptyRepresents(nrTasks, nrProcs, process[..], readyHead[..], readyTail[..]);
      ReadyAll(nrProcs);
      Hunter();
    }

    /** The boot loop: all tasks and servers but IDLE and HARDWARE become ready. */
    method ReadyAll(nrProcs: nat)
      requires Valid() && 3 <= nrTasks && NR_SERVERS < nrProcs <= ANY && currProc == nrTasks - 3
      requires st == BootTable(nrTasks, nrProcs, 0, currProc)
      modifies `currProc, `st, process, readyHead, readyTail
      ensures Valid() && st == BootTable(nrTasks, nrProcs, nrTasks + NR_SERVERS + 1, currProc)
    {
      var t := 0;
      while t <= nrTasks + NR_SERVERS
        invariant t <= nrTasks + NR_SERVERS + 1
        invariant Valid() && 0 <= currProc && st == BootTable(nrTasks, nrProcs, t, currProc)
      {
        BootTurn(nrTasks, nrProcs, t, currProc);
        if t != nrTasks - 3 && t != nrTasks - 1 {
          Ready(t);
        }
        t := t + 1;
      }
    }

    // -------------------------------------------------------------- scheduling

    method Hunter()
      requires Valid()
      modifies `currProc, `st
      ensures Valid() && st == old(st).(curr := KernelState.Hunter(nrTasks, old(st).ready))
    {
      if readyHead[0] != NIL {
        currProc := readyHead[0];
      } else if readyHead[1] != NIL {
        currProc := readyHead[1];
      } else if readyHead[2] != NIL {
        currProc := readyHead[2];
      } else {
        currProc := nrTasks - 3;
      }
      st := st.(curr := KernelState.Hunter(nrTasks, st.ready));
    }

    /** Hangs p at the tail of the task list (c == 0) or the server list (c == 1). */
    method Append(c: nat, p: nat)
      requires Valid() && p < |st.procs| && c < 2 && ListOf(st.procs[p].priority) == c
      requires Apart(st.ready) && Outside(st.ready, p)
      modifies `currProc, `st, process, readyHead, readyTail
      ensures Valid() && st == KernelState.Ready(old(st), p)
    {
      ghost var procs, head, tail := process[..], readyHead[..], readyTail[..];
      if readyHead[c] != NIL {
        var last := readyTail[c];
        process[last] := process[last].(nextReady := p);
      } else {
        readyHead[c] := p;
        currProc := p;
      }
      readyTail[c] := p;
      process[p] := process[p].(nextReady := NIL);

      assert process[..] == Appended(procs, NextReady, st.ready[c], p);
      assert readyHead[..] == head[c := readyHead[c]] && readyTail[..] == tail[c := p];
      AppendRepresents(procs, head, tail, heldHead, heldTail, st, c, p);
      st := KernelState.Ready(st, p);
    }

    method Ready(p: nat)
      requires Valid() && p < |st.procs| && Apart(st.ready) && Outside(st.ready, p)
      modifies `currProc, `st, process, readyHead, readyTail
      ensures Valid() && st == KernelState.Ready(old(st), p)
    {
      if process[p].core.priority == Task {
        Append(0, p);
      } else if process[p].core.priority == Server {
        Append(1, p);
      } else {
        ghost var procs, head, tail := process[..], readyHead[..], readyTail[..];
        if readyHead[2] != NIL {
          readyTail[2] := p;
        }
        process[p] := process[p].(nextReady := readyHead[2]);
        readyHead[2] := p;

        assert process[..] == SetNext(procs, NextReady, p, head[2]);
        assert readyHead[..] == head[2 := p] && readyTail[..] == tail[2 := readyTail[2]];
        PushRepresents(procs, head, tail, readyTail[2], heldHead, heldTail, st, p);
        st := KernelState.Ready(st, p);
      }
    }

    /** The entry before p on ready list c, or NIL when p is not on it. */
    method EntryBefore(c: nat, p: nat) returns (xp: Link)
      requires Valid() && c < 3 && st.ready[c] != [] && st.ready[c][0] != p
      ensures xp == if p in st.ready[c] then st.ready[c][IndexOf(st.ready[c], p) - 1] else NIL
    {
      ghost var list := st.ready[c];
      ghost var i := 0;
      xp := readyHead[c];
      while process[xp].nextReady != p
        invariant 0 <= i < |list| && xp == list[i] && i < IndexOf(list, p)
        decreases |list| - i
      {
        assert LinkAt(process[..], NextReady, list, i);
        xp := process[xp].nextReady;
        i := i + 1;
        if xp == NIL {
          return;
        }
      }
      assert LinkAt(process[..], NextReady, list, i);
    }

    method UnlinkAfter(c: nat, xp: nat, p: nat)
      requires Valid() && c < 3 && Apart(st.ready) && p in st.ready[c] && IndexOf(st.ready[c], p) > 0
      requires xp == st.ready[c][IndexOf(st.ready[c], p) - 1]
      modifies `st, process, readyTail
      ensures Valid() && st == old(st).(ready := old(st).ready[c := Remove(old(st).ready[c], p)])
    {
      ghost var procs, head, tail := process[..], readyHead[..], readyTail[..];
      ghost var list := st.ready[c];
      ghost var k := IndexOf(list, p);
      assert LinkAt(procs, NextReady, list, k - 1);
      process[xp] := process[xp].(nextReady := process[process[xp].nextReady].nextReady);
      if readyTail[c] == p {
        readyTail[c] := xp;
      }

      assert process[..] == SetNext(procs, NextReady, xp, procs[p].nextReady);
      assert readyTail[..] == tail[c := readyTail[c]];
      DropInnerRepresents(procs, head, tail, readyTail[c], heldHead, heldTail, st, c, k);
      QueuesFrame(procs, process[..], st.queues);
      HeldFrame(procs, process[..], heldHead, heldTail, st.held);
      st := st.(ready := st.ready[c := Remove(list, p)]);
    }

    /** Takes the head off ready list c. */
    method DropHead(c: nat)
      requires Valid() && c < 3 && st.ready[c] != []
      modifies `st, readyHead
      ensures Valid() && st == old(st).(ready := old(st).ready[c := old(st).ready[c][1..]])
    {
      ghost var head := readyHead[..];
      ghost var r := st.(ready := st.ready[c := st.ready[c][1..]]);
      readyHead[c] := process[readyHead[c]].nextReady;
      assert readyHead[..] == head[c := readyHead[c]];
      DropHeadRepresents(process[..], head, readyTail[..], heldHead, heldTail, st, r, c);
      st := r;
    }

    method Unready(p: nat)
      requires Valid() && p < |st.procs| && Apart(st.ready)
      modifies `currProc, `st, process, readyHead, readyTail
      ensures Valid() && st == KernelState.Unready(old(st), p)
    {
      var c := ListOf(process[p].core.priority);
      if readyHead[c] == NIL {
        return;
      }
      if readyHead[c] == p {
        DropHead(c);
        if c != 0 || p == currProc {
          Hunter();
        }
        return;
      }
      var xp := EntryBefore(c, p);
      if xp == NIL {
        return;
      }
      UnlinkAfter(c, xp, p);
    }

    /** schedule. Through a tail that is still NIL the code writes to address 0 and reads back what it wrote. */
    method Schedule()
      requires Valid() && Inv(st)
      modifies `currProc, `st, process, readyHead, readyTail
      ensures Valid() && st == KernelState.Schedule(old(st))
    {
      RunQueuesApart(nrTasks, st.procs, st.ready, st.lost, |st.procs|);
      RunQueuesByClass(nrTasks, st.procs, st.ready, st.lost);
      if readyHead[2] == NIL {
        return;
      }
      ghost var p := st.ready[2][0];
      RotateUsers();
      Hunter();
      st := st.(lost := st.lost + {p});
    }

    /** The head of the user list is to become its tail. */
    method RotateUsers()
      requires Valid() && Apart(st.ready) && ByClass(st.procs, st.ready) && st.ready[2] != []
      modifies `st, process, readyHead, readyTail
      ensures Valid() && st == old(st).(ready := old(st).ready[2 := old(st).ready[2][1..]])
    {
      ghost var procs, head, tail := process[..], readyHead[..], readyTail[..];
      ghost var r := st.(ready := st.ready[2 := st.ready[2][1..]]);
      ghost var t := if tail[2] == NIL then st.ready[2][0] else tail[2];
      ScheduleRepresents(procs, head, tail, heldHead, heldTail, st, r, t);
      var p := readyHead[2];
      var next := process[p].nextReady;
      if readyTail[2] != NIL {
        process[readyTail[2]] := process[readyTail[2]].(nextReady := p);
      }
      readyTail[2] := p;
      readyHead[2] := next;
      process[p] := process[p].(nextReady := NIL);

      assert process[..] == Rotated(procs, t, p);
      assert readyHead[..] == head[2 := next] && readyTail[..] == tail[2 := p];
      st := r;
    }

    method UnreadyIfRunnable(p: nat)
      requires Valid() && p < |st.procs| && RunQueues(nrTasks, st.procs, st.ready, st.lost)
      modifies `currProc, `st, process, readyHead, readyTail
      ensures Valid() && st == KernelState.UnreadyIfRunnable(old(st), p)
    {
      if process[p].core.Runnable() {
        RunQueuesApart(nrTasks, st.procs, st.ready, st.lost, |st.procs|);
        Unready(p);
      }
    }

    method ReadyIfRunnable(p: nat)
      requires Valid() && p < |st.procs|
      requires st.procs[p].Runnable() ==> Apart(st.ready) && Outside(st.ready, p)
      modifies `currProc, `st, process, readyHead, readyTail
      ensures Valid() && st == KernelState.ReadyIfRunnable(old(st), p)
    {
      if process[p].core.Runnable() {
        Ready(p);
      }
    }

    // -------------------------------------------------------------- rendezvous

    /** The chain walk: does following blocked senders from d lead to the caller? */
    method LeadsTo(d: nat, caller: nat) returns (found: bool)
      requires Valid() && d < |st.procs| && caller < |st.procs| && d != caller && Acyclic(st.procs)
      ensures found <==> Reaches(st.procs, d, caller)
    {
      ghost var path := [d];
      if process[d].core.sending {
        var next := process[d].core.sendTo;
        path := [d, next];
        ghost var rank :| Ranks(st.procs, rank);
        while true
          invariant Chain(st.procs, path) && |path| > 1 && path[0] == d && path[|path| - 1] == next
          invariant forall i :: 0 <= i < |path| - 1 ==> path[i] != caller
          decreases rank[next]
        {
          if next == caller {
            return true;
          }
          if process[next].core.sending {
            next := process[next].core.sendTo;
            path := path + [next];
          } else {
            break;
          }
        }
      }
      ChainIsUnique(st.procs, path, caller);
      return false;
    }

    /** Gives p new plain fields, leaving all links alone. */
    method SetCore(p: nat, q: Proc)
      requires Valid() && p < |st.procs| && q.sendTo < |st.procs| && ListOf(q.priority) == ListOf(st.procs[p].priority)
      modifies `st, process
      ensures Valid() && st == old(st).(procs := old(st).procs[p := q])
    {
      ghost var procs, s := process[..], st;
      process[p] := process[p].(core := q);
      st := s.(procs := s.procs[p := q]);
      CoreChange(procs, process[..], readyHead[..], readyTail[..], heldHead, heldTail, s, st);
    }

    /** The message in p's buffer goes straight to d, which waits for it. */
    method DeliverTo(p: nat, d: nat)
      requires Valid() && Inv(st) && p < |st.procs| && d < |st.procs| && st.procs[d].Accepts(p)
      modifies `currProc, `st, process, readyHead, readyTail
      ensures Valid() && st == Deliver(old(st), p, d)
    {
      ghost var m := st.procs[p].buf;
      BlockedIsUnlisted(nrTasks, st.procs, st.ready, st.lost, d);
      RunQueuesApart(nrTasks, st.procs, st.ready, st.lost, d);
      SetCore(d, process[d].core.(buf := process[p].core.buf, receiving := false));
      st := st.(sent := KernelState.Append(st.sent, p, d, m), got := KernelState.Append(st.got, p, d, m));
      ReadyIfRunnable(d);
    }

    /** p joins the end of the queue of d. */
    method Enqueue(d: nat, p: nat)
      requires Valid() && d < |st.procs| && p < |st.procs| && Apart(st.queues) && Outside(st.queues, p)
      modifies `st, process
      ensures Valid() && st == old(st).(queues := old(st).queues[d := old(st).queues[d] + [p]])
    {
      ghost var procs := process[..];
      ghost var list := st.queues[d];
      assert Linked(procs, CallerLink, procs[d].callerHead, list);
      var next := process[d].callerHead;
      if next == NIL {
        process[d] := process[d].(callerHead := p);
      } else {
        ghost var i := 0;
        while process[next].callerLink != NIL
          invariant 0 <= i < |list| && next == list[i]
          decreases |list| - i
        {
          assert LinkAt(procs, CallerLink, list, i);
          next := process[next].callerLink;
          i := i + 1;
        }
        assert LinkAt(procs, CallerLink, list, i);
        process[next] := process[next].(callerLink := p);
      }
      process[p] := process[p].(callerLink := NIL);

      assert process[..] == Enqueued(procs, list, d, p);
      EnqueueRepresents(procs, readyHead[..], readyTail[..], heldHead, heldTail, st, d, p);
      st := st.(queues := st.queues[d := list + [p]]);
    }

    /** p blocks until d takes its message. */
    method BlockOn(p: nat, d: nat)
      requires Valid() && Inv(st) && p < |st.procs| && d < |st.procs| && !st.procs[p].sending
      modifies `currProc, `st, process, readyHead, readyTail
      ensures Valid() && st == BlockSender(old(st), p, d)
    {
      QueuesApart(st.procs, st.queues);
      UnreadyIfRunnable(p);
      SetCore(p, process[p].core.(sending := true, sendTo := d));
      Enqueue(d, p);
      st := st.(sent := KernelState.Append(st.sent, p, d, st.procs[p].buf));
    }

    method SendMessage(p: nat, d: nat) returns (status: Status)
      requires Valid() && Inv(st) && p == currProc && st.curr != st.IdleTask() && d < |st.procs| && p != d
      modifies `currProc, `st, process, readyHead, readyTail
      ensures Valid() && (st, status) == KernelState.SendMessage(old(st), p, d)
    {
      if process[p].core.priority == User && !IsServer(nrTasks, d) {
        return BadDest;
      }
      if process[d].core.priority == Vacant {
        return BadDest;
      }
      CurrIsActive(st);
      var locked := LeadsTo(d, p);
      if locked {
        return Locked;
      }
      if process[d].core.Accepts(p) {
        DeliverTo(p, d);
      } else {
        BlockOn(p, d);
      }
      return Ok;
    }

    /** Takes `sender`, entry k of the queue of p, out of it; `previous` is the entry before it, if any. */
    method Dequeue(p: nat, ghost k: nat, sender: nat, previous: Link)
      requires Valid() && p < |st.procs| && Apart(st.queues) && k < |st.queues[p]| && sender == st.queues[p][k]
      requires k > 0 ==> previous == st.queues[p][k - 1]
      modifies `st, process
      ensures Valid() && st == old(st).(queues := old(st).queues[p := RemoveAt(old(st).queues[p], k)])
    {
      ghost var procs := process[..];
      ghost var list := st.queues[p];
      assert Linked(procs, CallerLink, procs[p].callerHead, list);
      if sender == process[p].callerHead {
        process[p] := process[p].(callerHead := process[sender].callerLink);
      } else {
        process[previous] := process[previous].(callerLink := process[sender].callerLink);
      }
      assert process[..] == Dequeued(procs, list, p, k);
      DequeueRepresents(procs, readyHead[..], readyTail[..], heldHead, heldTail, st, p, k);
      st := st.(queues := st.queues[p := RemoveAt(list, k)]);
    }

    /** p takes the message of `sender`, entry k of its queue. */
    method TakeFrom(p: nat, ghost k: nat, sender: nat, previous: Link)
      requires Valid() && Inv(st) && p < |st.procs| && !st.procs[p].sending
      requires k < |st.queues[p]| && sender == st.queues[p][k]
      requires k > 0 ==> previous == st.queues[p][k - 1]
      modifies `currProc, `st, process, readyHead, readyTail
      ensures Valid() && st == TakeMessage(old(st), p, k)
    {
      ghost var m := st.procs[sender].buf;
      assert sender in st.queues[p];
      QueuesApart(st.procs, st.queues);
      BlockedIsUnlisted(nrTasks, st.procs, st.ready, st.lost, sender);
      RunQueuesApart(nrTasks, st.procs, st.ready, st.lost, sender);
      SetCore(p, process[p].core.(buf := process[sender].core.buf));
      Dequeue(p, k, sender, previous);
      SetCore(sender, process[sender].core.(sending := false));
      st := st.(got := KernelState.Append(st.got, sender, p, m));
      ReadyIfRunnable(sender);
    }

    method ReceiveMessage(p: nat, src: Source)
      requires Valid() && Inv(st) && p < |st.procs|
      modifies `currProc, `st, process, readyHead, readyTail
      ensures Valid() && st == KernelState.ReceiveMessage(old(st), p, src)
    {
      if !process[p].core.sending {
        ghost var i;
        var sender, previous;
        sender, previous, i := FindSender(p, src);
        if sender != NIL {
          TakeFrom(p, i, sender, previous);
          return;
        }
        if process[p].core.intBlocked && AdmitsHardware(nrTasks, src) {
          TakeBlocked(p);
          return;
        }
      }
      WaitFor(p, src);
    }

    /** The first sender queued on p that src admits, or NIL, and the one before it. */
    method FindSender(p: nat, src: Source) returns (sender: Link, previous: Link, ghost i: nat)
      requires Valid() && p < |st.procs|
      ensures i == FirstMatch(st.queues[p], src)
      ensures var list, k := st.queues[p], FirstMatch(st.queues[p], src);
              && sender == (if k < |list| then list[k] else NIL)
              && (sender != NIL && k > 0 ==> previous == list[k - 1])
    {
      ghost var list := st.queues[p];
      assert Linked(process[..], CallerLink, process[p].callerHead, list);
      i := 0;
      previous := NIL;
      sender := process[p].callerHead;
      while sender != NIL && !Matches(src, sender)
        invariant i <= |list| && i <= FirstMatch(list, src)
        invariant sender == if i < |list| then list[i] else NIL
        invariant i > 0 ==> previous == list[i - 1]
        decreases |list| - i
      {
        assert LinkAt(process[..], CallerLink, list, i);
        previous := sender;
        sender := process[sender].callerLink;
        i := i + 1;
      }
    }

    /** The interrupt p was not ready for becomes a message in its buffer. */
    method TakeBlocked(p: nat)
      requires Valid() && p < |st.procs|
      modifies `st, process
      ensures Valid() && st == TakeInterrupt(old(st), p)
    {
      SetCore(p, process[p].core.(buf := Message(nrTasks - 1, HARD_INT, 0), intBlocked := false));
      st := st.(hardInts := st.hardInts[p := st.hardInts[p] + 1]);
    }

    /** p blocks until a message that src admits arrives. */
    method WaitFor(p: nat, src: Source)
      requires Valid() && p < |st.procs| && RunQueues(nrTasks, st.procs, st.ready, st.lost)
      modifies `currProc, `st, process, readyHead, readyTail
      ensures Valid() && st == BlockReceiver(old(st), p, src)
    {
      UnreadyIfRunnable(p);
      SetCore(p, process[p].core.(getFrom := src, receiving := true));
    }

    /** What the call number n designates: any process, one process, or nothing. */
    function Designated(n: int): Source
      reads process
      requires 0 <= n + nrTasks < process.Length || n == ANY
    {
      if n == ANY then Any else From(n + nrTasks)
    }

    /** SEND, RECEIVE or SEND_REC by the current process, which names the process numbered n and has m in its buffer. */
    method SysCall(kind: CallKind, n: int, m: Message) returns (status: Status)
      requires Valid() && Inv(st)
      requires 0 <= n + nrTasks < process.Length || n == ANY ==> CallAllowed(st, kind, Designated(n))
      modifies `currProc, `st, process, readyHead, readyTail
      ensures Valid()
      ensures if 0 <= n + nrTasks < process.Length || n == ANY then
                (st, status) == KernelState.SysCall(old(st), kind, Designated(n), m)
              else st == old(st) && status == NoPerm
    {
      if !(0 <= n + nrTasks < process.Length || n == ANY) {
        return NoPerm;
      }
      var src := Designated(n);
      var caller := currProc;
      if process[caller].core.priority == User && kind != SendRec {
        return NoPerm;
      }
      FillBufferKeepsInv(st, kind, m);
      SetCore(caller, process[caller].core.(buf := if kind == Receive then m else m.(source := caller)));
      ghost var s0 := st;
      if kind != Receive {
        if src == Any {
          return BadDest;
        }
        SendKeepsInv(s0, src.p);
        status := SendMessage(caller, src.p);
        if kind == Send || status != Ok {
          return;
        }
      }
      ReceiveMessage(caller, src);
      return Ok;
    }

    // -------------------------------------------------------------- interrupts

    method Interrupt(t: nat)
      requires Valid() && Inv(st) && t < |st.procs| && st.procs[t].priority == Task
      modifies `currProc, `st, `heldHead, `heldTail, process, readyHead, readyTail
      ensures Valid() && st == KernelState.Interrupt(old(st), t, kernelReenter != 0 || switching)
    {
      if kernelReenter != 0 || switching {
        if !process[t].core.intHeld {
          Hold(t);
          SetCore(t, process[t].core.(intHeld := true));
        }
        return;
      }
      var q := process[t].core;
      if !(q.receiving && !q.sending) || !AdmitsHardware(nrTasks, q.getFrom) {
        SetCore(t, q.(intBlocked := true));
        return;
      }
      Wake(t);
    }

    /** t is put on the held list. */
    method Hold(t: nat)
      requires Valid() && t < |st.procs| && HeldOk(st.procs, st.held) && !st.procs[t].intHeld
      modifies `st, `heldHead, `heldTail, process
      ensures Valid() && st == old(st).(held := old(st).held + [t])
    {
      ghost var procs, s := process[..], st;
      if heldHead != NIL {
        process[heldTail] := process[heldTail].(nextHeld := t);
      } else {
        heldHead := t;
      }
      heldTail := t;
      process[t] := process[t].(nextHeld := NIL);
      assert process[..] == Appended(procs, NextHeld, s.held, t);
      HoldRepresents(procs, readyHead[..], readyTail[..], old(heldHead), old(heldTail), s, t);
      st := s.(held := s.held + [t]);
    }

    /** The interrupt becomes a message in the buffer of task t, which waits for it. */
    method Wake(t: nat)
      requires Valid() && RunQueues(nrTasks, st.procs, st.ready, st.lost) && t < |st.procs|
      requires st.procs[t].priority == Task
      requires st.procs[t].receiving && !st.procs[t].sending && AdmitsHardware(nrTasks, st.procs[t].getFrom)
      modifies `currProc, `st, process, readyHead, readyTail
      ensures Valid() && st == KernelState.Interrupt(old(st), t, false)
    {
      var q := process[t].core;
      BlockedIsUnlisted(nrTasks, st.procs, st.ready, st.lost, t);
      RunQueuesApart(nrTasks, st.procs, st.ready, st.lost, t);
      ghost var s := st;
      SetCore(t, q.(buf := q.buf.(source := nrTasks - 1, kind := HARD_INT), receiving := false, intBlocked := false));
      st := st.(hardInts := st.hardInts[t := st.hardInts[t] + 1]);
      assert st.ready == s.ready && st.procs[t].priority == Task;
      Append(0, t);
    }

    /** Entered with no kernel activity below it: repeats every held interrupt, oldest first. */
    method Unhold()
      requires Valid() && Inv(st) && st.held != [] && kernelReenter == 0
      modifies `currProc, `st, `heldHead, `heldTail, process, readyHead, readyTail
      ensures Valid() && st == if switching then old(st) else KernelState.Unhold(old(st))
    {
      if switching {
        return;
      }
      UnholdAll();
    }

    /** The loop of unhold. */
    method UnholdAll()
      requires Valid() && Inv(st) && kernelReenter == 0 && !switching
      modifies `currProc, `st, `heldHead, `heldTail, process, readyHead, readyTail
      ensures Valid() && st == KernelState.Unhold(old(st))
    {
      ghost var goal := KernelState.Unhold(st);
      var more := HasHeld();
      while more
        invariant Valid() && Inv(st) && KernelState.Unhold(st) == goal && (more <==> st.held != [])
        decreases |st.held|
      {
        more := UnholdOne();
      }
    }

    /** Whether the held list has a head. */
    method HasHeld() returns (more: bool)
      requires Valid()
      ensures more <==> st.held != []
    {
      more := heldHead != NIL;
    }

    method UnholdOne() returns (more: bool)
      requires Valid() && Inv(st) && st.held != [] && kernelReenter == 0 && !switching
      modifies `currProc, `st, `heldHead, `heldTail, process, readyHead, readyTail
      ensures Valid() && Inv(st) && KernelState.Unhold(st) == KernelState.Unhold(old(st))
      ensures |st.held| < |old(st).held| && (more <==> st.held != [])
    {
      UnholdTurn(st);
      PopAndInterrupt();
      more := HasHeld();
    }

    method PopAndInterrupt()
      requires Valid() && st.held != [] && kernelReenter == 0 && !switching
      requires Inv(PopHeld(st)) && st.held[0] < |st.procs| && st.procs[st.held[0]].priority == Task
      modifies `currProc, `st, `heldHead, `heldTail, process, readyHead, readyTail
      ensures Valid() && st == KernelState.Interrupt(PopHeld(old(st)), old(st).held[0], false)
    {
      var t := heldHead;
      Pop();
      Interrupt(t);
    }

    method Pop()
      requires Valid() && st.held != []
      modifies `st, `heldHead, `heldTail, process
      ensures Valid() && st == PopHeld(old(st))
    {
      ghost var s := st;
      var t := heldHead;
      LinkedRest(process[..], NextHeld, heldHead, s.held);
      heldHead := process[t].nextHeld;
      if heldHead == NIL {
        heldTail := NIL;
      }
      st := s.(held := s.held[1..]);
      SetCore(t, process[t].core.(intHeld := false));
    }

    // -------------------------------------------------------------- the system task's operations

    method LockReady(p: nat)
      requires Valid() && p < |st.procs| && Apart(st.ready) && Outside(st.ready, p)
      modifies `currProc, `st, `switching, process, readyHead, readyTail
      ensures Valid() && st == KernelState.Ready(old(st), p) && !switching
    {
      switching := true;
      Ready(p);
      switching := false;
    }

    method LockUnready(p: nat)
      requires Valid() && p < |st.procs| && Apart(st.ready)
      modifies `currProc, `st, `switching, process, readyHead, readyTail
      ensures Valid() && st == KernelState.Unready(old(st), p) && !switching
    {
      switching := true;
      Unready(p);
      switching := false;
    }

    /** A process that waited for the reply to EXEC runs its new program without one. */
    method DoExec(p: nat)
      requires Valid() && Inv(st) && Allowed(st, ExecReleased(p))
      modifies `currProc, `st, `switching, process, readyHead, readyTail
      ensures Valid() && st == Step(old(st), ExecReleased(p))
    {
      BlockedIsUnlisted(nrTasks, st.procs, st.ready, st.lost, p);
      RunQueuesApart(nrTasks, st.procs, st.ready, st.lost, p);
      SetCore(p, process[p].core.(receiving := false));
      if process[p].core.Runnable() {
        LockReady(p);
      }
    }

    /** A process number outside the table is refused; a new process whose memory is in place may run. */
    method DoNewMap(n: int) returns (status: Status)
      requires Valid() && Inv(st)
      requires 0 <= n + nrTasks < process.Length ==> Allowed(st, Mapped(n + nrTasks))
      modifies `currProc, `st, `switching, process, readyHead, readyTail
      ensures Valid()
      ensures if 0 <= n + nrTasks < process.Length then st == Step(old(st), Mapped(n + nrTasks)) && status == Ok
              else st == old(st) && status == BadProc
    {
      if !(0 <= n + nrTasks < process.Length) {
        return BadProc;
      }
      var p := n + nrTasks;
      var wasRunnable := process[p].core.Runnable();
      if !wasRunnable {
        BlockedIsUnlisted(nrTasks, st.procs, st.ready, st.lost, p);
        RunQueuesApart(nrTasks, st.procs, st.ready, st.lost, p);
      }
      SetCore(p, process[p].core.(noMap := false));
      if !wasRunnable && process[p].core.Runnable() {
        LockReady(p);
      }
      return Ok;
    }

    /** The child's entry becomes a copy of its parent's, links included. */
    method DoFork(parent: nat, child: nat)
      requires Valid() && Inv(st) && parent < |st.procs| && child < |st.procs|
      requires st.procs[child].priority == Vacant && st.procs[parent].priority == User
      modifies `st, process
      ensures Valid() && st == KernelState.Fork(old(st), parent, child)
    {
      ghost var procs, s := process[..], st;
      ghost var q := s.procs[parent].(noMap := true);
      process[child] := process[parent];
      process[child] := process[child].(core := process[child].core.(noMap := true));
      ForkLeavesLists(s, child);
      assert process[..] == procs[child := procs[parent].(core := q)];
      CopyRepresents(procs, readyHead[..], readyTail[..], heldHead, heldTail, s, parent, child, q);
      st := KernelState.Fork(s, parent, child);
    }

    method DoExit(child: nat)
      requires Valid() && Inv(st) && child < |st.procs| && st.procs[child].priority == User
      modifies `currProc, `st, `switching, process, readyHead, readyTail
      ensures Valid() && st == KernelState.Exit(old(st), child)
    {
      TakeOff(child);
      if process[child].core.sending {
        Withdraw(child);
        st := st.(sent := st.sent[(child, st.procs[child].sendTo) := Log(st.got, child, st.procs[child].sendTo)]);
      }
      SetCore(child, process[child].core.(priority := Vacant, noMap := false, sending := false, receiving := false));
      st := st.(lost := st.lost - {child});
    }

    /** The child is taken off its ready list. */
    method TakeOff(child: nat)
      requires Valid() && child < |st.procs| && RunQueues(nrTasks, st.procs, st.ready, st.lost)
      modifies `currProc, `st, `switching, process, readyHead, readyTail
      ensures Valid() && st == KernelState.UnreadyIfRunnable(old(st), child)
    {
      RunQueuesApart(nrTasks, st.procs, st.ready, st.lost, |st.procs|);
      if process[child].core.Runnable() {
        LockUnready(child);
      }
    }

    /** Looks through the queues of all processes for the child and takes it out of the one it is on. */
    method Withdraw(child: nat)
      requires Valid() && child < |st.procs| && QueuesOk(st.procs, st.queues) && st.procs[child].sending
      modifies `st, process
      ensures Valid()
      ensures var d := old(st).procs[child].sendTo;
              st == old(st).(queues := old(st).queues[d := Remove(old(st).queues[d], child)])
    {
      ghost var s := st;
      ghost var d := s.procs[child].sendTo;
      ghost var done := s.(queues := s.queues[d := Remove(s.queues[d], child)]);
      QueuesApart(s.procs, s.queues);
      var search := 0;
      while search < process.Length
        invariant Valid() && 0 <= search <= |s.procs| && st == if search <= d then s else done
      {
        WithdrawTurn(s, child, search);
        var atHead := UnlinkFrom(search, child);
        if atHead {
          return;
        }
        search := search + 1;
      }
    }

    method UnlinkFrom(search: nat, child: nat) returns (atHead: bool)
      requires Valid() && search < |st.procs| && Apart(st.queues)
      modifies `st, process
      ensures Valid() && st == old(st).(queues := old(st).queues[search := Remove(old(st).queues[search], child)])
      ensures atHead <==> old(st).queues[search] != [] && old(st).queues[search][0] == child
    {
      assert Linked(process[..], CallerLink, process[search].callerHead, st.queues[search]);
      if process[search].callerHead == NIL {
        assert st.queues[search := st.queues[search]] == st.queues;
        return false;
      }
      if process[search].callerHead == child {
        Dequeue(search, 0, child, NIL);
        return true;
      }
      UnlinkInner(search, child);
      return false;
    }

    /** Takes the child out of the queue of `search` unless it is not there; it is not its head. */
    method UnlinkInner(search: nat, child: nat)
      requires Valid() && search < |st.procs| && Apart(st.queues)
      requires st.queues[search] != [] && st.queues[search][0] != child
      modifies `st, process
      ensures Valid() && st == old(st).(queues := old(st).queues[search := Remove(old(st).queues[search], child)])
    {
      ghost var list := st.queues[search];
      assert Linked(process[..], CallerLink, process[search].callerHead, list);
      ghost var i := 0;
      var np := process[search].callerHead;
      assert LinkAt(process[..], CallerLink, list, 0);
      var xp := process[np].callerLink;
      while xp != NIL
        invariant 0 <= i < |list| && np == list[i] && i < IndexOf(list, child)
        invariant xp == if i + 1 < |list| then list[i + 1] else NIL
        decreases |list| - i
      {
        if xp == child {
          Dequeue(search, i + 1, child, np);
          return;
        }
        np := xp;
        i := i + 1;
        assert LinkAt(process[..], CallerLink, list, i);
        xp := process[np].callerLink;
      }
      assert st.queues[search := list] == st.queues;
    }
  }
}
