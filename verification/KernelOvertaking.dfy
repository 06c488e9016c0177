/** A run from boot after which a server runs although a task is ready. */
module KernelOvertaking {
  import opened KernelState
  import opened KernelRuns
  import opened KernelLinks
  import opened KernelTheorems

  /** Any message. */
  const NOTE := Message(0, 0, 0)

  const ASKS := Call(Receive, Any, NOTE)
  const TASK := 1
  const SERVER := 3

  /** A kernel of one task, in slot 1, three servers and ORIGIN, in which nothing is pending, the lists are `ready`, and
      exactly those in `waiting` wait for a message from anybody. */
  ghost predicate Resting(s: Sys, ready: seq<seq<nat>>, waiting: set<nat>) {
    && s.nrTasks == 3 && |s.procs| == 7 && s.ready == ready && s.held == []
    && (forall p :: 0 <= p < 7 ==> s.queues[p] == [] && s.procs[p].priority == BootPriority(3, p))
    && (forall p :: 0 <= p < 7 ==> At(s.procs[p], p in waiting))
  }

  ghost predicate At(q: Proc, waits: bool) {
    !q.noMap && !q.sending && !q.intBlocked && !q.intHeld && q.receiving == waits && (waits ==> q.getFrom == Any)
  }

  lemma SmallBoot()
    ensures Resting(Boot(3, 4), [[1], [3, 4, 5], [6]], {}) && Boot(3, 4).curr == 1
  {
    BootLists();
  }

  lemma BootLists()
    ensures BootList(3, 0, 3) == [1] && BootList(3, 3, 6) == [3, 4, 5]
  {
    assert BootList(3, 0, 2) == [1] && BootList(3, 0, 1) == [] && BootList(3, 0, 0) == [];
    assert BootList(3, 3, 5) == [3, 4] && BootList(3, 3, 4) == [3] && BootList(3, 3, 3) == [];
  }

  /** The head of list c, which runs, waits for a message. */
  lemma OneWaits(s: Sys, ready: seq<seq<nat>>, waiting: set<nat>, c: nat)
    requires Resting(s, ready, waiting) && |ready| == 3 && c < 2 && ready[c] != [] && ready[c][0] == s.curr
    requires s.curr !in waiting && 0 < s.curr < 6 && c == (if s.curr < 3 then 0 else 1)
    ensures Allowed(s, ASKS)
    ensures var r, list := Step(s, ASKS), ready[c := ready[c][1..]];
            Resting(r, list, waiting + {s.curr}) && r.curr == Hunter(3, list)
  {
    var s0 := FillBuffer(s, Receive, NOTE);
    assert FirstMatch(s0.queues[s.curr], Any) == 0;
  }

  /** A hardware interrupt wakes the task. */
  lemma TaskWakes(s: Sys, waiting: set<nat>)
    requires Resting(s, [[], [], [6]], waiting) && TASK in waiting
    ensures Allowed(s, Interrupted(TASK, false))
    ensures var r := Step(s, Interrupted(TASK, false));
            Resting(r, [[TASK], [], [6]], waiting - {TASK}) && r.curr == TASK
  {
    assert s.ready[0] + [TASK] == [TASK];
    assert Step(s, Interrupted(TASK, false)).ready == [[TASK], [], [6]];
  }

  lemma NothingReaches(procs: seq<Proc>)
    requires |procs| == 7 && !procs[SERVER].sending
    ensures !Reaches(procs, SERVER, TASK)
  {
    ChainIsUnique(procs, [SERVER], TASK);
  }

  /** The task runs, alone among tasks, and the server waits for anybody. */
  ghost predicate Poised(s: Sys) {
    && s.nrTasks == 3 && |s.procs| == 7 && s.ready == [[TASK], [], [6]] && s.curr == TASK
       && s.procs[TASK].priority == Task
    && s.procs[SERVER].priority == Server && At(s.procs[SERVER], true)
  }

  lemma ServerTakesOver(s: Sys)
    requires Poised(s)
    ensures SendMessage(s, TASK, SERVER) == (Deliver(s, TASK, SERVER), Ok)
    ensures Deliver(s, TASK, SERVER).ready == [[TASK], [SERVER], [6]] && Deliver(s, TASK, SERVER).curr == SERVER
  {
    NothingReaches(s.procs);
    assert s.ready[1] + [SERVER] == [SERVER];
  }

  lemma SendingIs(s: Sys)
    requires Poised(s)
    ensures Poised(FillBuffer(s, Send, NOTE))
    ensures SysCall(s, Send, From(SERVER), NOTE).0 == SendMessage(FillBuffer(s, Send, NOTE), TASK, SERVER).0
  {
  }

  /** It sends to a server that waits, which overtakes it. */
  lemma ServerOvertakes(s: Sys)
    requires Poised(s)
    ensures Allowed(s, Call(Send, From(SERVER), NOTE))
    ensures var r := Step(s, Call(Send, From(SERVER), NOTE)); r.ready == [[TASK], [SERVER], [6]] && r.curr == SERVER
  {
    SendingIs(s);
    ServerTakesOver(FillBuffer(s, Send, NOTE));
  }

  ghost predicate Leads(b: Sys, run: seq<Event>, s: Sys) {
    Legal(b, run) && After(b, run) == s
  }

  lemma {:induction false} RunsOn(b: Sys, run: seq<Event>, s: Sys, e: Event)
    requires Leads(b, run, s) && Allowed(s, e)
    ensures Leads(b, run + [e], Step(s, e))
    decreases |run|
  {
    if run == [] {
      assert run + [e] == [e] && [e][1..] == [];
    } else {
      assert (run + [e])[1..] == run[1..] + [e] && (run + [e])[0] == run[0];
      RunsOn(Step(b, run[0]), run[1..], s, e);
    }
  }

  lemma OneMoreWaits(b: Sys, run: seq<Event>, s: Sys, ready: seq<seq<nat>>, waiting: set<nat>, c: nat) returns (r: Sys)
    requires Leads(b, run, s) && Resting(s, ready, waiting) && |ready| == 3 && c < 2 && ready[c] != []
    requires ready[c][0] == s.curr
    requires s.curr !in waiting && 0 < s.curr < 6 && c == (if s.curr < 3 then 0 else 1)
    ensures var list := ready[c := ready[c][1..]];
            Leads(b, run + [ASKS], r) && Resting(r, list, waiting + {s.curr}) && r.curr == Hunter(3, list)
  {
    OneWaits(s, ready, waiting, c);
    RunsOn(b, run, s, ASKS);
    r := Step(s, ASKS);
  }

  lemma AllWait(b: Sys) returns (run: seq<Event>, s: Sys)
    requires Resting(b, [[1], [3, 4, 5], [6]], {}) && b.curr == 1
    ensures Leads(b, run, s) && Resting(s, [[], [], [6]], {1, 3, 4, 5})
  {
    run := [];
    s := OneMoreWaits(b, run, b, [[1], [3, 4, 5], [6]], {}, 0);
    run := run + [ASKS];
    s := OneMoreWaits(b, run, s, [[], [3, 4, 5], [6]], {1}, 1);
    run := run + [ASKS];
    s := OneMoreWaits(b, run, s, [[], [4, 5], [6]], {1, 3}, 1);
    run := run + [ASKS];
    s := OneMoreWaits(b, run, s, [[], [5], [6]], {1, 3, 4}, 1);
    run := run + [ASKS];
  }

  lemma Overtakes(b: Sys) returns (run: seq<Event>, s: Sys)
    requires Resting(b, [[1], [3, 4, 5], [6]], {}) && b.curr == 1
    ensures Leads(b, run, s) && s.ready[0] == [TASK] && s.curr == SERVER && !StrictPriority(s)
  {
    run, s := AllWait(b);
    TaskWakes(s, {1, 3, 4, 5});
    RunsOn(b, run, s, Interrupted(TASK, false));
    run, s := run + [Interrupted(TASK, false)], Step(s, Interrupted(TASK, false));
    ServerOvertakes(s);
    RunsOn(b, run, s, Call(Send, From(SERVER), NOTE));
    run, s := run + [Call(Send, From(SERVER), NOTE)], Step(s, Call(Send, From(SERVER), NOTE));
    assert s.ready[0] == [TASK];
  }

  /** Such a state is reached: the task and the servers wait, an interrupt wakes the task, and it sends to a server. */
  lemma OvertakingIsReachable() returns (run: seq<Event>, s: Sys)
    ensures ReachedBy(s, 3, 4, run) && s.ready[0] == [TASK] && s.curr == SERVER && !StrictPriority(s)
  {
    SmallBoot();
    var b := Boot(3, 4);
    run, s := Overtakes(b);
  }
}
