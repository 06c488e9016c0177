/** What calls of schedule do to the user at the head of the user list, over runs. */
module KernelSchedule {
  import opened KernelState
  import opened KernelInvariants
  import opened KernelSteps
  import opened KernelRuns
  import opened KernelTheorems

  /** Every process that can run and is to be scheduled is on a ready list. */
  ghost predicate AllListed(s: Sys) {
    forall p, c :: 0 <= p < |s.procs| && 0 <= c < 3 && Belongs(s.nrTasks, s.procs[p], p, c) ==> p in s.ready[c]
  }

  lemma LostIsUnlisted(s: Sys, p: nat)
    requires Inv(s) && p in s.lost
    ensures p < |s.procs| && s.procs[p].priority == User && s.procs[p].Runnable() && s.curr != p
    ensures Belongs(s.nrTasks, s.procs[p], p, 2) && forall c :: 0 <= c < 3 ==> p !in s.ready[c]
  {
    assert IsLost(s.procs, p);
    assert RoleOf(s.nrTasks, s.procs[p], s.queues[p], p);
    CurrIsListed(s, s.lost - {p}, p);
  }

  /** Everybody is listed exactly if nobody was taken off. */
  lemma AllListedExactly(s: Sys)
    requires Inv(s)
    ensures AllListed(s) <==> s.lost == {}
  {
    if s.lost != {} {
      var p :| p in s.lost;
      LostIsUnlisted(s, p);
      assert p !in s.ready[2] && Belongs(s.nrTasks, s.procs[p], p, 2);
    }
  }

  /** schedule, called when no user is ready, changes nothing; otherwise it takes the head of the user list off it, and
      nobody else. */
  lemma ScheduleKeepsListedExactly(s: Sys)
    requires Inv(s) && AllListed(s)
    ensures AllListed(Schedule(s)) <==> s.ready[2] == []
    ensures Schedule(s).lost == (if s.ready[2] == [] then {} else {s.ready[2][0]})
    ensures s.ready[2] != [] ==> Schedule(s).ready == s.ready[2 := s.ready[2][1..]] && s.ready[2][0] < |s.procs|
  {
    ScheduleKeepsInv(s);
    AllListedExactly(s);
    AllListedExactly(Schedule(s));
    if s.ready[2] != [] {
      HeadIsListed(s, 2);
    }
  }

  // ---------------------------------------------------------------- runs

  lemma {:induction false} UnholdLosesNobody(s: Sys)
    ensures Unhold(s).lost == s.lost
    decreases |s.held|
  {
    if s.held != [] {
      UnholdLosesNobody(Interrupt(PopHeld(s), s.held[0], false));
    }
  }

  lemma ReceiveLosesNobody(s: Sys, p: nat, src: Source)
    requires p < |s.procs|
    ensures ReceiveMessage(s, p, src).lost == s.lost
  {
  }

  lemma SendLosesNobody(s: Sys, p: nat, d: nat)
    requires p < |s.procs| && d < |s.procs|
    ensures SendMessage(s, p, d).0.lost == s.lost
  {
  }

  lemma CallLosesNobody(s: Sys, kind: CallKind, src: Source, m: Message)
    requires CallAllowed(s, kind, src)
    ensures SysCall(s, kind, src, m).0.lost == s.lost
  {
    var s0 := FillBuffer(s, kind, m);
    ReceiveLosesNobody(s0, s.curr, src);
    if src.From? {
      SendLosesNobody(s0, s.curr, src.p);
      ReceiveLosesNobody(SendMessage(s0, s.curr, src.p).0, s.curr, src);
    }
  }

  /** Only schedule loses anybody, and only an exit ends that. */
  lemma StepLoses(s: Sys, e: Event)
    requires Allowed(s, e)
    ensures Step(s, e).lost
            == match e
               case Exited(child) => s.lost - {child}
               case Scheduled => if s.ready[2] == [] then s.lost else s.lost + {s.ready[2][0]}
               case _ => s.lost
  {
    match e
    case Call(kind, src, m) => CallLosesNobody(s, kind, src, m);
    case Unheld => UnholdLosesNobody(s);
    case _ =>
  }

  lemma {:induction false} LostUntilExit(s: Sys, p: nat, run: seq<Event>)
    requires p in s.lost && Legal(s, run) && Exited(p) !in run
    ensures p in After(s, run).lost
    decreases |run|
  {
    if run != [] {
      StepLoses(s, run[0]);
      LostUntilExit(Step(s, run[0]), p, run[1..]);
    }
  }

  lemma {:induction false} NobodyIsLostBefore(s: Sys, run: seq<Event>)
    requires s.lost == {} && Legal(s, run) && Scheduled !in run
    ensures After(s, run).lost == {}
    decreases |run|
  {
    if run != [] {
      StepLoses(s, run[0]);
      NobodyIsLostBefore(Step(s, run[0]), run[1..]);
    }
  }

  /** In a run from boot in which schedule is not called, everybody who can run is on a ready list. */
  lemma {:induction false} AllAreListedBefore(nrTasks: nat, nrProcs: nat, run: seq<Event>)
    requires 3 <= nrTasks && NR_SERVERS < nrProcs <= ANY
    requires Legal(Boot(nrTasks, nrProcs), run) && Scheduled !in run
    ensures AllListed(After(Boot(nrTasks, nrProcs), run))
  {
    var s := Boot(nrTasks, nrProcs);
    BootIsConsistent(nrTasks, nrProcs);
    RunKeepsInv(s, run);
    NobodyIsLostBefore(s, run);
    AllListedExactly(After(s, run));
  }

  /** From any reachable state: once schedule has been called with a user ready, the user that headed the list never
      runs again, whatever happens, although nothing blocks it; only its exit can end that. */
  lemma {:induction false} ScheduledUserStarves(s: Sys, run: seq<Event>)
    requires Reachable(s) && s.ready[2] != []
    requires Legal(Schedule(s), run) && Exited(s.ready[2][0]) !in run
    ensures var r, p := After(Schedule(s), run), s.ready[2][0];
            p < |r.procs| && r.curr != p && r.procs[p].priority == User && r.procs[p].Runnable()
            && forall c :: 0 <= c < 3 ==> p !in r.ready[c]
  {
    ReachableIsConsistent(s);
    ScheduleKeepsInv(s);
    RunKeepsInv(Schedule(s), run);
    LostUntilExit(Schedule(s), s.ready[2][0], run);
    LostIsUnlisted(After(Schedule(s), run), s.ready[2][0]);
  }
}
