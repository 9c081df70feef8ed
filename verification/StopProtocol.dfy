/** Processes that follow the client loop documented with libsystemd_set_stop_semaphore
    (app/libsystemd/src/stoprequest.c:284-290), interleaved with stoppers, with the services' own wakeups and with
    processes being killed at any point.

    Each process has one semaphore, named after it. A semaphore holds at most cap posts. Whether the registry ever posts
    a destroyed semaphore is not assumed away: the count map holds the live semaphores only. */
module StopProtocol {
  import opened Wrappers
  import opened StopRequests

  datatype Phase = Starting | Checking | AboutToWait | Working | Clearing | Destroying | Leaving

  datatype State = State(cap: nat, entries: seq<Entry<Pid>>, counts: map<Pid, nat>, phases: map<Pid, Phase>)

  datatype Step =
    | Create(pid: Pid)              // a process starts, with its semaphore
    | Register(pid: Pid)            // libsystemd_set_stop_semaphore(wakeup)
    | RegisterAgain(pid: Pid)       // the same call from inside the loop
    | Check(pid: Pid)               // while (!libsystemd_stop_requested())
    | Wait(pid: Pid)                // dmosi_semaphore_wait returns
    | Work(pid: Pid)                // the body of the loop
    | Clear(pid: Pid)               // libsystemd_set_stop_semaphore(NULL)
    | Destroy(pid: Pid)             // dmosi_semaphore_destroy(wakeup)
    | Exit(pid: Pid)                // return 0
    | Kill(pid: Pid)                // the process is killed wherever it is
    | Request(pid: Pid)             // libsystemd_stoprequest_send by a stopper
    | OwnWakeup(pid: Pid)           // the service is woken for its own events

  ghost predicate Initial(st: State) {
    st.cap >= 1 && st.entries == [] && st.counts == map[] && st.phases == map[]
  }

  ghost predicate At(st: State, pid: Pid, phase: Phase) {
    pid in st.phases && st.phases[pid] == phase
  }

  /** A step is possible. Waiting is the only one that can block. */
  ghost predicate Enabled(st: State, s: Step) {
    match s
    case Create(p) => p !in st.phases && p !in st.counts
    case Register(p) => At(st, p, Starting)
    case RegisterAgain(p) => At(st, p, Working)
    case Check(p) => At(st, p, Checking)
    case Wait(p) => At(st, p, AboutToWait) && p in st.counts && st.counts[p] >= 1
    case Work(p) => At(st, p, Working)
    case Clear(p) => At(st, p, Clearing)
    case Destroy(p) => At(st, p, Destroying)
    case Exit(p) => At(st, p, Leaving)
    case Kill(p) => p in st.phases
    case Request(p) => true
    case OwnWakeup(p) => p in st.counts
  }

  function Post(st: State, s: Pid): map<Pid, nat> {
    if s in st.counts && st.counts[s] < st.cap then st.counts[s := st.counts[s] + 1] else st.counts
  }

  predicate Requested(st: State, pid: Pid) {
    Lookup(st.entries, pid).Some? && Lookup(st.entries, pid).value.stopRequested
  }

  function SectionOf(s: Step): Option<Section<Pid>> {
    match s
    case Register(p) => Some(SetSemaphore(p, p))
    case RegisterAgain(p) => Some(SetSemaphore(p, p))
    case Check(p) => Some(StopRequested(p))
    case Clear(p) => Some(ClearSemaphore(p))
    case Exit(p) => Some(ProcessExited(p))
    case Kill(p) => Some(ProcessExited(p))
    case Request(p) => Some(Send(p))
    case _ => None
  }

  ghost function Move(st: State, pid: Pid, phase: Phase): map<Pid, Phase> {
    st.phases[pid := phase]
  }

  ghost function Next(st: State, s: Step): State {
    var entries := match SectionOf(s) case Some(section) => Apply(st.entries, section) case None => st.entries;
    match s
    case Create(p) => st.(counts := st.counts[p := 0], phases := Move(st, p, Starting))
    case Register(p) => st.(entries := entries, phases := Move(st, p, Checking))
    case RegisterAgain(p) => st.(entries := entries)
    case Check(p) => st.(phases := Move(st, p, if Requested(st, p) then Clearing else AboutToWait))
    case Wait(p) =>
      st.(counts := if p in st.counts && st.counts[p] >= 1 then st.counts[p := st.counts[p] - 1] else st.counts,
          phases := Move(st, p, Working))
    case Work(p) => st.(phases := Move(st, p, Checking))
    case Clear(p) => st.(entries := entries, phases := Move(st, p, Destroying))
    case Destroy(p) => st.(counts := st.counts - {p}, phases := Move(st, p, Leaving))
    case Exit(p) => st.(entries := entries, phases := st.phases - {p})
    case Kill(p) => st.(entries := entries, phases := st.phases - {p})
    case Request(p) =>
      st.(entries := entries,
          counts := match Lookup(st.entries, p) case Some(e) => Post(st, e.wakeup) case None => st.counts)
    case OwnWakeup(p) => st.(counts := Post(st, p))
  }

  ghost predicate IsRun(st: State, run: seq<Step>) {
    forall k :: 0 <= k < |run| ==> Enabled(After(st, run[..k]), run[k])
  }

  ghost function After(st: State, run: seq<Step>): State {
    if run == [] then st else Next(After(st, run[..|run| - 1]), run[|run| - 1])
  }

  // ---------------------------------------------------------------------------------------------------------------
  // The invariant of every run
  // ---------------------------------------------------------------------------------------------------------------

  predicate InLoop(phase: Phase) {
    phase in {Checking, AboutToWait, Working, Clearing}
  }

  ghost predicate InvFor(st: State, p: Pid) {
    // registered, with its own semaphore, exactly while it is in the loop
    && (Lookup(st.entries, p).Some? <==> p in st.phases && InLoop(st.phases[p]))
    && (Lookup(st.entries, p).Some? ==> Lookup(st.entries, p).value.wakeup == p)
    // its semaphore lives until it destroys it
    && (p in st.phases && st.phases[p] != Leaving ==> p in st.counts)
    && (p in st.counts ==> st.counts[p] <= st.cap)
    // no lost wakeup
    && (At(st, p, AboutToWait) && Requested(st, p) ==> p in st.counts && st.counts[p] >= 1)
  }

  ghost predicate Inv(st: State) {
    && st.cap >= 1
    && OnePerProcess(st.entries)
    && forall p: Pid :: InvFor(st, p)
  }

  lemma OwnStepKeepsInv(st: State, s: Step)
    requires st.cap >= 1 && OnePerProcess(st.entries) && InvFor(st, s.pid) && Enabled(st, s)
    ensures InvFor(Next(st, s), s.pid)
  {
    if SectionOf(s).Some? {
      ApplyEffect(st.entries, SectionOf(s).value, s.pid);
    }
  }

  lemma OtherStepKeepsInv(st: State, s: Step, p: Pid)
    requires OnePerProcess(st.entries) && InvFor(st, s.pid) && InvFor(st, p) && Enabled(st, s) && p != s.pid
    ensures InvFor(Next(st, s), p)
  {
    var n := Next(st, s);
    if SectionOf(s).Some? {
      ApplyEffect(st.entries, SectionOf(s).value, p);
    }
    assert Lookup(n.entries, p) == Lookup(st.entries, p);
    assert p in n.phases <==> p in st.phases;
    assert p in n.counts <==> p in st.counts;
  }

  lemma NextKeepsInv(st: State, s: Step)
    requires Inv(st) && Enabled(st, s)
    ensures Inv(Next(st, s))
  {
    assert InvFor(st, s.pid);
    if SectionOf(s).Some? {
      ApplyEffect(st.entries, SectionOf(s).value, s.pid);
    }
    forall p: Pid ensures InvFor(Next(st, s), p) {
      assert InvFor(st, p);
      if p == s.pid {
        OwnStepKeepsInv(st, s);
      } else {
        OtherStepKeepsInv(st, s, p);
      }
    }
  }

  lemma {:induction false} RunKeepsInv(st: State, run: seq<Step>)
    requires Inv(st) && IsRun(st, run)
    ensures Inv(After(st, run))
  {
    if run != [] {
      var init := run[..|run| - 1];
      forall k | 0 <= k < |init| ensures Enabled(After(st, init[..k]), init[k]) {
        assert init[..k] == run[..k];
      }
      RunKeepsInv(st, init);
      NextKeepsInv(After(st, init), run[|run| - 1]);
    }
  }

  lemma InitialInv(st: State)
    requires Initial(st)
    ensures Inv(st)
  {
    forall p: Pid ensures InvFor(st, p) {
    }
  }

  // ---------------------------------------------------------------------------------------------------------------
  // Main results
  // ---------------------------------------------------------------------------------------------------------------

  /** No lost wakeup: in every reachable state, a process that was told to stop and is about to wait, or waiting, finds
      its semaphore posted - even if the request's own post met a full semaphore. */
  lemma {:induction false} NoLostWakeup(st: State, run: seq<Step>, pid: Pid)
    requires Initial(st) && IsRun(st, run)
    requires At(After(st, run), pid, AboutToWait) && Requested(After(st, run), pid)
    ensures Enabled(After(st, run), Wait(pid))
  {
    InitialInv(st);
    RunKeepsInv(st, run);
    assert InvFor(After(st, run), pid);
  }

  /** No request ever posts a destroyed semaphore: whatever is registered is alive. */
  lemma {:induction false} NoPostAfterDestroy(st: State, run: seq<Step>, pid: Pid)
    requires Initial(st) && IsRun(st, run)
    ensures forall s :: s in Posts(After(st, run).entries, Send(pid)) ==> s in After(st, run).counts
  {
    InitialInv(st);
    RunKeepsInv(st, run);
    assert InvFor(After(st, run), pid);
  }

  /** How many steps of its own a process in the loop is at most away from leaving it. */
  function Distance(phase: Phase): nat {
    match phase
    case AboutToWait => 3
    case Working => 2
    case Checking => 1
    case _ => 0
  }

  /** The steps of the loop itself. Registering again does not get the process any further. */
  predicate LoopStep(s: Step, pid: Pid) {
    s.pid == pid && (s.Check? || s.Wait? || s.Work?)
  }

  function LoopSteps(run: seq<Step>, pid: Pid): nat {
    if run == [] then 0 else LoopSteps(run[1..], pid) + (if LoopStep(run[0], pid) then 1 else 0)
  }

  function StepFrom(phase: Phase, pid: Pid): Step {
    match phase
    case AboutToWait => Wait(pid)
    case Working => Work(pid)
    case _ => Check(pid)
  }

  /** A process that was told to stop is never blocked in the loop. */
  lemma RequestedIsNeverBlocked(st: State, pid: Pid)
    requires Inv(st) && pid in st.phases && Requested(st, pid) && Distance(st.phases[pid]) > 0
    ensures Enabled(st, StepFrom(st.phases[pid], pid))
  {
    assert InvFor(st, pid);
  }

  lemma RequestedApproaches(st: State, s: Step, pid: Pid)
    requires Inv(st) && Enabled(st, s) && s != Kill(pid)
    requires pid in st.phases && Requested(st, pid) && Distance(st.phases[pid]) > 0
    ensures pid in Next(st, s).phases && Requested(Next(st, s), pid)
    ensures Distance(Next(st, s).phases[pid]) == Distance(st.phases[pid]) - (if LoopStep(s, pid) then 1 else 0)
  {
    assert InvFor(st, pid);
    if SectionOf(s).Some? {
      ApplyEffect(st.entries, SectionOf(s).value, pid);
    }
  }

  lemma AfterCons(st: State, run: seq<Step>, k: nat)
    requires run != [] && k < |run|
    ensures After(st, run[..k + 1]) == After(Next(st, run[0]), run[1..][..k])
  {
    if k == 0 {
      assert run[..1][..0] == [] && run[1..][..0] == [];
    } else {
      AfterCons(st, run, k - 1);
      assert run[..k + 1][..k] == run[..k] && run[1..][..k][..k - 1] == run[1..][..k - 1];
    }
  }

  lemma RunTail(st: State, run: seq<Step>)
    requires run != [] && IsRun(st, run)
    ensures Enabled(st, run[0]) && IsRun(Next(st, run[0]), run[1..])
  {
    assert run[..0] == [];
    forall k | 0 <= k < |run[1..]| ensures Enabled(After(Next(st, run[0]), run[1..][..k]), run[1..][k]) {
      AfterCons(st, run, k);
      assert Enabled(After(st, run[..k + 1]), run[k + 1]);
    }
  }

  /** Once told to stop, a process that is not killed leaves the loop with its third loop step at the latest, in every
      interleaving: it waits at most once more. */
  lemma {:induction false} RequestedLeavesLoop(st: State, run: seq<Step>, pid: Pid) returns (k: nat)
    requires Inv(st) && IsRun(st, run) && pid in st.phases && Requested(st, pid)
    requires InLoop(st.phases[pid]) && Kill(pid) !in run
    requires LoopSteps(run, pid) >= Distance(st.phases[pid])
    ensures k <= |run| && LoopSteps(run[..k], pid) == Distance(st.phases[pid]) <= 3
    ensures At(After(st, run[..k]), pid, Clearing)
    decreases |run|
  {
    if Distance(st.phases[pid]) == 0 {
      k := 0;
      assert run[..0] == [];
    } else {
      RunTail(st, run);
      RequestedApproaches(st, run[0], pid);
      NextKeepsInv(st, run[0]);
      var n := Next(st, run[0]);
      assert InvFor(n, pid);
      var j := RequestedLeavesLoop(n, run[1..], pid);
      k := j + 1;
      AfterCons(st, run, j);
      assert run[..k][0] == run[0] && run[..k][1..] == run[1..][..j];
    }
  }
}
