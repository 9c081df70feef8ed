/** The stop-request registry (app/libsystemd/src/stoprequest.c:67-250, 284-350): which processes asked to be told to
    stop, through which semaphore, and which of them have been told.

    Every operation runs under one lock, so an interleaving of threads is a sequence of whole operations. */
module StopRequests {
  import opened Wrappers
  import Search

  type Pid = nat

  datatype Entry<S> = Entry(pid: Pid, wakeup: S, stopRequested: bool)

  // ---------------------------------------------------------------------------------------------------------------
  // Operations on the list of entries
  // ---------------------------------------------------------------------------------------------------------------

  function Pids<S>(es: seq<Entry<S>>): (pids: seq<Pid>)
    ensures |pids| == |es| && forall i :: 0 <= i < |es| ==> pids[i] == es[i].pid
  {
    seq(|es|, i requires 0 <= i < |es| => es[i].pid)
  }

  /** The first entry of a process, or |es|. */
  function Find<S>(es: seq<Entry<S>>, pid: Pid): (i: nat)
    ensures i <= |es|
    ensures i < |es| ==> es[i].pid == pid
    ensures forall j :: 0 <= j < i ==> es[j].pid != pid
  {
    Search.First(Pids(es), pid)
  }

  function Lookup<S>(es: seq<Entry<S>>, pid: Pid): Option<Entry<S>> {
    var i := Find(es, pid);
    if i < |es| then Some(es[i]) else None
  }

  function Take<S>(es: seq<Entry<S>>, pid: Pid): seq<Entry<S>> {
    var i := Find(es, pid);
    if i < |es| then es[..i] + es[i + 1..] else es
  }

  function Sent<S>(es: seq<Entry<S>>, pid: Pid): seq<Entry<S>> {
    var i := Find(es, pid);
    if i < |es| then es[i := es[i].(stopRequested := true)] else es
  }

  /** A new semaphore replaces the old one and keeps a request already received. */
  function Set<S>(es: seq<Entry<S>>, pid: Pid, wakeup: S): seq<Entry<S>> {
    var i := Find(es, pid);
    if i < |es| then es[i := es[i].(wakeup := wakeup)] else es + [Entry(pid, wakeup, false)]
  }

  ghost predicate OnePerProcess<S>(es: seq<Entry<S>>) {
    forall i, j :: 0 <= i < j < |es| ==> es[i].pid != es[j].pid
  }

  lemma TakeEffect<S>(es: seq<Entry<S>>, pid: Pid)
    requires OnePerProcess(es)
    ensures OnePerProcess(Take(es, pid))
    ensures Lookup(Take(es, pid), pid) == None
    ensures forall q :: q != pid ==> Lookup(Take(es, pid), q) == Lookup(es, q)
  {
    var i := Find(es, pid);
    if i < |es| {
      var r := Take(es, pid);
      assert forall k :: 0 <= k < |r| ==> r[k] == es[if k < i then k else k + 1];
      Search.FirstIs(Pids(r), pid, |r|);
      forall q | q != pid ensures Lookup(r, q) == Lookup(es, q) {
        var f := Find(es, q);
        Search.FirstIs(Pids(r), q, if f < i then f else f - 1);
      }
    }
  }

  lemma SentEffect<S>(es: seq<Entry<S>>, pid: Pid)
    requires OnePerProcess(es)
    ensures OnePerProcess(Sent(es, pid))
    ensures Lookup(Sent(es, pid), pid)
           == match Lookup(es, pid) case Some(e) => Some(e.(stopRequested := true)) case None => None
    ensures forall q :: q != pid ==> Lookup(Sent(es, pid), q) == Lookup(es, q)
  {
    forall q ensures Find(Sent(es, pid), q) == Find(es, q) {
      Search.FirstIs(Pids(Sent(es, pid)), q, Find(es, q));
    }
  }

  lemma SetEffect<S>(es: seq<Entry<S>>, pid: Pid, wakeup: S)
    requires OnePerProcess(es)
    ensures OnePerProcess(Set(es, pid, wakeup))
    ensures Lookup(Set(es, pid, wakeup), pid)
            == Some(match Lookup(es, pid) case Some(e) => e.(wakeup := wakeup) case None => Entry(pid, wakeup, false))
    ensures forall q :: q != pid ==> Lookup(Set(es, pid, wakeup), q) == Lookup(es, q)
  {
    var i, r := Find(es, pid), Set(es, pid, wakeup);
    forall q | q != pid ensures Lookup(r, q) == Lookup(es, q) {
      var f := Find(es, q);
      Search.FirstIs(Pids(r), q, if f == |es| then |r| else f);
    }
    Search.FirstIs(Pids(r), pid, i);
  }

  // ---------------------------------------------------------------------------------------------------------------
  // Interleavings of lock sections
  // ---------------------------------------------------------------------------------------------------------------

  /** One lock section: a process sets or clears its semaphore, or asks whether it was told to stop; someone sends a
      request to a process; a process terminates. */
  datatype Section<S> =
    | SetSemaphore(pid: Pid, wakeup: S)
    | ClearSemaphore(pid: Pid)
    | StopRequested(pid: Pid)
    | Send(pid: Pid)
    | ProcessExited(pid: Pid)

  function Apply<S>(es: seq<Entry<S>>, s: Section<S>): seq<Entry<S>> {
    match s
    case SetSemaphore(pid, wakeup) => Set(es, pid, wakeup)
    case ClearSemaphore(pid) => Take(es, pid)
    case StopRequested(_) => es
    case Send(pid) => Sent(es, pid)
    case ProcessExited(pid) => Take(es, pid)
  }

  /** The semaphores a section posts. */
  function Posts<S>(es: seq<Entry<S>>, s: Section<S>): seq<S> {
    if s.Send? && Lookup(es, s.pid).Some? then [Lookup(es, s.pid).value.wakeup] else []
  }

  /** What happens to one process's registration, as if it were the only one: the reference the list refines. */
  function Register<S>(r: Option<Entry<S>>, pid: Pid, s: Section<S>): Option<Entry<S>> {
    if s.pid != pid then r
    else
      match s
      case SetSemaphore(_, wakeup) => Some(Entry(pid, wakeup, r.Some? && r.value.stopRequested))
      case ClearSemaphore(_) => None
      case StopRequested(_) => r
      case Send(_) => if r.Some? then Some(r.value.(stopRequested := true)) else None
      case ProcessExited(_) => None
  }

  function ApplyAll<S>(es: seq<Entry<S>>, run: seq<Section<S>>): seq<Entry<S>> {
    if run == [] then es else Apply(ApplyAll(es, run[..|run| - 1]), run[|run| - 1])
  }

  function RegisterAll<S>(r: Option<Entry<S>>, pid: Pid, run: seq<Section<S>>): Option<Entry<S>> {
    if run == [] then r else Register(RegisterAll(r, pid, run[..|run| - 1]), pid, run[|run| - 1])
  }

  lemma ApplyEffect<S>(es: seq<Entry<S>>, s: Section<S>, pid: Pid)
    requires OnePerProcess(es)
    ensures OnePerProcess(Apply(es, s))
    ensures Lookup(Apply(es, s), pid) == Register(Lookup(es, pid), pid, s)
  {
    match s
    case SetSemaphore(p, wakeup) => SetEffect(es, p, wakeup);
    case ClearSemaphore(p) => TakeEffect(es, p);
    case StopRequested(_) =>
    case Send(p) => SentEffect(es, p);
    case ProcessExited(p) => TakeEffect(es, p);
  }

  /** In every interleaving there is at most one entry per process, and it is what that process's own sections, and the
      requests sent to it, make of it. */
  lemma {:induction false} RunRefinesRegisters<S>(es: seq<Entry<S>>, run: seq<Section<S>>, pid: Pid)
    requires OnePerProcess(es)
    ensures OnePerProcess(ApplyAll(es, run))
    ensures Lookup(ApplyAll(es, run), pid) == RegisterAll(Lookup(es, pid), pid, run)
  {
    if run != [] {
      var n := |run| - 1;
      RunRefinesRegisters(es, run[..n], pid);
      ApplyEffect(ApplyAll(es, run[..n]), run[n], pid);
    }
  }

  /** A request received stays until the entry is cleared or its process exits, even across new registrations. */
  lemma {:induction false} RequestIsSticky<S>(es: seq<Entry<S>>, run: seq<Section<S>>, pid: Pid)
    requires OnePerProcess(es) && Lookup(es, pid).Some? && Lookup(es, pid).value.stopRequested
    requires forall i :: 0 <= i < |run| ==> run[i] != ClearSemaphore(pid) && run[i] != ProcessExited(pid)
    ensures Lookup(ApplyAll(es, run), pid).Some? && Lookup(ApplyAll(es, run), pid).value.stopRequested
  {
    if run != [] {
      var n := |run| - 1;
      RequestIsSticky(es, run[..n], pid);
      RunRefinesRegisters(es, run[..n], pid);
      ApplyEffect(ApplyAll(es, run[..n]), run[n], pid);
    }
  }

  ghost predicate Holds<S>(es: seq<Entry<S>>, s: S) {
    exists i :: 0 <= i < |es| && es[i].wakeup == s
  }

  lemma {:induction false} NotHeldUnlessSet<S>(es: seq<Entry<S>>, run: seq<Section<S>>, s: S)
    requires !Holds(es, s)
    requires forall i :: 0 <= i < |run| ==> !(run[i].SetSemaphore? && run[i].wakeup == s)
    ensures !Holds(ApplyAll(es, run), s)
  {
    if run != [] {
      NotHeldUnlessSet(es, run[..|run| - 1], s);
    }
  }

  /** Once no entry holds a semaphore - the call that cleared or replaced it has returned - no section posts it, unless
      it is registered again. So it may be destroyed. */
  lemma NoPostAfterRelease<S>(es: seq<Entry<S>>, run: seq<Section<S>>, s: S, k: nat)
    requires !Holds(es, s) && k < |run|
    requires forall i :: 0 <= i < |run| ==> !(run[i].SetSemaphore? && run[i].wakeup == s)
    ensures s !in Posts(ApplyAll(es, run[..k]), run[k])
  {
    NotHeldUnlessSet(es, run[..k], s);
  }

  /** Clearing or replacing the only registration of a semaphore releases it. */
  lemma ReleasedByOwner<S>(es: seq<Entry<S>>, pid: Pid, s: S, t: Section<S>)
    requires OnePerProcess(es) && t.pid == pid
    requires t.ClearSemaphore? || t.ProcessExited? || (t.SetSemaphore? && t.wakeup != s)
    requires forall i :: 0 <= i < |es| && es[i].wakeup == s ==> es[i].pid == pid
    ensures !Holds(Apply(es, t), s)
  {
    var i := Find(es, pid);
    assert forall j :: 0 <= j < |es| && es[j].pid == pid ==> j == i;
  }

  /** The process asks, and registers nothing but s, as often as it likes. */
  ghost predicate Keeps<S>(run: seq<Section<S>>, pid: Pid, s: S) {
    forall i :: 0 <= i < |run| && run[i].pid == pid ==>
      run[i].Send? || run[i].StopRequested? || run[i] == SetSemaphore(pid, s)
  }

  ghost predicate PostedTo<S(!new)>(es: seq<Entry<S>>, run: seq<Section<S>>, pid: Pid, s: S) {
    exists k :: 0 <= k < |run| && run[k] == Send(pid) && Posts(ApplyAll(es, run[..k]), run[k]) == [s]
  }

  lemma PostedByLast<S(!new)>(es: seq<Entry<S>>, run: seq<Section<S>>, pid: Pid, s: S)
    requires run != []
    ensures var front, last := run[..|run| - 1], run[|run| - 1];
            PostedTo(es, run, pid, s)
            <==> PostedTo(es, front, pid, s) || (last == Send(pid) && Posts(ApplyAll(es, front), last) == [s])
  {
    var n := |run| - 1;
    var front := run[..n];
    if PostedTo(es, front, pid, s) {
      var k :| 0 <= k < n && front[k] == Send(pid) && Posts(ApplyAll(es, front[..k]), front[k]) == [s];
      assert run[k] == Send(pid) && run[..k] == front[..k];
    }
    if PostedTo(es, run, pid, s) {
      var k :| 0 <= k < |run| && run[k] == Send(pid) && Posts(ApplyAll(es, run[..k]), run[k]) == [s];
      if k < n {
        assert front[k] == Send(pid) && run[..k] == front[..k];
      }
    }
  }

  /** After a check that saw no request, as long as the process keeps its semaphore: a request is on record exactly when
      a post went to that semaphore since. */
  lemma {:induction false} RequestPostsKeptSemaphore<S(!new)>(es: seq<Entry<S>>, run: seq<Section<S>>, pid: Pid, s: S)
    requires OnePerProcess(es) && Lookup(es, pid) == Some(Entry(pid, s, false)) && Keeps(run, pid, s)
    ensures var last := Lookup(ApplyAll(es, run), pid);
            last.Some? && last.value.wakeup == s && (last.value.stopRequested <==> PostedTo(es, run, pid, s))
  {
    if run != [] {
      var n := |run| - 1;
      var front := run[..n];
      RequestPostsKeptSemaphore(es, front, pid, s);
      RunRefinesRegisters(es, front, pid);
      ApplyEffect(ApplyAll(es, front), run[n], pid);
      PostedByLast(es, run, pid, s);
    }
  }

  // ---------------------------------------------------------------------------------------------------------------
  // Registering between the check and the wait
  // ---------------------------------------------------------------------------------------------------------------

  /** The semaphores a process registers in a run, in order. */
  function Registered<S>(run: seq<Section<S>>, pid: Pid): seq<S> {
    if run == [] then []
    else
      var last := run[|run| - 1];
      Registered(run[..|run| - 1], pid) + (if last.SetSemaphore? && last.pid == pid then [last.wakeup] else [])
  }

  /** A request is on record, but the semaphore the process is about to wait on was not posted for it. */
  ghost predicate WakeupLost<S(!new)>(es: seq<Entry<S>>, run: seq<Section<S>>, pid: Pid, s: S) {
    var last := Lookup(ApplyAll(es, run), pid);
    last.Some? && last.value.stopRequested && !PostedTo(es, run, pid, s)
  }

  /** As long as a process registers nothing but s - clearing it and registering it again included - what is on
      record for it was posted to s. */
  lemma {:induction false} OnRecordWasPosted<S(!new)>(es: seq<Entry<S>>, run: seq<Section<S>>, pid: Pid, s: S)
    requires OnePerProcess(es) && Lookup(es, pid) == Some(Entry(pid, s, false))
    requires forall x :: x in Registered(run, pid) ==> x == s
    ensures var last := Lookup(ApplyAll(es, run), pid);
            last.Some? ==> last.value.wakeup == s && (last.value.stopRequested ==> PostedTo(es, run, pid, s))
  {
    if run != [] {
      var n := |run| - 1;
      var front, last := run[..n], run[n];
      assert forall x :: x in Registered(front, pid) ==> x in Registered(run, pid);
      assert last.SetSemaphore? && last.pid == pid ==> last.wakeup in Registered(run, pid);
      OnRecordWasPosted(es, front, pid, s);
      RunRefinesRegisters(es, front, pid);
      ApplyEffect(ApplyAll(es, front), last, pid);
      PostedByLast(es, run, pid, s);
    }
  }

  /** The run in which a process registers some semaphores, one after the other. */
  function Registrations<S>(pid: Pid, own: seq<S>): (run: seq<Section<S>>)
    ensures |run| == |own| && forall i :: 0 <= i < |run| ==> run[i] == SetSemaphore(pid, own[i])
  {
    seq(|own|, i requires 0 <= i < |own| => SetSemaphore(pid, own[i]))
  }

  lemma {:induction false} RegistrationsEffect<S>(es: seq<Entry<S>>, pid: Pid, own: seq<S>)
    requires OnePerProcess(es) && own != [] && Lookup(es, pid).Some? && !Lookup(es, pid).value.stopRequested
    ensures Lookup(ApplyAll(es, Registrations(pid, own)), pid) == Some(Entry(pid, own[|own| - 1], false))
    ensures OnePerProcess(ApplyAll(es, Registrations(pid, own)))
  {
    var n := |own| - 1;
    var run := Registrations(pid, own);
    assert run[..n] == Registrations(pid, own[..n]);
    RunRefinesRegisters(es, run[..n], pid);
    if n > 0 {
      RegistrationsEffect(es, pid, own[..n]);
    }
    ApplyEffect(ApplyAll(es, run[..n]), run[n], pid);
  }

  lemma {:induction false} RegisteredConcat<S>(a: seq<Section<S>>, b: seq<Section<S>>, pid: Pid)
    ensures Registered(a + b, pid) == Registered(a, pid) + Registered(b, pid)
  {
    if b == [] {
      assert a + b == a;
    } else {
      assert (a + b)[..|a + b| - 1] == a + b[..|b| - 1];
      RegisteredConcat(a, b[..|b| - 1], pid);
    }
  }

  lemma {:induction false} RegisteredOf<S>(pid: Pid, own: seq<S>)
    ensures Registered(Registrations(pid, own), pid) == own
  {
    if own != [] {
      var n := |own| - 1;
      assert Registrations(pid, own)[..n] == Registrations(pid, own[..n]);
      RegisteredOf(pid, own[..n]);
    }
  }

  lemma {:induction false} ApplyAllConcat<S>(es: seq<Entry<S>>, a: seq<Section<S>>, b: seq<Section<S>>)
    ensures ApplyAll(es, a + b) == ApplyAll(ApplyAll(es, a), b)
  {
    if b == [] {
      assert a + b == a;
    } else {
      assert (a + b)[..|a + b| - 1] == a + b[..|b| - 1];
      ApplyAllConcat(es, a, b[..|b| - 1]);
    }
  }

  /** The process registers its semaphores, and one request comes just after the one at i. */
  function RequestAfter<S>(pid: Pid, own: seq<S>, i: nat): seq<Section<S>>
    requires i < |own|
  {
    Registrations(pid, own[..i + 1]) + [Send(pid)] + Registrations(pid, own[i + 1..])
  }

  lemma RequestAfterRegisters<S>(pid: Pid, own: seq<S>, i: nat)
    requires i < |own|
    ensures Registered(RequestAfter(pid, own, i), pid) == own
  {
    var a, b := Registrations(pid, own[..i + 1]), Registrations(pid, own[i + 1..]);
    var send: seq<Section<S>> := [Send(pid)];
    RegisteredOf(pid, own[..i + 1]);
    RegisteredOf(pid, own[i + 1..]);
    RegisteredConcat(a, send, pid);
    RegisteredConcat(a + send, b, pid);
    assert Registered(send, pid) == [] by { assert send[..0] == []; }
  }

  lemma RequestIsRecorded<S>(es: seq<Entry<S>>, pid: Pid, s: S, own: seq<S>, i: nat)
    requires OnePerProcess(es) && Lookup(es, pid) == Some(Entry(pid, s, false)) && i < |own|
    ensures var last := Lookup(ApplyAll(es, RequestAfter(pid, own, i)), pid); last.Some? && last.value.stopRequested
  {
    var a, b := Registrations(pid, own[..i + 1]), Registrations(pid, own[i + 1..]);
    var send: seq<Section<S>> := [Send(pid)];
    RegistrationsEffect(es, pid, own[..i + 1]);
    assert (a + send)[..|a + send| - 1] == a;
    ApplyEffect(ApplyAll(es, a), Send(pid), pid);
    ApplyAllConcat(es, a + send, b);
    RequestIsSticky(ApplyAll(es, a + send), b, pid);
  }

  lemma OnlyOnePosted<S(!new)>(es: seq<Entry<S>>, pid: Pid, s: S, own: seq<S>, i: nat)
    requires OnePerProcess(es) && Lookup(es, pid) == Some(Entry(pid, s, false)) && i < |own| && own[i] != s
    ensures !PostedTo(es, RequestAfter(pid, own, i), pid, s)
  {
    var a, run := Registrations(pid, own[..i + 1]), RequestAfter(pid, own, i);
    RegistrationsEffect(es, pid, own[..i + 1]);
    forall k | 0 <= k < |run| && run[k] == Send(pid) ensures Posts(ApplyAll(es, run[..k]), run[k]) == [own[i]] {
      assert k == |a| && run[..k] == a;
    }
  }

  /** In any registry: a request that comes while another semaphore is registered posts that one only. The request is on
      record, the check saw nothing, and the process goes on to wait on a semaphore that was not posted for it. */
  lemma ReplacingBeforeWaitLosesPost<S(!new)>(es: seq<Entry<S>>, pid: Pid, s: S, own: seq<S>, i: nat)
    requires OnePerProcess(es) && Lookup(es, pid) == Some(Entry(pid, s, false)) && i < |own| && own[i] != s
    ensures WakeupLost(es, RequestAfter(pid, own, i), pid, s)
  {
    RequestIsRecorded(es, pid, s, own, i);
    OnlyOnePosted(es, pid, s, own, i);
  }

  /** Between a check that saw no request and the wait on s, a process may register semaphores. No interleaving
      with requests and with other processes - nor with its clearing its entry or exiting - loses it a wakeup,
      exactly when every one of them is s. */
  lemma NoWakeupLostIff<S(!new)>(es: seq<Entry<S>>, pid: Pid, s: S, own: seq<S>)
    requires OnePerProcess(es) && Lookup(es, pid) == Some(Entry(pid, s, false))
    ensures (forall run :: Registered(run, pid) == own ==> !WakeupLost(es, run, pid, s))
       <==> (forall x :: x in own ==> x == s)
  {
    if forall x :: x in own ==> x == s {
      forall run | Registered(run, pid) == own ensures !WakeupLost(es, run, pid, s) {
        OnRecordWasPosted(es, run, pid, s);
      }
    } else {
      var i :| 0 <= i < |own| && own[i] != s;
      RequestAfterRegisters(pid, own, i);
      ReplacingBeforeWaitLosesPost(es, pid, s, own, i);
    }
  }
}
