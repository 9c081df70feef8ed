/** The stop-request registry as the C code runs it: a list changed in place, semaphores that are posted, and exit
    callbacks registered with the operating system, proved against module StopRequests. */
module StopRegistry {
  import opened Wrappers
  import opened Errno
  import Search
  import opened StopRequests

  /** A counting semaphore. A post never blocks: a full semaphore stays full. */
  class Semaphore {
    var count: nat
    const max: nat

    constructor (initial: nat, max: nat)
      requires initial <= max && max >= 1
      ensures count == initial && this.max == max
    {
      count := initial;
      this.max := max;
    }

    method Post()
      modifies this
      ensures count == if old(count) < max then old(count) + 1 else old(count)
    {
      if count < max {
        count := count + 1;
      }
    }
  }

  class Registry {
    /** Whether the module is initialised (g_stoprequests_lock != NULL). */
    var ready: bool
    var entries: seq<Entry<Semaphore>>
    /** The exit callbacks of this module registered on live processes, by process. */
    var hooks: multiset<Pid>

    /** One entry and one exit callback per registered process, and none besides. */
    ghost predicate Valid()
      reads this
    {
      && OnePerProcess(entries)
      && (forall p: Pid :: hooks[p] == if Lookup(entries, p).Some? then 1 else 0)
      && (!ready ==> entries == [])
    }

    constructor ()
      ensures Valid() && ready && entries == []
    {
      ready, entries, hooks := true, [], multiset{};
    }

    method FindEntry(pid: Pid) returns (i: nat)
      ensures i == Find(entries, pid)
    {
      i := 0;
      while i < |entries| && entries[i].pid != pid
        invariant i <= |entries| && forall j :: 0 <= j < i ==> entries[j].pid != pid
      {
        i := i + 1;
      }
      Search.FirstIs(Pids(entries), pid, i);
    }

    /** libsystemd_stoprequest_take. */
    method TakeEntry(pid: Pid) returns (taken: bool)
      modifies this`entries
      ensures taken <==> Lookup(old(entries), pid).Some?
      ensures entries == Take(old(entries), pid)
    {
      var i := FindEntry(pid);
      taken := i < |entries|;
      if taken {
        entries := entries[..i] + entries[i + 1..];
      }
    }

    /** libsystemd_stoprequest_send. Only the semaphore registered now is posted, once. */
    method SendRequest(pid: Pid) returns (asked: bool)
      requires Valid()
      modifies this`entries
      modifies set e | e in Posts(entries, Send(pid))
      ensures Valid() && ready == old(ready)
      ensures entries == Sent(old(entries), pid)
      ensures asked <==> Lookup(old(entries), pid).Some?
      ensures asked ==> var s := Lookup(old(entries), pid).value.wakeup;
                        s.count == if old(s.count) < s.max then old(s.count) + 1 else old(s.count)
    {
      SentEffect(entries, pid);
      asked := false;
      var i := FindEntry(pid);
      if ready && i < |entries| {
        var entry := entries[i];
        assert entry.wakeup in Posts(entries, Send(pid));
        entries := entries[i := entry.(stopRequested := true)];
        entry.wakeup.Post();
        asked := true;
      }
    }

    /** libsystemd_stoprequest_remove. */
    method RemoveEntry(pid: Pid)
      requires Valid()
      modifies this`entries, this`hooks
      ensures Valid() && entries == Take(old(entries), pid)
    {
      TakeEffect(entries, pid);
      var taken := TakeEntry(pid);
      if taken {
        hooks := hooks - multiset{pid};
      }
    }

    /** libsystemd_stoprequest_add, for a process without an entry. */
    method AddEntry(pid: Pid, wakeup: Semaphore)
      requires Valid() && ready && Lookup(entries, pid) == None
      modifies this`entries, this`hooks
      ensures Valid() && entries == Set(old(entries), pid, wakeup)
    {
      SetEffect(entries, pid, wakeup);
      entries := entries + [Entry(pid, wakeup, false)];
      hooks := hooks + multiset{pid};
    }

    /** libsystemd_set_stop_semaphore for the calling process, None if the caller is not one. */
    method SetStopSemaphore(self: Option<Pid>, wakeup: Semaphore?) returns (result: int)
      requires Valid()
      modifies this`entries, this`hooks
      ensures Valid() && ready == old(ready)
      ensures result == if self == None then ESRCH else if !ready then ENOMEM else 0
      ensures result != 0 ==> entries == old(entries)
      ensures result == 0 ==> entries == Apply(old(entries), if wakeup == null then ClearSemaphore(self.value)
                                                             else SetSemaphore(self.value, wakeup))
    {
      if self == None {
        return ESRCH;
      }
      if !ready {
        return ENOMEM;
      }
      var pid := self.value;
      if wakeup == null {
        RemoveEntry(pid);
      } else {
        var i := FindEntry(pid);
        if i < |entries| {
          SetEffect(entries, pid, wakeup);
          entries := entries[i := entries[i].(wakeup := wakeup)];
        } else {
          AddEntry(pid, wakeup);
        }
      }
      return 0;
    }

    /** libsystemd_stop_requested. */
    method IsStopRequested(self: Option<Pid>) returns (requested: bool)
      requires Valid()
      ensures requested
         <==> (self.Some?
               && var entry := Lookup(entries, self.value); entry.Some? && entry.value.stopRequested)
    {
      requested := false;
      if self.Some? && ready {
        var i := FindEntry(self.value);
        requested := i < |entries| && entries[i].stopRequested;
      }
    }

    /** A process terminates: the operating system detaches its exit callbacks and runs each of them once, and the
        callback (libsystemd_stoprequest_process_exited) drops the entry. */
    method ProcessTerminates(pid: Pid)
      requires Valid()
      modifies this`entries, this`hooks
      ensures Valid() && ready == old(ready)
      ensures entries == Apply(old(entries), ProcessExited(pid)) && pid !in hooks
    {
      TakeEffect(entries, pid);
      var hooked := pid in hooks;
      hooks := hooks[pid := 0];
      if hooked {
        var taken := TakeEntry(pid);
      }
    }

    /** libsystemd_stoprequest_deinit: no exit callback into this module outlives it. */
    method Deinit()
      requires Valid()
      modifies this
      ensures Valid() && !ready && entries == [] && hooks == multiset{}
    {
      while entries != []
        invariant OnePerProcess(entries)
        invariant forall p: Pid :: hooks[p] == if Lookup(entries, p).Some? then 1 else 0
        decreases |entries|
      {
        TakeEffect(entries, entries[0].pid);
        hooks := hooks - multiset{entries[0].pid};
        entries := entries[1..];
      }
      ready := false;
      assert forall p: Pid :: hooks[p] == 0;
    }
  }
}
