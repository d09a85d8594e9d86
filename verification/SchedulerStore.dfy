/** The scheduler as an object whose fields every method updates in place. */
module SchedulerStore {
  import opened Common
  import opened Scheduler

  const DEFAULT_MAX_CONCURRENT: nat := 4

  class MigrationScheduler {
    var maxConcurrent: nat
    var pending: seq<Task>
    var active: map<nat, Task>
    var completed: seq<Task>
    var migrated: nat
    var failed: nat
    var nextTicket: nat
    ghost var running: set<Task>
    ghost var accepted: set<Task>
    ghost var started: set<Task>
    ghost var cancelled: set<Task>

    ghost function View(): Sched
      reads this
    {
      Sched(maxConcurrent, pending, active, completed, migrated, failed, running, accepted, started, cancelled)
    }

    ghost predicate Valid()
      reads this
    {
      Inv(View()) && nextTicket == |accepted|
    }

    constructor ()
      ensures Valid() && View() == Empty(DEFAULT_MAX_CONCURRENT) && maxConcurrent == 4
    {
      hide Inv;
      maxConcurrent, pending, active, completed := DEFAULT_MAX_CONCURRENT, [], map[], [];
      migrated, failed, nextTicket := 0, 0, 0;
      running, accepted, started, cancelled := {}, {}, {}, {};
      new;
      EmptyInv(DEFAULT_MAX_CONCURRENT);
    }

    method AddTask(pid: nat, priority: nat) returns (ok: bool)
      requires Valid()
      modifies this
      ensures Valid() && View() == Added(old(View()), pid, priority)
      ensures ok <==> pid !in old(active) && !IsPending(old(View()), pid)
      ensures !ok ==> View() == old(View())
      ensures ok ==> active == old(active) && exists i, ticket: nat :: StandsAt(old(pending), pending, Task(ticket, pid, priority), i)
    {
      hide Inv;
      AddKeeps(View(), pid, priority);
      if pid in active {
        return false;
      }
      for i := 0 to |pending|
        invariant View() == old(View()) && nextTicket == old(nextTicket)
        invariant forall k :: 0 <= k < i ==> pending[k].pid != pid
      {
        if pending[i].pid == pid {
          return false;
        }
      }
      var task := Task(nextTicket, pid, priority);
      ghost var at := PlacedStands(pending, task) by { InvOrdered(View()); }
      NewTicket(View(), pid, priority) by { InvTickets(View()); }
      Insert(task);
      accepted := accepted + {task};
      nextTicket := nextTicket + 1;
      return true;
    }

    /** In front of the first task of lower priority. */
    method Insert(task: Task)
      modifies this`pending
      ensures pending == Placed(old(pending), task)
    {
      var i := 0;
      while i < |pending| && task.priority <= pending[i].priority
        invariant i <= |pending|
        invariant forall k :: 0 <= k < i ==> task.priority <= pending[k].priority
      {
        i := i + 1;
      }
      PlacedAt(pending, task, i);
      pending := pending[..i] + [task] + pending[i..];
    }

    method CancelTask(pid: nat) returns (ok: bool)
      requires Valid()
      modifies this
      ensures Valid() && View() == Cancelled(old(View()), pid)
      ensures ok <==> pid in old(active) || IsPending(old(View()), pid)
      ensures pid !in active && forall t :: t in pending ==> t.pid != pid
      ensures pending == Others(old(pending), pid) && active == old(active) - {pid}
      ensures completed == old(completed) + (if pid in old(active) then [old(active)[pid]] else [])
      ensures failed == old(failed) + (if pid in old(active) then 1 else 0) && migrated == old(migrated)
    {
      hide Inv, Others;
      CancelEffect(View(), pid);
      CancelKeeps(View(), pid);
      if pid in active {
        completed := completed + [active[pid]];
        active := active - {pid};
        failed := failed + 1;
        return true;
      }
      for i := 0 to |pending|
        invariant View() == old(View()) && nextTicket == old(nextTicket)
        invariant forall k :: 0 <= k < i ==> pending[k].pid != pid
      {
        if pending[i].pid == pid {
          WithoutAt(pending, pid, i);
          cancelled := cancelled + (Tasks(pending) - Tasks(Without(pending, pid)));
          pending := pending[..i] + pending[i + 1..];
          return true;
        }
      }
      WithoutNone(pending, pid);
      assert cancelled + (Tasks(pending) - Tasks(pending)) == cancelled;
      return false;
    }

    method CancelAllTasks() returns (ghost order: seq<Task>)
      requires Valid()
      modifies this
      ensures Enabled(old(View()), CancelAll(order))
      ensures Valid() && View() == CancelledAll(old(View()), order)
      ensures pending == [] && active == map[] && completed == old(completed) + order
      ensures failed == old(failed) + |old(active)| && migrated == old(migrated)
    {
      hide Distinct, CancelledAll, Inv, Cancelling, Enabled;
      ghost var before := View();
      CancelsNothing(before);
      order := [];
      while active != map[]
        invariant Cancelling(before, View(), order) && nextTicket == old(nextTicket)
        decreases |active|
      {
        assert active.Keys != {} by { assert active.Keys == {} ==> active == map[]; }
        var pid :| pid in active;
        var task := active[pid];
        CancelsOneMore(before, View(), order, pid);
        completed := completed + [task];
        order := order + [task];
        active := active - {pid};
        failed := failed + 1;
      }
      assert active == map[];
      CancelsAllOf(before, View(), order);
      CancelAllKeeps(before, order);
      CancelAllEffect(before, order);
      cancelled := cancelled + Tasks(pending);
      pending := [];
    }

    /** `processQueue`: take as many tasks from the front as there are free slots, then mark them active. */
    method ProcessQueue() returns (tasksToStart: seq<Task>)
      requires Valid()
      modifies this
      ensures Valid() && View() == Processed(old(View()))
      ensures tasksToStart + pending == old(pending) && (pending == [] || |active| == maxConcurrent == old(maxConcurrent))
      ensures |active| == |old(active)| + |tasksToStart|
      ensures forall pid :: pid in old(active) ==> pid in active && active[pid] == old(active)[pid]
      ensures forall i :: 0 <= i < |tasksToStart| ==> tasksToStart[i].pid in active && active[tasksToStart[i].pid] == tasksToStart[i]
    {
      hide Inv, Activated, Tasks;
      ghost var before := View();
      ProcessKeeps(before);
      tasksToStart := [];
      var availableSlots := maxConcurrent - |active|;
      if availableSlots <= 0 || |pending| == 0 {
        NothingStarted(before);
        ProcessEffect(before);
        return;
      }
      var i := 0;
      while i < availableSlots && i < |pending|
        invariant 0 <= i <= |pending| && i <= availableSlots && tasksToStart == pending[..i] && View() == old(View())
        invariant nextTicket == old(nextTicket)
      {
        tasksToStart := tasksToStart + [pending[i]];
        i := i + 1;
      }
      pending := pending[|tasksToStart|..];
      Activate(tasksToStart);
      running := running + Tasks(tasksToStart);
      started := started + Tasks(tasksToStart);
      ProcessEffect(before);
    }

    method Activate(tasks: seq<Task>)
      modifies this`active
      ensures active == Activated(old(active), tasks)
    {
      hide Activated;
      ActivatedNone(active);
      for k := 0 to |tasks|
        invariant active == Activated(old(active), tasks[..k])
      {
        ActivatedOneMore(old(active), tasks, k);
        active := active[tasks[k].pid := tasks[k]];
      }
      assert tasks[..|tasks|] == tasks;
    }

    method CompleteMigration(task: Task, ok: bool)
      requires Valid() && task in running
      modifies this
      ensures Valid() && View() == Finished(old(View()), task, ok)
      ensures completed == old(completed) + [task] && active == old(active) - {task.pid} && pending == old(pending)
      ensures migrated == old(migrated) + (if ok then 1 else 0) && failed == old(failed) + (if ok then 0 else 1)
    {
      hide Inv;
      FinishKeeps(View(), task, ok);
      if ok {
        migrated := migrated + 1;
      } else {
        failed := failed + 1;
      }
      completed := completed + [task];
      active := active - {task.pid};
      running := running - {task};
    }
  }

  lemma InvOrdered(s: Sched)
    requires Inv(s)
    ensures Ordered(s.pending)
  {
  }

  lemma InvTickets(s: Sched)
    requires Inv(s)
    ensures TicketsOk(s)
  {
  }

  lemma {:induction false} PlacedAt(pending: seq<Task>, t: Task, i: nat)
    requires i <= |pending| && (i < |pending| ==> t.priority > pending[i].priority)
    requires forall k :: 0 <= k < i ==> t.priority <= pending[k].priority
    ensures Placed(pending, t) == pending[..i] + [t] + pending[i..]
  {
    if i > 0 {
      PlacedAt(pending[1..], t, i - 1);
      assert pending[..i] + [t] + pending[i..] == [pending[0]] + (pending[1..][..i - 1] + [t] + pending[1..][i - 1..]);
    }
  }

  lemma {:induction false} WithoutAt(pending: seq<Task>, pid: nat, i: nat)
    requires i < |pending| && pending[i].pid == pid && forall k :: 0 <= k < i ==> pending[k].pid != pid
    ensures Without(pending, pid) == pending[..i] + pending[i + 1..]
  {
    if i > 0 {
      WithoutAt(pending[1..], pid, i - 1);
      assert pending[..i] + pending[i + 1..] == [pending[0]] + (pending[1..][..i - 1] + pending[1..][i..]);
    }
  }

  lemma {:induction false} WithoutNone(pending: seq<Task>, pid: nat)
    requires forall k :: 0 <= k < |pending| ==> pending[k].pid != pid
    ensures Without(pending, pid) == pending
  {
    if pending != [] {
      WithoutNone(pending[1..], pid);
    }
  }

  /** Half way through `CancelAllTasks`: the tasks in `order` have been moved to the completed ones. */
  ghost predicate Cancelling(before: Sched, now: Sched, order: seq<Task>) {
    && now == before.(active := now.active, completed := before.completed + order, failed := before.failed + |order|)
    && (forall pid :: pid in before.active ==> before.active[pid].pid == pid)
    && (forall pid :: pid in now.active ==> pid in before.active && now.active[pid] == before.active[pid])
    && (forall t :: t in order <==> t.pid in before.active && t.pid !in now.active && before.active[t.pid] == t)
    && |order| + |now.active| == |before.active| && Distinct(order)
  }

  lemma CancelsNothing(s: Sched)
    requires Inv(s)
    ensures Cancelling(s, s, [])
  {
    assert s.completed + [] == s.completed;
  }

  lemma CancelsOneMore(before: Sched, now: Sched, order: seq<Task>, pid: nat)
    requires Cancelling(before, now, order) && pid in now.active
    ensures Cancelling(before, now.(active := now.active - {pid}, completed := now.completed + [now.active[pid]],
                                    failed := now.failed + 1), order + [now.active[pid]])
    ensures |now.active - {pid}| < |now.active|
  {
    FewerActive(now.active, pid);
    var task := now.active[pid];
    assert task !in order;
    assert before.completed + (order + [task]) == before.completed + order + [task];
    forall t
      ensures t in order + [task] <==>
              t.pid in before.active && t.pid !in now.active - {pid} && before.active[t.pid] == t
    {
    }
  }

  lemma CancelsAllOf(before: Sched, now: Sched, order: seq<Task>)
    requires Cancelling(before, now, order) && now.active == map[]
    ensures Enabled(before, CancelAll(order))
    ensures now.pending == before.pending && now.cancelled == before.cancelled && now.accepted == before.accepted
    ensures CancelledAll(before, order) == now.(pending := [], cancelled := before.cancelled + Tasks(before.pending))
  {
    ValuesByPid(before.active, order);
  }

  lemma ValuesByPid(all: map<nat, Task>, order: seq<Task>)
    requires forall pid :: pid in all ==> all[pid].pid == pid
    requires forall t :: t in order <==> t.pid in all && all[t.pid] == t
    ensures forall t :: t in order <==> t in all.Values
  {
    forall t | t in order ensures t in all.Values {
      assert all[t.pid] == t;
    }
  }

  lemma NothingStarted(s: Sched)
    requires StartCount(s) == 0
    ensures Processed(s) == s && s.pending[..0] == []
  {
    assert s.pending[0..] == s.pending;
    assert Tasks([]) == {};
  }

  lemma ActivatedNone(active: map<nat, Task>)
    ensures Activated(active, []) == active
  {
  }

  lemma ActivatedOneMore(active: map<nat, Task>, ts: seq<Task>, k: nat)
    requires k < |ts|
    ensures Activated(active, ts[..k + 1]) == Activated(active, ts[..k])[ts[k].pid := ts[k]]
  {
    assert ts[..k + 1][..k] == ts[..k];
  }
}
