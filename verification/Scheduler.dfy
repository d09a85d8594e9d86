/** The migration scheduler: a priority queue, a bounded set of active tasks and what becomes of every task. */
module Scheduler {
  import opened Common

  /** `ticket` tells task objects apart; it is the order in which they were accepted. */
  datatype Task = Task(ticket: nat, pid: nat, priority: nat)

  /**
   * The scheduler's fields, then its history: the tasks whose goroutine has not reported
   * yet, and all tasks ever accepted, started, or cancelled while pending.
   */
  datatype Sched = Sched(maxConcurrent: nat, pending: seq<Task>, active: map<nat, Task>, completed: seq<Task>,
                         migrated: nat, failed: nat,
                         running: set<Task>, accepted: set<Task>, started: set<Task>, cancelled: set<Task>)

  function Empty(maxConcurrent: nat): Sched {
    Sched(maxConcurrent, [], map[], [], 0, 0, {}, {}, {}, {})
  }

  function Tasks(s: seq<Task>): set<Task> {
    set t | t in s
  }

  predicate IsPending(s: Sched, pid: nat) {
    exists i :: 0 <= i < |s.pending| && s.pending[i].pid == pid
  }

  /** In front of the first task of lower priority. */
  function Placed(pending: seq<Task>, t: Task): seq<Task> {
    if pending == [] then [t]
    else if t.priority > pending[0].priority then [t] + pending
    else [pending[0]] + Placed(pending[1..], t)
  }

  function Without(pending: seq<Task>, pid: nat): seq<Task> {
    if pending == [] then []
    else if pending[0].pid == pid then pending[1..]
    else [pending[0]] + Without(pending[1..], pid)
  }

  datatype Step =
    | Add(pid: nat, priority: nat)
    | Cancel(pid: nat)
      // `order` is the order in which the active tasks are visited
    | CancelAll(order: seq<Task>)
    | Process
      // the goroutine of `task` reports success or failure
    | Finish(task: Task, ok: bool)

  function NewTask(s: Sched, pid: nat, priority: nat): Task {
    Task(|s.accepted|, pid, priority)
  }

  /** `AddTask`; a partition already queued or active is refused. */
  function Added(s: Sched, pid: nat, priority: nat): Sched {
    if pid in s.active || IsPending(s, pid) then s
    else
      var t := NewTask(s, pid, priority);
      s.(pending := Placed(s.pending, t), accepted := s.accepted + {t})
  }

  /** `CancelTask`; cancelling an active task does not stop its goroutine. */
  function Cancelled(s: Sched, pid: nat): Sched {
    if pid in s.active then
      s.(active := s.active - {pid}, completed := s.completed + [s.active[pid]], failed := s.failed + 1)
    else
      var left := Without(s.pending, pid);
      s.(pending := left, cancelled := s.cancelled + (Tasks(s.pending) - Tasks(left)))
  }

  function CancelledAll(s: Sched, order: seq<Task>): Sched {
    s.(active := map[], completed := s.completed + order, failed := s.failed + |order|,
       pending := [], cancelled := s.cancelled + Tasks(s.pending))
  }

  function StartCount(s: Sched): nat {
    var slots := s.maxConcurrent - |s.active|;
    if slots <= 0 then 0 else if slots < |s.pending| then slots else |s.pending|
  }

  function Activated(active: map<nat, Task>, ts: seq<Task>): map<nat, Task> {
    if ts == [] then active else Activated(active, ts[..|ts| - 1])[ts[|ts| - 1].pid := ts[|ts| - 1]]
  }

  /** `processQueue`: the front of the queue fills the free slots. */
  function Processed(s: Sched): Sched {
    var n := StartCount(s);
    var ts := s.pending[..n];
    s.(pending := s.pending[n..], active := Activated(s.active, ts),
       running := s.running + Tasks(ts), started := s.started + Tasks(ts))
  }

  /** `completeMigration`; whatever is active for the partition goes. */
  function Finished(s: Sched, task: Task, ok: bool): Sched {
    s.(completed := s.completed + [task], active := s.active - {task.pid},
       migrated := if ok then s.migrated + 1 else s.migrated, failed := if ok then s.failed else s.failed + 1,
       running := s.running - {task})
  }

  ghost predicate Enabled(s: Sched, step: Step) {
    match step
    case CancelAll(order) => |order| == |s.active| && Distinct(order) && forall t :: t in order <==> t in s.active.Values
    case Finish(task, ok) => task in s.running
    case _ => true
  }

  function Do(s: Sched, step: Step): Sched {
    match step
    case Add(pid, priority) => Added(s, pid, priority)
    case Cancel(pid) => Cancelled(s, pid)
    case CancelAll(order) => CancelledAll(s, order)
    case Process => Processed(s)
    case Finish(task, ok) => Finished(s, task, ok)
  }

  // ---- Queue order ----

  /** `a` is to start before `b`: higher priority, or equal and accepted earlier. */
  predicate Before(a: Task, b: Task) {
    a.priority > b.priority || (a.priority == b.priority && a.ticket < b.ticket)
  }

  predicate Ordered(s: seq<Task>) {
    forall i, j :: 0 <= i < j < |s| ==> Before(s[i], s[j])
  }

  /** No two of these tasks are for one partition. */
  predicate UniquePids(ts: set<Task>) {
    forall t, u :: t in ts && u in ts && t.pid == u.pid ==> t == u
  }

  lemma UniqueAdd(ts: set<Task>, t: Task)
    requires UniquePids(ts) && forall u :: u in ts ==> u.pid != t.pid
    ensures UniquePids(ts + {t})
  {
  }

  lemma UniqueSubset(some: set<Task>, ts: set<Task>)
    requires UniquePids(ts) && some <= ts
    ensures UniquePids(some)
  {
  }

  lemma UniqueOther(ts: set<Task>, t: Task)
    requires UniquePids(ts + {t}) && t !in ts
    ensures forall u :: u in ts ==> u.pid != t.pid
  {
    assert forall u :: u in ts ==> u in ts + {t};
  }

  lemma TasksCons(t: Task, s: seq<Task>)
    ensures Tasks([t] + s) == {t} + Tasks(s)
  {
  }

  lemma OrderedCons(t: Task, s: seq<Task>)
    requires Ordered(s) && forall u :: u in Tasks(s) ==> Before(t, u)
    ensures Ordered([t] + s)
  {
    assert forall j :: 0 <= j < |s| ==> s[j] in Tasks(s);
  }

  lemma OrderedTail(s: seq<Task>)
    requires Ordered(s) && s != []
    ensures Ordered(s[1..]) && Tasks(s) == {s[0]} + Tasks(s[1..])
    ensures s[0] !in Tasks(s[1..]) && forall u :: u in Tasks(s[1..]) ==> Before(s[0], u)
  {
    assert s == [s[0]] + s[1..];
    TasksCons(s[0], s[1..]);
    forall u | u in Tasks(s[1..]) ensures Before(s[0], u) {
      var k :| 0 <= k < |s[1..]| && s[1..][k] == u;
      assert s[k + 1] == u;
    }
  }

  lemma {:induction false} PlacedKeeps(pending: seq<Task>, t: Task)
    requires Ordered(pending) && forall u :: u in Tasks(pending) ==> u.ticket < t.ticket
    ensures Ordered(Placed(pending, t)) && Tasks(Placed(pending, t)) == Tasks(pending) + {t}
  {
    hide Ordered;
    if pending == [] {
      OrderedCons(t, pending);
      TasksCons(t, pending);
      assert [t] + pending == [t];
    } else {
      OrderedTail(pending);
      if t.priority > pending[0].priority {
        OrderedCons(t, pending);
        TasksCons(t, pending);
      } else {
        PlacedKeeps(pending[1..], t);
        OrderedCons(pending[0], Placed(pending[1..], t));
        TasksCons(pending[0], Placed(pending[1..], t));
      }
    }
  }

  lemma {:induction false} WithoutKeeps(pending: seq<Task>, pid: nat)
    requires Ordered(pending) && UniquePids(Tasks(pending))
    ensures Ordered(Without(pending, pid))
    ensures Tasks(Without(pending, pid)) == set t | t in Tasks(pending) && t.pid != pid
  {
    hide Ordered;
    if pending != [] {
      OrderedTail(pending);
      if pending[0].pid != pid {
        WithoutKeeps(pending[1..], pid);
        OrderedCons(pending[0], Without(pending[1..], pid));
        TasksCons(pending[0], Without(pending[1..], pid));
      }
    }
  }

  /** The order is total, so the queue is determined by the tasks in it: it is their stable sort. */
  lemma {:induction false} QueueDetermined(s: seq<Task>, t: seq<Task>)
    requires Ordered(s) && Ordered(t) && Tasks(s) == Tasks(t)
    ensures s == t
  {
    hide Ordered;
    if s == [] || t == [] {
      NoTasks(s);
      NoTasks(t);
    } else {
      OrderedTail(s);
      OrderedTail(t);
      assert s[0] == t[0];
      assert Tasks(s[1..]) == Tasks(s) - {s[0]} && Tasks(t[1..]) == Tasks(t) - {t[0]};
      QueueDetermined(s[1..], t[1..]);
    }
  }

  lemma NoTasks(s: seq<Task>)
    ensures Tasks(s) == {} <==> s == []
  {
    if s != [] {
      assert s[0] in Tasks(s);
    }
  }

  // ---- What every step keeps ----

  /** Accepted, and neither started nor cancelled. */
  function Waiting(s: Sched): set<Task> {
    s.accepted - s.started - s.cancelled
  }

  /** Task objects are told apart by their tickets, which count acceptances. */
  ghost predicate TicketsOk(s: Sched) {
    && (forall t :: t in s.accepted ==> t.ticket < |s.accepted|)
    && s.started <= s.accepted && s.cancelled <= s.accepted && s.running <= s.started
    && s.started !! s.cancelled
  }

  ghost predicate Inv(s: Sched) {
    && TicketsOk(s)
    && Ordered(s.pending)
    && Tasks(s.pending) == Waiting(s)
    && UniquePids(Waiting(s))
    && (forall t :: t in Waiting(s) ==> t.pid !in s.active)
    && (forall pid :: pid in s.active ==> s.active[pid].pid == pid && s.active[pid] in s.started)
    && |s.active| <= s.maxConcurrent
    && |s.completed| == s.migrated + s.failed
  }

  lemma PendingIs(s: Sched, pid: nat)
    ensures IsPending(s, pid) <==> exists t :: t in Tasks(s.pending) && t.pid == pid
  {
    if t :| t in Tasks(s.pending) && t.pid == pid {
      var i :| 0 <= i < |s.pending| && s.pending[i] == t;
    }
    if i :| 0 <= i < |s.pending| && s.pending[i].pid == pid {
      assert s.pending[i] in Tasks(s.pending);
    }
  }

  lemma NewTicket(s: Sched, pid: nat, priority: nat)
    requires TicketsOk(s)
    ensures var t := NewTask(s, pid, priority);
            var s' := s.(accepted := s.accepted + {t});
            TicketsOk(s') && Waiting(s') == Waiting(s) + {t}
    ensures forall u :: u in Waiting(s) ==> u.ticket < |s.accepted|
  {
    var t := NewTask(s, pid, priority);
    assert t !in s.accepted;
  }

  lemma AddKeeps(s: Sched, pid: nat, priority: nat)
    requires Inv(s)
    ensures Inv(Added(s, pid, priority))
  {
    hide Ordered, IsPending, Placed, UniquePids;
    if pid !in s.active && !IsPending(s, pid) {
      var t, s' := NewTask(s, pid, priority), Added(s, pid, priority);
      PendingIs(s, pid);
      hide Tasks, TicketsOk;
      NewTicket(s, pid, priority);
      PlacedKeeps(s.pending, t);
      UniqueAdd(Waiting(s), t);
    }
  }

  lemma CancelKeeps(s: Sched, pid: nat)
    requires Inv(s)
    ensures Inv(Cancelled(s, pid))
  {
    hide Ordered, Without;
    var s' := Cancelled(s, pid);
    if pid in s.active {
      FewerActive(s.active, pid);
    } else {
      WithoutKeeps(s.pending, pid);
      UniqueSubset(Tasks(s'.pending), Tasks(s.pending));
      assert Waiting(s') == Tasks(s'.pending);
    }
  }

  lemma CancelAllKeeps(s: Sched, order: seq<Task>)
    requires Inv(s)
    ensures Inv(CancelledAll(s, order))
  {
    var s' := CancelledAll(s, order);
    assert Tasks(s'.pending) == {} == Waiting(s');
  }

  /** `a` is `active` with one entry more for each of `ts`. */
  ghost predicate Extends(a: map<nat, Task>, active: map<nat, Task>, ts: set<Task>) {
    && (forall pid :: pid in active ==> pid in a && a[pid] == active[pid])
    && (forall t :: t in ts ==> t.pid in a && a[t.pid] == t)
    && (forall pid :: pid in a && pid !in active ==> a[pid] in ts && a[pid].pid == pid)
  }

  lemma ExtendsMore(a: map<nat, Task>, active: map<nat, Task>, ts: set<Task>, t: Task)
    requires Extends(a, active, ts) && t.pid !in active && forall u :: u in ts ==> u.pid != t.pid
    ensures t.pid !in a && Extends(a[t.pid := t], active, ts + {t})
  {
  }

  lemma {:induction false} ActivatedKeys(active: map<nat, Task>, ts: seq<Task>)
    requires Ordered(ts) && UniquePids(Tasks(ts)) && forall t :: t in Tasks(ts) ==> t.pid !in active
    ensures Extends(Activated(active, ts), active, Tasks(ts)) && |Activated(active, ts)| == |active| + |ts|
  {
    if ts == [] {
      NoTasks(ts);
    } else {
      hide Tasks, Ordered, UniquePids, Extends;
      var init, last := ts[..|ts| - 1], ts[|ts| - 1];
      TasksSnoc(ts);
      UniqueOther(Tasks(init), last);
      UniqueSubset(Tasks(init), Tasks(ts));
      ActivatedKeys(active, init);
      ExtendsMore(Activated(active, init), active, Tasks(init), last);
    }
  }

  lemma TasksSnoc(ts: seq<Task>)
    requires Ordered(ts) && ts != []
    ensures Tasks(ts) == Tasks(ts[..|ts| - 1]) + {ts[|ts| - 1]} && ts[|ts| - 1] !in Tasks(ts[..|ts| - 1])
    ensures Ordered(ts[..|ts| - 1])
  {
    var init, last := ts[..|ts| - 1], ts[|ts| - 1];
    assert ts == init + [last];
    forall t | t in Tasks(init) ensures t != last {
      var i :| 0 <= i < |init| && init[i] == t;
      assert Before(ts[i], last);
    }
  }

  lemma SplitQueue(pending: seq<Task>, n: nat)
    requires Ordered(pending) && n <= |pending|
    ensures Tasks(pending) == Tasks(pending[..n]) + Tasks(pending[n..])
    ensures Ordered(pending[..n]) && Ordered(pending[n..])
    ensures forall t, u :: t in Tasks(pending[..n]) && u in Tasks(pending[n..]) ==> Before(t, u)
  {
    assert pending == pending[..n] + pending[n..];
    forall t, u | t in Tasks(pending[..n]) && u in Tasks(pending[n..]) ensures Before(t, u) {
      var i :| 0 <= i < n && pending[..n][i] == t;
      var j :| 0 <= j < |pending| - n && pending[n..][j] == u;
      assert pending[i] == t && pending[n + j] == u;
    }
  }

  lemma ProcessKeeps(s: Sched)
    requires Inv(s)
    ensures Inv(Processed(s))
  {
    hide Ordered, Activated, Tasks, UniquePids;
    var n, s' := StartCount(s), Processed(s);
    var ts := s.pending[..n];
    SplitQueue(s.pending, n);
    UniqueSubset(Tasks(ts), Tasks(s.pending));
    UniqueSubset(Tasks(s'.pending), Tasks(s.pending));
    ActivatedKeys(s.active, ts);
    StartedLeave(Waiting(s), Tasks(ts), Tasks(s'.pending));
    assert Waiting(s') == Tasks(s'.pending);
    StartedPids(s, Tasks(ts), Tasks(s'.pending), s'.active);
  }

  lemma StartedLeave(waiting: set<Task>, ts: set<Task>, left: set<Task>)
    requires waiting == ts + left && forall t, u :: t in ts && u in left ==> Before(t, u)
    ensures left == waiting - ts
  {
    forall t | t in ts ensures t !in left {
      assert !Before(t, t);
    }
  }

  lemma StartedPids(s: Sched, ts: set<Task>, left: set<Task>, active: map<nat, Task>)
    requires Inv(s) && Waiting(s) == ts + left && ts !! left && Extends(active, s.active, ts)
    ensures forall t :: t in left ==> t.pid !in active
    ensures forall pid :: pid in active ==> active[pid].pid == pid && (active[pid] in s.started || active[pid] in ts)
  {
    forall t | t in left ensures t.pid !in active {
      assert t in Waiting(s);
    }
  }

  lemma SameWaiting(s: Sched, s': Sched)
    requires s.accepted == s'.accepted && s.started == s'.started && s.cancelled == s'.cancelled
    ensures Waiting(s) == Waiting(s')
  {
  }

  lemma FewerActive(active: map<nat, Task>, pid: nat)
    ensures |active - {pid}| <= |active|
    ensures pid in active ==> |active - {pid}| == |active| - 1
  {
    assert (active - {pid}).Keys == active.Keys - {pid};
    if pid !in active {
      assert active - {pid} == active;
    }
  }

  lemma FinishKeeps(s: Sched, task: Task, ok: bool)
    requires Inv(s)
    ensures Inv(Finished(s, task, ok))
  {
    hide Ordered, Tasks, UniquePids, Waiting;
    SameWaiting(s, Finished(s, task, ok));
    FewerActive(s.active, task.pid);
  }

  lemma StepKeeps(s: Sched, step: Step)
    requires Inv(s) && Enabled(s, step)
    ensures Inv(Do(s, step))
  {
    match step {
      case Add(pid, priority) => AddKeeps(s, pid, priority);
      case Cancel(pid) => CancelKeeps(s, pid);
      case CancelAll(order) => CancelAllKeeps(s, order);
      case Process => ProcessKeeps(s);
      case Finish(task, ok) => FinishKeeps(s, task, ok);
    }
  }

  // ---- Whole runs ----

  ghost predicate IsRun(ss: seq<Sched>, steps: seq<Step>) {
    && |ss| == |steps| + 1
    && ss[0] == Empty(ss[0].maxConcurrent)
    && forall i :: 0 <= i < |steps| ==> Enabled(ss[i], steps[i]) && ss[i + 1] == Do(ss[i], steps[i])
  }

  // ---- What each operation does to the queue and the active map ----

  /** The tasks for other partitions, in order. */
  function Others(pending: seq<Task>, pid: nat): seq<Task> {
    if pending == [] then []
    else Others(pending[..|pending| - 1], pid) + (if pending[|pending| - 1].pid == pid then [] else [pending[|pending| - 1]])
  }

  lemma {:induction false} OthersMembers(pending: seq<Task>, pid: nat, t: Task)
    ensures t in Others(pending, pid) <==> t in pending && t.pid != pid
  {
    if pending != [] {
      var init, last := pending[..|pending| - 1], pending[|pending| - 1];
      OthersMembers(init, pid, t);
      assert pending == init + [last];
    }
  }

  lemma {:induction false} OthersCons(t: Task, rest: seq<Task>, pid: nat)
    ensures Others([t] + rest, pid) == (if t.pid == pid then [] else [t]) + Others(rest, pid)
  {
    var all := [t] + rest;
    if rest == [] {
      assert all[..0] == [];
    } else {
      var init, last := rest[..|rest| - 1], rest[|rest| - 1];
      OthersCons(t, init, pid);
      assert all[..|all| - 1] == [t] + init;
      Assoc(if t.pid == pid then [] else [t], Others(init, pid), if last.pid == pid then [] else [last]);
    }
  }

  lemma {:induction false} OthersAll(pending: seq<Task>, pid: nat)
    requires forall i :: 0 <= i < |pending| ==> pending[i].pid != pid
    ensures Others(pending, pid) == pending
  {
    if pending != [] {
      var init, last := pending[..|pending| - 1], pending[|pending| - 1];
      OthersAll(init, pid);
      assert pending == init + [last];
    }
  }

  lemma {:induction false} WithoutIsOthers(pending: seq<Task>, pid: nat)
    requires Ordered(pending) && UniquePids(Tasks(pending))
    ensures Without(pending, pid) == Others(pending, pid)
  {
    if pending != [] {
      var t, rest := pending[0], pending[1..];
      assert pending == [t] + rest;
      OthersCons(t, rest, pid);
      OrderedTail(pending);
      UniqueSubset(Tasks(rest), Tasks(pending));
      if t.pid == pid {
        forall u | u in rest ensures u.pid != pid {
          assert u in Tasks(pending) && t in Tasks(pending);
          var k :| 0 <= k < |rest| && rest[k] == u;
          assert Before(pending[0], pending[k + 1]);
        }
        OthersAll(rest, pid);
        assert [] + rest == rest;
      } else {
        WithoutIsOthers(rest, pid);
      }
    }
  }

  /**
   * After a cancel no task for the partition is queued or active. Every other task is where it
   * was, and a queued one it took out counts as cancelled.
   */
  lemma CancelEffect(s: Sched, pid: nat)
    requires Inv(s)
    ensures var after := Cancelled(s, pid);
            && after.pending == Others(s.pending, pid) && after.active == s.active - {pid}
            && (forall t :: t in after.pending ==> t.pid != pid)
            && (forall t :: t in s.pending && t.pid == pid ==> t in after.cancelled)
            && after.completed == s.completed + (if pid in s.active then [s.active[pid]] else [])
            && after.failed == s.failed + (if pid in s.active then 1 else 0) && after.migrated == s.migrated
  {
    hide Ordered, UniquePids, Without, Others;
    forall t ensures t in Others(s.pending, pid) <==> t in s.pending && t.pid != pid {
      OthersMembers(s.pending, pid, t);
    }
    if pid in s.active {
      forall t | t in s.pending ensures t.pid != pid {
        assert t in Tasks(s.pending);
      }
      OthersAll(s.pending, pid);
    } else {
      WithoutIsOthers(s.pending, pid);
      assert s.active - {pid} == s.active;
      assert s.completed + [] == s.completed;
    }
  }

  lemma CancelledGrows(s: Sched, step: Step)
    ensures s.cancelled <= Do(s, step).cancelled
  {
  }

  lemma {:induction false} CancelledStays(ss: seq<Sched>, steps: seq<Step>, i: nat, j: nat)
    requires IsRun(ss, steps) && i <= j < |ss|
    ensures ss[i].cancelled <= ss[j].cancelled
    decreases j
  {
    hide Do, Enabled;
    if i < j {
      CancelledStays(ss, steps, i, j - 1);
      assert ss[j - 1 + 1] == Do(ss[j - 1], steps[j - 1]);
      CancelledGrows(ss[j - 1], steps[j - 1]);
    }
  }

  /** A task cancelled while pending never starts, and is never queued again. */
  lemma CancelledNeverStarts(ss: seq<Sched>, steps: seq<Step>, i: nat, j: nat, t: Task)
    requires IsRun(ss, steps) && i < j < |ss| && t in ss[i].pending
    requires steps[i].CancelAll? || (steps[i].Cancel? && steps[i].pid == t.pid)
    ensures t !in ss[j].started && t !in ss[j].pending
  {
    hide Ordered, UniquePids, Enabled, Added, Processed, Finished, Others, Without;
    RunKeeps(ss, steps, i);
    RunKeeps(ss, steps, j);
    assert ss[i + 1] == Do(ss[i], steps[i]);
    if steps[i].Cancel? {
      hide Inv;
      CancelEffect(ss[i], t.pid);
    }
    assert t in ss[i + 1].cancelled;
    CancelledStays(ss, steps, i + 1, j);
    NotAgain(ss[j], t);
  }

  lemma NotAgain(s: Sched, t: Task)
    requires Inv(s) && t in s.cancelled
    ensures t !in s.started && t !in s.pending
  {
    assert t in s.pending ==> t in Tasks(s.pending);
  }

  /** Where a new task stands: after every task of its priority or higher, before every lower one. */
  ghost predicate StandsAt(before: seq<Task>, after: seq<Task>, t: Task, i: nat) {
    && i < |after| && after[i] == t && after[..i] + after[i + 1..] == before
    && (forall k :: 0 <= k < i ==> after[k].priority >= t.priority)
    && (forall k :: i < k < |after| ==> after[k].priority < t.priority)
  }

  lemma {:induction false} PlacedStands(pending: seq<Task>, t: Task) returns (i: nat)
    requires Ordered(pending)
    ensures StandsAt(pending, Placed(pending, t), t, i)
  {
    hide Ordered, StandsAt;
    if pending == [] || t.priority > pending[0].priority {
      i := 0;
      assert Placed(pending, t) == [t] + pending;
      StandsFirst(pending, t);
    } else {
      OrderedTail(pending);
      i := PlacedStands(pending[1..], t);
      StandsBehind(pending[0], pending[1..], Placed(pending[1..], t), t, i);
      assert pending == [pending[0]] + pending[1..];
      i := i + 1;
    }
  }

  lemma StandsFirst(pending: seq<Task>, t: Task)
    requires Ordered(pending) && (pending == [] || t.priority > pending[0].priority)
    ensures StandsAt(pending, [t] + pending, t, 0)
  {
    var all := [t] + pending;
    assert all[..0] + all[1..] == pending;
    assert forall k :: 0 < k < |pending| ==> Before(pending[0], pending[k]);
  }

  lemma StandsBehind(x: Task, before: seq<Task>, after: seq<Task>, t: Task, i: nat)
    requires StandsAt(before, after, t, i) && x.priority >= t.priority
    ensures StandsAt([x] + before, [x] + after, t, i + 1)
  {
    var all := [x] + after;
    assert all[..i + 1] == [x] + after[..i] && all[i + 2..] == after[i + 1..];
    Assoc([x], after[..i], after[i + 1..]);
    assert forall k :: 0 < k < |all| ==> all[k] == after[k - 1];
  }

  lemma CancelAllEffect(s: Sched, order: seq<Task>)
    requires Enabled(s, CancelAll(order))
    ensures var after := CancelledAll(s, order);
            && after.pending == [] && after.active == map[] && after.completed == s.completed + order
            && after.failed == s.failed + |s.active| && after.migrated == s.migrated
  {
  }

  /** Processing starts the front of the queue until the queue is empty or the active map full. */
  lemma ProcessEffect(s: Sched)
    requires Inv(s)
    ensures var after, ts := Processed(s), s.pending[..StartCount(s)];
            && s.pending == ts + after.pending && (after.pending == [] || |after.active| == s.maxConcurrent)
            && |after.active| == |s.active| + |ts|
            && (forall pid :: pid in s.active ==> pid in after.active && after.active[pid] == s.active[pid])
            && (forall i :: 0 <= i < |ts| ==> ts[i].pid in after.active && after.active[ts[i].pid] == ts[i])
  {
    hide Ordered, Activated, Tasks, UniquePids;
    var ts := s.pending[..StartCount(s)];
    SplitQueue(s.pending, StartCount(s));
    UniqueSubset(Tasks(ts), Tasks(s.pending));
    ActivatedKeys(s.active, ts);
    AllTasks(ts);
  }

  lemma AllTasks(ts: seq<Task>)
    ensures forall i :: 0 <= i < |ts| ==> ts[i] in Tasks(ts)
  {
  }

  lemma EmptyInv(maxConcurrent: nat)
    ensures Inv(Empty(maxConcurrent))
  {
    assert Tasks([]) == {};
  }

  /**
   * In every run, cancels included: the queue is the stable sort by descending priority of
   * the tasks accepted and neither started nor cancelled, partitions are unique across queue
   * and active tasks, active tasks stay within the limit, and every completion is counted once.
   */
  lemma {:induction false} RunKeeps(ss: seq<Sched>, steps: seq<Step>, n: nat)
    requires IsRun(ss, steps) && n < |ss|
    ensures Inv(ss[n]) && ss[n].maxConcurrent == ss[0].maxConcurrent
  {
    hide Inv, Enabled;
    if n == 0 {
      EmptyInv(ss[0].maxConcurrent);
    } else {
      RunKeeps(ss, steps, n - 1);
      StepKeeps(ss[n - 1], steps[n - 1]);
    }
  }

  /** No task starts while one of higher priority, or an earlier one of equal priority, stays pending. */
  lemma NoOvertaking(ss: seq<Sched>, steps: seq<Step>, n: nat, t: Task, u: Task)
    requires IsRun(ss, steps) && n < |steps|
    requires t in ss[n + 1].started && t !in ss[n].started && u in ss[n + 1].pending
    ensures Before(t, u)
  {
    RunKeeps(ss, steps, n);
    var s := ss[n];
    assert ss[n + 1] == Do(s, steps[n]);
    hide Inv;
    match steps[n] {
      case Process =>
        OrderedQueue(s);
        SplitQueue(s.pending, StartCount(s));
        assert u in Tasks(s.pending[StartCount(s)..]);
      case _ =>
    }
  }

  lemma OrderedQueue(s: Sched)
    requires Inv(s)
    ensures Ordered(s.pending)
  {
  }

  // ---- Runs that never cancel an active task ----

  /** Every accepted task is in exactly one place, and in it once. */
  ghost predicate Placement(s: Sched) {
    && s.running == s.active.Values
    && Distinct(s.completed)
    && s.started == s.active.Values + Tasks(s.completed)
    && s.active.Values !! Tasks(s.completed)
  }

  /** The four places a task can be in, pairwise disjoint, make up everything accepted. */
  lemma OnePlaceEach(s: Sched)
    requires Inv(s) && Placement(s)
    ensures s.accepted == Tasks(s.pending) + s.active.Values + Tasks(s.completed) + s.cancelled
    ensures Tasks(s.pending) !! s.active.Values !! Tasks(s.completed) !! s.cancelled
  {
    hide Tasks, Ordered, UniquePids;
  }

  ghost predicate CancelsActive(s: Sched, step: Step) {
    || (step.Cancel? && step.pid in s.active)
    || (step.CancelAll? && s.active != map[])
  }

  /** A step keeps every task in one place exactly when it cancels no active task. */
  lemma StepKeepsPlacement(s: Sched, step: Step)
    requires Inv(s) && Enabled(s, step) && Placement(s)
    ensures Placement(Do(s, step)) <==> !CancelsActive(s, step)
  {
    if CancelsActive(s, step) {
      CancelPutsOnRecord(s, step);
      EarlyNotPlaced(Do(s, step));
      return;
    }
    match step {
      case Add(pid, priority) =>
      case Cancel(pid) =>
      case CancelAll(order) =>
        assert order == [];
        assert s.completed + order == s.completed;
      case Process =>
        ProcessPlacement(s);
      case Finish(task, ok) =>
        FinishPlacement(s, task, ok);
    }
  }

  lemma ProcessPlacement(s: Sched)
    requires Inv(s) && Placement(s)
    ensures Placement(Processed(s))
  {
    hide Activated, Ordered, UniquePids, Tasks, Extends, Distinct, TicketsOk;
    var ts := s.pending[..StartCount(s)];
    SplitQueue(s.pending, StartCount(s));
    UniqueSubset(Tasks(ts), Tasks(s.pending));
    ActivatedKeys(s.active, ts);
    ExtendedValues(Processed(s).active, s.active, Tasks(ts));
    StartedOnce(s.active.Values, Tasks(s.completed), s.started, Tasks(ts), Waiting(s));
  }

  lemma StartedOnce(active: set<Task>, completed: set<Task>, started: set<Task>, ts: set<Task>, waiting: set<Task>)
    requires started == active + completed && active !! completed && ts <= waiting && waiting !! started
    ensures started + ts == active + ts + completed && active + ts !! completed
  {
  }

  lemma ExtendedValues(a: map<nat, Task>, active: map<nat, Task>, ts: set<Task>)
    requires Extends(a, active, ts)
    ensures a.Values == active.Values + ts
  {
    forall t | t in ts ensures t in a.Values {
      assert t.pid in a && a[t.pid] == t;
    }
    forall t | t in active.Values ensures t in a.Values {
      var pid :| pid in active && active[pid] == t;
      assert pid in a && a[pid] == t;
    }
  }

  lemma FinishPlacement(s: Sched, task: Task, ok: bool)
    requires Inv(s) && Placement(s) && task in s.running
    ensures Placement(Finished(s, task, ok))
  {
    hide Ordered, UniquePids, Tasks, Distinct;
    RemovedValue(s, task);
    SnocTask(s.completed, task);
  }

  lemma RemovedValue(s: Sched, task: Task)
    requires Inv(s) && task in s.active.Values
    ensures (s.active - {task.pid}).Values == s.active.Values - {task}
  {
    hide Ordered, UniquePids, Tasks;
    var a := s.active - {task.pid};
    forall t | t in s.active.Values - {task} ensures t in a.Values {
      var pid :| pid in s.active && s.active[pid] == t;
      assert pid in a && a[pid] == t;
    }
  }

  lemma SnocTask(completed: seq<Task>, task: Task)
    requires Distinct(completed) && task !in Tasks(completed)
    ensures Distinct(completed + [task]) && Tasks(completed + [task]) == Tasks(completed) + {task}
  {
  }

  /** A task is on record while its goroutine is still running, or is on record twice. */
  ghost predicate OnRecordEarly(s: Sched) {
    !Distinct(s.completed) || Tasks(s.completed) * s.running != {}
  }

  lemma EarlyNotPlaced(s: Sched)
    requires OnRecordEarly(s)
    ensures !Placement(s)
  {
  }

  lemma CancelPutsOnRecord(s: Sched, step: Step)
    requires Inv(s) && Enabled(s, step) && Placement(s) && CancelsActive(s, step)
    ensures OnRecordEarly(Do(s, step))
  {
    hide Ordered, UniquePids, Waiting, TicketsOk, Distinct;
    var pid :| pid in s.active && (step.Cancel? ==> step.pid == pid);
    var t, after := s.active[pid], Do(s, step);
    assert t in s.active.Values && t in after.running;
    assert t in Tasks(after.completed) by {
      if step.Cancel? {
        assert after.completed == s.completed + [t];
      } else {
        assert t in step.order && after.completed == s.completed + step.order;
      }
    }
    assert t in Tasks(after.completed) * after.running;
  }

  /** That never mends. */
  lemma EarlyStays(s: Sched, step: Step)
    requires Enabled(s, step) && OnRecordEarly(s)
    ensures OnRecordEarly(Do(s, step))
  {
    hide Added, Activated, Without;
    var after := Do(s, step);
    AddKeepsRecord(s, step);
    assert s.completed <= after.completed;
    RecordGrows(s.completed, after.completed);
    if t :| t in Tasks(s.completed) * s.running {
      if t in after.running {
        assert t in Tasks(after.completed) * after.running;
      } else {
        assert after.completed == s.completed + [t];
        RepeatedTask(s.completed, t);
      }
    }
  }

  lemma AddKeepsRecord(s: Sched, step: Step)
    ensures step.Add? ==> var after := Added(s, step.pid, step.priority);
              after.completed == s.completed && after.running == s.running
  {
  }

  lemma RecordGrows(a: seq<Task>, b: seq<Task>)
    requires a <= b
    ensures Tasks(a) <= Tasks(b) && (!Distinct(a) ==> !Distinct(b))
  {
    if !Distinct(a) {
      var i, j :| 0 <= i < j < |a| && a[i] == a[j];
      assert b[i] == b[j];
    }
  }

  lemma RepeatedTask(a: seq<Task>, t: Task)
    requires t in a
    ensures !Distinct(a + [t])
  {
    var i :| 0 <= i < |a| && a[i] == t;
    assert (a + [t])[i] == (a + [t])[|a|];
  }

  /** In a run every accepted task is in exactly one place exactly as long as no active task has been cancelled. */
  lemma {:induction false} RunPlacement(ss: seq<Sched>, steps: seq<Step>, n: nat)
    requires IsRun(ss, steps) && n < |ss|
    ensures Placement(ss[n]) <==> forall i :: 0 <= i < n ==> !CancelsActive(ss[i], steps[i])
    ensures Placement(ss[n]) || OnRecordEarly(ss[n])
  {
    hide Inv, Placement, Enabled, CancelsActive, OnRecordEarly;
    if n == 0 {
      EmptyPlacement(ss[0].maxConcurrent);
    } else {
      RunPlacement(ss, steps, n - 1);
      RunKeeps(ss, steps, n - 1);
      var s, step := ss[n - 1], steps[n - 1];
      assert Enabled(s, step) && ss[n - 1 + 1] == Do(s, step);
      if Placement(s) {
        StepKeepsPlacement(s, step);
        if CancelsActive(s, step) {
          CancelPutsOnRecord(s, step);
        }
      } else {
        EarlyStays(s, step);
        EarlyNotPlaced(ss[n]);
      }
    }
  }

  // ---- Goroutines ----

  /** Running, and no longer counted as active. */
  function Dropped(s: Sched): set<Task> {
    s.running - s.active.Values
  }

  ghost predicate Counted(s: Sched) {
    s.active.Values <= s.running
  }

  /** What a step drops: a cancelled active task, or the one a late report takes for its own. */
  function DroppedBy(s: Sched, step: Step): set<Task> {
    match step
    case Cancel(pid) => if pid in s.active then {s.active[pid]} else {}
    case CancelAll(_) => s.active.Values
    case Finish(task, _) => if task.pid in s.active && s.active[task.pid] != task then {s.active[task.pid]} else {}
    case _ => {}
  }

  lemma RemovedFrom(m: map<nat, Task>, pid: nat)
    requires forall q :: q in m ==> m[q].pid == q
    ensures (m - {pid}).Values == m.Values - (if pid in m then {m[pid]} else {})
  {
    var rest := m - {pid};
    forall t | t in m.Values - (if pid in m then {m[pid]} else {}) ensures t in rest.Values {
      var q :| q in m && m[q] == t;
      assert q in rest && rest[q] == t;
    }
  }

  /** Every step keeps the active tasks running, and changes the dropped ones by what it drops and what reports. */
  lemma StepDrops(s: Sched, step: Step)
    requires Inv(s) && Enabled(s, step) && Counted(s)
    ensures var after := Do(s, step);
            && Counted(after)
            && Dropped(after) == Dropped(s) + DroppedBy(s, step) - (if step.Finish? then {step.task} else {})
  {
    hide Inv;
    match step {
      case Add(pid, priority) => AddDropsNothing(s, pid, priority);
      case Cancel(pid) => CancelDrops(s, pid);
      case CancelAll(order) => CancelAllDrops(s, order);
      case Process => ProcessDropsNothing(s);
      case Finish(task, ok) => FinishDrops(s, task, ok);
    }
  }

  lemma AddDropsNothing(s: Sched, pid: nat, priority: nat)
    ensures Added(s, pid, priority).running == s.running && Added(s, pid, priority).active == s.active
  {
  }

  lemma ActiveUnderPid(s: Sched)
    requires Inv(s)
    ensures forall pid :: pid in s.active ==> s.active[pid].pid == pid
  {
  }

  lemma CancelDrops(s: Sched, pid: nat)
    requires Inv(s) && Counted(s)
    ensures Counted(Cancelled(s, pid)) && Dropped(Cancelled(s, pid)) == Dropped(s) + DroppedBy(s, Cancel(pid)) - {}
  {
    ActiveUnderPid(s);
    hide Inv, Without, Tasks;
    if pid in s.active {
      RemovedFrom(s.active, pid);
      assert s.active[pid] in s.active.Values;
      LessActive(s.running, s.active.Values, {s.active[pid]});
    }
  }

  lemma LessActive(running: set<Task>, active: set<Task>, gone: set<Task>)
    requires gone <= active <= running
    ensures running - (active - gone) == running - active + gone
  {
  }

  lemma CancelAllDrops(s: Sched, order: seq<Task>)
    requires Counted(s)
    ensures Counted(CancelledAll(s, order))
    ensures Dropped(CancelledAll(s, order)) == Dropped(s) + DroppedBy(s, CancelAll(order)) - {}
  {
    hide Tasks;
    assert CancelledAll(s, order).active.Values == {};
    assert s.running - {} == s.running - s.active.Values + s.active.Values;
  }

  lemma FinishDrops(s: Sched, task: Task, ok: bool)
    requires Inv(s) && Counted(s)
    ensures Counted(Finished(s, task, ok))
    ensures Dropped(Finished(s, task, ok)) == Dropped(s) + DroppedBy(s, Finish(task, ok)) - {task}
  {
    ActiveUnderPid(s);
    hide Inv;
    RemovedFrom(s.active, task.pid);
    var gone := if task.pid in s.active then {s.active[task.pid]} else {};
    assert gone <= s.active.Values;
    assert task in s.active.Values ==> gone == {task};
    LateReport(s.running, s.active.Values, gone, task);
  }

  lemma LateReport(running: set<Task>, active: set<Task>, gone: set<Task>, task: Task)
    requires gone <= active <= running && (task in active ==> gone == {task})
    ensures active - gone <= running - {task}
    ensures running - {task} - (active - gone) == running - active + gone - {task}
  {
  }

  lemma ProcessDropsNothing(s: Sched)
    requires Inv(s) && Counted(s)
    ensures Counted(Processed(s)) && Dropped(Processed(s)) == Dropped(s)
  {
    hide Activated, Ordered, UniquePids, Tasks, Extends;
    var ts := s.pending[..StartCount(s)];
    SplitQueue(s.pending, StartCount(s));
    UniqueSubset(Tasks(ts), Tasks(s.pending));
    ActivatedKeys(s.active, ts);
    ExtendedValues(Processed(s).active, s.active, Tasks(ts));
    assert Tasks(ts) !! s.running;
  }

  /**
   * In every run the goroutines are the active tasks and the dropped ones. The limit holds
   * exactly when there is room for the dropped ones beside the active map.
   */
  lemma {:induction false} RunningWithinLimit(ss: seq<Sched>, steps: seq<Step>, n: nat)
    requires IsRun(ss, steps) && n < |ss|
    ensures var s := ss[n];
            && Counted(s)
            && |s.running| == |s.active| + |Dropped(s)|
            && (|s.running| <= s.maxConcurrent <==> |Dropped(s)| <= s.maxConcurrent - |s.active|)
  {
    hide Enabled, Do, Ordered, UniquePids, Waiting, TicketsOk, Tasks;
    RunKeeps(ss, steps, n);
    if n == 0 {
      assert ss[0].active.Values == {};
    } else {
      RunningWithinLimit(ss, steps, n - 1);
      RunKeeps(ss, steps, n - 1);
      assert Enabled(ss[n - 1], steps[n - 1]) && ss[n - 1 + 1] == Do(ss[n - 1], steps[n - 1]);
      StepDrops(ss[n - 1], steps[n - 1]);
    }
    ValuesCount(ss[n].active);
    SplitSize(ss[n].running, ss[n].active.Values);
  }

  lemma SplitSize(all: set<Task>, some: set<Task>)
    requires some <= all
    ensures |all| == |some| + |all - some|
  {
    assert all == some + (all - some);
  }

  /** A task is filed under its own partition, so there are as many active tasks as partitions. */
  lemma {:induction false} ValuesCount(m: map<nat, Task>)
    requires forall pid :: pid in m ==> m[pid].pid == pid
    ensures |m.Values| == |m|
    decreases |m|
  {
    if m == map[] {
      assert m.Values == {};
    } else {
      var pid :| pid in m;
      var rest := m - {pid};
      assert |rest| == |m| - 1 by { assert rest.Keys == m.Keys - {pid}; assert |m.Keys| == |m| && |rest.Keys| == |rest|; }
      ValuesCount(rest);
      RemovedFrom(m, pid);
      assert m[pid] in m.Values;
    }
  }

  /** As long as no active task has been cancelled, nothing has been dropped. */
  lemma NothingDropped(ss: seq<Sched>, steps: seq<Step>, n: nat)
    requires IsRun(ss, steps) && n < |ss|
    requires forall i :: 0 <= i < n ==> !CancelsActive(ss[i], steps[i])
    ensures Dropped(ss[n]) == {} && |ss[n].running| <= ss[n].maxConcurrent
  {
    hide Enabled, CancelsActive, Do, Inv;
    RunPlacement(ss, steps, n);
    RunningWithinLimit(ss, steps, n);
    RunKeeps(ss, steps, n);
    assert Dropped(ss[n]) == {};
    WithinLimit(ss[n]);
  }

  lemma WithinLimit(s: Sched)
    requires Inv(s)
    ensures |s.active| <= s.maxConcurrent
  {
  }

  lemma EmptyPlacement(maxConcurrent: nat)
    ensures Placement(Empty(maxConcurrent))
  {
    var s := Empty(maxConcurrent);
    assert s.active.Values == {} && Tasks(s.completed) == {};
  }

  /**
   * Cancelling an active task breaks both, whatever the limit: its goroutine still reports, so
   * one task is recorded twice, once as failed and once as migrated.
   */
  lemma CancelledTaskCountsTwice(max: nat) returns (ss: seq<Sched>, steps: seq<Step>)
    requires max > 0
    ensures IsRun(ss, steps) && |ss| == 5 && ss[0].maxConcurrent == max
    ensures ss[4].completed == [Task(0, 7, 1), Task(0, 7, 1)] && ss[4].failed == 1 && ss[4].migrated == 1
    ensures ss[4].accepted == {Task(0, 7, 1)}
  {
    ss, steps := CancelledRunning(max);
    hide IsRun;
    RunExtends(ss, steps, Finish(Task(0, 7, 1), true));
    ss, steps := ss + [Do(ss[3], Finish(Task(0, 7, 1), true))], steps + [Finish(Task(0, 7, 1), true)];
  }

  /** An idle scheduler whose goroutines have tickets already given out. */
  ghost predicate Idle(s: Sched) {
    s.pending == [] && s.active == map[] && forall t :: t in s.running + s.accepted ==> t.ticket < |s.accepted|
  }

  /** And whatever the limit, any number of goroutines run: add, start and cancel that often. */
  lemma {:induction false} CancelledTasksExceedLimit(max: nat, k: nat) returns (ss: seq<Sched>, steps: seq<Step>)
    requires max > 0
    ensures IsRun(ss, steps) && |steps| == 3 * k && ss[0].maxConcurrent == max
    ensures ss[3 * k].maxConcurrent == max && Idle(ss[3 * k]) && |ss[3 * k].running| == k
  {
    if k == 0 {
      ss, steps := [Empty(max)], [];
    } else {
      ss, steps := CancelledTasksExceedLimit(max, k - 1);
      ss, steps := StartAndCancel(ss, steps);
    }
  }

  lemma StartAndCancel(ss: seq<Sched>, steps: seq<Step>) returns (ss': seq<Sched>, steps': seq<Step>)
    requires IsRun(ss, steps) && Idle(ss[|steps|]) && ss[|steps|].maxConcurrent > 0
    ensures IsRun(ss', steps') && |steps'| == |steps| + 3 && ss'[0] == ss[0]
    ensures var s, s' := ss[|steps|], ss'[|steps'|];
            s'.maxConcurrent == s.maxConcurrent && Idle(s') && |s'.running| == |s.running| + 1
  {
    hide IsRun, Added, Processed, Cancelled, Idle;
    var n := |steps|;
    RunLength(ss, steps);
    IdleRound(ss[n]);
    RunExtends(ss, steps, Add(7, 1));
    ss', steps' := ss + [Do(ss[n], Add(7, 1))], steps + [Add(7, 1)];
    RunExtends(ss', steps', Process);
    ss', steps' := ss' + [Do(ss'[n + 1], Process)], steps' + [Process];
    RunExtends(ss', steps', Cancel(7));
    ss', steps' := ss' + [Do(ss'[n + 2], Cancel(7))], steps' + [Cancel(7)];
  }

  lemma IdleRound(s: Sched)
    requires Idle(s) && s.maxConcurrent > 0
    ensures var s' := Cancelled(Processed(Added(s, 7, 1)), 7);
            s'.maxConcurrent == s.maxConcurrent && Idle(s') && |s'.running| == |s.running| + 1
  {
    var t := NewTask(s, 7, 1);
    AddedFirst(s, 7, 1);
    hide Added;
    ProcessedFirst(Added(s, 7, 1), t);
    hide Processed;
    assert t !in s.running && t !in s.accepted;
  }

  lemma RunLength(ss: seq<Sched>, steps: seq<Step>)
    requires IsRun(ss, steps)
    ensures |ss| == |steps| + 1
  {
  }

  lemma RunExtends(ss: seq<Sched>, steps: seq<Step>, step: Step)
    requires IsRun(ss, steps) && Enabled(ss[|steps|], step)
    ensures IsRun(ss + [Do(ss[|steps|], step)], steps + [step])
  {
    hide Enabled, Do;
  }

  /** Added, started and cancelled: off the active map and still running. */
  lemma CancelledRunning(max: nat) returns (ss: seq<Sched>, steps: seq<Step>)
    requires max > 0
    ensures IsRun(ss, steps) && |ss| == 4 && |steps| == 3 && ss[0].maxConcurrent == max
    ensures var t := Task(0, 7, 1);
            ss[3] == Empty(max).(completed := [t], failed := 1, running := {t}, started := {t}, accepted := {t})
  {
    var t := Task(0, 7, 1);
    ss, steps := [Empty(max)], [];
    assert IsRun(ss, steps);
    hide IsRun;
    AddedFirst(ss[0], 7, 1);
    hide Added;
    RunExtends(ss, steps, Add(7, 1));
    ss, steps := ss + [Do(ss[0], Add(7, 1))], steps + [Add(7, 1)];
    ProcessedFirst(ss[1], t);
    hide Processed;
    RunExtends(ss, steps, Process);
    ss, steps := ss + [Do(ss[1], Process)], steps + [Process];
    RunExtends(ss, steps, Cancel(7));
    ss, steps := ss + [Do(ss[2], Cancel(7))], steps + [Cancel(7)];
  }

  lemma AddedFirst(s: Sched, pid: nat, priority: nat)
    requires s.pending == [] && s.active == map[]
    ensures var t := NewTask(s, pid, priority);
            Added(s, pid, priority) == s.(pending := [t], accepted := s.accepted + {t})
  {
  }

  lemma ProcessedFirst(s: Sched, t: Task)
    requires s.pending == [t] && s.active == map[] && s.maxConcurrent > 0
    ensures Processed(s) == s.(pending := [], active := map[t.pid := t], running := s.running + {t}, started := s.started + {t})
  {
    assert [t][..1] == [t] && [t][1..] == [] && [t][..0] == [];
    assert Tasks([t]) == {t};
    assert Activated(map[], []) == map[];
  }
}
