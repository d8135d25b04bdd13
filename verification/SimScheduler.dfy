/** The order in which the scheduler promises to run tasks. */
module SimScheduler {
  import opened SimModel

  /** A task with the time it was accepted for. */
  datatype Entry = Entry(t: nat, task: Task)

  /** Tasks accepted for time t, first come first served. */
  function Due(added: seq<Entry>, t: nat): seq<Task> {
    if added == [] then []
    else Due(added[..|added| - 1], t) + (if added[|added| - 1].t == t then [added[|added| - 1].task] else [])
  }

  function At(t: nat, tasks: seq<Task>): seq<Entry> {
    seq(|tasks|, i requires 0 <= i < |tasks| => Entry(t, tasks[i]))
  }

  /** Everything accepted for times before t, in order of time and then of acceptance. */
  function Before(added: seq<Entry>, t: nat): seq<Entry> {
    if t == 0 then [] else Before(added, t - 1) + At(t - 1, Due(added, t - 1))
  }

  lemma DueNext(added: seq<Entry>, e: Entry, t: nat)
    ensures Due(added + [e], t) == if e.t == t then Due(added, t) + [e.task] else Due(added, t)
  {
    assert (added + [e])[..|added|] == added;
  }

  /** What is accepted for later leaves the past as it is. */
  lemma {:induction false} BeforeStays(added: seq<Entry>, e: Entry, t: nat)
    requires t <= e.t
    ensures Before(added + [e], t) == Before(added, t)
  {
    if t > 0 {
      BeforeStays(added, e, t - 1);
      DueNext(added, e, t - 1);
    }
  }

  type Slots = map<nat, seq<Task>>

  function TasksAt(tasks: Slots, t: nat): seq<Task> {
    if t in tasks then tasks[t] else []
  }

  /** Still to run: in a later slot, or from the cursor on in the current one. */
  predicate Waiting(time: nat, cursor: nat, tasks: Slots, s: Slot) {
    s.t in tasks && s.i < |tasks[s.t]| && (s.t > time || (s.t == time && s.i >= cursor))
  }

  ghost predicate PendOk(time: nat, cursor: nat, tasks: Slots, pend: Pending) {
    forall s {:trigger s in pend} :: (s in pend <==> Waiting(time, cursor, tasks, s))
        && (s in pend ==> pend[s] == tasks[s.t][s.i])
  }

  ghost predicate SlotsOk(time: nat, cursor: nat, tasks: Slots, added: seq<Entry>) {
    && (forall t {:trigger t in tasks} :: t in tasks ==> t >= time)
    && (forall t {:trigger Due(added, t)} :: t > time ==> TasksAt(tasks, t) == Due(added, t))
    && (if time in tasks then tasks[time] == Due(added, time) && cursor <= |tasks[time]|
        else cursor == |Due(added, time)|)
  }

  /** What has run is exactly what was due before the cursor, in order. */
  ghost predicate RanOk(time: nat, cursor: nat, added: seq<Entry>, ran: seq<Entry>) {
    cursor <= |Due(added, time)| && ran == Before(added, time) + At(time, Due(added, time)[..cursor])
  }

  ghost predicate Plan(time: nat, cursor: nat, tasks: Slots, pend: Pending, added: seq<Entry>, ran: seq<Entry>) {
    PendOk(time, cursor, tasks, pend) && SlotsOk(time, cursor, tasks, added) && RanOk(time, cursor, added, ran)
  }

  /** Everything is where the scheduler promises; proofs look inside Plan on demand. */
  ghost predicate Scheduled(time: nat, cursor: nat, tasks: Slots, pend: Pending, added: seq<Entry>, ran: seq<Entry>) {
    forall t: nat {:trigger Plan(t, cursor, tasks, pend, added, ran)} :: t == time ==>
          Plan(t, cursor, tasks, pend, added, ran)
  }

  lemma Accept(time: nat, cursor: nat, tasks: Slots, pend: Pending, added: seq<Entry>, ran: seq<Entry>,
               tm: nat, task: Task, tasks': Slots) returns (n: Slot)
    requires Scheduled(time, cursor, tasks, pend, added, ran) && tm > time
    requires tasks' == tasks[tm := TasksAt(tasks, tm) + [task]]
    ensures n !in pend && n.t == tm && TasksAt(tasks', time) == TasksAt(tasks, time)
    ensures Scheduled(time, cursor, tasks', pend[n := task], added + [Entry(tm, task)], ran)
  {
    assert Plan(time, cursor, tasks, pend, added, ran);
    n := Slot(tm, |TasksAt(tasks, tm)|);
    BeforeStays(added, Entry(tm, task), time);
    DueNext(added, Entry(tm, task), time);
    AcceptSlots(time, cursor, tasks, added, tm, task, tasks');
    AcceptPend(time, cursor, tasks, pend, tm, task, tasks', n);
    assert Plan(time, cursor, tasks', pend[n := task], added + [Entry(tm, task)], ran);
  }

  lemma AcceptSlots(time: nat, cursor: nat, tasks: Slots, added: seq<Entry>, tm: nat, task: Task, tasks': Slots)
    requires SlotsOk(time, cursor, tasks, added) && tm > time && tasks' == tasks[tm := TasksAt(tasks, tm) + [task]]
    ensures SlotsOk(time, cursor, tasks', added + [Entry(tm, task)])
  {
    var e := Entry(tm, task);
    DueNext(added, e, time);
    forall t | t > time ensures TasksAt(tasks', t) == Due(added + [e], t) {
      DueNext(added, e, t);
      assert TasksAt(tasks, t) == Due(added, t);
    }
  }

  lemma AcceptPend(time: nat, cursor: nat, tasks: Slots, pend: Pending, tm: nat, task: Task, tasks': Slots, n: Slot)
    requires PendOk(time, cursor, tasks, pend) && tm > time
    requires tasks' == tasks[tm := TasksAt(tasks, tm) + [task]] && n == Slot(tm, |TasksAt(tasks, tm)|)
    ensures n !in pend && PendOk(time, cursor, tasks', pend[n := task])
  {
    forall s ensures (s in pend[n := task] <==> Waiting(time, cursor, tasks', s))
                     && (s in pend[n := task] ==> pend[n := task][s] == tasks'[s.t][s.i])
    {
      assert s in pend <==> Waiting(time, cursor, tasks, s);
    }
  }

  /** The task under the cursor is taken. */
  lemma Take(time: nat, cursor: nat, tasks: Slots, pend: Pending, added: seq<Entry>, ran: seq<Entry>) returns (s: Slot)
    requires Scheduled(time, cursor, tasks, pend, added, ran) && time in tasks && cursor < |tasks[time]|
    ensures s == Slot(time, cursor) && s in pend && pend[s] == tasks[time][cursor]
    ensures Scheduled(time, cursor + 1, tasks, pend - {s}, added, ran + [Entry(time, tasks[time][cursor])])
    ensures forall r {:trigger r in pend} :: r in pend ==> r.t >= time
  {
    assert Plan(time, cursor, tasks, pend, added, ran);
    s := Slot(time, cursor);
    assert Waiting(time, cursor, tasks, s);
    var due := Due(added, time);
    assert At(time, due[..cursor + 1]) == At(time, due[..cursor]) + [Entry(time, due[cursor])];
    forall r ensures (r in pend - {s} <==> Waiting(time, cursor + 1, tasks, r)) {
      assert r in pend <==> Waiting(time, cursor, tasks, r);
    }
    assert Plan(time, cursor + 1, tasks, pend - {s}, added, ran + [Entry(time, tasks[time][cursor])]);
  }

  /** A slot that was run through is dropped. */
  lemma Finish(time: nat, cursor: nat, tasks: Slots, pend: Pending, added: seq<Entry>, ran: seq<Entry>)
    requires Scheduled(time, cursor, tasks, pend, added, ran) && time in tasks && cursor == |tasks[time]|
    ensures Scheduled(time, cursor, tasks - {time}, pend, added, ran)
  {
    assert Plan(time, cursor, tasks, pend, added, ran);
    forall s ensures s in pend <==> Waiting(time, cursor, tasks - {time}, s) {
      assert s in pend <==> Waiting(time, cursor, tasks, s);
    }
    forall t | t > time ensures TasksAt(tasks - {time}, t) == Due(added, t) {
    }
    assert Plan(time, cursor, tasks - {time}, pend, added, ran);
  }

  /** Time moves on once nothing is left at the present. */
  lemma Advance(time: nat, cursor: nat, tasks: Slots, pend: Pending, added: seq<Entry>, ran: seq<Entry>)
    requires Scheduled(time, cursor, tasks, pend, added, ran) && time !in tasks
    ensures Scheduled(time + 1, 0, tasks, pend, added, ran)
    ensures forall r {:trigger r in pend} :: r in pend ==> r.t > time
  {
    assert Plan(time, cursor, tasks, pend, added, ran);
    AdvanceRan(time, cursor, added, ran);
    AdvancePend(time, cursor, tasks, pend);
    AdvanceSlots(time, cursor, tasks, added);
    assert Plan(time + 1, 0, tasks, pend, added, ran);
  }

  lemma AdvanceRan(time: nat, cursor: nat, added: seq<Entry>, ran: seq<Entry>)
    requires RanOk(time, cursor, added, ran) && cursor == |Due(added, time)|
    ensures RanOk(time + 1, 0, added, ran)
  {
    assert Due(added, time)[..cursor] == Due(added, time);
    assert Before(added, time + 1) == Before(added, time) + At(time, Due(added, time));
    assert At(time + 1, Due(added, time + 1)[..0]) == [];
  }

  lemma AdvancePend(time: nat, cursor: nat, tasks: Slots, pend: Pending)
    requires PendOk(time, cursor, tasks, pend) && time !in tasks
    ensures PendOk(time + 1, 0, tasks, pend) && forall r {:trigger r in pend} :: r in pend ==> r.t > time
  {
    forall s ensures s in pend <==> Waiting(time + 1, 0, tasks, s) {
      assert s in pend <==> Waiting(time, cursor, tasks, s);
    }
  }

  lemma AdvanceSlots(time: nat, cursor: nat, tasks: Slots, added: seq<Entry>)
    requires SlotsOk(time, cursor, tasks, added) && time !in tasks
    ensures SlotsOk(time + 1, 0, tasks, added)
  {
    assert TasksAt(tasks, time + 1) == Due(added, time + 1);
  }

  /** With nothing left at or before `time`, exactly what was due by then has run, in order. */
  lemma AllRan(time: nat, cursor: nat, tasks: Slots, pend: Pending, added: seq<Entry>, ran: seq<Entry>)
    requires Scheduled(time, cursor, tasks, pend, added, ran) && time !in tasks
    ensures ran == Before(added, time + 1)
    ensures forall s {:trigger s in pend} :: s in pend ==> s.t > time
  {
    assert Plan(time, cursor, tasks, pend, added, ran);
    assert Due(added, time)[..cursor] == Due(added, time);
    forall s | s in pend ensures s.t > time {
      assert Waiting(time, cursor, tasks, s);
    }
  }

  lemma NothingDue(time: nat, cursor: nat, tasks: Slots, pend: Pending, added: seq<Entry>, ran: seq<Entry>)
    requires Scheduled(time, cursor, tasks, pend, added, ran) && pend == map[]
    ensures Due(added, time + 1) == []
  {
    assert Plan(time, cursor, tasks, pend, added, ran);
    assert TasksAt(tasks, time + 1) == Due(added, time + 1);
    assert Slot(time + 1, 0) in pend <==> Waiting(time, cursor, tasks, Slot(time + 1, 0));
  }

  /** The same task accepted twice for the next moment, for which nothing was due before. */
  lemma TwiceNext(before: seq<Entry>, task: Task,
                  time: nat, cursor: nat, tasks: Slots, pend: Pending, added: seq<Entry>, ran: seq<Entry>)
    requires Scheduled(time, cursor, tasks, pend, added, ran) && Due(before, time + 1) == []
    requires added == before + [Entry(time + 1, task)] + [Entry(time + 1, task)]
    ensures TasksAt(tasks, time + 1) == [task, task]
  {
    var t := time + 1;
    assert Plan(time, cursor, tasks, pend, added, ran);
    DueNext(before, Entry(t, task), t);
    DueNext(before + [Entry(t, task)], Entry(t, task), t);
    assert TasksAt(tasks, t) == Due(added, t);
  }
}
