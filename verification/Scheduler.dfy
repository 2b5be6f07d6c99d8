/** The scheduler state of Kernel/task.cpp and what its entry points do to it.

    Every entry point runs with interrupts off, so it is one step. A task is
    its ID; `blocked` records which loop of the kernel a task is in when it
    sleeps: the receive loops of Kernel/main.cpp and Kernel/terminal.cpp, or
    the loop of WaitFinish.
*/
module Scheduler {
  import opened Options
  import opened Messages

  const MAX_LEVEL: nat := 3
  const DEFAULT_LEVEL: nat := 1
  const IDLE: nat := 2

  datatype Blocked = Nowhere | Receiving | WaitingFor(id: nat)

  datatype Task = Task(level: nat, running: bool, msgs: seq<Message>, blocked: Blocked)

  datatype State = State(
    queues: seq<seq<nat>>,
    current: nat,
    changed: bool,
    tasks: map<nat, Task>,
    latest: nat,
    finished: map<nat, int>,
    waiter: map<nat, nat>)

  // ---- The scheduler invariant ----------------------------------------------------

  ghost predicate Distinct(q: seq<nat>) {
    forall i, j | 0 <= i < j < |q| :: q[i] != q[j]
  }

  /** The queue of a level holds exactly the running tasks of that level, each once. */
  ghost predicate QueueOk(s: State, l: nat)
    requires |s.queues| == 4 && l < 4
  {
    && Distinct(s.queues[l])
    && (forall t | t in s.queues[l] :: t in s.tasks && s.tasks[t].running && s.tasks[t].level == l)
  }

  ghost predicate Queued(s: State, t: nat)
    requires |s.queues| == 4 && t in s.tasks
  {
    s.tasks[t].level < 4 && (s.tasks[t].running ==> t in s.queues[s.tasks[t].level])
  }

  ghost predicate HigherEmpty(s: State)
    requires |s.queues| == 4
  {
    forall l: nat | s.current < l < 4 :: s.queues[l] == []
  }

  /** Everything but the choice of the current level. */
  ghost predicate QueuesOk(s: State) {
    && |s.queues| == 4 && s.current < 4
    && (forall l: nat | l < 4 :: QueueOk(s, l))
    && (forall t | t in s.tasks :: Queued(s, t))
    && IDLE in s.tasks && s.tasks[IDLE].running
    && (forall t | t in s.tasks :: t <= s.latest)
  }

  ghost predicate Inv(s: State) {
    && QueuesOk(s)
    && s.queues[s.current] != []
    && (s.changed || HigherEmpty(s))
  }

  // ---- Rotation --------------------------------------------------------------------

  /** The highest level up to l whose queue is not empty, or the current level if there is none. */
  function Highest(queues: seq<seq<nat>>, l: int, current: nat): nat
    requires l < |queues|
    decreases l + 1
  {
    if l < 0 then current else if queues[l] != [] then l else Highest(queues, l - 1, current)
  }

  function Front(s: State): nat
    requires s.current < |s.queues| && s.queues[s.current] != []
  {
    s.queues[s.current][0]
  }

  /** RotateCurrentRunQueue. */
  function Rotate(s: State, sleep: bool): State
    requires |s.queues| == 4 && s.current < 4 && s.queues[s.current] != []
  {
    var q := s.queues[s.current];
    var q' := if sleep then q[1..] else q[1..] + [q[0]];
    var queues := s.queues[s.current := q'];
    if s.changed || q' == [] then
      s.(queues := queues, changed := false, current := Highest(queues, 3, s.current))
    else
      s.(queues := queues)
  }

  lemma {:induction false} HighestIs(queues: seq<seq<nat>>, l: int, current: nat)
    requires l < |queues|
    requires exists i :: 0 <= i <= l && queues[i] != []
    ensures 0 <= Highest(queues, l, current) <= l && queues[Highest(queues, l, current)] != []
    ensures forall i | Highest(queues, l, current) < i <= l :: queues[i] == []
    decreases l + 1
  {
    if l >= 0 && queues[l] == [] {
      HighestIs(queues, l - 1, current);
    }
  }

  /** Whoever was current, a rotation selects the highest level with a running task. */
  lemma RotateSelectsHighest(s: State, sleep: bool)
    requires |s.queues| == 4 && s.current < 4 && s.queues[s.current] != []
    requires s.changed || HigherEmpty(s)
    requires exists l: nat :: l < 4 && Rotate(s, sleep).queues[l] != []
    ensures var s' := Rotate(s, sleep);
      s'.current < 4 && s'.queues[s'.current] != [] && HigherEmpty(s') && (s'.changed ==> s.changed)
  {
    var q := s.queues[s.current];
    var q' := if sleep then q[1..] else q[1..] + [q[0]];
    if s.changed || q' == [] {
      HighestIs(s.queues[s.current := q'], 3, s.current);
    }
  }

  // ---- Entry points ------------------------------------------------------------------

  /** Erase: all occurrences of a value. */
  function Remove(q: seq<nat>, t: nat): (r: seq<nat>)
    ensures forall x :: x in r <==> x in q && x != t
    ensures |r| <= |q|
  {
    if q == [] then []
    else if q[0] == t then Remove(q[1..], t)
    else [q[0]] + Remove(q[1..], t)
  }

  function SetTask(s: State, t: nat, task: Task): State {
    s.(tasks := s.tasks[t := task])
  }

  /** TaskManager::Sleep(Task*). */
  function Sleep(s: State, t: nat): State
    requires |s.queues| == 4 && s.current < 4 && s.queues[s.current] != []
    requires t in s.tasks && s.tasks[t].level < 4
  {
    if !s.tasks[t].running then s
    else
      var s1 := SetTask(s, t, s.tasks[t].(running := false));
      if t == Front(s1) then Rotate(s1, true)
      else s1.(queues := s1.queues[s1.tasks[t].level := Remove(s1.queues[s1.tasks[t].level], t)])
  }

  /** ChangeLevelRunning; a level of -1 means no change. */
  function ChangeLevelRunning(s: State, t: nat, level: int): State
    requires |s.queues| == 4 && s.current < 4 && s.queues[s.current] != []
    requires t in s.tasks && s.tasks[t].level < 4 && -1 <= level < 4
  {
    if level < 0 || level == s.tasks[t].level then s
    else if t != Front(s) then
      var queues := s.queues[s.tasks[t].level := Remove(s.queues[s.tasks[t].level], t)];
      var s1 := SetTask(s.(queues := queues[level := queues[level] + [t]]), t, s.tasks[t].(level := level));
      if level > s.current then s1.(changed := true) else s1
    else
      var queues := s.queues[s.current := s.queues[s.current][1..]];
      var s1 := SetTask(s.(queues := queues[level := [t] + queues[level]]), t, s.tasks[t].(level := level));
      if level >= s.current then s1.(current := level)
      else s1.(current := level, changed := true)
  }

  /** TaskManager::Wakeup(Task*, int). */
  function Wakeup(s: State, t: nat, level: int): State
    requires |s.queues| == 4 && s.current < 4 && s.queues[s.current] != []
    requires t in s.tasks && s.tasks[t].level < 4 && -1 <= level < 4
  {
    if s.tasks[t].running then ChangeLevelRunning(s, t, level)
    else
      var l := if level < 0 then s.tasks[t].level else level;
      var s1 := SetTask(s, t, s.tasks[t].(level := l, running := true));
      s1.(queues := s1.queues[l := s1.queues[l] + [t]], changed := s1.changed || l > s1.current)
  }

  /** NewTask: known, but not running yet. */
  function NewTask(s: State): State {
    SetTask(s.(latest := s.latest + 1), s.latest + 1, Task(DEFAULT_LEVEL, false, [], Nowhere))
  }

  /** Task::SendMessage. */
  function SendMessage(s: State, t: nat, m: Message): State
    requires |s.queues| == 4 && s.current < 4 && s.queues[s.current] != []
    requires t in s.tasks && s.tasks[t].level < 4
  {
    Wakeup(SetTask(s, t, s.tasks[t].(msgs := s.tasks[t].msgs + [m])), t, -1)
  }

  /** One round of a receive loop by the current task: take a message, or sleep if there is none. */
  function ReceiveOrSleep(s: State): State
    requires Inv(s)
  {
    var t := Front(s);
    assert t in s.queues[s.current] && QueueOk(s, s.current);
    if s.tasks[t].msgs == [] then Sleep(SetTask(s, t, s.tasks[t].(blocked := Receiving)), t)
    else SetTask(s, t, s.tasks[t].(msgs := s.tasks[t].msgs[1..], blocked := Nowhere))
  }

  /** TaskManager::Finish by the current task. */
  function Finish(s: State, code: int): State
    requires Inv(s) && Front(s) != IDLE
    requires Front(s) in s.waiter ==> s.waiter[Front(s)] in s.tasks && s.waiter[Front(s)] != Front(s)
  {
    var t := Front(s);
    var s1 := Rotate(s, true);
    var s2 := s1.(tasks := s1.tasks - {t}, finished := s1.finished[t := code]);
    RotateKeepsOthers(s);
    if t in s2.waiter then
      var w := s2.waiter[t];
      Wakeup(s2.(waiter := s2.waiter - {t}), w, -1)
    else s2
  }

  lemma RotateKeepsOthers(s: State)
    requires Inv(s) && Front(s) != IDLE
    ensures var s' := Rotate(s, true); s'.current < 4 && s'.queues[s'.current] != [] && HigherEmpty(s')
    ensures forall t | t in s.tasks :: s.tasks[t].level < 4
  {
    var s' := Rotate(s, true);
    assert QueueOk(s, s.current) && Queued(s, IDLE);
    assert s.queues[s.current] == [Front(s)] + s.queues[s.current][1..];
    assert IDLE in s'.queues[s.tasks[IDLE].level];
    RotateSelectsHighest(s, true);
    forall t | t in s.tasks
      ensures s.tasks[t].level < 4
    {
      assert Queued(s, t);
    }
  }

  /** TaskManager::WaitFinish from the head of its loop to its return or to Sleep. */
  function WaitFinish(s: State, id: nat): (r: (State, Option<int>))
    requires Inv(s) && Front(s) != IDLE
  {
    var t := Front(s);
    assert t in s.queues[s.current] && QueueOk(s, s.current);
    if id in s.finished then
      (SetTask(s.(finished := s.finished - {id}), t, s.tasks[t].(blocked := Nowhere)), Some(s.finished[id]))
    else
      (Sleep(SetTask(s.(waiter := s.waiter[id := t]), t, s.tasks[t].(blocked := WaitingFor(id))), t), None)
  }

  /** The TaskManager constructor: the main task on the highest level, the idle task on the lowest. */
  const INITIAL: State := State(
    [[2], [], [], [1]], MAX_LEVEL, false,
    map[1 := Task(MAX_LEVEL, true, [], Nowhere), 2 := Task(0, true, [], Nowhere)], 2, map[], map[])

  // ---- The invariant is kept ------------------------------------------------------------

  lemma InitialInv()
    ensures Inv(INITIAL)
  {
    assert INITIAL.queues[0] == [2] && INITIAL.queues[1] == [] && INITIAL.queues[2] == [] && INITIAL.queues[3] == [1];
  }

  lemma {:induction false} RemoveDistinct(q: seq<nat>, t: nat)
    requires Distinct(q)
    ensures Distinct(Remove(q, t))
  {
    if q != [] {
      RemoveDistinct(q[1..], t);
      assert q[0] !in q[1..];
    }
  }

  lemma AppendDistinct(q: seq<nat>, t: nat)
    requires Distinct(q) && t !in q
    ensures Distinct(q + [t]) && Distinct([t] + q)
  {
  }

  /** A rotation where nobody sleeps. */
  lemma TickInv(s: State)
    requires Inv(s)
    ensures Inv(Rotate(s, false))
  {
    var s' := Rotate(s, false);
    var q := s.queues[s.current];
    assert QueueOk(s, s.current);
    assert q == [q[0]] + q[1..];
    AppendDistinct(q[1..], q[0]);
    assert s'.queues[s.current] != [];
    RotateSelectsHighest(s, false);
    forall l: nat | l < 4
      ensures QueueOk(s', l)
    {
      assert QueueOk(s, l);
    }
    forall t | t in s'.tasks
      ensures Queued(s', t)
    {
      assert Queued(s, t);
    }
  }

  /** The front of the current queue has just stopped running, for good or to sleep. */
  ghost predicate FrontGone(s: State, t: nat) {
    && |s.queues| == 4 && s.current < 4 && s.queues[s.current] != [] && Front(s) == t && t != IDLE
    && (s.changed || HigherEmpty(s))
    && (forall l: nat | l < 4 ::
          Distinct(s.queues[l]) && forall x | x in s.queues[l] && x != t :: x in s.tasks && s.tasks[x].running && s.tasks[x].level == l)
    && (forall l: nat | l < 4 && t in s.queues[l] :: l == s.current)
    && (forall x | x in s.tasks :: Queued(s, x))
    && (t in s.tasks ==> !s.tasks[t].running)
    && IDLE in s.tasks && s.tasks[IDLE].running
    && (forall x | x in s.tasks :: x <= s.latest)
  }

  lemma FrontGoneInv(s: State, t: nat)
    requires FrontGone(s, t)
    ensures Inv(Rotate(s, true))
  {
    var s' := Rotate(s, true);
    var q := s.queues[s.current];
    assert q == [t] + q[1..];
    assert Queued(s, IDLE);
    assert IDLE in s'.queues[s.tasks[IDLE].level];
    RotateSelectsHighest(s, true);
    forall l: nat | l < 4
      ensures QueueOk(s', l)
    {
      assert Distinct(s.queues[l]);
    }
    forall x | x in s'.tasks
      ensures Queued(s', x)
    {
      assert Queued(s, x);
    }
  }

  lemma SleepInv(s: State, t: nat)
    requires Inv(s) && t in s.tasks && t != IDLE
    ensures s.tasks[t].level < 4 && Inv(Sleep(s, t))
  {
    assert Queued(s, t);
    if s.tasks[t].running {
      var s1 := SetTask(s, t, s.tasks[t].(running := false));
      var l0 := s.tasks[t].level;
      if t == Front(s1) {
        assert QueueOk(s, s.current);
        forall l: nat | l < 4
          ensures Distinct(s1.queues[l]) && forall x | x in s1.queues[l] && x != t :: x in s1.tasks && s1.tasks[x].running && s1.tasks[x].level == l
          ensures t in s1.queues[l] ==> l == s1.current
        {
          assert QueueOk(s, l);
        }
        forall x | x in s1.tasks
          ensures Queued(s1, x)
        {
          assert Queued(s, x);
        }
        FrontGoneInv(s1, t);
      } else {
        var s' := Sleep(s, t);
        forall l: nat | l < 4
          ensures QueueOk(s', l)
        {
          assert QueueOk(s, l);
          RemoveDistinct(s.queues[l], t);
        }
        forall x | x in s'.tasks
          ensures Queued(s', x)
        {
          assert Queued(s, x);
        }
        assert Front(s) in s'.queues[s.current];
      }
    }
  }

  /** Tasks may change in their messages and their loop without the scheduler noticing. */
  lemma SetTaskInv(s: State, t: nat, task: Task)
    requires Inv(s) && t in s.tasks
    requires task.level == s.tasks[t].level && task.running == s.tasks[t].running
    ensures Inv(SetTask(s, t, task))
  {
    var s' := SetTask(s, t, task);
    forall l: nat | l < 4
      ensures QueueOk(s', l)
    {
      assert QueueOk(s, l);
    }
    forall x | x in s'.tasks
      ensures Queued(s', x)
    {
      assert Queued(s, x);
    }
  }

  lemma WakeupIs(s: State, t: nat, level: int)
    requires Inv(s) && t in s.tasks && -1 <= level < 4
    ensures |s.queues| == 4 && s.current < 4 && s.queues[s.current] != [] && s.tasks[t].level < 4
    ensures s.tasks[t].running ==> Wakeup(s, t, level) == ChangeLevelRunning(s, t, level)
    ensures !s.tasks[t].running ==>
      var l := if level < 0 then s.tasks[t].level else level;
      Wakeup(s, t, level) ==
        s.(tasks := s.tasks[t := s.tasks[t].(level := l, running := true)],
           queues := s.queues[l := s.queues[l] + [t]], changed := s.changed || l > s.current)
  {
    FrontFacts(s);
    hide ChangeLevelRunning;
  }

  lemma WakeupInv(s: State, t: nat, level: int)
    requires Inv(s) && t in s.tasks && -1 <= level < 4
    ensures s.tasks[t].level < 4 && Inv(Wakeup(s, t, level))
  {
    assert Queued(s, t);
    if s.tasks[t].running {
      ChangeLevelInv(s, t, level);
    } else {
      var s' := Wakeup(s, t, level);
      forall l: nat | l < 4
        ensures QueueOk(s', l)
      {
        assert QueueOk(s, l);
        assert t !in s.queues[l];
        AppendDistinct(s.queues[l], t);
      }
      forall x | x in s'.tasks
        ensures Queued(s', x)
      {
        assert Queued(s, x);
      }
    }
  }

  lemma ChangeLevelInv(s: State, t: nat, level: int)
    requires Inv(s) && t in s.tasks && -1 <= level < 4 && s.tasks[t].running
    ensures s.tasks[t].level < 4 && Inv(ChangeLevelRunning(s, t, level))
  {
    assert Queued(s, t);
    if level >= 0 && level != s.tasks[t].level {
      if t == Front(s) {
        ChangeFrontLevelInv(s, t, level);
      } else {
        ChangeOtherLevelInv(s, t, level);
      }
    }
  }

  /** Only the queues of the old and the new level change, and task t moves from one to the other. */
  ghost predicate Moved(s: State, s': State, t: nat, level: nat)
    requires |s.queues| == 4 && t in s.tasks && s.tasks[t].level < 4 && level < 4
  {
    var l0 := s.tasks[t].level;
    && |s'.queues| == 4 && s'.latest == s.latest
    && s'.tasks == s.tasks[t := s.tasks[t].(level := level)]
    && Distinct(s'.queues[l0]) && Distinct(s'.queues[level])
    && (forall x :: x in s'.queues[l0] <==> x in s.queues[l0] && x != t)
    && (forall x :: x in s'.queues[level] <==> x in s.queues[level] || x == t)
    && (forall l: nat | l < 4 && l != l0 && l != level :: s'.queues[l] == s.queues[l])
  }

  lemma MovedInv(s: State, s': State, t: nat, level: nat)
    requires QueuesOk(s) && t in s.tasks && s.tasks[t].running && s.tasks[t].level < 4
    requires level < 4 && level != s.tasks[t].level
    requires Moved(s, s', t, level) && s'.current < 4
    ensures QueuesOk(s')
  {
    forall l: nat | l < 4
      ensures QueueOk(s', l)
    {
      assert QueueOk(s, l);
    }
    forall x | x in s'.tasks
      ensures Queued(s', x)
    {
      assert Queued(s, x);
    }
  }

  lemma ChangeFrontLevelInv(s: State, t: nat, level: nat)
    requires Inv(s) && t in s.tasks && s.tasks[t].running && s.tasks[t].level < 4
    requires level < 4 && level != s.tasks[t].level && t == Front(s)
    ensures Inv(ChangeLevelRunning(s, t, level))
  {
    var s' := ChangeLevelRunning(s, t, level);
    assert QueueOk(s, s.current) && QueueOk(s, level);
    var q := s.queues[s.current];
    assert q == [t] + q[1..];
    AppendDistinct(s.queues[level], t);
    MovedInv(s, s', t, level);
  }

  lemma ChangeOtherLevelInv(s: State, t: nat, level: nat)
    requires Inv(s) && t in s.tasks && s.tasks[t].running && s.tasks[t].level < 4
    requires level < 4 && level != s.tasks[t].level && t != Front(s)
    ensures Inv(ChangeLevelRunning(s, t, level))
  {
    var s' := ChangeLevelRunning(s, t, level);
    assert QueueOk(s, s.tasks[t].level) && QueueOk(s, level);
    RemoveDistinct(s.queues[s.tasks[t].level], t);
    AppendDistinct(s.queues[level], t);
    MovedInv(s, s', t, level);
    assert Front(s) in s'.queues[s.current];
  }

  lemma NewTaskInv(s: State)
    requires Inv(s)
    ensures Inv(NewTask(s))
  {
    var s' := NewTask(s);
    assert s.latest + 1 !in s.tasks;
    forall l: nat | l < 4
      ensures QueueOk(s', l)
    {
      assert QueueOk(s, l);
    }
    forall x | x in s'.tasks
      ensures Queued(s', x)
    {
      assert x in s.tasks ==> Queued(s, x);
    }
  }

  lemma FrontFacts(s: State)
    requires Inv(s)
    ensures Front(s) in s.tasks && s.tasks[Front(s)].running && s.tasks[Front(s)].level == s.current
    ensures forall t | t in s.tasks :: s.tasks[t].level < 4
  {
    assert Front(s) in s.queues[s.current] && QueueOk(s, s.current);
    forall t | t in s.tasks
      ensures s.tasks[t].level < 4
    {
      assert Queued(s, t);
    }
  }

  /** Finish up to the point where it wakes the waiter. */
  function Ended(s: State, code: int): State
    requires |s.queues| == 4 && s.current < 4 && s.queues[s.current] != []
  {
    var t := Front(s);
    Rotate(s, true).(tasks := s.tasks - {t}, finished := s.finished[t := code], waiter := s.waiter - {t})
  }

  lemma EndedInv(s: State, code: int)
    requires Inv(s) && Front(s) != IDLE
    ensures Inv(Ended(s, code))
  {
    var t := Front(s);
    FrontFacts(s);
    var s0 := s.(tasks := s.tasks - {t});
    forall l: nat | l < 4
      ensures Distinct(s0.queues[l]) && forall x | x in s0.queues[l] && x != t :: x in s0.tasks && s0.tasks[x].running && s0.tasks[x].level == l
      ensures t in s0.queues[l] ==> l == s0.current
    {
      assert QueueOk(s, l);
    }
    forall x | x in s0.tasks
      ensures Queued(s0, x)
    {
      assert Queued(s, x);
    }
    FrontGoneInv(s0, t);
    SameScheduling(Rotate(s0, true), Ended(s, code));
  }

  lemma FinishIs(s: State, code: int)
    requires Inv(s) && Front(s) != IDLE
    requires Front(s) in s.waiter ==> s.waiter[Front(s)] in s.tasks && s.waiter[Front(s)] != Front(s)
    ensures Inv(Ended(s, code)) && forall t | t in s.tasks :: s.tasks[t].level < 4
    ensures Finish(s, code) ==
      if Front(s) in s.waiter then Wakeup(Ended(s, code), s.waiter[Front(s)], -1) else Ended(s, code)
  {
    EndedInv(s, code);
    RotateKeepsOthers(s);
    hide Inv, Wakeup, Highest;
    assert Front(s) !in s.waiter ==> s.waiter - {Front(s)} == s.waiter;
  }

  lemma FinishInv(s: State, code: int)
    requires Inv(s) && Front(s) != IDLE
    requires Front(s) in s.waiter ==> s.waiter[Front(s)] in s.tasks && s.waiter[Front(s)] != Front(s)
    ensures Inv(Finish(s, code))
  {
    FinishIs(s, code);
    hide QueuesOk, Wakeup, Rotate, Finish;
    if Front(s) in s.waiter {
      WakeupInv(Ended(s, code), s.waiter[Front(s)], -1);
    }
  }

  lemma SameScheduling(s: State, s': State)
    requires Inv(s)
    requires s'.queues == s.queues && s'.current == s.current && s'.changed == s.changed
    requires s'.tasks == s.tasks && s'.latest == s.latest
    ensures Inv(s')
  {
    forall l: nat | l < 4
      ensures QueueOk(s', l)
    {
      assert QueueOk(s, l);
    }
    forall x | x in s'.tasks
      ensures Queued(s', x)
    {
      assert Queued(s, x);
    }
  }

  // ---- Runs -----------------------------------------------------------------------------

  /** What can happen next: a timer tick, a message or a wake-up from an interrupt or the current task,
      a new task, or the current task in a receive loop, in Finish or in WaitFinish. */
  datatype Event =
    | Tick
    | Send(to: nat, m: Message)
    | Wake(t: nat, level: int)
    | Spawn
    | Receive
    | Exit(code: int)
    | Wait(id: nat)

  ghost predicate Enabled(s: State, e: Event) {
    Inv(s) &&
    match e
    case Tick => true
    case Send(t, _) => t in s.tasks
    case Wake(t, level) => t in s.tasks && -1 <= level < 4
    case Spawn => true
    case Receive => Front(s) != IDLE && CurrentIn(s, {Nowhere, Receiving})
    case Exit(_) => Front(s) != IDLE && CurrentIn(s, {Nowhere})
    // One waiter per task.
    case Wait(id) => Front(s) != IDLE && CurrentIn(s, {Nowhere, WaitingFor(id)}) && (id in s.waiter ==> s.waiter[id] == Front(s))
  }

  ghost predicate CurrentIn(s: State, loops: set<Blocked>)
    requires Inv(s)
  {
    Front(s) in s.tasks && s.tasks[Front(s)].blocked in loops
  }

  /** No wake-up is lost: a task asleep in a receive loop has no message, and a task asleep in WaitFinish
      is registered for an exit code that has not been posted. */
  ghost predicate NoLostWakeup(s: State) {
    && (forall t | t in s.tasks :: SleepsRightly(s, t))
    && (forall id | id in s.waiter :: id !in s.finished && s.waiter[id] in s.tasks && s.tasks[s.waiter[id]].blocked == WaitingFor(id))
  }

  ghost predicate SleepsRightly(s: State, t: nat)
    requires t in s.tasks
  {
    var task := s.tasks[t];
    task.running ||
    match task.blocked
    case Nowhere => true
    case Receiving => task.msgs == []
    case WaitingFor(id) => id !in s.finished && id in s.waiter && s.waiter[id] == t
  }

  ghost function Step(s: State, e: Event): State
    requires Enabled(s, e) && NoLostWakeup(s)
  {
    FrontFacts(s);
    match e
    case Tick => Rotate(s, false)
    case Send(t, m) => SendMessage(s, t, m)
    case Wake(t, level) => Wakeup(s, t, level)
    case Spawn => NewTask(s)
    case Receive => ReceiveOrSleep(s)
    case Exit(code) => Finish(s, code)
    case Wait(id) => WaitFinish(s, id).0
  }

  lemma StepInv(s: State, e: Event)
    requires Enabled(s, e) && NoLostWakeup(s)
    ensures Inv(Step(s, e))
  {
    FrontFacts(s);
    var t := Front(s);
    hide Inv, QueuesOk;
    match e
    case Tick => TickInv(s);
    case Send(x, m) =>
      SetTaskInv(s, x, s.tasks[x].(msgs := s.tasks[x].msgs + [m]));
      WakeupInv(SetTask(s, x, s.tasks[x].(msgs := s.tasks[x].msgs + [m])), x, -1);
    case Wake(x, level) => WakeupInv(s, x, level);
    case Spawn => NewTaskInv(s);
    case Receive =>
      if s.tasks[t].msgs == [] {
        SetTaskInv(s, t, s.tasks[t].(blocked := Receiving));
        SleepInv(SetTask(s, t, s.tasks[t].(blocked := Receiving)), t);
      } else {
        SetTaskInv(s, t, s.tasks[t].(msgs := s.tasks[t].msgs[1..], blocked := Nowhere));
      }
    case Exit(code) => FinishInv(s, code);
    case Wait(id) =>
      if id in s.finished {
        SameScheduling(s, s.(finished := s.finished - {id}));
        SetTaskInv(s.(finished := s.finished - {id}), t, s.tasks[t].(blocked := Nowhere));
      } else {
        SameScheduling(s, s.(waiter := s.waiter[id := t]));
        SetTaskInv(s.(waiter := s.waiter[id := t]), t, s.tasks[t].(blocked := WaitingFor(id)));
        SleepInv(SetTask(s.(waiter := s.waiter[id := t]), t, s.tasks[t].(blocked := WaitingFor(id))), t);
      }
  }

  lemma WakeupEffect(s: State, t: nat, level: int)
    requires |s.queues| == 4 && s.current < 4 && s.queues[s.current] != []
    requires t in s.tasks && s.tasks[t].level < 4 && -1 <= level < 4
    ensures var s' := Wakeup(s, t, level);
      && s'.waiter == s.waiter && s'.finished == s.finished && s'.latest == s.latest
      && s'.tasks == s.tasks[t := s.tasks[t].(running := true, level := s'.tasks[t].level)]
  {
    hide Remove;
    assert s.tasks[t := s.tasks[t]] == s.tasks;
  }

  lemma SleepEffect(s: State, t: nat)
    requires |s.queues| == 4 && s.current < 4 && s.queues[s.current] != []
    requires t in s.tasks && s.tasks[t].level < 4
    ensures var s' := Sleep(s, t);
      && s'.waiter == s.waiter && s'.finished == s.finished && s'.latest == s.latest
      && s'.tasks == s.tasks[t := s.tasks[t].(running := false)]
  {
    hide Remove, Highest;
    assert s.tasks[t := s.tasks[t]] == s.tasks;
  }

  lemma StepNoLostWakeup(s: State, e: Event)
    requires Enabled(s, e) && NoLostWakeup(s)
    ensures NoLostWakeup(Step(s, e))
  {
    FrontFacts(s);
    var t := Front(s);
    assert SleepsRightly(s, t);
    hide QueuesOk, HigherEmpty, Highest, Remove, Wakeup, Sleep;
    match e
    case Tick => OneTaskChanged(s, Step(s, e), t);
    case Send(x, m) =>
      assert SleepsRightly(s, x);
      WakeupEffect(SetTask(s, x, s.tasks[x].(msgs := s.tasks[x].msgs + [m])), x, -1);
      OneTaskChanged(s, Step(s, e), x);
    case Wake(x, level) =>
      assert SleepsRightly(s, x);
      WakeupEffect(s, x, level);
      OneTaskChanged(s, Step(s, e), x);
    case Spawn =>
      assert s.latest + 1 !in s.tasks by { SpawnFresh(s); }
      OneTaskChanged(s, Step(s, e), s.latest + 1);
    case Receive =>
      if s.tasks[t].msgs == [] {
        SleepEffect(SetTask(s, t, s.tasks[t].(blocked := Receiving)), t);
      }
      OneTaskChanged(s, Step(s, e), t);
    case Exit(code) => ExitNoLostWakeup(s, code);
    case Wait(id) => WaitNoLostWakeup(s, id);
  }

  lemma SpawnFresh(s: State)
    requires Inv(s)
    ensures s.latest + 1 !in s.tasks
  {
  }

  /** A step that changes one task, and neither posts nor awaits an exit code. */
  lemma OneTaskChanged(s: State, s': State, t: nat)
    requires NoLostWakeup(s)
    requires s'.waiter == s.waiter && s'.finished == s.finished
    requires t in s'.tasks && s'.tasks == s.tasks[t := s'.tasks[t]]
    requires SleepsRightly(s', t)
    requires t in s.tasks && s.tasks[t].blocked.WaitingFor? ==> s'.tasks[t].blocked == s.tasks[t].blocked
    ensures NoLostWakeup(s')
  {
    forall x | x in s'.tasks
      ensures SleepsRightly(s', x)
    {
      assert x != t ==> SleepsRightly(s, x);
    }
  }

  lemma FinishEffect(s: State, code: int)
    requires Inv(s) && Front(s) != IDLE
    requires Front(s) in s.waiter ==> s.waiter[Front(s)] in s.tasks && s.waiter[Front(s)] != Front(s)
    ensures var s', t := Finish(s, code), Front(s);
      && s'.finished == s.finished[t := code] && s'.waiter == s.waiter - {t} && s'.latest == s.latest
      && s'.tasks == if t in s.waiter
                     then (s.tasks - {t})[s.waiter[t] := s.tasks[s.waiter[t]].(running := true, level := s'.tasks[s.waiter[t]].level)]
                     else s.tasks - {t}
  {
    FinishIs(s, code);
    hide Inv, Wakeup, Highest, Finish;
    if Front(s) in s.waiter {
      InvShape(Ended(s, code));
      WakeupEffect(Ended(s, code), s.waiter[Front(s)], -1);
    }
  }

  lemma ExitReady(s: State, code: int)
    requires Enabled(s, Exit(code)) && NoLostWakeup(s)
    ensures Inv(s) && Front(s) != IDLE && Front(s) in s.tasks && |s.queues| == 4 && s.current < 4
    ensures s.queues[s.current] != []
    ensures Front(s) in s.waiter ==> s.waiter[Front(s)] in s.tasks && s.waiter[Front(s)] != Front(s)
    ensures Inv(Ended(s, code)) && forall t | t in s.tasks :: s.tasks[t].level < 4
    ensures Step(s, Exit(code)) ==
      if Front(s) in s.waiter then Wakeup(Ended(s, code), s.waiter[Front(s)], -1) else Ended(s, code)
  {
    FrontFacts(s);
    FinishIs(s, code);
    hide Wakeup, Finish;
  }

  lemma InvShape(s: State)
    requires Inv(s)
    ensures |s.queues| == 4 && s.current < 4 && s.queues[s.current] != []
  {
  }

  lemma WaitEffect(s: State, id: nat)
    requires Inv(s) && Front(s) != IDLE
    ensures var (s', r), t := WaitFinish(s, id), Front(s);
      && t in s.tasks && s'.latest == s.latest
      && s'.finished == s.finished - {id}
      && (id in s.finished ==> r == Some(s.finished[id]) && s'.waiter == s.waiter
                               && s'.tasks == s.tasks[t := s.tasks[t].(blocked := Nowhere)])
      && (id !in s.finished ==> r == None && s'.waiter == s.waiter[id := t]
                                && s'.tasks == s.tasks[t := s.tasks[t].(running := false, blocked := WaitingFor(id))])
  {
    FrontFacts(s);
    var t := Front(s);
    if id !in s.finished {
      SleepEffect(SetTask(s.(waiter := s.waiter[id := t]), t, s.tasks[t].(blocked := WaitingFor(id))), t);
      assert s.finished - {id} == s.finished;
    }
    hide Inv, Sleep;
  }

  lemma ExitNoLostWakeup(s: State, code: int)
    requires Enabled(s, Exit(code)) && NoLostWakeup(s)
    ensures NoLostWakeup(Step(s, Exit(code)))
  {
    FrontFacts(s);
    FinishEffect(s, code);
    ExitKeepsSleepers(s, Finish(s, code), Front(s), code);
  }

  /** The waiter of a task that ends finds its code. */
  lemma ExitKeepsSleepers(s: State, s': State, t: nat, code: int)
    requires NoLostWakeup(s) && t in s.tasks && s.tasks[t].blocked == Nowhere
    requires s'.finished == s.finished[t := code] && s'.waiter == s.waiter - {t}
    requires t in s.waiter ==> s.waiter[t] in s.tasks && s.waiter[t] != t
    requires t !in s.waiter ==> s'.tasks == s.tasks - {t}
    requires t in s.waiter ==> exists level ::
      s'.tasks == (s.tasks - {t})[s.waiter[t] := s.tasks[s.waiter[t]].(running := true, level := level)]
    ensures NoLostWakeup(s')
  {
    forall x | x in s'.tasks
      ensures SleepsRightly(s', x)
    {
      assert SleepsRightly(s, x);
    }
  }

  lemma WaitNoLostWakeup(s: State, id: nat)
    requires Enabled(s, Wait(id)) && NoLostWakeup(s)
    ensures NoLostWakeup(Step(s, Wait(id)))
  {
    FrontFacts(s);
    WaitEffect(s, id);
    WaitKeepsSleepers(s, WaitFinish(s, id).0, Front(s), id);
  }

  /** A task that waits is registered, unless it takes a code that has been posted. */
  lemma WaitKeepsSleepers(s: State, s': State, t: nat, id: nat)
    requires NoLostWakeup(s) && t in s.tasks && s.tasks[t].blocked in {Nowhere, WaitingFor(id)} && s.tasks[t].running
    requires id in s.waiter ==> s.waiter[id] == t
    requires s'.finished == s.finished - {id}
    requires id in s.finished ==>
      s'.waiter == s.waiter && s'.tasks == s.tasks[t := s.tasks[t].(blocked := Nowhere)]
    requires id !in s.finished ==>
      && s'.waiter == s.waiter[id := t]
      && s'.tasks == s.tasks[t := s.tasks[t].(running := false, blocked := WaitingFor(id))]
    ensures NoLostWakeup(s')
  {
    forall x | x in s'.tasks
      ensures SleepsRightly(s', x)
    {
      assert SleepsRightly(s, x);
    }
  }

  // ---- What the entry points do to the queues --------------------------------------------

  /** One task has left a queue, and the others stay in their order. */
  ghost predicate Left(q: seq<nat>, q': seq<nat>, t: nat) {
    exists i: nat :: i < |q| && q[i] == t && q' == q[..i] + q[i + 1..]
  }

  /** The current queue has lost its front, or has it at its end. The level stays, unless it may be another one's turn: then
      it is the highest with a task. */
  ghost predicate Rotated(s: State, s': State, sleep: bool)
    requires |s.queues| == 4 && s.current < 4 && s.queues[s.current] != []
  {
    && |s'.queues| == 4 && s'.current < 4 && !s'.changed
    && (forall l: nat | l < 4 && l != s.current :: s'.queues[l] == s.queues[l])
    && s'.queues[s.current] == s.queues[s.current][1..] + (if sleep then [] else [s.queues[s.current][0]])
    && (s.changed || s'.queues[s.current] == [] ==> s'.queues[s'.current] != [] && HigherEmpty(s'))
    && (!s.changed && s'.queues[s.current] != [] ==> s'.current == s.current)
  }

  lemma RotateIs(s: State, sleep: bool)
    requires Inv(s) && (sleep ==> Front(s) != IDLE)
    ensures Rotated(s, Rotate(s, sleep), sleep)
    ensures Rotate(s, sleep) == s.(queues := Rotate(s, sleep).queues, current := Rotate(s, sleep).current, changed := false)
  {
    var s' := Rotate(s, sleep);
    assert QueueOk(s, s.current) && Queued(s, IDLE);
    assert s.queues[s.current] == [Front(s)] + s.queues[s.current][1..];
    assert IDLE in s'.queues[s.tasks[IDLE].level];
    RotateSelectsHighest(s, sleep);
  }

  lemma {:induction false} RemoveNothing(q: seq<nat>, t: nat)
    requires t !in q
    ensures Remove(q, t) == q
  {
    if q != [] {
      RemoveNothing(q[1..], t);
    }
  }

  lemma {:induction false} RemoveOne(q: seq<nat>, t: nat)
    requires Distinct(q) && t in q
    ensures Left(q, Remove(q, t), t)
  {
    if q[0] == t {
      RemoveNothing(q[1..], t);
      assert q[..0] + q[1..] == q[1..];
    } else {
      RemoveOne(q[1..], t);
      var i: nat :| i < |q[1..]| && q[1..][i] == t && Remove(q[1..], t) == q[1..][..i] + q[1..][i + 1..];
      assert q[..i + 1] + q[i + 2..] == [q[0]] + (q[1..][..i] + q[1..][i + 1..]);
      assert q[i + 1] == t;
    }
  }

  /** Sleep takes a running task out of its queue; the current one leaves by a rotation. */
  lemma SleepIs(s: State, t: nat)
    requires Inv(s) && t in s.tasks && t != IDLE
    ensures s.tasks[t].level < 4
    ensures !s.tasks[t].running ==> Sleep(s, t) == s
    ensures s.tasks[t].running ==>
      var s' := Sleep(s, t);
      && s'.tasks == s.tasks[t := s.tasks[t].(running := false)]
      && s'.latest == s.latest && s'.finished == s.finished && s'.waiter == s.waiter
      && (t == Front(s) ==> Rotated(s, s', true))
      && (t != Front(s) ==>
            && s'.current == s.current && s'.changed == s.changed && |s'.queues| == 4
            && Left(s.queues[s.tasks[t].level], s'.queues[s.tasks[t].level], t)
            && forall l: nat | l < 4 && l != s.tasks[t].level :: s'.queues[l] == s.queues[l])
  {
    assert Queued(s, t);
    if s.tasks[t].running {
      assert QueueOk(s, s.tasks[t].level);
      if t == Front(s) {
        RotateIs(s, true);
        SameRotation(s, SetTask(s, t, s.tasks[t].(running := false)));
      } else {
        RemoveOne(s.queues[s.tasks[t].level], t);
      }
    }
  }

  lemma SameRotation(s: State, s1: State)
    requires |s.queues| == 4 && s.current < 4 && s.queues[s.current] != []
    requires s1 == s.(tasks := s1.tasks, finished := s1.finished, waiter := s1.waiter)
    ensures Rotate(s1, true) == Rotate(s, true).(tasks := s1.tasks, finished := s1.finished, waiter := s1.waiter)
  {
  }

  /** A change of level moves a running task: the current one to the front of its new queue, where it goes on running, another
      one to the end. */
  lemma ChangeLevelIs(s: State, t: nat, level: int)
    requires Inv(s) && t in s.tasks && s.tasks[t].running && -1 <= level < 4
    ensures s.tasks[t].level < 4
    ensures level < 0 || level == s.tasks[t].level ==> ChangeLevelRunning(s, t, level) == s
    ensures level >= 0 && level != s.tasks[t].level ==>
      var s', l := ChangeLevelRunning(s, t, level), s.tasks[t].level;
      && |s'.queues| == 4 && s'.tasks == s.tasks[t := s.tasks[t].(level := level)]
      && s'.latest == s.latest && s'.finished == s.finished && s'.waiter == s.waiter
      && Left(s.queues[l], s'.queues[l], t)
      && s'.queues[level] == (if t == Front(s) then [t] + s.queues[level] else s.queues[level] + [t])
      && (forall k: nat | k < 4 && k != l && k != level :: s'.queues[k] == s.queues[k])
      && s'.current == (if t == Front(s) then level else s.current) && s'.queues[s'.current] != [] && Front(s') == Front(s)
      && s'.changed == (s.changed || if t == Front(s) then level < s.current else level > s.current)
  {
    assert Queued(s, t) && QueueOk(s, s.tasks[t].level);
    FrontFacts(s);
    if level >= 0 && level != s.tasks[t].level {
      RemoveOne(s.queues[s.tasks[t].level], t);
      var q := s.queues[s.current];
      if t == Front(s) {
        assert q[..0] + q[1..] == q[1..];
        assert Left(q, q[1..], t);
      } else {
        FirstStays(q, Remove(q, t), t, s.tasks[t].level == s.current);
      }
    }
  }

  lemma FirstStays(q: seq<nat>, r: seq<nat>, t: nat, here: bool)
    requires q != [] && q[0] != t && (here ==> Left(q, r, t))
    ensures here ==> r != [] && r[0] == q[0]
  {
  }

  /** Wakeup puts a task that sleeps at the end of its queue, on the level asked for; the current task stays. */
  lemma WakeupAppends(s: State, t: nat, level: int)
    requires Inv(s) && t in s.tasks && !s.tasks[t].running && -1 <= level < 4
    ensures s.tasks[t].level < 4
    ensures
      var s', l := Wakeup(s, t, level), if level < 0 then s.tasks[t].level else level;
      && |s'.queues| == 4 && s'.tasks == s.tasks[t := s.tasks[t].(level := l, running := true)]
      && s'.latest == s.latest && s'.finished == s.finished && s'.waiter == s.waiter
      && s'.queues[l] == s.queues[l] + [t] && (forall k: nat | k < 4 && k != l :: s'.queues[k] == s.queues[k])
      && s'.current == s.current && s'.queues[s'.current] != [] && Front(s') == Front(s)
      && s'.changed == (s.changed || l > s.current)
  {
    FrontFacts(s);
  }

  /** WaitFinish leaves the queues alone if the code is there, and otherwise lets the current task sleep. */
  lemma WaitIs(s: State, id: nat)
    requires Inv(s) && Front(s) != IDLE
    ensures var s' := WaitFinish(s, id).0;
      if id in s.finished then s'.queues == s.queues && s'.current == s.current && s'.changed == s.changed
      else Rotated(s, s', true)
  {
    FrontFacts(s);
    if id !in s.finished {
      var t := Front(s);
      var s1 := SetTask(s.(waiter := s.waiter[id := t]), t, s.tasks[t].(blocked := WaitingFor(id)));
      RotateIs(s, true);
      SameRotation(s, SetTask(s1, t, s1.tasks[t].(running := false)));
      hide Inv, Rotated, Rotate;
    }
  }

  /** Finish takes the current task out of its queue for good, and puts a waiter that sleeps at the end of its own. */
  lemma ExitIs(s: State, code: int)
    requires Enabled(s, Exit(code)) && NoLostWakeup(s)
    ensures Front(s) in s.waiter ==> s.waiter[Front(s)] in s.tasks
    ensures
      var s', t := Step(s, Exit(code)), Front(s);
      if t in s.waiter && !s.tasks[s.waiter[t]].running then
        var w := s.waiter[t];
        exists r :: Rotated(s, r, true) && s.tasks[w].level < 4
          && s'.queues == r.queues[s.tasks[w].level := r.queues[s.tasks[w].level] + [w]]
          && s'.current == r.current && s'.changed == (s.tasks[w].level > r.current)
      else Rotated(s, s', true)
  {
    ExitReady(s, code);
    RotateIs(s, true);
    var t, r := Front(s), Ended(s, code);
    assert Rotated(s, r, true);
    hide Inv, NoLostWakeup, Enabled, Rotate, Rotated, Finish;
    if t in s.waiter {
      var w := s.waiter[t];
      WakeupIs(r, w, -1);
      assert r.tasks[w] == s.tasks[w];
    }
  }

  // ---- Messages and exit codes ---------------------------------------------------------

  /** A run with its history: the messages sent to each task and received by it, the codes passed to Finish, and the tasks
      whose code WaitFinish has returned. */
  datatype Run = Run(s: State, sent: map<nat, seq<Message>>, received: map<nat, seq<Message>>,
                     exits: map<nat, int>, consumed: set<nat>)

  /** The task manager at boot, with its two tasks. */
  const BOOT: Run := Run(INITIAL, map[1 := [], 2 := []], map[1 := [], 2 := []], map[], {})

  /** What was sent to a task is what it has received and what it has still to receive, in that order. */
  ghost predicate MessagesOk(y: Run) {
    forall t | t in y.s.tasks :: t in y.sent && t in y.received && y.sent[t] == y.received[t] + y.s.tasks[t].msgs
  }

  ghost predicate RunOk(y: Run) {
    Inv(y.s) && NoLostWakeup(y.s) && HistoryOk(y) && MessagesOk(y)
  }

  /** Posted are exactly the codes of finished tasks that nobody has collected. */
  ghost predicate HistoryOk(y: Run) {
    && y.consumed <= y.exits.Keys
    && y.s.finished.Keys == y.exits.Keys - y.consumed
    && (forall id | id in y.s.finished :: y.s.finished[id] == y.exits[id])
    && (forall id | id in y.exits :: id !in y.s.tasks && id <= y.s.latest)
  }

  /** What a task gets from the receive loop, if there is a message for it. */
  function NextMessage(s: State, t: nat): Option<Message> {
    if t in s.tasks && s.tasks[t].msgs != [] then Some(s.tasks[t].msgs[0]) else None
  }

  ghost function Advance(y: Run, e: Event): Run
    requires Enabled(y.s, e) && NoLostWakeup(y.s)
  {
    var s' := Step(y.s, e);
    match e
    case Send(t, m) => y.(s := s', sent := y.sent[t := (if t in y.sent then y.sent[t] else []) + [m]])
    case Spawn => y.(s := s', sent := y.sent[s'.latest := []], received := y.received[s'.latest := []])
    case Receive =>
      var t := Front(y.s);
      var m := NextMessage(y.s, t);
      if m.Some? then y.(s := s', received := y.received[t := (if t in y.received then y.received[t] else []) + [m.value]])
      else y.(s := s')
    case Exit(code) => y.(s := s', exits := y.exits[Front(y.s) := code])
    case Wait(id) => y.(s := s', consumed := if WaitFinish(y.s, id).1.Some? then y.consumed + {id} else y.consumed)
    case _ => y.(s := s')
  }

  /** The states a run of events leads through. */
  ghost predicate ValidRun(y: Run, events: seq<Event>)
    decreases |events|
  {
    events == [] || (Enabled(y.s, events[0]) && NoLostWakeup(y.s) && ValidRun(Advance(y, events[0]), events[1..]))
  }

  ghost function After(y: Run, events: seq<Event>): Run
    requires ValidRun(y, events)
    decreases |events|
  {
    if events == [] then y else After(Advance(y, events[0]), events[1..])
  }

  /** In every reachable state the queues are in order, no wake-up is lost, and the posted codes are exactly
      the codes passed to Finish that have not been returned yet. */
  lemma {:induction false} EveryRunOk(y: Run, events: seq<Event>)
    requires RunOk(y) && ValidRun(y, events)
    ensures RunOk(After(y, events))
    decreases |events|
  {
    if events != [] {
      AdvanceOk(y, events[0]);
      EveryRunOk(Advance(y, events[0]), events[1..]);
    }
  }

  lemma RunsFromBoot(events: seq<Event>)
    requires ValidRun(BOOT, events)
    ensures RunOk(After(BOOT, events))
  {
    InitialInv();
    EveryRunOk(BOOT, events);
  }

  /** In every run from boot, each message sent to a task that lives is received once, in the order of sending, or waits. */
  lemma MessagesInOrder(events: seq<Event>, t: nat)
    requires ValidRun(BOOT, events) && t in After(BOOT, events).s.tasks
    ensures var y := After(BOOT, events);
      && t in y.sent && t in y.received && y.received[t] <= y.sent[t]
      && y.s.tasks[t].msgs == y.sent[t][|y.received[t]|..]
  {
    RunsFromBoot(events);
  }

  lemma AdvanceOk(y: Run, e: Event)
    requires RunOk(y) && Enabled(y.s, e)
    ensures RunOk(Advance(y, e))
  {
    StepInv(y.s, e);
    StepNoLostWakeup(y.s, e);
    StepMessages(y, e);
    hide Inv, NoLostWakeup, HistoryOk, MessagesOk, Step;
    match e
    case Exit(code) => ExitHistory(y, code);
    case Wait(id) => WaitHistory(y, id);
    case _ => QuietHistory(y, e);
  }

  /** A step appends to the messages of the task it sends to, and takes the first one from those of the task that receives. */
  lemma StepMsgs(s: State, e: Event, t: nat)
    requires Enabled(s, e) && NoLostWakeup(s) && t in Step(s, e).tasks
    ensures e.Spawn? && t == s.latest + 1 ==> t !in s.tasks && Step(s, e).tasks[t].msgs == []
    ensures !(e.Spawn? && t == s.latest + 1) ==> t in s.tasks
    ensures t in s.tasks ==>
      var was, now := s.tasks[t].msgs, Step(s, e).tasks[t].msgs;
      if e.Send? && t == e.to then now == was + [e.m]
      else if e.Receive? && t == Front(s) && was != [] then now == was[1..]
      else now == was
  {
    FrontFacts(s);
    hide Remove, Highest, NoLostWakeup, HigherEmpty;
    match e
    case Send(x, m) => WakeupEffect(SetTask(s, x, s.tasks[x].(msgs := s.tasks[x].msgs + [m])), x, -1);
    case Wake(x, level) => WakeupEffect(s, x, level);
    case Spawn => SpawnFresh(s);
    case Receive =>
      if s.tasks[Front(s)].msgs == [] {
        SleepEffect(SetTask(s, Front(s), s.tasks[Front(s)].(blocked := Receiving)), Front(s));
      }
    case Exit(code) => FinishEffect(s, code);
    case Wait(id) => WaitEffect(s, id);
    case _ =>
  }

  lemma StepMessages(y: Run, e: Event)
    requires RunOk(y) && Enabled(y.s, e)
    ensures MessagesOk(Advance(y, e))
  {
    var y' := Advance(y, e);
    FrontFacts(y.s);
    forall t | t in y'.s.tasks
      ensures t in y'.sent && t in y'.received && y'.sent[t] == y'.received[t] + y'.s.tasks[t].msgs
    {
      StepMsgs(y.s, e, t);
      SpawnLatest(y.s, e);
      hide Inv, NoLostWakeup, HistoryOk, Step;
    }
  }

  lemma SpawnLatest(s: State, e: Event)
    requires Enabled(s, e) && NoLostWakeup(s)
    ensures e.Spawn? ==> Step(s, e).latest == s.latest + 1
  {
  }

  lemma ExitHistory(y: Run, code: int)
    requires RunOk(y) && Enabled(y.s, Exit(code))
    ensures HistoryOk(Advance(y, Exit(code)))
  {
    FrontFacts(y.s);
    FrontKnown(y.s);
    FinishEffect(y.s, code);
    hide Inv, Finish;
  }

  lemma WaitHistory(y: Run, id: nat)
    requires RunOk(y) && Enabled(y.s, Wait(id))
    ensures HistoryOk(Advance(y, Wait(id)))
  {
    WaitEffect(y.s, id);
    hide Inv, WaitFinish, NoLostWakeup;
  }

  lemma QuietHistory(y: Run, e: Event)
    requires RunOk(y) && Enabled(y.s, e) && !e.Exit? && !e.Wait?
    ensures HistoryOk(Advance(y, e))
  {
    StepTasks(y.s, e);
    hide Inv, Step, NoLostWakeup;
  }

  lemma FrontKnown(s: State)
    requires Inv(s)
    ensures Front(s) <= s.latest
  {
    FrontFacts(s);
  }

  /** Steps that are no exit and no wait leave the posted codes alone; only Spawn adds a task. */
  lemma StepTasks(s: State, e: Event)
    requires Enabled(s, e) && NoLostWakeup(s) && !e.Exit? && !e.Wait?
    ensures Step(s, e).tasks.Keys == s.tasks.Keys + (if e.Spawn? then {s.latest + 1} else {})
    ensures Step(s, e).finished == s.finished
    ensures Step(s, e).latest == if e.Spawn? then s.latest + 1 else s.latest
  {
    FrontFacts(s);
    var t := Front(s);
    hide Remove, Highest, NoLostWakeup, QueuesOk, HigherEmpty;
    match e
    case Send(x, m) => WakeupEffect(SetTask(s, x, s.tasks[x].(msgs := s.tasks[x].msgs + [m])), x, -1);
    case Wake(x, level) => WakeupEffect(s, x, level);
    case Receive =>
      if s.tasks[t].msgs == [] {
        SleepEffect(SetTask(s, t, s.tasks[t].(blocked := Receiving)), t);
      }
    case _ =>
  }

  /** WaitFinish returns exactly the code its task passed to Finish, and returns it once. */
  lemma CodeDeliveredOnce(y: Run, id: nat)
    requires RunOk(y) && Enabled(y.s, Wait(id))
    ensures var r := WaitFinish(y.s, id).1;
      && (r.Some? <==> id in y.exits && id !in y.consumed)
      && (r.Some? ==> r.value == y.exits[id] && id in Advance(y, Wait(id)).consumed)
  {
    WaitEffect(y.s, id);
    hide WaitFinish;
  }

  /** A waiter is never asleep while the code it waits for is posted. */
  lemma PostedCodeWakes(y: Run, t: nat, id: nat)
    requires RunOk(y) && t in y.s.tasks && y.s.tasks[t].blocked == WaitingFor(id)
    requires id in y.exits && id !in y.consumed
    ensures y.s.tasks[t].running && t in y.s.queues[y.s.tasks[t].level]
  {
    assert SleepsRightly(y.s, t) && Queued(y.s, t);
  }

  // ---- Fairness --------------------------------------------------------------------------

  /** The event puts nobody to sleep, ends nobody, changes no level and wakes nobody above the current level. */
  ghost predicate Quiet(s: State, e: Event)
    requires Enabled(s, e)
  {
    match e
    case Tick => true
    case Send(t, _) => s.tasks[t].running || s.tasks[t].level <= s.current
    case Wake(t, level) =>
      if s.tasks[t].running then level < 0 || level == s.tasks[t].level
      else (if level < 0 then s.tasks[t].level else level) <= s.current
    case Spawn => true
    case Receive => s.tasks[Front(s)].msgs != []
    case Exit(_) => false
    case Wait(id) => id in s.finished
  }

  ghost predicate QuietRun(y: Run, events: seq<Event>)
    requires ValidRun(y, events)
    decreases |events|
  {
    events == [] || (Quiet(y.s, events[0]) && QuietRun(Advance(y, events[0]), events[1..]))
  }

  function Ticks(events: seq<Event>): nat {
    if events == [] then 0 else (if events[0].Tick? then 1 else 0) + Ticks(events[1..])
  }

  /** Task t stands at position p of the queue that runs. */
  ghost predicate StandsAt(s: State, t: nat, p: nat) {
    Inv(s) && HigherEmpty(s) && p < |s.queues[s.current]| && s.queues[s.current][p] == t
  }

  lemma QuietStep(y: Run, e: Event, t: nat, p: nat)
    requires RunOk(y) && Enabled(y.s, e) && Quiet(y.s, e) && StandsAt(y.s, t, p)
    requires e.Tick? ==> p > 0
    ensures StandsAt(Advance(y, e).s, t, if e.Tick? then p - 1 else p)
  {
    StepInv(y.s, e);
    FrontFacts(y.s);
    hide QueuesOk, NoLostWakeup, HistoryOk, MessagesOk, Remove;
    if e.Tick? {
      TickKeepsLevel(y.s);
    }
  }

  lemma TickKeepsLevel(s: State)
    requires Inv(s) && HigherEmpty(s)
    ensures Rotate(s, false).current == s.current && HigherEmpty(Rotate(s, false))
    ensures Rotate(s, false).queues[s.current] == s.queues[s.current][1..] + [Front(s)]
  {
    RotateTick(s);
  }

  lemma RotateTick(s: State)
    requires |s.queues| == 4 && s.current < 4 && s.queues[s.current] != [] && HigherEmpty(s)
    ensures Rotate(s, false).current == s.current && HigherEmpty(Rotate(s, false))
    ensures Rotate(s, false).queues[s.current] == s.queues[s.current][1..] + [Front(s)]
  {
    var queues := s.queues[s.current := s.queues[s.current][1..] + [Front(s)]];
    assert queues[s.current] != [];
    HighestIs(queues, 3, s.current);
  }

  /** A task at position p becomes current after exactly p rotations, as long as everything else is quiet. */
  lemma {:induction false} Fairness(y: Run, events: seq<Event>, t: nat, p: nat)
    requires RunOk(y) && ValidRun(y, events) && QuietRun(y, events)
    requires StandsAt(y.s, t, p) && Ticks(events) <= p
    ensures StandsAt(After(y, events).s, t, p - Ticks(events))
    ensures Ticks(events) == p ==> Inv(After(y, events).s) && Front(After(y, events).s) == t
    decreases |events|
  {
    hide Inv, NoLostWakeup, HistoryOk, MessagesOk, HigherEmpty, Enabled, Quiet, Advance;
    if events != [] {
      QuietStep(y, events[0], t, p);
      AdvanceOk(y, events[0]);
      Fairness(Advance(y, events[0]), events[1..], t, if events[0].Tick? then p - 1 else p);
    } else {
      StandsInv(y.s, t, p);
    }
    StandsInv(After(y, events).s, t, p - Ticks(events));
  }

  lemma StandsInv(s: State, t: nat, p: nat)
    requires StandsAt(s, t, p)
    ensures Inv(s) && (p == 0 ==> Front(s) == t)
  {
  }
}
