/** Kernel/task.cpp: the task manager, method by method. */
module TaskManagement {
  import opened Options
  import opened Messages
  import opened Scheduler

  class TaskManager {
    var running: seq<seq<nat>>
    var currentLevel: nat
    var levelChanged: bool
    var tasks: map<nat, Task>
    var latestId: nat
    var finishTasks: map<nat, int>
    var finishWaiter: map<nat, nat>

    ghost function Now(): State
      reads this
    {
      State(running, currentLevel, levelChanged, tasks, latestId, finishTasks, finishWaiter)
    }

    lemma NowIs()
      ensures Now() == State(running, currentLevel, levelChanged, tasks, latestId, finishTasks, finishWaiter)
    {
    }

    constructor ()
      ensures Now() == INITIAL && Inv(Now())
      ensures running == [[2], [], [], [1]] && currentLevel == 3 && !levelChanged && tasks.Keys == {1, 2} && latestId == 2
      ensures tasks[1] == Task(3, true, [], Nowhere) && tasks[2] == Task(0, true, [], Nowhere)
    {
      running := [[2], [], [], [1]];
      currentLevel := MAX_LEVEL;
      levelChanged := false;
      tasks := map[1 := Task(MAX_LEVEL, true, [], Nowhere), 2 := Task(0, true, [], Nowhere)];
      latestId := 2;
      finishTasks := map[];
      finishWaiter := map[];
      new;
      InitialInv();
    }

    /** Take the current task off the front of its queue, put it at the end unless it sleeps,
        and pick the highest level that has a task if that may have changed. */
    method RotateCurrentRunQueue(currentSleep: bool) returns (currentTask: nat)
      requires |running| == 4 && currentLevel < 4 && running[currentLevel] != []
      modifies `running, `currentLevel, `levelChanged
      ensures Now() == Rotate(old(Now()), currentSleep) && currentTask == Front(old(Now()))
    {
      ghost var s := Now();
      var level := currentLevel;
      currentTask := running[level][0];
      running := running[level := running[level][1..]];
      if !currentSleep {
        running := running[level := running[level] + [currentTask]];
      }
      assert running == s.queues[level := if currentSleep then s.queues[level][1..] else s.queues[level][1..] + [s.queues[level][0]]];
      if running[level] == [] {
        levelChanged := true;
      }
      if levelChanged {
        levelChanged := false;
        var lv: int := 3;
        while lv >= 0
          invariant -1 <= lv <= 3
          invariant currentLevel == s.current && !levelChanged
          invariant Highest(running, 3, s.current) == Highest(running, lv, s.current)
        {
          if running[lv] != [] {
            currentLevel := lv;
            break;
          }
          lv := lv - 1;
        }
      }
    }

    /** Erase: remove every occurrence of a value from a queue. */
    method Erase(q: seq<nat>, value: nat) returns (r: seq<nat>)
      ensures r == Remove(q, value)
    {
      r := [];
      var i := 0;
      while i < |q|
        invariant 0 <= i <= |q|
        invariant r + Remove(q[i..], value) == Remove(q, value)
      {
        assert q[i..][1..] == q[i + 1..];
        if q[i] != value {
          r := r + [q[i]];
        }
        i := i + 1;
      }
    }

    method SleepTask(t: nat)
      requires Inv(Now()) && t in tasks && t != IDLE
      modifies this
      ensures old(tasks[t].level) < 4 && Now() == Sleep(old(Now()), t) && Inv(Now())
    {
      FrontFacts(Now());
      SleepInv(Now(), t);
      if !tasks[t].running {
        return;
      }
      tasks := tasks[t := tasks[t].(running := false)];
      if t == running[currentLevel][0] {
        var current := RotateCurrentRunQueue(true);
        return;
      }
      var q := Erase(running[tasks[t].level], t);
      running := running[tasks[t].level := q];
    }

    method ChangeLevelRunning(t: nat, level: int)
      requires Inv(Now()) && t in tasks && tasks[t].running && -1 <= level < 4
      modifies this
      ensures old(tasks[t].level) < 4 && Now() == Scheduler.ChangeLevelRunning(old(Now()), t, level) && Inv(Now())
    {
      ChangeLevelInv(Now(), t, level);
      if level < 0 || level == tasks[t].level {
        return;
      }
      if t != running[currentLevel][0] {
        var q := Erase(running[tasks[t].level], t);
        running := running[tasks[t].level := q];
        running := running[level := running[level] + [t]];
        tasks := tasks[t := tasks[t].(level := level)];
        if level > currentLevel {
          levelChanged := true;
        }
        return;
      }
      running := running[currentLevel := running[currentLevel][1..]];
      running := running[level := [t] + running[level]];
      tasks := tasks[t := tasks[t].(level := level)];
      if level >= currentLevel {
        currentLevel := level;
      } else {
        currentLevel := level;
        levelChanged := true;
      }
    }

    method WakeupTask(t: nat, level: int)
      requires Inv(Now()) && t in tasks && -1 <= level < 4
      modifies this
      ensures old(tasks[t].level) < 4 && Now() == Wakeup(old(Now()), t, level) && Inv(Now())
    {
      hide *;
      ghost var s := Now();
      NowIs();
      WakeupInv(s, t, level);
      WakeupIs(s, t, level);
      if tasks[t].running {
        ChangeLevelRunning(t, level);
        return;
      }
      var l := level;
      if l < 0 {
        l := tasks[t].level;
      }
      tasks := tasks[t := tasks[t].(level := l)];
      tasks := tasks[t := tasks[t].(running := true)];
      running := running[l := running[l] + [t]];
      if l > currentLevel {
        levelChanged := true;
      }
      NowIs();
    }

    method AddTask() returns (t: nat)
      requires Inv(Now())
      modifies this
      ensures t == latestId && Now() == NewTask(old(Now())) && Inv(Now())
      ensures t == old(latestId) + 1 && t !in old(tasks) && tasks == old(tasks)[t := Task(1, false, [], Nowhere)]
      ensures running == old(running)
    {
      NewTaskInv(Now());
      latestId := latestId + 1;
      t := latestId;
      tasks := tasks[t := Task(DEFAULT_LEVEL, false, [], Nowhere)];
    }

    /** The timer tick. */
    method SwitchTask()
      requires Inv(Now())
      modifies this
      ensures Now() == Rotate(old(Now()), false) && Inv(Now())
    {
      TickInv(Now());
      var current := RotateCurrentRunQueue(false);
    }

    method Send(t: nat, m: Message) returns (found: bool)
      requires Inv(Now())
      modifies this
      ensures found == (t in old(tasks)) && Inv(Now())
      ensures !found ==> Now() == old(Now())
      ensures found ==> old(tasks[t].level) < 4 && Now() == SendMessage(old(Now()), t, m)
      ensures found ==> t in tasks && tasks[t].running && tasks[t].msgs == old(tasks[t].msgs) + [m]
      ensures found ==> tasks.Keys == old(tasks).Keys && forall x | x in tasks && x != t :: tasks[x] == old(tasks)[x]
    {
      if t !in tasks {
        return false;
      }
      FrontFacts(Now());
      SetTaskInv(Now(), t, tasks[t].(msgs := tasks[t].msgs + [m]));
      tasks := tasks[t := tasks[t].(msgs := tasks[t].msgs + [m])];
      WakeupEffect(Now(), t, -1);
      WakeupTask(t, -1);
      return true;
    }

    /** One round of a receive loop: a message for the current task, or None after putting it to sleep. */
    method Receive() returns (m: Option<Message>)
      requires Inv(Now()) && Front(Now()) != IDLE
      modifies this
      ensures Now() == ReceiveOrSleep(old(Now())) && Inv(Now())
      ensures Front(old(Now())) in old(tasks)
      ensures var t := Front(old(Now()));
        var msgs := old(tasks)[t].msgs;
        && t in tasks && m == (if msgs == [] then None else Some(msgs[0]))
        && (m.Some? ==> tasks == old(tasks)[t := old(tasks)[t].(msgs := msgs[1..], blocked := Nowhere)] && running == old(running))
        && (m.None? ==> tasks == old(tasks)[t := old(tasks)[t].(running := false, blocked := Receiving)])
    {
      FrontFacts(Now());
      var t := running[currentLevel][0];
      if tasks[t].msgs == [] {
        SetTaskInv(Now(), t, tasks[t].(blocked := Receiving));
        tasks := tasks[t := tasks[t].(blocked := Receiving)];
        SleepEffect(Now(), t);
        SleepTask(t);
        return None;
      }
      m := Some(tasks[t].msgs[0]);
      SetTaskInv(Now(), t, tasks[t].(msgs := tasks[t].msgs[1..], blocked := Nowhere));
      tasks := tasks[t := tasks[t].(msgs := tasks[t].msgs[1..], blocked := Nowhere)];
    }

    method FinishCurrent(exitCode: int)
      requires Enabled(Now(), Exit(exitCode)) && NoLostWakeup(Now())
      modifies this
      ensures Now() == Step(old(Now()), Exit(exitCode)) && Inv(Now()) && NoLostWakeup(Now())
    {
      hide Inv, NoLostWakeup, Enabled, Rotate, Wakeup, Finish;
      ghost var s := Now();
      StepInv(s, Exit(exitCode));
      StepNoLostWakeup(s, Exit(exitCode));
      ExitReady(s, exitCode);
      var t := RotateCurrentRunQueue(true);
      tasks := tasks - {t};
      finishTasks := finishTasks[t := exitCode];
      if t in finishWaiter {
        var w := finishWaiter[t];
        finishWaiter := finishWaiter - {t};
        assert Now() == Ended(s, exitCode);
        WakeupTask(w, -1);
      } else {
        assert finishWaiter - {t} == finishWaiter;
      }
    }

    /** The loop of WaitFinish, from its head to its return or to Sleep. */
    method WaitForFinish(id: nat) returns (r: Option<int>)
      requires Enabled(Now(), Wait(id)) && NoLostWakeup(Now())
      modifies this
      ensures Now() == Step(old(Now()), Wait(id)) && Inv(Now()) && NoLostWakeup(Now())
      ensures r == WaitFinish(old(Now()), id).1
    {
      StepInv(Now(), Wait(id));
      StepNoLostWakeup(Now(), Wait(id));
      FrontFacts(Now());
      var t := running[currentLevel][0];
      if id in finishTasks {
        r := Some(finishTasks[id]);
        finishTasks := finishTasks - {id};
        tasks := tasks[t := tasks[t].(blocked := Nowhere)];
        return;
      }
      SameScheduling(Now(), Now().(waiter := finishWaiter[id := t]));
      finishWaiter := finishWaiter[id := t];
      SetTaskInv(Now(), t, tasks[t].(blocked := WaitingFor(id)));
      tasks := tasks[t := tasks[t].(blocked := WaitingFor(id))];
      SleepTask(t);
      return None;
    }
  }
}
