/** The queue as the object that the program updates in place. Each critical
    section is written as the source writes it and is proved to be a stretch of
    one thread's steps of the machine, taken without interruption.
 */
module WorkerQueueObject {
  import opened Common
  import opened WorkerQueue
  import opened WorkerQueueTheorems

  /** A whole call of Push: the call and five steps of its thread. */
  function PushScript<T>(id: nat, f: T): seq<Action<T>> { [PushCall(id, f)] + Times(PusherMoves(id), 5) }

  /** The destructor up to the join. */
  function CloseScript<T>(): seq<Action<T>> { [CloseCall] + Times(CloserMoves, 4) }

  lemma ExecFirst<T>(c: Config, s: State<T>, a: Action<T>, rest: seq<Action<T>>)
    requires Next(c, s, a).Some?
    ensures Exec(c, s, [a] + rest) == Exec(c, Next(c, s, a).value, rest)
  {
    assert ([a] + rest)[1..] == rest;
  }

  lemma PushRuns<T>(c: Config, s: State<T>, id: nat, f: T, s': State<T>)
    requires s.lock.Free? && id !in s.pushers
    requires s' == s.(queue := s.queue + [f], worker := Notify(s.worker),
                      log := s.log + (if c.announces && s.queue == [] && !s.busy then [PlayFirst] else []) + [Pushed(f)])
    ensures Exec(c, s, PushScript(id, f)) == Some(s')
  {
    var m := Action.PusherMoves(id);
    var s1 := Next(c, s, PushCall(id, f)).value;
    var s2 := Next(c, s1, m).value;
    var s3 := Next(c, s2, m).value;
    var s4 := Next(c, s3, m).value;
    var s5 := Next(c, s4, m).value;
    var s6 := Next(c, s5, m).value;
    assert s6.pushers == s.pushers;
    ExecFirst(c, s, PushCall(id, f), Times(m, 5));
    ExecTimes(c, s1, m, 5);
    ExecTimes(c, s2, m, 4);
    ExecTimes(c, s3, m, 3);
    ExecTimes(c, s4, m, 2);
    ExecTimes(c, s5, m, 1);
  }

  lemma CloseRuns<T>(c: Config, s: State<T>, s': State<T>)
    requires s.lock.Free? && s.closer.CIdle?
    requires s' == s.(quit := true, worker := Notify(s.worker), closer := CJoining, log := s.log + [Quit])
    ensures Exec(c, s, CloseScript()) == Some(s')
  {
    var s1 := Next(c, s, CloseCall).value;
    var s2 := Next(c, s1, CloserMoves).value;
    var s3 := Next(c, s2, CloserMoves).value;
    var s4 := Next(c, s3, CloserMoves).value;
    ExecFirst(c, s, CloseCall, Times(CloserMoves, 4));
    ExecTimes(c, s1, CloserMoves, 4);
    ExecTimes(c, s2, CloserMoves, 3);
    ExecTimes(c, s3, CloserMoves, 2);
    ExecTimes(c, s4, CloserMoves, 1);
  }

  /** The state after the worker's second critical section. */
  function Returned<T>(c: Config, s: State<T>): State<T> {
    var report := if c.reports then [OnFinish(s.history)] else [];
    var cleared := if s.queue == [] then s.(history := [], log := s.log + report + [Cleared(s.history)]) else s;
    if s.quit then cleared.(busy := false, worker := WExited)
    else cleared.(lock := Held(Worker), busy := false, worker := WCheck)
  }

  lemma ReturnRuns<T>(c: Config, s: State<T>)
    requires s.worker.WRelock? && s.lock.Free?
    ensures Exec(c, s, Times(WorkerMoves, 4)) == Some(Returned(c, s))
  {
    var s1 := WorkerStep(c, s).value;
    var s2 := WorkerStep(c, s1).value;
    var s3 := WorkerStep(c, s2).value;
    var s4 := WorkerStep(c, s3).value;
    assert s4 == Returned(c, s);
    ExecTimes(c, s, WorkerMoves, 4);
    ExecTimes(c, s1, WorkerMoves, 3);
    ExecTimes(c, s2, WorkerMoves, 2);
    ExecTimes(c, s3, WorkerMoves, 1);
  }

  /** The state after the worker's first critical section, once the wait is over. */
  function Decided<T>(s: State<T>): State<T> {
    if s.queue != [] && !s.quit then
      s.(lock := Free, queue := s.queue[1..], busy := true, history := s.history + [s.queue[0]],
         worker := WUnlocked(s.queue[0]), log := s.log + [Taken(s.queue[0])])
    else s.(lock := Free, worker := WExited)
  }

  lemma HandleRuns<T>(c: Config, s: State<T>)
    requires s.worker.WCheck? && !s.busy && (s.queue != [] || s.quit)
    ensures Exec(c, s, Times(WorkerMoves, 3)) == Some(Decided(s))
  {
    var s1 := WorkerStep(c, s).value;
    var s2 := WorkerStep(c, s1).value;
    ExecTimes(c, s, WorkerMoves, 3);
    ExecTimes(c, s1, WorkerMoves, 2);
    ExecTimes(c, s2, WorkerMoves, 1);
    assert WorkerStep(c, s2) == Some(Decided(s));
  }

  class QueueObject<T> {
    const config: Config
    var lock: Lock
    var queue: seq<T>
    var busy: bool
    var quit: bool
    var history: seq<T>
    // where the threads are, and what has happened so far
    var worker: WorkerPc<T>
    var pushers: map<nat, PushPc<T>>
    var closer: ClosePc
    var log: seq<Event<T>>

    function View(): State<T>
      reads this
    {
      State(lock, queue, busy, quit, history, worker, pushers, closer, log)
    }

    constructor (c: Config)
      ensures config == c && View() == Init()
    {
      config := c;
      lock, queue, busy, quit, history := Free, [], false, false, [];
      worker, pushers, closer, log := WStart, map[], CIdle, [];
    }

    method Push(id: nat, f: T)
      requires lock.Free? && id !in pushers
      modifies this
      ensures Exec(config, old(View()), PushScript(id, f)) == Some(View())
    {
      ghost var before := View();
      lock := Held(Pusher(id));
      if config.announces && queue == [] && !busy {
        log := log + [PlayFirst];
      }
      queue := queue + [f];
      log := log + [Pushed(f)];
      worker := Notify(worker);
      lock := Free;
      assert before.log + [] == before.log;
      PushRuns(config, before, id, f, View());
    }

    /** From the wait predicate to the point where the worker gives the lock up:
        asleep, with an item in its hands, or out of the loop. */
    method Handle() returns (n: nat)
      requires worker == WCheck && lock == Held(Worker)
      modifies this
      ensures Exec(config, old(View()), Times(WorkerMoves, n)) == Some(View())
      ensures lock.Free? && (worker == WBlocked(false) || worker.WUnlocked? || worker.WExited?)
    {
      ghost var s0 := View();
      if busy || (queue == [] && !quit) {
        lock, worker := Free, WBlocked(false);
        ExecTimes(config, s0, WorkerMoves, 1);
        return 1;
      }
      if queue != [] && !quit && !busy {
        var item := queue[0];
        queue := queue[1..];
        busy := true;
        history := history + [item];
        log := log + [Taken(item)];
        lock, worker := Free, WUnlocked(item);
      } else {
        assert quit;  // the loop condition ends the loop
        lock, worker := Free, WExited;
      }
      HandleRuns(config, s0);
      assert View() == Decided(s0);
      return 3;
    }

    /** From the return of the callback to the next evaluation of the wait predicate, or the exit. */
    method Return()
      requires worker.WRelock? && lock.Free?
      modifies this
      ensures Exec(config, old(View()), Times(WorkerMoves, 4)) == Some(View())
      ensures worker == if old(quit) then WExited else WCheck
    {
      ghost var before := View();
      lock := Held(Worker);
      busy := false;
      if queue == [] {
        if config.reports {
          log := log + [OnFinish(history)];
        }
        log := log + [Cleared(history)];
        history := [];
      }
      if quit {
        lock, worker := Free, WExited;
      } else {
        worker := WCheck;
      }
      assert before.log + [] == before.log;
      assert View() == Returned(config, before);
      ReturnRuns(config, before);
    }

    /** The destructor up to the join. */
    method Close()
      requires lock.Free? && closer.CIdle?
      modifies this
      ensures Exec(config, old(View()), CloseScript()) == Some(View())
    {
      ghost var before := View();
      lock := Held(Closer);
      quit := true;
      log := log + [Quit];
      worker := Notify(worker);
      lock := Free;
      closer := CJoining;
      CloseRuns(config, before, View());
    }
  }

  // ----------------------------------------------------------- findings

  /** A queue can look idle to whoever reads its history while a pushed item
      still waits: the history is empty and the queue is not. */
  lemma HistoryMissesQueuedItem<T>(c: Config, x: T) returns (acts: seq<Action<T>>, s: State<T>)
    ensures Run(c, acts, s) && s.lock.Free? && s.history == [] && s.queue == [x]
    ensures s.worker.WStart? && s.closer.CIdle? && !s.busy && !s.quit
  {
    acts := PushScript(0, x);
    s := Init<T>().(queue := [x], log := (if c.announces then [PlayFirst] else []) + [Pushed(x)]);
    var announced: seq<Event<T>> := if c.announces then [PlayFirst] else [];
    assert [] + [x] == [x] && [] + announced == announced;
    PushRuns(c, Init<T>(), 0, x, s);
  }

  lemma {:induction false} ExecAppend<T>(c: Config, s: State<T>, a: seq<Action<T>>, b: seq<Action<T>>)
    requires Exec(c, s, a).Some?
    ensures Exec(c, s, a + b) == Exec(c, Exec(c, s, a).value, b)
    decreases |a|
  {
    if a == [] {
      assert a + b == b;
    } else {
      assert (a + b)[1..] == a[1..] + b;
      ExecAppend(c, Next(c, s, a[0]).value, a[1..], b);
    }
  }

  /** The item is taken and the lock free, but its callback has not been entered. */
  lemma ItemTakenNotStarted<T>(c: Config, x: T) returns (acts: seq<Action<T>>, s: State<T>)
    ensures Run(c, acts, s) && s.lock.Free? && s.closer.CIdle? && s.worker == WUnlocked(x)
  {
    var push, pushed := HistoryMissesQueuedItem(c, x);
    var w1 := WorkerStep(c, pushed).value;
    var w2 := WorkerStep(c, w1).value;
    var w3 := WorkerStep(c, w2).value;
    s := WorkerStep(c, w3).value;
    ExecTimes(c, pushed, WorkerMoves, 4);
    ExecTimes(c, w1, WorkerMoves, 3);
    ExecTimes(c, w2, WorkerMoves, 2);
    ExecTimes(c, w3, WorkerMoves, 1);
    acts := push + Times(WorkerMoves, 4);
    ExecAppend(c, Init<T>(), push, Times(WorkerMoves, 4));
  }

  /** A callback can be entered after quit is stored: the item was taken before. */
  lemma LateStartHappens<T>(c: Config, x: T) returns (acts: seq<Action<T>>, s: State<T>)
    ensures Run(c, acts, s) && LateStarts(s.log) == 1
  {
    var taking, taken := ItemTakenNotStarted(c, x);
    var closed := taken.(quit := true, closer := CJoining, log := taken.log + [Quit]);
    CloseRuns(c, taken, closed);
    s := WorkerStep(c, closed).value;
    ExecTimes(c, closed, WorkerMoves, 1);
    ExecAppend(c, taken, CloseScript(), Times(WorkerMoves, 1));
    acts := taking + (CloseScript() + Times(WorkerMoves, 1));
    ExecAppend(c, Init<T>(), taking, CloseScript() + Times(WorkerMoves, 1));
    RunInv(c, acts, s);
    LogGrows(c, closed.log, Started(x));
    assert closed.log[|taken.log|].Quit?;
  }

  /** With the lock free, the history is empty only if no callback is under way. */
  lemma EmptyHistoryMeansNotBusy<T>(c: Config, acts: seq<Action<T>>, s: State<T>)
    requires Run(c, acts, s) && s.lock.Free?
    ensures s.history == [] ==> !s.busy
    ensures s.history != [] ==> s.busy || s.queue != []
  {
    RunInv(c, acts, s);
  }
}
