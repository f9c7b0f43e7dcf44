/** What the worker-queue protocol guarantees in every run. */
module WorkerQueueTheorems {
  import opened Common
  import opened WorkerQueue

  // ------------------------------------------------------------ invariant

  predicate WorkerHolds<T>(w: WorkerPc<T>) {
    w.WCheck? || w.WDecide? || w.WTaken? || w.WReturned? || w.WCleared? || w.WTest?
  }

  predicate PusherHolds<T>(p: PushPc<T>) { !p.PWants? }

  predicate CloserHolds(p: ClosePc) { p.CHolds? || p.CStored? || p.CNotified? }

  predicate InFlight<T>(w: WorkerPc<T>) {
    w.WTaken? || w.WUnlocked? || w.WRunning? || w.WRelock? || w.WReturned?
  }

  /** The taken item whose callback has not returned yet. */
  function Unfinished<T>(w: WorkerPc<T>): seq<T> {
    if w.WTaken? || w.WUnlocked? || w.WRunning? then [w.item] else []
  }

  function NowRunning<T>(w: WorkerPc<T>): seq<T> { if w.WRunning? then [w.item] else [] }

  /** The pusher that holds the lock, at the given stage. */
  predicate HolderAnnounced<T>(s: State<T>) {
    s.lock.Held? && s.lock.owner.Pusher? && s.lock.owner.id in s.pushers && s.pushers[s.lock.owner.id].PAnnounced?
  }

  predicate HolderStored<T>(s: State<T>) {
    s.lock.Held? && s.lock.owner.Pusher? && s.lock.owner.id in s.pushers && s.pushers[s.lock.owner.id].PStored?
  }

  ghost predicate LockInv<T>(s: State<T>) {
    && (s.lock == Held(Worker) <==> WorkerHolds(s.worker))
    && (s.lock == Held(Closer) <==> CloserHolds(s.closer))
    && (forall id :: id in s.pushers && PusherHolds(s.pushers[id]) ==> s.lock == Held(Pusher(id)))
    && (s.lock.Held? && s.lock.owner.Pusher? ==> s.lock.owner.id in s.pushers && PusherHolds(s.pushers[s.lock.owner.id]))
  }

  ghost predicate FlagInv<T>(s: State<T>) {
    && (s.busy <==> InFlight(s.worker))
    && (s.quit <==> !(s.closer.CIdle? || s.closer.CWants? || s.closer.CHolds?))
    && (s.worker.WDecide? ==> s.queue != [] || s.quit)
    && (s.worker.WExited? ==> s.quit)
  }

  /** A sleeping worker that nobody has notified has nothing to do, unless the
      thread that gave it something still holds the lock and is about to notify. */
  ghost predicate WakeInv<T>(s: State<T>) {
    s.worker == WBlocked(false) ==>
      && (s.queue == [] || HolderStored(s))
      && (!s.quit || s.closer.CStored?)
  }

  ghost predicate TraceInv<T>(s: State<T>) {
    && PushedOf(s.log) == TakenOf(s.log) + s.queue
    && TakenOf(s.log) == FinishedOf(s.log) + Unfinished(s.worker)
    && StartedOf(s.log) == FinishedOf(s.log) + NowRunning(s.worker)
  }

  ghost predicate SessionInv<T>(c: Config, s: State<T>) { SessionShape(c, SessionOf(c, s.log), s) }

  ghost predicate SessionShape<T>(c: Config, session: Session<T>, s: State<T>) {
    match session
    case Idle =>
      && s.history == [] && s.queue == [] && !s.busy && !s.worker.WCleared?
      && (c.announces ==> !HolderAnnounced(s))
    case Open(files) =>
      && files == s.history + s.queue
      && (s.busy || s.queue != [] || s.worker.WCleared? || (c.announces && HolderAnnounced(s)))
      && (s.busy || s.worker.WCleared? ==> s.history != [])
    case _ => false
  }

  ghost predicate QuitInv<T>(s: State<T>) {
    && (s.quit <==> HasQuit(s.log))
    && NothingTakenAfterQuit(s.log)
    && LateStarts(s.log) <= 1
    && (s.quit && Unstarted(s.worker) ==> LateStarts(s.log) == 0)
    && (!s.quit ==> LateStarts(s.log) == 0)
  }

  predicate Unstarted<T>(w: WorkerPc<T>) { w.WTaken? || w.WUnlocked? }

  ghost predicate NothingTakenAfterQuit<T>(log: seq<Event<T>>) {
    forall i, j :: 0 <= i < j < |log| && log[i].Quit? ==> !log[j].Taken?
  }

  /** How many callbacks are entered after the destructor has stored quit. */
  ghost function LateStarts<T>(log: seq<Event<T>>): nat {
    if log == [] then 0 else
    LateStarts(log[..|log| - 1]) +
    (if log[|log| - 1].Started? && HasQuit(log[..|log| - 1]) then 1 else 0)
  }

  ghost predicate Inv<T>(c: Config, s: State<T>) {
    LockInv(s) && FlagInv(s) && WakeInv(s) && TraceInv(s) && SessionInv(c, s) && QuitInv(s)
  }

  // ----------------------------------------------------------- every step

  lemma LogGrows<T>(c: Config, log: seq<Event<T>>, e: Event<T>)
    ensures PushedOf(log + [e]) == PushedOf(log) + (if e.Pushed? then [e.item] else [])
    ensures TakenOf(log + [e]) == TakenOf(log) + (if e.Taken? then [e.item] else [])
    ensures StartedOf(log + [e]) == StartedOf(log) + (if e.Started? then [e.item] else [])
    ensures FinishedOf(log + [e]) == FinishedOf(log) + (if e.Finished? then [e.item] else [])
    ensures SessionOf(c, log + [e]) == Advance(c, SessionOf(c, log), e)
    ensures LateStarts(log + [e]) ==
      LateStarts(log) + (if e.Started? && HasQuit(log) then 1 else 0)
  {
    var longer := log + [e];
    assert longer[..|longer| - 1] == log;
  }

  lemma InitInv<T>(c: Config)
    ensures Inv(c, Init<T>())
  {
  }

  lemma WorkerKeepsLocks<T>(c: Config, s: State<T>)
    requires LockInv(s) && FlagInv(s) && WorkerStep(c, s).Some?
    ensures LockInv(WorkerStep(c, s).value) && FlagInv(WorkerStep(c, s).value)
  {
    var s' := WorkerStep(c, s).value;
    assert s'.pushers == s.pushers && s'.closer == s.closer && s'.quit == s.quit;
    assert s'.lock != s.lock ==> s'.lock == Held(Worker) || s.lock == Held(Worker);
  }

  lemma PusherKeepsLocks<T>(c: Config, s: State<T>, id: nat)
    requires LockInv(s) && FlagInv(s) && PusherStep(c, s, id).Some?
    ensures LockInv(PusherStep(c, s, id).value) && FlagInv(PusherStep(c, s, id).value)
  {
    var s' := PusherStep(c, s, id).value;
    assert s'.closer == s.closer && s'.quit == s.quit && s'.busy == s.busy;
    assert WorkerHolds(s'.worker) == WorkerHolds(s.worker);
  }

  lemma CloserKeepsLocks<T>(s: State<T>)
    requires LockInv(s) && FlagInv(s) && CloserStep(s).Some?
    ensures LockInv(CloserStep(s).value) && FlagInv(CloserStep(s).value)
  {
  }

  lemma StepKeepsLocks<T>(c: Config, s: State<T>, a: Action<T>)
    requires LockInv(s) && FlagInv(s) && Next(c, s, a).Some?
    ensures LockInv(Next(c, s, a).value) && FlagInv(Next(c, s, a).value)
  {
    match a {
      case WorkerMoves => WorkerKeepsLocks(c, s);
      case PusherMoves(id) => PusherKeepsLocks(c, s, id);
      case CloserMoves => CloserKeepsLocks(s);
      case PushCall(id, item) =>
      case SpuriousWakeup =>
      case CloseCall =>
    }
  }

  lemma StepKeepsWake<T>(c: Config, s: State<T>, a: Action<T>)
    requires LockInv(s) && FlagInv(s) && WakeInv(s) && Next(c, s, a).Some?
    ensures WakeInv(Next(c, s, a).value)
  {
  }

  /** What an event says about the queue and the worker's item. */
  ghost predicate Fits<T>(s: State<T>, s': State<T>, e: Event<T>) {
    match e
    case Pushed(x) =>
      s'.queue == s.queue + [x] && Unfinished(s'.worker) == Unfinished(s.worker) && NowRunning(s'.worker) == NowRunning(s.worker)
    case Taken(x) =>
      s.queue == [x] + s'.queue && Unfinished(s.worker) == [] && Unfinished(s'.worker) == [x] && NowRunning(s'.worker) == NowRunning(s.worker) == []
    case Started(x) =>
      s'.queue == s.queue && Unfinished(s.worker) == Unfinished(s'.worker) && NowRunning(s.worker) == [] && NowRunning(s'.worker) == [x] == Unfinished(s.worker)
    case Finished(x) =>
      s'.queue == s.queue && Unfinished(s.worker) == NowRunning(s.worker) == [x] && Unfinished(s'.worker) == NowRunning(s'.worker) == []
    case _ =>
      s'.queue == s.queue && Unfinished(s'.worker) == Unfinished(s.worker) && NowRunning(s'.worker) == NowRunning(s.worker)
  }

  lemma TraceOneMore<T>(c: Config, s: State<T>, s': State<T>, e: Event<T>)
    requires TraceInv(s) && s'.log == s.log + [e] && Fits(s, s', e)
    ensures TraceInv(s')
  {
    LogGrows(c, s.log, e);
    var p, t, f, r := PushedOf(s.log), TakenOf(s.log), FinishedOf(s.log), StartedOf(s.log);
    match e {
      case Pushed(x) => assert p + [x] == t + (s.queue + [x]);
      case Taken(x) => assert p == (t + [x]) + s'.queue; assert t + [x] == f + [x];
      case Started(x) =>
      case Finished(x) => assert t == (f + [x]) + [];
      case _ =>
    }
  }

  /** A step logs nothing, one fitting event, or the two events of the clearing step. */
  ghost predicate Logs<T>(c: Config, s: State<T>, s': State<T>) {
    || (s'.log == s.log && s'.queue == s.queue && Unfinished(s'.worker) == Unfinished(s.worker) && NowRunning(s'.worker) == NowRunning(s.worker))
    || (|s'.log| == |s.log| + 1 && s'.log == s.log + [s'.log[|s.log|]] && Fits(s, s', s'.log[|s.log|]))
    || (s.worker.WCleared? && s.queue == [] && s' == s.(history := [], worker := WTest, log := s.log + [OnFinish(s.history)] + [Cleared(s.history)]))
  }

  lemma WorkerLogs<T>(c: Config, s: State<T>)
    requires WorkerStep(c, s).Some?
    ensures Logs(c, s, WorkerStep(c, s).value)
  {
    if s.worker.WCleared? {
      assert s.log + [] == s.log;
    } else if s.worker.WDecide? && s.queue != [] && !s.quit && !s.busy {
      assert s.queue == [s.queue[0]] + s.queue[1..];
    }
  }

  lemma StepLogs<T>(c: Config, s: State<T>, a: Action<T>)
    requires Next(c, s, a).Some?
    ensures Logs(c, s, Next(c, s, a).value)
  {
    if a.WorkerMoves? { WorkerLogs(c, s); }
    assert s.log + [] == s.log;
  }

  lemma StepKeepsTrace<T>(c: Config, s: State<T>, a: Action<T>)
    requires TraceInv(s) && Next(c, s, a).Some?
    ensures TraceInv(Next(c, s, a).value)
  {
    StepLogs(c, s, a);
    LogsKeepTrace(c, s, Next(c, s, a).value);
  }

  lemma LogsKeepTrace<T>(c: Config, s: State<T>, s': State<T>)
    requires TraceInv(s) && Logs(c, s, s')
    ensures TraceInv(s')
  {
    if s'.log == s.log {
    } else if |s'.log| == |s.log| + 1 {
      TraceOneMore(c, s, s', s'.log[|s.log|]);
    } else {
      var mid := s.(log := s.log + [OnFinish(s.history)]);
      TraceOneMore(c, s, mid, OnFinish(s.history));
      TraceOneMore(c, mid, s', Cleared(s.history));
    }
  }

  /** The session after the events that a step adds to the log. */
  ghost predicate ShapeAfter<T>(c: Config, session: Session<T>, s: State<T>, s': State<T>) {
    && (s'.log == s.log ==> SessionShape(c, session, s'))
    && (|s'.log| == |s.log| + 1 ==> SessionShape(c, Advance(c, session, s'.log[|s.log|]), s'))
    && (|s'.log| == |s.log| + 2 ==>
          SessionShape(c, Advance(c, Advance(c, session, OnFinish(s.history)), Cleared(s.history)), s'))
  }

  lemma TakeShape<T>(c: Config, s: State<T>, session: Session<T>)
    requires SessionShape(c, session, s) && s.worker.WDecide? && s.queue != [] && !s.busy
    ensures ShapeAfter(c, session, s, WorkerStep(c, s).value)
  {
    assert (s.history + [s.queue[0]]) + s.queue[1..] == s.history + s.queue;
  }

  lemma ClearShape<T>(c: Config, s: State<T>, session: Session<T>)
    requires SessionShape(c, session, s) && s.worker.WCleared?
    requires LockInv(s) && FlagInv(s)
    ensures ShapeAfter(c, session, s, WorkerStep(c, s).value)
  {
    assert s.history + [] == s.history && s.log + [] == s.log;
  }

  lemma WorkerShape<T>(c: Config, s: State<T>, session: Session<T>)
    requires LockInv(s) && FlagInv(s) && SessionShape(c, session, s) && WorkerStep(c, s).Some?
    ensures ShapeAfter(c, session, s, WorkerStep(c, s).value)
  {
    if s.worker.WDecide? {
      if s.queue != [] && !s.quit { TakeShape(c, s, session); }
    } else if s.worker.WCleared? {
      ClearShape(c, s, session);
    }
  }

  lemma PusherShape<T>(c: Config, s: State<T>, session: Session<T>, id: nat)
    requires LockInv(s) && FlagInv(s) && SessionShape(c, session, s) && PusherStep(c, s, id).Some?
    ensures ShapeAfter(c, session, s, PusherStep(c, s, id).value)
  {
    if s.pushers[id].PAnnounced? {
      var x := s.pushers[id].item;
      assert s.history + (s.queue + [x]) == (s.history + s.queue) + [x];
    }
  }

  lemma StepShape<T>(c: Config, s: State<T>, session: Session<T>, a: Action<T>)
    requires LockInv(s) && FlagInv(s) && SessionShape(c, session, s) && Next(c, s, a).Some?
    ensures ShapeAfter(c, session, s, Next(c, s, a).value)
  {
    match a {
      case WorkerMoves => WorkerShape(c, s, session);
      case PusherMoves(id) => PusherShape(c, s, session, id);
      case CloserMoves =>
      case PushCall(id, item) =>
      case SpuriousWakeup =>
      case CloseCall =>
    }
  }

  lemma StepKeepsSession<T>(c: Config, s: State<T>, a: Action<T>)
    requires LockInv(s) && FlagInv(s) && SessionInv(c, s) && Next(c, s, a).Some?
    ensures SessionInv(c, Next(c, s, a).value)
  {
    StepShape(c, s, SessionOf(c, s.log), a);
    StepLogs(c, s, a);
    SessionFollows(c, s, Next(c, s, a).value);
  }

  lemma SessionFollows<T>(c: Config, s: State<T>, s': State<T>)
    requires Logs(c, s, s') && ShapeAfter(c, SessionOf(c, s.log), s, s')
    ensures SessionInv(c, s')
  {
    if s'.log == s.log {
    } else if |s'.log| == |s.log| + 1 {
      LogGrows(c, s.log, s'.log[|s.log|]);
    } else {
      LogGrows(c, s.log, OnFinish(s.history));
      LogGrows(c, s.log + [OnFinish(s.history)], Cleared(s.history));
    }
  }

  /** What an event says about quit. */
  ghost predicate QuitFits<T>(s: State<T>, s': State<T>, e: Event<T>) {
    && s'.quit == (s.quit || e.Quit?)
    && (e.Quit? ==> !s.quit)
    && (e.Taken? ==> !s.quit)
    && (e.Started? ==> Unstarted(s.worker) && !Unstarted(s'.worker))
    && (Unstarted(s'.worker) && s'.quit && !e.Quit? ==> Unstarted(s.worker))
  }

  predicate HasQuit<T>(log: seq<Event<T>>) { exists i :: 0 <= i < |log| && log[i].Quit? }

  lemma HasQuitGrows<T>(log: seq<Event<T>>, e: Event<T>)
    ensures HasQuit(log + [e]) <==> HasQuit(log) || e.Quit?
  {
    var longer := log + [e];
    assert longer[|log|] == e;
    if i :| 0 <= i < |log| && log[i].Quit? { assert longer[i].Quit?; }
    if i :| 0 <= i < |longer| && longer[i].Quit? { assert i < |log| ==> log[i].Quit?; }
  }

  lemma TakenGrows<T>(log: seq<Event<T>>, e: Event<T>)
    requires NothingTakenAfterQuit(log) && (e.Taken? ==> !HasQuit(log))
    ensures NothingTakenAfterQuit(log + [e])
  {
    var longer := log + [e];
    forall i, j | 0 <= i < j < |longer| && longer[i].Quit? ensures !longer[j].Taken? {
      assert log[i].Quit?;
      if j < |log| { assert longer[j] == log[j]; }
    }
  }

  lemma QuitOneMore<T>(c: Config, s: State<T>, s': State<T>, e: Event<T>)
    requires QuitInv(s) && s'.log == s.log + [e] && QuitFits(s, s', e)
    ensures QuitInv(s')
  {
    LogGrows(c, s.log, e);
    HasQuitGrows(s.log, e);
    TakenGrows(s.log, e);
  }

  lemma StepFitsQuit<T>(c: Config, s: State<T>, a: Action<T>)
    requires FlagInv(s) && Next(c, s, a).Some?
    ensures var s' := Next(c, s, a).value;
      && (s'.log == s.log ==> s'.quit == s.quit && (Unstarted(s'.worker) ==> Unstarted(s.worker)))
      && (|s'.log| == |s.log| + 1 ==> QuitFits(s, s', s'.log[|s.log|]))
  {
  }

  lemma StepKeepsQuit<T>(c: Config, s: State<T>, a: Action<T>)
    requires FlagInv(s) && QuitInv(s) && Next(c, s, a).Some?
    ensures QuitInv(Next(c, s, a).value)
  {
    StepFitsQuit(c, s, a);
    StepLogs(c, s, a);
    QuitFollows(c, s, Next(c, s, a).value);
  }

  lemma QuitFollows<T>(c: Config, s: State<T>, s': State<T>)
    requires QuitInv(s) && Logs(c, s, s')
    requires s'.log == s.log ==> s'.quit == s.quit && (Unstarted(s'.worker) ==> Unstarted(s.worker))
    requires |s'.log| == |s.log| + 1 ==> QuitFits(s, s', s'.log[|s.log|])
    ensures QuitInv(s')
  {
    if s'.log == s.log {
    } else if |s'.log| == |s.log| + 1 {
      QuitOneMore(c, s, s', s'.log[|s.log|]);
    } else {
      var mid := s.(log := s.log + [OnFinish(s.history)]);
      QuitOneMore(c, s, mid, OnFinish(s.history));
      QuitOneMore(c, mid, s', Cleared(s.history));
    }
  }

  lemma StepKeepsInv<T>(c: Config, s: State<T>, a: Action<T>)
    requires Inv(c, s) && Next(c, s, a).Some?
    ensures Inv(c, Next(c, s, a).value)
  {
    StepKeepsLocks(c, s, a);
    StepKeepsWake(c, s, a);
    StepKeepsTrace(c, s, a);
    StepKeepsSession(c, s, a);
    StepKeepsQuit(c, s, a);
  }

  lemma {:induction false} RunKeepsInv<T>(c: Config, s: State<T>, acts: seq<Action<T>>)
    requires Inv(c, s) && Exec(c, s, acts).Some?
    ensures Inv(c, Exec(c, s, acts).value)
    decreases |acts|
  {
    if acts != [] {
      StepKeepsInv(c, s, acts[0]);
      RunKeepsInv(c, Next(c, s, acts[0]).value, acts[1..]);
    }
  }

  // ---------------------------------------------------- theorems about runs

  ghost predicate Run<T>(c: Config, acts: seq<Action<T>>, s: State<T>) {
    Exec(c, Init<T>(), acts) == Some(s)
  }

  lemma RunInv<T>(c: Config, acts: seq<Action<T>>, s: State<T>)
    requires Run(c, acts, s)
    ensures Inv(c, s)
  {
    InitInv<T>(c);
    RunKeepsInv(c, Init<T>(), acts);
  }

  /** Nothing is lost, duplicated or reordered: what was pushed is what has
      finished, then what is in the worker's hands, then what is still queued;
      and callbacks are entered in push order, one at a time. */
  lemma Conservation<T>(c: Config, acts: seq<Action<T>>, s: State<T>)
    requires Run(c, acts, s)
    ensures PushedOf(s.log) == FinishedOf(s.log) + Unfinished(s.worker) + s.queue
    ensures StartedOf(s.log) <= PushedOf(s.log)
    ensures |FinishedOf(s.log)| <= |StartedOf(s.log)| <= |FinishedOf(s.log)| + 1
  {
    RunInv(c, acts, s);
  }

  /** No wakeup is lost: with the lock free, a worker asleep and not notified has nothing to do. */
  lemma NoLostWakeup<T>(c: Config, acts: seq<Action<T>>, s: State<T>)
    requires Run(c, acts, s) && s.lock.Free? && s.worker == WBlocked(false)
    ensures s.queue == [] && !s.quit
  {
    RunInv(c, acts, s);
  }

  /** The lock has one holder at most, and whoever holds it can always go on;
      with the lock free, a queue with work (or told to quit) has a worker that can move. */
  lemma NoDeadlock<T>(c: Config, acts: seq<Action<T>>, s: State<T>)
    requires Run(c, acts, s)
    ensures s.lock.Held? ==> Next(c, s, match s.lock.owner
                                        case Worker => WorkerMoves
                                        case Pusher(id) => PusherMoves(id)
                                        case Closer => CloserMoves).Some?
    ensures s.lock.Free? && (s.queue != [] || s.quit) && !s.worker.WExited? ==> Next(c, s, WorkerMoves).Some?
    ensures s.closer.CJoining? && s.worker.WExited? ==> Next(c, s, CloserMoves).Some?
  {
    RunInv(c, acts, s);
  }

  /** Whenever the lock is free, a session is open exactly when there is work. */
  lemma SessionOpenIffWork<T>(c: Config, acts: seq<Action<T>>, s: State<T>)
    requires Run(c, acts, s) && s.lock.Free?
    ensures SessionOf(c, s.log).Open? <==> s.queue != [] || s.busy
  {
    RunInv(c, acts, s);
  }

  // ------------------------------------------- what an unbroken session means

  function CallbacksOf<T>(log: seq<Event<T>>): seq<Event<T>> {
    if log == [] then [] else
    var e := log[|log| - 1];
    CallbacksOf(log[..|log| - 1]) + (if e.PlayFirst? || e.OnFinish? then [e] else [])
  }

  lemma BrokenForever<T>(c: Config, log: seq<Event<T>>)
    requires log != [] && !SessionOf(c, log).Broken?
    ensures !SessionOf(c, log[..|log| - 1]).Broken?
  {
  }

  lemma {:induction false} UnbrokenAlternates<T>(log: seq<Event<T>>)
    requires !SessionOf(PLAYBACK, log).Broken?
    ensures forall i :: 0 <= i < |CallbacksOf(log)| ==> (CallbacksOf(log)[i].PlayFirst? <==> i % 2 == 0)
    ensures SessionOf(PLAYBACK, log).Open? <==> |CallbacksOf(log)| % 2 == 1
  {
    if log != [] {
      BrokenForever(PLAYBACK, log);
      UnbrokenAlternates(log[..|log| - 1]);
    }
  }

  /** Between opening a session and reporting it, PlayFirst and OnFinish strictly alternate. */
  lemma CallbacksAlternate<T>(acts: seq<Action<T>>, s: State<T>)
    requires Run(PLAYBACK, acts, s)
    ensures forall i :: 0 <= i < |CallbacksOf(s.log)| ==> (CallbacksOf(s.log)[i].PlayFirst? <==> i % 2 == 0)
  {
    RunInv(PLAYBACK, acts, s);
    UnbrokenAlternates(s.log);
  }

  lemma {:induction false} PushedOfAppend<T>(a: seq<Event<T>>, b: seq<Event<T>>)
    ensures PushedOf(a + b) == PushedOf(a) + PushedOf(b)
  {
    if b == [] {
      assert a + b == a;
    } else {
      assert (a + b)[..|a + b| - 1] == a + b[..|b| - 1];
      PushedOfAppend(a, b[..|b| - 1]);
    }
  }

  /** Position i opens the session that is still open at the end of the log. */
  ghost predicate OpensAt<T>(log: seq<Event<T>>, i: nat, files: seq<T>) {
    && i < |log| && log[i].PlayFirst?
    && (forall k :: i < k < |log| ==> !log[k].PlayFirst? && !log[k].OnFinish?)
    && PushedOf(log[i..]) == files
  }

  lemma {:induction false} OpenSince<T>(log: seq<Event<T>>) returns (i: nat)
    requires SessionOf(PLAYBACK, log).Open?
    ensures OpensAt(log, i, SessionOf(PLAYBACK, log).files)
  {
    var n := |log| - 1;
    if log[n].PlayFirst? {
      i := n;
      assert log[n..] == [log[n]];
      LogGrows(PLAYBACK, [], log[n]);
      assert [] + [log[n]] == [log[n]];
    } else {
      i := OpenSince(log[..n]);
      assert log[i..] == log[..n][i..] + [log[n]];
      LogGrows(PLAYBACK, log[..n][i..], log[n]);
    }
  }

  lemma {:induction false} PrefixUnbroken<T>(c: Config, log: seq<Event<T>>, n: nat)
    requires n <= |log| && !SessionOf(c, log).Broken?
    ensures !SessionOf(c, log[..n]).Broken?
  {
    if n == |log| {
      assert log[..n] == log;
    } else {
      BrokenForever(c, log);
      PrefixUnbroken(c, log[..|log| - 1], n);
      assert log[..|log| - 1][..n] == log[..n];
    }
  }

  /** Every OnFinish sees a history equal to the files pushed since its own PlayFirst, in push order. */
  lemma OnFinishSeesItsSession<T>(acts: seq<Action<T>>, s: State<T>, j: nat)
    requires Run(PLAYBACK, acts, s) && j < |s.log| && s.log[j].OnFinish?
    ensures exists i: nat :: i < j && OpensAt(s.log[..j], i, s.log[j].history)
  {
    RunInv(PLAYBACK, acts, s);
    PrefixUnbroken(PLAYBACK, s.log, j + 1);
    assert s.log[..j + 1][..j] == s.log[..j];
    var i := OpenSince(s.log[..j]);
  }

  /** The histories handed to OnFinish, one after the other. */
  function ReportsOf<T>(log: seq<Event<T>>): seq<T> {
    if log == [] then [] else
    ReportsOf(log[..|log| - 1]) + (if log[|log| - 1].OnFinish? then log[|log| - 1].history else [])
  }

  /** The histories that were dropped, one after the other. */
  function ClearedOf<T>(log: seq<Event<T>>): seq<T> {
    if log == [] then [] else
    ClearedOf(log[..|log| - 1]) + (if log[|log| - 1].Cleared? then log[|log| - 1].history else [])
  }

  ghost function SessionFiles<T>(session: Session<T>): seq<T> {
    if session.Open? || session.Reported? then session.files else []
  }

  lemma {:induction false} ClearedPartition<T>(c: Config, log: seq<Event<T>>)
    requires !SessionOf(c, log).Broken?
    ensures PushedOf(log) == ClearedOf(log) + SessionFiles(SessionOf(c, log))
  {
    if log != [] {
      BrokenForever(c, log);
      ClearedPartition(c, log[..|log| - 1]);
    }
  }

  lemma {:induction false} ReportsPartition<T>(c: Config, log: seq<Event<T>>)
    requires c.reports && !SessionOf(c, log).Broken?
    ensures PushedOf(log) == ReportsOf(log) + (if SessionOf(c, log).Open? then SessionOf(c, log).files else [])
  {
    if log != [] {
      BrokenForever(c, log);
      ReportsPartition(c, log[..|log| - 1]);
    }
  }

  /** In every queue, the histories partition what was pushed: each item is in exactly
      one of them, in push order, and once the queue is idle none is missing - neither
      from the histories dropped nor, where there is an OnFinish, from those reported. */
  lemma HistoriesPartitionPushes<T>(c: Config, acts: seq<Action<T>>, s: State<T>)
    requires Run(c, acts, s)
    ensures ClearedOf(s.log) <= PushedOf(s.log) && (c.reports ==> ReportsOf(s.log) <= PushedOf(s.log))
    ensures s.lock.Free? && s.queue == [] && !s.busy ==>
      ClearedOf(s.log) == PushedOf(s.log) && (c.reports ==> ReportsOf(s.log) == PushedOf(s.log))
  {
    RunInv(c, acts, s);
    ClearedPartition(c, s.log);
    if c.reports { ReportsPartition(c, s.log); }
  }

  lemma {:induction false} UnbrokenCallbacks<T>(c: Config, log: seq<Event<T>>)
    requires !SessionOf(c, log).Broken?
    ensures forall i :: 0 <= i < |log| ==> (log[i].PlayFirst? ==> c.announces) && (log[i].OnFinish? ==> c.reports)
  {
    if log != [] {
      BrokenForever(c, log);
      UnbrokenCallbacks(c, log[..|log| - 1]);
    }
  }

  /** Only PBQueue announces, and DWQueue reports nothing. */
  lemma CallbacksOfEachQueue<T>(c: Config, acts: seq<Action<T>>, s: State<T>, e: Event<T>)
    requires Run(c, acts, s) && e in s.log
    ensures c == ENCODER || c == ARCHIVER || c == DOWNLOADER ==> !e.PlayFirst?
    ensures c == DOWNLOADER ==> !e.OnFinish?
  {
    RunInv(c, acts, s);
    UnbrokenCallbacks(c, s.log);
  }

  lemma {:induction false} NoReports<T>(log: seq<Event<T>>)
    requires !SessionOf(DOWNLOADER, log).Broken?
    ensures ReportsOf(log) == []
  {
    if log != [] {
      BrokenForever(DOWNLOADER, log);
      NoReports(log[..|log| - 1]);
    }
  }

  /** What each queue reports: at rest, PBQueue, EncQueue and ArchiveQueue have reported
      everything that was pushed, in order and once, and DWQueue nothing. */
  lemma ReportsOfEachQueue<T>(c: Config, acts: seq<Action<T>>, s: State<T>)
    requires Run(c, acts, s) && s.lock.Free? && s.queue == [] && !s.busy
    ensures c == PLAYBACK || c == ENCODER || c == ARCHIVER ==> ReportsOf(s.log) == PushedOf(s.log)
    ensures c == DOWNLOADER ==> ReportsOf(s.log) == []
  {
    HistoriesPartitionPushes(c, acts, s);
    RunInv(c, acts, s);
    if c == DOWNLOADER { NoReports(s.log); }
  }

  // ----------------------------------------------- reading another queue's history

  /** What has been taken since the history was last dropped. */
  function TakenSince<T>(log: seq<Event<T>>): seq<T> {
    if log == [] then [] else
    match log[|log| - 1]
    case Taken(x) => TakenSince(log[..|log| - 1]) + [x]
    case Cleared(_) => []
    case _ => TakenSince(log[..|log| - 1])
  }

  lemma TakenSinceGrows<T>(log: seq<Event<T>>, e: Event<T>)
    ensures TakenSince(log + [e]) ==
      if e.Taken? then TakenSince(log) + [e.item] else if e.Cleared? then [] else TakenSince(log)
  {
    assert (log + [e])[..|log|] == log;
  }

  /** Where the worker is when the history is sure to be empty. */
  predicate AtRest<T>(w: WorkerPc<T>) { w.WStart? || w.WBlocked? || w.WWoken? }

  ghost predicate HistoryInv<T>(s: State<T>) {
    s.history == TakenSince(s.log) && (AtRest(s.worker) ==> s.history == [])
  }

  /** What an event says about the history. */
  ghost predicate HistoryFits<T>(s: State<T>, s': State<T>, e: Event<T>) {
    s'.history == if e.Taken? then s.history + [e.item] else if e.Cleared? then [] else s.history
  }

  /** A worker that goes to sleep has dropped its history. */
  lemma IdleAtCheck<T>(c: Config, s: State<T>)
    requires LockInv(s) && FlagInv(s) && SessionInv(c, s)
    ensures s.worker.WCheck? ==> !s.busy && (s.queue == [] ==> s.history == [])
  {
  }

  ghost predicate KeepsHistory<T>(s: State<T>, s': State<T>) {
    && (AtRest(s'.worker) ==> s'.history == [])
    && (s'.log == s.log ==> s'.history == s.history)
    && (|s'.log| == |s.log| + 1 ==> HistoryFits(s, s', s'.log[|s.log|]))
  }

  lemma WorkerHistory<T>(c: Config, s: State<T>)
    requires WorkerStep(c, s).Some? && (AtRest(s.worker) ==> s.history == [])
    requires s.worker.WCheck? ==> !s.busy && (s.queue == [] ==> s.history == [])
    ensures KeepsHistory(s, WorkerStep(c, s).value)
  {
    assert s.log + [] == s.log;
  }

  lemma StepHistory<T>(c: Config, s: State<T>, a: Action<T>)
    requires Inv(c, s) && (AtRest(s.worker) ==> s.history == []) && Next(c, s, a).Some?
    ensures KeepsHistory(s, Next(c, s, a).value)
  {
    if a.WorkerMoves? {
      IdleAtCheck(c, s);
      WorkerHistory(c, s);
    } else {
      OthersHistory(c, s, a);
    }
  }

  lemma OthersHistory<T>(c: Config, s: State<T>, a: Action<T>)
    requires (AtRest(s.worker) ==> s.history == []) && !a.WorkerMoves? && Next(c, s, a).Some?
    ensures KeepsHistory(s, Next(c, s, a).value)
  {
    assert s.log + [] == s.log;
    var s' := Next(c, s, a).value;
    assert s'.history == s.history && AtRest(s'.worker) == AtRest(s.worker);
  }

  lemma StepKeepsHistory<T>(c: Config, s: State<T>, a: Action<T>)
    requires Inv(c, s) && HistoryInv(s) && Next(c, s, a).Some?
    ensures HistoryInv(Next(c, s, a).value)
  {
    StepHistory(c, s, a);
    StepLogs(c, s, a);
    HistoryFollows(c, s, Next(c, s, a).value);
  }

  lemma HistoryFollows<T>(c: Config, s: State<T>, s': State<T>)
    requires HistoryInv(s) && Logs(c, s, s')
    requires AtRest(s'.worker) ==> s'.history == []
    requires s'.log == s.log ==> s'.history == s.history
    requires |s'.log| == |s.log| + 1 ==> HistoryFits(s, s', s'.log[|s.log|])
    ensures HistoryInv(s')
  {
    if s'.log == s.log {
    } else if |s'.log| == |s.log| + 1 {
      TakenSinceGrows(s.log, s'.log[|s.log|]);
    } else {
      TakenSinceGrows(s.log, OnFinish(s.history));
      TakenSinceGrows(s.log + [OnFinish(s.history)], Cleared(s.history));
    }
  }

  lemma {:induction false} RunKeepsHistory<T>(c: Config, s: State<T>, acts: seq<Action<T>>)
    requires Inv(c, s) && HistoryInv(s) && Exec(c, s, acts).Some?
    ensures HistoryInv(Exec(c, s, acts).value)
    decreases |acts|
  {
    if acts != [] {
      StepKeepsInv(c, s, acts[0]);
      StepKeepsHistory(c, s, acts[0]);
      RunKeepsHistory(c, Next(c, s, acts[0]).value, acts[1..]);
    }
  }

  /** An empty history is taken for an idle queue, and the queue is not idle. */
  predicate MistakenForIdle<T>(s: State<T>) { s.history == [] && (s.queue != [] || s.busy) }

  /** Whoever reads the history holds the lock next, so that it is free before. The
      mistake is made exactly when items wait and the worker has not come for them yet,
      or has left the loop without taking any of the open session. */
  lemma MistakenExactly<T>(c: Config, acts: seq<Action<T>>, s: State<T>)
    requires Run(c, acts, s) && s.lock.Free?
    ensures s.history == TakenSince(s.log)
    ensures MistakenForIdle(s) <==>
      s.queue != [] && (s.worker.WStart? || s.worker == WBlocked(true) || s.worker.WWoken? ||
                        (s.worker.WExited? && TakenSince(s.log) == []))
    ensures MistakenForIdle(s) <==> SessionOf(c, s.log).Open? && TakenSince(s.log) == []
  {
    RunInv(c, acts, s);
    InitInv<T>(c);
    RunKeepsHistory(c, Init<T>(), acts);
  }

  /** So an empty history means a closed session exactly when no item waits or one of
      the open session has been taken. */
  lemma HistoryTellsIdleIff<T>(c: Config, acts: seq<Action<T>>, s: State<T>)
    requires Run(c, acts, s) && s.lock.Free?
    ensures (s.history == [] <==> !SessionOf(c, s.log).Open?) <==> (s.queue == [] || TakenSince(s.log) != [])
  {
    MistakenExactly(c, acts, s);
    RunInv(c, acts, s);
  }

  // -------------------------------------------------------------- shutdown

  /** Once quit is stored nothing more is taken from the queue, and at most one
      callback - of an item taken before - is still entered. */
  lemma AfterQuit<T>(c: Config, acts: seq<Action<T>>, s: State<T>)
    requires Run(c, acts, s)
    ensures NothingTakenAfterQuit(s.log) && LateStarts(s.log) <= 1
  {
    RunInv(c, acts, s);
  }

  function One(b: bool): nat { if b then 1 else 0 }

  lemma StepKeepsLateStarts<T>(c: Config, s: State<T>, a: Action<T>)
    requires Inv(c, s) && s.quit && Next(c, s, a).Some?
    ensures var s' := Next(c, s, a).value;
      s'.quit && LateStarts(s'.log) + One(Unstarted(s'.worker)) == LateStarts(s.log) + One(Unstarted(s.worker))
  {
    var s' := Next(c, s, a).value;
    StepLogs(c, s, a);
    StepFitsQuit(c, s, a);
    StepUnstarted(c, s, a);
    LateStartsFollow(c, s, s');
  }

  lemma StepUnstarted<T>(c: Config, s: State<T>, a: Action<T>)
    requires FlagInv(s) && s.quit && Next(c, s, a).Some?
    ensures var s' := Next(c, s, a).value;
      && s'.quit
      && (Unstarted(s'.worker) == Unstarted(s.worker) || (|s'.log| == |s.log| + 1 && s'.log[|s.log|].Started?))
  {
  }

  lemma LateStartsFollow<T>(c: Config, s: State<T>, s': State<T>)
    requires QuitInv(s) && s.quit && Logs(c, s, s')
    requires |s'.log| == |s.log| + 1 ==> QuitFits(s, s', s'.log[|s.log|])
    requires Unstarted(s'.worker) == Unstarted(s.worker) || (|s'.log| == |s.log| + 1 && s'.log[|s.log|].Started?)
    ensures LateStarts(s'.log) + One(Unstarted(s'.worker)) == LateStarts(s.log) + One(Unstarted(s.worker))
  {
    if s'.log == s.log {
    } else if |s'.log| == |s.log| + 1 {
      LogGrows(c, s.log, s'.log[|s.log|]);
    } else {
      LogGrows(c, s.log, OnFinish(s.history));
      LogGrows(c, s.log + [OnFinish(s.history)], Cleared(s.history));
    }
  }

  /** Exactly when a callback is entered after quit: if and only if the worker
      had taken its item, and not yet entered the callback, when quit was stored. */
  lemma {:induction false} LateStartsExactly<T>(c: Config, s: State<T>, acts: seq<Action<T>>, s': State<T>)
    requires Inv(c, s) && s.quit && Exec(c, s, acts) == Some(s')
    ensures s'.quit && LateStarts(s'.log) + One(Unstarted(s'.worker)) == LateStarts(s.log) + One(Unstarted(s.worker))
    decreases |acts|
  {
    if acts != [] {
      StepKeepsLateStarts(c, s, acts[0]);
      StepKeepsInv(c, s, acts[0]);
      LateStartsExactly(c, Next(c, s, acts[0]).value, acts[1..], s');
    }
  }

  const MAX_RANK: nat := 7

  /** How many of its own steps the worker still needs once quit is set. */
  function Rank<T>(w: WorkerPc<T>): nat {
    match w
    case WTaken(_) => 7
    case WUnlocked(_) => 6
    case WRunning(_) => 5
    case WRelock(_) => 4
    case WReturned(_) => 3
    case WCleared => 2
    case WBlocked(_) => 5
    case WWoken => 4
    case WStart => 4
    case WCheck => 3
    case WDecide => 2
    case WTest => 1
    case WExited => 0
  }

  function WorkerMovesIn<T>(acts: seq<Action<T>>): nat {
    if acts == [] then 0 else One(acts[0].WorkerMoves?) + WorkerMovesIn(acts[1..])
  }

  lemma StepLowersRank<T>(c: Config, s: State<T>, a: Action<T>)
    requires FlagInv(s) && s.quit && Next(c, s, a).Some?
    ensures var s' := Next(c, s, a).value; s'.quit && Rank(s'.worker) + One(a.WorkerMoves?) <= Rank(s.worker)
  {
  }

  /** However the threads interleave, from any state with quit set the worker
      exits within MAX_RANK of its own steps. */
  lemma {:induction false} ShutdownBound<T>(c: Config, s: State<T>, acts: seq<Action<T>>, s': State<T>)
    requires Inv(c, s) && s.quit && Exec(c, s, acts) == Some(s')
    ensures WorkerMovesIn(acts) + Rank(s'.worker) <= Rank(s.worker) <= MAX_RANK
    ensures WorkerMovesIn(acts) >= MAX_RANK ==> s'.worker.WExited?
    decreases |acts|
  {
    if acts != [] {
      StepLowersRank(c, s, acts[0]);
      StepKeepsInv(c, s, acts[0]);
      ShutdownBound(c, Next(c, s, acts[0]).value, acts[1..], s');
    }
  }

  // --------------------------------------------------------------- progress

  /** The steps the worker needs to empty the queue on its own. */
  function Work<T>(s: State<T>): nat {
    10 * |s.queue| + match s.worker
                     case WTaken(_) => 8
                     case WUnlocked(_) => 7
                     case WRunning(_) => 6
                     case WRelock(_) => 5
                     case WReturned(_) => 4
                     case WCleared => 3
                     case WBlocked(notified) => if notified then 3 else 0
                     case WWoken => 2
                     case WStart => 2
                     case WTest => 2
                     case WCheck => 1
                     case WDecide => 0
                     case WExited => 0
  }

  /** The steps left in a call of Push, with what it gives the worker to do. */
  function PushLoad<T>(p: PushPc<T>): nat {
    match p
    case PWants(_) => 18
    case PHolds(_) => 17
    case PAnnounced(_) => 16
    case PStored => 5
    case PNotified => 1
  }

  ghost function PushLoads<T>(pushers: map<nat, PushPc<T>>): nat
    decreases |pushers|
  {
    if pushers == map[] then 0 else
    var id :| id in pushers;
    PushLoad(pushers[id]) + PushLoads(pushers - {id})
  }

  function CloseLoad(p: ClosePc): nat {
    match p
    case CWants => 12
    case CHolds => 11
    case CStored => 3
    case CNotified => 2
    case CJoining => 1
    case CIdle => 0
    case CJoined => 0
  }

  /** What is left to do in a state, in steps of any thread. */
  ghost function Load<T>(s: State<T>): nat {
    (if s.quit then Rank(s.worker) else Work(s)) + PushLoads(s.pushers) + CloseLoad(s.closer)
  }

  lemma {:induction false} PushLoadsAt<T>(pushers: map<nat, PushPc<T>>, id: nat)
    requires id in pushers
    ensures PushLoads(pushers) == PushLoad(pushers[id]) + PushLoads(pushers - {id})
    decreases |pushers|
  {
    var first :| first in pushers && PushLoads(pushers) == PushLoad(pushers[first]) + PushLoads(pushers - {first});
    if first != id {
      PushLoadsAt(pushers - {first}, id);
      PushLoadsAt(pushers - {id}, first);
      assert pushers - {first} - {id} == pushers - {id} - {first};
    }
  }

  lemma PushLoadsSet<T>(pushers: map<nat, PushPc<T>>, id: nat, p: PushPc<T>)
    ensures PushLoads(pushers[id := p]) == PushLoad(p) + PushLoads(pushers - {id})
    ensures id !in pushers ==> pushers - {id} == pushers
  {
    PushLoadsAt(pushers[id := p], id);
    assert pushers[id := p] - {id} == pushers - {id};
  }

  /** How much a step may add to the load: only calls and spurious wake-ups add. */
  function Adds<T>(a: Action<T>): nat {
    match a
    case PushCall(_, _) => 19
    case CloseCall => 13
    case SpuriousWakeup => 3
    case _ => 0
  }

  function AddsOf<T>(acts: seq<Action<T>>): nat {
    if acts == [] then 0 else Adds(acts[0]) + AddsOf(acts[1..])
  }

  /** What a pusher's step leaves of its own load. */
  function PushLoadAfter<T>(p: PushPc<T>): nat {
    match p
    case PWants(_) => 17
    case PHolds(_) => 16
    case PAnnounced(_) => 5
    case PStored => 1
    case PNotified => 0
  }

  lemma PusherLoads<T>(c: Config, s: State<T>, id: nat)
    requires PusherStep(c, s, id).Some?
    ensures PushLoads(PusherStep(c, s, id).value.pushers) ==
      PushLoads(s.pushers) - PushLoad(s.pushers[id]) + PushLoadAfter(s.pushers[id])
  {
    var after := PusherStep(c, s, id).value.pushers;
    PushLoadsAt(s.pushers, id);
    if id in after {
      var p := after[id];
      assert after == s.pushers[id := p] && PushLoad(p) == PushLoadAfter(s.pushers[id]);
      PushLoadsSet(s.pushers, id, p);
    }
  }

  lemma PusherLowersLoad<T>(c: Config, s: State<T>, id: nat)
    requires PusherStep(c, s, id).Some?
    ensures Load(PusherStep(c, s, id).value) < Load(s)
  {
    PusherLoads(c, s, id);
    var s' := PusherStep(c, s, id).value;
    assert s'.quit == s.quit && s'.closer == s.closer && Rank(s'.worker) == Rank(s.worker);
    assert Work(s') <= Work(s) + (if s.pushers[id].PAnnounced? then 10 else if s.pushers[id].PStored? then 3 else 0);
  }

  lemma WorkerLowersLoad<T>(c: Config, s: State<T>)
    requires FlagInv(s) && WorkerStep(c, s).Some?
    ensures Load(WorkerStep(c, s).value) < Load(s)
  {
    var s' := WorkerStep(c, s).value;
    assert s'.pushers == s.pushers && s'.closer == s.closer && s'.quit == s.quit;
    if s.quit { StepLowersRank(c, s, WorkerMoves); }
  }

  lemma StepLowersLoad<T>(c: Config, s: State<T>, a: Action<T>)
    requires FlagInv(s) && Next(c, s, a).Some?
    ensures 1 + Load(Next(c, s, a).value) <= Load(s) + Adds(a)
  {
    match a {
      case WorkerMoves => WorkerLowersLoad(c, s);
      case PusherMoves(id) => PusherLowersLoad(c, s, id);
      case PushCall(id, item) => PushLoadsSet(s.pushers, id, PWants(item));
      case CloserMoves =>
      case SpuriousWakeup =>
      case CloseCall =>
    }
  }

  /** However the threads interleave: every step of the worker, of a thread inside
      Push or of the destructor uses up load, and only calls and spurious wake-ups add
      any. So a schedule without them has at most Load(s) steps. */
  lemma {:induction false} Bounded<T>(c: Config, s: State<T>, acts: seq<Action<T>>, s': State<T>)
    requires Inv(c, s) && Exec(c, s, acts) == Some(s')
    ensures |acts| + Load(s') <= Load(s) + AddsOf(acts)
    decreases |acts|
  {
    if acts != [] {
      StepLowersLoad(c, s, acts[0]);
      StepKeepsInv(c, s, acts[0]);
      Bounded(c, Next(c, s, acts[0]).value, acts[1..], s');
    }
  }

  /** No thread that is under way can move. */
  ghost predicate Stuck<T>(c: Config, s: State<T>) {
    WorkerStep(c, s).None? && CloserStep(s).None? && forall id :: PusherStep(c, s, id).None?
  }

  /** Everything pushed has been handled, or the destructor is through. */
  ghost predicate Settled<T>(s: State<T>) {
    && s.lock.Free? && s.pushers == map[]
    && ((s.worker == WBlocked(false) && s.queue == [] && s.history == [] && !s.quit && PushedOf(s.log) == FinishedOf(s.log))
        || (s.worker.WExited? && s.closer.CJoined? && PushedOf(s.log) == FinishedOf(s.log) + s.queue))
  }

  lemma HolderMoves<T>(c: Config, s: State<T>)
    requires LockInv(s)
    ensures s.lock.Held? ==> !Stuck(c, s)
  {
    if s.lock.Held? {
      match s.lock.owner {
        case Worker => assert WorkerStep(c, s).Some?;
        case Pusher(id) => assert PusherStep(c, s, id).Some?;
        case Closer => assert CloserStep(s).Some?;
      }
    }
  }

  /** The threads come to rest exactly when the work is done (and no destructor is waiting for the lock). */
  lemma StuckIffSettled<T>(c: Config, s: State<T>)
    requires Inv(c, s)
    ensures Stuck(c, s) <==> Settled(s) && !s.closer.CWants?
  {
    HolderMoves(c, s);
    if Stuck(c, s) {
      forall id ensures id !in s.pushers { assert PusherStep(c, s, id).None?; }
    }
  }

  /** Left alone, in any order of steps, the threads finish: every pushed item is
      handled, or, once the destructor has been called, the worker is joined. */
  lemma {:induction false} Finishes<T>(c: Config, s: State<T>) returns (acts: seq<Action<T>>, s': State<T>)
    requires Inv(c, s)
    ensures Exec(c, s, acts) == Some(s') && AddsOf(acts) == 0 && Stuck(c, s') && Settled(s')
    decreases Load(s)
  {
    var a: Action<T> := WorkerMoves;
    if Stuck(c, s) {
      StuckIffSettled(c, s);
      return [], s;
    } else if WorkerStep(c, s).Some? {
      a := WorkerMoves;
    } else if CloserStep(s).Some? {
      a := CloserMoves;
    } else {
      var id :| PusherStep(c, s, id).Some?;
      a := PusherMoves(id);
    }
    StepLowersLoad(c, s, a);
    StepKeepsInv(c, s, a);
    acts, s' := Finishes(c, Next(c, s, a).value);
    assert ([a] + acts)[1..] == acts;
    acts := [a] + acts;
  }

  /** n steps of one thread in a row. */
  function Times<T>(a: Action<T>, n: nat): seq<Action<T>> { if n == 0 then [] else [a] + Times(a, n - 1) }

  lemma ExecTimes<T>(c: Config, s: State<T>, a: Action<T>, n: nat)
    requires n > 0 && Next(c, s, a).Some?
    ensures Exec(c, s, Times(a, n)) == Exec(c, Next(c, s, a).value, Times(a, n - 1))
  {
    assert Times(a, n)[1..] == Times(a, n - 1);
  }
}
