/** One mutex, one condition variable, one worker thread, any number of pushers
    and a destructor: the protocol shared by PBQueue, EncQueue, ArchiveQueue and
    DWQueue, as a machine of interleaved steps.
 */
module WorkerQueue {
  import opened Common

  /** Which callbacks a queue has besides its work item callback. */
  datatype Config = Config(announces: bool, reports: bool)

  const PLAYBACK := Config(true, true)    // PBQueue: PlayFirst and OnFinish
  const ENCODER := Config(false, true)    // EncQueue: OnFinish
  const ARCHIVER := Config(false, true)   // ArchiveQueue: OnFinishArchiving
  const DOWNLOADER := Config(false, false) // DWQueue: neither

  datatype Thread = Worker | Pusher(id: nat) | Closer
  datatype Lock = Free | Held(owner: Thread)

  /** Where the worker is in `Handler`. */
  datatype WorkerPc<T> =
    | WStart                    // before the first lock
    | WCheck                    // holds the lock, about to evaluate the wait predicate
    | WBlocked(notified: bool)  // asleep in wait, lock released
    | WWoken                    // awake, about to take the lock again
    | WDecide                   // wait has returned
    | WTaken(item: T)           // popped, still holding the lock
    | WUnlocked(item: T)        // lock released, callback not yet entered
    | WRunning(item: T)         // inside the callback
    | WRelock(item: T)          // callback returned, wants the lock
    | WReturned(item: T)        // holds the lock, busy still set
    | WCleared                  // busy cleared, about to look at the queue
    | WTest                     // at the loop condition
    | WExited

  datatype PushPc<T> = PWants(item: T) | PHolds(item: T) | PAnnounced(item: T) | PStored | PNotified
  datatype ClosePc = CIdle | CWants | CHolds | CStored | CNotified | CJoining | CJoined

  /** What happened, in order. `Cleared` carries the history that is dropped. */
  datatype Event<T> =
    | PlayFirst
    | Pushed(item: T)
    | Taken(item: T)
    | Started(item: T)
    | Finished(item: T)
    | OnFinish(history: seq<T>)
    | Cleared(history: seq<T>)
    | Quit

  datatype State<T> = State(
    lock: Lock, queue: seq<T>, busy: bool, quit: bool, history: seq<T>,
    worker: WorkerPc<T>, pushers: map<nat, PushPc<T>>, closer: ClosePc, log: seq<Event<T>>)

  datatype Action<T> =
    | WorkerMoves
    | SpuriousWakeup
    | PushCall(id: nat, item: T)
    | PusherMoves(id: nat)
    | CloseCall
    | CloserMoves

  function Init<T>(): State<T> {
    State(Free, [], false, false, [], WStart, map[], CIdle, [])
  }

  /** `notify_one`: only a blocked worker notices. */
  function Notify<T>(w: WorkerPc<T>): WorkerPc<T> {
    if w.WBlocked? then WBlocked(true) else w
  }

  function WorkerStep<T>(c: Config, s: State<T>): Option<State<T>> {
    match s.worker
    case WStart => if s.lock.Free? then Some(s.(lock := Held(Worker), worker := WCheck)) else None
    case WCheck =>
      if !s.busy && (s.queue != [] || s.quit) then Some(s.(worker := WDecide))
      else Some(s.(lock := Free, worker := WBlocked(false)))
    case WBlocked(notified) => if notified then Some(s.(worker := WWoken)) else None
    case WWoken => if s.lock.Free? then Some(s.(lock := Held(Worker), worker := WCheck)) else None
    case WDecide =>
      if s.queue != [] && !s.quit && !s.busy then
        var item := s.queue[0];
        Some(s.(queue := s.queue[1..], busy := true, history := s.history + [item],
                worker := WTaken(item), log := s.log + [Taken(item)]))
      else Some(s.(worker := WTest))
    case WTaken(item) => Some(s.(lock := Free, worker := WUnlocked(item)))
    case WUnlocked(item) => Some(s.(worker := WRunning(item), log := s.log + [Started(item)]))
    case WRunning(item) => Some(s.(worker := WRelock(item), log := s.log + [Finished(item)]))
    case WRelock(item) => if s.lock.Free? then Some(s.(lock := Held(Worker), worker := WReturned(item))) else None
    case WReturned(item) => Some(s.(busy := false, worker := WCleared))
    case WCleared =>
      if s.queue == [] then
        var report := if c.reports then [OnFinish(s.history)] else [];
        Some(s.(history := [], worker := WTest, log := s.log + report + [Cleared(s.history)]))
      else Some(s.(worker := WTest))
    case WTest => if s.quit then Some(s.(lock := Free, worker := WExited)) else Some(s.(worker := WCheck))
    case WExited => None
  }

  function PusherStep<T>(c: Config, s: State<T>, id: nat): Option<State<T>> {
    if id !in s.pushers then None else
    match s.pushers[id]
    case PWants(item) =>
      if s.lock.Free? then Some(s.(lock := Held(Pusher(id)), pushers := s.pushers[id := PHolds(item)])) else None
    case PHolds(item) =>
      var announce := if c.announces && s.queue == [] && !s.busy then [PlayFirst] else [];
      Some(s.(pushers := s.pushers[id := PAnnounced(item)], log := s.log + announce))
    case PAnnounced(item) =>
      Some(s.(queue := s.queue + [item], pushers := s.pushers[id := PStored], log := s.log + [Pushed(item)]))
    case PStored => Some(s.(worker := Notify(s.worker), pushers := s.pushers[id := PNotified]))
    case PNotified => Some(s.(lock := Free, pushers := s.pushers - {id}))
  }

  function CloserStep<T>(s: State<T>): Option<State<T>> {
    match s.closer
    case CIdle => None
    case CWants => if s.lock.Free? then Some(s.(lock := Held(Closer), closer := CHolds)) else None
    case CHolds => Some(s.(quit := true, closer := CStored, log := s.log + [Quit]))
    case CStored => Some(s.(worker := Notify(s.worker), closer := CNotified))
    case CNotified => Some(s.(lock := Free, closer := CJoining))
    case CJoining => if s.worker.WExited? then Some(s.(closer := CJoined)) else None
    case CJoined => None
  }

  /** One step of one thread; None when that thread cannot move. */
  function Next<T>(c: Config, s: State<T>, a: Action<T>): Option<State<T>> {
    match a
    case WorkerMoves => WorkerStep(c, s)
    case SpuriousWakeup => if s.worker.WBlocked? then Some(s.(worker := WWoken)) else None
    case PushCall(id, item) => if id in s.pushers then None else Some(s.(pushers := s.pushers[id := PWants(item)]))
    case PusherMoves(id) => PusherStep(c, s, id)
    case CloseCall => if s.closer.CIdle? then Some(s.(closer := CWants)) else None
    case CloserMoves => CloserStep(s)
  }

  /** A schedule executed from s; None when it asks for a step that is not possible. */
  function Exec<T>(c: Config, s: State<T>, acts: seq<Action<T>>): Option<State<T>>
    decreases |acts|
  {
    if acts == [] then Some(s)
    else match Next(c, s, acts[0])
      case None => None
      case Some(s') => Exec(c, s', acts[1..])
  }

  // ------------------------------------------------------ reading the log

  function PushedOf<T>(log: seq<Event<T>>): seq<T> {
    if log == [] then [] else
    PushedOf(log[..|log| - 1]) + (if log[|log| - 1].Pushed? then [log[|log| - 1].item] else [])
  }

  function TakenOf<T>(log: seq<Event<T>>): seq<T> {
    if log == [] then [] else
    TakenOf(log[..|log| - 1]) + (if log[|log| - 1].Taken? then [log[|log| - 1].item] else [])
  }

  function StartedOf<T>(log: seq<Event<T>>): seq<T> {
    if log == [] then [] else
    StartedOf(log[..|log| - 1]) + (if log[|log| - 1].Started? then [log[|log| - 1].item] else [])
  }

  function FinishedOf<T>(log: seq<Event<T>>): seq<T> {
    if log == [] then [] else
    FinishedOf(log[..|log| - 1]) + (if log[|log| - 1].Finished? then [log[|log| - 1].item] else [])
  }

  /** A session runs from the first push into an idle queue to the moment the
      worker finds the queue empty again. */
  datatype Session<T> = Idle | Open(files: seq<T>) | Reported(files: seq<T>) | Broken

  /** How one event moves the session, `Broken` when the event is out of place:
      PlayFirst opens an idle session, pushes collect its files, OnFinish and
      the clearing of the history must carry exactly those files. */
  ghost function Advance<T>(c: Config, session: Session<T>, e: Event<T>): Session<T> {
    match e
    case PlayFirst => if c.announces && session.Idle? then Open([]) else Broken
    case Pushed(x) =>
      if session.Open? then Open(session.files + [x])
      else if session.Idle? && !c.announces then Open([x])
      else Broken
    case OnFinish(h) => if c.reports && session == Open(h) then Reported(h) else Broken
    case Cleared(h) => if session == (if c.reports then Reported(h) else Open(h)) then Idle else Broken
    case _ => session
  }

  ghost function SessionOf<T>(c: Config, log: seq<Event<T>>): Session<T> {
    if log == [] then Idle else Advance(c, SessionOf(c, log[..|log| - 1]), log[|log| - 1])
  }
}
