/**
 The recording handler's locks. One thread issues the commands, one event thread exists while the
 handler is paused, and any number of data threads deliver samples and types. They share `mtx_`,
 `event_cv_mutex_`, the condition variable and the event flag; every lock, unlock, wait and
 notification is a step of its own, and the steps of different threads interleave freely.
*/
module HandlerProtocol {
  import opened Common
  import opened HandlerModel
  import opened HandlerCleanup
  import opened HandlerTheorems
  import opened HandlerHistory

  datatype Owner = Free | CommandThread | EventThread | DataThread

  datatype Flag = Untriggered | Triggered | StopRequested

  datatype Command = DoStart | DoStop | DoPause | DoTrigger

  /** Where the command thread is. */
  datatype CommandPc =
    | Idle
    | TakeEvent(cmd: Command)      // about to lock event_cv_mutex_
    | TestFlag(cmd: Command)       // evaluates the wait predicate
    | Asleep(cmd: Command)         // waits on the condition variable
    | Awake(cmd: Command)          // notified, has to relock event_cv_mutex_
    | TakeData(cmd: Command)       // about to lock mtx_
    | Act(cmd: Command)            // does the work of the command
    | Leave(cmd: Command)          // mtx_ is released, event_cv_mutex_ not yet
    | Notify(cmd: Command)         // event_cv_mutex_ is released, about to notify_all
    | Join(cmd: Command)           // waits for the event thread to end, mtx_ held
    | Finish(cmd: Command)         // the event thread is gone: clear the stores

  /** Where the event thread is. */
  datatype EventPc =
    | NoThread
    | LoopTop                      // about to lock event_cv_mutex_
    | CheckFlag(timedOut: bool)    // holds it, evaluates the predicate
    | Sleeping                     // in wait_until
    | Woken(timedOut: bool)        // has to relock event_cv_mutex_
    | WantData(timeout: bool)      // about to lock mtx_
    | Working(timeout: bool)       // holds both
    | Unlocking(exiting: bool)     // about to release event_cv_mutex_
    | Notifying(exiting: bool)     // about to notify_all
    | Ended                        // returned, not joined yet

  /** Either something done to the stores, or a trigger accepted by `trigger_event`. */
  datatype Entry = Did(event: Event) | Accepted

  datatype System = System(
    data: State, mtx: Owner, eventMutex: Owner, flag: Flag, command: CommandPc, event: EventPc,
    clock: int, log: seq<Entry>)

  datatype Move =
    | Issue(cmd: Command)
    | CommandStep
    | EventStep
    | CommandSpurious               // a wake-up without a notification
    | EventSpurious
    | EventTimeout
    | DataLock
    | DataWork(work: Event)
    | Tick(later: nat)

  const BOOT := System(INITIAL, Free, Free, StopRequested, Idle, NoThread, 0, [])

  function NotifyAll(s: System): System {
    s.(command := if s.command.Asleep? then Awake(s.command.cmd) else s.command,
       event := if s.event.Sleeping? then Woken(false) else s.event)
  }

  function Do(c: Config, s: System, e: Event): System {
    s.(data := Step(c, s.data, e), log := s.log + [Did(e)])
  }

  /** The part of a start or stop that runs once the event thread has been joined. */
  function FinishData(c: Config, st: State, cmd: Command): State {
    var st1 := ClearPaused(st);
    if cmd == DoStop then WriteBuffer(if c.onlyWithSchema then ClearPending(st1) else
                                      if st1.phase == Paused then st1 else DumpAllPending(c, st1))
    else st1
  }

  function CommandEvent(cmd: Command): Event {
    match cmd
    case DoStart => Start
    case DoStop => Stop
    case _ => Pause
  }

  /** `start`, `stop`, `pause` and `trigger_event`, from the moment `mtx_` is held. */
  function ActStep(c: Config, s: System, cmd: Command): System {
    match cmd
    case DoPause =>
      var s1 := Do(c, s, Pause).(mtx := Free, command := Idle);
      if s.data.phase == Paused then s1 else s1.(flag := Untriggered, event := LoopTop)
    case DoTrigger =>
      if s.data.phase != Paused then s.(mtx := Free, command := Leave(cmd))
      else s.(flag := Triggered, eventMutex := Free, command := Notify(cmd), log := s.log + [Accepted])
    case _ =>
      if s.data.phase != Paused then Do(c, s, CommandEvent(cmd)).(mtx := Free, command := Leave(cmd))
      else
        var s1 := s.(data := s.data.(phase := if cmd == DoStart then Running else Stopped));
        if s.event.NoThread? then s1.(command := Finish(cmd))
        else s1.(flag := StopRequested, eventMutex := Free, command := Notify(cmd))
  }

  function NextCommand(c: Config, s: System): Maybe<System> {
    match s.command
    case Idle => None
    case TakeEvent(cmd) =>
      if s.eventMutex == Free then Some(s.(eventMutex := CommandThread, command := TestFlag(cmd))) else None
    case TestFlag(cmd) =>
      if s.flag == Triggered then Some(s.(eventMutex := Free, command := Asleep(cmd)))
      else Some(s.(command := TakeData(cmd)))
    case Asleep(cmd) => None
    case Awake(cmd) =>
      if s.eventMutex == Free then Some(s.(eventMutex := CommandThread, command := TestFlag(cmd))) else None
    case TakeData(cmd) => if s.mtx == Free then Some(s.(mtx := CommandThread, command := Act(cmd))) else None
    case Act(cmd) => Some(ActStep(c, s, cmd))
    case Leave(cmd) => Some(s.(eventMutex := Free, command := Idle))
    case Notify(cmd) =>
      if cmd == DoTrigger then Some(NotifyAll(s).(mtx := Free, command := Idle))
      else Some(NotifyAll(s).(command := Join(cmd)))
    case Join(cmd) => if s.event.Ended? then Some(s.(event := NoThread, command := Finish(cmd))) else None
    case Finish(cmd) =>
      Some(s.(data := FinishData(c, s.data, cmd), log := s.log + [Did(CommandEvent(cmd))], mtx := Free,
              command := Idle))
  }

  function NextEvent(c: Config, s: System): Maybe<System> {
    match s.event
    case NoThread => None
    case LoopTop =>
      if s.eventMutex == Free then Some(s.(eventMutex := EventThread, event := CheckFlag(false))) else None
    case CheckFlag(timedOut) =>
      if s.flag == StopRequested then Some(s.(event := Unlocking(true)))
      else if s.flag == Triggered then Some(s.(event := WantData(false)))
      else if timedOut then Some(s.(event := WantData(true)))
      else Some(s.(eventMutex := Free, event := Sleeping))
    case Sleeping => None
    case Woken(timedOut) =>
      if s.eventMutex == Free then Some(s.(eventMutex := EventThread, event := CheckFlag(timedOut))) else None
    case WantData(timeout) => if s.mtx == Free then Some(s.(mtx := EventThread, event := Working(timeout))) else None
    case Working(timeout) =>
      var s1 := Do(c, s, if timeout then Cleanup(s.clock) else Service(s.clock));
      Some(s1.(flag := Untriggered, mtx := Free, event := Unlocking(false)))
    case Unlocking(exiting) => Some(s.(eventMutex := Free, event := Notifying(exiting)))
    case Notifying(exiting) => Some(NotifyAll(s).(event := if exiting then Ended else LoopTop))
    case Ended => None
  }

  function Next(c: Config, s: System, m: Move): Maybe<System> {
    match m
    case Issue(cmd) =>
      if s.command != Idle then None
      else Some(s.(command := if cmd == DoPause then TakeData(cmd) else TakeEvent(cmd)))
    case CommandStep => NextCommand(c, s)
    case EventStep => NextEvent(c, s)
    case CommandSpurious => if s.command.Asleep? then Some(s.(command := Awake(s.command.cmd))) else None
    case EventSpurious => if s.event.Sleeping? then Some(s.(event := Woken(false))) else None
    case EventTimeout => if s.event.Sleeping? then Some(s.(event := Woken(true))) else None
    case DataLock => if s.mtx == Free then Some(s.(mtx := DataThread)) else None
    case DataWork(e) =>
      if s.mtx == DataThread && (e.Receive? || e.Discover?) then Some(Do(c, s, e).(mtx := Free)) else None
    case Tick(later) => Some(s.(clock := s.clock + later))
  }

  function Advance(c: Config, s: System, m: Move): System {
    match Next(c, s, m)
    case Some(s1) => s1
    case None => s
  }

  /** The states after any interleaving of moves, taking those that are enabled. */
  function After(c: Config, moves: seq<Move>): System
    decreases |moves|
  {
    if moves == [] then BOOT else Advance(c, After(c, moves[..|moves| - 1]), moves[|moves| - 1])
  }

  // ---- The log ----

  function Events(log: seq<Entry>): seq<Event>
    decreases |log|
  {
    if log == [] then []
    else
      var rest := Events(log[..|log| - 1]);
      match log[|log| - 1]
      case Did(e) => rest + [e]
      case Accepted => rest
  }

  /** A trigger has been accepted and not yet serviced. */
  predicate Owed(log: seq<Entry>)
    decreases |log|
  {
    log != [] &&
    match log[|log| - 1]
    case Accepted => true
    case Did(e) => !e.Service? && Owed(log[..|log| - 1])
  }

  /** A trigger is accepted, and a start, a stop or a cleanup done, only when none is owed; servicing pays one. */
  predicate EntryAllowed(owed: bool, e: Entry) {
    match e
    case Accepted => !owed
    case Did(Start) => !owed
    case Did(Stop) => !owed
    case Did(Cleanup(_)) => !owed
    case Did(Service(_)) => owed
    case _ => true
  }

  ghost predicate Disciplined(log: seq<Entry>) {
    forall i :: 0 <= i < |log| ==> EntryAllowed(Owed(log[..i]), log[i])
  }

  lemma {:induction false} LogGrows(log: seq<Entry>, e: Entry)
    ensures Events(log + [e]) == (match e case Did(x) => Events(log) + [x] case Accepted => Events(log))
    ensures Owed(log + [e]) <==> (match e case Did(x) => !x.Service? && Owed(log) case Accepted => true)
    ensures Disciplined(log) && EntryAllowed(Owed(log), e) ==> Disciplined(log + [e])
  {
    var l := log + [e];
    assert l[..|l| - 1] == log;
    if Disciplined(log) && EntryAllowed(Owed(log), e) {
      forall i | 0 <= i < |l| ensures EntryAllowed(Owed(l[..i]), l[i]) {
        if i < |log| { assert l[..i] == log[..i]; } else { assert l[..i] == log; }
      }
    }
  }

  // ---- The invariant ----

  predicate CommandHoldsMtx(p: CommandPc) { p.Act? || p.Notify? || p.Join? || p.Finish? }

  predicate CommandHoldsEvent(p: CommandPc) {
    p.TestFlag? || p.Leave? || ((p.TakeData? || p.Act?) && p.cmd != DoPause)
  }

  predicate EventHoldsEvent(p: EventPc) { p.CheckFlag? || p.WantData? || p.Working? || p.Unlocking? }

  predicate Exiting(p: EventPc) { (p.Unlocking? && p.exiting) || (p.Notifying? && p.exiting) || p.Ended? }

  /** A start or stop has asked the event thread to end. */
  predicate Stopping(p: CommandPc) { (p.Notify? && p.cmd != DoTrigger) || p.Join? }

  predicate LocksOk(s: System) {
    && (s.mtx == CommandThread <==> CommandHoldsMtx(s.command))
    && (s.mtx == EventThread <==> s.event.Working?)
    && (s.eventMutex == CommandThread <==> CommandHoldsEvent(s.command))
    && (s.eventMutex == EventThread <==> EventHoldsEvent(s.event))
    && s.eventMutex != DataThread
    && (!s.command.Idle? && s.command.cmd == DoPause ==> s.command.TakeData? || s.command.Act?)
    && (s.command.Join? || s.command.Finish? ==> s.command.cmd == DoStart || s.command.cmd == DoStop)
  }

  predicate FlagOk(s: System) {
    && (s.flag == Triggered ==> s.data.phase == Paused && !s.event.NoThread?)
    && (s.event != NoThread ==> (s.flag == StopRequested <==> Stopping(s.command)))
    && (Exiting(s.event) ==> s.flag == StopRequested)
    && (s.event.WantData? || s.event.Working? ==> s.flag == if s.event.timeout then Untriggered else Triggered)
    && (s.event == Unlocking(false) ==> s.flag == Untriggered)
    && ((s.command.TakeData? || s.command.Act?) && s.command.cmd != DoPause ==> s.flag != Triggered)
    && (s.command.Leave? ==> s.flag != Triggered)
  }

  /** A thread that sleeps on a predicate that has come true is about to be notified. */
  predicate NoLostWakeup(s: System) {
    && (s.event.Sleeping? && s.flag != Untriggered ==> s.command.Notify?)
    && (s.command.Asleep? && s.flag != Triggered ==> s.event == Unlocking(false) || s.event == Notifying(false))
  }

  /** The event thread exists exactly while the handler is paused, or is being asked to end. */
  predicate ThreadOk(s: System) {
    && (s.event != NoThread <==> s.data.phase == Paused || Stopping(s.command))
    && (s.command.Finish? ==> s.event == NoThread)
    && (Stopping(s.command) || s.command.Finish? ==>
          s.data.phase == if s.command.cmd == DoStart then Running else Stopped)
    && (s.command.Notify? && s.command.cmd == DoTrigger ==> s.data.phase == Paused)
  }

  ghost predicate DataOk(c: Config, s: System) {
    var st := Run(c, Events(s.log));
    if Stopping(s.command) || s.command.Finish? then st.phase == Paused && s.data == st.(phase := s.data.phase)
    else s.data == st
  }

  ghost predicate LogOk(s: System) {
    && Disciplined(s.log)
    && (Owed(s.log) <==> s.flag == Triggered)
    && Clocked(Events(s.log)) && ClockNotAfter(Events(s.log), s.clock)
  }

  predicate ControlOk(s: System) {
    LocksOk(s) && FlagOk(s) && NoLostWakeup(s) && ThreadOk(s)
  }

  ghost predicate SystemInv(c: Config, s: System) {
    ControlOk(s) && DataOk(c, s) && LogOk(s)
  }

  // ---- What the moves do to the stores ----

  /** The stores are what the log says, and the log is disciplined and timed. */
  ghost predicate Agrees(c: Config, s: System) {
    && s.data == Run(c, Events(s.log)) && Disciplined(s.log)
    && Clocked(Events(s.log)) && ClockNotAfter(Events(s.log), s.clock)
  }

  /** An event done to stores that agree with the log, and logged. */
  lemma {:induction false} DoAgrees(c: Config, s: System, e: Event)
    requires s.data == Run(c, Events(s.log)) && LogOk(s)
    requires EntryAllowed(Owed(s.log), Did(e))
    requires Timed(e) ==> e.now == s.clock
    ensures Agrees(c, Do(c, s, e)) && (Owed(Do(c, s, e).log) <==> Owed(s.log) && !e.Service?)
  {
    LogGrows(s.log, Did(e));
    RunSnoc(c, Events(s.log), e);
    hide Step, Run, Events, Owed, Disciplined;
  }

  lemma FinishIsCommand(c: Config, st: State, cmd: Command)
    requires st.phase == Paused && (cmd == DoStart || cmd == DoStop)
    ensures var target := if cmd == DoStart then Running else Stopped;
            && FinishData(c, st.(phase := target), cmd) == Step(c, st, CommandEvent(cmd))
            && FinishData(c, st.(phase := target), cmd).phase == target
  {
    StepLog(c, st, CommandEvent(cmd));
  }

  // ---- Every move keeps the invariant ----

  lemma ActControl(c: Config, s: System, cmd: Command)
    requires ControlOk(s) && s.command == Act(cmd)
    ensures ControlOk(ActStep(c, s, cmd))
  {
    StepLog(c, s.data, CommandEvent(cmd));
    var r := ActStep(c, s, cmd);
    assert LocksOk(r);
    assert FlagOk(r);
    assert NoLostWakeup(r);
    assert ThreadOk(r);
  }

  lemma ActData(c: Config, s: System, cmd: Command)
    requires ControlOk(s) && DataOk(c, s) && LogOk(s) && s.command == Act(cmd)
    ensures DataOk(c, ActStep(c, s, cmd)) && LogOk(ActStep(c, s, cmd))
  {
    hide Step, Run, Events, Owed, Disciplined;
    if cmd == DoTrigger {
      LogGrows(s.log, Accepted);
    } else if cmd == DoPause || s.data.phase != Paused {
      DoAgrees(c, s, CommandEvent(cmd));
    }
  }

  lemma FinishControl(c: Config, s: System)
    requires SystemInv(c, s) && s.command.Finish?
    ensures ControlOk(NextCommand(c, s).value)
  {
    FinishIsCommand(c, Run(c, Events(s.log)), s.command.cmd);
  }

  lemma FinishDataOk(c: Config, s: System)
    requires SystemInv(c, s) && s.command.Finish?
    ensures DataOk(c, NextCommand(c, s).value) && LogOk(NextCommand(c, s).value)
  {
    hide Step, Run, Events, Owed, Disciplined, FinishData;
    var cmd, st, r := s.command.cmd, Run(c, Events(s.log)), NextCommand(c, s).value;
    FinishIsCommand(c, st, cmd);
    LogGrows(s.log, Did(CommandEvent(cmd)));
    RunSnoc(c, Events(s.log), CommandEvent(cmd));
    assert s.data == st.(phase := s.data.phase);
    assert r.data == Run(c, Events(r.log));
  }

  lemma CommandControl(c: Config, s: System)
    requires ControlOk(s) && NextCommand(c, s).Some? && !s.command.Act? && !s.command.Finish?
    ensures ControlOk(NextCommand(c, s).value)
  {
    var r := NextCommand(c, s).value;
    assert LocksOk(r);
    assert FlagOk(r);
    assert NoLostWakeup(r);
    assert ThreadOk(r);
  }

  lemma CommandStepOk(c: Config, s: System)
    requires SystemInv(c, s) && NextCommand(c, s).Some?
    ensures SystemInv(c, NextCommand(c, s).value)
  {
    if s.command.Act? {
      ActControl(c, s, s.command.cmd);
      ActData(c, s, s.command.cmd);
    } else if s.command.Finish? {
      FinishControl(c, s);
      FinishDataOk(c, s);
    } else {
      CommandControl(c, s);
    }
  }

  lemma WorkingControl(c: Config, s: System)
    requires ControlOk(s) && s.event.Working?
    ensures ControlOk(NextEvent(c, s).value)
  {
    StepLog(c, s.data, if s.event.timeout then Cleanup(s.clock) else Service(s.clock));
    var r := NextEvent(c, s).value;
    assert LocksOk(r);
    assert FlagOk(r);
    assert NoLostWakeup(r);
    assert ThreadOk(r);
  }

  lemma WorkingData(c: Config, s: System)
    requires ControlOk(s) && s.event.Working?
    requires DataOk(c, s) && LogOk(s)
    ensures forall r :: NextEvent(c, s) == Some(r) ==> DataOk(c, r) && LogOk(r)
  {
    hide Step, Run, Events, Owed, Disciplined;
    var e := if s.event.timeout then Cleanup(s.clock) else Service(s.clock);
    assert !Stopping(s.command) && !s.command.Finish?;
    DoAgrees(c, s, e);
    forall r | NextEvent(c, s) == Some(r) ensures DataOk(c, r) && LogOk(r) {
      WorkDone(c, Do(c, s, e), r);
    }
  }

  lemma WorkDone(c: Config, s: System, r: System)
    requires r == s.(flag := Untriggered, mtx := Free, event := Unlocking(false))
    requires Agrees(c, s) && !Owed(s.log) && !Stopping(s.command) && !s.command.Finish?
    ensures DataOk(c, r) && LogOk(r)
  {}

  lemma CheckFlagControl(c: Config, s: System)
    requires ControlOk(s) && s.event.CheckFlag?
    ensures ControlOk(NextEvent(c, s).value)
  {}

  lemma EventControl(c: Config, s: System)
    requires ControlOk(s) && NextEvent(c, s).Some? && !s.event.Working? && !s.event.CheckFlag?
    ensures ControlOk(NextEvent(c, s).value)
  {
    hide Step, Run, Events, Owed, Disciplined, FinishData;
    assert LocksOk(NextEvent(c, s).value);
  }

  /** A step that touches neither the stores nor the log. */
  lemma SameData(c: Config, s: System, r: System)
    requires DataOk(c, s) && LogOk(s)
    requires r.data == s.data && r.log == s.log && r.flag == s.flag && r.clock >= s.clock
    requires (Stopping(r.command) || r.command.Finish?) <==> (Stopping(s.command) || s.command.Finish?)
    ensures DataOk(c, r) && LogOk(r)
  {}

  lemma EventStepOk(c: Config, s: System)
    requires SystemInv(c, s) && NextEvent(c, s).Some?
    ensures SystemInv(c, NextEvent(c, s).value)
  {
    if s.event.Working? {
      WorkingControl(c, s);
      WorkingData(c, s);
    } else {
      if s.event.CheckFlag? { CheckFlagControl(c, s); } else { EventControl(c, s); }
      SameData(c, s, NextEvent(c, s).value);
    }
  }

  lemma DataWorkOk(c: Config, s: System, e: Event)
    requires SystemInv(c, s) && s.mtx == DataThread && (e.Receive? || e.Discover?)
    ensures SystemInv(c, Do(c, s, e).(mtx := Free))
  {
    DoAgrees(c, s, e);
    StepLog(c, s.data, e);
  }

  lemma MoveOk(c: Config, s: System, m: Move)
    requires SystemInv(c, s) && Next(c, s, m).Some?
    ensures SystemInv(c, Next(c, s, m).value)
  {
    hide Step, Run, Events, Owed, Disciplined, FinishData;
    match m
    case CommandStep => CommandStepOk(c, s);
    case EventStep => EventStepOk(c, s);
    case DataWork(e) => DataWorkOk(c, s, e);
    case _ =>
  }

  lemma {:induction false} Reachable(c: Config, moves: seq<Move>)
    ensures SystemInv(c, After(c, moves))
    decreases |moves|
  {
    if moves != [] {
      var front := moves[..|moves| - 1];
      Reachable(c, front);
      if Next(c, After(c, front), moves[|moves| - 1]).Some? { MoveOk(c, After(c, front), moves[|moves| - 1]); }
    }
  }

  // ---- What the locks guarantee ----

  /** No deadlock: while a command is in progress, some thread can take a step. */
  lemma {:induction false} NoDeadlock(c: Config, moves: seq<Move>, e: Event)
    requires e.Receive? || e.Discover?
    ensures var s := After(c, moves);
            s.command != Idle ==>
              NextCommand(c, s).Some? || NextEvent(c, s).Some? || Next(c, s, DataWork(e)).Some?
  {
    hide After, SystemInv, NextCommand, NextEvent, Next;
    Reachable(c, moves);
    InvControl(c, After(c, moves));
    if After(c, moves).command != Idle { SomeoneMoves(c, After(c, moves), e); }
  }

  lemma {:induction false} InvControl(c: Config, s: System)
    requires SystemInv(c, s)
    ensures ControlOk(s)
  {}

  lemma {:induction false} SomeoneMoves(c: Config, s: System, e: Event)
    requires ControlOk(s) && s.command != Idle && (e.Receive? || e.Discover?)
    ensures NextCommand(c, s).Some? || NextEvent(c, s).Some? || Next(c, s, DataWork(e)).Some?
  {
    hide Step, Run, Events, Owed, Disciplined, FinishData, ActStep, Do;
  }

  function EventRank(p: EventPc, flag: Flag): nat {
    match p
    case NoThread => 0
    case Ended => 0
    case Sleeping => if flag == Untriggered then 0 else 15
    case LoopTop => if flag == Untriggered then 3 else 14
    case Woken(timedOut) => if flag == Untriggered then (if timedOut then 10 else 3) else 14
    case CheckFlag(timedOut) => if flag == Untriggered then (if timedOut then 9 else 2) else 13
    case WantData(timeout) => if timeout then 8 else 12
    case Working(timeout) => if timeout then 7 else 11
    case Unlocking(exiting) => if exiting then 12 else 6
    case Notifying(exiting) => if exiting then 11 else if flag == Untriggered then 5 else 20
  }

  function CommandRank(p: CommandPc, flag: Flag): nat {
    match p
    case Idle => 0
    case TakeEvent(cmd) => ActWeight(cmd) + if flag == Triggered then 3 else 12
    case Awake(cmd) => ActWeight(cmd) + if flag == Triggered then 3 else 12
    case TestFlag(cmd) => ActWeight(cmd) + if flag == Triggered then 2 else 11
    case Asleep(cmd) => ActWeight(cmd) + if flag == Triggered then 1 else 13
    case TakeData(cmd) => ActWeight(cmd) + 10
    case Act(cmd) => ActWeight(cmd) + 9
    case Notify(cmd) => 8
    case Join(cmd) => 7
    case Finish(cmd) => 6
    case Leave(cmd) => 1
  }

  /** A trigger that is accepted hands the event thread a whole round of work. */
  function ActWeight(cmd: Command): nat { if cmd == DoTrigger then 300 else 100 }

  function Rank(s: System): nat {
    (if s.flag == Triggered then 100 else 0) + EventRank(s.event, s.flag) + CommandRank(s.command, s.flag)
  }

  lemma CommandMakesProgress(c: Config, s: System)
    requires ControlOk(s) && NextCommand(c, s).Some?
    ensures Rank(NextCommand(c, s).value) < Rank(s)
  {
    hide Step, Run, Events, Owed, Disciplined, FinishData;
  }

  lemma EventMakesProgress(c: Config, s: System)
    requires ControlOk(s) && NextEvent(c, s).Some?
    ensures Rank(NextEvent(c, s).value) < Rank(s)
  {
    hide Step, Run, Events, Owed, Disciplined, FinishData;
  }

  /**
   No livelock: each step of the two threads uses up rank, so a command ends after at most `Rank`
   of them, whatever their order, unless a timeout, a spurious wake-up or a new command comes in.
  */
  lemma {:induction false} EveryStepCounts(c: Config, moves: seq<Move>, m: Move)
    requires m == CommandStep || m == EventStep || m.DataLock? || m.DataWork? || m.Tick?
    requires Next(c, After(c, moves), m).Some?
    ensures var s, r := After(c, moves), Next(c, After(c, moves), m).value;
            Rank(r) <= Rank(s) <= 433 && (m == CommandStep || m == EventStep ==> Rank(r) < Rank(s))
  {
    hide After, SystemInv, Rank;
    var s := After(c, moves);
    Reachable(c, moves);
    InvControl(c, s);
    RankIsSmall(s);
    match m
    case CommandStep => CommandMakesProgress(c, s);
    case EventStep => EventMakesProgress(c, s);
    case _ => OthersKeepRank(c, s, m);
  }

  lemma {:induction false} RankIsSmall(s: System)
    ensures Rank(s) <= 433
  {}

  lemma {:induction false} OthersKeepRank(c: Config, s: System, m: Move)
    requires (m.DataLock? || m.DataWork? || m.Tick?) && Next(c, s, m).Some?
    ensures Rank(Next(c, s, m).value) == Rank(s)
  {
    hide Step, EventRank, CommandRank;
  }

  // ---- A command ends ----

  /** Every move but timeouts, spurious wake-ups and new commands. */
  predicate Quiet(moves: seq<Move>) {
    forall i :: 0 <= i < |moves| ==> QuietMove(moves[i])
  }

  predicate QuietMove(m: Move) { ThreadMove(m) || m.DataLock? || m.DataWork? || m.Tick? }

  predicate ThreadMove(m: Move) { m == CommandStep || m == EventStep }

  function Onward(c: Config, s: System, moves: seq<Move>): System
    decreases |moves|
  {
    if moves == [] then s else Onward(c, Advance(c, s, moves[0]), moves[1..])
  }

  /** How many of the moves are steps that one of the two threads really takes. */
  function StepsTaken(c: Config, s: System, moves: seq<Move>): nat
    decreases |moves|
  {
    if moves == [] then 0
    else
      (if ThreadMove(moves[0]) && Next(c, s, moves[0]).Some? then 1 else 0)
      + StepsTaken(c, Advance(c, s, moves[0]), moves[1..])
  }

  lemma AdvanceOk(c: Config, s: System, m: Move)
    requires SystemInv(c, s)
    ensures SystemInv(c, Advance(c, s, m))
    ensures QuietMove(m) ==>
              Rank(Advance(c, s, m)) + (if ThreadMove(m) && Next(c, s, m).Some? then 1 else 0) <= Rank(s)
  {
    hide SystemInv, Rank, NextCommand, NextEvent;
    if Next(c, s, m).Some? {
      MoveOk(c, s, m);
      InvControl(c, s);
      match m
      case CommandStep => CommandMakesProgress(c, s);
      case EventStep => EventMakesProgress(c, s);
      case _ => if QuietMove(m) { OthersKeepRank(c, s, m); }
    }
  }

  lemma {:induction false} QuietIsBounded(c: Config, s: System, moves: seq<Move>)
    requires SystemInv(c, s) && Quiet(moves)
    ensures SystemInv(c, Onward(c, s, moves))
    ensures StepsTaken(c, s, moves) + Rank(Onward(c, s, moves)) <= Rank(s)
    decreases |moves|
  {
    hide SystemInv, Rank, Next, Advance, QuietMove;
    if moves != [] {
      AdvanceOk(c, s, moves[0]);
      QuietIsBounded(c, Advance(c, s, moves[0]), moves[1..]);
    }
  }

  /** The steps that end a command, whoever has to take them. */
  lemma {:induction false} Ending(c: Config, s: System) returns (moves: seq<Move>)
    requires SystemInv(c, s)
    ensures Quiet(moves) && Onward(c, s, moves).command == Idle
    decreases Rank(s), s.mtx == DataThread
  {
    hide SystemInv, Rank, NextCommand, NextEvent;
    moves := [];
    if s.command != Idle {
      var e := Discover(0);
      InvControl(c, s);
      SomeoneMoves(c, s, e);
      var m := if NextCommand(c, s).Some? then CommandStep
               else if NextEvent(c, s).Some? then EventStep
               else DataWork(e);
      AdvanceOk(c, s, m);
      var rest := Ending(c, Advance(c, s, m));
      moves := [m] + rest;
      assert moves[1..] == rest;
    }
  }

  lemma {:induction false} OnwardIsAfter(c: Config, moves: seq<Move>, later: seq<Move>)
    ensures Onward(c, After(c, moves), later) == After(c, moves + later)
    decreases |later|
  {
    hide Advance;
    if later == [] {
      assert moves + later == moves;
    } else {
      var more := moves + [later[0]];
      assert more[..|more| - 1] == moves;
      assert more + later[1..] == moves + later;
      OnwardIsAfter(c, more, later[1..]);
    }
  }

  lemma {:induction false} RankZeroIsIdle(s: System)
    requires Rank(s) == 0
    ensures s.command == Idle
  {}

  /**
   A command ends. From any reachable state, along any moves other than timeouts, spurious wake-ups
   and new commands, the two threads take at most `Rank` steps; once they have taken that many, or
   neither can take one while no data thread holds `mtx_`, the command is over; and it can always be
   brought to its end.
  */
  lemma {:induction false} CommandEnds(c: Config, moves: seq<Move>)
    ensures var s := After(c, moves);
            && Rank(s) <= 433
            && (forall later :: Quiet(later) ==>
                  var r := After(c, moves + later);
                  && StepsTaken(c, s, later) <= Rank(s)
                  && (StepsTaken(c, s, later) == Rank(s) ==> r.command == Idle)
                  && (NextCommand(c, r).None? && NextEvent(c, r).None? && r.mtx != DataThread ==> r.command == Idle))
            && (exists later :: Quiet(later) && After(c, moves + later).command == Idle)
  {
    hide After, SystemInv, Rank, NextCommand, NextEvent, Onward, StepsTaken, Quiet;
    var s := After(c, moves);
    Reachable(c, moves);
    RankIsSmall(s);
    forall later | Quiet(later)
      ensures var r := After(c, moves + later);
              && StepsTaken(c, s, later) <= Rank(s)
              && (StepsTaken(c, s, later) == Rank(s) ==> r.command == Idle)
              && (NextCommand(c, r).None? && NextEvent(c, r).None? && r.mtx != DataThread ==> r.command == Idle)
    {
      QuietIsBounded(c, s, later);
      OnwardIsAfter(c, moves, later);
      var r := Onward(c, s, later);
      if Rank(r) == 0 { RankZeroIsIdle(r); }
      InvControl(c, r);
      if r.command != Idle { SomeoneMoves(c, r, Discover(0)); }
    }
    var ending := Ending(c, s);
    OnwardIsAfter(c, moves, ending);
  }

  /**
   Each accepted trigger is serviced exactly once, before any later start, stop, cleanup or trigger
   takes effect; the flag says triggered exactly from acceptance to service, and only while paused.
  */
  lemma {:induction false} TriggersAreServiced(c: Config, moves: seq<Move>)
    ensures var s := After(c, moves);
            && Disciplined(s.log)
            && (Owed(s.log) <==> s.flag == Triggered)
            && (s.flag == Triggered ==> s.data.phase == Paused)
  {
    Reachable(c, moves);
  }

  /** The event thread is joinable exactly while the handler is paused, whenever no command holds `mtx_`. */
  lemma {:induction false} JoinableIffPaused(c: Config, moves: seq<Move>)
    ensures var s := After(c, moves); s.mtx != CommandThread ==> (s.event != NoThread <==> s.data.phase == Paused)
  {
    Reachable(c, moves);
  }

  /**
   Refinement: whoever locks `mtx_` finds the stores as a run of the model left them, and that run
   is timed by a clock that never goes back. What `HandlerTheorems` and `HandlerCleanup` prove of
   runs is therefore true of every interleaving.
  */
  lemma {:induction false} StoresAreARun(c: Config, moves: seq<Move>)
    ensures var s := After(c, moves);
            s.mtx != CommandThread ==>
              && s.data == Run(c, Events(s.log)) && Clocked(Events(s.log))
              && s.data.file == Run(c, WithoutCleanups(Events(s.log))).file
              && (forall i :: 0 <= i < |s.data.received| ==> Places(s.data, s.data.received[i].sample) == 1)
              && Everything(s.data) == multiset(Samples(s.data.received))
  {
    Reachable(c, moves);
    var s := After(c, moves);
    CleanupIsUnobservable(c, Events(s.log));
    Conservation(c, Events(s.log));
  }

  // ---- What a command does ----

  /** Acceptances, starts, stops and pauses; not what data threads and the event thread do. */
  predicate IsEffect(e: Entry) {
    e.Accepted? || e.event.Start? || e.event.Stop? || e.event.Pause?
  }

  function Effects(log: seq<Entry>): seq<Entry>
    decreases |log|
  {
    if log == [] then []
    else Effects(log[..|log| - 1]) + if IsEffect(log[|log| - 1]) then [log[|log| - 1]] else []
  }

  /** What a command is for: a trigger is accepted in a pause and only there, the others always take effect. */
  function Expected(cmd: Command, phase: Phase): seq<Entry> {
    match cmd
    case DoStart => [Did(Start)]
    case DoStop => [Did(Stop)]
    case DoPause => [Did(Pause)]
    case DoTrigger => if phase == Paused then [Accepted] else []
  }

  function PhaseFor(cmd: Command, phase: Phase): Phase {
    match cmd
    case DoStart => Running
    case DoStop => Stopped
    case DoPause => Paused
    case DoTrigger => phase
  }

  lemma {:induction false} EffectsGrow(log: seq<Entry>, e: Entry)
    ensures Effects(log + [e]) == Effects(log) + if IsEffect(e) then [e] else []
  {
    assert (log + [e])[..|log|] == log;
  }

  /** Whether the work of a command is behind it. */
  predicate Behind(p: CommandPc) { p.Idle? || p.Leave? || (p.Notify? && p.cmd == DoTrigger) }

  /** Whether the work of a command is still ahead. */
  predicate Ahead(p: CommandPc) {
    p.TakeEvent? || p.TestFlag? || p.Asleep? || p.Awake? || p.TakeData? || p.Act?
  }

  ghost predicate Underway(cmd: Command, start: System, s: System) {
    && (s.command == Idle || s.command.cmd == cmd)
    && Effects(s.log) == Effects(start.log) + (if Behind(s.command) then Expected(cmd, start.data.phase) else [])
    && (Ahead(s.command) ==> s.data.phase == start.data.phase)
    && (Behind(s.command) ==> s.data.phase == PhaseFor(cmd, start.data.phase))
  }

  lemma ActUnderway(c: Config, cmd: Command, start: System, s: System)
    requires ControlOk(s) && Underway(cmd, start, s) && s.command.Act?
    ensures Underway(cmd, start, ActStep(c, s, cmd))
  {
    hide Step, Effects;
    StepLog(c, s.data, CommandEvent(cmd));
    EffectsGrow(s.log, Did(CommandEvent(cmd)));
    EffectsGrow(s.log, Accepted);
    assert Effects(start.log) + [] == Effects(start.log);
  }

  lemma FinishUnderway(c: Config, cmd: Command, start: System, s: System)
    requires SystemInv(c, s) && Underway(cmd, start, s) && s.command.Finish?
    ensures Underway(cmd, start, NextCommand(c, s).value)
  {
    hide Step, Effects, Run, Events, FinishData, Disciplined;
    FinishIsCommand(c, Run(c, Events(s.log)), cmd);
    EffectsGrow(s.log, Did(CommandEvent(cmd)));
    assert Effects(start.log) + [] == Effects(start.log);
  }

  lemma CommandUnderway(c: Config, cmd: Command, start: System, s: System)
    requires SystemInv(c, s) && Underway(cmd, start, s) && NextCommand(c, s).Some?
    ensures Underway(cmd, start, NextCommand(c, s).value)
  {
    hide Effects, SystemInv;
    InvControl(c, s);
    if s.command.Act? {
      ActUnderway(c, cmd, start, s);
    } else if s.command.Finish? {
      FinishUnderway(c, cmd, start, s);
    } else {
      hide ActStep, FinishData;
    }
  }

  /** What the other threads do leaves the effects and the phase alone. */
  lemma OthersUnderway(c: Config, cmd: Command, start: System, s: System, m: Move)
    requires Underway(cmd, start, s) && QuietMove(m) && m != CommandStep && Next(c, s, m).Some?
    ensures Underway(cmd, start, Next(c, s, m).value)
  {
    hide Effects, Step;
    match m
    case EventStep =>
      if s.event.Working? {
        var e := if s.event.timeout then Cleanup(s.clock) else Service(s.clock);
        StepLog(c, s.data, e);
        EffectsGrow(s.log, Did(e));
      }
    case DataWork(e) =>
      StepLog(c, s.data, e);
      EffectsGrow(s.log, Did(e));
    case _ =>
  }

  lemma {:induction false} QuietUnderway(c: Config, cmd: Command, start: System, s: System, later: seq<Move>)
    requires SystemInv(c, s) && Underway(cmd, start, s) && Quiet(later)
    ensures Underway(cmd, start, Onward(c, s, later))
    decreases |later|
  {
    hide SystemInv, Underway, Next, QuietMove;
    if later != [] {
      AdvanceOk(c, s, later[0]);
      if Next(c, s, later[0]).Some? {
        assert QuietMove(later[0]);
        OneUnderway(c, cmd, start, s, later[0]);
      }
      QuietUnderway(c, cmd, start, Advance(c, s, later[0]), later[1..]);
    }
  }

  lemma OneUnderway(c: Config, cmd: Command, start: System, s: System, m: Move)
    requires SystemInv(c, s) && Underway(cmd, start, s) && QuietMove(m) && Next(c, s, m).Some?
    ensures Underway(cmd, start, Next(c, s, m).value)
  {
    hide SystemInv, Underway;
    if m == CommandStep { CommandUnderway(c, cmd, start, s); } else { OthersUnderway(c, cmd, start, s, m); }
  }

  /**
   A command takes effect exactly once. Issued when none is in progress and followed to its end, with
   whatever the other threads do meanwhile, a start, a stop or a pause is done once and leaves its phase;
   a trigger is accepted once in a pause, never outside one, and changes no phase.
  */
  lemma {:induction false} CommandTakesEffect(c: Config, moves: seq<Move>, cmd: Command, later: seq<Move>)
    requires After(c, moves).command == Idle && Quiet(later)
    requires After(c, moves + [Issue(cmd)] + later).command == Idle
    ensures var s, r := After(c, moves), After(c, moves + [Issue(cmd)] + later);
            && Effects(r.log) == Effects(s.log) + Expected(cmd, s.data.phase)
            && r.data.phase == PhaseFor(cmd, s.data.phase)
  {
    hide SystemInv, Effects, Onward;
    var s := After(c, moves);
    Reachable(c, moves);
    var issued := moves + [Issue(cmd)];
    assert issued[..|issued| - 1] == moves;
    Reachable(c, issued);
    assert Effects(s.log) + [] == Effects(s.log);
    hide After;
    QuietUnderway(c, cmd, s, After(c, issued), later);
    OnwardIsAfter(c, issued, later);
  }

  // ---- What a trigger brings about ----

  /** How often the event thread has serviced since the last acceptance. */
  function ServicesSince(log: seq<Entry>): nat
    decreases |log|
  {
    if log == [] || log[|log| - 1].Accepted? then 0
    else (if log[|log| - 1].event.Service? then 1 else 0) + ServicesSince(log[..|log| - 1])
  }

  lemma {:induction false} ServedOnce(log: seq<Entry>)
    requires Disciplined(log)
    ensures ServicesSince(log) == if Accepted in log && !Owed(log) then 1 else 0
    ensures Owed(log) ==> Accepted in log
    decreases |log|
  {
    if log != [] {
      var front, e := log[..|log| - 1], log[|log| - 1];
      forall i | 0 <= i < |front| ensures EntryAllowed(Owed(front[..i]), front[i]) {
        assert front[..i] == log[..i];
        assert EntryAllowed(Owed(log[..i]), log[i]);
      }
      ServedOnce(front);
      assert EntryAllowed(Owed(front), e);
    }
  }

  lemma {:induction false} EffectsAreLogged(log: seq<Entry>, e: Entry)
    ensures e in Effects(log) <==> e in log && IsEffect(e)
    decreases |log|
  {
    if log != [] { EffectsAreLogged(log[..|log| - 1], e); }
  }

  /** Where neither thread can step and no command is in progress, no trigger is owed. */
  lemma SettledOwesNothing(c: Config, s: System)
    requires SystemInv(c, s) && s.command == Idle && NextEvent(c, s).None? && s.mtx != DataThread
    ensures !Owed(s.log) && (s.event.Sleeping? || s.event.NoThread?)
  {
    hide Run, Events, Disciplined, Owed, Step;
  }

  /**
   A trigger given in a pause is accepted, and serviced exactly once: once its command is over and the
   event thread has nothing left to do, one service follows the acceptance.
  */
  lemma {:induction false} TriggerIsServed(c: Config, moves: seq<Move>, later: seq<Move>)
    requires After(c, moves).command == Idle && After(c, moves).data.phase == Paused && Quiet(later)
    requires var r := After(c, moves + [Issue(DoTrigger)] + later);
             r.command == Idle && NextEvent(c, r).None? && r.mtx != DataThread
    ensures var s, r := After(c, moves), After(c, moves + [Issue(DoTrigger)] + later);
            Effects(r.log) == Effects(s.log) + [Accepted] && ServicesSince(r.log) == 1
  {
    hide SystemInv, NextEvent, After, Effects;
    var all := moves + [Issue(DoTrigger)] + later;
    CommandTakesEffect(c, moves, DoTrigger, later);
    Reachable(c, all);
    SettledOwesNothing(c, After(c, all));
    EffectsAreLogged(After(c, all).log, Accepted);
    TriggersAreServiced(c, all);
    ServedOnce(After(c, all).log);
  }

  // ---- What a timeout brings about ----

  function Cleanups(log: seq<Entry>): nat
    decreases |log|
  {
    if log == [] then 0
    else Cleanups(log[..|log| - 1]) + if log[|log| - 1].Did? && log[|log| - 1].event.Cleanup? then 1 else 0
  }

  lemma {:induction false} CleanupsGrow(log: seq<Entry>, e: Entry)
    ensures Cleanups(log + [e]) == Cleanups(log) + if e.Did? && e.event.Cleanup? then 1 else 0
  {
    assert (log + [e])[..|log|] == log;
  }

  predicate CleanupAhead(p: EventPc) {
    p == Woken(true) || p == CheckFlag(true) || p == WantData(true) || p == Working(true)
  }

  predicate CleanupBehind(p: EventPc) {
    p == Unlocking(false) || p == Notifying(false) || p == LoopTop || p == CheckFlag(false) || p == Sleeping
  }

  ghost predicate TimedOut(start: System, s: System) {
    && s.command == Idle && s.flag == Untriggered && (CleanupAhead(s.event) || CleanupBehind(s.event))
    && Cleanups(s.log) == Cleanups(start.log) + if CleanupAhead(s.event) then 0 else 1
  }

  lemma TimeoutGoesOn(c: Config, start: System, s: System, m: Move)
    requires TimedOut(start, s) && QuietMove(m)
    ensures TimedOut(start, Advance(c, s, m))
  {
    hide Step, Cleanups;
    match m
    case EventStep => if s.event.Working? { CleanupsGrow(s.log, Did(Cleanup(s.clock))); }
    case DataWork(e) => CleanupsGrow(s.log, Did(e));
    case _ =>
  }

  lemma {:induction false} TimeoutGoesAllOn(c: Config, start: System, s: System, later: seq<Move>)
    requires TimedOut(start, s) && Quiet(later)
    ensures TimedOut(start, Onward(c, s, later))
    decreases |later|
  {
    hide TimedOut, Advance, QuietMove;
    if later != [] {
      TimeoutGoesOn(c, start, s, later[0]);
      TimeoutGoesAllOn(c, start, Advance(c, s, later[0]), later[1..]);
    }
  }

  /** A timeout while no command is in progress: the event thread cleans up exactly once and sleeps again. */
  lemma {:induction false} TimeoutCleansUp(c: Config, moves: seq<Move>, later: seq<Move>)
    requires After(c, moves).command == Idle && After(c, moves).event == Sleeping && Quiet(later)
    requires var r := After(c, moves + [EventTimeout] + later); NextEvent(c, r).None? && r.mtx != DataThread
    ensures var s, r := After(c, moves), After(c, moves + [EventTimeout] + later);
            Cleanups(r.log) == Cleanups(s.log) + 1 && r.event == Sleeping
  {
    hide SystemInv, NextEvent, Onward, Cleanups;
    var s := After(c, moves);
    Reachable(c, moves);
    InvControl(c, s);
    var issued := moves + [EventTimeout];
    assert issued[..|issued| - 1] == moves;
    assert TimedOut(s, After(c, issued));
    hide After;
    TimeoutGoesAllOn(c, s, After(c, issued), later);
    OnwardIsAfter(c, issued, later);
    Reachable(c, issued + later);
    SettledOwesNothing(c, After(c, issued + later));
  }

  /** The log only grows, and what the event thread logs has the time at which it does it. */
  lemma {:induction false} TimesAreCurrent(c: Config, moves: seq<Move>, later: seq<Move>)
    ensures var s, r := After(c, moves), After(c, moves + later);
            && s.log <= r.log && s.clock <= r.clock
            && forall i :: |s.log| <= i < |r.log| ==> Between(s.clock, r.log[i], r.clock)
    decreases |later|
  {
    hide After, Advance;
    if later == [] {
      assert moves + later == moves;
    } else {
      var front := later[..|later| - 1];
      TimesAreCurrent(c, moves, front);
      LastMove(c, moves, later);
      OneEntry(c, After(c, moves + front), later[|later| - 1]);
    }
  }

  /** A timed entry has a time between two readings of the clock. */
  predicate Between(low: int, e: Entry, high: int) {
    e.Did? && Timed(e.event) ==> low <= e.event.now <= high
  }

  lemma {:induction false} LastMove(c: Config, moves: seq<Move>, later: seq<Move>)
    requires later != []
    ensures After(c, moves + later) == Advance(c, After(c, moves + later[..|later| - 1]), later[|later| - 1])
  {
    hide Advance;
    assert (moves + later)[..|moves + later| - 1] == moves + later[..|later| - 1];
  }

  lemma OneEntry(c: Config, s: System, m: Move)
    ensures var r := Advance(c, s, m);
            && s.clock <= r.clock && s.log <= r.log && |r.log| <= |s.log| + 1
            && (|r.log| > |s.log| ==> Between(s.clock, r.log[|s.log|], s.clock))
  {
    hide Step, FinishData;
  }

  /** A data thread that holds `mtx_` hands its sample or type to the stores. */
  lemma {:induction false} DataWorkIsDone(c: Config, moves: seq<Move>, e: Event)
    requires After(c, moves).mtx == DataThread && (e.Receive? || e.Discover?)
    ensures var s, r := After(c, moves), After(c, moves + [DataWork(e)]);
            r.log == s.log + [Did(e)] && r.data == Step(c, s.data, e) && r.mtx == Free
  {
    assert (moves + [DataWork(e)])[..|moves|] == moves;
  }
}
