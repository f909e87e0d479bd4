/**
 The recorder's command queue against its event counter: commands are pushed under the lock and
 notified after it, stop events only count, and the waiting thread tells them apart by comparing the
 count with the queue. Every interleaving of these steps is a run.
*/
module CommandQueue {

  type Command = string

  /** What a wait returns: a received command, or the close it makes up. */
  datatype Reply = Close | Received(command: Command)

  /** Where the waiting thread is. From `Inside` to `Popping` it holds the lock. */
  datatype Phase = Outside | Woken | Inside | Counting | Popping

  datatype State = State(pushed: seq<Command>, queue: seq<Command>, notified: nat, stops: nat,
                         count: int, phase: Phase, replies: seq<Reply>, underflow: bool)

  const INITIAL := State([], [], 0, 0, 0, Outside, [], false)

  datatype Step = Push(command: Command) | Notify | Stop | Wake | Lock | Read | Decrement | Pop

  predicate Locked(p: Phase) { p == Inside || p == Counting || p == Popping }

  predicate Enabled(s: State, step: Step) {
    match step
    case Push(_) => !Locked(s.phase)
    case Notify => s.notified < |s.pushed|
    case Stop => true
    case Wake => s.phase == Outside && s.count >= 1
    case Lock => s.phase == Woken
    case Read => s.phase == Inside
    case Decrement => s.phase == Counting
    case Pop => s.phase == Popping
  }

  /** The wait is over with a close exactly when the count exceeds the queue. */
  predicate Closes(s: State) { s.count > |s.queue| }

  function Next(s: State, step: Step): State {
    match step
    case Push(c) => s.(pushed := s.pushed + [c], queue := s.queue + [c])
    case Notify => s.(count := s.count + 1, notified := s.notified + 1)
    case Stop => s.(count := s.count + 1, stops := s.stops + 1)
    case Wake => s.(phase := Woken)
    case Lock => s.(phase := Inside)
    case Read => if Closes(s) then s.(replies := s.replies + [Close], phase := Outside) else s.(phase := Counting)
    case Decrement => s.(count := s.count - 1, phase := Popping)
    case Pop =>
      if s.queue == [] then s.(underflow := true, phase := Outside)
      else s.(replies := s.replies + [Received(s.queue[0])], queue := s.queue[1..], phase := Outside)
  }

  /** Any sequence of steps; one that is not enabled does not happen. */
  function Run(steps: seq<Step>): State {
    if steps == [] then INITIAL
    else
      var s := Run(steps[..|steps| - 1]);
      if Enabled(s, steps[|steps| - 1]) then Next(s, steps[|steps| - 1]) else s
  }

  /** The commands among the replies, in order. */
  function Taken(replies: seq<Reply>): seq<Command> {
    if replies == [] then []
    else
      Taken(replies[..|replies| - 1])
      + if replies[|replies| - 1].Received? then [replies[|replies| - 1].command] else []
  }

  lemma {:induction false} TakenSnoc(replies: seq<Reply>, r: Reply)
    ensures Taken(replies + [r]) == Taken(replies) + if r.Received? then [r.command] else []
  {
    assert (replies + [r])[..|replies|] == replies;
  }

  predicate Inv(s: State) {
    && Taken(s.replies) + s.queue == s.pushed && s.notified <= |s.pushed| && !s.underflow
    && s.count == s.notified + s.stops - |Taken(s.replies)| - (if s.phase == Popping then 1 else 0)
    && (s.phase == Woken || s.phase == Inside ==> s.count >= 1)
    && (s.phase == Counting || s.phase == Popping ==> s.queue != [])
    && (Close in s.replies ==> s.stops >= 1)
  }

  lemma {:induction false} StepKeepsInv(s: State, step: Step)
    requires Inv(s) && Enabled(s, step)
    ensures Inv(Next(s, step))
  {
    hide Taken;
    match step {
      case Push(c) => assert Taken(s.replies) + (s.queue + [c]) == Taken(s.replies) + s.queue + [c];
      case Read => TakenSnoc(s.replies, Close);
      case Pop =>
        TakenSnoc(s.replies, Received(s.queue[0]));
        assert Taken(s.replies) + [s.queue[0]] + s.queue[1..] == Taken(s.replies) + s.queue;
      case _ =>
    }
  }

  lemma {:induction false} RunKeepsInv(steps: seq<Step>)
    ensures Inv(Run(steps))
  {
    if steps == [] {
      NothingTaken();
    } else {
      var front, last := steps[..|steps| - 1], steps[|steps| - 1];
      RunKeepsInv(front);
      if Enabled(Run(front), last) { StepKeepsInv(Run(front), last); }
    }
  }

  lemma {:induction false} NothingTaken()
    ensures Inv(INITIAL)
  {
    assert Taken([]) == [];
  }

  // ---- What every interleaving keeps ----

  /** A wait never takes from an empty queue, and returns commands in the order of their arrival. */
  lemma {:induction false} TakesInArrivalOrder(steps: seq<Step>)
    ensures var s := Run(steps);
            !s.underflow && Taken(s.replies) <= s.pushed && s.queue == s.pushed[|Taken(s.replies)|..]
  {
    RunKeepsInv(steps);
  }

  /** A wait that has the lock makes up a close exactly when stop events outnumber the pushes not yet notified. */
  lemma {:induction false} CloseExactlyWhen(steps: seq<Step>)
    requires Run(steps).phase == Inside
    ensures var s := Run(steps); Closes(s) <==> s.stops > |s.pushed| - s.notified
  {
    RunKeepsInv(steps);
    var s := Run(steps);
    assert |Taken(s.replies)| + |s.queue| == |s.pushed|;
  }

  /** Without a stop event there is no close, whatever lies between a push and its notification. */
  lemma {:induction false} CloseNeedsStop(steps: seq<Step>)
    ensures Close in Run(steps).replies ==> exists k :: 0 <= k < |steps| && steps[k] == Stop
  {
    RunKeepsInv(steps);
    CountStops(steps);
  }

  lemma {:induction false} CountStops(steps: seq<Step>)
    ensures Run(steps).stops >= 1 ==> exists k :: 0 <= k < |steps| && steps[k] == Stop
  {
    if steps != [] {
      var front := steps[..|steps| - 1];
      CountStops(front);
      if steps[|steps| - 1] != Stop && Run(steps).stops >= 1 {
        var k :| 0 <= k < |front| && front[k] == Stop;
        assert steps[k] == Stop;
      } else if Run(steps).stops >= 1 {
        assert steps[|steps| - 1] == Stop;
      }
    }
  }

  /** Once every push is notified, a waiting command or an event keeps no one asleep, and any stop event closes. */
  lemma {:induction false} NothingIsForgotten(steps: seq<Step>)
    requires Run(steps).notified == |Run(steps).pushed| && Run(steps).phase == Outside
    ensures var s := Run(steps);
            && (s.queue != [] || s.stops >= 1 ==> Enabled(s, Wake))
            && (s.stops >= 1 <==> Closes(s))
  {
    RunKeepsInv(steps);
    var s := Run(steps);
    assert |Taken(s.replies)| + |s.queue| == |s.pushed|;
  }

  /** A stop event between a push and its notification is told apart late: the command goes first, the close follows. */
  lemma {:induction false} StopBeforeNotification(c: Command)
    ensures Run([Push(c), Stop, Wake, Lock, Read, Decrement, Pop, Notify, Wake, Lock, Read]).replies ==
            [Received(c), Close]
  {
    hide Run;
    NothingRun();
    var early := [Push(c), Stop, Wake, Lock];
    RunTwo([], Push(c), Stop);
    assert [] + [Push(c), Stop] == [Push(c), Stop];
    RunTwo([Push(c), Stop], Wake, Lock);
    assert [Push(c), Stop] + [Wake, Lock] == early;
    assert Run(early) == State([c], [c], 0, 1, 1, Inside, [], false);
    TakeOne(early, c);
    var later := early + [Read, Decrement, Pop];
    RunOne(later, Notify);
    RunTwo(later + [Notify], Wake, Lock);
    RunOne(later + [Notify] + [Wake, Lock], Read);
    assert later + [Notify] + [Wake, Lock] + [Read]
        == [Push(c), Stop, Wake, Lock, Read, Decrement, Pop, Notify, Wake, Lock, Read];
  }

  lemma {:induction false} TakeOne(steps: seq<Step>, c: Command)
    requires Run(steps) == State([c], [c], 0, 1, 1, Inside, [], false)
    ensures Run(steps + [Read, Decrement, Pop]) == State([c], [], 0, 1, 0, Outside, [Received(c)], false)
  {
    hide Run;
    RunTwo(steps, Read, Decrement);
    RunOne(steps + [Read, Decrement], Pop);
    assert steps + [Read, Decrement] + [Pop] == steps + [Read, Decrement, Pop];
    assert [] + [Received(c)] == [Received(c)];
  }

  lemma {:induction false} NothingRun()
    ensures Run([]) == INITIAL
  {}

  // ---- The object ----

  class CommandReceiver {
    var commandsReceived: seq<Command>
    var eventCount: int
    ghost var history: seq<Step>

    ghost predicate Valid()
      reads this
    {
      var s := Run(history);
      s.queue == commandsReceived && s.count == eventCount && s.phase == Outside
    }

    constructor ()
      ensures Valid() && history == []
    {
      commandsReceived, eventCount, history := [], 0, [];
    }

    /** The listener: a sample is pushed, then notified. */
    method OnDataAvailable(command: Command)
      requires Valid()
      modifies this
      ensures Valid() && history == old(history) + [Push(command), Notify]
    {
      RunKeepsInv(history);
      RunTwo(history, Push(command), Notify);
      commandsReceived := commandsReceived + [command];
      eventCount := eventCount + 1;
      history := history + [Push(command), Notify];
    }

    method SimulateEventOccurred()
      requires Valid()
      modifies this
      ensures Valid() && history == old(history) + [Stop]
    {
      RunOne(history, Stop);
      eventCount := eventCount + 1;
      history := history + [Stop];
    }

    /** A wait once an event has occurred. */
    method WaitForCommand() returns (reply: Reply)
      requires Valid() && eventCount >= 1
      modifies this
      ensures Valid() && Run(history).replies == Run(old(history)).replies + [reply]
      ensures if old(eventCount > |commandsReceived|)
              then reply == Close && history == old(history) + [Wake, Lock, Read]
                   && commandsReceived == old(commandsReceived) && eventCount == old(eventCount)
              else reply == Received(old(commandsReceived)[0])
                   && history == old(history) + [Wake, Lock, Read, Decrement, Pop]
                   && commandsReceived == old(commandsReceived)[1..] && eventCount == old(eventCount) - 1
    {
      hide Run, Taken;
      RunKeepsInv(history);
      RunTwo(history, Wake, Lock);
      history := history + [Wake, Lock];
      RunKeepsInv(history);
      RunOne(history, Read);
      history := history + [Read];
      assert history == old(history) + [Wake, Lock, Read];
      RunKeepsInv(history);
      if eventCount > |commandsReceived| {
        reply := Close;
      } else {
        RunTwo(history, Decrement, Pop);
        history := history + [Decrement, Pop];
        assert history == old(history) + [Wake, Lock, Read, Decrement, Pop];
        eventCount := eventCount - 1;
        reply := Received(commandsReceived[0]);
        commandsReceived := commandsReceived[1..];
      }
    }
  }

  lemma {:induction false} RunOne(steps: seq<Step>, a: Step)
    requires Enabled(Run(steps), a)
    ensures Run(steps + [a]) == Next(Run(steps), a)
  {
    assert (steps + [a])[..|steps|] == steps;
  }

  lemma {:induction false} RunTwo(steps: seq<Step>, a: Step, b: Step)
    requires Enabled(Run(steps), a) && Enabled(Next(Run(steps), a), b)
    ensures Run(steps + [a, b]) == Next(Next(Run(steps), a), b)
  {
    RunOne(steps, a);
    RunOne(steps + [a], b);
    assert steps + [a] + [b] == steps + [a, b];
  }
}
