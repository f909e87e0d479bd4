/**
 The handler against its events: what it has received, knows and is told by the events alone, when a
 buffer is written, which pending samples stay, and what a pause holds.
*/
module HandlerHistory {
  import opened HandlerModel
  import opened HandlerInvariant

  // ---- The history, read off the events ----

  /** The last command decides; a handler starts stopped. */
  function PhaseOf(es: seq<Event>): Phase {
    if es == [] then Stopped
    else
      match es[|es| - 1]
      case Start => Running
      case Stop => Stopped
      case Pause => Paused
      case _ => PhaseOf(es[..|es| - 1])
  }

  function Discovered(es: seq<Event>): set<TypeName> {
    set i | 0 <= i < |es| && es[i].Discover? :: es[i].typeName
  }

  /** Every sample that comes while the last command is a start or a pause, with the phase and what was known then. */
  function Receptions(es: seq<Event>): seq<Reception> {
    if es == [] then []
    else
      var front, e := es[..|es| - 1], es[|es| - 1];
      var before := Receptions(front);
      if e.Receive? && PhaseOf(front) != Stopped
      then before + [Reception(Sample(|before|, e.typeName, e.logTime), PhaseOf(front),
                               e.typeName in Discovered(front))]
      else before
  }

  /** Every trigger serviced while paused: what it could see, and the start of its window. */
  function TriggersOf(c: Config, es: seq<Event>): seq<TriggerRecord> {
    if es == [] then []
    else
      var front, e := es[..|es| - 1], es[|es| - 1];
      TriggersOf(c, front)
      + if e.Service? && PhaseOf(front) == Paused
        then [TriggerRecord(|Receptions(front)|, e.now - c.eventWindow)] else []
  }

  // ---- What each operation leaves alone ----

  predicate SameLog(a: State, b: State) {
    a.phase == b.phase && a.known == b.known && a.received == b.received && a.triggers == b.triggers
  }

  lemma {:induction false} MakeRoomLog(c: Config, st: State, t: TypeName)
    requires c.maxPending != 0
    ensures SameLog(st, MakeRoom(c, st, t)) && MakeRoom(c, st, t).paused == st.paused
    decreases |At(st.pending, t)|
  {
    if |At(st.pending, t)| >= c.maxPending { MakeRoomLog(c, EvictOldest(c, st, t), t); }
  }

  lemma AddToPendingLog(c: Config, st: State, s: Sample)
    requires c.maxPending != 0
    ensures SameLog(st, AddToPending(c, st, s)) && AddToPending(c, st, s).paused == st.paused
  {
    MakeRoomLog(c, st.(pending := st.pending[s.typeName := At(st.pending, s.typeName)]), s.typeName);
  }

  lemma DumpPendingLog(c: Config, st: State, t: TypeName)
    ensures SameLog(st, DumpPending(c, st, t)) && DumpPending(c, st, t).dropped == st.dropped
  {
    hide AddAllToBuffer;
    var st1 := if t !in st.pending then st
               else if st.phase == Paused then st.(file := st.file + st.pending[t], pending := st.pending - {t})
               else AddAllToBuffer(c, st, st.pending[t]).(pending := st.pending - {t});
    if t in st.pending { AddAllFrame(c, st, st.pending[t]); }
    if t in st1.paused { AddAllFrame(c, st1, st1.paused[t]); }
  }

  lemma {:induction false} DumpAllLog(c: Config, st: State)
    requires st.phase != Paused
    ensures SameLog(st, DumpAllPending(c, st)) && DumpAllPending(c, st).dropped == st.dropped
    decreases |st.pending|
  {
    if st.pending != map[] {
      var t := MinKey(st.pending.Keys);
      DumpPendingLog(c, st, t);
      AddAllFrame(c, st, st.pending[t]);
      assert DumpPending(c, st, t).pending.Keys == st.pending.Keys - {t};
      DumpAllLog(c, DumpPending(c, st, t));
    }
  }

  lemma MoveOneLog(c: Config, st: State, t: TypeName)
    requires At(st.paused, t) != [] && !(c.maxPending == 0 && c.onlyWithSchema)
    ensures SameLog(st, MoveOne(c, st, t))
  {
    if c.maxPending != 0 { AddToPendingLog(c, st, st.paused[t][0]); }
  }

  lemma {:induction false} MoveListLog(c: Config, st: State, t: TypeName)
    requires !(c.maxPending == 0 && c.onlyWithSchema)
    ensures SameLog(st, MoveList(c, st, t))
    decreases |At(st.paused, t)|
  {
    if At(st.paused, t) != [] {
      MoveOneLog(c, st, t);
      MoveListLog(c, MoveOne(c, st, t), t);
    }
  }

  lemma {:induction false} MoveListsLog(c: Config, st: State, ks: set<TypeName>)
    requires !(c.maxPending == 0 && c.onlyWithSchema)
    ensures SameLog(st, MoveLists(c, st, ks))
    decreases |ks|
  {
    if ks != {} {
      MoveListLog(c, st, MinKey(ks));
      MoveListsLog(c, MoveList(c, st, MinKey(ks)), ks - {MinKey(ks)});
    }
  }

  function PhaseAfter(phase: Phase, e: Event): Phase {
    match e
    case Start => Running
    case Stop => Stopped
    case Pause => Paused
    case _ => phase
  }

  /** One event: the phase, the known types, the samples received and the triggers serviced. */
  lemma StepLog(c: Config, st: State, e: Event)
    ensures var r := Step(c, st, e);
            && r.phase == PhaseAfter(st.phase, e)
            && r.known == st.known + (if e.Discover? then {e.typeName} else {})
            && r.received == st.received
               + (if e.Receive? && st.phase != Stopped
                  then [Reception(Sample(|st.received|, e.typeName, e.logTime), st.phase, e.typeName in st.known)]
                  else [])
            && r.triggers == st.triggers
               + (if e.Service? && st.phase == Paused
                  then [TriggerRecord(|st.received|, e.now - c.eventWindow)]
                  else [])
  {
    match e
    case Receive(t, logTime) =>
      var s := Sample(|st.received|, t, logTime);
      if c.maxPending != 0 { AddToPendingLog(c, Taken(st, s), s); }
    case Discover(t) => DumpPendingLog(c, st.(known := st.known + {t}), t);
    case Stop =>
      var st1 := st.(phase := Stopped);
      DumpAllLog(c, if st.phase == Paused then ClearPaused(st1) else st1);
    case Service(now) =>
      var st2 := WindowOpened(c, st, now);
      if !(c.maxPending == 0 && c.onlyWithSchema) { MoveListsLog(c, st2, st2.paused.Keys); }
    case _ =>
  }

  /** The history of every run is that of its events. */
  lemma {:induction false} HistoryIsTold(c: Config, es: seq<Event>)
    ensures var st := Run(c, es);
            && st.phase == PhaseOf(es) && st.known == Discovered(es)
            && st.received == Receptions(es) && st.triggers == TriggersOf(c, es)
  {
    hide Step;
    if es != [] {
      var front, e := es[..|es| - 1], es[|es| - 1];
      HistoryIsTold(c, front);
      StepLog(c, Run(c, front), e);
      DiscoveredLast(es);
    }
  }

  lemma DiscoveredLast(es: seq<Event>)
    requires es != []
    ensures var front, e := es[..|es| - 1], es[|es| - 1];
            Discovered(es) == Discovered(front) + (if e.Discover? then {e.typeName} else {})
  {
    var front, e := es[..|es| - 1], es[|es| - 1];
    assert forall i :: 0 <= i < |front| ==> front[i] == es[i];
    forall t | t in Discovered(front) + (if e.Discover? then {e.typeName} else {})
      ensures t in Discovered(es)
    {
      if t in Discovered(front) {
        var i :| 0 <= i < |front| && front[i].Discover? && front[i].typeName == t;
        assert es[i].Discover? && es[i].typeName == t;
      }
    }
  }

  // ---- When a buffer is written ----

  predicate AllReceived(es: seq<Event>) { forall i :: 0 <= i < |es| ==> es[i].Receive? }

  /** The samples received in the second part of a run. */
  function NewSamples(st: State, r: State): seq<Sample>
    requires |st.received| <= |r.received|
  {
    seq(|r.received| - |st.received|,
        i requires 0 <= i < |r.received| - |st.received| => r.received[|st.received| + i].sample)
  }

  lemma {:induction false} RunTwice(c: Config, es: seq<Event>, rs: seq<Event>)
    requires rs != []
    ensures Run(c, es + rs) == Step(c, Run(c, es + rs[..|rs| - 1]), rs[|rs| - 1])
  {
    assert (es + rs)[..|es + rs| - 1] == es + rs[..|rs| - 1];
  }

  function Slots(c: Config): nat { if c.bufferSize == 0 then 1 else c.bufferSize }

  lemma {:induction false} Remainder(q: nat, r: nat, b: nat)
    requires r < b
    ensures (q * b + r) % b == r && (q * b + r) / b == q
  {
    var n := q * b + r;
    assert n == (n / b) * b + n % b;
    assert (q - n / b) * b == q * b - (n / b) * b;
    NoMultiple(q - n / b, b);
  }

  lemma NoMultiple(x: int, b: int)
    requires b >= 0
    ensures x > 0 ==> x * b >= b
    ensures x < 0 ==> x * b <= 0 - b
  {
    if x > 0 { Times(x - 1, b); } else if x < 0 { Times(0 - x - 1, b); }
  }

  lemma Times(k: nat, b: int)
    requires b >= 0
    ensures k * b >= 0 && (k + 1) * b == k * b + b && (0 - k - 1) * b == 0 - (k * b) - b
  {}

  /** One more sample fills the buffer or is one of fewer than fill it. */
  lemma OneMore(k: nat, b: nat)
    requires b >= 1
    ensures (k + 1) % b == if k % b + 1 < b then k % b + 1 else 0
  {
    var q := k / b;
    assert k == q * b + k % b;
    if k % b + 1 < b {
      Remainder(q, k % b + 1, b);
    } else {
      assert k + 1 == (q + 1) * b + 0;
      Remainder(q + 1, 0, b);
    }
  }

  /** One sample of a known type received while running. */
  lemma ReceiveKnown(c: Config, st: State, e: Event)
    requires e.Receive? && st.phase == Running && e.typeName in st.known && |st.buffer| < Slots(c)
    ensures var r := Step(c, st, e);
            && r.file + r.buffer == st.file + st.buffer + [Sample(|st.received|, e.typeName, e.logTime)]
            && |r.buffer| == if |st.buffer| + 1 < Slots(c) then |st.buffer| + 1 else 0
  {
    var s := Sample(|st.received|, e.typeName, e.logTime);
    AddToBufferOut(c, Taken(st, s), s);
  }

  lemma NoSamples(st: State)
    ensures NewSamples(st, st) == [] && st.file + st.buffer + [] == st.file + st.buffer
  {}

  lemma OneSample(st: State, mid: State, r: State, rec: Reception)
    requires |st.received| <= |mid.received| && r.received == mid.received + [rec]
    ensures NewSamples(st, r) == NewSamples(st, mid) + [rec.sample]
    ensures st.file + st.buffer + NewSamples(st, mid) + [rec.sample] == st.file + st.buffer + NewSamples(st, r)
  {}

  /**
   While running, samples of known types are written a bufferful at a time: after any number of them,
   what is not a multiple of the buffer size still waits, in order, and everything before it is written.
  */
  lemma {:induction false} FullBuffersAreWritten(c: Config, es: seq<Event>, rs: seq<Event>)
    requires Run(c, es).phase == Running && AllReceived(rs)
    requires forall i :: 0 <= i < |rs| ==> rs[i].typeName in Run(c, es).known
    ensures var st, r := Run(c, es), Run(c, es + rs);
            && r.phase == Running && r.known == st.known && |st.received| + |rs| == |r.received|
            && r.file + r.buffer == st.file + st.buffer + NewSamples(st, r)
            && |r.buffer| == (|st.buffer| + |rs|) % Slots(c)
    decreases |rs|
  {
    hide Run, Step, NewSamples;
    var st, r := Run(c, es), Run(c, es + rs);
    RunOk(c, es);
    if rs == [] {
      assert es + rs == es;
      NoSamples(st);
      Remainder(0, |st.buffer|, Slots(c));
    } else {
      var n := |rs| - 1;
      FullBuffersAreWritten(c, es, rs[..n]);
      RunTwice(c, es, rs);
      var mid := Run(c, es + rs[..n]);
      StepLog(c, mid, rs[n]);
      OneMore(|st.buffer| + n, Slots(c));
      ReceiveKnown(c, mid, rs[n]);
      OneSample(st, mid, r, r.received[|mid.received|]);
    }
  }

  // ---- Which pending samples stay ----

  /** The last `n` samples of a list, or all. */
  function Latest(ss: seq<Sample>, n: nat): seq<Sample> {
    if |ss| <= n then ss else ss[|ss| - n..]
  }

  lemma {:induction false} MakeRoomList(c: Config, st: State, t: TypeName)
    requires c.maxPending != 0
    ensures var r := MakeRoom(c, st, t);
            && At(r.pending, t) == Latest(At(st.pending, t), c.maxPending - 1)
            && forall u :: u != t ==> At(r.pending, u) == At(st.pending, u)
    decreases |At(st.pending, t)|
  {
    hide EvictOldest, Latest;
    if |At(st.pending, t)| >= c.maxPending {
      EvictList(c, st, t);
      MakeRoomList(c, EvictOldest(c, st, t), t);
      LatestTail(At(st.pending, t), c.maxPending - 1);
    } else {
      LatestTail(At(st.pending, t), c.maxPending - 1);
    }
  }

  lemma EvictList(c: Config, st: State, t: TypeName)
    requires At(st.pending, t) != []
    ensures EvictOldest(c, st, t).pending == st.pending[t := At(st.pending, t)[1..]]
  {}

  lemma LatestTail(ss: seq<Sample>, n: nat)
    ensures if |ss| > n then Latest(ss, n) == Latest(ss[1..], n) else Latest(ss, n) == ss
  {}

  lemma AddToPendingList(c: Config, st: State, s: Sample)
    requires c.maxPending != 0
    ensures forall u :: At(AddToPending(c, st, s).pending, u) ==
                        if u == s.typeName then Latest(At(st.pending, u) + [s], c.maxPending) else At(st.pending, u)
  {
    hide MakeRoom;
    var t := s.typeName;
    var st0 := st.(pending := st.pending[t := At(st.pending, t)]);
    MakeRoomList(c, st0, t);
    assert forall u :: At(st0.pending, u) == At(st.pending, u);
    LatestSnoc(At(st.pending, t), s, c.maxPending);
  }

  lemma LatestSnoc(ss: seq<Sample>, s: Sample, n: nat)
    requires n != 0
    ensures Latest(ss, n - 1) + [s] == Latest(ss + [s], n)
  {}

  lemma LatestMore(ss: seq<Sample>, more: seq<Sample>, n: nat)
    ensures Latest(Latest(ss, n) + more, n) == Latest(ss + more, n)
  {}

  /** One sample received while running leaves the last pending ones of its type. */
  lemma {:induction false} ReceiveLatest(c: Config, st: State, e: Event, t: TypeName)
    requires Inv(c, st) && st.phase == Running && e.Receive? && t !in st.known
    ensures var s := Sample(|st.received|, e.typeName, e.logTime);
            At(Step(c, st, e).pending, t) == Latest(At(st.pending, t) + Of([s], t), c.maxPending)
  {
    var s := Sample(|st.received|, e.typeName, e.logTime);
    assert At(st.pending, t) + [] == At(st.pending, t);
    OfPure([s], s.typeName, t);
    if c.maxPending != 0 { AddToPendingList(c, Taken(st, s), s); }
  }

  /**
   While running, what waits of a type that is not known are its latest samples, as many as may wait:
   the oldest make room, and none does before the list is full.
  */
  lemma {:induction false} PendingAreLatest(c: Config, es: seq<Event>, rs: seq<Event>, t: TypeName)
    requires Run(c, es).phase == Running && AllReceived(rs) && t !in Run(c, es).known
    ensures var st, r := Run(c, es), Run(c, es + rs);
            && r.phase == Running && r.known == st.known && |st.received| <= |r.received|
            && At(r.pending, t) == Latest(At(st.pending, t) + Of(NewSamples(st, r), t), c.maxPending)
    decreases |rs|
  {
    hide Step, Latest, Of;
    var st, r := Run(c, es), Run(c, es + rs);
    RunOk(c, es);
    if rs == [] {
      assert es + rs == es;
      assert NewSamples(st, st) == [];
      NothingNew(c, st, t);
    } else {
      var n := |rs| - 1;
      PendingAreLatest(c, es, rs[..n], t);
      RunTwice(c, es, rs);
      var mid := Run(c, es + rs[..n]);
      RunOk(c, es + rs[..n]);
      StepLog(c, mid, rs[n]);
      ReceiveLatest(c, mid, rs[n], t);
      var s := Sample(|mid.received|, rs[n].typeName, rs[n].logTime);
      var before, p := NewSamples(st, mid), At(st.pending, t);
      assert NewSamples(st, r) == before + [s];
      OfConcat(before, [s], t);
      LatestMore(p + Of(before, t), Of([s], t), c.maxPending);
      assert p + Of(before, t) + Of([s], t) == p + (Of(before, t) + Of([s], t));
    }
  }

  lemma {:induction false} NothingNew(c: Config, st: State, t: TypeName)
    requires Inv(c, st)
    ensures At(st.pending, t) == Latest(At(st.pending, t) + Of([], t), c.maxPending)
  {
    assert At(st.pending, t) + [] == At(st.pending, t);
  }

  lemma MoveOneList(c: Config, st: State, t: TypeName)
    requires c.maxPending != 0 && At(st.paused, t) != [] && st.paused[t][0].typeName == t
    ensures var r := MoveOne(c, st, t);
            && At(r.pending, t) == Latest(At(st.pending, t) + [st.paused[t][0]], c.maxPending)
            && r.paused == st.paused[t := st.paused[t][1..]]
            && forall u :: u != t ==> At(r.pending, u) == At(st.pending, u)
  {
    hide AddToPending, Latest;
    AddToPendingList(c, st, st.paused[t][0]);
  }

  lemma {:induction false} MoveListLatest(c: Config, st: State, t: TypeName)
    requires c.maxPending != 0 && (forall s :: s in At(st.paused, t) ==> s.typeName == t)
    requires |At(st.pending, t)| <= c.maxPending
    ensures var r := MoveList(c, st, t);
            && At(r.pending, t) == Latest(At(st.pending, t) + At(st.paused, t), c.maxPending)
            && forall u :: u != t ==> At(r.pending, u) == At(st.pending, u) && At(r.paused, u) == At(st.paused, u)
    decreases |At(st.paused, t)|
  {
    hide Latest;
    if At(st.paused, t) == [] {
      StaysLatest(At(st.pending, t), c.maxPending);
      assert At(st.pending, t) + [] == At(st.pending, t);
    } else {
      hide MoveOne;
      var s, rest, st1 := st.paused[t][0], st.paused[t][1..], MoveOne(c, st, t);
      MoveOneList(c, st, t);
      LatestIsShort(At(st.pending, t) + [s], c.maxPending);
      MoveListLatest(c, st1, t);
      LatestMore(At(st.pending, t) + [s], rest, c.maxPending);
      FirstMoves(At(st.pending, t), st.paused[t]);
    }
  }

  lemma FirstMoves(p: seq<Sample>, q: seq<Sample>)
    requires q != []
    ensures p + [q[0]] + q[1..] == p + q
  {
    assert q == [q[0]] + q[1..];
  }

  lemma {:induction false} MoveListsLatest(c: Config, st: State, ks: set<TypeName>, t: TypeName)
    requires c.maxPending != 0 && (forall u, s :: s in At(st.paused, u) ==> s.typeName == u)
    requires forall u :: |At(st.pending, u)| <= c.maxPending
    ensures At(MoveLists(c, st, ks).pending, t) ==
            if t in ks then Latest(At(st.pending, t) + At(st.paused, t), c.maxPending) else At(st.pending, t)
    decreases |ks|
  {
    hide MoveList, Latest;
    if ks != {} {
      var u := MinKey(ks);
      var st1 := MoveList(c, st, u);
      MoveListLatest(c, st, u);
      MoveListEmpties(c, st, u);
      LatestIsShort(At(st.pending, u) + At(st.paused, u), c.maxPending);
      MoveListsLatest(c, st1, ks - {u}, t);
    }
  }

  lemma LatestIsShort(ss: seq<Sample>, n: nat)
    ensures |Latest(ss, n)| <= n
  {}

  lemma {:induction false} MoveListEmpties(c: Config, st: State, t: TypeName)
    requires c.maxPending != 0
    ensures At(MoveList(c, st, t).paused, t) == []
    decreases |At(st.paused, t)|
  {
    if At(st.paused, t) != [] {
      AddToPendingLog(c, st, st.paused[t][0]);
      MoveListEmpties(c, MoveOne(c, st, t), t);
    }
  }

  /** After a trigger, what waits of a type are the latest of its pending and paused samples inside the window. */
  lemma {:induction false} TriggerKeepsLatest(c: Config, es: seq<Event>, now: int, t: TypeName)
    requires Run(c, es).phase == Paused
    ensures var st, r := Run(c, es), Run(c, es + [Service(now)]);
            At(r.pending, t) == Latest(At(st.pending, t) + Recent(At(st.paused, t), now - c.eventWindow), c.maxPending)
  {
    hide Latest, Run, ServiceTrigger;
    var st := Run(c, es);
    RunOk(c, es);
    RunSnoc(c, es, Service(now));
    ServiceLatest(c, st, now, t);
  }

  lemma {:induction false} ServiceLatest(c: Config, st: State, now: int, t: TypeName)
    requires Inv(c, st) && st.phase == Paused
    ensures At(ServiceTrigger(c, st, now).pending, t) ==
            Latest(At(st.pending, t) + Recent(At(st.paused, t), now - c.eventWindow), c.maxPending)
  {
    hide Latest, MoveLists, Recent, Inv;
    var st2 := WindowOpened(c, st, now);
    OpenedLists(c, st, now, t);
    if c.maxPending == 0 {
      LatestOfNone(At(st.pending, t) + At(st2.paused, t));
      assert At(st.pending, t) == [];
      if !c.onlyWithSchema { MoveListsNoPending(c, st2, st2.paused.Keys); }
    } else {
      MoveListsLatest(c, st2, st2.paused.Keys, t);
      if t !in st2.paused.Keys { StaysLatest(At(st.pending, t), c.maxPending); }
    }
  }

  /** The lists once a trigger's window is open. */
  lemma {:induction false} OpenedLists(c: Config, st: State, now: int, t: TypeName)
    requires Inv(c, st) && st.phase == Paused
    ensures var st2 := WindowOpened(c, st, now);
            && st2.pending == st.pending && At(st2.paused, t) == Recent(At(st.paused, t), now - c.eventWindow)
            && (forall u, s :: s in At(st2.paused, u) ==> s.typeName == u)
            && forall u :: |At(st.pending, u)| <= c.maxPending
  {
    var st2 := WindowOpened(c, st, now);
    RecentNothing(now - c.eventWindow);
    hide Recent;
    forall u, s | s in At(st2.paused, u)
      ensures s.typeName == u
    {
      RecentMember(st.paused[u], now - c.eventWindow, s);
      InLine(st, {}, s);
    }
  }

  lemma {:induction false} RecentNothing(threshold: int)
    ensures Recent([], threshold) == []
  {}

  lemma LatestOfNone(ss: seq<Sample>)
    ensures Latest(ss, 0) == []
  {}

  lemma StaysLatest(ss: seq<Sample>, n: nat)
    requires |ss| <= n
    ensures Latest(ss + [], n) == ss
  {}

  lemma {:induction false} MoveListNoPending(c: Config, st: State, t: TypeName)
    requires c.maxPending == 0 && !c.onlyWithSchema
    ensures MoveList(c, st, t).pending == st.pending
    decreases |At(st.paused, t)|
  {
    if At(st.paused, t) != [] { MoveListNoPending(c, MoveOne(c, st, t), t); }
  }

  lemma {:induction false} MoveListsNoPending(c: Config, st: State, ks: set<TypeName>)
    requires c.maxPending == 0 && !c.onlyWithSchema
    ensures MoveLists(c, st, ks).pending == st.pending
    decreases |ks|
  {
    if ks != {} {
      MoveListNoPending(c, st, MinKey(ks));
      MoveListsNoPending(c, MoveList(c, st, MinKey(ks)), ks - {MinKey(ks)});
    }
  }

  // ---- Discovery ----

  /** Discovering a type hands on exactly what waits of it, in order, and nothing of the other types. */
  lemma {:induction false} DiscoveryHandsOn(c: Config, es: seq<Event>, t: TypeName)
    requires t !in Run(c, es).known
    ensures var st, r := Run(c, es), Run(c, es + [Discover(t)]);
            && (st.phase == Paused ==>
                r.file == st.file + At(st.pending, t) && r.buffer == st.buffer + At(st.paused, t))
            && (st.phase != Paused ==> r.file + r.buffer == st.file + st.buffer + At(st.pending, t))
            && r.pending == st.pending - {t} && (st.phase == Paused ==> r.paused == st.paused - {t})
            && r.dropped == st.dropped
  {
    var st := Run(c, es);
    RunSnoc(c, es, Discover(t));
    RunOk(c, es);
    DumpPendingStores(c, st.(known := st.known + {t}), t);
    assert st.file + st.buffer + [] == st.file + st.buffer;
  }

  // ---- What a pause holds ----

  predicate InPause(st: State, s: Sample) { s in st.buffer || s in At(st.paused, s.typeName) }

  /** What cannot end a pause or drop a sample inside the window. */
  predicate Harmless(c: Config, e: Event, logTime: int) {
    e.Receive? || e.Discover? || e.Pause? || (e.Cleanup? && logTime >= e.now - c.eventWindow)
  }

  lemma HeldOn(c: Config, st: State, e: Event, s: Sample)
    requires st.phase == Paused && InPause(st, s) && Harmless(c, e, s.logTime)
    ensures Step(c, st, e).phase == Paused && InPause(Step(c, st, e), s)
  {
    match e
    case Receive(t, logTime) =>
    case Discover(t) => DumpPendingStores(c, st.(known := st.known + {t}), t);
    case Cleanup(now) =>
      RemoveOutdatedStores(c, st, now);
      assert Holds(st.paused, s.typeName, s) ==> Holds(Step(c, st, e).paused, s.typeName, s);
    case _ =>
  }

  lemma {:induction false} HeldAllAlong(c: Config, es: seq<Event>, later: seq<Event>, s: Sample)
    requires Run(c, es).phase == Paused && InPause(Run(c, es), s)
    requires forall i :: 0 <= i < |later| ==> Harmless(c, later[i], s.logTime)
    ensures Run(c, es + later).phase == Paused && InPause(Run(c, es + later), s)
    decreases |later|
  {
    hide Step, InPause;
    if later == [] {
      assert es + later == es;
    } else {
      HeldAllAlong(c, es, later[..|later| - 1], s);
      RunTwice(c, es, later);
      HeldOn(c, Run(c, es + later[..|later| - 1]), later[|later| - 1], s);
    }
  }

  /**
   A sample that comes during a pause is held as long as nothing but samples, types and cleanups of older ones follow.
  */
  lemma {:induction false} PauseHolds(c: Config, es: seq<Event>, t: TypeName, logTime: int, later: seq<Event>)
    requires Run(c, es).phase == Paused
    requires forall i :: 0 <= i < |later| ==> Harmless(c, later[i], logTime)
    ensures var s := Sample(|Run(c, es).received|, t, logTime);
            InPause(Run(c, es + [Receive(t, logTime)] + later), s)
  {
    hide Run;
    var st, s := Run(c, es), Sample(|Run(c, es).received|, t, logTime);
    RunSnoc(c, es, Receive(t, logTime));
    assert InPause(Process(c, st, t, logTime), s);
    HeldAllAlong(c, es + [Receive(t, logTime)], later, s);
  }

  /** A cleanup takes exactly the samples older than the window, and only from what the pause holds. */
  lemma {:induction false} CleanupTakesOutdated(c: Config, es: seq<Event>, now: int)
    requires Run(c, es).phase == Paused
    ensures var st, r, w := Run(c, es), Run(c, es + [Cleanup(now)]), now - c.eventWindow;
            && r.file == st.file && r.pending == st.pending
            && (forall s :: s in r.buffer <==> s in st.buffer && s.logTime >= w)
            && (forall t, s :: Holds(r.paused, t, s) <==> Holds(st.paused, t, s) && s.logTime >= w)
            && (forall s :: s in r.dropped <==> s in st.dropped || (InPause(st, s) && s.logTime < w))
  {
    hide Recent;
    var st, w := Run(c, es), now - c.eventWindow;
    RunSnoc(c, es, Cleanup(now));
    RunOk(c, es);
    RemoveOutdatedStores(c, st, now);
    forall s
      ensures s in Outdated(st, w) <==> InPause(st, s) && s.logTime < w
    {
      OutdatedWhere(st, w, s);
    }
  }

  /** A start or a stop gives up what the pause holds. */
  lemma {:induction false} PauseIsGivenUp(c: Config, es: seq<Event>, e: Event, s: Sample)
    requires Run(c, es).phase == Paused && InPause(Run(c, es), s) && (e == Start || e == Stop)
    ensures s in Run(c, es + [e]).dropped
  {
    var st := Run(c, es);
    RunSnoc(c, es, e);
    if e == Stop {
      var st2 := ClearPaused(st.(phase := Stopped));
      if !c.onlyWithSchema { DumpAllLog(c, st2); }
    }
  }
}
