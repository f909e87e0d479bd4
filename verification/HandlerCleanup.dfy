/**
 The periodic cleanup of the event thread cannot be observed in the file: with a clock that never
 goes back, a run with its timeouts taken out writes the same samples in the same order.
*/
module HandlerCleanup {
  import opened HandlerModel
  import opened HandlerInvariant

  function WithoutCleanups(es: seq<Event>): seq<Event>
    decreases |es|
  {
    if es == [] then []
    else
      var rest := WithoutCleanups(es[..|es| - 1]);
      if es[|es| - 1].Cleanup? then rest else rest + [es[|es| - 1]]
  }

  predicate Timed(e: Event) { e.Service? || e.Cleanup? }

  predicate ClockNotAfter(es: seq<Event>, now: int) {
    forall i :: 0 <= i < |es| && Timed(es[i]) ==> es[i].now <= now
  }

  predicate Clocked(es: seq<Event>) {
    forall i, j :: 0 <= i < j < |es| && Timed(es[i]) && Timed(es[j]) ==> es[i].now <= es[j].now
  }

  // ---- Nothing that is done depends on what was given up before ----

  function Forget(st: State): State { st.(dropped := {}) }

  lemma {:induction false} AddAllForgets(c: Config, a: State, b: State, ss: seq<Sample>)
    requires Forget(a) == Forget(b)
    ensures Forget(AddAllToBuffer(c, a, ss)) == Forget(AddAllToBuffer(c, b, ss))
    decreases |ss|
  {
    if ss != [] { AddAllForgets(c, AddToBuffer(c, a, ss[0]), AddToBuffer(c, b, ss[0]), ss[1..]); }
  }

  lemma {:induction false} MakeRoomForgets(c: Config, a: State, b: State, t: TypeName)
    requires Forget(a) == Forget(b) && c.maxPending != 0
    ensures Forget(MakeRoom(c, a, t)) == Forget(MakeRoom(c, b, t))
    decreases |At(a.pending, t)|
  {
    if |At(a.pending, t)| >= c.maxPending { MakeRoomForgets(c, EvictOldest(c, a, t), EvictOldest(c, b, t), t); }
  }

  lemma AddToPendingForgets(c: Config, a: State, b: State, s: Sample)
    requires Forget(a) == Forget(b) && c.maxPending != 0
    ensures Forget(AddToPending(c, a, s)) == Forget(AddToPending(c, b, s))
  {
    var t := s.typeName;
    MakeRoomForgets(c, a.(pending := a.pending[t := At(a.pending, t)]), b.(pending := b.pending[t := At(b.pending, t)]),
                    t);
  }

  lemma DumpPendingForgets(c: Config, a: State, b: State, t: TypeName)
    requires Forget(a) == Forget(b)
    ensures Forget(DumpPending(c, a, t)) == Forget(DumpPending(c, b, t))
  {
    if t in a.pending {
      AddAllForgets(c, a, b, a.pending[t]);
      AddAllFrame(c, a, a.pending[t]);
      AddAllFrame(c, b, a.pending[t]);
    }
    var a1 := if t in a.pending then a.(file := a.file + a.pending[t], pending := a.pending - {t}) else a;
    var b1 := if t in b.pending then b.(file := b.file + b.pending[t], pending := b.pending - {t}) else b;
    if t in a.paused {
      AddAllForgets(c, a1, b1, a.paused[t]);
      AddAllFrame(c, a1, a.paused[t]);
      AddAllFrame(c, b1, a.paused[t]);
    }
  }

  lemma {:induction false} DumpAllForgets(c: Config, a: State, b: State)
    requires Forget(a) == Forget(b) && a.phase != Paused
    ensures Forget(DumpAllPending(c, a)) == Forget(DumpAllPending(c, b))
    decreases |a.pending|
  {
    if a.pending != map[] {
      var t := MinKey(a.pending.Keys);
      DumpPendingForgets(c, a, b, t);
      AddAllFrame(c, a, a.pending[t]);
      AddAllFrame(c, b, b.pending[t]);
      assert DumpPending(c, a, t).pending.Keys == a.pending.Keys - {t};
      DumpAllForgets(c, DumpPending(c, a, t), DumpPending(c, b, t));
    }
  }

  lemma MoveOneForgets(c: Config, a: State, b: State, t: TypeName)
    requires Forget(a) == Forget(b) && At(a.paused, t) != [] && !(c.maxPending == 0 && c.onlyWithSchema)
    ensures Forget(MoveOne(c, a, t)) == Forget(MoveOne(c, b, t))
  {
    if c.maxPending != 0 { AddToPendingForgets(c, a, b, a.paused[t][0]); }
  }

  lemma {:induction false} MoveListForgets(c: Config, a: State, b: State, t: TypeName)
    requires Forget(a) == Forget(b) && !(c.maxPending == 0 && c.onlyWithSchema)
    ensures Forget(MoveList(c, a, t)) == Forget(MoveList(c, b, t))
    decreases |At(a.paused, t)|
  {
    if At(a.paused, t) != [] {
      MoveOneForgets(c, a, b, t);
      MoveListForgets(c, MoveOne(c, a, t), MoveOne(c, b, t), t);
    }
  }

  lemma {:induction false} MoveListsForget(c: Config, a: State, b: State, ks: set<TypeName>)
    requires Forget(a) == Forget(b) && !(c.maxPending == 0 && c.onlyWithSchema)
    ensures Forget(MoveLists(c, a, ks)) == Forget(MoveLists(c, b, ks))
    decreases |ks|
  {
    if ks != {} {
      var t := MinKey(ks);
      MoveListForgets(c, a, b, t);
      MoveListsForget(c, MoveList(c, a, t), MoveList(c, b, t), ks - {t});
    }
  }

  lemma ProcessForgets(c: Config, a: State, b: State, t: TypeName, logTime: int)
    requires Forget(a) == Forget(b)
    ensures Forget(Process(c, a, t, logTime)) == Forget(Process(c, b, t, logTime))
  {
    var s := Sample(|a.received|, t, logTime);
    if c.maxPending != 0 { AddToPendingForgets(c, Taken(a, s), Taken(b, s), s); }
  }

  lemma StopForgets(c: Config, a: State, b: State)
    requires a.phase == b.phase
    requires Forget(if a.phase == Paused then ClearPaused(a) else a) ==
             Forget(if b.phase == Paused then ClearPaused(b) else b)
    ensures Forget(StopHandler(c, a)) == Forget(StopHandler(c, b))
  {
    var a1, b1 := a.(phase := Stopped), b.(phase := Stopped);
    var a2 := if a.phase == Paused then ClearPaused(a1) else a1;
    var b2 := if b.phase == Paused then ClearPaused(b1) else b1;
    assert Forget(a2) == Forget(if a.phase == Paused then ClearPaused(a) else a).(phase := Stopped);
    assert Forget(b2) == Forget(if b.phase == Paused then ClearPaused(b) else b).(phase := Stopped);
    DumpAllForgets(c, a2, b2);
  }

  // ---- Two runs that agree on everything inside the window ----

  ghost predicate AgreeFrom(threshold: int, a: State, b: State) {
    && a.phase == b.phase && a.pending == b.pending && a.known == b.known && a.file == b.file
    && a.received == b.received && a.triggers == b.triggers
    && (a.phase != Paused ==> a.buffer == b.buffer && a.paused == b.paused)
    && Recent(a.buffer, threshold) == Recent(b.buffer, threshold)
    && RecentAll(a.paused, threshold) == RecentAll(b.paused, threshold)
  }

  lemma {:induction false} RecentTwice(ss: seq<Sample>, lo: int, hi: int)
    requires lo <= hi
    ensures Recent(Recent(ss, lo), hi) == Recent(ss, hi)
  {
    if ss != [] { RecentTwice(ss[1..], lo, hi); }
  }

  lemma {:induction false} RecentConcat(x: seq<Sample>, y: seq<Sample>, threshold: int)
    ensures Recent(x + y, threshold) == Recent(x, threshold) + Recent(y, threshold)
  {
    if x == [] {
      assert x + y == y;
    } else {
      RecentConcat(x[1..], y, threshold);
      assert (x + y)[0] == x[0] && (x + y)[1..] == x[1..] + y;
      if x[0].logTime >= threshold {
        assert [x[0]] + (Recent(x[1..], threshold) + Recent(y, threshold)) ==
               Recent(x, threshold) + Recent(y, threshold);
      }
    }
  }

  lemma RecentAllTwice(m: map<TypeName, seq<Sample>>, lo: int, hi: int)
    requires lo <= hi
    ensures RecentAll(RecentAll(m, lo), hi) == RecentAll(m, hi)
  {
    forall t | t in m ensures RecentAll(RecentAll(m, lo), hi)[t] == RecentAll(m, hi)[t] { RecentTwice(m[t], lo, hi); }
  }

  lemma AgreeLater(lo: int, hi: int, a: State, b: State)
    requires lo <= hi && AgreeFrom(lo, a, b)
    ensures AgreeFrom(hi, a, b)
  {
    RecentTwice(a.buffer, lo, hi);
    RecentTwice(b.buffer, lo, hi);
    RecentAllTwice(a.paused, lo, hi);
    RecentAllTwice(b.paused, lo, hi);
  }

  lemma ForgetAgrees(threshold: int, a: State, b: State)
    requires Forget(a) == Forget(b)
    ensures AgreeFrom(threshold, a, b)
  {
    assert a.buffer == Forget(a).buffer && a.paused == Forget(a).paused;
  }

  lemma AppendAgrees(m: map<TypeName, seq<Sample>>, n: map<TypeName, seq<Sample>>, t: TypeName, s: Sample,
                     threshold: int)
    requires RecentAll(m, threshold) == RecentAll(n, threshold)
    ensures RecentAll(m[t := At(m, t) + [s]], threshold) == RecentAll(n[t := At(n, t) + [s]], threshold)
  {
    assert m.Keys == RecentAll(m, threshold).Keys == RecentAll(n, threshold).Keys == n.Keys;
    assert Recent(At(m, t), threshold) == Recent(At(n, t), threshold) by {
      if t in m { assert RecentAll(m, threshold)[t] == RecentAll(n, threshold)[t]; }
    }
    RecentConcat(At(m, t), [s], threshold);
    RecentConcat(At(n, t), [s], threshold);
    var m1, n1 := m[t := At(m, t) + [s]], n[t := At(n, t) + [s]];
    forall u | u in m1 ensures RecentAll(m1, threshold)[u] == RecentAll(n1, threshold)[u] {
      if u != t { assert RecentAll(m, threshold)[u] == RecentAll(n, threshold)[u]; }
    }
  }

  lemma PausedReceiveAgrees(c: Config, threshold: int, a: State, b: State, t: TypeName, logTime: int)
    requires AgreeFrom(threshold, a, b) && a.phase == Paused
    ensures AgreeFrom(threshold, Process(c, a, t, logTime), Process(c, b, t, logTime))
  {
    hide Recent, RecentAll;
    var s := Sample(|a.received|, t, logTime);
    RecentConcat(a.buffer, [s], threshold);
    RecentConcat(b.buffer, [s], threshold);
    AppendAgrees(a.paused, b.paused, t, s, threshold);
  }

  lemma PausedDiscoverAgrees(c: Config, threshold: int, a: State, b: State, t: TypeName)
    requires AgreeFrom(threshold, a, b) && a.phase == Paused
    ensures AgreeFrom(threshold, DiscoverType(c, a, t), DiscoverType(c, b, t))
  {
    if t !in a.known {
      var a0, b0 := a.(known := a.known + {t}), b.(known := b.known + {t});
      DumpPendingStores(c, a0, t);
      DumpPendingStores(c, b0, t);
      RecentConcat(a.buffer, At(a.paused, t), threshold);
      RecentConcat(b.buffer, At(b.paused, t), threshold);
      assert a.paused.Keys == RecentAll(a.paused, threshold).Keys == RecentAll(b.paused, threshold).Keys ==
             b.paused.Keys;
      if t in a.paused { assert RecentAll(a.paused, threshold)[t] == RecentAll(b.paused, threshold)[t]; }
      forall u | u in a.paused - {t}
        ensures RecentAll(a.paused - {t}, threshold)[u] == RecentAll(b.paused - {t}, threshold)[u] {
        assert RecentAll(a.paused, threshold)[u] == RecentAll(b.paused, threshold)[u];
      }
      assert RecentAll(a.paused - {t}, threshold) == RecentAll(b.paused - {t}, threshold);
    }
  }

  lemma ServiceAgrees(c: Config, a: State, b: State, now: int)
    requires AgreeFrom(now - c.eventWindow, a, b)
    ensures Forget(ServiceTrigger(c, a, now)) == Forget(ServiceTrigger(c, b, now))
  {
    var a2, b2 := WindowOpened(c, a, now), WindowOpened(c, b, now);
    assert Forget(a2) == Forget(b2);
    if !(c.maxPending == 0 && c.onlyWithSchema) { MoveListsForget(c, a2, b2, a2.paused.Keys); }
  }

  lemma CleanupAgrees(c: Config, a: State, b: State, now: int)
    requires AgreeFrom(now - c.eventWindow, a, b) && a.phase == Paused
    ensures AgreeFrom(now - c.eventWindow, RemoveOutdated(c, a, now), b)
  {
    RecentTwice(a.buffer, now - c.eventWindow, now - c.eventWindow);
    RecentAllTwice(a.paused, now - c.eventWindow, now - c.eventWindow);
  }

  /** One event, other than a cleanup, in both runs. */
  lemma StepAgrees(c: Config, threshold: int, a: State, b: State, e: Event)
    requires AgreeFrom(threshold, a, b) && !e.Cleanup?
    requires e.Service? ==> threshold == e.now - c.eventWindow
    ensures AgreeFrom(threshold, Step(c, a, e), Step(c, b, e))
  {
    var a1, b1 := Step(c, a, e), Step(c, b, e);
    if a.phase == Paused {
      match e
      case Receive(t, logTime) => PausedReceiveAgrees(c, threshold, a, b, t, logTime);
      case Discover(t) => PausedDiscoverAgrees(c, threshold, a, b, t);
      case Start => ForgetAgrees(threshold, a1, b1);
      case Stop => StopForgets(c, a, b); ForgetAgrees(threshold, a1, b1);
      case Pause =>
      case Service(now) => ServiceAgrees(c, a, b, now); ForgetAgrees(threshold, a1, b1);
    } else {
      assert Forget(a) == Forget(b);
      match e
      case Receive(t, logTime) => ProcessForgets(c, a, b, t, logTime); ForgetAgrees(threshold, a1, b1);
      case Discover(t) =>
        DumpPendingForgets(c, a.(known := a.known + {t}), b.(known := b.known + {t}), t);
        ForgetAgrees(threshold, a1, b1);
      case Start => ForgetAgrees(threshold, a1, b1);
      case Stop => StopForgets(c, a, b); ForgetAgrees(threshold, a1, b1);
      case Pause => ForgetAgrees(threshold, a1, b1);
      case Service(now) =>
    }
  }

  /** One event of a run, and of the run without its cleanups. */
  lemma EventAgrees(c: Config, threshold: int, a: State, b: State, e: Event)
    requires AgreeFrom(threshold, a, b)
    requires Timed(e) ==> threshold == e.now - c.eventWindow
    ensures AgreeFrom(threshold, Step(c, a, e), if e.Cleanup? then b else Step(c, b, e))
  {
    if e.Cleanup? {
      if a.phase == Paused { CleanupAgrees(c, a, b, e.now); }
    } else {
      StepAgrees(c, threshold, a, b, e);
    }
  }

  lemma RunWithout(c: Config, es: seq<Event>)
    requires es != []
    ensures var b, e := Run(c, WithoutCleanups(es[..|es| - 1])), es[|es| - 1];
            Run(c, WithoutCleanups(es)) == if e.Cleanup? then b else Step(c, b, e)
  {
    var front, e, ws := WithoutCleanups(es[..|es| - 1]), es[|es| - 1], WithoutCleanups(es);
    if !e.Cleanup? { assert ws[..|ws| - 1] == front && ws[|ws| - 1] == e; }
  }

  ghost predicate CleanupHidden(c: Config, es: seq<Event>, threshold: int) {
    AgreeFrom(threshold, Run(c, es), Run(c, WithoutCleanups(es)))
  }

  lemma RunAdvances(c: Config, es: seq<Event>, lo: int, hi: int)
    requires es != [] && lo <= hi
    requires CleanupHidden(c, es[..|es| - 1], lo)
    requires Timed(es[|es| - 1]) ==> lo == es[|es| - 1].now - c.eventWindow
    ensures CleanupHidden(c, es, hi)
  {
    EventAgrees(c, lo, Run(c, es[..|es| - 1]), Run(c, WithoutCleanups(es[..|es| - 1])), es[|es| - 1]);
    RunWithout(c, es);
    AgreeLater(lo, hi, Run(c, es), Run(c, WithoutCleanups(es)));
  }

  lemma NothingHidden(c: Config, threshold: int)
    ensures CleanupHidden(c, [], threshold)
  {}

  lemma ClockBefore(es: seq<Event>, now: int) returns (at: int)
    requires es != [] && Clocked(es) && ClockNotAfter(es, now)
    ensures Clocked(es[..|es| - 1]) && ClockNotAfter(es[..|es| - 1], at) && at <= now
    ensures Timed(es[|es| - 1]) ==> at == es[|es| - 1].now
  {
    at := if Timed(es[|es| - 1]) then es[|es| - 1].now else now;
  }

  lemma {:induction false} RunsAgree(c: Config, es: seq<Event>, now: int)
    requires Clocked(es) && ClockNotAfter(es, now)
    ensures forall threshold :: threshold >= now - c.eventWindow ==> CleanupHidden(c, es, threshold)
    decreases |es|
  {
    forall threshold | threshold >= now - c.eventWindow ensures CleanupHidden(c, es, threshold) {
      if es == [] {
        NothingHidden(c, threshold);
      } else {
        var at := ClockBefore(es, now);
        RunsAgree(c, es[..|es| - 1], at);
        RunAdvances(c, es, at - c.eventWindow, threshold);
      }
    }
  }

  /** Cleanups are unobservable in the file, in the phase, and in what was received and triggered. */
  lemma {:induction false} CleanupIsUnobservable(c: Config, es: seq<Event>)
    requires Clocked(es)
    ensures var a, b := Run(c, es), Run(c, WithoutCleanups(es));
            && a.file == b.file && a.phase == b.phase && a.pending == b.pending && a.received == b.received
            && a.triggers == b.triggers && a.known == b.known
            && (a.phase != Paused ==> a.buffer == b.buffer && a.paused == b.paused)
  {
    var now := Latest(es);
    RunsAgree(c, es, now);
    assert CleanupHidden(c, es, now - c.eventWindow);
  }

  function Latest(es: seq<Event>): (now: int)
    ensures ClockNotAfter(es, now)
  {
    if es == [] then 0
    else
      var m := Latest(es[1..]);
      assert forall i :: 1 <= i < |es| ==> es[i] == es[1..][i - 1];
      if Timed(es[0]) && es[0].now > m then es[0].now else m
  }
}
