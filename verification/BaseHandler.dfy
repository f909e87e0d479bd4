/**
 The recording handler as it runs: fields updated in place, lists popped and pushed in loops. Each
 method is proved to do to the fields what `HandlerModel` says. The calls made so far are kept as a
 history, and the fields of a valid object are those of the run along it, so that every theorem about
 runs is one about the object.
*/
module BaseHandlerClass {
  import opened HandlerModel
  import opened HandlerInvariant
  import opened HandlerTheorems
  import opened HandlerHistory

  class BaseHandler {
    const configuration: Config
    var state: Phase
    var samplesBuffer: seq<Sample>
    var pendingSamples: map<TypeName, seq<Sample>>
    var pendingSamplesPaused: map<TypeName, seq<Sample>>
    var receivedTypes: set<TypeName>
    /** What the writer has been given, oldest first. */
    var file: seq<Sample>
    ghost var dropped: set<Sample>
    ghost var received: seq<Reception>
    ghost var triggers: seq<TriggerRecord>
    /** The calls made so far. */
    ghost var history: seq<Event>

    ghost function View(): State
      reads this
    {
      State(state, samplesBuffer, pendingSamples, pendingSamplesPaused, receivedTypes, file, dropped, received,
            triggers)
    }

    /** The fields are those of the run along the calls. */
    ghost predicate Valid()
      reads this
    {
      View() == Run(configuration, history)
    }

    constructor (c: Config)
      ensures configuration == c && Valid() && history == [] && View() == INITIAL
    {
      configuration := c;
      state := Stopped;
      samplesBuffer, pendingSamples, pendingSamplesPaused, receivedTypes, file := [], map[], map[], {}, [];
      dropped, received, triggers, history := {}, [], [], [];
    }

    /** What the theorems on runs say of the object after any calls. */
    lemma Promises()
      requires Valid()
      ensures Inv(configuration, View())
      ensures state == PhaseOf(history) && receivedTypes == Discovered(history)
      ensures received == Receptions(history) && triggers == TriggersOf(configuration, history)
      ensures Everything(View()) == multiset(Samples(received))
      ensures forall i, j :: 0 <= i < j < |file| && file[i].typeName == file[j].typeName ==> file[i].id < file[j].id
      ensures forall i :: 0 <= i < |received| && received[i].phase == Running
                          && (!configuration.onlyWithSchema || received[i].typeKnown) ==>
                received[i].sample !in dropped && (state == Stopped ==> received[i].sample in file)
      ensures forall i :: 0 <= i < |received| && received[i].phase == Paused && received[i].sample in file ==>
                exists k :: 0 <= k < |triggers| && i < triggers[k].seen
                            && received[i].sample.logTime >= triggers[k].threshold
      ensures state == Stopped ==> samplesBuffer == [] && pendingSamples == map[] && pendingSamplesPaused == map[]
    {
      hide Inv, Everything, Run, Samples;
      RunOk(configuration, history);
      HistoryIsTold(configuration, history);
      Conservation(configuration, history);
      OrderPerType(configuration, history);
      RunningIsKept(configuration, history);
      ReachableShape(configuration, history);
      forall i | 0 <= i < |received| && received[i].phase == Paused && received[i].sample in file
        ensures exists k :: 0 <= k < |triggers| && i < triggers[k].seen
                            && received[i].sample.logTime >= triggers[k].threshold
      {
        PausedNeedsTrigger(configuration, history, i);
      }
    }

    /** Writes every sample in order and leaves the list empty. */
    method WriteSamples(samples: seq<Sample>) returns (left: seq<Sample>)
      modifies `file
      ensures file == old(file) + samples && left == []
    {
      left := samples;
      while left != []
        invariant file + left == old(file) + samples
        decreases |left|
      {
        assert left == [left[0]] + left[1..];
        file := file + [left[0]];
        left := left[1..];
      }
    }

    method AddSampleToBuffer(sample: Sample)
      modifies `samplesBuffer, `file
      ensures View() == AddToBuffer(configuration, old(View()), sample)
    {
      samplesBuffer := samplesBuffer + [sample];
      if state != Running || |samplesBuffer| < configuration.bufferSize {
        return;
      }
      samplesBuffer := WriteSamples(samplesBuffer);
    }

    method AddSamplesToBuffer(samples: seq<Sample>) returns (left: seq<Sample>)
      modifies `samplesBuffer, `file
      ensures View() == AddAllToBuffer(configuration, old(View()), samples) && left == []
    {
      left := samples;
      while left != []
        invariant AddAllToBuffer(configuration, View(), left) == AddAllToBuffer(configuration, old(View()), samples)
        decreases |left|
      {
        AddSampleToBuffer(left[0]);
        left := left[1..];
      }
    }

    method AddSampleToPending(sample: Sample)
      requires configuration.maxPending != 0
      modifies `samplesBuffer, `file, `pendingSamples, `dropped
      ensures View() == AddToPending(configuration, old(View()), sample)
    {
      var t := sample.typeName;
      pendingSamples := pendingSamples[t := if t in pendingSamples then pendingSamples[t] else []];
      ghost var entry := View();
      while |pendingSamples[t]| >= configuration.maxPending
        invariant t in pendingSamples
        invariant MakeRoom(configuration, View(), t) == MakeRoom(configuration, entry, t)
        decreases |pendingSamples[t]|
      {
        ghost var before := View();
        var oldest := pendingSamples[t][0];
        pendingSamples := pendingSamples[t := pendingSamples[t][1..]];
        if configuration.onlyWithSchema {
          dropped := dropped + {oldest};
        } else {
          AddSampleToBuffer(oldest);
        }
        assert View() == EvictOldest(configuration, before, t);
      }
      pendingSamples := pendingSamples[t := pendingSamples[t] + [sample]];
    }

    method DumpPendingSamples(t: TypeName)
      modifies `samplesBuffer, `file, `pendingSamples, `pendingSamplesPaused
      ensures View() == DumpPending(configuration, old(View()), t)
    {
      if t in pendingSamples {
        AddAllFrame(configuration, View(), pendingSamples[t]);
        var left;
        if state == Paused {
          left := WriteSamples(pendingSamples[t]);
        } else {
          left := AddSamplesToBuffer(pendingSamples[t]);
        }
        pendingSamples := pendingSamples - {t};
      }
      if state == Paused && t in pendingSamplesPaused {
        AddAllFrame(configuration, View(), pendingSamplesPaused[t]);
        var left := AddSamplesToBuffer(pendingSamplesPaused[t]);
        pendingSamplesPaused := pendingSamplesPaused - {t};
      }
    }

    /** A sample of type `t` arrives; nothing is kept of it while stopped. */
    method ProcessNewSample(t: TypeName, logTime: int, id: nat)
      requires Valid() && id == |received|
      modifies this
      ensures Valid() && history == old(history) + [Receive(t, logTime)]
      ensures View() == Process(configuration, old(View()), t, logTime)
    {
      hide Run;
      history := history + [Receive(t, logTime)];
      RunSnoc(configuration, old(history), Receive(t, logTime));
      if state == Stopped {
        return;
      }
      var sample := Sample(id, t, logTime);
      received := received + [Reception(sample, state, t in receivedTypes)];
      if t in receivedTypes {
        AddSampleToBuffer(sample);
        return;
      }
      match state {
        case Running =>
          if configuration.maxPending != 0 {
            AddSampleToPending(sample);
          } else if !configuration.onlyWithSchema {
            AddSampleToBuffer(sample);
          } else {
            dropped := dropped + {sample};
          }
        case Paused =>
          pendingSamplesPaused :=
            pendingSamplesPaused[t := (if t in pendingSamplesPaused then pendingSamplesPaused[t] else []) + [sample]];
      }
    }

    /** A type is discovered: it counts as received from now on, and its samples need not wait. */
    method AddSchema(t: TypeName)
      requires Valid()
      modifies this
      ensures Valid() && history == old(history) + [Discover(t)]
      ensures View() == DiscoverType(configuration, old(View()), t)
    {
      history := history + [Discover(t)];
      RunSnoc(configuration, old(history), Discover(t));
      if t in receivedTypes {
        return;
      }
      receivedTypes := receivedTypes + {t};
      DumpPendingSamples(t);
    }

    method RemoveOld(samples: seq<Sample>, threshold: int) returns (kept: seq<Sample>)
      ensures kept == Recent(samples, threshold)
    {
      kept := [];
      for i := 0 to |samples|
        invariant kept + Recent(samples[i..], threshold) == Recent(samples, threshold)
      {
        assert samples[i..][1..] == samples[i + 1..];
        if samples[i].logTime >= threshold {
          kept := kept + [samples[i]];
        }
      }
      assert samples[|samples|..] == [];
    }

    method RemoveOldPaused(threshold: int)
      modifies `pendingSamplesPaused
      ensures pendingSamplesPaused == RecentAll(old(pendingSamplesPaused), threshold)
    {
      var lists := pendingSamplesPaused;
      var keys := lists.Keys;
      while keys != {}
        invariant keys <= lists.Keys == pendingSamplesPaused.Keys
        invariant forall t :: t in lists ==>
                    pendingSamplesPaused[t] == if t in keys then lists[t] else Recent(lists[t], threshold)
        decreases |keys|
      {
        var t := MinKey(keys);
        var kept := RemoveOld(lists[t], threshold);
        pendingSamplesPaused := pendingSamplesPaused[t := kept];
        keys := keys - {t};
      }
      assert pendingSamplesPaused == RecentAll(lists, threshold);
    }

    method RemoveOutdatedSamples(now: int)
      modifies `samplesBuffer, `pendingSamplesPaused, `dropped
      ensures View() == RemoveOutdated(configuration, old(View()), now)
    {
      var threshold := now - configuration.eventWindow;
      dropped := RemoveOutdated(configuration, View(), now).dropped;
      samplesBuffer := RemoveOld(samplesBuffer, threshold);
      RemoveOldPaused(threshold);
    }

    /** Moves the paused samples of `t` on, oldest first. */
    method MovePaused(t: TypeName)
      requires t in pendingSamplesPaused && !(configuration.maxPending == 0 && configuration.onlyWithSchema)
      modifies `samplesBuffer, `file, `pendingSamples, `pendingSamplesPaused, `dropped
      ensures View() == MoveList(configuration, old(View()), t)
      ensures pendingSamplesPaused.Keys == old(pendingSamplesPaused).Keys
    {
      while pendingSamplesPaused[t] != []
        invariant t in pendingSamplesPaused && pendingSamplesPaused.Keys == old(pendingSamplesPaused).Keys
        invariant MoveList(configuration, View(), t) == MoveList(configuration, old(View()), t)
        decreases |pendingSamplesPaused[t]|
      {
        ghost var before := View();
        var sample := pendingSamplesPaused[t][0];
        var lists := pendingSamplesPaused;
        if configuration.maxPending != 0 {
          AddSampleToPending(sample);
          AddToPendingFrame(configuration, before, sample);
        } else if !configuration.onlyWithSchema {
          AddSampleToBuffer(sample);
        }
        pendingSamplesPaused := lists[t := lists[t][1..]];
        assert View() == MoveOne(configuration, before, t);
      }
    }

    /** One pass of the event thread, with both locks held: a timeout, or an event has been triggered. */
    method ServiceEvent(timeout: bool, now: int)
      requires Valid() && state == Paused
      modifies this
      ensures Valid() && history == old(history) + [if timeout then Cleanup(now) else Service(now)]
      ensures View() == if timeout then RemoveOutdated(configuration, old(View()), now)
                        else ServiceTrigger(configuration, old(View()), now)
    {
      hide Run, MoveLists, RemoveOutdated;
      history := history + [if timeout then Cleanup(now) else Service(now)];
      RunSnoc(configuration, old(history), if timeout then Cleanup(now) else Service(now));
      RemoveOutdatedSamples(now);
      if timeout {
        return;
      }
      triggers := triggers + [TriggerRecord(|received|, now - configuration.eventWindow)];
      if !(configuration.maxPending == 0 && configuration.onlyWithSchema) {
        MoveAllPaused();
      }
      samplesBuffer := WriteSamples(samplesBuffer);
    }

    /** Moves the paused samples of every type on, type by type. */
    method MoveAllPaused()
      requires !(configuration.maxPending == 0 && configuration.onlyWithSchema)
      modifies `samplesBuffer, `file, `pendingSamples, `pendingSamplesPaused, `dropped
      ensures View() == MoveLists(configuration, old(View()), old(View()).paused.Keys)
    {
      var keys := pendingSamplesPaused.Keys;
      while keys != {}
        invariant keys <= pendingSamplesPaused.Keys
        invariant MoveLists(configuration, View(), keys) ==
                  MoveLists(configuration, old(View()), old(View()).paused.Keys)
        decreases |keys|
      {
        var t := MinKey(keys);
        MovePaused(t);
        keys := keys - {t};
      }
    }

    method ClearPausedStores()
      modifies `samplesBuffer, `pendingSamplesPaused, `dropped
      ensures View() == ClearPaused(old(View()))
    {
      dropped := ClearPaused(View()).dropped;
      samplesBuffer, pendingSamplesPaused := [], map[];
    }

    method StartRecording()
      requires Valid()
      modifies this
      ensures Valid() && history == old(history) + [Start]
      ensures View() == StartHandler(old(View()))
    {
      hide Run;
      history := history + [Start];
      RunSnoc(configuration, old(history), Start);
      var previous := state;
      state := Running;
      if previous == Paused {
        ClearPausedStores();
      }
    }

    method PauseRecording()
      requires Valid()
      modifies this
      ensures Valid() && history == old(history) + [Pause]
      ensures View() == PauseHandler(old(View()))
    {
      hide Run;
      history := history + [Pause];
      RunSnoc(configuration, old(history), Pause);
      var previous := state;
      state := Paused;
      if previous == Running {
        samplesBuffer := WriteSamples(samplesBuffer);
      }
    }

    /** Dumps the pending samples of every type, type by type. */
    method DumpAllPendingSamples()
      requires state != Paused
      modifies `samplesBuffer, `file, `pendingSamples, `pendingSamplesPaused
      ensures View() == DumpAllPending(configuration, old(View()))
    {
      while pendingSamples != map[]
        invariant DumpAllPending(configuration, View()) == DumpAllPending(configuration, old(View()))
        decreases |pendingSamples|
      {
        ghost var before := View();
        var t := MinKey(pendingSamples.Keys);
        AddAllFrame(configuration, View(), pendingSamples[t]);
        DumpPendingSamples(t);
        assert pendingSamples.Keys == before.pending.Keys - {t};
      }
    }

    method StopRecording()
      requires Valid()
      modifies this
      ensures Valid() && history == old(history) + [Stop]
      ensures View() == StopHandler(configuration, old(View()))
    {
      hide Run, DumpAllPending, ClearPaused;
      history := history + [Stop];
      RunSnoc(configuration, old(history), Stop);
      var previous := state;
      state := Stopped;
      if previous == Stopped {
        return;
      }
      if previous == Paused {
        ClearPausedStores();
      }
      if configuration.onlyWithSchema {
        dropped := ClearPending(View()).dropped;
        pendingSamples := map[];
      } else {
        DumpAllPendingSamples();
      }
      samplesBuffer := WriteSamples(samplesBuffer);
    }
  }

  lemma {:induction false} MakeRoomFrame(c: Config, st: State, t: TypeName)
    requires c.maxPending != 0
    ensures MakeRoom(c, st, t).paused == st.paused
    decreases |At(st.pending, t)|
  {
    if |At(st.pending, t)| >= c.maxPending { MakeRoomFrame(c, EvictOldest(c, st, t), t); }
  }

  lemma AddToPendingFrame(c: Config, st: State, s: Sample)
    requires c.maxPending != 0
    ensures AddToPending(c, st, s).paused == st.paused
  {
    MakeRoomFrame(c, st.(pending := st.pending[s.typeName := At(st.pending, s.typeName)]), s.typeName);
  }
}
