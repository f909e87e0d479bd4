/** What a user of the recorder may rely on, over every run of the handler. */
module HandlerTheorems {
  import opened HandlerModel
  import opened HandlerInvariant

  /** In how many of the five places a received sample is found. */
  function Places(st: State, s: Sample): nat {
    (if s in st.file then 1 else 0) + (if s in st.buffer then 1 else 0) +
        (if s in At(st.pending, s.typeName) then 1 else 0)
    + (if s in At(st.paused, s.typeName) then 1 else 0) + (if s in st.dropped then 1 else 0)
  }

  predicate Held(st: State, s: Sample) {
    s in st.buffer || s in At(st.pending, s.typeName) || s in At(st.paused, s.typeName)
  }

  lemma {:induction false} OfIndex(ss: seq<Sample>, t: TypeName, i: nat, j: nat)
    requires i < j < |ss| && ss[i].typeName == ss[j].typeName == t && InOrder(Of(ss, t))
    ensures ss[i].id < ss[j].id
  {
    if i == 0 {
      assert ss[1..][j - 1] == ss[j];
      OfMember(ss[1..], t, ss[j]);
      var k :| 0 <= k < |Of(ss[1..], t)| && Of(ss[1..], t)[k] == ss[j];
      assert Of(ss, t)[0] == ss[0] && Of(ss, t)[k + 1] == ss[j];
    } else {
      if ss[0].typeName == t { assert Of(ss[1..], t) == Of(ss, t)[1..]; }
      OfIndex(ss[1..], t, i - 1, j - 1);
    }
  }

  // ---- Counting with multiplicity ----

  /** All samples in the lists of a map. */
  function Contents(m: map<TypeName, seq<Sample>>): multiset<Sample>
    decreases |m|
  {
    if m == map[] then multiset{}
    else
      var t := MinKey(m.Keys);
      assert (m - {t}).Keys == m.Keys - {t};
      multiset(m[t]) + Contents(m - {t})
  }

  function Samples(received: seq<Reception>): seq<Sample> {
    seq(|received|, i requires 0 <= i < |received| => received[i].sample)
  }

  /** The five places together. */
  function Everything(st: State): multiset<Sample> {
    multiset(st.file) + multiset(st.buffer) + Contents(st.pending) + Contents(st.paused) + multiset(st.dropped)
  }

  predicate SortedByType(m: map<TypeName, seq<Sample>>) {
    forall t, s :: t in m && s in m[t] ==> s.typeName == t
  }

  lemma {:induction false} ContentsCount(m: map<TypeName, seq<Sample>>, s: Sample)
    requires SortedByType(m)
    ensures Contents(m)[s] == multiset(At(m, s.typeName))[s]
    decreases |m|
  {
    if m != map[] {
      var t := MinKey(m.Keys);
      assert (m - {t}).Keys == m.Keys - {t};
      ContentsCount(m - {t}, s);
      if t != s.typeName {
        assert s !in m[t];
      }
    }
  }

  lemma {:induction false} InOrderCount(ss: seq<Sample>, s: Sample)
    requires InOrder(ss)
    ensures multiset(ss)[s] == if s in ss then 1 else 0
  {
    if ss != [] {
      assert ss == [ss[0]] + ss[1..];
      InOrderCount(ss[1..], s);
    }
  }

  lemma {:induction false} OfCount(ss: seq<Sample>, s: Sample)
    ensures multiset(Of(ss, s.typeName))[s] == multiset(ss)[s]
  {
    if ss != [] {
      assert ss == [ss[0]] + ss[1..];
      OfCount(ss[1..], s);
    }
  }

  lemma LineCount(st: State, s: Sample)
    requires SortedByType(st.pending) && SortedByType(st.paused)
    ensures multiset(Line(st, s.typeName))[s] ==
            multiset(st.file)[s] + multiset(st.buffer)[s] + Contents(st.pending)[s] + Contents(st.paused)[s]
  {
    hide Of, Contents;
    OfCount(st.file + st.buffer, s);
    ContentsCount(st.pending, s);
    ContentsCount(st.paused, s);
  }

  lemma EverythingCounts(c: Config, st: State, s: Sample)
    requires Inv(c, st) && SortedByType(st.pending) && SortedByType(st.paused)
    ensures Everything(st)[s] == multiset(Samples(st.received))[s]
  {
    hide Line, Contents;
    assert LineOk(st, {}, s.typeName);
    LineCount(st, s);
    InOrderCount(Line(st, s.typeName), s);
    InOrderCount(Samples(st.received), s);
    assert s in Samples(st.received) <==> Logged(st.received, s) by {
      assert Logged(st.received, s) ==> Samples(st.received)[s.id] == s;
    }
  }

  /** Conservation: every accepted sample is in exactly one place, once, and nothing else is anywhere. */
  lemma {:induction false} Conservation(c: Config, es: seq<Event>)
    ensures var st := Run(c, es);
            && (forall i :: 0 <= i < |st.received| ==> Places(st, st.received[i].sample) == 1)
            && (forall s :: s in st.file ==> Logged(st.received, s))
            && (forall t, s :: s in At(st.pending, t) || s in At(st.paused, t) ==> s.typeName == t)
            && Everything(st) == multiset(Samples(st.received))
  {
    hide Everything, Samples;
    var st := Run(c, es);
    RunOk(c, es);
    hide Line;
    forall i | 0 <= i < |st.received| ensures Places(st, st.received[i].sample) == 1 { InOnePlace(c, st, i); }
    forall s | s in st.file ensures Logged(st.received, s) { InLine(st, {}, s); }
    forall t, s | s in At(st.pending, t) || s in At(st.paused, t) ensures s.typeName == t { InLine(st, {}, s); }
    EverythingReceived(c, st);
  }

  lemma InOnePlace(c: Config, st: State, i: nat)
    requires Inv(c, st) && i < |st.received|
    ensures Places(st, st.received[i].sample) == 1
  {
    hide Line;
    var s := st.received[i].sample;
    Apart(st, {}, s);
    assert LineOk(st, {}, s.typeName);
  }

  lemma EverythingReceived(c: Config, st: State)
    requires Inv(c, st)
    ensures Everything(st) == multiset(Samples(st.received))
  {
    hide Everything, Samples;
    forall t, s | t in st.pending && s in st.pending[t] ensures s.typeName == t { InLine(st, {}, s); }
    forall t, s | t in st.paused && s in st.paused[t] ensures s.typeName == t { InLine(st, {}, s); }
    forall s ensures Everything(st)[s] == multiset(Samples(st.received))[s] { EverythingCounts(c, st, s); }
  }

  /**
   Order: the samples of a type reach the file in the order in which they were received, so none is
   written twice; and what is still held of the type follows them in that order.
  */
  lemma {:induction false} OrderPerType(c: Config, es: seq<Event>)
    ensures var st := Run(c, es);
            && (forall i, j :: 0 <= i < j < |st.file| && st.file[i].typeName == st.file[j].typeName ==>
                  st.file[i].id < st.file[j].id)
            && (forall s: Sample, t: Sample | s in st.file && s.typeName == t.typeName && Held(st, t) :: s.id < t.id)
            && (forall i :: 0 <= i < |st.received| ==> st.received[i].sample.id == i)
  {
    var st := Run(c, es);
    RunOk(c, es);
    forall i, j | 0 <= i < j < |st.file| && st.file[i].typeName == st.file[j].typeName
      ensures st.file[i].id < st.file[j].id {
      var t := st.file[i].typeName;
      assert LineOk(st, {}, t);
      Parts(st, t);
      OfIndex(st.file, t, i, j);
    }
    forall s: Sample, t: Sample | s in st.file && s.typeName == t.typeName && Held(st, t) ensures s.id < t.id {
      assert LineOk(st, {}, s.typeName);
      Parts(st, s.typeName);
      OfMember(st.file, s.typeName, s);
      OfMember(st.buffer, s.typeName, t);
    }
  }

  /**
   What was received while running is never given up, except, with `onlyWithSchema`, a sample whose
   type was unknown; once the handler is stopped all the rest is in the file.
  */
  lemma {:induction false} RunningIsKept(c: Config, es: seq<Event>)
    ensures var st := Run(c, es);
            forall i :: 0 <= i < |st.received| && st.received[i].phase == Running
                        && (!c.onlyWithSchema || st.received[i].typeKnown) ==>
              && st.received[i].sample !in st.dropped
              && (st.phase == Stopped ==> st.received[i].sample in st.file)
  {
    var st := Run(c, es);
    RunOk(c, es);
    forall i | 0 <= i < |st.received| && st.received[i].phase == Running
        && (!c.onlyWithSchema || st.received[i].typeKnown)
      ensures st.received[i].sample !in st.dropped && (st.phase == Stopped ==> st.received[i].sample in st.file)
    {
      var s := st.received[i].sample;
      assert !FromPause(st.received, s) && (c.onlyWithSchema ==> !Untyped(st.received, s));
      Apart(st, {}, s);
      assert LineOk(st, {}, s.typeName);
    }
  }

  /** A sample received while paused is in the file only if some later trigger found it in its window. */
  lemma {:induction false} PausedNeedsTrigger(c: Config, es: seq<Event>, i: nat)
    requires i < |Run(c, es).received| && Run(c, es).received[i].phase == Paused
    requires Run(c, es).received[i].sample in Run(c, es).file
    ensures var st := Run(c, es);
            exists k :: 0 <= k < |st.triggers| && i < st.triggers[k].seen
                        && st.received[i].sample.logTime >= st.triggers[k].threshold
  {
    var st := Run(c, es);
    RunOk(c, es);
    assert FromPause(st.received, st.received[i].sample);
    assert Triggered(st, st.received[i].sample);
  }

  /** The shape of every reachable state. */
  lemma {:induction false} ReachableShape(c: Config, es: seq<Event>)
    ensures var st := Run(c, es);
            && (st.phase == Stopped ==> st.buffer == [] && st.pending == map[] && st.paused == map[])
            && (st.phase == Running ==> st.paused == map[] && (c.bufferSize >= 1 ==> |st.buffer| < c.bufferSize))
            && (forall t :: |At(st.pending, t)| <= c.maxPending)
            && st.pending.Keys !! st.known && st.paused.Keys !! st.known
            && (c.onlyWithSchema ==> forall s :: s in st.file ==> s.typeName in st.known)
  {
    RunOk(c, es);
  }

  /** Nothing leaves the way to the file, and only `onlyWithSchema` gives samples up, while lists are moved. */
  ghost predicate Grows(c: Config, st: State, r: State) {
    && (forall s :: s in st.file + st.buffer ==> s in r.file + r.buffer)
    && st.dropped <= r.dropped
    && (!c.onlyWithSchema ==> r.dropped == st.dropped)
    && r.phase == st.phase && r.known == st.known && r.received == st.received
  }

  lemma {:induction false} MakeRoomGrows(c: Config, st: State, t: TypeName)
    requires c.maxPending != 0
    ensures Grows(c, st, MakeRoom(c, st, t))
    decreases |At(st.pending, t)|
  {
    if |At(st.pending, t)| >= c.maxPending { MakeRoomGrows(c, EvictOldest(c, st, t), t); }
  }

  lemma MoveOneGrows(c: Config, st: State, t: TypeName)
    requires At(st.paused, t) != [] && !(c.maxPending == 0 && c.onlyWithSchema)
    ensures Grows(c, st, MoveOne(c, st, t))
  {
    if c.maxPending != 0 {
      var u := st.paused[t][0].typeName;
      MakeRoomGrows(c, st.(pending := st.pending[u := At(st.pending, u)]), u);
    }
  }

  lemma {:induction false} MoveListGrows(c: Config, st: State, t: TypeName)
    requires !(c.maxPending == 0 && c.onlyWithSchema)
    ensures Grows(c, st, MoveList(c, st, t))
    decreases |At(st.paused, t)|
  {
    if At(st.paused, t) != [] {
      MoveOneGrows(c, st, t);
      MoveListGrows(c, MoveOne(c, st, t), t);
    }
  }

  lemma {:induction false} MoveListsGrow(c: Config, st: State, ks: set<TypeName>)
    requires !(c.maxPending == 0 && c.onlyWithSchema)
    ensures Grows(c, st, MoveLists(c, st, ks))
    decreases |ks|
  {
    if ks != {} {
      MoveListGrows(c, st, MinKey(ks));
      MoveListsGrow(c, MoveList(c, st, MinKey(ks)), ks - {MinKey(ks)});
    }
  }

  lemma ServiceGrows(c: Config, st: State, now: int)
    requires Inv(c, st) && st.phase == Paused
    ensures var r := ServiceTrigger(c, st, now);
            && Grows(c, WindowOpened(c, st, now), r) && r.buffer == []
            && (!(c.maxPending == 0 && c.onlyWithSchema) ==> forall t :: At(r.paused, t) == [])
  {
    var st2 := WindowOpened(c, st, now);
    if !(c.maxPending == 0 && c.onlyWithSchema) {
      WindowOpenedOk(c, st, now);
      MoveListsOk(c, st2, st2.paused.Keys);
      MoveListsGrow(c, st2, st2.paused.Keys);
    }
  }

  /**
   A trigger settles every sample of the pause: outside the window it is given up; inside, it is in
   the file if its type is known, and otherwise in the file or among the pending samples of its type
   (or given up, when those overflow and only typed samples may be written; when there are no pending
   lists either, it stays where it is).
  */
  lemma {:induction false} TriggerSettlesPause(c: Config, es: seq<Event>, now: int, s: Sample)
    requires Run(c, es).phase == Paused
    requires s in Run(c, es).buffer || s in At(Run(c, es).paused, s.typeName)
    ensures var st, r := Run(c, es), Run(c, es + [Service(now)]);
            && r.buffer == []
            && (s.logTime < now - c.eventWindow ==> s in r.dropped)
            && (s.logTime >= now - c.eventWindow && s.typeName in st.known ==> s in r.file)
            && (s.logTime >= now - c.eventWindow && s.typeName !in st.known && !c.onlyWithSchema ==>
                  s in r.file || s in At(r.pending, s.typeName))
            && (s.logTime >= now - c.eventWindow && s.typeName !in st.known && c.onlyWithSchema && c.maxPending != 0 ==>
                  s in r.dropped || s in At(r.pending, s.typeName))
            && (s.logTime >= now - c.eventWindow && s.typeName !in st.known && c.onlyWithSchema && c.maxPending == 0 ==>
                  s in At(r.paused, s.typeName))
  {
    var st := Run(c, es);
    var es1 := es + [Service(now)];
    assert es1[..|es1| - 1] == es;
    RunOk(c, es);
    RunOk(c, es1);
    ServiceGrows(c, st, now);
    Settled(c, st, now, s);
  }

  lemma Settled(c: Config, st: State, now: int, s: Sample)
    requires Inv(c, st) && st.phase == Paused && Inv(c, ServiceTrigger(c, st, now))
    requires s in st.buffer || s in At(st.paused, s.typeName)
    ensures var r := ServiceTrigger(c, st, now);
            && (s.logTime < now - c.eventWindow ==> s in r.dropped)
            && (s.logTime >= now - c.eventWindow && s.typeName in st.known ==> s in r.file)
            && (s.logTime >= now - c.eventWindow && s.typeName !in st.known && !c.onlyWithSchema ==>
                  s in r.file || s in At(r.pending, s.typeName))
            && (s.logTime >= now - c.eventWindow && s.typeName !in st.known && c.onlyWithSchema && c.maxPending != 0 ==>
                  s in r.dropped || s in At(r.pending, s.typeName))
            && (s.logTime >= now - c.eventWindow && s.typeName !in st.known && c.onlyWithSchema && c.maxPending == 0 ==>
                  s in At(r.paused, s.typeName))
  {
    var t, th := s.typeName, now - c.eventWindow;
    var st2, r := WindowOpened(c, st, now), ServiceTrigger(c, st, now);
    ServiceGrows(c, st, now);
    RemoveOutdatedStores(c, st, now);
    Apart(st, {}, s);
    if s.logTime < th {
      OutdatedWhere(st, th, s);
      assert s in st2.dropped;
    } else if t in st.known {
      assert At(st.paused, t) == [];
      assert s in st2.buffer;
      assert s in r.file + r.buffer;
    } else {
      InLine(st, {}, s);
      OutdatedWhere(st, th, s);
      assert s !in st2.dropped;
      assert c.onlyWithSchema && c.maxPending == 0 ==> r.paused == st2.paused;
      assert LineOk(r, {}, t);
      Apart(r, {}, s);
    }
  }
}
