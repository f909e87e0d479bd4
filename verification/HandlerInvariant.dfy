/**
 What every reachable state of the recording handler satisfies: no sample is lost or duplicated,
 samples of a type keep their reception order, and each store holds only what its phase allows.
*/
module HandlerInvariant {
  import opened HandlerModel

  // ---- The samples of one type, in the order in which they would reach the file ----

  function Of(ss: seq<Sample>, t: TypeName): seq<Sample> {
    if ss == [] then []
    else if ss[0].typeName == t then [ss[0]] + Of(ss[1..], t)
    else Of(ss[1..], t)
  }

  /** Everything held of type `t`: file, then buffer, then pending list, then paused list. */
  function Line(st: State, t: TypeName): seq<Sample> {
    Of(st.file + st.buffer, t) + At(st.pending, t) + At(st.paused, t)
  }

  ghost predicate InOrder(ss: seq<Sample>) {
    forall i, j :: 0 <= i < j < |ss| ==> ss[i].id < ss[j].id
  }

  predicate Logged(recv: seq<Reception>, s: Sample) {
    s.id < |recv| && recv[s.id].sample == s
  }

  /** The line of `t` is in reception order and, with `dropped` and the sample in hand, accounts for every one. */
  ghost predicate LineOk(st: State, hand: set<Sample>, t: TypeName) {
    var line := Line(st, t);
    && InOrder(line)
    && (forall s :: s in line ==> s.typeName == t && Logged(st.received, s) && s !in st.dropped && s !in hand)
    && (forall i :: 0 <= i < |st.received| && st.received[i].sample.typeName == t ==>
          st.received[i].sample in line || st.received[i].sample in st.dropped || st.received[i].sample in hand)
  }

  ghost predicate Accounted(st: State, hand: set<Sample>) {
    && (forall i :: 0 <= i < |st.received| ==> st.received[i].sample.id == i)
    && (forall s :: s in st.dropped ==> Logged(st.received, s))
    && st.dropped !! hand
    && (forall t :: LineOk(st, hand, t))
  }

  // ---- Which samples each store may hold ----

  predicate FromPause(recv: seq<Reception>, s: Sample) {
    Logged(recv, s) && recv[s.id].phase == Paused
  }

  predicate Untyped(recv: seq<Reception>, s: Sample) {
    Logged(recv, s) && !recv[s.id].typeKnown
  }

  ghost predicate Triggered(st: State, s: Sample) {
    exists k :: 0 <= k < |st.triggers| && s.id < st.triggers[k].seen && s.logTime >= st.triggers[k].threshold
  }

  /** What holds at every step inside a command as well; `t` in `opening` is a type being discovered. */
  ghost predicate Placed(c: Config, st: State, opening: set<TypeName>) {
    && st.pending.Keys !! st.known - opening
    && st.paused.Keys !! st.known - opening
    && (forall t :: t in st.pending ==> |st.pending[t]| <= c.maxPending)
    && (forall t, s :: t in st.pending && s in st.pending[t] ==> Untyped(st.received, s))
    && (forall t, s :: t in st.paused && s in st.paused[t] ==> FromPause(st.received, s) && Untyped(st.received, s))
    && (c.onlyWithSchema ==> forall s :: s in st.file + st.buffer ==> s.typeName in st.known)
    && (forall s :: s in st.dropped ==> FromPause(st.received, s) || (c.onlyWithSchema && Untyped(st.received, s)))
  }

  /** What each phase allows between two commands. */
  ghost predicate PhaseOk(c: Config, st: State) {
    && (st.phase == Stopped ==> st.buffer == [] && st.pending == map[] && st.paused == map[])
    && (st.phase == Running ==> st.paused == map[] && |st.buffer| < (if c.bufferSize == 0 then 1 else c.bufferSize))
    && (st.phase == Paused ==> forall s :: s in st.buffer ==> s.typeName in st.known && FromPause(st.received, s))
  }

  /** A sample received while paused goes past the window filter only through a trigger. */
  ghost predicate Windowed(st: State) {
    && (forall s :: s in st.file && FromPause(st.received, s) ==> Triggered(st, s))
    && (forall t, s :: t in st.pending && s in st.pending[t] && FromPause(st.received, s) ==> Triggered(st, s))
    && (st.phase != Paused ==> forall s :: s in st.buffer && FromPause(st.received, s) ==> Triggered(st, s))
  }

  ghost predicate Inv(c: Config, st: State) {
    Accounted(st, {}) && Placed(c, st, {}) && PhaseOk(c, st) && Windowed(st)
  }

  // ---- Lists and lines ----

  lemma {:induction false} OfConcat(a: seq<Sample>, b: seq<Sample>, t: TypeName)
    ensures Of(a + b, t) == Of(a, t) + Of(b, t)
  {
    if a == [] {
      assert a + b == b;
    } else {
      OfConcat(a[1..], b, t);
      assert (a + b)[0] == a[0] && (a + b)[1..] == a[1..] + b;
    }
  }

  lemma {:induction false} OfMember(ss: seq<Sample>, t: TypeName, s: Sample)
    ensures s in Of(ss, t) <==> s in ss && s.typeName == t
  {
    if ss != [] { OfMember(ss[1..], t, s); }
  }

  lemma {:induction false} OfPure(ss: seq<Sample>, t: TypeName, u: TypeName)
    requires forall s :: s in ss ==> s.typeName == t
    ensures Of(ss, u) == if u == t then ss else []
  {
    if ss != [] { OfPure(ss[1..], t, u); }
  }

  lemma {:induction false} OfNone(ss: seq<Sample>, t: TypeName)
    requires forall s :: s in ss ==> s.typeName != t
    ensures Of(ss, t) == []
  {
    if ss != [] { OfNone(ss[1..], t); }
  }

  lemma MoveFront(a: seq<Sample>, s: Sample, rest: seq<Sample>, b: seq<Sample>)
    ensures (a + [s]) + rest + b == a + ([s] + rest) + b
  {}

  lemma MoveBack(a: seq<Sample>, b: seq<Sample>, s: Sample)
    ensures a + (b + [s]) + [] == (a + b + []) + [s]
  {}

  lemma AddToBufferOut(c: Config, st: State, s: Sample)
    ensures var r := AddToBuffer(c, st, s);
            && r == st.(buffer := r.buffer, file := r.file)
            && r.file + r.buffer == st.file + st.buffer + [s]
            && (st.phase != Running ==> r.file == st.file)
            && (st.phase == Running ==> |r.buffer| < if c.bufferSize == 0 then 1 else c.bufferSize)
  {}

  lemma {:induction false} AddAllOut(c: Config, st: State, ss: seq<Sample>)
    ensures var r := AddAllToBuffer(c, st, ss);
            && r == st.(buffer := r.buffer, file := r.file)
            && r.file + r.buffer == st.file + st.buffer + ss
            && (st.phase != Running ==> r.file == st.file && r.buffer == st.buffer + ss)
            && (st.phase == Running && PhaseOk(c, st) ==> |r.buffer| < if c.bufferSize == 0 then 1 else c.bufferSize)
    decreases |ss|
  {
    if ss == [] {
      assert st.file + st.buffer + ss == st.file + st.buffer;
      assert st.buffer + ss == st.buffer;
    } else {
      var st1 := AddToBuffer(c, st, ss[0]);
      AddToBufferOut(c, st, ss[0]);
      AddAllOut(c, st1, ss[1..]);
      assert ss == [ss[0]] + ss[1..];
      MoveFront(st.file + st.buffer, ss[0], ss[1..], []);
      MoveFront(st.buffer, ss[0], ss[1..], []);
    }
  }

  /** A step that leaves every line and the drops alone leaves the account intact. */
  lemma SameLines(st: State, st1: State, hand: set<Sample>)
    requires Accounted(st, hand)
    requires st1.received == st.received && st1.dropped == st.dropped
    requires forall t :: Line(st1, t) == Line(st, t)
    ensures Accounted(st1, hand)
  {
    forall t ensures LineOk(st1, hand, t) {
      assert LineOk(st, hand, t);
      assert Line(st1, t) == Line(st, t);
    }
  }

  /** Removing samples from a line, and dropping exactly those. */
  lemma DropFromLines(st: State, st1: State, hand: set<Sample>)
    requires Accounted(st, hand)
    requires st1.received == st.received && st.dropped <= st1.dropped
    requires forall s :: s in st1.dropped - st.dropped ==> s in Line(st, s.typeName)
    requires forall t :: InOrder(Line(st1, t))
    requires forall t, s :: s in Line(st1, t) <==> s in Line(st, t) && s !in st1.dropped
    ensures Accounted(st1, hand)
  {
    forall s | s in st1.dropped ensures Logged(st1.received, s) && s !in hand {
      if s !in st.dropped { assert LineOk(st, hand, s.typeName); }
    }
    forall t ensures LineOk(st1, hand, t) { assert LineOk(st, hand, t); }
  }

  lemma InLine(st: State, hand: set<Sample>, s: Sample)
    requires Accounted(st, hand)
    requires s in st.file + st.buffer || (exists t :: t in st.pending && s in st.pending[t])
             || (exists t :: t in st.paused && s in st.paused[t])
    ensures s in Line(st, s.typeName) && Logged(st.received, s) && s !in st.dropped && s !in hand
    ensures forall t :: t in st.pending && s in st.pending[t] ==> s.typeName == t
    ensures forall t :: t in st.paused && s in st.paused[t] ==> s.typeName == t
  {
    OfMember(st.file + st.buffer, s.typeName, s);
    assert LineOk(st, hand, s.typeName);
    forall t | t in st.pending && s in st.pending[t] ensures s.typeName == t {
      assert LineOk(st, hand, t);
      assert s in Line(st, t);
    }
    forall t | t in st.paused && s in st.paused[t] ensures s.typeName == t {
      assert LineOk(st, hand, t);
      assert s in Line(st, t);
    }
  }

  // ---- Pending lists ----

  lemma EvictDropsOne(c: Config, st: State, t: TypeName, u: TypeName)
    requires At(st.pending, t) != [] && c.onlyWithSchema && InOrder(Line(st, u))
    requires forall s :: s in Line(st, u) ==> s.typeName == u && s !in st.dropped
    requires st.pending[t][0].typeName == t
    ensures var r := EvictOldest(c, st, t);
            InOrder(Line(r, u)) && forall s :: s in Line(r, u) <==> s in Line(st, u) && s !in r.dropped
  {
    if u == t {
      var r, p := EvictOldest(c, st, t), st.pending[t];
      assert At(st.pending, t) == [p[0]] + p[1..];
      RemoveOne(Of(st.file + st.buffer, t), p[0], p[1..], At(st.paused, t));
      assert At(r.pending, t) == p[1..];
    }
  }

  lemma EvictMovesOne(c: Config, st: State, t: TypeName, u: TypeName)
    requires At(st.pending, t) != [] && !c.onlyWithSchema && st.pending[t][0].typeName == t
    ensures Line(EvictOldest(c, st, t), u) == Line(st, u)
  {
    var p := st.pending[t];
    AddToBufferOut(c, st.(pending := st.pending[t := p[1..]]), p[0]);
    OfConcat(st.file + st.buffer, [p[0]], u);
    OfPure([p[0]], t, u);
    if u == t {
      assert p == [p[0]] + p[1..];
      MoveFront(Of(st.file + st.buffer, t), p[0], p[1..], At(st.paused, t));
    }
  }

  lemma EvictOldestOk(c: Config, st: State, hand: set<Sample>, t: TypeName)
    requires Accounted(st, hand) && Placed(c, st, {}) && At(st.pending, t) != []
    ensures var r := EvictOldest(c, st, t);
            && Accounted(r, hand) && Placed(c, r, {})
            && r == st.(buffer := r.buffer, file := r.file, pending := r.pending, dropped := r.dropped)
            && r.pending == st.pending[t := st.pending[t][1..]]
            && (forall u, s :: s in Line(r, u) ==> s in Line(st, u))
            && (st.phase == Running && PhaseOk(c, st) ==> PhaseOk(c, r))
  {
    var r := EvictOldest(c, st, t);
    var oldest := st.pending[t][0];
    InLine(st, hand, oldest);
    AddToBufferOut(c, st.(pending := st.pending[t := st.pending[t][1..]]), oldest);
    forall u ensures (!c.onlyWithSchema ==> Line(r, u) == Line(st, u))
                     && (c.onlyWithSchema ==> InOrder(Line(r, u))
                                              && forall s :: s in Line(r, u) <==> s in Line(st, u) && s !in r.dropped)
    {
      assert LineOk(st, hand, u);
      if c.onlyWithSchema { EvictDropsOne(c, st, t, u); } else { EvictMovesOne(c, st, t, u); }
    }
    if c.onlyWithSchema { DropFromLines(st, r, hand); } else { SameLines(st, r, hand); }
  }

  lemma RemoveOne(a: seq<Sample>, s: Sample, b: seq<Sample>, d: seq<Sample>)
    requires InOrder(a + ([s] + b) + d)
    ensures InOrder(a + b + d)
    ensures forall x :: x in a + b + d <==> x in a + ([s] + b) + d && x != s
  {
    var full, less := a + ([s] + b) + d, a + b + d;
    assert full[|a|] == s;
    assert forall i :: 0 <= i < |a| ==> less[i] == full[i] && full[i].id < s.id;
    assert forall i :: |a| <= i < |less| ==> less[i] == full[i + 1] && s.id < full[i + 1].id;
    forall x | x in full && x != s ensures x in less {
      var i :| 0 <= i < |full| && full[i] == x;
      if i < |a| { assert less[i] == x; } else { assert less[i - 1] == x; }
    }
  }

  lemma {:induction false} MakeRoomOk(c: Config, st: State, hand: set<Sample>, t: TypeName)
    requires Accounted(st, hand) && Placed(c, st, {}) && c.maxPending != 0
    ensures var r := MakeRoom(c, st, t);
            && Accounted(r, hand) && Placed(c, r, {})
            && r == st.(buffer := r.buffer, file := r.file, pending := r.pending, dropped := r.dropped)
            && r.pending.Keys == st.pending.Keys && |At(r.pending, t)| < c.maxPending
            && (forall u, s :: s in Line(r, u) ==> s in Line(st, u))
            && (st.phase == Running && PhaseOk(c, st) ==> PhaseOk(c, r))
    decreases |At(st.pending, t)|
  {
    if |At(st.pending, t)| >= c.maxPending {
      EvictOldestOk(c, st, hand, t);
      MakeRoomOk(c, EvictOldest(c, st, t), hand, t);
    }
  }

  // ---- Receiving a sample ----

  /** The state with the new sample in hand: recorded as received, but in no store yet. */
  function Taken(st: State, s: Sample): State {
    st.(received := st.received + [Reception(s, st.phase, s.typeName in st.known)])
  }

  lemma TakenOk(c: Config, st: State, s: Sample)
    requires Inv(c, st) && s.id == |st.received|
    ensures Accounted(Taken(st, s), {s}) && Placed(c, Taken(st, s), {}) && PhaseOk(c, Taken(st, s))
    ensures Logged(Taken(st, s).received, s) && s !in st.dropped
    ensures forall t, x :: x in Line(st, t) ==> x.id < s.id
    ensures forall x :: Logged(st.received, x) ==>
              (FromPause(Taken(st, s).received, x) <==> FromPause(st.received, x)) && Logged(Taken(st, s).received, x)
    ensures forall x :: (x in st.file + st.buffer ==> Logged(st.received, x))
    ensures forall t, x :: t in st.pending && x in st.pending[t] ==> Logged(st.received, x)
  {
    var st1 := Taken(st, s);
    assert forall x :: FromPause(st.received, x) ==> FromPause(st1.received, x);
    assert forall x :: Untyped(st.received, x) ==> Untyped(st1.received, x);
    forall x | x in st.file + st.buffer ensures Logged(st.received, x) { InLine(st, {}, x); }
    forall t, x | t in st.pending && x in st.pending[t] ensures Logged(st.received, x) { InLine(st, {}, x); }
    forall t ensures LineOk(st1, {s}, t) && forall x :: x in Line(st, t) ==> x.id < s.id {
      assert LineOk(st, {}, t);
      assert Line(st1, t) == Line(st, t);
    }
  }

  lemma LandLine(st: State, st1: State, s: Sample, u: TypeName)
    requires LineOk(st, {s}, u) && Logged(st.received, s)
    requires st1.received == st.received && st1.dropped == st.dropped && s !in st.dropped
    requires Line(st1, u) == if u == s.typeName then Line(st, u) + [s] else Line(st, u)
    requires forall x :: x in Line(st, s.typeName) ==> x.id < s.id
    ensures LineOk(st1, {}, u)
  {}

  /** Putting the sample in hand at the end of its line. */
  lemma Land(st: State, st1: State, s: Sample)
    requires Accounted(st, {s}) && Logged(st.received, s)
    requires st1.received == st.received && st1.dropped == st.dropped
    requires forall u :: Line(st1, u) == if u == s.typeName then Line(st, u) + [s] else Line(st, u)
    requires forall x :: x in Line(st, s.typeName) ==> x.id < s.id
    ensures Accounted(st1, {})
  {
    forall u ensures LineOk(st1, {}, u) {
      assert LineOk(st, {s}, u);
      LandLine(st, st1, s, u);
    }
  }

  lemma LandInBuffer(c: Config, st: State, s: Sample)
    requires Accounted(st, {s}) && Placed(c, st, {}) && Logged(st.received, s)
    requires At(st.pending, s.typeName) == [] && At(st.paused, s.typeName) == []
    requires forall x :: x in Line(st, s.typeName) ==> x.id < s.id
    requires c.onlyWithSchema ==> s.typeName in st.known
    ensures Accounted(AddToBuffer(c, st, s), {}) && Placed(c, AddToBuffer(c, st, s), {})
  {
    var r := AddToBuffer(c, st, s);
    AddToBufferOut(c, st, s);
    forall u ensures Line(r, u) == if u == s.typeName then Line(st, u) + [s] else Line(st, u) {
      OfConcat(st.file + st.buffer, [s], u);
      OfPure([s], s.typeName, u);
    }
    Land(st, r, s);
    assert c.onlyWithSchema ==> forall x :: x in r.file + r.buffer ==> x in st.file + st.buffer || x == s;
  }

  lemma LandInPending(c: Config, st: State, s: Sample)
    requires Accounted(st, {s}) && Placed(c, st, {}) && Untyped(st.received, s)
    requires c.maxPending != 0 && s.typeName !in st.known
    requires At(st.paused, s.typeName) == []
    requires forall x :: x in Line(st, s.typeName) ==> x.id < s.id
    requires st.phase == Running && PhaseOk(c, st)
    ensures var r := AddToPending(c, st, s);
            && Accounted(r, {}) && Placed(c, r, {}) && PhaseOk(c, r)
            && r == st.(buffer := r.buffer, file := r.file, pending := r.pending, dropped := r.dropped)
            && (forall u, x :: x in Line(r, u) ==> x in Line(st, u) || x == s)
  {
    var t := s.typeName;
    var st0 := st.(pending := st.pending[t := At(st.pending, t)]);
    assert forall u :: Line(st0, u) == Line(st, u);
    SameLines(st, st0, {s});
    MakeRoomOk(c, st0, {s}, t);
    var st1 := MakeRoom(c, st0, t);
    assert st1.paused == st.paused && st1.known == st.known && st1.received == st.received;
    AppendPendingOk(c, st1, s);
  }

  /** The last part of `AddToPending`, once there is room. */
  lemma AppendPendingOk(c: Config, st: State, s: Sample)
    requires Accounted(st, {s}) && Placed(c, st, {}) && Untyped(st.received, s)
    requires s.typeName !in st.known && |At(st.pending, s.typeName)| < c.maxPending
    requires At(st.paused, s.typeName) == []
    requires forall x :: x in Line(st, s.typeName) ==> x.id < s.id
    ensures var r := st.(pending := st.pending[s.typeName := At(st.pending, s.typeName) + [s]]);
            && Accounted(r, {}) && Placed(c, r, {})
            && (forall u, x :: x in Line(r, u) ==> x in Line(st, u) || x == s)
  {
    var t := s.typeName;
    var r := st.(pending := st.pending[t := At(st.pending, t) + [s]]);
    hide Of;
    forall u ensures Line(r, u) == if u == t then Line(st, u) + [s] else Line(st, u) {
      if u == t { MoveBack(Of(st.file + st.buffer, t), At(st.pending, t), s); }
    }
    Land(st, r, s);
  }

  lemma LandInPaused(c: Config, st: State, s: Sample)
    requires Accounted(st, {s}) && Placed(c, st, {}) && s.typeName !in st.known
    requires FromPause(st.received, s) && Untyped(st.received, s)
    requires forall x :: x in Line(st, s.typeName) ==> x.id < s.id
    ensures var r := st.(paused := st.paused[s.typeName := At(st.paused, s.typeName) + [s]]);
            Accounted(r, {}) && Placed(c, r, {})
  {
    var r := st.(paused := st.paused[s.typeName := At(st.paused, s.typeName) + [s]]);
    forall u ensures Line(r, u) == if u == s.typeName then Line(st, u) + [s] else Line(st, u) {}
    Land(st, r, s);
  }

  lemma ReceiveInBuffer(c: Config, st: State, s: Sample)
    requires Inv(c, st) && s.id == |st.received| && st.phase != Stopped
    requires At(st.pending, s.typeName) == [] && At(st.paused, s.typeName) == []
    requires s.typeName in st.known || (st.phase == Running && !c.onlyWithSchema)
    ensures Inv(c, AddToBuffer(c, Taken(st, s), s))
  {
    var st1 := Taken(st, s);
    TakenOk(c, st, s);
    assert Line(st1, s.typeName) == Line(st, s.typeName);
    LandInBuffer(c, st1, s);
    AddToBufferOut(c, st1, s);
    BufferWindowed(st, st1, AddToBuffer(c, st1, s), s);
  }

  lemma ReceiveInPending(c: Config, st: State, s: Sample)
    requires Inv(c, st) && s.id == |st.received| && st.phase == Running
    requires s.typeName !in st.known && c.maxPending != 0
    ensures Inv(c, AddToPending(c, Taken(st, s), s))
  {
    var st1 := Taken(st, s);
    TakenOk(c, st, s);
    assert Line(st1, s.typeName) == Line(st, s.typeName);
    LandInPending(c, st1, s);
    LinesWindowed(c, st, st1, AddToPending(c, st1, s), s);
  }

  lemma ReceiveDropped(c: Config, st: State, s: Sample)
    requires Inv(c, st) && s.id == |st.received| && st.phase == Running
    requires s.typeName !in st.known && c.onlyWithSchema
    ensures Inv(c, Taken(st, s).(dropped := st.dropped + {s}))
  {
    var st1 := Taken(st, s);
    var r := st1.(dropped := st.dropped + {s});
    TakenOk(c, st, s);
    forall u ensures LineOk(r, {}, u) {
      assert LineOk(st1, {s}, u);
      assert Line(r, u) == Line(st1, u);
    }
    assert forall x :: Triggered(st, x) ==> Triggered(r, x);
  }

  lemma ReceiveInPaused(c: Config, st: State, s: Sample)
    requires Inv(c, st) && s.id == |st.received| && st.phase == Paused && s.typeName !in st.known
    ensures Inv(c, Taken(st, s).(paused := st.paused[s.typeName := At(st.paused, s.typeName) + [s]]))
  {
    var st1 := Taken(st, s);
    TakenOk(c, st, s);
    assert Line(st1, s.typeName) == Line(st, s.typeName);
    LandInPaused(c, st1, s);
    assert forall x :: Triggered(st, x) ==> Triggered(st1, x);
  }

  lemma ProcessOk(c: Config, st: State, t: TypeName, logTime: int)
    requires Inv(c, st)
    ensures Inv(c, Process(c, st, t, logTime))
  {
    if st.phase != Stopped {
      var s := Sample(|st.received|, t, logTime);
      if t in st.known || (st.phase == Running && c.maxPending == 0 && !c.onlyWithSchema) {
        ReceiveInBuffer(c, st, s);
      } else if st.phase == Paused {
        ReceiveInPaused(c, st, s);
      } else if c.maxPending != 0 {
        ReceiveInPending(c, st, s);
      } else {
        ReceiveDropped(c, st, s);
      }
    }
  }

  lemma BufferWindowed(st: State, st1: State, r: State, s: Sample)
    requires Windowed(st) && st1 == Taken(st, s) && s.id == |st.received|
    requires forall x :: x in st.file + st.buffer ==> Logged(st.received, x)
    requires forall t, x :: t in st.pending && x in st.pending[t] ==> Logged(st.received, x)
    requires r == st1.(buffer := r.buffer, file := r.file)
    requires r.file + r.buffer == st.file + st.buffer + [s]
    requires st.phase != Running ==> r.file == st.file
    requires st.phase != Stopped
    ensures Windowed(r)
  {
    forall x | (x in r.file || (x in r.buffer && r.phase != Paused)) && FromPause(r.received, x)
      ensures Triggered(r, x) {
      assert x in r.file + r.buffer;
      if x != s {
        assert x in st.file + st.buffer;
        assert FromPause(st.received, x);
        assert Triggered(st, x);
      }
    }
    forall t, x | t in r.pending && x in r.pending[t] && FromPause(r.received, x) ensures Triggered(r, x) {
      assert t in st.pending && x in st.pending[t] && Logged(st.received, x);
      assert FromPause(st.received, x);
      assert Triggered(st, x);
    }
  }

  lemma LinesWindowed(c: Config, st: State, st1: State, r: State, s: Sample)
    requires Inv(c, st) && st.phase == Running && st1 == Taken(st, s) && s.id == |st.received|
    requires Accounted(r, {})
    requires r == st1.(buffer := r.buffer, file := r.file, pending := r.pending, dropped := r.dropped)
    requires forall u, x :: x in Line(r, u) ==> x in Line(st1, u) || x == s
    ensures Windowed(r)
  {
    forall x | (x in r.file + r.buffer || exists t :: t in r.pending && x in r.pending[t]) && FromPause(r.received, x)
      ensures Triggered(r, x)
    {
      InLine(r, {}, x);
      var u := x.typeName;
      if x != s {
        assert x in Line(st, u);
        assert LineOk(st, {}, u);
        OfMember(st.file + st.buffer, u, x);
        assert FromPause(st.received, x);
        assert Triggered(st, x);
      }
    }
  }

  // ---- Giving samples up ----

  ghost predicate Below(a: seq<Sample>, b: seq<Sample>) {
    forall x, y :: x in a && y in b ==> x.id < y.id
  }

  ghost predicate Ordered4(a: seq<Sample>, b: seq<Sample>, d: seq<Sample>, e: seq<Sample>) {
    && InOrder(a) && InOrder(b) && InOrder(d) && InOrder(e)
    && Below(a, b) && Below(a, d) && Below(a, e) && Below(b, d) && Below(b, e) && Below(d, e)
  }

  lemma InOrderConcat(a: seq<Sample>, b: seq<Sample>)
    ensures InOrder(a + b) <==> InOrder(a) && InOrder(b) && Below(a, b)
  {
    var w := a + b;
    if InOrder(w) {
      forall i, j | 0 <= i < j < |a| ensures a[i].id < a[j].id { assert w[i].id < w[j].id; }
      forall i, j | 0 <= i < j < |b| ensures b[i].id < b[j].id { assert w[|a| + i].id < w[|a| + j].id; }
      forall x, y | x in a && y in b ensures x.id < y.id {
        var i :| 0 <= i < |a| && a[i] == x;
        var j :| 0 <= j < |b| && b[j] == y;
        assert w[i].id < w[|a| + j].id;
      }
    }
  }

  lemma BelowConcat(a: seq<Sample>, b: seq<Sample>, d: seq<Sample>)
    ensures Below(a + b, d) <==> Below(a, d) && Below(b, d)
  {
    assert forall x :: x in a + b <==> x in a || x in b;
  }

  lemma {:induction false} Parts(st: State, t: TypeName)
    ensures InOrder(Line(st, t)) <==>
              Ordered4(Of(st.file, t), Of(st.buffer, t), At(st.pending, t), At(st.paused, t))
    ensures forall s :: s in Line(st, t) <==>
              s in Of(st.file, t) || s in Of(st.buffer, t) || s in At(st.pending, t) || s in At(st.paused, t)
  {
    var a, b, d, e := Of(st.file, t), Of(st.buffer, t), At(st.pending, t), At(st.paused, t);
    OfConcat(st.file, st.buffer, t);
    InOrderConcat(a, b);
    InOrderConcat(a + b, d);
    InOrderConcat(a + b + d, e);
    BelowConcat(a, b, d);
    BelowConcat(a + b, d, e);
    BelowConcat(a, b, e);
  }

  predicate InBuffer(st: State, s: Sample) { s in st.buffer }
  predicate InPending(st: State, s: Sample) { s in At(st.pending, s.typeName) }
  predicate InPaused(st: State, s: Sample) { s in At(st.paused, s.typeName) }

  /** No sample is in two places. */
  lemma Apart(st: State, hand: set<Sample>, s: Sample)
    requires Accounted(st, hand)
    ensures s in Line(st, s.typeName) <==> s in st.file || InBuffer(st, s) || InPending(st, s) || InPaused(st, s)
    ensures !(s in st.file && (InBuffer(st, s) || InPending(st, s) || InPaused(st, s)))
    ensures !(InBuffer(st, s) && (InPending(st, s) || InPaused(st, s)))
    ensures !(InPending(st, s) && InPaused(st, s))
  {
    var t := s.typeName;
    Parts(st, t);
    assert LineOk(st, hand, t);
    OfMember(st.file, t, s);
    OfMember(st.buffer, t, s);
  }

  predicate Holds(m: map<TypeName, seq<Sample>>, t: TypeName, s: Sample) { s in At(m, t) }

  /** `st1` is `st` with `gone` taken out of the three stores and dropped. */
  ghost predicate Thinned(st: State, st1: State, gone: set<Sample>) {
    && st1.received == st.received && st1.file == st.file && st1.dropped == st.dropped + gone
    && (forall s :: s in gone ==> InBuffer(st, s) || InPending(st, s) || InPaused(st, s))
    && (forall t :: InOrder(Of(st1.buffer, t)) && InOrder(At(st1.pending, t)) && InOrder(At(st1.paused, t)))
    && (forall s :: s in st1.buffer <==> s in st.buffer && s !in gone)
    && (forall t, s :: Holds(st1.pending, t, s) <==> Holds(st.pending, t, s) && s !in gone)
    && (forall t, s :: Holds(st1.paused, t, s) <==> Holds(st.paused, t, s) && s !in gone)
  }

  lemma Ordered4Thinned(a: seq<Sample>, b: seq<Sample>, d: seq<Sample>, e: seq<Sample>,
                        b1: seq<Sample>, d1: seq<Sample>, e1: seq<Sample>)
    requires Ordered4(a, b, d, e)
    requires InOrder(b1) && InOrder(d1) && InOrder(e1)
    requires forall s :: (s in b1 ==> s in b) && (s in d1 ==> s in d) && (s in e1 ==> s in e)
    ensures Ordered4(a, b1, d1, e1)
  {}

  lemma {:induction false} OfSubset(x: seq<Sample>, y: seq<Sample>, t: TypeName)
    requires forall s :: s in x ==> s in y
    ensures forall s :: s in Of(x, t) ==> s in Of(y, t)
  {
    forall s | s in Of(x, t) ensures s in Of(y, t) {
      OfMember(x, t, s);
      OfMember(y, t, s);
    }
  }

  lemma {:induction false} ThinnedLine(st: State, st1: State, t: TypeName)
    requires InOrder(Line(st, t)) && st1.file == st.file
    requires InOrder(Of(st1.buffer, t)) && InOrder(At(st1.pending, t)) && InOrder(At(st1.paused, t))
    requires forall s :: s in st1.buffer ==> s in st.buffer
    requires forall s :: Holds(st1.pending, t, s) ==> Holds(st.pending, t, s)
    requires forall s :: Holds(st1.paused, t, s) ==> Holds(st.paused, t, s)
    ensures InOrder(Line(st1, t))
  {
    assert Ordered4(Of(st.file, t), Of(st.buffer, t), At(st.pending, t), At(st.paused, t)) by { Parts(st, t); }
    OfSubset(st1.buffer, st.buffer, t);
    forall s | s in At(st1.pending, t) ensures s in At(st.pending, t) { assert Holds(st1.pending, t, s); }
    forall s | s in At(st1.paused, t) ensures s in At(st.paused, t) { assert Holds(st1.paused, t, s); }
    Ordered4Thinned(Of(st.file, t), Of(st.buffer, t), At(st.pending, t), At(st.paused, t),
                    Of(st1.buffer, t), At(st1.pending, t), At(st1.paused, t));
    Parts(st1, t);
  }

  lemma ThinnedMember(st: State, st1: State, gone: set<Sample>, t: TypeName, s: Sample)
    requires Accounted(st, {}) && Thinned(st, st1, gone)
    ensures s in Line(st1, t) <==> s in Line(st, t) && s !in st1.dropped
  {
    Parts(st, t);
    Parts(st1, t);
    OfMember(st.file, t, s);
    OfMember(st.buffer, t, s);
    OfMember(st1.buffer, t, s);
    assert LineOk(st, {}, t);
    assert Holds(st1.pending, t, s) <==> Holds(st.pending, t, s) && s !in gone;
    assert Holds(st1.paused, t, s) <==> Holds(st.paused, t, s) && s !in gone;
    if s in gone || s in Line(st, t) { Apart(st, {}, s); }
  }

  lemma Prune(st: State, st1: State, gone: set<Sample>)
    requires Accounted(st, {}) && Thinned(st, st1, gone)
    ensures Accounted(st1, {})
  {
    forall s | s in gone ensures s in Line(st, s.typeName) { Apart(st, {}, s); }
    forall t ensures InOrder(Line(st1, t)) {
      assert LineOk(st, {}, t);
      ThinnedLine(st, st1, t);
    }
    forall t, s ensures s in Line(st1, t) <==> s in Line(st, t) && s !in st1.dropped {
      ThinnedMember(st, st1, gone, t, s);
    }
    DropFromLines(st, st1, {});
  }

  lemma {:induction false} RecentMember(ss: seq<Sample>, threshold: int, s: Sample)
    ensures s in Recent(ss, threshold) <==> s in ss && s.logTime >= threshold
  {
    if ss != [] { RecentMember(ss[1..], threshold, s); }
  }

  lemma {:induction false} RecentInOrder(ss: seq<Sample>, threshold: int)
    requires InOrder(ss)
    ensures InOrder(Recent(ss, threshold))
  {
    if ss != [] {
      RecentInOrder(ss[1..], threshold);
      forall s | s in Recent(ss[1..], threshold) ensures ss[0].id < s.id {
        RecentMember(ss[1..], threshold, s);
      }
    }
  }

  lemma {:induction false} OfRecent(ss: seq<Sample>, threshold: int, t: TypeName)
    ensures Of(Recent(ss, threshold), t) == Recent(Of(ss, t), threshold)
  {
    if ss != [] { OfRecent(ss[1..], threshold, t); }
  }

  lemma RemoveOutdatedStores(c: Config, st: State, now: int)
    ensures var r, th := RemoveOutdated(c, st, now), now - c.eventWindow;
            && (forall s :: s in r.buffer <==> s in st.buffer && s.logTime >= th)
            && (forall t, s :: Holds(r.paused, t, s) <==> Holds(st.paused, t, s) && s.logTime >= th)
  {
    var r, th := RemoveOutdated(c, st, now), now - c.eventWindow;
    forall s ensures s in r.buffer <==> s in st.buffer && s.logTime >= th { RecentMember(st.buffer, th, s); }
    forall t, s ensures Holds(r.paused, t, s) <==> Holds(st.paused, t, s) && s.logTime >= th {
      RecentMember(At(st.paused, t), th, s);
      assert At(r.paused, t) == Recent(At(st.paused, t), th);
    }
  }

  function Outdated(st: State, threshold: int): set<Sample> {
    (set s | s in st.buffer && s.logTime < threshold) + OutdatedAll(st.paused, threshold)
  }

  lemma OutdatedWhere(st: State, threshold: int, s: Sample)
    requires Accounted(st, {})
    ensures s in Outdated(st, threshold) <==> (InBuffer(st, s) || InPaused(st, s)) && s.logTime < threshold
    ensures s in Outdated(st, threshold) ==> s !in st.file && !InPending(st, s)
    ensures forall t :: Holds(st.pending, t, s) || Holds(st.paused, t, s) ==> s.typeName == t
  {
    if s in OutdatedAll(st.paused, threshold) { InLine(st, {}, s); }
    forall t | Holds(st.pending, t, s) || Holds(st.paused, t, s) ensures s.typeName == t { InLine(st, {}, s); }
    Apart(st, {}, s);
  }

  lemma {:induction false} RecentLineInOrder(st: State, threshold: int, t: TypeName)
    requires InOrder(Line(st, t))
    ensures InOrder(Of(Recent(st.buffer, threshold), t)) && InOrder(At(st.pending, t))
    ensures InOrder(At(RecentAll(st.paused, threshold), t))
  {
    Parts(st, t);
    OfRecent(st.buffer, threshold, t);
    RecentInOrder(Of(st.buffer, t), threshold);
    RecentInOrder(At(st.paused, t), threshold);
  }

  lemma OutdatedHolds(c: Config, st: State, now: int, t: TypeName, s: Sample)
    requires Accounted(st, {})
    ensures var r, gone := RemoveOutdated(c, st, now), Outdated(st, now - c.eventWindow);
            && (s in r.buffer <==> s in st.buffer && s !in gone)
            && (Holds(r.pending, t, s) <==> Holds(st.pending, t, s) && s !in gone)
            && (Holds(r.paused, t, s) <==> Holds(st.paused, t, s) && s !in gone)
            && (s in gone ==> InBuffer(st, s) || InPaused(st, s))
  {
    RemoveOutdatedStores(c, st, now);
    OutdatedWhere(st, now - c.eventWindow, s);
  }

  lemma RemoveOutdatedThins(c: Config, st: State, now: int)
    requires Accounted(st, {})
    ensures Thinned(st, RemoveOutdated(c, st, now), Outdated(st, now - c.eventWindow))
  {
    hide Of, Recent;
    var r, th := RemoveOutdated(c, st, now), now - c.eventWindow;
    var gone := Outdated(st, th);
    forall s ensures s in r.buffer <==> s in st.buffer && s !in gone { OutdatedHolds(c, st, now, s.typeName, s); }
    forall s | s in gone ensures InBuffer(st, s) || InPaused(st, s) { OutdatedHolds(c, st, now, s.typeName, s); }
    forall t, s
      ensures Holds(r.pending, t, s) <==> Holds(st.pending, t, s) && s !in gone
      ensures Holds(r.paused, t, s) <==> Holds(st.paused, t, s) && s !in gone
    {
      OutdatedHolds(c, st, now, t, s);
    }
    forall t ensures InOrder(Of(r.buffer, t)) && InOrder(At(r.pending, t)) && InOrder(At(r.paused, t)) {
      assert LineOk(st, {}, t);
      RecentLineInOrder(st, th, t);
    }
  }

  lemma OutdatedMayGo(c: Config, st: State, threshold: int)
    requires Accounted(st, {}) && Placed(c, st, {}) && PhaseOk(c, st) && st.phase == Paused
    ensures forall s :: s in Outdated(st, threshold) ==> FromPause(st.received, s)
  {
    forall s | s in Outdated(st, threshold) ensures FromPause(st.received, s) { OutdatedWhere(st, threshold, s); }
  }

  lemma RemoveOutdatedPlaced(c: Config, st: State, now: int)
    requires Accounted(st, {}) && Placed(c, st, {}) && PhaseOk(c, st) && st.phase == Paused
    ensures Placed(c, RemoveOutdated(c, st, now), {}) && PhaseOk(c, RemoveOutdated(c, st, now))
  {
    var r, th := RemoveOutdated(c, st, now), now - c.eventWindow;
    OutdatedMayGo(c, st, th);
    assert r.dropped == st.dropped + Outdated(st, th);
    RemoveOutdatedStores(c, st, now);
    OutdatedPausedPlaced(c, st, now);
  }

  lemma {:induction false} OutdatedPausedPlaced(c: Config, st: State, now: int)
    requires Placed(c, st, {})
    ensures var r := RemoveOutdated(c, st, now);
            forall t, s :: t in r.paused && s in r.paused[t] ==> FromPause(r.received, s) && Untyped(r.received, s)
  {
    hide FromPause, Untyped;
    var r := RemoveOutdated(c, st, now);
    RemoveOutdatedStores(c, st, now);
    forall t, s | t in r.paused && s in r.paused[t]
      ensures FromPause(r.received, s) && Untyped(r.received, s)
    {
      assert Holds(r.paused, t, s);
      assert Holds(st.paused, t, s);
    }
  }

  lemma RemoveOutdatedOk(c: Config, st: State, now: int)
    requires Inv(c, st) && st.phase == Paused
    ensures Inv(c, RemoveOutdated(c, st, now))
  {
    var r := RemoveOutdated(c, st, now);
    RemoveOutdatedThins(c, st, now);
    Prune(st, r, Outdated(st, now - c.eventWindow));
    RemoveOutdatedPlaced(c, st, now);
    assert forall s :: Triggered(st, s) ==> Triggered(r, s);
  }

  lemma ClearPausedOk(c: Config, st: State)
    requires Accounted(st, {}) && Placed(c, st, {})
    requires forall s :: s in st.buffer ==> FromPause(st.received, s)
    ensures Accounted(ClearPaused(st), {}) && Placed(c, ClearPaused(st), {})
  {
    var r := ClearPaused(st);
    var gone := (set s | s in st.buffer) + (set t, s | t in st.paused && s in st.paused[t] :: s);
    forall s | s in gone ensures (InBuffer(st, s) || InPaused(st, s)) && FromPause(st.received, s) {
      InLine(st, {}, s);
    }
    forall t, s | Holds(st.pending, t, s) ensures s !in gone {
      InLine(st, {}, s);
      Apart(st, {}, s);
    }
    forall t, s | Holds(st.paused, t, s) ensures s in gone {}
    forall t ensures InOrder(At(st.pending, t)) {
      Parts(st, t);
      assert LineOk(st, {}, t);
    }
    Prune(st, r, gone);
  }

  lemma ClearPendingOk(c: Config, st: State)
    requires Accounted(st, {}) && Placed(c, st, {}) && c.onlyWithSchema
    ensures Accounted(ClearPending(st), {}) && Placed(c, ClearPending(st), {})
  {
    var r := ClearPending(st);
    var gone := set t, s | t in st.pending && s in st.pending[t] :: s;
    forall s | s in gone ensures InPending(st, s) && Untyped(st.received, s) { InLine(st, {}, s); }
    forall s | s in st.buffer ensures s !in gone {
      InLine(st, {}, s);
      Apart(st, {}, s);
    }
    forall t, s | Holds(st.paused, t, s) ensures s !in gone {
      InLine(st, {}, s);
      Apart(st, {}, s);
    }
    forall t, s | Holds(st.pending, t, s) ensures s in gone {}
    forall t ensures InOrder(Of(st.buffer, t)) && InOrder(At(st.paused, t)) {
      Parts(st, t);
      assert LineOk(st, {}, t);
    }
    Prune(st, r, gone);
  }

  // ---- Dumping the pending samples of a type ----

  lemma DumpPendingStores(c: Config, st: State, t: TypeName)
    requires st.phase != Paused ==> st.paused == map[]
    ensures var r := DumpPending(c, st, t);
            && r == st.(buffer := r.buffer, file := r.file, pending := r.pending, paused := r.paused)
            && r.pending == st.pending - {t}
            && r.paused == (if st.phase == Paused then st.paused - {t} else map[])
            && (st.phase == Paused ==>
                  r.file == st.file + At(st.pending, t) && r.buffer == st.buffer + At(st.paused, t))
            && (st.phase != Paused ==> r.file + r.buffer == st.file + st.buffer + At(st.pending, t))
            && (st.phase == Running && PhaseOk(c, st) ==> PhaseOk(c, r))
  {
    var p, pp := At(st.pending, t), At(st.paused, t);
    AddAllOut(c, st, p);
    if t !in st.pending { assert st.pending - {t} == st.pending && st.file + st.buffer + p == st.file + st.buffer; }
    if st.phase == Paused {
      var st1 := if t in st.pending then st.(file := st.file + p, pending := st.pending - {t}) else st;
      assert st1.file == st.file + p;
      AddAllOut(c, st1, pp);
      if t !in st.paused { assert st.paused - {t} == st.paused && st.buffer + pp == st.buffer; }
    }
  }

  lemma {:induction false} OfDumpOther(f: seq<Sample>, b: seq<Sample>, p: seq<Sample>, q: seq<Sample>, t: TypeName,
                                       u: TypeName)
    requires u != t && forall s :: s in p || s in q ==> s.typeName == t
    ensures Of((f + p) + (b + q), u) == Of(f + b, u) == Of(f + b + p, u)
  {
    OfPure(p, t, u);
    OfPure(q, t, u);
    OfConcat(f + b, p, u);
    OfConcat(f, b, u);
    OfConcat(f + p, b + q, u);
    OfConcat(f, p, u);
    OfConcat(b, q, u);
    assert Of(f + p, u) == Of(f, u) && Of(b + q, u) == Of(b, u);
  }

  lemma {:induction false} OfDumpSame(f: seq<Sample>, b: seq<Sample>, p: seq<Sample>, q: seq<Sample>, t: TypeName)
    requires forall s :: s in p || s in q ==> s.typeName == t
    requires forall s :: s in b ==> s.typeName != t
    ensures Of((f + p) + (b + q), t) == Of(f + b, t) + p + q
  {
    OfPure(p, t, t);
    OfPure(q, t, t);
    OfNone(b, t);
    OfConcat(f, b, t);
    OfConcat(f, p, t);
    OfConcat(b, q, t);
    OfConcat(f + p, b + q, t);
    assert Of(f + b, t) == Of(f, t) && Of(b + q, t) == q;
  }

  lemma DumpPendingLine(c: Config, st: State, t: TypeName, u: TypeName)
    requires forall s :: s in At(st.pending, t) || s in At(st.paused, t) ==> s.typeName == t
    requires st.phase == Paused ==> forall s :: s in st.buffer ==> s.typeName != t
    requires st.phase != Paused ==> st.paused == map[]
    ensures Line(DumpPending(c, st, t), u) == Line(st, u)
  {
    DumpPendingStores(c, st, t);
    var f, b, p, q := st.file, st.buffer, At(st.pending, t), At(st.paused, t);
    if u != t {
      OfDumpOther(f, b, p, q, t, u);
    } else if st.phase == Paused {
      OfDumpSame(f, b, p, q, t);
    } else {
      OfConcat(f + b, p, t);
      OfPure(p, t, t);
    }
  }

  lemma DumpPendingOk(c: Config, st: State, t: TypeName)
    requires Accounted(st, {}) && Placed(c, st, {t})
    requires c.onlyWithSchema ==> t in st.known
    requires st.phase == Paused ==> forall s :: s in st.buffer ==> s.typeName != t
    requires st.phase != Paused ==> st.paused == map[]
    ensures Accounted(DumpPending(c, st, t), {}) && Placed(c, DumpPending(c, st, t), {})
  {
    var r := DumpPending(c, st, t);
    var p, pp := At(st.pending, t), At(st.paused, t);
    DumpPendingStores(c, st, t);
    forall s | s in p || s in pp ensures s.typeName == t { InLine(st, {}, s); }
    forall u ensures Line(r, u) == Line(st, u) { DumpPendingLine(c, st, t, u); }
    SameLines(st, r, {});
    forall x | x in r.file + r.buffer ensures x in st.file + st.buffer || x in p || x in pp {
      if st.phase != Paused { assert x in st.file + st.buffer + p; }
    }
  }

  lemma DiscoverOk(c: Config, st: State, t: TypeName)
    requires Inv(c, st)
    ensures Inv(c, DiscoverType(c, st, t))
  {
    if t !in st.known {
      var st0 := st.(known := st.known + {t});
      assert forall u :: Line(st0, u) == Line(st, u);
      SameLines(st, st0, {});
      assert PhaseOk(c, st0) && Windowed(st0) by {
        assert forall s :: Triggered(st, s) ==> Triggered(st0, s);
      }
      DumpPendingOk(c, st0, t);
      DumpPendingStores(c, st0, t);
      var r := DumpPending(c, st0, t);
      assert forall s :: Triggered(st, s) ==> Triggered(r, s);
      forall s | (s in r.file || (s in r.buffer && r.phase != Paused)) && FromPause(r.received, s)
        ensures Triggered(r, s) {
        assert s in r.file + r.buffer;
        assert s in st.file + st.buffer || s in At(st.pending, t);
        assert Triggered(st, s);
      }
      forall s | r.phase == Paused && s in r.buffer ensures s.typeName in r.known && FromPause(r.received, s) {
        if s !in st.buffer { InLine(st, {}, s); }
      }
    }
  }

  // ---- Servicing a trigger ----

  lemma MoveOneOk(c: Config, st: State, t: TypeName)
    requires Accounted(st, {}) && Placed(c, st, {}) && st.phase == Paused && At(st.paused, t) != []
    requires !(c.maxPending == 0 && c.onlyWithSchema)
    ensures var r := MoveOne(c, st, t);
            && Accounted(r, {}) && Placed(c, r, {})
            && r == st.(buffer := r.buffer, file := r.file, pending := r.pending, paused := r.paused,
                        dropped := r.dropped)
            && r.paused == st.paused[t := st.paused[t][1..]]
            && (forall u, s :: s in Line(r, u) ==> s in Line(st, u))
  {
    var s, rest := st.paused[t][0], st.paused[t][1..];
    assert st.paused[t] == [s] + rest;
    InLine(st, {}, s);
    assert t !in st.known;
    if c.maxPending != 0 {
      var st0 := st.(pending := st.pending[t := At(st.pending, t)]);
      assert forall u :: Line(st0, u) == Line(st, u);
      SameLines(st, st0, {});
      MakeRoomOk(c, st0, {}, t);
      var st1 := MakeRoom(c, st0, t);
      var r := st1.(pending := st1.pending[t := At(st1.pending, t) + [s]], paused := st.paused[t := rest]);
      assert r == MoveOne(c, st, t);
      MoveAcross(c, st1, r, t);
    } else {
      MoveOut(c, st, t);
    }
  }

  /** Front of the paused list to the back of the pending list. */
  lemma MoveAcross(c: Config, st: State, r: State, t: TypeName)
    requires Accounted(st, {}) && Placed(c, st, {}) && t !in st.known
    requires At(st.paused, t) != [] && |At(st.pending, t)| < c.maxPending
    requires r == st.(pending := st.pending[t := At(st.pending, t) + [st.paused[t][0]]],
                      paused := st.paused[t := st.paused[t][1..]])
    ensures Accounted(r, {}) && Placed(c, r, {})
    ensures forall u :: Line(r, u) == Line(st, u)
  {
    var s, rest := st.paused[t][0], st.paused[t][1..];
    assert st.paused[t] == [s] + rest;
    forall u ensures Line(r, u) == Line(st, u) {
      if u == t { assert Line(r, t) == Of(st.file + st.buffer, t) + (At(st.pending, t) + [s]) + rest; }
    }
    SameLines(st, r, {});
  }

  lemma MoveOutLine(c: Config, st: State, t: TypeName, u: TypeName)
    requires At(st.paused, t) != [] && st.paused[t][0].typeName == t && At(st.pending, t) == []
    ensures Line(AddToBuffer(c, st, st.paused[t][0]).(paused := st.paused[t := st.paused[t][1..]]), u) == Line(st, u)
  {
    hide Of, AddToBuffer;
    var s, rest := st.paused[t][0], st.paused[t][1..];
    assert st.paused[t] == [s] + rest;
    AddToBufferOut(c, st, s);
    OfConcat(st.file + st.buffer, [s], u);
    OfPure([s], t, u);
    var r := AddToBuffer(c, st, s).(paused := st.paused[t := rest]);
    assert Line(r, u) == Of(st.file + st.buffer + [s], u) + At(st.pending, u) +
           if u == t then rest else At(st.paused, u);
    if u != t {
      assert Of(st.file + st.buffer, u) + [] == Of(st.file + st.buffer, u);
    } else {
      MoveFront(Of(st.file + st.buffer, t), s, rest, []);
      assert Of(st.file + st.buffer, t) + [] == Of(st.file + st.buffer, t);
    }
  }

  /** Front of the paused list to the buffer, when there are no pending lists. */
  lemma MoveOut(c: Config, st: State, t: TypeName)
    requires Accounted(st, {}) && Placed(c, st, {}) && st.phase == Paused && At(st.paused, t) != []
    requires c.maxPending == 0 && !c.onlyWithSchema
    ensures var r := AddToBuffer(c, st, st.paused[t][0]).(paused := st.paused[t := st.paused[t][1..]]);
            && Accounted(r, {}) && Placed(c, r, {})
            && (forall u :: Line(r, u) == Line(st, u))
  {
    var r := AddToBuffer(c, st, st.paused[t][0]).(paused := st.paused[t := st.paused[t][1..]]);
    InLine(st, {}, st.paused[t][0]);
    AddToBufferOut(c, st, st.paused[t][0]);
    forall u ensures Line(r, u) == Line(st, u) { MoveOutLine(c, st, t, u); }
    SameLines(st, r, {});
  }

  lemma {:induction false} MoveListOk(c: Config, st: State, t: TypeName)
    requires Accounted(st, {}) && Placed(c, st, {}) && st.phase == Paused
    requires !(c.maxPending == 0 && c.onlyWithSchema)
    ensures var r := MoveList(c, st, t);
            && Accounted(r, {}) && Placed(c, r, {})
            && r == st.(buffer := r.buffer, file := r.file, pending := r.pending, paused := r.paused,
                        dropped := r.dropped)
            && r.paused.Keys == st.paused.Keys && At(r.paused, t) == []
            && (forall u :: u != t ==> At(r.paused, u) == At(st.paused, u))
            && (forall u, s :: s in Line(r, u) ==> s in Line(st, u))
    decreases |At(st.paused, t)|
  {
    if At(st.paused, t) != [] {
      MoveOneOk(c, st, t);
      MoveListOk(c, MoveOne(c, st, t), t);
    }
  }

  lemma {:induction false} MoveListsOk(c: Config, st: State, ks: set<TypeName>)
    requires Accounted(st, {}) && Placed(c, st, {}) && st.phase == Paused
    requires !(c.maxPending == 0 && c.onlyWithSchema)
    requires forall t :: t in st.paused && t !in ks ==> st.paused[t] == []
    ensures var r := MoveLists(c, st, ks);
            && Accounted(r, {}) && Placed(c, r, {})
            && r == st.(buffer := r.buffer, file := r.file, pending := r.pending, paused := r.paused,
                        dropped := r.dropped)
            && (forall t :: t in r.paused ==> r.paused[t] == [])
            && (forall u, s :: s in Line(r, u) ==> s in Line(st, u))
    decreases |ks|
  {
    if ks != {} {
      var t := MinKey(ks);
      var st1 := MoveList(c, st, t);
      MoveListOk(c, st, t);
      forall u | u in st1.paused && u !in ks - {t} ensures st1.paused[u] == [] {
        assert At(st1.paused, u) == [];
      }
      MoveListsOk(c, st1, ks - {t});
    }
  }

  lemma WriteBufferLines(st: State)
    requires Accounted(st, {})
    ensures Accounted(WriteBuffer(st), {})
    ensures forall u :: Line(WriteBuffer(st), u) == Line(st, u)
  {
    var r := WriteBuffer(st);
    assert r.file + r.buffer == st.file + st.buffer;
    assert forall u :: Line(r, u) == Line(st, u);
    SameLines(st, r, {});
  }

  /** Everything that passed the window filter of a trigger is inside the window of its record. */
  lemma InWindow(c: Config, st: State, now: int, u: TypeName, s: Sample)
    requires Inv(c, st) && st.phase == Paused
    ensures var st1 := RemoveOutdated(c, st, now);
            var st2 := st1.(triggers := st1.triggers + [TriggerRecord(|st1.received|, now - c.eventWindow)]);
            s in Line(st1, u) && FromPause(st1.received, s) ==> Triggered(st2, s)
  {
    var st1, th := RemoveOutdated(c, st, now), now - c.eventWindow;
    var st2 := st1.(triggers := st1.triggers + [TriggerRecord(|st1.received|, th)]);
    RemoveOutdatedOk(c, st, now);
    RemoveOutdatedStores(c, st, now);
    if s in Line(st1, u) && FromPause(st1.received, s) {
      assert LineOk(st1, {}, u);
      Apart(st1, {}, s);
      if s in st1.file || InPending(st1, s) {
        assert Triggered(st1, s);
        var k :| 0 <= k < |st1.triggers| && s.id < st1.triggers[k].seen && s.logTime >= st1.triggers[k].threshold;
        assert st2.triggers[k] == st1.triggers[k];
      } else {
        assert s in st1.buffer || Holds(st1.paused, u, s);
        assert st2.triggers[|st1.triggers|] == TriggerRecord(|st1.received|, th);
      }
    }
  }

  /** Writing the buffer once every held sample of the pause has passed a trigger's window. */
  lemma ServiceWrites(c: Config, st: State)
    requires Accounted(st, {}) && Placed(c, st, {}) && st.phase == Paused
    requires forall u, s :: s in Line(st, u) && FromPause(st.received, s) ==> Triggered(st, s)
    ensures Inv(c, WriteBuffer(st))
  {
    var r := WriteBuffer(st);
    WriteBufferLines(st);
    forall s | (s in r.file || exists t :: t in r.pending && s in r.pending[t]) && FromPause(r.received, s)
      ensures Triggered(r, s)
    {
      InLine(r, {}, s);
      assert s in Line(st, s.typeName);
      assert Triggered(st, s);
    }
    assert Placed(c, r, {}) && PhaseOk(c, r);
  }

  lemma {:induction false} ServiceMoves(c: Config, st: State)
    requires Accounted(st, {}) && Placed(c, st, {}) && st.phase == Paused
    requires forall u, s :: s in Line(st, u) && FromPause(st.received, s) ==> Triggered(st, s)
    requires !(c.maxPending == 0 && c.onlyWithSchema)
    ensures Inv(c, WriteBuffer(MoveLists(c, st, st.paused.Keys)))
  {
    var st1 := MoveLists(c, st, st.paused.Keys);
    MoveListsOk(c, st, st.paused.Keys);
    forall u, s | s in Line(st1, u) && FromPause(st1.received, s) ensures Triggered(st1, s) {
      assert s in Line(st, u);
      assert Triggered(st, s);
    }
    ServiceWrites(c, st1);
  }

  function WindowOpened(c: Config, st: State, now: int): State {
    var st1 := RemoveOutdated(c, st, now);
    st1.(triggers := st1.triggers + [TriggerRecord(|st1.received|, now - c.eventWindow)])
  }

  lemma RecordingOk(c: Config, st: State, rec: TriggerRecord)
    requires Accounted(st, {}) && Placed(c, st, {})
    ensures var r := st.(triggers := st.triggers + [rec]);
            Accounted(r, {}) && Placed(c, r, {}) && forall u :: Line(r, u) == Line(st, u)
  {
    var r := st.(triggers := st.triggers + [rec]);
    assert forall u :: Line(r, u) == Line(st, u);
    SameLines(st, r, {});
  }

  lemma WindowOpenedOk(c: Config, st: State, now: int)
    requires Inv(c, st) && st.phase == Paused
    ensures var st2 := WindowOpened(c, st, now);
            && Accounted(st2, {}) && Placed(c, st2, {}) && st2.phase == Paused
            && (forall u, s :: s in Line(st2, u) && FromPause(st2.received, s) ==> Triggered(st2, s))
  {
    var st1, st2 := RemoveOutdated(c, st, now), WindowOpened(c, st, now);
    RemoveOutdatedOk(c, st, now);
    RecordingOk(c, st1, TriggerRecord(|st1.received|, now - c.eventWindow));
    forall u, s | s in Line(st2, u) && FromPause(st2.received, s) ensures Triggered(st2, s) {
      InWindow(c, st, now, u, s);
    }
  }

  lemma ServiceOk(c: Config, st: State, now: int)
    requires Inv(c, st) && st.phase == Paused
    ensures Inv(c, ServiceTrigger(c, st, now))
  {
    var st2 := WindowOpened(c, st, now);
    WindowOpenedOk(c, st, now);
    if c.maxPending == 0 && c.onlyWithSchema { ServiceWrites(c, st2); } else { ServiceMoves(c, st2); }
  }

  // ---- Commands ----

  lemma WriteBufferOk(c: Config, st: State)
    requires Accounted(st, {}) && Placed(c, st, {})
    ensures Accounted(WriteBuffer(st), {}) && Placed(c, WriteBuffer(st), {})
  {
    WriteBufferLines(st);
  }

  lemma PhaseIsNotRead(c: Config, st: State, phase: Phase)
    requires Accounted(st, {}) && Placed(c, st, {})
    ensures Accounted(st.(phase := phase), {}) && Placed(c, st.(phase := phase), {})
  {
    assert forall u :: Line(st.(phase := phase), u) == Line(st, u);
    SameLines(st, st.(phase := phase), {});
  }

  lemma PauseOk(c: Config, st: State)
    requires Inv(c, st)
    ensures Inv(c, PauseHandler(st))
  {
    var st1 := st.(phase := Paused);
    PhaseIsNotRead(c, st, Paused);
    WriteBufferOk(c, st1);
    var r := PauseHandler(st);
    assert forall s :: Triggered(st, s) ==> Triggered(r, s);
    forall s | s in r.file && FromPause(r.received, s) ensures Triggered(r, s) {
      assert s in st.file || (st.phase == Running && s in st.buffer);
      assert Triggered(st, s);
    }
  }

  lemma StartOk(c: Config, st: State)
    requires Inv(c, st)
    ensures Inv(c, StartHandler(st))
  {
    var st1 := st.(phase := Running);
    PhaseIsNotRead(c, st, Running);
    if st.phase == Paused { ClearPausedOk(c, st1); }
    var r := StartHandler(st);
    assert forall s :: Triggered(st, s) ==> Triggered(r, s);
  }

  lemma {:induction false} DumpAllOk(c: Config, st: State)
    requires Accounted(st, {}) && Placed(c, st, {})
    requires st.phase == Stopped && st.paused == map[] && !c.onlyWithSchema
    ensures var r := DumpAllPending(c, st);
            && Accounted(r, {}) && Placed(c, r, {})
            && r == st.(buffer := r.buffer, file := r.file, pending := map[])
            && (forall s :: s in r.file + r.buffer ==>
                  s in st.file + st.buffer || exists t :: t in st.pending && s in st.pending[t])
    decreases |st.pending|
  {
    if st.pending != map[] {
      var t := MinKey(st.pending.Keys);
      var st1 := DumpPending(c, st, t);
      DumpPendingStores(c, st, t);
      DumpPendingOk(c, st, t);
      assert st1.pending.Keys == st.pending.Keys - {t};
      DumpAllOk(c, st1);
    }
  }

  lemma StopOk(c: Config, st: State)
    requires Inv(c, st)
    ensures Inv(c, StopHandler(c, st))
  {
    if st.phase != Stopped {
      var st1 := st.(phase := Stopped);
      PhaseIsNotRead(c, st, Stopped);
      var st2 := if st.phase == Paused then ClearPaused(st1) else st1;
      if st.phase == Paused { ClearPausedOk(c, st1); }
      assert st2.file + st2.buffer == st.file + if st.phase == Paused then [] else st.buffer;
      var st3 := if c.onlyWithSchema then ClearPending(st2) else DumpAllPending(c, st2);
      if c.onlyWithSchema { ClearPendingOk(c, st2); } else { DumpAllOk(c, st2); }
      WriteBufferOk(c, st3);
      var r := WriteBuffer(st3);
      assert forall s :: Triggered(st, s) ==> Triggered(r, s);
      forall s | s in r.file && FromPause(r.received, s) ensures Triggered(r, s) {
        assert s in st3.file + st3.buffer;
        assert s in st2.file + st2.buffer || exists t :: t in st.pending && s in st.pending[t];
        assert Triggered(st, s);
      }
    }
  }

  // ---- Every run ----

  lemma StepOk(c: Config, st: State, e: Event)
    requires Inv(c, st)
    ensures Inv(c, Step(c, st, e))
  {
    match e
    case Receive(t, logTime) => ProcessOk(c, st, t, logTime);
    case Discover(t) => DiscoverOk(c, st, t);
    case Start => StartOk(c, st);
    case Stop => StopOk(c, st);
    case Pause => PauseOk(c, st);
    case Service(now) => if st.phase == Paused { ServiceOk(c, st, now); }
    case Cleanup(now) => if st.phase == Paused { RemoveOutdatedOk(c, st, now); }
  }

  lemma {:induction false} RunOk(c: Config, es: seq<Event>)
    ensures Inv(c, Run(c, es))
    decreases |es|
  {
    if es == [] {
      assert forall t :: Line(INITIAL, t) == [];
      assert forall t :: LineOk(INITIAL, {}, t);
    } else {
      RunOk(c, es[..|es| - 1]);
      StepOk(c, Run(c, es[..|es| - 1]), es[|es| - 1]);
    }
  }
}
