/**
 The recording handler as a value: what every command, every received sample, every discovered
 type and every pass of the event thread does to the handler's stores.

 The state carries the stores of the handler (`buffer`, `pending`, `paused`, `known`) and the
 history a reader needs to judge it: what was received and in which phase, what reached the file,
 what was given up, and which event triggers were serviced.
*/
module HandlerModel {

  /** A type name, given as its rank in the order of `std::string`: only equality and that order matter. */
  type TypeName = nat

  datatype Phase = Stopped | Running | Paused

  datatype Config = Config(maxPending: nat, bufferSize: nat, eventWindow: nat, onlyWithSchema: bool)

  /** A sample; `id` is its place in the reception history and stands for the shared pointer's identity. */
  datatype Sample = Sample(id: nat, typeName: TypeName, logTime: int)

  datatype Reception = Reception(sample: Sample, phase: Phase, typeKnown: bool)

  /** A serviced trigger: how many samples had been received, and the oldest log time it kept. */
  datatype TriggerRecord = TriggerRecord(seen: nat, threshold: int)

  datatype State = State(
    phase: Phase,
    buffer: seq<Sample>,
    pending: map<TypeName, seq<Sample>>,
    paused: map<TypeName, seq<Sample>>,
    known: set<TypeName>,
    file: seq<Sample>,
    dropped: set<Sample>,
    received: seq<Reception>,
    triggers: seq<TriggerRecord>)

  const INITIAL := State(Stopped, [], map[], map[], {}, [], {}, [], [])

  datatype Event =
    | Receive(typeName: TypeName, logTime: int)
    | Discover(typeName: TypeName)
    | Start
    | Stop
    | Pause
    | Service(now: int)   // the event thread services an accepted trigger
    | Cleanup(now: int)   // the event thread times out

  /** `m[t]`, where a missing entry reads as the empty list. */
  function At(m: map<TypeName, seq<Sample>>, t: TypeName): seq<Sample> {
    if t in m then m[t] else []
  }

  /** The first key in `std::map` order. */
  function MinKey(ks: set<TypeName>): (k: TypeName)
    requires ks != {}
    ensures k in ks && forall j :: j in ks ==> k <= j
  {
    LeastExists(ks);
    var k :| k in ks && forall j :: j in ks ==> k <= j;
    k
  }

  lemma LeastExists(ks: set<TypeName>)
    requires ks != {}
    ensures exists k :: k in ks && forall j :: j in ks ==> k <= j
  {
    var k := Least(ks);
  }

  lemma Least(ks: set<TypeName>) returns (k: TypeName)
    requires ks != {}
    ensures k in ks && forall j :: j in ks ==> k <= j
  {
    var x :| x in ks;
    var rest := ks - {x};
    k := x;
    if rest != {} {
      var m := Least(rest);
      k := if m < x then m else x;
    }
    assert forall j :: j in ks ==> j == x || j in rest;
  }

  // ---- Stores ----

  function WriteBuffer(st: State): State {
    st.(file := st.file + st.buffer, buffer := [])
  }

  function AddToBuffer(c: Config, st: State, s: Sample): State {
    var st1 := st.(buffer := st.buffer + [s]);
    if st.phase != Running || |st1.buffer| < c.bufferSize then st1 else WriteBuffer(st1)
  }

  function AddAllToBuffer(c: Config, st: State, ss: seq<Sample>): State
    decreases |ss|
  {
    if ss == [] then st else AddAllToBuffer(c, AddToBuffer(c, st, ss[0]), ss[1..])
  }

  /** Takes the oldest pending sample of `t` out: to the buffer, or nowhere with `onlyWithSchema`. */
  function EvictOldest(c: Config, st: State, t: TypeName): State
    requires At(st.pending, t) != []
  {
    var oldest := st.pending[t][0];
    var st1 := st.(pending := st.pending[t := st.pending[t][1..]]);
    if c.onlyWithSchema then st1.(dropped := st1.dropped + {oldest}) else AddToBuffer(c, st1, oldest)
  }

  function MakeRoom(c: Config, st: State, t: TypeName): State
    requires c.maxPending != 0
    decreases |At(st.pending, t)|
  {
    if |At(st.pending, t)| >= c.maxPending then MakeRoom(c, EvictOldest(c, st, t), t) else st
  }

  function AddToPending(c: Config, st: State, s: Sample): State
    requires c.maxPending != 0
  {
    var t := s.typeName;
    var st1 := MakeRoom(c, st.(pending := st.pending[t := At(st.pending, t)]), t);
    st1.(pending := st1.pending[t := At(st1.pending, t) + [s]])
  }

  function DumpPending(c: Config, st: State, t: TypeName): State {
    var st1 :=
      if t !in st.pending then st
      else if st.phase == Paused then st.(file := st.file + st.pending[t], pending := st.pending - {t})
      else AddAllToBuffer(c, st, st.pending[t]).(pending := st.pending - {t});
    if st1.phase == Paused && t in st1.paused then
      AddAllToBuffer(c, st1, st1.paused[t]).(paused := st1.paused - {t})
    else st1
  }

  function DumpAllPending(c: Config, st: State): State
    requires st.phase != Paused
    decreases |st.pending|
  {
    if st.pending == map[] then st
    else
      var t := MinKey(st.pending.Keys);
      var st1 := DumpPending(c, st, t);
      AddAllFrame(c, st, st.pending[t]);
      assert st1.pending == st.pending - {t};
      assert st1.pending.Keys == st.pending.Keys - {t};
      DumpAllPending(c, st1)
  }

  lemma {:induction false} AddAllFrame(c: Config, st: State, ss: seq<Sample>)
    ensures var r := AddAllToBuffer(c, st, ss); r == st.(buffer := r.buffer, file := r.file)
    decreases |ss|
  {
    if ss != [] { AddAllFrame(c, AddToBuffer(c, st, ss[0]), ss[1..]); }
  }

  // ---- Samples and types ----

  function Process(c: Config, st: State, t: TypeName, logTime: int): State {
    if st.phase == Stopped then st
    else
      var s := Sample(|st.received|, t, logTime);
      var st1 := st.(received := st.received + [Reception(s, st.phase, t in st.known)]);
      if t in st.known then AddToBuffer(c, st1, s)
      else if st.phase == Running then
        if c.maxPending != 0 then AddToPending(c, st1, s)
        else if !c.onlyWithSchema then AddToBuffer(c, st1, s)
        else st1.(dropped := st1.dropped + {s})
      else st1.(paused := st1.paused[t := At(st1.paused, t) + [s]])
  }

  function DiscoverType(c: Config, st: State, t: TypeName): State {
    if t in st.known then st else DumpPending(c, st.(known := st.known + {t}), t)
  }

  // ---- The event thread ----

  function Recent(ss: seq<Sample>, threshold: int): seq<Sample> {
    if ss == [] then []
    else if ss[0].logTime < threshold then Recent(ss[1..], threshold)
    else [ss[0]] + Recent(ss[1..], threshold)
  }

  function RecentAll(m: map<TypeName, seq<Sample>>, threshold: int): map<TypeName, seq<Sample>> {
    map t | t in m :: Recent(m[t], threshold)
  }

  function OutdatedAll(m: map<TypeName, seq<Sample>>, threshold: int): set<Sample> {
    set t, s | t in m && s in m[t] && s.logTime < threshold :: s
  }

  function RemoveOutdated(c: Config, st: State, now: int): State {
    var threshold := now - c.eventWindow;
    st.(buffer := Recent(st.buffer, threshold),
        paused := RecentAll(st.paused, threshold),
        dropped := st.dropped + (set s | s in st.buffer && s.logTime < threshold) + OutdatedAll(st.paused, threshold))
  }

  function MoveOne(c: Config, st: State, t: TypeName): State
    requires At(st.paused, t) != []
    requires !(c.maxPending == 0 && c.onlyWithSchema)
  {
    var s := st.paused[t][0];
    var st1 := if c.maxPending != 0 then AddToPending(c, st, s) else AddToBuffer(c, st, s);
    st1.(paused := st.paused[t := st.paused[t][1..]])
  }

  function MoveList(c: Config, st: State, t: TypeName): State
    requires !(c.maxPending == 0 && c.onlyWithSchema)
    decreases |At(st.paused, t)|
  {
    if At(st.paused, t) == [] then st else MoveList(c, MoveOne(c, st, t), t)
  }

  function MoveLists(c: Config, st: State, ks: set<TypeName>): State
    requires !(c.maxPending == 0 && c.onlyWithSchema)
    decreases |ks|
  {
    if ks == {} then st
    else var t := MinKey(ks); MoveLists(c, MoveList(c, st, t), ks - {t})
  }

  function ServiceTrigger(c: Config, st: State, now: int): State {
    var st1 := RemoveOutdated(c, st, now);
    var st2 := st1.(triggers := st1.triggers + [TriggerRecord(|st1.received|, now - c.eventWindow)]);
    var st3 := if c.maxPending == 0 && c.onlyWithSchema then st2 else MoveLists(c, st2, st2.paused.Keys);
    WriteBuffer(st3)
  }

  // ---- Commands ----

  /** What is left of the buffer and the paused lists is given up when the event thread is stopped. */
  function ClearPaused(st: State): State {
    st.(buffer := [], paused := map[],
        dropped := st.dropped + (set s | s in st.buffer) + (set t, s | t in st.paused && s in st.paused[t] :: s))
  }

  /** Drops every pending sample. */
  function ClearPending(st: State): State {
    st.(pending := map[], dropped := st.dropped + (set t, s | t in st.pending && s in st.pending[t] :: s))
  }

  function StartHandler(st: State): State {
    var st1 := st.(phase := Running);
    if st.phase == Paused then ClearPaused(st1) else st1
  }

  function StopHandler(c: Config, st: State): State {
    if st.phase == Stopped then st
    else
      var st1 := st.(phase := Stopped);
      var st2 := if st.phase == Paused then ClearPaused(st1) else st1;
      WriteBuffer(if c.onlyWithSchema then ClearPending(st2) else DumpAllPending(c, st2))
  }

  function PauseHandler(st: State): State {
    var st1 := st.(phase := Paused);
    if st.phase == Running then WriteBuffer(st1) else st1
  }

  // ---- Runs ----

  function Step(c: Config, st: State, e: Event): State {
    match e
    case Receive(t, logTime) => Process(c, st, t, logTime)
    case Discover(t) => DiscoverType(c, st, t)
    case Start => StartHandler(st)
    case Stop => StopHandler(c, st)
    case Pause => PauseHandler(st)
    case Service(now) => if st.phase == Paused then ServiceTrigger(c, st, now) else st
    case Cleanup(now) => if st.phase == Paused then RemoveOutdated(c, st, now) else st
  }

  function Run(c: Config, es: seq<Event>): State
    decreases |es|
  {
    if es == [] then INITIAL else Step(c, Run(c, es[..|es| - 1]), es[|es| - 1])
  }

  lemma {:induction false} RunSnoc(c: Config, es: seq<Event>, e: Event)
    ensures Run(c, es + [e]) == Step(c, Run(c, es), e)
  {
    assert (es + [e])[..|es|] == es;
  }
}
