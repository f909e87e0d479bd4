/**
 The MCAP to SQL converter's batching: accepted messages are gathered into batches, a batch is cut
 into slices for workers with caches of their own, and the batches are written one after another.
*/
module SqlBatching {
  import opened Common

  type Handle = int

  /** A message on its way to the database. Before hydration it has no SQL times, JSON text or key. */
  datatype Message = Message(payload: int, logTime: int, publishTime: int, handle: Handle,
                             logTimeSql: string, publishTimeSql: string, json: string, key: string)

  /**
   What serialization yields, as functions: the instance handle if the type has one, the JSON text, and the key if it
   can be computed.
  */
  datatype Env = Env(known: set<string>, dependency: string -> bool,
                     handleOf: (string, int) -> Maybe<Handle>, jsonOf: (string, int) -> string,
                     keyOf: (string, string) -> Maybe<string>, sqlTime: int -> string)

  type Cache = map<Handle, string>

  // ---- One message ----

  predicate Rebuilds(env: Env, typeName: string) {
    typeName != "" && typeName in env.known && !env.dependency(typeName)
  }

  /** Everything but the key. */
  function Decoded(env: Env, m: Message, typeName: string): Message {
    var timed := m.(logTimeSql := env.sqlTime(m.logTime), publishTimeSql := env.sqlTime(m.publishTime));
    if !Rebuilds(env, typeName) then timed
    else
      var h := env.handleOf(typeName, m.payload);
      timed.(handle := if h.Some? then h.value else m.handle, json := env.jsonOf(typeName, m.payload))
  }

  /** The key computed from the message itself; a key that cannot be computed leaves the old one. */
  function OwnKey(env: Env, m: Message, typeName: string): string {
    var k := env.keyOf(typeName, env.jsonOf(typeName, m.payload));
    if k.Some? then k.value else m.key
  }

  /** A message hydrated with a worker's cache of keys, and the cache afterwards. */
  function Hydrate(env: Env, m: Message, typeName: string, cache: Cache): (Message, Cache) {
    var d := Decoded(env, m, typeName);
    if !Rebuilds(env, typeName) then (d, cache)
    else
      var h := env.handleOf(typeName, m.payload);
      if h.Some? && h.value in cache then (d.(key := cache[h.value]), cache)
      else
        var key := OwnKey(env, m, typeName);
        (d.(key := key), if h.Some? then cache[h.value := key] else cache)
  }

  /** A message hydrated on its own. */
  function Alone(env: Env, m: Message, typeName: string): Message {
    Hydrate(env, m, typeName, map[]).0
  }

  // ---- A range of messages ----

  /** One worker over a range, from an empty cache. */
  function Range(env: Env, msgs: seq<Message>, types: seq<string>): (r: (seq<Message>, Cache))
    requires |msgs| == |types|
    ensures |r.0| == |msgs|
  {
    if msgs == [] then ([], map[])
    else
      var n := |msgs| - 1;
      var (front, cache) := Range(env, msgs[..n], types[..n]);
      var (m, after) := Hydrate(env, msgs[n], types[n], cache);
      (front + [m], after)
  }

  function AllAlone(env: Env, msgs: seq<Message>, types: seq<string>): (r: seq<Message>)
    requires |msgs| == |types|
    ensures |r| == |msgs| && forall i :: 0 <= i < |msgs| ==> r[i] == Alone(env, msgs[i], types[i])
  {
    seq(|msgs|, i requires 0 <= i < |msgs| => Alone(env, msgs[i], types[i]))
  }

  /** The handle under which a message's key is shared. */
  function HandleOf(env: Env, m: Message, typeName: string): Maybe<Handle> {
    if Rebuilds(env, typeName) then env.handleOf(typeName, m.payload) else None
  }

  /** Two messages with the same handle have the same key of their own. */
  predicate Agree(env: Env, msgs: seq<Message>, types: seq<string>, i: nat, j: nat)
    requires |msgs| == |types| && i < |msgs| && j < |msgs|
  {
    HandleOf(env, msgs[i], types[i]).Some? && HandleOf(env, msgs[i], types[i]) == HandleOf(env, msgs[j], types[j]) ==>
      OwnKey(env, msgs[i], types[i]) == OwnKey(env, msgs[j], types[j])
  }

  predicate Coherent(env: Env, msgs: seq<Message>, types: seq<string>)
    requires |msgs| == |types|
  {
    forall i, j :: 0 <= i < j < |msgs| ==> Agree(env, msgs, types, i, j)
  }

  /** The first message of each handle, whose key the cache holds. */
  function FirstOf(env: Env, msgs: seq<Message>, types: seq<string>, h: Handle): (i: nat)
    requires |msgs| == |types|
    ensures i <= |msgs| && (i < |msgs| ==> HandleOf(env, msgs[i], types[i]) == Some(h))
    ensures forall j :: 0 <= j < i ==> HandleOf(env, msgs[j], types[j]) != Some(h)
  {
    if msgs == [] then 0
    else
      var n := |msgs| - 1;
      var i := FirstOf(env, msgs[..n], types[..n], h);
      if i < n || HandleOf(env, msgs[n], types[n]) == Some(h) then i else |msgs|
  }

  /** What a worker computes: each message decoded, with the key of the first message of its handle. */
  lemma {:induction false} RangeMeans(env: Env, msgs: seq<Message>, types: seq<string>, i: nat)
    requires |msgs| == |types| && i < |msgs|
    ensures var h := HandleOf(env, msgs[i], types[i]);
            var f := if h.Some? then FirstOf(env, msgs, types, h.value) else i;
            && f <= i
            && Range(env, msgs, types).0[i] ==
               if Rebuilds(env, types[i]) then Decoded(env, msgs[i], types[i]).(key := OwnKey(env, msgs[f], types[f]))
               else Decoded(env, msgs[i], types[i])
  {
    hide Decoded, OwnKey;
    var n := |msgs| - 1;
    if i < n {
      RangeMeans(env, msgs[..n], types[..n], i);
    } else {
      var h := HandleOf(env, msgs[n], types[n]);
      if h.Some? { CacheMeans(env, msgs[..n], types[..n], h.value); }
    }
  }

  lemma {:induction false} CacheMeans(env: Env, msgs: seq<Message>, types: seq<string>, h: Handle)
    requires |msgs| == |types|
    ensures var f := FirstOf(env, msgs, types, h);
            var cache := Range(env, msgs, types).1;
            if f < |msgs| then h in cache && cache[h] == OwnKey(env, msgs[f], types[f]) else h !in cache
  {
    hide Decoded, OwnKey;
    if msgs != [] {
      var n := |msgs| - 1;
      CacheMeans(env, msgs[..n], types[..n], h);
      var hn := HandleOf(env, msgs[n], types[n]);
      if hn.Some? && hn.value != h {
        CacheMeans(env, msgs[..n], types[..n], hn.value);
      }
    }
  }

  /** Sharing keys within a worker changes nothing exactly when equal handles mean equal keys. */
  lemma {:induction false} CacheIsInvisibleExactlyWhen(env: Env, msgs: seq<Message>, types: seq<string>)
    requires |msgs| == |types|
    ensures Range(env, msgs, types).0 == AllAlone(env, msgs, types) <==> Coherent(env, msgs, types)
  {
    hide Decoded, OwnKey, Range, FirstOf;
    if Coherent(env, msgs, types) {
      forall i | 0 <= i < |msgs|
        ensures Range(env, msgs, types).0[i] == Alone(env, msgs[i], types[i])
      {
        RangeMeans(env, msgs, types, i);
        var h := HandleOf(env, msgs[i], types[i]);
        var f := if h.Some? then FirstOf(env, msgs, types, h.value) else i;
        if f < i { assert Agree(env, msgs, types, f, i); }
      }
    }
    if Range(env, msgs, types).0 == AllAlone(env, msgs, types) {
      forall i, j | 0 <= i < j < |msgs|
        ensures Agree(env, msgs, types, i, j)
      {
        RangeMeans(env, msgs, types, i);
        RangeMeans(env, msgs, types, j);
        assert AllAlone(env, msgs, types)[i].key == Alone(env, msgs[i], types[i]).key;
        assert AllAlone(env, msgs, types)[j].key == Alone(env, msgs[j], types[j]).key;
      }
    }
  }

  // ---- Slices ----

  const MIN_MESSAGES_PER_WORKER := 512

  function WorkerCount(n: nat, hardwareThreads: nat): (w: nat)
    ensures w >= 1
  {
    Max(1, Min(Max(1, hardwareThreads), (n + MIN_MESSAGES_PER_WORKER - 1) / MIN_MESSAGES_PER_WORKER))
  }

  /**
   As many workers as there are threads, at least one, and none beyond the first without 512 messages before its own.
  */
  lemma WorkerCountMeans(n: nat, hardwareThreads: nat)
    ensures var w := WorkerCount(n, hardwareThreads);
            && 1 <= w <= Max(1, hardwareThreads) && (w > 1 ==> 512 * (w - 1) < n)
            && (w < hardwareThreads ==> n <= 512 * w)
  {}

  type Slice = (nat, nat)

  /** The slices follow one another from `0` to `n`: no index is in two of them and none is missing. */
  predicate Cuts(slices: seq<Slice>, n: nat) {
    if slices == [] then n == 0
    else
      var (begin, end) := slices[|slices| - 1];
      begin < end == n && Cuts(slices[..|slices| - 1], begin)
  }

  /** Every index lies in exactly one slice. */
  lemma {:induction false} CutsCover(slices: seq<Slice>, n: nat, i: nat) returns (k: nat)
    requires Cuts(slices, n) && i < n
    ensures k < |slices| && slices[k].0 <= i < slices[k].1
    ensures forall j :: 0 <= j < |slices| && slices[j].0 <= i < slices[j].1 ==> j == k
    ensures forall j :: 0 <= j < |slices| ==> slices[j].0 < slices[j].1 <= n
  {
    var last := |slices| - 1;
    CutsBound(slices[..last], slices[last].0);
    if slices[last].0 <= i {
      k := last;
    } else {
      k := CutsCover(slices[..last], slices[last].0, i);
    }
  }

  lemma {:induction false} CutsBound(slices: seq<Slice>, n: nat)
    requires Cuts(slices, n)
    ensures forall j :: 0 <= j < |slices| ==> slices[j].0 < slices[j].1 <= n
  {
    if slices != [] { CutsBound(slices[..|slices| - 1], slices[|slices| - 1].0); }
  }

  /** Where the last part starts when `n` things are dealt out in parts of `size`, in order; `0` means one part. */
  function LastStart(n: nat, size: nat): (begin: nat)
    requires n > 0
    ensures begin < n && (size > 0 ==> n - begin <= size)
  {
    if size == 0 || n <= size then 0 else size + LastStart(n - size, size)
  }

  /** The slices of a batch, as the loop cuts them. */
  function SlicesOf(n: nat, size: nat): (slices: seq<Slice>)
    ensures Cuts(slices, n)
  {
    if n == 0 then []
    else
      var begin := LastStart(n, size);
      var front := SlicesOf(begin, size);
      assert (front + [(begin, n)])[..|front|] == front;
      front + [(begin, n)]
  }

  lemma {:induction false} LastStartIs(k: nat, size: nat, m: nat)
    requires 0 < m <= size
    ensures LastStart(k * size + m, size) == k * size
  {
    if k > 0 {
      assert k * size + m - size == (k - 1) * size + m;
      assert (k - 1) * size >= 0;
      LastStartIs(k - 1, size, m);
    }
  }

  lemma {:induction false} SlicesMore(k: nat, size: nat, m: nat)
    requires 0 < m <= size
    ensures SlicesOf(k * size + m, size) == SlicesOf(k * size, size) + [(k * size, k * size + m)]
  {
    hide LastStart;
    LastStartIs(k, size, m);
  }

  function SliceSize(n: nat, w: nat): nat
    requires w >= 1
  {
    (n + w - 1) / w
  }

  /** The loop that cuts a batch of `n` messages for `w` workers. */
  method Slices(n: nat, w: nat) returns (slices: seq<Slice>)
    requires w >= 1
    ensures Cuts(slices, n) && |slices| <= w
    ensures slices == SlicesOf(n, SliceSize(n, w))
  {
    hide Cuts, SlicesOf, SliceSize;
    slices := [];
    var sliceSize := SliceSize(n, w);
    assert SlicesOf(0, sliceSize) == [] by { NoSlices(sliceSize); }
    if n == 0 {
      return;
    }
    CeilingCovers(n, w);
    ghost var covered := 0;
    for i := 0 to w
      invariant |slices| <= i && covered == Min(n, i * sliceSize) && slices == SlicesOf(covered, sliceSize)
    {
      var begin := i * sliceSize;
      if begin >= n {
        return;
      }
      var end := Min(n, begin + sliceSize);
      SlicesMore(i, sliceSize, end - begin);
      slices := slices + [(begin, end)];
      covered := end;
      assert (i + 1) * sliceSize == begin + sliceSize;
    }
  }

  lemma {:induction false} NoSlices(size: nat)
    ensures SlicesOf(0, size) == []
  {}

  lemma {:induction false} CeilingCovers(n: nat, w: nat)
    requires w >= 1 && n >= 1
    ensures SliceSize(n, w) >= 1 && w * SliceSize(n, w) >= n
  {
    var size := (n + w - 1) / w;
    assert (n + w - 1) == w * size + (n + w - 1) % w;
    assert w * 0 == 0;
  }

  // ---- Hydration in place ----

  method HydrateOne(env: Env, m: Message, typeName: string, keys: Cache) returns (hydrated: Message, after: Cache)
    ensures (hydrated, after) == Hydrate(env, m, typeName, keys)
  {
    hide Decoded, OwnKey;
    hydrated, after := Decoded(env, m, typeName), keys;
    if !Rebuilds(env, typeName) {
      return;
    }
    var h := env.handleOf(typeName, m.payload);
    if h.Some? && h.value in keys {
      hydrated := hydrated.(key := keys[h.value]);
    } else {
      var key := OwnKey(env, m, typeName);
      hydrated := hydrated.(key := key);
      if h.Some? {
        after := keys[h.value := key];
      }
    }
  }

  lemma {:induction false} RangeSnoc(env: Env, msgs: seq<Message>, types: seq<string>, n: nat)
    requires n < |msgs| == |types|
    ensures var (front, cache) := Range(env, msgs[..n], types[..n]);
            var (m, after) := Hydrate(env, msgs[n], types[n], cache);
            Range(env, msgs[..n + 1], types[..n + 1]) == (front + [m], after)
  {
    hide Hydrate;
    assert msgs[..n + 1][..n] == msgs[..n] && types[..n + 1][..n] == types[..n];
  }

  /** One worker's loop over `[begin, end)`, with a cache of its own. */
  method HydrateRange(env: Env, messages: array<Message>, types: seq<string>, begin: nat, end: nat)
    requires begin <= end <= messages.Length == |types|
    modifies messages
    ensures messages[begin..end] == Range(env, old(messages[begin..end]), types[begin..end]).0
    ensures forall k :: 0 <= k < messages.Length && !(begin <= k < end) ==> messages[k] == old(messages[k])
  {
    hide Hydrate, Range;
    var keys: Cache := map[];
    ghost var msgs, names := messages[begin..end], types[begin..end];
    assert messages[begin..begin] == [] && msgs[..0] == [] && names[..0] == [];
    NothingHydrated(env);
    for i := begin to end
      invariant forall k :: 0 <= k < messages.Length && !(begin <= k < i) ==> messages[k] == old(messages[k])
      invariant (messages[begin..i], keys) == Range(env, msgs[..i - begin], names[..i - begin])
    {
      RangeSnoc(env, msgs, names, i - begin);
      messages[i], keys := HydrateOne(env, messages[i], types[i], keys);
      assert messages[begin..i + 1] == messages[begin..i] + [messages[i]];
    }
    assert msgs[..end - begin] == msgs && names[..end - begin] == names;
  }

  lemma {:induction false} NothingHydrated(env: Env)
    ensures Range(env, [], []) == ([], map[])
  {}

  ghost predicate SliceDone(env: Env, before: seq<Message>, types: seq<string>, slice: Slice, after: seq<Message>)
    requires |before| == |types| == |after|
  {
    slice.0 <= slice.1 <= |before|
    && after[slice.0..slice.1] == Range(env, before[slice.0..slice.1], types[slice.0..slice.1]).0
  }

  /** What a batch becomes: each slice as its worker leaves it. */
  function Sliced(env: Env, msgs: seq<Message>, types: seq<string>, slices: seq<Slice>): (r: seq<Message>)
    requires |msgs| == |types| && Cuts(slices, |msgs|)
    ensures |r| == |msgs|
    decreases |slices|
  {
    if slices == [] then []
    else
      var begin := slices[|slices| - 1].0;
      Sliced(env, msgs[..begin], types[..begin], slices[..|slices| - 1]) + Range(env, msgs[begin..], types[begin..]).0
  }

  /** Every slice being done settles the whole batch. */
  lemma {:induction false} DoneIsSliced(env: Env, before: seq<Message>, types: seq<string>, slices: seq<Slice>,
                                        after: seq<Message>)
    requires |before| == |types| == |after| && Cuts(slices, |before|)
    requires forall k :: 0 <= k < |slices| ==> SliceDone(env, before, types, slices[k], after)
    ensures after == Sliced(env, before, types, slices)
    decreases |slices|
  {
    hide Range;
    if slices != [] {
      var front := slices[..|slices| - 1];
      var (begin, end) := slices[|slices| - 1];
      CutsBound(front, begin);
      forall k | 0 <= k < |front|
        ensures SliceDone(env, before[..begin], types[..begin], front[k], after[..begin])
      {
        SliceOfFront(env, before, types, slices[k], after, begin);
      }
      DoneIsSliced(env, before[..begin], types[..begin], front, after[..begin]);
      assert SliceDone(env, before, types, slices[|slices| - 1], after);
      assert before[begin..end] == before[begin..] && types[begin..end] == types[begin..]
             && after[begin..end] == after[begin..];
      assert after == after[..begin] + after[begin..];
    }
  }

  lemma SliceOfFront(env: Env, before: seq<Message>, types: seq<string>, slice: Slice, after: seq<Message>, begin: nat)
    requires |before| == |types| == |after| && slice.1 <= begin <= |before|
             && SliceDone(env, before, types, slice, after)
    ensures SliceDone(env, before[..begin], types[..begin], slice, after[..begin])
  {
    hide Range;
    assert before[..begin][slice.0..slice.1] == before[slice.0..slice.1];
    assert types[..begin][slice.0..slice.1] == types[slice.0..slice.1];
    assert after[..begin][slice.0..slice.1] == after[slice.0..slice.1];
  }

  /** A part of a coherent batch is coherent. */
  lemma {:induction false} CoherentSlice(env: Env, msgs: seq<Message>, types: seq<string>, begin: nat, end: nat)
    requires |msgs| == |types| && begin <= end <= |msgs| && Coherent(env, msgs, types)
    ensures Coherent(env, msgs[begin..end], types[begin..end])
  {
    hide OwnKey, HandleOf;
    forall i, j | 0 <= i < j < end - begin
      ensures Agree(env, msgs[begin..end], types[begin..end], i, j)
    {
      assert Agree(env, msgs, types, begin + i, begin + j);
    }
  }

  /** However a coherent batch is sliced, every message comes out as if hydrated alone. */
  lemma {:induction false} SlicingIsInvisible(env: Env, msgs: seq<Message>, types: seq<string>, slices: seq<Slice>)
    requires |msgs| == |types| && Cuts(slices, |msgs|) && Coherent(env, msgs, types)
    ensures Sliced(env, msgs, types, slices) == AllAlone(env, msgs, types)
    decreases |slices|
  {
    hide Coherent, Range, AllAlone;
    if slices == [] {
      NoneAlone(env, msgs, types);
    } else {
      var begin := slices[|slices| - 1].0;
      InTwo(msgs, types, begin);
      CoherentParts(env, msgs[..begin], types[..begin], msgs[begin..], types[begin..]);
      AllAloneConcat(env, msgs[..begin], types[..begin], msgs[begin..], types[begin..]);
      SlicingIsInvisible(env, msgs[..begin], types[..begin], slices[..|slices| - 1]);
      CacheIsInvisibleExactlyWhen(env, msgs[begin..], types[begin..]);
    }
  }

  lemma {:induction false} NoneAlone(env: Env, msgs: seq<Message>, types: seq<string>)
    requires msgs == [] && types == []
    ensures AllAlone(env, msgs, types) == []
  {}

  lemma InTwo(msgs: seq<Message>, types: seq<string>, begin: nat)
    requires begin <= |msgs| == |types|
    ensures msgs == msgs[..begin] + msgs[begin..] && types == types[..begin] + types[begin..]
  {}

  /** Slices of one message each hydrate every message alone. */
  lemma {:induction false} SingletonsAreAlone(env: Env, msgs: seq<Message>, types: seq<string>)
    requires |msgs| == |types|
    ensures Sliced(env, msgs, types, SlicesOf(|msgs|, 1)) == AllAlone(env, msgs, types)
    decreases |msgs|
  {
    hide Range, AllAlone;
    if msgs == [] {
      NoneAlone(env, msgs, types);
    } else {
      var begin := |msgs| - 1;
      LastStartIs(begin, 1, 1);
      SlicedInTwo(env, msgs, types, 1);
      SingletonsAreAlone(env, msgs[..begin], types[..begin]);
      InTwo(msgs, types, begin);
      OneAlone(env, msgs[begin..], types[begin..]);
      AllAloneConcat(env, msgs[..begin], types[..begin], msgs[begin..], types[begin..]);
    }
  }

  /** The last slice apart from the others. */
  lemma {:induction false} SlicedInTwo(env: Env, msgs: seq<Message>, types: seq<string>, size: nat)
    requires |msgs| == |types| && msgs != []
    ensures var begin := LastStart(|msgs|, size);
            Sliced(env, msgs, types, SlicesOf(|msgs|, size)) ==
            Sliced(env, msgs[..begin], types[..begin], SlicesOf(begin, size)) +
                Range(env, msgs[begin..], types[begin..]).0
  {
    hide Range;
    var begin, slices := LastStart(|msgs|, size), SlicesOf(|msgs|, size);
    assert slices[..|slices| - 1] == SlicesOf(begin, size);
  }

  lemma {:induction false} OneAlone(env: Env, msgs: seq<Message>, types: seq<string>)
    requires |msgs| == |types| == 1
    ensures Range(env, msgs, types).0 == AllAlone(env, msgs, types)
    ensures Coherent(env, msgs, types)
  {
    CacheIsInvisibleExactlyWhen(env, msgs, types);
  }

  /** A single slice is one worker's range. */
  lemma {:induction false} WholeIsRange(env: Env, msgs: seq<Message>, types: seq<string>)
    requires |msgs| == |types|
    ensures Sliced(env, msgs, types, SlicesOf(|msgs|, |msgs|)) == Range(env, msgs, types).0
  {
    hide Range;
    if msgs == [] {
      NothingHydrated(env);
    } else {
      SlicedInTwo(env, msgs, types, |msgs|);
      assert msgs[0..] == msgs && types[0..] == types;
    }
  }

  /** All ways to slice a batch give the same messages exactly when equal handles mean equal keys. */
  lemma {:induction false} SlicesMatterExactlyWhen(env: Env, msgs: seq<Message>, types: seq<string>)
    requires |msgs| == |types|
    ensures (forall x, y :: Cuts(x, |msgs|) && Cuts(y, |msgs|) ==>
             Sliced(env, msgs, types, x) == Sliced(env, msgs, types, y))
            <==> Coherent(env, msgs, types)
  {
    hide Coherent, Range, Sliced, SlicesOf, AllAlone;
    if Coherent(env, msgs, types) {
      forall x, y | Cuts(x, |msgs|) && Cuts(y, |msgs|)
        ensures Sliced(env, msgs, types, x) == Sliced(env, msgs, types, y)
      {
        SlicingIsInvisible(env, msgs, types, x);
        SlicingIsInvisible(env, msgs, types, y);
      }
    } else {
      SingletonsAreAlone(env, msgs, types);
      WholeIsRange(env, msgs, types);
      CacheIsInvisibleExactlyWhen(env, msgs, types);
      assert Cuts(SlicesOf(|msgs|, 1), |msgs|) && Cuts(SlicesOf(|msgs|, |msgs|), |msgs|);
    }
  }

  function UpTo(n: nat): (r: set<nat>)
    ensures forall k :: k in r <==> 0 <= k < n
  {
    if n == 0 then {} else UpTo(n - 1) + {n - 1}
  }

  /** While workers run: the slices no longer waiting are done, the waiting ones untouched. */
  ghost predicate Midway(env: Env, before: seq<Message>, types: seq<string>, slices: seq<Slice>, waiting: set<nat>,
                         now: seq<Message>) {
    && |before| == |types| == |now|
    && forall k :: 0 <= k < |slices| ==>
         slices[k].0 <= slices[k].1 <= |before|
         && if k in waiting then Untouched(before, now, slices[k]) else SliceDone(env, before, types, slices[k], now)
  }

  ghost predicate Untouched(was: seq<Message>, now: seq<Message>, slice: Slice)
    requires slice.0 <= slice.1 <= |was| == |now|
  {
    was[slice.0..slice.1] == now[slice.0..slice.1]
  }

  lemma {:induction false} SlicesApart(slices: seq<Slice>, n: nat, j: nat, k: nat)
    requires Cuts(slices, n) && j < |slices| && k < |slices| && j != k
    ensures slices[j].1 <= slices[k].0 || slices[k].1 <= slices[j].0
  {
    CutsBound(slices, n);
    if slices[j].1 > slices[k].0 && slices[k].1 > slices[j].0 {
      var i := Max(slices[j].0, slices[k].0);
      var c := CutsCover(slices, n, i);
    }
  }

  /** One worker finishing leaves every other slice as it was. */
  lemma {:induction false} WorkerFinished(env: Env, before: seq<Message>, types: seq<string>, slices: seq<Slice>,
                                          waiting: set<nat>,
                                          was: seq<Message>, k: nat, now: seq<Message>)
    requires Midway(env, before, types, slices, waiting, was) && Cuts(slices, |before|) && k < |slices| && k in waiting
    requires |now| == |was|
    requires now[slices[k].0..slices[k].1] ==
             Range(env, was[slices[k].0..slices[k].1], types[slices[k].0..slices[k].1]).0
    requires forall i :: 0 <= i < |now| && !(slices[k].0 <= i < slices[k].1) ==> now[i] == was[i]
    ensures Midway(env, before, types, slices, waiting - {k}, now)
  {
    hide Range, Cuts;
    forall j | 0 <= j < |slices| && j != k
      ensures Untouched(was, now, slices[j])
    {
      SlicesApart(slices, |before|, j, k);
    }
    assert Untouched(before, was, slices[k]);
    assert SliceDone(env, before, types, slices[k], now);
  }

  lemma {:induction false} WorkersStart(env: Env, before: seq<Message>, types: seq<string>, slices: seq<Slice>)
    requires |before| == |types| && Cuts(slices, |before|)
    ensures Midway(env, before, types, slices, UpTo(|slices|), before)
  {
    CutsBound(slices, |before|);
  }

  /** What hydration makes of a batch on hardware with so many threads. */
  function Hydrated(env: Env, msgs: seq<Message>, types: seq<string>, hardwareThreads: nat): (r: seq<Message>)
    requires |msgs| == |types|
    ensures |r| == |msgs|
  {
    Sliced(env, msgs, types, BatchSlices(|msgs|, hardwareThreads))
  }

  function BatchSlices(n: nat, hardwareThreads: nat): (slices: seq<Slice>)
    ensures Cuts(slices, n)
  {
    SlicesOf(n, SliceSize(n, WorkerCount(n, hardwareThreads)))
  }

  /** Hydrates a batch in slices. The workers finish in any order; no slice touches another. */
  method HydrateBatch(env: Env, messages: array<Message>, types: seq<string>, hardwareThreads: nat)
    requires messages.Length == |types|
    modifies messages
    ensures messages[..] == Hydrated(env, old(messages[..]), types, hardwareThreads)
  {
    hide Range, Cuts, SliceDone, Untouched, Sliced, SlicesOf;
    var workers := WorkerCount(messages.Length, hardwareThreads);
    var cut := Slices(messages.Length, workers);
    ghost var before := messages[..];
    var waiting := UpTo(|cut|);
    WorkersStart(env, before, types, cut);
    while waiting != {}
      invariant waiting <= UpTo(|cut|) && Midway(env, before, types, cut, waiting, messages[..])
      decreases waiting
    {
      var k :| k in waiting;
      ghost var was := messages[..];
      HydrateRange(env, messages, types, cut[k].0, cut[k].1);
      WorkerFinished(env, before, types, cut, waiting, was, k, messages[..]);
      waiting := waiting - {k};
    }
    DoneIsSliced(env, before, types, cut, messages[..]);
  }

  // ---- The conversion loop ----

  /**
   A message as read from the file, and what the loop decides from: whether its topic is known and its writer filtered
   out.
  */
  datatype Record = Record(topicKnown: bool, writerFiltered: bool, message: Message, typeName: string)

  predicate Accepts(r: Record) { r.topicKnown && !r.writerFiltered }

  function AcceptedMessages(records: seq<Record>): seq<Message> {
    if records == [] then []
    else AcceptedMessages(records[..|records| - 1])
         + if Accepts(records[|records| - 1]) then [records[|records| - 1].message] else []
  }

  /** The type names kept beside the messages: empty for a type that is not available. */
  function AcceptedTypes(env: Env, records: seq<Record>): (t: seq<string>)
    ensures |t| == |AcceptedMessages(records)|
  {
    if records == [] then []
    else AcceptedTypes(env, records[..|records| - 1])
         + if Accepts(records[|records| - 1]) then [TypeName(env, records[|records| - 1])] else []
  }

  function TypeName(env: Env, r: Record): string {
    if r.typeName in env.known then r.typeName else ""
  }

  function Flatten(batches: seq<seq<Message>>): seq<Message> {
    if batches == [] then [] else Flatten(batches[..|batches| - 1]) + batches[|batches| - 1]
  }

  lemma {:induction false} FlattenSnoc(batches: seq<seq<Message>>, b: seq<Message>)
    ensures Flatten(batches + [b]) == Flatten(batches) + b
  {
    assert (batches + [b])[..|batches|] == batches;
  }

  /** Every batch but the last is full, and none is empty or too long. */
  predicate WellSized(batches: seq<seq<Message>>, batchSize: nat) {
    && (forall b :: 0 <= b < |batches| ==> batches[b] != [])
    && if batchSize == 0 then |batches| <= 1
       else forall b :: 0 <= b < |batches| ==>
             |batches[b]| <= batchSize && (b < |batches| - 1 ==> |batches[b]| == batchSize)
  }

  predicate SameButKey(env: Env, m: Message, typeName: string, written: Message) {
    && written.(key := "") == Alone(env, m, typeName).(key := "")
    && (!Rebuilds(env, typeName) ==> written.key == m.key)
  }

  /** The messages written so far are the accepted ones, each with its own key if the file is coherent. */
  ghost predicate WrittenAs(env: Env, msgs: seq<Message>, types: seq<string>, out: seq<Message>) {
    && |msgs| == |types| == |out|
    && (forall i :: 0 <= i < |msgs| ==> SameButKey(env, msgs[i], types[i], out[i]))
    && (Coherent(env, msgs, types) ==> out == AllAlone(env, msgs, types))
  }

  lemma {:induction false} NothingWritten(env: Env)
    ensures WrittenAs(env, [], [], Flatten([]))
  {}

  lemma {:induction false} MoreWritten(env: Env, msgs: seq<Message>, types: seq<string>, out: seq<Message>,
                                       pending: seq<Message>, names: seq<string>, batch: seq<Message>)
    requires WrittenAs(env, msgs, types, out) && WrittenAs(env, pending, names, batch)
    ensures WrittenAs(env, msgs + pending, types + names, out + batch)
  {
    hide SameButKey, Coherent, AllAlone;
    if Coherent(env, msgs + pending, types + names) {
      CoherentParts(env, msgs, types, pending, names);
      AllAloneConcat(env, msgs, types, pending, names);
    }
    forall i | 0 <= i < |msgs + pending|
      ensures SameButKey(env, (msgs + pending)[i], (types + names)[i], (out + batch)[i])
    {
      if i < |msgs| {
        assert SameButKey(env, msgs[i], types[i], out[i]);
      } else {
        assert SameButKey(env, pending[i - |msgs|], names[i - |msgs|], batch[i - |msgs|]);
      }
    }
  }

  lemma {:induction false} AllAloneConcat(env: Env, msgs: seq<Message>, types: seq<string>, pending: seq<Message>,
                                          names: seq<string>)
    requires |msgs| == |types| && |pending| == |names|
    ensures AllAlone(env, msgs + pending, types + names) == AllAlone(env, msgs, types) + AllAlone(env, pending, names)
  {
    hide Alone;
  }

  lemma {:induction false} CoherentParts(env: Env, msgs: seq<Message>, types: seq<string>, pending: seq<Message>,
                                         names: seq<string>)
    requires |msgs| == |types| && |pending| == |names| && Coherent(env, msgs + pending, types + names)
    ensures Coherent(env, msgs, types) && Coherent(env, pending, names)
  {
    hide Coherent;
    var n, total := |msgs|, |msgs| + |pending|;
    CoherentSlice(env, msgs + pending, types + names, 0, n);
    CoherentSlice(env, msgs + pending, types + names, n, total);
    assert (msgs + pending)[0..n] == msgs && (types + names)[0..n] == types;
    assert (msgs + pending)[n..total] == pending && (types + names)[n..total] == names;
  }

  /** Even with shared keys, only the key of a message can depend on the batch. */
  lemma {:induction false} SlicedIsWritten(env: Env, msgs: seq<Message>, types: seq<string>, slices: seq<Slice>)
    requires |msgs| == |types| && Cuts(slices, |msgs|)
    ensures WrittenAs(env, msgs, types, Sliced(env, msgs, types, slices))
    decreases |slices|
  {
    hide Range, WrittenAs;
    if slices == [] {
      NothingWritten(env);
      assert msgs == [] && types == [];
    } else {
      var begin := slices[|slices| - 1].0;
      InTwo(msgs, types, begin);
      SlicedIsWritten(env, msgs[..begin], types[..begin], slices[..|slices| - 1]);
      RangeIsWritten(env, msgs[begin..], types[begin..]);
      MoreWritten(env, msgs[..begin], types[..begin],
                  Sliced(env, msgs[..begin], types[..begin], slices[..|slices| - 1]),
                  msgs[begin..], types[begin..], Range(env, msgs[begin..], types[begin..]).0);
    }
  }

  lemma {:induction false} RangeIsWritten(env: Env, msgs: seq<Message>, types: seq<string>)
    requires |msgs| == |types|
    ensures WrittenAs(env, msgs, types, Range(env, msgs, types).0)
  {
    hide Range, Coherent;
    CacheIsInvisibleExactlyWhen(env, msgs, types);
    forall i | 0 <= i < |msgs|
      ensures SameButKey(env, msgs[i], types[i], Range(env, msgs, types).0[i])
    {
      RangeMeans(env, msgs, types, i);
    }
  }

  /** What is written of the accepted messages: batch after batch, hydrated. */
  function Converted(env: Env, msgs: seq<Message>, types: seq<string>, batchSize: nat,
                     hardwareThreads: nat): (r: seq<Message>)
    requires |msgs| == |types|
    ensures |r| == |msgs|
    decreases |msgs|
  {
    if msgs == [] then []
    else
      var begin := LastStart(|msgs|, batchSize);
      Converted(env, msgs[..begin], types[..begin], batchSize, hardwareThreads)
      + Hydrated(env, msgs[begin..], types[begin..], hardwareThreads)
  }

  /** One more batch, where the batches before it are full. */
  lemma {:induction false} ConvertedMore(env: Env, msgs: seq<Message>, types: seq<string>, full: nat,
                                         pending: seq<Message>,
                                         names: seq<string>, batchSize: nat, hardwareThreads: nat)
    requires |msgs| == |types| == full * batchSize && 0 < |pending| == |names|
             && (batchSize > 0 ==> |pending| <= batchSize)
    ensures Converted(env, msgs + pending, types + names, batchSize, hardwareThreads) ==
            Converted(env, msgs, types, batchSize, hardwareThreads) + Hydrated(env, pending, names, hardwareThreads)
  {
    hide Hydrated;
    var n := |msgs|;
    assert LastStart(|msgs + pending|, batchSize) == n by {
      if batchSize > 0 { LastStartIs(full, batchSize, |pending|); } else { assert full * 0 == 0; }
    }
    assert (msgs + pending)[..n] == msgs && (types + names)[..n] == types;
    assert (msgs + pending)[n..] == pending && (types + names)[n..] == names;
  }

  lemma {:induction false} ConvertedIsWritten(env: Env, msgs: seq<Message>, types: seq<string>, batchSize: nat,
                                              hardwareThreads: nat)
    requires |msgs| == |types|
    ensures WrittenAs(env, msgs, types, Converted(env, msgs, types, batchSize, hardwareThreads))
    decreases |msgs|
  {
    hide WrittenAs, Sliced, BatchSlices;
    if msgs == [] {
      NothingWritten(env);
      assert types == [];
    } else {
      var begin := LastStart(|msgs|, batchSize);
      InTwo(msgs, types, begin);
      ConvertedIsWritten(env, msgs[..begin], types[..begin], batchSize, hardwareThreads);
      SlicedIsWritten(env, msgs[begin..], types[begin..], BatchSlices(|msgs| - begin, hardwareThreads));
      MoreWritten(env, msgs[..begin], types[..begin],
                  Converted(env, msgs[..begin], types[..begin], batchSize, hardwareThreads),
                  msgs[begin..], types[begin..], Hydrated(env, msgs[begin..], types[begin..], hardwareThreads));
    }
  }

  /** Batches of one message hydrate every message alone. */
  lemma {:induction false} BatchesOfOne(env: Env, msgs: seq<Message>, types: seq<string>, hardwareThreads: nat)
    requires |msgs| == |types|
    ensures Converted(env, msgs, types, 1, hardwareThreads) == AllAlone(env, msgs, types)
    decreases |msgs|
  {
    hide AllAlone, Sliced, BatchSlices;
    if msgs == [] {
      NoneAlone(env, msgs, types);
    } else {
      var begin := |msgs| - 1;
      LastStartIs(begin, 1, 1);
      BatchesOfOne(env, msgs[..begin], types[..begin], hardwareThreads);
      InTwo(msgs, types, begin);
      OneAlone(env, msgs[begin..], types[begin..]);
      SlicingIsInvisible(env, msgs[begin..], types[begin..], BatchSlices(1, hardwareThreads));
      AllAloneConcat(env, msgs[..begin], types[..begin], msgs[begin..], types[begin..]);
    }
  }

  /** A batch that is large enough, on one thread, is one worker's range. */
  lemma {:induction false} OneBatch(env: Env, msgs: seq<Message>, types: seq<string>)
    requires |msgs| == |types|
    ensures Converted(env, msgs, types, |msgs| + 1, 1) == Range(env, msgs, types).0
  {
    hide Range, Sliced, SlicesOf;
    if msgs == [] {
      NothingHydrated(env);
    } else {
      assert msgs[0..] == msgs && types[0..] == types && msgs[..0] == [] && types[..0] == [];
      assert WorkerCount(|msgs|, 1) == 1 && SliceSize(|msgs|, 1) == |msgs|;
      WholeIsRange(env, msgs, types);
    }
  }

  /** What ends up in the database, from the records of the file. */
  function Output(env: Env, records: seq<Record>, batchSize: nat, hardwareThreads: nat): seq<Message> {
    Converted(env, AcceptedMessages(records), AcceptedTypes(env, records), batchSize, hardwareThreads)
  }

  /**
   The result of a conversion does not depend on the batch size and the number of threads exactly when
   accepted messages with equal handles have equal keys; it then holds every message hydrated alone.
  */
  lemma {:induction false} ConversionIsStableExactlyWhen(env: Env, records: seq<Record>)
    ensures var msgs, types := AcceptedMessages(records), AcceptedTypes(env, records);
            && ((forall b, c, t, u :: b >= 1 && c >= 1 ==> Output(env, records, b, t) == Output(env, records, c, u))
                <==> Coherent(env, msgs, types))
            && (Coherent(env, msgs, types) ==> forall b, t :: Output(env, records, b, t) == AllAlone(env, msgs, types))
  {
    hide Coherent, Range, AllAlone, Converted, AcceptedMessages, AcceptedTypes, SameButKey;
    var msgs, types := AcceptedMessages(records), AcceptedTypes(env, records);
    forall b, t
      ensures Coherent(env, msgs, types) ==> Output(env, records, b, t) == AllAlone(env, msgs, types)
    {
      ConvertedIsWritten(env, msgs, types, b, t);
    }
    BatchesOfOne(env, msgs, types, 1);
    OneBatch(env, msgs, types);
    CacheIsInvisibleExactlyWhen(env, msgs, types);
    assert Output(env, records, 1, 1) == AllAlone(env, msgs, types);
    assert Output(env, records, |msgs| + 1, 1) == Range(env, msgs, types).0;
  }

  // ---- What a row of the database holds ----

  /** The records of known topics whose writers are not filtered out, in order. */
  function Chosen(records: seq<Record>): seq<Record> {
    if records == [] then []
    else (if records[0].topicKnown && !records[0].writerFiltered then [records[0]] else []) + Chosen(records[1..])
  }

  /** Each field of a row against the record it comes from, apart from the key. */
  predicate RowOf(env: Env, r: Record, row: Message) {
    var m := r.message;
    var available := r.typeName != "" && r.typeName in env.known && !env.dependency(r.typeName);
    && row.payload == m.payload && row.logTime == m.logTime && row.publishTime == m.publishTime
    && row.logTimeSql == env.sqlTime(m.logTime) && row.publishTimeSql == env.sqlTime(m.publishTime)
    && row.json == (if available then env.jsonOf(r.typeName, m.payload) else m.json)
    && row.handle == (if available && env.handleOf(r.typeName, m.payload).Some?
                      then env.handleOf(r.typeName, m.payload).value else m.handle)
    && (!available ==> row.key == m.key)
  }

  /** The key a record yields by itself. */
  predicate OwnKeyOf(env: Env, r: Record, row: Message) {
    r.typeName != "" && r.typeName in env.known && !env.dependency(r.typeName) ==>
      var k := env.keyOf(r.typeName, env.jsonOf(r.typeName, r.message.payload));
      row.key == if k.Some? then k.value else r.message.key
  }

  lemma {:induction false} ChosenLast(records: seq<Record>)
    requires records != []
    ensures var n := |records| - 1;
            Chosen(records) ==
            Chosen(records[..n]) + if records[n].topicKnown && !records[n].writerFiltered then [records[n]] else []
  {
    var n := |records| - 1;
    if n > 0 {
      ChosenLast(records[1..]);
      assert records[1..][..n - 1] == records[..n][1..];
      assert records[1..][n - 1] == records[n];
    }
  }

  /** The messages accepted are those of the chosen records, with the name of the type if it is known. */
  lemma {:induction false} AcceptedAreChosen(env: Env, records: seq<Record>)
    ensures var msgs, types, chosen := AcceptedMessages(records), AcceptedTypes(env, records), Chosen(records);
            && |msgs| == |types| == |chosen|
            && forall i :: 0 <= i < |chosen| ==>
                 msgs[i] == chosen[i].message
                 && types[i] == if chosen[i].typeName in env.known then chosen[i].typeName else ""
  {
    hide Chosen;
    if records == [] {
      assert Chosen([]) == [] by { NoneChosen(); }
    } else {
      AcceptedAreChosen(env, records[..|records| - 1]);
      ChosenLast(records);
    }
  }

  lemma {:induction false} NoneChosen()
    ensures Chosen([]) == []
  {}

  /**
   A conversion writes one row for each chosen record, in the order of the file, whatever the batch size
   and the number of threads: times, payload, text and handle are its own, and so is the key if equal
   handles mean equal keys.
  */
  lemma {:induction false} RowsAreRecords(env: Env, records: seq<Record>, batchSize: nat, hardwareThreads: nat)
    ensures var rows, chosen := Output(env, records, batchSize, hardwareThreads), Chosen(records);
            && |rows| == |chosen|
            && (forall i :: 0 <= i < |rows| ==> RowOf(env, chosen[i], rows[i]))
            && (Coherent(env, AcceptedMessages(records), AcceptedTypes(env, records)) ==>
                  forall i :: 0 <= i < |rows| ==> OwnKeyOf(env, chosen[i], rows[i]))
  {
    hide Converted, Coherent, Chosen, RowOf, OwnKeyOf, SameButKey, Alone;
    var msgs, types, chosen := AcceptedMessages(records), AcceptedTypes(env, records), Chosen(records);
    var rows := Output(env, records, batchSize, hardwareThreads);
    AcceptedAreChosen(env, records);
    ConvertedIsWritten(env, msgs, types, batchSize, hardwareThreads);
    forall i | 0 <= i < |rows|
      ensures RowOf(env, chosen[i], rows[i])
      ensures Coherent(env, msgs, types) ==> OwnKeyOf(env, chosen[i], rows[i])
    {
      assert SameButKey(env, msgs[i], types[i], rows[i]);
      WrittenIsRow(env, chosen[i], types[i], rows[i]);
      if Coherent(env, msgs, types) { AloneHasOwnKey(env, chosen[i], types[i]); }
    }
  }

  lemma WrittenIsRow(env: Env, r: Record, typeName: string, row: Message)
    requires typeName == (if r.typeName in env.known then r.typeName else "")
             && SameButKey(env, r.message, typeName, row)
    ensures RowOf(env, r, row)
  {
    assert row.(key := "").payload == row.payload && row.(key := "").json == row.json;
  }

  lemma AloneHasOwnKey(env: Env, r: Record, typeName: string)
    requires typeName == if r.typeName in env.known then r.typeName else ""
    ensures OwnKeyOf(env, r, Alone(env, r.message, typeName))
  {}

  // ---- Two types that share a handle ----

  /** Two types whose keys hash to one handle and print differently. */
  function TwoTypes(): Env {
    Env({"A", "B"}, name => false, (name, payload) => Some(0), (name, payload) => name, (name, json) => Some(json),
        time => "")
  }

  function Plain(): Message { Message(0, 0, 0, 0, "", "", "", "") }

  /** One message of each type: in batches of one each has its own key, in one batch both have the first. */
  lemma {:induction false} BatchSizeMatters(t: nat, u: nat)
    ensures var records := [Record(true, false, Plain(), "A"), Record(true, false, Plain(), "B")];
            Output(TwoTypes(), records, 1, t)[1].key == "B" && Output(TwoTypes(), records, 2, u)[1].key == "A"
  {
    hide Converted, Sliced, SlicesOf, Range, AcceptedMessages, AcceptedTypes;
    var env, msgs, types := TwoTypes(), [Plain(), Plain()], ["A", "B"];
    TwoAccepted();
    BatchesOfOne(env, msgs, types, t);
    SmallBatch(env, msgs, types, u);
    RangeMeans(env, msgs, types, 1);
    FirstIs(env, msgs, types);
  }

  lemma {:induction false} TwoAccepted()
    ensures var records := [Record(true, false, Plain(), "A"), Record(true, false, Plain(), "B")];
            AcceptedMessages(records) == [Plain(), Plain()] && AcceptedTypes(TwoTypes(), records) == ["A", "B"]
  {
    var env, first, second := TwoTypes(), Record(true, false, Plain(), "A"), Record(true, false, Plain(), "B");
    assert [first, second][..1] == [first] && [first][..0] == [];
    assert AcceptedMessages([first]) == [Plain()] && AcceptedTypes(env, [first]) == ["A"];
  }

  /** Up to 512 messages in one batch are one worker's range on any hardware. */
  lemma {:induction false} SmallBatch(env: Env, msgs: seq<Message>, types: seq<string>, hardwareThreads: nat)
    requires 0 < |msgs| == |types| <= MIN_MESSAGES_PER_WORKER
    ensures Converted(env, msgs, types, |msgs|, hardwareThreads) == Range(env, msgs, types).0
  {
    hide Range, Sliced, SlicesOf;
    assert msgs[0..] == msgs && types[0..] == types && msgs[..0] == [] && types[..0] == [];
    assert WorkerCount(|msgs|, hardwareThreads) == 1 && SliceSize(|msgs|, 1) == |msgs|;
    WholeIsRange(env, msgs, types);
  }

  lemma {:induction false} FirstIs(env: Env, msgs: seq<Message>, types: seq<string>)
    requires |msgs| == |types| > 0 && HandleOf(env, msgs[0], types[0]).Some?
    ensures FirstOf(env, msgs, types, HandleOf(env, msgs[0], types[0]).value) == 0
  {
    hide FirstOf;
  }

  /**
   513 messages in one batch, the second half of another type: with two threads it has its own key, with one the
   first.
  */
  lemma {:induction false} ThreadsMatter()
    ensures var msgs, types := seq(513, i => Plain()), seq(513, i => if i < 257 then "A" else "B");
            && Hydrated(TwoTypes(), msgs, types, 1)[257].key == "A"
            && Hydrated(TwoTypes(), msgs, types, 2)[257].key == "B"
  {
    hide Range, Sliced, SlicesOf;
    var env, msgs, types := TwoTypes(), seq(513, i => Plain()), seq(513, i => if i < 257 then "A" else "B");
    assert SliceSize(513, WorkerCount(513, 1)) == 513 && SliceSize(513, WorkerCount(513, 2)) == 257;
    WholeIsRange(env, msgs, types);
    RangeMeans(env, msgs, types, 257);
    FirstIs(env, msgs, types);
    LastStartIs(1, 257, 256);
    SlicedInTwo(env, msgs, types, 257);
    RangeMeans(env, msgs[257..], types[257..], 0);
  }

  /** Hydrates what is pending and hands it to the writer. */
  method Flush(env: Env, pending: seq<Message>, types: seq<string>, hardwareThreads: nat) returns (batch: seq<Message>)
    requires |pending| == |types|
    ensures batch == Hydrated(env, pending, types, hardwareThreads)
  {
    hide Hydrated;
    var messages := new Message[|pending|](i requires 0 <= i < |pending| => pending[i]);
    assert messages[..] == pending;
    HydrateBatch(env, messages, types, hardwareThreads);
    batch := messages[..];
  }

  /**
   The whole loop: the batches hold the accepted messages in file order, for every batch size and number of workers.
  */
  method Convert(env: Env, records: seq<Record>, batchSize: nat, hardwareThreads: nat)
    returns (batches: seq<seq<Message>>)
    ensures Flatten(batches) == Output(env, records, batchSize, hardwareThreads)
    ensures WrittenAs(env, AcceptedMessages(records), AcceptedTypes(env, records), Flatten(batches))
    ensures WellSized(batches, batchSize)
  {
    hide WrittenAs, Flatten, Converted, Hydrated, LastStart;
    batches := [];
    var pending: seq<Message>, types: seq<string> := [], [];
    ghost var msgs: seq<Message>, names: seq<string> := [], [];
    NothingConverted(env, batchSize, hardwareThreads);
    for i := 0 to |records|
      invariant Gathered(env, records[..i], msgs, names, pending, types, |batches|, batchSize)
      invariant Flatten(batches) == Converted(env, msgs, names, batchSize, hardwareThreads)
      invariant batchSize > 0 ==> |pending| < batchSize && forall b :: 0 <= b < |batches| ==> |batches[b]| == batchSize
      invariant batchSize == 0 ==> batches == []
    {
      var r := records[i];
      MoreGathered(env, records, i, msgs, names, pending, types, |batches|, batchSize);
      if Accepts(r) {
        types := types + [TypeName(env, r)];
        pending := pending + [r.message];
        if |pending| == batchSize {
          var batch := Flush(env, pending, types, hardwareThreads);
          ConvertedMore(env, msgs, names, |batches|, pending, types, batchSize, hardwareThreads);
          FlattenSnoc(batches, batch);
          BatchGathered(env, records[..i + 1], msgs, names, pending, types, |batches|, batchSize);
          batches := batches + [batch];
          msgs, names := msgs + pending, names + types;
          pending, types := [], [];
        }
      }
    }
    assert records[..|records|] == records;
    if pending != [] {
      var batch := Flush(env, pending, types, hardwareThreads);
      ConvertedMore(env, msgs, names, |batches|, pending, types, batchSize, hardwareThreads);
      FlattenSnoc(batches, batch);
      batches := batches + [batch];
    } else {
      assert msgs + pending == msgs && names + types == names;
    }
    ConvertedIsWritten(env, AcceptedMessages(records), AcceptedTypes(env, records), batchSize, hardwareThreads);
  }

  /** Where the loop stands: what was accepted is in full batches and in the pending one. */
  ghost predicate Gathered(env: Env, records: seq<Record>, msgs: seq<Message>, names: seq<string>,
                           pending: seq<Message>,
                           types: seq<string>, full: nat, batchSize: nat)
  {
    && |msgs| == |names| == full * batchSize && |pending| == |types|
    && AcceptedMessages(records) == msgs + pending && AcceptedTypes(env, records) == names + types
  }

  lemma {:induction false} MoreGathered(env: Env, records: seq<Record>, i: nat, msgs: seq<Message>, names: seq<string>,
                                        pending: seq<Message>, types: seq<string>, full: nat, batchSize: nat)
    requires i < |records| && Gathered(env, records[..i], msgs, names, pending, types, full, batchSize)
    ensures if Accepts(records[i])
            then Gathered(env, records[..i + 1], msgs, names, pending + [records[i].message],
                          types + [TypeName(env, records[i])], full,
                          batchSize)
            else Gathered(env, records[..i + 1], msgs, names, pending, types, full, batchSize)
  {
    assert records[..i + 1][..i] == records[..i];
  }

  lemma BatchGathered(env: Env, records: seq<Record>, msgs: seq<Message>, names: seq<string>, pending: seq<Message>,
                      types: seq<string>, full: nat, batchSize: nat)
    requires Gathered(env, records, msgs, names, pending, types, full, batchSize) && |pending| == batchSize
    ensures Gathered(env, records, msgs + pending, names + types, [], [], full + 1, batchSize)
  {
    hide AcceptedMessages, AcceptedTypes;
    assert (full + 1) * batchSize == full * batchSize + batchSize;
    assert msgs + pending + [] == msgs + pending && names + types + [] == names + types;
  }

  lemma {:induction false} NothingConverted(env: Env, batchSize: nat, hardwareThreads: nat)
    ensures Flatten([]) == Converted(env, [], [], batchSize, hardwareThreads)
    ensures Gathered(env, [], [], [], [], [], 0, batchSize)
  {
    assert 0 * batchSize == 0;
  }
}
