/**
 The priority queue of the indexed MCAP reader: a heap of chunk and message jobs. Draining it hands
 out messages in log-time order, each exactly once, even where the tie-break on file positions is
 not an order.
*/
module ReadJobQueues {
  import opened Common

  /** A position in the file, or within a chunk that starts at `chunkOffset`. */
  datatype RecordOffset = RecordOffset(offset: nat, chunkOffset: Maybe<nat>)

  datatype Job =
    | ReadMessage(timestamp: nat, position: RecordOffset, chunkReaderIndex: nat)
    | DecompressChunk(messageStartTime: nat, messageEndTime: nat, chunkStartOffset: nat, messageIndexEndOffset: nat)

  predicate Greater(a: RecordOffset, b: RecordOffset) {
    if a.chunkOffset.Some? then
      if b.chunkOffset.Some? then
        if a.chunkOffset == b.chunkOffset then a.offset > b.offset else a.chunkOffset.value > b.chunkOffset.value
      else a.chunkOffset.value > b.offset
    else if b.chunkOffset.Some? then a.offset > b.chunkOffset.value
    else a.offset > b.offset
  }

  /** `<` is defined as neither equal nor greater. */
  predicate Less(a: RecordOffset, b: RecordOffset) { !(a == b || Greater(a, b)) }

  function TimeKey(job: Job, reverse: bool): nat {
    match job
    case ReadMessage(timestamp, _, _) => timestamp
    case DecompressChunk(start, end, _, _) => if reverse then end else start
  }

  function PositionKey(job: Job, reverse: bool): RecordOffset {
    match job
    case ReadMessage(_, position, _) => position
    case DecompressChunk(_, _, start, end) => RecordOffset(if reverse then end else start, None)
  }

  predicate CompareForward(a: Job, b: Job) {
    if TimeKey(a, false) == TimeKey(b, false) then Greater(PositionKey(a, false), PositionKey(b, false))
    else TimeKey(a, false) > TimeKey(b, false)
  }

  predicate CompareReverse(a: Job, b: Job) {
    if TimeKey(a, true) == TimeKey(b, true) then Less(PositionKey(a, true), PositionKey(b, true))
    else TimeKey(a, true) < TimeKey(b, true)
  }

  /** `a` is to be popped after `b`. */
  predicate Compare(a: Job, b: Job, reverse: bool) {
    if reverse then CompareReverse(a, b) else CompareForward(a, b)
  }

  // ---- The comparators are not orders ----

  /** One position is plain, the other inside a chunk that starts exactly there. */
  predicate Clash(a: RecordOffset, b: RecordOffset) {
    || (a.chunkOffset.Some? && b.chunkOffset.None? && a.chunkOffset.value == b.offset)
    || (b.chunkOffset.Some? && a.chunkOffset.None? && b.chunkOffset.value == a.offset)
  }

  /**
   In reverse, each of two jobs counts as coming after the other exactly when their times agree and their positions
   clash.
  */
  lemma ReverseAsymmetricUnlessClash(a: Job, b: Job)
    ensures (CompareReverse(a, b) && CompareReverse(b, a)) <==>
            TimeKey(a, true) == TimeKey(b, true) && Clash(PositionKey(a, true), PositionKey(b, true))
  {
    var p, q := PositionKey(a, true), PositionKey(b, true);
    assert p == q <==> p.offset == q.offset && p.chunkOffset == q.chunkOffset;
  }

  /** It happens where one chunk's index ends and the next chunk starts. */
  lemma AdjacentChunksClash()
    ensures var chunk := DecompressChunk(0, 7, 100, 200);
            var message := ReadMessage(7, RecordOffset(5, Some(200)), 0);
            CompareReverse(chunk, message) && CompareReverse(message, chunk)
  {
    ReverseAsymmetricUnlessClash(DecompressChunk(0, 7, 100, 200), ReadMessage(7, RecordOffset(5, Some(200)), 0));
  }

  /** Neither of two jobs comes after the other. */
  predicate Tie(a: Job, b: Job, reverse: bool) { !Compare(a, b, reverse) && !Compare(b, a, reverse) }

  /** At one time, `y` and `z` lie at different offsets of the chunk that starts at the plain position of `x`. */
  predicate Gap(x: Job, y: Job, z: Job) {
    var p, q, r := PositionKey(x, false), PositionKey(y, false), PositionKey(z, false);
    && TimeKey(x, false) == TimeKey(y, false) == TimeKey(z, false)
    && p.chunkOffset == None && q.chunkOffset == r.chunkOffset == Some(p.offset) && q.offset != r.offset
  }

  /**
   Forward, a job ties with two others of which one comes after the other exactly where it waits at the start of their
   chunk.
  */
  lemma ForwardTiesBreakExactlyAt(x: Job, y: Job, z: Job)
    ensures Tie(y, x, false) && Tie(x, z, false) && !Tie(y, z, false) <==> Gap(x, y, z)
  {
    var p, q, r := PositionKey(x, false), PositionKey(y, false), PositionKey(z, false);
    if TimeKey(x, false) == TimeKey(y, false) == TimeKey(z, false) {
      GreaterTies(p, q, r);
    }
  }

  lemma GreaterTies(p: RecordOffset, q: RecordOffset, r: RecordOffset)
    ensures !Greater(q, p) && !Greater(p, q) && !Greater(p, r) && !Greater(r, p)
            && (Greater(q, r) || Greater(r, q)) <==>
            p.chunkOffset == None && q.chunkOffset == r.chunkOffset == Some(p.offset) && q.offset != r.offset
  {}

  /** For the comparator alone: a job that ties with two jobs of which one comes after the other. */
  lemma ForwardTiesAreNotTransitive()
    ensures var chunk := DecompressChunk(7, 9, 200, 300);
            var early := ReadMessage(7, RecordOffset(5, Some(200)), 0);
            var late := ReadMessage(7, RecordOffset(6, Some(200)), 0);
            Tie(early, chunk, false) && Tie(chunk, late, false) && !Tie(early, late, false)
  {
    ForwardTiesBreakExactlyAt(DecompressChunk(7, 9, 200, 300), ReadMessage(7, RecordOffset(5, Some(200)), 0),
                              ReadMessage(7, RecordOffset(6, Some(200)), 0));
  }

  /** What the library asks of a comparison, over the jobs of a list. */
  predicate StrictWeakOrder(jobs: seq<Job>, reverse: bool) {
    && (forall a, b :: a in jobs && b in jobs && Compare(a, b, reverse) ==> !Compare(b, a, reverse))
    && (forall a, b, c :: a in jobs && b in jobs && c in jobs && Compare(a, b, reverse) && Compare(b, c, reverse) ==>
        Compare(a, c, reverse))
    && (forall a, b, c :: a in jobs && b in jobs && c in jobs && Tie(a, b, reverse) && Tie(b, c, reverse) ==>
        Tie(a, c, reverse))
  }

  predicate ClashAtOneTime(a: Job, b: Job) {
    TimeKey(a, true) == TimeKey(b, true) && Clash(PositionKey(a, true), PositionKey(b, true))
  }

  /**
   No two jobs of one time clash in reverse; no job waits at the start of the chunk of two others of its time forward.
  */
  predicate Orderly(jobs: seq<Job>, reverse: bool) {
    if reverse then forall a, b :: a in jobs && b in jobs ==> !ClashAtOneTime(a, b)
    else forall x, y, z :: x in jobs && y in jobs && z in jobs ==> !Gap(x, y, z)
  }

  /** The comparators meet the library's demand on exactly these lists. */
  lemma StrictWeakOrderExactlyWhen(jobs: seq<Job>, reverse: bool)
    ensures StrictWeakOrder(jobs, reverse) <==> Orderly(jobs, reverse)
  {
    hide Compare, CompareForward, CompareReverse, Gap, ClashAtOneTime, Tie;
    if Orderly(jobs, reverse) {
      forall a, b | a in jobs && b in jobs && Compare(a, b, reverse)
        ensures !Compare(b, a, reverse)
      {
        CompareIsOrder(jobs, a, b, a, reverse);
      }
      forall a, b, c | a in jobs && b in jobs && c in jobs
        ensures Compare(a, b, reverse) && Compare(b, c, reverse) ==> Compare(a, c, reverse)
        ensures Tie(a, b, reverse) && Tie(b, c, reverse) ==> Tie(a, c, reverse)
      {
        CompareIsOrder(jobs, a, b, c, reverse);
      }
    }
    if StrictWeakOrder(jobs, reverse) {
      if reverse {
        forall a, b | a in jobs && b in jobs
          ensures !ClashAtOneTime(a, b)
        {
          ClashBreaksAsymmetry(a, b);
        }
      } else {
        forall x, y, z | x in jobs && y in jobs && z in jobs
          ensures !Gap(x, y, z)
        {
          ForwardTiesBreakExactlyAt(x, y, z);
        }
      }
    }
  }

  lemma ClashBreaksAsymmetry(a: Job, b: Job)
    ensures ClashAtOneTime(a, b) ==> Compare(a, b, true) && Compare(b, a, true)
  {
    ReverseAsymmetricUnlessClash(a, b);
  }

  lemma CompareIsOrder(jobs: seq<Job>, a: Job, b: Job, c: Job, reverse: bool)
    requires Orderly(jobs, reverse) && a in jobs && b in jobs && c in jobs
    ensures !(Compare(a, b, reverse) && Compare(b, a, reverse))
    ensures Compare(a, b, reverse) && Compare(b, c, reverse) ==> Compare(a, c, reverse)
    ensures Tie(a, b, reverse) && Tie(b, c, reverse) ==> Tie(a, c, reverse)
  {
    hide Compare, Orderly, Rank;
    var o := Order(reverse, true);
    LeIsPreorder(jobs, a, b, c, o);
    LeIsPreorder(jobs, b, a, a, o);
    LeIsPreorder(jobs, c, b, a, o);
    LeIsPreorder(jobs, b, c, a, o);
    LeIsPreorder(jobs, a, c, b, o);
  }

  // ---- What the heap keeps all the same ----

  /** Jobs are popped by increasing rank: time forward, time reversed backward. */
  function Rank(job: Job, reverse: bool): int {
    if reverse then 0 - TimeKey(job, reverse) as int else TimeKey(job, reverse)
  }

  lemma CompareRespectsTime(a: Job, b: Job, reverse: bool)
    ensures Compare(a, b, reverse) ==> Rank(a, reverse) >= Rank(b, reverse)
    ensures !Compare(a, b, reverse) ==> Rank(a, reverse) <= Rank(b, reverse)
  {}

  /** Two ways to compare: by time alone, or exactly as the comparators do. */
  datatype Order = Order(reverse: bool, exact: bool)

  /** `a` may be popped before `b`. */
  predicate Le(a: Job, b: Job, o: Order) {
    if o.exact then !Compare(a, b, o.reverse) else Rank(a, o.reverse) <= Rank(b, o.reverse)
  }

  /** Where the comparators are relied on exactly, they are strict weak orders on the jobs. */
  predicate Clean(jobs: seq<Job>, o: Order) { o.exact ==> Orderly(jobs, o.reverse) }

  /** On such jobs the comparators are total preorders; time always is. */
  lemma LeIsPreorder(jobs: seq<Job>, a: Job, b: Job, c: Job, o: Order)
    requires Clean(jobs, o) && a in jobs && b in jobs && c in jobs
    ensures Le(a, a, o)
    ensures Le(a, b, o) && Le(b, c, o) ==> Le(a, c, o)
    ensures if Compare(a, b, o.reverse) then Le(b, a, o) else Le(a, b, o)
  {
    if o.exact {
      if o.reverse {
        assert !ClashAtOneTime(a, b) && !ClashAtOneTime(b, c) && !ClashAtOneTime(a, c);
        ReverseLe(a, b, c);
      } else {
        assert !Gap(b, a, c);
        ForwardLe(a, b, c);
      }
    }
  }

  lemma ReverseLe(a: Job, b: Job, c: Job)
    requires !ClashAtOneTime(a, b) && !ClashAtOneTime(b, c) && !ClashAtOneTime(a, c)
    ensures !CompareReverse(a, a) && !(CompareReverse(a, b) && CompareReverse(b, a))
    ensures !CompareReverse(a, b) && !CompareReverse(b, c) ==> !CompareReverse(a, c)
  {
    var p, q, r := PositionKey(a, true), PositionKey(b, true), PositionKey(c, true);
    assert p == q <==> p.offset == q.offset && p.chunkOffset == q.chunkOffset;
    assert q == r <==> q.offset == r.offset && q.chunkOffset == r.chunkOffset;
    assert p == r <==> p.offset == r.offset && p.chunkOffset == r.chunkOffset;
  }

  lemma ForwardLe(a: Job, b: Job, c: Job)
    requires !Gap(b, a, c)
    ensures !CompareForward(a, a) && !(CompareForward(a, b) && CompareForward(b, a))
    ensures !CompareForward(a, b) && !CompareForward(b, c) ==> !CompareForward(a, c)
  {}

  predicate ParentOk(heap: seq<Job>, i: nat, o: Order)
    requires 0 < i < |heap|
  {
    Le(heap[(i - 1) / 2], heap[i], o)
  }

  predicate Heap(heap: seq<Job>, o: Order) {
    Clean(heap, o) && forall i :: 0 < i < |heap| ==> ParentOk(heap, i, o)
  }

  lemma {:induction false} RootIsFirst(heap: seq<Job>, i: nat, o: Order)
    requires Heap(heap, o) && i < |heap|
    ensures Le(heap[0], heap[i], o)
    decreases i
  {
    hide Le, Clean;
    if i > 0 {
      assert ParentOk(heap, i, o);
      RootIsFirst(heap, (i - 1) / 2, o);
      LeIsPreorder(heap, heap[0], heap[(i - 1) / 2], heap[i], o);
    } else {
      LeIsPreorder(heap, heap[0], heap[0], heap[0], o);
    }
  }

  /** A heap but for position `hole`, whose children are no smaller than its parent. */
  predicate AllBut(heap: seq<Job>, hole: nat, up: bool, o: Order)
    requires hole < |heap|
  {
    && Clean(heap, o)
    && (forall i :: 0 < i < |heap| && (if up then i != hole else (i - 1) / 2 != hole) ==> ParentOk(heap, i, o))
    && (hole > 0 ==> forall i :: 0 < i < |heap| && (i - 1) / 2 == hole ==> SkipOk(heap, hole, i, o))
  }

  predicate SkipOk(heap: seq<Job>, hole: nat, i: nat, o: Order)
    requires 0 < hole < |heap| && i < |heap|
  {
    Le(heap[(hole - 1) / 2], heap[i], o)
  }

  function Swapped(heap: seq<Job>, i: nat, j: nat): (s: seq<Job>)
    requires i < |heap| && j < |heap|
    ensures |s| == |heap| && s[i] == heap[j] && s[j] == heap[i]
    ensures forall k :: 0 <= k < |heap| && k != i && k != j ==> s[k] == heap[k]
  {
    heap[i := heap[j]][j := heap[i]]
  }

  lemma SwapPermutes(heap: seq<Job>, i: nat, j: nat)
    requires i < |heap| && j < |heap|
    ensures multiset(Swapped(heap, i, j)) == multiset(heap)
  {}

  lemma CleanPermutes(a: seq<Job>, b: seq<Job>, o: Order)
    requires multiset(a) == multiset(b) && Clean(a, o)
    ensures Clean(b, o)
  {
    assert forall j :: j in b ==> j in multiset(a);
  }

  /** One step up: the job at `i` changes places with its parent, which is to be popped later. */
  lemma SiftUpStep(heap: seq<Job>, i: nat, o: Order)
    requires 0 < i < |heap| && AllBut(heap, i, true, o)
    requires Le(heap[i], heap[(i - 1) / 2], o)
    ensures AllBut(Swapped(heap, i, (i - 1) / 2), (i - 1) / 2, true, o)
  {
    hide Le, Clean;
    var p := (i - 1) / 2;
    var s := Swapped(heap, i, p);
    SwapPermutes(heap, i, p);
    CleanPermutes(heap, s, o);
    forall k | 0 < k < |s| && k != p
      ensures ParentOk(s, k, o)
    {
      if k != i && (k - 1) / 2 == i {
        assert SkipOk(heap, i, k, o);
      } else if k != i {
        assert ParentOk(heap, k, o);
        LeIsPreorder(heap, heap[i], heap[p], heap[k], o);
      }
    }
    if p > 0 {
      assert ParentOk(heap, p, o);
      forall k | 0 < k < |s| && (k - 1) / 2 == p
        ensures SkipOk(s, p, k, o)
      {
        if k != i {
          assert ParentOk(heap, k, o);
          LeIsPreorder(heap, heap[(p - 1) / 2], heap[p], heap[k], o);
        }
      }
    }
  }

  /** One step down: the job at `i` changes places with the child that comes before its sibling. */
  lemma SiftDownStep(heap: seq<Job>, i: nat, c: nat, o: Order)
    requires c < |heap| && (c == 2 * i + 1 || c == 2 * i + 2) && AllBut(heap, i, false, o)
    requires Le(heap[c], heap[i], o)
    requires forall k :: 0 < k < |heap| && (k - 1) / 2 == i ==> Le(heap[c], heap[k], o)
    ensures AllBut(Swapped(heap, i, c), c, false, o)
  {
    hide Le, Clean;
    var s := Swapped(heap, i, c);
    SwapPermutes(heap, i, c);
    CleanPermutes(heap, s, o);
    forall k | 0 < k < |s| && (k - 1) / 2 != c
      ensures ParentOk(s, k, o)
    {
      if k == i {
        assert SkipOk(heap, i, c, o);
      } else if (k - 1) / 2 != i {
        assert ParentOk(heap, k, o);
      }
    }
    forall k | 0 < k < |s| && (k - 1) / 2 == c
      ensures SkipOk(s, c, k, o)
    {
      assert ParentOk(heap, k, o);
    }
  }

  class ReadJobQueue {
    const reverse: bool
    var heap: seq<Job>
    /** Whether its users keep jobs out of it on which the comparators are no strict weak order. */
    ghost const exact: bool

    ghost function O(): Order { Order(reverse, exact) }

    ghost predicate Valid()
      reads this
    {
      Heap(heap, O())
    }

    constructor (backward: bool, ghost orderly: bool)
      ensures Valid() && heap == [] && reverse == backward && exact == orderly
    {
      reverse, heap, exact := backward, [], orderly;
    }

    method Push(job: Job)
      requires Valid() && Clean(heap + [job], O())
      modifies `heap
      ensures Valid() && multiset(heap) == multiset(old(heap)) + multiset{job}
    {
      hide AllBut, Compare, Le, Clean, Heap, Swapped;
      heap := heap + [job];
      PushedIsAllBut(old(heap), job);
      var i: nat := |heap| - 1;
      while i > 0 && Compare(heap[(i - 1) / 2], heap[i], reverse)
        invariant i < |heap| && AllBut(heap, i, true, O())
        invariant multiset(heap) == multiset(old(heap)) + multiset{job}
        decreases i
      {
        CleanOf(i, true);
        Decide((i - 1) / 2, i);
        SiftUpStep(heap, i, O());
        SwapPermutes(heap, i, (i - 1) / 2);
        heap := Swapped(heap, i, (i - 1) / 2);
        i := (i - 1) / 2;
      }
      CleanOf(i, true);
      if i > 0 {
        Decide((i - 1) / 2, i);
      }
      SettledUp(i);
    }

    /** What a comparison of two waiting jobs says about their order. */
    lemma Decide(i: nat, j: nat)
      requires i < |heap| && j < |heap| && Clean(heap, O())
      ensures if Compare(heap[i], heap[j], reverse) then Le(heap[j], heap[i], O()) else Le(heap[i], heap[j], O())
    {
      LeIsPreorder(heap, heap[i], heap[j], heap[j], O());
    }

    lemma PushedIsAllBut(was: seq<Job>, job: Job)
      requires Heap(was, O()) && Clean(was + [job], O())
      ensures AllBut(was + [job], |was|, true, O()) && Clean(was + [job], O())
    {
      hide Le, Clean;
      var h := was + [job];
      forall i | 0 < i < |h| && i != |was|
        ensures ParentOk(h, i, O())
      {
        assert ParentOk(was, i, O());
      }
    }

    lemma SettledUp(i: nat)
      requires i < |heap| && AllBut(heap, i, true, O())
      requires i > 0 ==> Le(heap[(i - 1) / 2], heap[i], O())
      ensures Heap(heap, O())
    {
      hide Le, Clean;
      if i > 0 {
        assert ParentOk(heap, i, O());
      }
    }

    /** Takes a job that no waiting job precedes. */
    method Pop() returns (job: Job)
      requires Valid() && heap != []
      modifies `heap
      ensures Valid() && multiset(heap) + multiset{job} == multiset(old(heap))
      ensures forall other :: other in old(heap) ==> Le(job, other, O())
    {
      hide AllBut, Compare, Heap, Le, Clean;
      job := heap[0];
      forall k | 0 <= k < |heap|
        ensures Le(job, heap[k], O())
      {
        RootIsFirst(heap, k, O());
      }
      var n := |heap| - 1;
      LastToFront(heap);
      heap := if n == 0 then [] else [heap[n]] + heap[1..n];
      if n == 0 {
        NothingIsHeap(heap);
        return;
      }
      PoppedIsAllBut(old(heap));
      SiftDown();
    }

    /** Lets the job at the root sink to its place. */
    method SiftDown()
      requires heap != [] && AllBut(heap, 0, false, O())
      modifies `heap
      ensures Valid() && multiset(heap) == multiset(old(heap))
    {
      hide AllBut, Compare, Heap, Swapped, Le, Clean;
      var i := 0;
      while 2 * i + 1 < |heap|
        invariant |heap| == old(|heap|) && i < |heap| && AllBut(heap, i, false, O())
                  && multiset(heap) == multiset(old(heap))
        decreases |heap| - i
      {
        CleanOf(i, false);
        var c := FirstChild(i);
        Decide(i, c);
        if !Compare(heap[i], heap[c], reverse) {
          SettledDown(i, c);
          return;
        }
        SiftDownStep(heap, i, c, O());
        SwapPermutes(heap, i, c);
        heap := Swapped(heap, i, c);
        i := c;
      }
      SettledAtLeaf(i);
    }

    lemma CleanOf(i: nat, up: bool)
      requires i < |heap| && AllBut(heap, i, up, O())
      ensures Clean(heap, O())
    {}

    /** Of two children, one that may be popped before the other. */
    method FirstChild(i: nat) returns (c: nat)
      requires 2 * i + 1 < |heap| && Clean(heap, O())
      ensures c < |heap| && (c == 2 * i + 1 || c == 2 * i + 2)
      ensures forall k :: 0 < k < |heap| && (k - 1) / 2 == i ==> Le(heap[c], heap[k], O())
    {
      hide Compare, Le, Clean;
      c := 2 * i + 1;
      LeIsPreorder(heap, heap[c], heap[c], heap[c], O());
      if c + 1 < |heap| {
        Decide(c, c + 1);
        LeIsPreorder(heap, heap[c + 1], heap[c + 1], heap[c + 1], O());
        if Compare(heap[c], heap[c + 1], reverse) {
          c := c + 1;
        }
      }
    }

    lemma PoppedIsAllBut(was: seq<Job>)
      requires Heap(was, O()) && |was| >= 2
      ensures AllBut([was[|was| - 1]] + was[1..|was| - 1], 0, false, O())
    {
      hide Le;
      var h := [was[|was| - 1]] + was[1..|was| - 1];
      assert forall i :: 0 < i < |h| ==> h[i] == was[i];
      forall i | 0 < i < |h| && (i - 1) / 2 != 0
        ensures ParentOk(h, i, O())
      {
        assert ParentOk(was, i, O());
      }
    }

    lemma SettledDown(i: nat, c: nat)
      requires i < |heap| && AllBut(heap, i, false, O()) && c < |heap|
      requires Le(heap[i], heap[c], O())
      requires forall k :: 0 < k < |heap| && (k - 1) / 2 == i ==> Le(heap[c], heap[k], O())
      ensures Heap(heap, O())
    {
      hide Le, Clean;
      forall k | 0 < k < |heap| && (k - 1) / 2 == i
        ensures ParentOk(heap, k, O())
      {
        LeIsPreorder(heap, heap[i], heap[c], heap[k], O());
      }
    }

    lemma SettledAtLeaf(i: nat)
      requires i < |heap| <= 2 * i + 1 && AllBut(heap, i, false, O())
      ensures Heap(heap, O())
    {}

    lemma NothingIsHeap(h: seq<Job>)
      requires h == []
      ensures Heap(h, O())
    {}
  }

  lemma LastToFront(heap: seq<Job>)
    requires heap != []
    ensures var n := |heap| - 1;
            multiset(if n == 0 then [] else [heap[n]] + heap[1..n]) + multiset{heap[0]} == multiset(heap)
  {
    var n := |heap| - 1;
    if n == 0 {
      assert heap == [heap[0]];
    } else {
      assert heap == [heap[0]] + heap[1..n] + [heap[n]];
      assert multiset(heap) == multiset([heap[0]]) + multiset(heap[1..n]) + multiset([heap[n]]);
      assert multiset([heap[n]] + heap[1..n]) == multiset([heap[n]]) + multiset(heap[1..n]);
    }
  }

  // ---- Draining ----

  /** The reader's answer to a chunk job: the messages to push, all with log times within the chunk's. */
  ghost predicate Faithful(messagesOf: Job -> seq<Job>) {
    forall c: Job, m: Job :: c.DecompressChunk? && m in messagesOf(c) ==>
      m.ReadMessage? && c.messageStartTime <= m.timestamp <= c.messageEndTime
  }

  /** Every job that will be popped if `jobs` wait: themselves and the messages of the chunks among them. */
  function AllJobs(jobs: seq<Job>, messagesOf: Job -> seq<Job>): seq<Job> {
    if jobs == [] then [] else Unfold(jobs[0], messagesOf) + AllJobs(jobs[1..], messagesOf)
  }

  function Unfold(job: Job, messagesOf: Job -> seq<Job>): seq<Job> {
    [job] + if job.DecompressChunk? then messagesOf(job) else []
  }

  lemma {:induction false} AllJobsConcat(a: seq<Job>, b: seq<Job>, messagesOf: Job -> seq<Job>)
    ensures AllJobs(a + b, messagesOf) == AllJobs(a, messagesOf) + AllJobs(b, messagesOf)
  {
    if a == [] {
      assert a + b == b;
    } else {
      assert (a + b)[1..] == a[1..] + b;
      AllJobsConcat(a[1..], b, messagesOf);
      var u := Unfold(a[0], messagesOf);
      assert u + (AllJobs(a[1..], messagesOf) + AllJobs(b, messagesOf)) ==
             u + AllJobs(a[1..], messagesOf) + AllJobs(b, messagesOf);
    }
  }

  /** Taking one job out of a list takes out that job and its messages. */
  lemma {:induction false} AllJobsWithout(jobs: seq<Job>, j: nat, messagesOf: Job -> seq<Job>)
    requires j < |jobs|
    ensures multiset(AllJobs(jobs, messagesOf)) ==
            multiset(Unfold(jobs[j], messagesOf)) + multiset(AllJobs(jobs[..j] + jobs[j + 1..], messagesOf))
  {
    hide AllJobs, Unfold;
    assert jobs == jobs[..j] + ([jobs[j]] + jobs[j + 1..]);
    AllJobsConcat(jobs[..j], [jobs[j]] + jobs[j + 1..], messagesOf);
    AllJobsConcat([jobs[j]], jobs[j + 1..], messagesOf);
    AllJobsConcat(jobs[..j], jobs[j + 1..], messagesOf);
    AllJobsOne(jobs[j], messagesOf);
  }

  lemma AllJobsOne(job: Job, messagesOf: Job -> seq<Job>)
    ensures AllJobs([job], messagesOf) == Unfold(job, messagesOf)
  {
    assert [job][1..] == [];
  }

  /** Only which jobs wait matters, not where in the heap. */
  lemma {:induction false} AllJobsOfPermutation(a: seq<Job>, b: seq<Job>, messagesOf: Job -> seq<Job>)
    requires multiset(a) == multiset(b)
    ensures multiset(AllJobs(a, messagesOf)) == multiset(AllJobs(b, messagesOf))
    decreases |a|
  {
    hide AllJobs, Unfold;
    assert |multiset(a)| == |multiset(b)|;
    if a == [] {
      assert b == [];
    } else {
      assert a[0] in multiset(b);
      var j :| 0 <= j < |b| && b[j] == a[0];
      RemoveBoth(a, b, j);
      AllJobsOfPermutation(a[1..], b[..j] + b[j + 1..], messagesOf);
      AllJobsWithout(b, j, messagesOf);
      AllJobsWithout(a, 0, messagesOf);
      assert a[..0] + a[1..] == a[1..];
    }
  }

  lemma Cancel(x: multiset<Job>, y: multiset<Job>, z: multiset<Job>)
    requires z + x == z + y
    ensures x == y
  {
    forall e
      ensures x[e] == y[e]
    {
      assert (z + x)[e] == z[e] + x[e] && (z + y)[e] == z[e] + y[e];
    }
  }

  lemma RemoveBoth(a: seq<Job>, b: seq<Job>, j: nat)
    requires multiset(a) == multiset(b) && a != [] && j < |b| && b[j] == a[0]
    ensures multiset(a[1..]) == multiset(b[..j] + b[j + 1..])
  {
    assert a == [a[0]] + a[1..];
    assert b == b[..j] + [b[j]] + b[j + 1..];
    assert multiset(b) == multiset{a[0]} + multiset(b[..j] + b[j + 1..]);
    Cancel(multiset(a[1..]), multiset(b[..j] + b[j + 1..]), multiset{a[0]});
  }

  function OnlyMessages(jobs: seq<Job>): seq<Job> {
    if jobs == [] then []
    else OnlyMessages(jobs[..|jobs| - 1]) + if jobs[|jobs| - 1].ReadMessage? then [jobs[|jobs| - 1]] else []
  }

  lemma {:induction false} OnlyMessagesCount(jobs: seq<Job>, m: Job)
    ensures multiset(OnlyMessages(jobs))[m] == if m.ReadMessage? then multiset(jobs)[m] else 0
  {
    if jobs != [] {
      assert jobs == jobs[..|jobs| - 1] + [jobs[|jobs| - 1]];
      OnlyMessagesCount(jobs[..|jobs| - 1], m);
    }
  }

  lemma {:induction false} OnlyMessagesPermute(a: seq<Job>, b: seq<Job>)
    requires multiset(a) == multiset(b)
    ensures multiset(OnlyMessages(a)) == multiset(OnlyMessages(b))
  {
    forall m
      ensures multiset(OnlyMessages(a))[m] == multiset(OnlyMessages(b))[m]
    {
      OnlyMessagesCount(a, m);
      OnlyMessagesCount(b, m);
    }
  }

  /** No job of the list may only be popped after a later one. */
  predicate Ordered(jobs: seq<Job>, o: Order) {
    forall i, j :: 0 <= i < j < |jobs| ==> Le(jobs[i], jobs[j], o)
  }

  predicate InTimeOrder(jobs: seq<Job>, reverse: bool) {
    forall i, j :: 0 <= i < j < |jobs| ==> Rank(jobs[i], reverse) <= Rank(jobs[j], reverse)
  }

  lemma OrderedIsInTimeOrder(jobs: seq<Job>, o: Order)
    requires Ordered(jobs, o)
    ensures InTimeOrder(jobs, o.reverse)
  {
    hide Compare, Rank;
    forall i, j | 0 <= i < j < |jobs|
      ensures Rank(jobs[i], o.reverse) <= Rank(jobs[j], o.reverse)
    {
      assert Le(jobs[i], jobs[j], o);
      CompareRespectsTime(jobs[i], jobs[j], o.reverse);
    }
  }

  lemma {:induction false} MessagesInOrder(jobs: seq<Job>, o: Order)
    requires Ordered(jobs, o)
    ensures Ordered(OnlyMessages(jobs), o)
    ensures forall m :: m in OnlyMessages(jobs) ==> m in jobs && m.ReadMessage?
  {
    hide Le;
    if jobs != [] {
      var front, last := jobs[..|jobs| - 1], jobs[|jobs| - 1];
      MessagesInOrder(front, o);
      forall m | m in OnlyMessages(front)
        ensures Le(m, last, o)
      {
        var k :| 0 <= k < |front| && front[k] == m;
        assert jobs[k] == m;
      }
    }
  }

  /** Message times read off a list in rank order: non-decreasing forward, non-increasing in reverse. */
  lemma MessageTimes(messages: seq<Job>, reverse: bool, i: nat, j: nat)
    requires InTimeOrder(messages, reverse) && i < j < |messages| && messages[i].ReadMessage?
             && messages[j].ReadMessage?
    ensures if reverse then messages[i].timestamp >= messages[j].timestamp
            else messages[i].timestamp <= messages[j].timestamp
  {
    assert Rank(messages[i], reverse) <= Rank(messages[j], reverse);
  }

  // ---- Where the exact order can be relied on ----

  /** Each message lies in the chunk whose job pushed it. */
  ghost predicate Located(messagesOf: Job -> seq<Job>) {
    forall c: Job, m: Job :: c.DecompressChunk? && m in messagesOf(c) ==>
      m.ReadMessage? && m.position.chunkOffset == Some(c.chunkStartOffset)
  }

  /** Forward, chunks start at different places. */
  predicate ChunksApart(start: seq<Job>) {
    forall i, j :: 0 <= i < j < |start| && start[i].DecompressChunk? && start[j].DecompressChunk? ==>
      start[i].chunkStartOffset != start[j].chunkStartOffset
  }

  /** In reverse, chunks end after they start, and none ends where, at its latest time, a message's chunk starts. */
  ghost predicate NoEndClashes(start: seq<Job>, messagesOf: Job -> seq<Job>) {
    && (forall c: Job :: c in start && c.DecompressChunk? ==> c.chunkStartOffset < c.messageIndexEndOffset)
    && forall c, d, m :: c in start && d in start && d.DecompressChunk? && m in messagesOf(d) ==> !ClashAtOneTime(c, m)
  }

  /** A file read from its chunk jobs. */
  ghost predicate WellPlaced(start: seq<Job>, messagesOf: Job -> seq<Job>, reverse: bool) {
    && Located(messagesOf) && (forall c :: c in start ==> c.DecompressChunk?)
    && if reverse then NoEndClashes(start, messagesOf) else ChunksApart(start)
  }

  /** Chunk jobs come from the start and wait once; messages come from chunks already popped. */
  ghost predicate Traced(start: seq<Job>, heap: seq<Job>, popped: seq<Job>, messagesOf: Job -> seq<Job>,
                         reverse: bool) {
    && (forall j :: j in heap || j in popped ==> TracedOne(start, popped, messagesOf, j))
    && (!reverse ==> forall c :: c in heap && c.DecompressChunk? ==> multiset(heap)[c] == 1 && c !in popped)
  }

  ghost predicate TracedOne(start: seq<Job>, popped: seq<Job>, messagesOf: Job -> seq<Job>, j: Job) {
    if j.DecompressChunk? then j in start
    else exists c :: c in popped && c in start && c.DecompressChunk? && j in messagesOf(c)
  }

  lemma TracedStart(start: seq<Job>, messagesOf: Job -> seq<Job>, reverse: bool)
    requires WellPlaced(start, messagesOf, reverse)
    ensures Traced(start, start, [], messagesOf, reverse)
  {
    if !reverse {
      forall c | c in start
        ensures multiset(start)[c] == 1
      {
        var i :| 0 <= i < |start| && start[i] == c;
        assert start == start[..i] + [c] + start[i + 1..];
      }
    }
  }

  lemma TracedStep(start: seq<Job>, before: seq<Job>, job: Job, rest: seq<Job>, popped: seq<Job>,
                   messagesOf: Job -> seq<Job>,
                   reverse: bool)
    requires WellPlaced(start, messagesOf, reverse) && Traced(start, before, popped, messagesOf, reverse)
    requires multiset(rest) + multiset{job} == multiset(before)
    ensures Traced(start, rest + Pushed(job, messagesOf), popped + [job], messagesOf, reverse)
  {
    hide WellPlaced;
    PlacedMessages(start, messagesOf, reverse);
    var pushed := Pushed(job, messagesOf);
    assert job in multiset(before);
    assert forall j :: j in rest ==> j in multiset(rest) && j in multiset(before);
    assert TracedOne(start, popped, messagesOf, job);
    assert forall m :: m in pushed ==> m.ReadMessage?;
    forall j | j in rest + pushed || j in popped + [job]
      ensures TracedOne(start, popped + [job], messagesOf, j)
    {
      if j in pushed {
        assert job in popped + [job];
      } else {
        assert TracedOne(start, popped, messagesOf, j);
        LaterTraced(start, popped, messagesOf, job, j);
      }
    }
    if !reverse {
      forall c | c in rest + pushed && c.DecompressChunk?
        ensures multiset(rest + pushed)[c] == 1 && c !in popped + [job]
      {
        assert c !in pushed;
        assert multiset(rest)[c] > 0 && multiset(before)[c] == 1;
      }
    }
  }

  lemma PlacedMessages(start: seq<Job>, messagesOf: Job -> seq<Job>, reverse: bool)
    requires WellPlaced(start, messagesOf, reverse)
    ensures forall c, m: Job :: c in start && m in messagesOf(c) ==> m.ReadMessage?
  {}

  lemma TracedPermutes(start: seq<Job>, a: seq<Job>, b: seq<Job>, popped: seq<Job>, messagesOf: Job -> seq<Job>,
                       reverse: bool)
    requires Traced(start, a, popped, messagesOf, reverse) && multiset(a) == multiset(b)
    ensures Traced(start, b, popped, messagesOf, reverse)
  {
    hide TracedOne;
    assert forall j :: j in b ==> j in multiset(b) && j in multiset(a);
  }

  /** On a heap of such jobs the comparators are strict weak orders. */
  lemma TracedIsOrderly(start: seq<Job>, heap: seq<Job>, popped: seq<Job>, messagesOf: Job -> seq<Job>, reverse: bool)
    requires WellPlaced(start, messagesOf, reverse) && Traced(start, heap, popped, messagesOf, reverse)
    ensures Orderly(heap, reverse)
  {
    if reverse {
      forall a, b | a in heap && b in heap
        ensures !ClashAtOneTime(a, b)
      {
        NoClash(start, popped, messagesOf, a, b);
      }
    } else {
      forall x, y, z | x in heap && y in heap && z in heap
        ensures !Gap(x, y, z)
      {
        NoGap(start, heap, popped, messagesOf, x, y, z);
      }
    }
  }

  lemma NoClash(start: seq<Job>, popped: seq<Job>, messagesOf: Job -> seq<Job>, a: Job, b: Job)
    requires WellPlaced(start, messagesOf, true)
    requires TracedOne(start, popped, messagesOf, a) && TracedOne(start, popped, messagesOf, b)
    ensures !ClashAtOneTime(a, b)
  {
    assert ClashAtOneTime(a, b) ==> ClashAtOneTime(b, a);
  }

  lemma NoGap(start: seq<Job>, heap: seq<Job>, popped: seq<Job>, messagesOf: Job -> seq<Job>, x: Job, y: Job, z: Job)
    requires WellPlaced(start, messagesOf, false) && Traced(start, heap, popped, messagesOf, false) && x in heap
    requires TracedOne(start, popped, messagesOf, y)
    ensures !Gap(x, y, z)
  {
    assert TracedOne(start, popped, messagesOf, x);
  }

  /** A message pushed for a chunk job may follow whatever that job may follow. */
  lemma PushedFollows(start: seq<Job>, heap: seq<Job>, popped: seq<Job>, messagesOf: Job -> seq<Job>, o: Order, p: Job,
                      c: Job, m: Job)
    requires Faithful(messagesOf)
    requires o.exact ==> WellPlaced(start, messagesOf, o.reverse) && Traced(start, heap, popped, messagesOf, o.reverse)
    requires c in heap && c.DecompressChunk? && m in messagesOf(c)
    ensures Le(c, m, o)
    ensures p in popped && Le(p, c, o) ==> Le(p, m, o)
  {
    ChunkComesFirst(c, m, messagesOf, o.reverse);
    if o.exact {
      assert TracedOne(start, popped, messagesOf, c);
      assert TracedOne(start, popped + [c], messagesOf, m);
      if o.reverse {
        assert TracedOne(start, popped + [c], messagesOf, c);
        NoClash(start, popped + [c], messagesOf, c, m);
        EndFollows(start, messagesOf, c, m);
      }
      if p in popped && Le(p, c, o) {
        assert TracedOne(start, popped, messagesOf, p);
        if o.reverse {
          LaterTraced(start, popped, messagesOf, c, p);
          NoClash(start, popped + [c], messagesOf, p, c);
          NoClash(start, popped + [c], messagesOf, p, m);
          ReverseLe(p, c, m);
        } else {
          NoGap(start, heap, popped, messagesOf, c, p, m);
          ForwardLe(p, c, m);
        }
      }
    }
  }

  lemma LaterTraced(start: seq<Job>, popped: seq<Job>, messagesOf: Job -> seq<Job>, c: Job, j: Job)
    requires TracedOne(start, popped, messagesOf, j)
    ensures TracedOne(start, popped + [c], messagesOf, j)
  {
    if j.ReadMessage? {
      var d :| d in popped && d in start && d.DecompressChunk? && j in messagesOf(d);
      assert d in popped + [c];
    }
  }

  lemma EndFollows(start: seq<Job>, messagesOf: Job -> seq<Job>, c: Job, m: Job)
    requires WellPlaced(start, messagesOf, true) && Faithful(messagesOf) && c in start && m in messagesOf(c)
    ensures !CompareReverse(c, m)
  {}

  lemma ChunkComesFirst(chunk: Job, m: Job, messagesOf: Job -> seq<Job>, reverse: bool)
    requires Faithful(messagesOf) && chunk.DecompressChunk? && m in messagesOf(chunk)
    ensures Rank(chunk, reverse) <= Rank(m, reverse)
  {}

  /** What is pushed after a job has been popped. */
  function Pushed(job: Job, messagesOf: Job -> seq<Job>): seq<Job> {
    if job.DecompressChunk? then messagesOf(job) else []
  }

  method PushAll(queue: ReadJobQueue, jobs: seq<Job>)
    requires queue.Valid() && Clean(queue.heap + jobs, queue.O())
    modifies queue
    ensures queue.Valid() && multiset(queue.heap) == multiset(old(queue.heap) + jobs)
  {
    hide Orderly, Heap;
    for k := 0 to |jobs|
      invariant queue.Valid() && multiset(queue.heap) == multiset(old(queue.heap) + jobs[..k])
    {
      forall j | j in queue.heap + [jobs[k]]
        ensures j in old(queue.heap) + jobs
      {
        assert j in queue.heap ==> j in multiset(queue.heap) && j in multiset(old(queue.heap) + jobs[..k]);
      }
      CleanPart(old(queue.heap) + jobs, queue.heap + [jobs[k]], queue.O());
      queue.Push(jobs[k]);
      assert old(queue.heap) + jobs[..k + 1] == old(queue.heap) + jobs[..k] + [jobs[k]];
    }
    assert jobs[..|jobs|] == jobs;
  }

  lemma CleanPart(all: seq<Job>, part: seq<Job>, o: Order)
    requires Clean(all, o) && forall j :: j in part ==> j in all
    ensures Clean(part, o)
  {}

  /** How a drain stands: what was popped is in order and precedes what waits, and nothing is lost. */
  ghost predicate Draining(start: seq<Job>, heap: seq<Job>, popped: seq<Job>, messagesOf: Job -> seq<Job>, o: Order) {
    && Ordered(popped, o)
    && (forall p, j :: p in popped && j in heap ==> Le(p, j, o))
    && multiset(popped) + multiset(AllJobs(heap, messagesOf)) == multiset(AllJobs(start, messagesOf))
    && (o.exact ==> WellPlaced(start, messagesOf, o.reverse) && Traced(start, heap, popped, messagesOf, o.reverse))
  }

  /**
   The reader's loop: pop; push the messages of a chunk; deliver a message. Each job is popped once, in
   time order, and in the exact order of the comparator if the chunks are placed as in a file.
  */
  method Drain(queue: ReadJobQueue, messagesOf: Job -> seq<Job>) returns (delivered: seq<Job>, ghost popped: seq<Job>)
    requires queue.Valid() && Faithful(messagesOf)
    requires queue.exact ==> WellPlaced(queue.heap, messagesOf, queue.reverse)
    modifies queue
    ensures queue.heap == []
    ensures Ordered(popped, queue.O()) && multiset(popped) == multiset(AllJobs(old(queue.heap), messagesOf))
    ensures delivered == OnlyMessages(popped) && Ordered(delivered, queue.O())
    ensures InTimeOrder(popped, queue.reverse) && InTimeOrder(delivered, queue.reverse)
  {
    hide AllJobs, Le, Heap, Faithful, Draining, OnlyMessages, Ordered, WellPlaced, Pushed, Orderly;
    delivered, popped := [], [];
    DrainStart(queue.heap, messagesOf, queue.O());
    while queue.heap != []
      invariant queue.Valid() && Draining(old(queue.heap), queue.heap, popped, messagesOf, queue.O())
      invariant delivered == OnlyMessages(popped)
      decreases |AllJobs(queue.heap, messagesOf)|
    {
      ghost var before := queue.heap;
      var job := queue.Pop();
      ghost var rest := queue.heap;
      OnlyMessagesSnoc(popped, job);
      DrainStep(old(queue.heap), before, job, rest, popped, messagesOf, queue.O());
      var pushed := Pushed(job, messagesOf);
      NothingPushed(job, rest, messagesOf);
      if job.DecompressChunk? {
        PushAll(queue, pushed);
      } else {
        delivered := delivered + [job];
      }
      popped := popped + [job];
      DrainPermutes(old(queue.heap), rest + pushed, queue.heap, popped, messagesOf, queue.O());
    }
    DrainEnd(old(queue.heap), popped, messagesOf, queue.O());
    MessagesInOrder(popped, queue.O());
    OrderedIsInTimeOrder(popped, queue.O());
    OrderedIsInTimeOrder(delivered, queue.O());
  }

  lemma NothingPushed(job: Job, rest: seq<Job>, messagesOf: Job -> seq<Job>)
    ensures !job.DecompressChunk? ==> rest + Pushed(job, messagesOf) == rest
  {}

  lemma DrainStart(start: seq<Job>, messagesOf: Job -> seq<Job>, o: Order)
    requires o.exact ==> WellPlaced(start, messagesOf, o.reverse)
    ensures Draining(start, start, [], messagesOf, o) && OnlyMessages([]) == []
  {
    hide AllJobs, Le, WellPlaced, Traced;
    if o.exact { TracedStart(start, messagesOf, o.reverse); }
  }

  lemma {:induction false} DrainEnd(start: seq<Job>, popped: seq<Job>, messagesOf: Job -> seq<Job>, o: Order)
    requires Draining(start, [], popped, messagesOf, o)
    ensures Ordered(popped, o) && multiset(popped) == multiset(AllJobs(start, messagesOf))
  {
    hide Le, WellPlaced, Traced;
    assert AllJobs([], messagesOf) == [];
  }

  lemma {:induction false} DrainPermutes(start: seq<Job>, a: seq<Job>, b: seq<Job>, popped: seq<Job>,
                                         messagesOf: Job -> seq<Job>,
                                         o: Order)
    requires Draining(start, a, popped, messagesOf, o) && multiset(a) == multiset(b)
    ensures Draining(start, b, popped, messagesOf, o) && |AllJobs(a, messagesOf)| == |AllJobs(b, messagesOf)|
  {
    hide AllJobs, Le, WellPlaced, Traced;
    AllJobsOfPermutation(a, b, messagesOf);
    assert |multiset(AllJobs(a, messagesOf))| == |multiset(AllJobs(b, messagesOf))|;
    if o.exact { TracedPermutes(start, a, b, popped, messagesOf, o.reverse); }
    assert forall j :: j in b ==> j in multiset(b) && j in multiset(a);
  }

  lemma {:induction false} OnlyMessagesSnoc(popped: seq<Job>, job: Job)
    ensures OnlyMessages(popped + [job]) == OnlyMessages(popped) + if job.ReadMessage? then [job] else []
  {
    assert (popped + [job])[..|popped|] == popped;
  }

  /** One round keeps order and accounts for every job, and what is pushed may be. */
  lemma {:induction false} DrainStep(start: seq<Job>, before: seq<Job>, job: Job, rest: seq<Job>, popped: seq<Job>,
                                     messagesOf: Job -> seq<Job>, o: Order)
    requires Faithful(messagesOf) && multiset(rest) + multiset{job} == multiset(before)
    requires forall j :: j in before ==> Le(job, j, o)
    requires Draining(start, before, popped, messagesOf, o)
    ensures Draining(start, rest + Pushed(job, messagesOf), popped + [job], messagesOf, o)
    ensures |AllJobs(rest + Pushed(job, messagesOf), messagesOf)| < |AllJobs(before, messagesOf)|
    ensures Clean(rest + Pushed(job, messagesOf), o)
  {
    hide AllJobs, Le, Faithful, WellPlaced, Traced, Orderly;
    var after := rest + Pushed(job, messagesOf);
    DrainCounts(before, job, rest, after, messagesOf);
    DrainOrder(start, before, job, rest, popped, messagesOf, o);
    MoveOne(multiset(popped), multiset{job}, multiset(AllJobs(after, messagesOf)),
            multiset(AllJobs(before, messagesOf)));
    if o.exact {
      TracedStep(start, before, job, rest, popped, messagesOf, o.reverse);
      TracedIsOrderly(start, after, popped + [job], messagesOf, o.reverse);
    }
  }

  lemma MoveOne(p: multiset<Job>, j: multiset<Job>, after: multiset<Job>, before: multiset<Job>)
    requires j + after == before
    ensures (p + j) + after == p + before
  {}

  lemma DrainOrder(start: seq<Job>, before: seq<Job>, job: Job, rest: seq<Job>, popped: seq<Job>,
                   messagesOf: Job -> seq<Job>, o: Order)
    requires Faithful(messagesOf) && multiset(rest) + multiset{job} == multiset(before)
    requires forall j :: j in before ==> Le(job, j, o)
    requires Draining(start, before, popped, messagesOf, o)
    ensures forall p, j :: p in popped + [job] && j in rest + Pushed(job, messagesOf) ==> Le(p, j, o)
    ensures Ordered(popped + [job], o)
  {
    hide AllJobs, Le, Faithful, WellPlaced, Traced;
    assert job in multiset(before);
    assert forall j :: j in rest ==> j in multiset(rest) && j in multiset(before);
    forall p, j | p in popped + [job] && j in rest + Pushed(job, messagesOf)
      ensures Le(p, j, o)
    {
      if j !in rest {
        PushedFollows(start, before, popped, messagesOf, o, p, job, j);
      }
    }
  }

  lemma {:induction false} DrainCounts(before: seq<Job>, job: Job, rest: seq<Job>, after: seq<Job>,
                                       messagesOf: Job -> seq<Job>)
    requires Faithful(messagesOf) && multiset(rest) + multiset{job} == multiset(before)
    requires after == rest + Pushed(job, messagesOf)
    ensures multiset{job} + multiset(AllJobs(after, messagesOf)) == multiset(AllJobs(before, messagesOf))
    ensures |AllJobs(after, messagesOf)| < |AllJobs(before, messagesOf)|
  {
    hide AllJobs, Unfold;
    var pushed := Pushed(job, messagesOf);
    AllJobsOfFront(before, job, rest, messagesOf);
    AllJobsOfPermutation(after, rest + pushed, messagesOf);
    AllJobsConcat(rest, pushed, messagesOf);
    AllJobsOfMessages(pushed, messagesOf);
    UnfoldCounts(job, messagesOf);
    Regroup(multiset{job}, multiset(pushed), multiset(AllJobs(rest, messagesOf)),
            multiset(AllJobs(before, messagesOf)), multiset(AllJobs(after, messagesOf)));
    Sizes(AllJobs(after, messagesOf), AllJobs(before, messagesOf), job);
  }

  lemma Regroup(j: multiset<Job>, p: multiset<Job>, r: multiset<Job>, before: multiset<Job>, after: multiset<Job>)
    requires before == (j + p) + r && after == r + p
    ensures j + after == before
  {}

  lemma Sizes(after: seq<Job>, before: seq<Job>, job: Job)
    requires multiset{job} + multiset(after) == multiset(before)
    ensures |after| < |before|
  {
    assert |multiset(before)| == 1 + |multiset(after)|;
  }

  lemma UnfoldCounts(job: Job, messagesOf: Job -> seq<Job>)
    ensures multiset(Unfold(job, messagesOf)) ==
            multiset{job} + multiset(if job.DecompressChunk? then messagesOf(job) else [])
  {}

  lemma {:induction false} AllJobsOfFront(before: seq<Job>, job: Job, rest: seq<Job>, messagesOf: Job -> seq<Job>)
    requires multiset(rest) + multiset{job} == multiset(before)
    ensures multiset(AllJobs(before, messagesOf)) ==
            multiset(Unfold(job, messagesOf)) + multiset(AllJobs(rest, messagesOf))
  {
    hide AllJobs, Unfold;
    assert multiset([job] + rest) == multiset(before);
    AllJobsOfPermutation([job] + rest, before, messagesOf);
    AllJobsWithout([job] + rest, 0, messagesOf);
    assert ([job] + rest)[..0] + ([job] + rest)[1..] == rest;
  }

  lemma {:induction false} AllJobsOfMessages(messages: seq<Job>, messagesOf: Job -> seq<Job>)
    requires forall m :: m in messages ==> m.ReadMessage?
    ensures AllJobs(messages, messagesOf) == messages
  {
    if messages != [] {
      assert messages[0] in messages;
      assert messages == [messages[0]] + messages[1..];
      AllJobsOfMessages(messages[1..], messagesOf);
    }
  }

  // ---- Reading a file ----

  /**
   Strictly before, or at one position: by time, then by chunk, then by offset within the chunk; all reversed in
   reverse.
  */
  predicate InFileOrder(a: Job, b: Job, reverse: bool) {
    a.ReadMessage? && b.ReadMessage? && a.position.chunkOffset.Some? && b.position.chunkOffset.Some? &&
    var (x, y) := if reverse then (b, a) else (a, b);
    || x.timestamp < y.timestamp
    || (x.timestamp == y.timestamp && x.position.chunkOffset.value < y.position.chunkOffset.value)
    || (x.timestamp == y.timestamp && x.position.chunkOffset == y.position.chunkOffset
        && x.position.offset <= y.position.offset)
  }

  lemma LeIsFileOrder(a: Job, b: Job, reverse: bool)
    requires a.ReadMessage? && b.ReadMessage? && a.position.chunkOffset.Some? && b.position.chunkOffset.Some?
    ensures Le(a, b, Order(reverse, true)) <==> InFileOrder(a, b, reverse)
  {
    var p, q := a.position, b.position;
    assert p == q <==> p.offset == q.offset && p.chunkOffset == q.chunkOffset;
  }

  /**
   Reading a file from its chunk jobs: every message of every chunk once, by time, at one time by
   chunk, and within a chunk by offset.
  */
  method ReadInFileOrder(chunks: seq<Job>, messagesOf: Job -> seq<Job>, reverse: bool) returns (delivered: seq<Job>)
    requires Faithful(messagesOf) && WellPlaced(chunks, messagesOf, reverse)
    ensures multiset(delivered) == multiset(OnlyMessages(AllJobs(chunks, messagesOf)))
    ensures forall i, j :: 0 <= i < j < |delivered| ==> InFileOrder(delivered[i], delivered[j], reverse)
  {
    hide Faithful, WellPlaced, OnlyMessages, AllJobs, Orderly, Traced, Ordered, Heap;
    var queue := new ReadJobQueue(reverse, true);
    TracedStart(chunks, messagesOf, reverse);
    TracedIsOrderly(chunks, chunks, [], messagesOf, reverse);
    assert [] + chunks == chunks;
    PushAll(queue, chunks);
    PermutedPlaced(chunks, queue.heap, messagesOf, reverse);
    AllJobsOfPermutation(queue.heap, chunks, messagesOf);
    ghost var popped;
    delivered, popped := Drain(queue, messagesOf);
    OnlyMessagesPermute(popped, AllJobs(chunks, messagesOf));
    DeliveredInFileOrder(chunks, messagesOf, popped, reverse);
  }

  lemma PermutedPlaced(a: seq<Job>, b: seq<Job>, messagesOf: Job -> seq<Job>, reverse: bool)
    requires WellPlaced(a, messagesOf, reverse) && multiset(a) == multiset(b)
    ensures WellPlaced(b, messagesOf, reverse)
  {
    forall j | j in b
      ensures j in a
    {
      assert j in multiset(b) && j in multiset(a);
    }
    if !reverse {
      forall i, j | 0 <= i < j < |b|
        ensures b[i].chunkStartOffset != b[j].chunkStartOffset
      {
        Twice(b, i, j);
        if b[i].chunkStartOffset == b[j].chunkStartOffset {
          SameStart(a, b[i], b[j]);
        }
      }
    }
  }

  lemma Twice(jobs: seq<Job>, i: nat, j: nat)
    requires i < j < |jobs|
    ensures jobs[i] == jobs[j] ==> multiset(jobs)[jobs[i]] >= 2
  {
    assert jobs == jobs[..i] + [jobs[i]] + jobs[i + 1..j] + [jobs[j]] + jobs[j + 1..];
  }

  lemma SameStart(a: seq<Job>, c: Job, d: Job)
    requires ChunksApart(a) && c in a && d in a && c.DecompressChunk? && d.DecompressChunk?
    requires c.chunkStartOffset == d.chunkStartOffset
    ensures c == d && multiset(a)[c] == 1
  {
    var i :| 0 <= i < |a| && a[i] == c;
    assert a == a[..i] + [c] + a[i + 1..];
  }

  lemma {:induction false} DeliveredInFileOrder(chunks: seq<Job>, messagesOf: Job -> seq<Job>, popped: seq<Job>,
                                                reverse: bool)
    requires WellPlaced(chunks, messagesOf, reverse) && Ordered(popped, Order(reverse, true))
    requires multiset(popped) == multiset(AllJobs(chunks, messagesOf))
    ensures var d := OnlyMessages(popped); forall i, j :: 0 <= i < j < |d| ==> InFileOrder(d[i], d[j], reverse)
  {
    hide Le, AllJobs, InFileOrder;
    MessagesInOrder(popped, Order(reverse, true));
    var d := OnlyMessages(popped);
    forall m | m in d
      ensures m.ReadMessage? && m.position.chunkOffset.Some?
    {
      assert m in multiset(popped);
      assert m in multiset(AllJobs(chunks, messagesOf));
      MessagesLieInChunks(chunks, messagesOf, reverse, m);
    }
    forall i, j | 0 <= i < j < |d|
      ensures InFileOrder(d[i], d[j], reverse)
    {
      assert d[i] in d && d[j] in d;
      LeIsFileOrder(d[i], d[j], reverse);
    }
  }

  lemma {:induction false} MessagesLieInChunks(chunks: seq<Job>, messagesOf: Job -> seq<Job>, reverse: bool, m: Job)
    requires (forall c :: c in chunks ==> c.DecompressChunk?) && Located(messagesOf)
    requires m in AllJobs(chunks, messagesOf) && m.ReadMessage?
    ensures m.position.chunkOffset.Some?
  {
    if m !in Unfold(chunks[0], messagesOf) {
      MessagesLieInChunks(chunks[1..], messagesOf, reverse, m);
    }
  }
}
