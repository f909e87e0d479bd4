/**
 The interval index of the MCAP reader. Whatever centre a node takes, a query on the tree returns
 the same intervals as a linear scan of the list it was built from.
*/
module IntervalTrees {
  import opened Common

  /** 64-bit unsigned positions. */
  type Scalar = n: nat | n < 0x1_0000_0000_0000_0000

  const TWO_64: nat := 0x1_0000_0000_0000_0000

  datatype Interval = Interval(start: Scalar, stop: Scalar, value: int)

  /** The constructor orders the end points. */
  function MakeInterval(s: Scalar, e: Scalar, v: int): (i: Interval)
    ensures Ordered(i) && {i.start, i.stop} == {s, e}
  {
    Interval(if e < s then e else s, if s < e then e else s, v)
  }

  predicate Ordered(i: Interval) { i.start <= i.stop }

  datatype Tree = Tree(intervals: seq<Interval>, left: Maybe<Tree>, right: Maybe<Tree>, center: Scalar)

  predicate Sorted(s: seq<Interval>) {
    forall i, j :: 0 <= i < j < |s| ==> s[i].start <= s[j].start
  }

  // ---- Queries ----

  datatype Query = Overlapping(start: Scalar, stop: Scalar) | Contained(start: Scalar, stop: Scalar)

  predicate Matches(q: Query, i: Interval) {
    match q
    case Overlapping(start, stop) => i.stop >= start && i.start <= stop
    case Contained(start, stop) => start <= i.start && i.stop <= stop
  }

  predicate Covers(start: nat, stop: nat, x: nat) { start <= x <= stop }

  /** An interval overlaps a range if some point lies in both, ends included. */
  lemma OverlappingMeans(i: Interval, start: Scalar, stop: Scalar)
    requires Ordered(i) && start <= stop
    ensures Matches(Overlapping(start, stop), i) <==>
            exists x: nat :: Covers(start, stop, x) && Covers(i.start, i.stop, x)
  {
    if Matches(Overlapping(start, stop), i) {
      var x := if start <= i.start then i.start else start;
      assert Covers(start, stop, x) && Covers(i.start, i.stop, x);
    }
  }

  /** An interval is contained in a range if all its points lie in it. */
  lemma ContainedMeans(i: Interval, start: Scalar, stop: Scalar)
    requires Ordered(i)
    ensures Matches(Contained(start, stop), i) <==>
            forall x: nat :: Covers(i.start, i.stop, x) ==> Covers(start, stop, x)
  {
    if forall x: nat :: Covers(i.start, i.stop, x) ==> Covers(start, stop, x) {
      assert Covers(i.start, i.stop, i.start) && Covers(i.start, i.stop, i.stop);
    }
  }

  /** The linear scan. */
  function Filter(q: Query, s: seq<Interval>): seq<Interval> {
    if s == [] then [] else (if Matches(q, s[0]) then [s[0]] else []) + Filter(q, s[1..])
  }

  /** The intervals near a range, in the order in which the tree visits them. */
  function VisitNear(t: Tree, start: Scalar, stop: Scalar): seq<Interval>
    decreases t
  {
    (if t.intervals != [] && !(stop < t.intervals[0].start) then t.intervals else [])
    + (if t.left.Some? && start <= t.center then VisitNear(t.left.value, start, stop) else [])
    + (if t.right.Some? && stop >= t.center then VisitNear(t.right.value, start, stop) else [])
  }

  /** `find_overlapping` and `find_contained`. */
  function Find(t: Tree, q: Query): seq<Interval> {
    Filter(q, VisitNear(t, q.start, q.stop))
  }

  function Contents(t: Tree): seq<Interval>
    decreases t
  {
    t.intervals + (if t.left.Some? then Contents(t.left.value) else []) +
        (if t.right.Some? then Contents(t.right.value) else [])
  }

  /** What every built tree satisfies. Nothing is asked of how a centre was chosen. */
  predicate Split(t: Tree)
    decreases t
  {
    && Sorted(t.intervals) && (forall i :: i in t.intervals ==> Ordered(i))
    && (t.left.Some? ==> Split(t.left.value) && Contents(t.left.value) != []
                         && forall i :: i in Contents(t.left.value) ==> Ordered(i) && i.stop < t.center)
    && (t.right.Some? ==> Split(t.right.value) && Contents(t.right.value) != []
                          && forall i :: i in Contents(t.right.value) ==> Ordered(i) && i.start > t.center)
  }

  // ---- The scan as a multiset ----

  lemma {:induction false} FilterConcat(q: Query, a: seq<Interval>, b: seq<Interval>)
    ensures Filter(q, a + b) == Filter(q, a) + Filter(q, b)
  {
    hide Matches;
    if a == [] {
      assert a + b == b;
    } else {
      FilterConcat(q, a[1..], b);
      assert (a + b)[1..] == a[1..] + b && (a + b)[0] == a[0];
      var front := if Matches(q, a[0]) then [a[0]] else [];
      assert front + (Filter(q, a[1..]) + Filter(q, b)) == front + Filter(q, a[1..]) + Filter(q, b);
    }
  }

  lemma {:induction false} FilterCounts(q: Query, s: seq<Interval>, i: Interval)
    ensures multiset(Filter(q, s))[i] == if Matches(q, i) then multiset(s)[i] else 0
  {
    if s != [] {
      FilterCounts(q, s[1..], i);
      assert s == [s[0]] + s[1..];
      var front := if Matches(q, s[0]) then [s[0]] else [];
      assert multiset(front + Filter(q, s[1..])) == multiset(front) + multiset(Filter(q, s[1..]));
      assert multiset(s) == multiset([s[0]]) + multiset(s[1..]);
    }
  }

  lemma {:induction false} FilterOfPermutation(q: Query, a: seq<Interval>, b: seq<Interval>)
    requires multiset(a) == multiset(b)
    ensures multiset(Filter(q, a)) == multiset(Filter(q, b))
  {
    forall i
      ensures multiset(Filter(q, a))[i] == multiset(Filter(q, b))[i]
    {
      FilterCounts(q, a, i);
      FilterCounts(q, b, i);
    }
  }

  lemma {:induction false} FilterNothing(q: Query, s: seq<Interval>)
    requires forall i :: i in s ==> !Matches(q, i)
    ensures Filter(q, s) == []
  {
    if s != [] { FilterNothing(q, s[1..]); }
  }

  // ---- The tree against the scan ----

  function OwnNear(t: Tree, stop: Scalar): seq<Interval> {
    if t.intervals != [] && !(stop < t.intervals[0].start) then t.intervals else []
  }

  function LeftNear(t: Tree, start: Scalar, stop: Scalar): seq<Interval> {
    if t.left.Some? && start <= t.center then VisitNear(t.left.value, start, stop) else []
  }

  function RightNear(t: Tree, start: Scalar, stop: Scalar): seq<Interval> {
    if t.right.Some? && stop >= t.center then VisitNear(t.right.value, start, stop) else []
  }

  function Lefts(t: Tree): seq<Interval> { if t.left.Some? then Contents(t.left.value) else [] }
  function Rights(t: Tree): seq<Interval> { if t.right.Some? then Contents(t.right.value) else [] }

  lemma {:induction false} Parts(t: Tree, start: Scalar, stop: Scalar)
    ensures VisitNear(t, start, stop) == OwnNear(t, stop) + LeftNear(t, start, stop) + RightNear(t, start, stop)
    ensures Contents(t) == t.intervals + Lefts(t) + Rights(t)
  {}

  /** Pruning loses nothing: what is near matches as often as everything does. */
  lemma {:induction false} PruningIsSafe(t: Tree, q: Query)
    requires Split(t)
    ensures multiset(Find(t, q)) == multiset(Filter(q, Contents(t)))
    decreases t
  {
    hide Filter, VisitNear, Contents, OwnNear, LeftNear, RightNear, Lefts, Rights;
    OwnPruning(t, q);
    if t.left.Some? { PruningIsSafe(t.left.value, q); }
    if t.right.Some? { PruningIsSafe(t.right.value, q); }
    SidePruning(t, q);
    Parts(t, q.start, q.stop);
    FilterThree(q, OwnNear(t, q.stop), LeftNear(t, q.start, q.stop), RightNear(t, q.start, q.stop));
    FilterThree(q, t.intervals, Lefts(t), Rights(t));
  }

  /** A side that is not visited has no match, and one that is loses none. */
  lemma {:induction false} SidePruning(t: Tree, q: Query)
    requires Split(t)
    requires t.left.Some? ==> multiset(Find(t.left.value, q)) == multiset(Filter(q, Contents(t.left.value)))
    requires t.right.Some? ==> multiset(Find(t.right.value, q)) == multiset(Filter(q, Contents(t.right.value)))
    ensures multiset(Filter(q, LeftNear(t, q.start, q.stop))) == multiset(Filter(q, Lefts(t)))
    ensures multiset(Filter(q, RightNear(t, q.start, q.stop))) == multiset(Filter(q, Rights(t)))
  {
    hide Filter, VisitNear, Contents;
    FilterEmpty(q);
    if t.left.Some? && !(q.start <= t.center) { FilterNothing(q, Contents(t.left.value)); }
    if t.right.Some? && !(q.stop >= t.center) { FilterNothing(q, Contents(t.right.value)); }
  }

  lemma {:induction false} FilterEmpty(q: Query)
    ensures Filter(q, []) == []
  {}

  lemma {:induction false} OwnPruning(t: Tree, q: Query)
    requires Split(t)
    ensures Filter(q, OwnNear(t, q.stop)) == Filter(q, t.intervals)
  {
    if t.intervals != [] && q.stop < t.intervals[0].start {
      forall i | i in t.intervals
        ensures !Matches(q, i)
      {
        var k :| 0 <= k < |t.intervals| && t.intervals[k] == i;
      }
      FilterNothing(q, t.intervals);
    }
  }

  lemma {:induction false} FilterThree(q: Query, a: seq<Interval>, b: seq<Interval>, c: seq<Interval>)
    ensures multiset(Filter(q, a + b + c)) == multiset(Filter(q, a)) + multiset(Filter(q, b)) + multiset(Filter(q, c))
  {
    FilterConcat(q, a + b, c);
    FilterConcat(q, a, b);
  }

  // ---- The self check ----

  function MinStart(s: seq<Interval>): (m: Scalar)
    requires s != []
    ensures (exists i :: i in s && m == i.start) && forall i :: i in s ==> m <= i.start
  {
    if |s| == 1 then s[0].start else Min(MinStart(s[..|s| - 1]), s[|s| - 1].start)
  }

  function MaxStop(s: seq<Interval>): (m: Scalar)
    requires s != []
    ensures (exists i :: i in s && m == i.stop) && forall i :: i in s ==> i.stop <= m
  {
    if |s| == 1 then s[0].stop
    else
      var m := MaxStop(s[..|s| - 1]);
      if m < s[|s| - 1].stop then s[|s| - 1].stop else m
  }

  /** `is_valid`: a verdict and two bounds. The second bound is combined with `min`, as in the source, so it stays 0. */
  function IsValid(t: Tree): (bool, Scalar, Scalar)
    decreases t
  {
    var own: (Scalar, Scalar) :=
      if t.intervals == [] then (TWO_64 - 1, 0)
      else (Min(TWO_64 - 1, MinStart(t.intervals)), Min(0, MaxStop(t.intervals)));
    var l := if t.left.Some? then IsValid(t.left.value) else (true, own.0, own.1);
    var afterLeft := (Min(own.0, l.1), Min(own.1, l.2));
    if !l.0 || (t.left.Some? && l.2 >= t.center) then (false, afterLeft.0, afterLeft.1)
    else
      var r := if t.right.Some? then IsValid(t.right.value) else (true, afterLeft.0, afterLeft.1);
      var afterRight := (Min(afterLeft.0, r.1), Min(afterLeft.1, r.2));
      if !r.0 || (t.right.Some? && r.1 <= t.center) then (false, afterRight.0, afterRight.1)
      else (Sorted(t.intervals), afterRight.0, afterRight.1)
  }

  /** A built tree passes its check, and the first bound is its least start. */
  lemma {:induction false} BuiltTreesAreValid(t: Tree)
    requires Split(t)
    ensures IsValid(t) == (true, LeastStart(Contents(t)), 0)
    decreases t
  {
    hide LeastStart;
    var lefts := if t.left.Some? then Contents(t.left.value) else [];
    var rights := if t.right.Some? then Contents(t.right.value) else [];
    if t.left.Some? {
      BuiltTreesAreValid(t.left.value);
      assert lefts[0] in lefts;
    }
    if t.right.Some? {
      BuiltTreesAreValid(t.right.value);
      LeastStartAbove(rights, t.center);
    }
    LeastStartOwn(t.intervals);
    LeastStartOwn([]);
    MinStartThree(t.intervals, lefts, rights);
  }

  /** The least start, 2^64 - 1 for no intervals. */
  function LeastStart(s: seq<Interval>): (m: Scalar)
    ensures forall i :: i in s ==> m <= i.start
  {
    if s == [] then TWO_64 - 1 else Min(LeastStart(s[..|s| - 1]), s[|s| - 1].start)
  }

  lemma {:induction false} LeastStartOwn(s: seq<Interval>)
    ensures LeastStart(s) == if s == [] then TWO_64 - 1 else Min(TWO_64 - 1, MinStart(s))
  {
    if |s| > 1 { LeastStartOwn(s[..|s| - 1]); }
  }

  lemma {:induction false} LeastStartAbove(s: seq<Interval>, center: Scalar)
    requires s != [] && forall i :: i in s ==> i.start > center
    ensures LeastStart(s) > center
  {
    LeastStartOwn(s);
  }

  lemma {:induction false} MinStartThree(a: seq<Interval>, b: seq<Interval>, c: seq<Interval>)
    ensures LeastStart(a + b + c) == Min(Min(LeastStart(a), LeastStart(b)), LeastStart(c))
  {
    LeastStartConcat(a, b);
    LeastStartConcat(a + b, c);
  }

  lemma {:induction false} LeastStartConcat(a: seq<Interval>, b: seq<Interval>)
    ensures LeastStart(a + b) == Min(LeastStart(a), LeastStart(b))
  {
    if b == [] {
      assert a + b == a;
    } else {
      assert (a + b)[..|a + b| - 1] == a + b[..|b| - 1];
      LeastStartConcat(a, b[..|b| - 1]);
    }
  }

  // ---- Construction ----

  lemma SortedInsert(a: seq<Interval>, x: Interval, b: seq<Interval>)
    requires Sorted(a + b)
    requires forall i :: 0 <= i < |a| ==> a[i].start <= x.start
    requires forall i :: 0 <= i < |b| ==> x.start <= b[i].start
    ensures Sorted(a + [x] + b)
  {
    var r := a + [x] + b;
    forall i, j | 0 <= i < j < |r|
      ensures r[i].start <= r[j].start
    {
      if i != |a| && j != |a| {
        var i', j' := if i < |a| then i else i - 1, if j < |a| then j else j - 1;
        assert r[i] == (a + b)[i'] && r[j] == (a + b)[j'];
      }
    }
  }

  method FindPlace(s: seq<Interval>, x: Interval) returns (i: nat)
    requires Sorted(s)
    ensures i <= |s| && (forall j :: 0 <= j < i ==> s[j].start <= x.start) && forall j :: i <= j < |s| ==>
            x.start <= s[j].start
  {
    i := |s|;
    while i > 0 && s[i - 1].start > x.start
      invariant 0 <= i <= |s| && forall j :: i <= j < |s| ==> s[j].start > x.start
    {
      i := i - 1;
    }
  }

  method Insert(s: seq<Interval>, x: Interval) returns (r: seq<Interval>)
    requires Sorted(s)
    ensures Sorted(r) && multiset(r) == multiset(s + [x])
  {
    hide Sorted;
    var i := FindPlace(s, x);
    assert s[..i] + s[i..] == s;
    SortedInsert(s[..i], x, s[i..]);
    InsertPermutes(s[..i], x, s[i..]);
    r := s[..i] + [x] + s[i..];
  }

  lemma InsertPermutes(a: seq<Interval>, x: Interval, b: seq<Interval>)
    ensures multiset(a + [x] + b) == multiset(a + b + [x])
  {
    assert multiset(a + [x] + b) == multiset(a) + multiset([x]) + multiset(b);
    assert multiset(a + b + [x]) == multiset(a) + multiset(b) + multiset([x]);
  }

  method SortByStart(s: seq<Interval>) returns (r: seq<Interval>)
    ensures Sorted(r) && multiset(r) == multiset(s)
  {
    hide Sorted;
    r := [];
    assert Sorted([]) by { NothingIsSorted(); }
    for k := 0 to |s|
      invariant Sorted(r) && multiset(r) == multiset(s[..k])
    {
      r := Insert(r, s[k]);
      assert s[..k + 1] == s[..k] + [s[k]];
    }
    assert s[..|s|] == s;
  }

  lemma NothingIsSorted()
    ensures Sorted([])
  {}

  /** Half the sum of the least start and the greatest stop, in 64-bit arithmetic. */
  function WrappedMidpoint(ivals: seq<Interval>): Scalar
    requires ivals != []
  {
    ((MinStart(ivals) + MaxStop(ivals)) % TWO_64) / 2
  }

  /** The depth after the constructor's `--depth`, which wraps. */
  function Deeper(depth: Scalar): Scalar { if depth == 0 then TWO_64 - 1 else depth - 1 }

  predicate IsLeaf(n: nat, depth: Scalar, minbucket: nat, maxbucket: nat) {
    Deeper(depth) == 0 || (n < minbucket && n < maxbucket)
  }

  /**
   The constructor, for any choice of centre. It asks that intervals are sorted when an extent is given;
   a list that is not made a leaf and has no extent must not be empty, since its first element is read.
  */
  method Build(ivals0: seq<Interval>, depth: Scalar, minbucket: nat, maxbucket: nat, leftextent: Scalar,
               rightextent: Scalar,
               choose: seq<Interval> -> Scalar) returns (t: Tree)
    requires forall i :: i in ivals0 ==> Ordered(i)
    requires leftextent != 0 || rightextent != 0 ==> Sorted(ivals0)
    requires leftextent == 0 == rightextent && !IsLeaf(|ivals0|, depth, minbucket, maxbucket) ==> ivals0 != []
    ensures Split(t) && multiset(Contents(t)) == multiset(ivals0)
    ensures IsValid(t).0
    decreases if depth == 0 then TWO_64 else depth
  {
    hide Split, Select, Sorted, Contents, IsValid, Ordered, MaxStop;
    var ivals := ivals0;
    var center := if ivals != [] then choose(ivals) else 0;
    if leftextent == 0 && rightextent == 0 {
      ivals := SortByStart(ivals);
    } else {
      assert Sorted(ivals);
    }
    SameMembers(ivals, ivals0);
    if IsLeaf(|ivals|, depth, minbucket, maxbucket) {
      var sorted := SortByStart(ivals);
      SameMembers(sorted, ivals);
      t := Tree(sorted, None, None, center);
      NodeIsSplit(t, [], []);
      BuiltTreesAreValid(t);
      assert IsValid(t).0;
      return;
    }
    var leftp, rightp := leftextent, rightextent;
    if leftextent == 0 && rightextent == 0 {
      leftp, rightp := ivals[0].start, MaxStop(ivals);
    }
    var lefts, mids, rights := Partition(ivals, center);
    SelectMembers(ivals, center, Before);
    SelectMembers(ivals, center, Across);
    SelectMembers(ivals, center, After);
    SelectAll(ivals, center);
    SidesMean(center);
    var left, right := None, None;
    if lefts != [] {
      var l := Build(lefts, Deeper(depth), minbucket, maxbucket, leftp, center, choose);
      left := Some(l);
    }
    if rights != [] {
      var r := Build(rights, Deeper(depth), minbucket, maxbucket, center, rightp, choose);
      right := Some(r);
    }
    t := Tree(mids, left, right, center);
    NodeIsSplit(t, lefts, rights);
    BuiltTreesAreValid(t);
    assert IsValid(t).0;
  }

  lemma {:induction false} NodeIsSplit(t: Tree, lefts: seq<Interval>, rights: seq<Interval>)
    requires Sorted(t.intervals) && forall i :: i in t.intervals ==> Ordered(i)
    requires t.left.Some? <==> lefts != []
    requires t.right.Some? <==> rights != []
    requires t.left.Some? ==> Split(t.left.value) && multiset(Contents(t.left.value)) == multiset(lefts)
    requires t.right.Some? ==> Split(t.right.value) && multiset(Contents(t.right.value)) == multiset(rights)
    requires forall i :: i in lefts ==> Ordered(i) && i.stop < t.center
    requires forall i :: i in rights ==> Ordered(i) && i.start > t.center
    ensures Split(t) && multiset(Contents(t)) == multiset(t.intervals) + multiset(lefts) + multiset(rights)
  {
    if t.left.Some? { SameMembers(Contents(t.left.value), lefts); }
    if t.right.Some? { SameMembers(Contents(t.right.value), rights); }
    assert Contents(t) == t.intervals + Lefts(t) + Rights(t);
    assert multiset(t.intervals + Lefts(t) + Rights(t)) ==
           multiset(t.intervals) + multiset(Lefts(t)) + multiset(Rights(t));
  }

  // ---- Partition ----

  datatype Side = Before | Across | After

  function SideOf(i: Interval, center: Scalar): Side {
    if i.stop < center then Before else if i.start > center then After else Across
  }

  lemma SidesMean(center: Scalar)
    ensures forall i :: SideOf(i, center) == Before ==> i.stop < center
    ensures forall i :: SideOf(i, center) == After ==> i.start > center
  {}

  /** The intervals on one side of a centre, in order. */
  function Select(ivals: seq<Interval>, center: Scalar, side: Side): seq<Interval> {
    if ivals == [] then []
    else
      var last := ivals[|ivals| - 1];
      Select(ivals[..|ivals| - 1], center, side) + if SideOf(last, center) == side then [last] else []
  }

  lemma {:induction false} SelectMembers(ivals: seq<Interval>, center: Scalar, side: Side)
    ensures forall i :: i in Select(ivals, center, side) ==> i in ivals && SideOf(i, center) == side
    ensures Sorted(ivals) ==> Sorted(Select(ivals, center, side))
  {
    if ivals != [] {
      var front, last := ivals[..|ivals| - 1], ivals[|ivals| - 1];
      SelectMembers(front, center, side);
      var rest := Select(front, center, side);
      assert forall i :: i in front ==> i in ivals;
      if Sorted(ivals) && SideOf(last, center) == side {
        forall k | 0 <= k < |rest|
          ensures rest[k].start <= last.start
        {
          assert rest[k] in front;
        }
        assert rest + [] == rest && rest + [last] + [] == rest + [last];
        SortedInsert(rest, last, []);
      }
    }
  }

  lemma {:induction false} SelectCounts(ivals: seq<Interval>, center: Scalar, side: Side, i: Interval)
    ensures multiset(Select(ivals, center, side))[i] == if SideOf(i, center) == side then multiset(ivals)[i] else 0
  {
    hide SideOf;
    if ivals != [] {
      var front, last := ivals[..|ivals| - 1], ivals[|ivals| - 1];
      SelectCounts(front, center, side, i);
      assert ivals == front + [last];
    }
  }

  lemma {:induction false} SelectAll(ivals: seq<Interval>, center: Scalar)
    ensures multiset(ivals) == multiset(Select(ivals, center, Across)) + multiset(Select(ivals, center, Before))
                               + multiset(Select(ivals, center, After))
  {
    forall i
      ensures multiset(ivals)[i] ==
              multiset(Select(ivals, center, Across))[i] + multiset(Select(ivals, center, Before))[i]
                                    + multiset(Select(ivals, center, After))[i]
    {
      SelectCounts(ivals, center, Across, i);
      SelectCounts(ivals, center, Before, i);
      SelectCounts(ivals, center, After, i);
    }
  }

  /** The loop that deals the intervals out to the three sides of a centre. */
  method Partition(ivals: seq<Interval>, center: Scalar)
    returns (lefts: seq<Interval>, mids: seq<Interval>, rights: seq<Interval>)
    ensures lefts == Select(ivals, center, Before)
    ensures mids == Select(ivals, center, Across)
    ensures rights == Select(ivals, center, After)
  {
    lefts, mids, rights := [], [], [];
    for k := 0 to |ivals|
      invariant lefts == Select(ivals[..k], center, Before)
      invariant mids == Select(ivals[..k], center, Across)
      invariant rights == Select(ivals[..k], center, After)
    {
      var interval := ivals[k];
      assert ivals[..k + 1][..k] == ivals[..k];
      if interval.stop < center {
        lefts := lefts + [interval];
      } else if interval.start > center {
        rights := rights + [interval];
      } else {
        assert interval.start <= center && center <= interval.stop;
        mids := mids + [interval];
      }
    }
    assert ivals[..|ivals|] == ivals;
  }

  lemma SameMembers(a: seq<Interval>, b: seq<Interval>)
    requires multiset(a) == multiset(b)
    ensures |a| == |b| && forall i :: i in a <==> i in b
  {
    assert |multiset(a)| == |multiset(b)|;
    assert forall i :: i in a <==> i in multiset(a);
  }

  /** The index agrees with the scan. */
  lemma {:induction false} TreeAgreesWithScan(t: Tree, ivals: seq<Interval>, q: Query)
    requires Split(t) && multiset(Contents(t)) == multiset(ivals)
    ensures multiset(Find(t, q)) == multiset(Filter(q, ivals))
  {
    PruningIsSafe(t, q);
    FilterOfPermutation(q, Contents(t), ivals);
  }

  /**
   Building with the source's centre and asking: the answer is the linear scan's, for every list, depth, bucket size
   and query.
  */
  method BuildAndFind(ivals: seq<Interval>, depth: Scalar, minbucket: nat, maxbucket: nat, q: Query)
    returns (found: seq<Interval>)
    requires forall i :: i in ivals ==> Ordered(i)
    requires IsLeaf(|ivals|, depth, minbucket, maxbucket) || ivals != []
    ensures multiset(found) == multiset(Filter(q, ivals))
  {
    var t := Build(ivals, depth, minbucket, maxbucket, 0, 0, s => if s == [] then 0 else WrappedMidpoint(s));
    TreeAgreesWithScan(t, ivals, q);
    found := Find(t, q);
  }

  /** The depth runs out at one; a list is small enough below both bucket sizes. */
  lemma LeafMeans(n: nat, depth: Scalar, minbucket: nat, maxbucket: nat)
    ensures IsLeaf(n, depth, minbucket, maxbucket) <==> depth == 1 || (n < minbucket && n < maxbucket)
  {}

  /**
   With no extents, the first element of an empty list would be read exactly when a bucket size is 0 and the depth is
   not 1.
  */
  lemma EmptyListIsReadWhen(depth: Scalar, minbucket: nat, maxbucket: nat)
    ensures !IsLeaf(0, depth, minbucket, maxbucket) <==> depth != 1 && (minbucket == 0 || maxbucket == 0)
  {}
}
