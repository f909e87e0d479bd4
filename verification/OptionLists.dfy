/**
 The linked lists of parsed options: circular, with tagged links at the ends, built in place by the
 storing pass. Following `Next` from the head of a list visits the stored options of its index in
 command-line order.
*/
module OptionLists {
  import opened Common
  import opened OptionModel

  class Node {
    /** The option this slot holds; nothing in an unused slot, whose `desc` is NULL. */
    var value: Maybe<Option>
    /** A link is a pointer whose lowest bit is a tag. */
    var next: Node?
    var nextTagged: bool
    var prev: Node?
    var prevTagged: bool
    /** The list the node belongs to, or -1. */
    ghost var list: int
    /** The buffer slot the node is, or -1 for a slot of the options array. */
    ghost const slot: int

    constructor (ghost l: int, ghost s: int)
      ensures value == None && Ring([this]) && list == l && slot == s
    {
      value, nextTagged, prevTagged := None, true, true;
      list, slot := l, s;
      new;
      next, prev := this, this;
    }

    /** Copying content into a slot makes it a list of its own. */
    method Assign(option: Option)
      modifies `value, `next, `nextTagged, `prev, `prevTagged
      ensures value == Some(option) && Ring([this])
    {
      value := Some(option);
      next, nextTagged := this, true;
      prev, prevTagged := this, true;
    }

    predicate IsFirst()
      reads this
    { prevTagged }

    predicate IsLast()
      reads this
    { nextTagged }

    method First(ghost ring: seq<Node>, ghost i: nat) returns (p: Node)
      requires Ring(ring) && i < |ring| && this == ring[i]
      ensures p == ring[0]
    {
      p := this;
      ghost var at := i;
      EndsOnly(ring, at);
      while !p.IsFirst()
        invariant 0 <= at < |ring| && p == ring[at] && (p.IsFirst() <==> at == 0)
        decreases at
      {
        assert Linked(ring, at - 1);
        p := p.prev;
        at := at - 1;
        EndsOnly(ring, at);
      }
    }

    /** The latest element, from any element. */
    method Last(ghost ring: seq<Node>, ghost i: nat) returns (p: Node)
      requires Ring(ring) && i < |ring| && this == ring[i]
      ensures p == ring[|ring| - 1]
    {
      var f := First(ring, i);
      p := f.prev;
    }

    /** The number of elements, from any element; none for an unused slot. */
    method Count(ghost ring: seq<Node>, ghost i: nat) returns (c: nat)
      requires Ring(ring) && i < |ring| && this == ring[i]
      requires Used(ring) || (|ring| == 1 && value == None)
      ensures c == if value == None then 0 else |ring|
    {
      c := if value == None then 0 else 1;
      var p := First(ring, i);
      ghost var at := 0;
      EndsOnly(ring, at);
      while !p.IsLast()
        invariant 0 <= at < |ring| && p == ring[at] && (p.IsLast() <==> at == |ring| - 1)
        invariant c == at + if value == None then 0 else 1
        decreases |ring| - at
      {
        assert Linked(ring, at);
        c := c + 1;
        p := p.next;
        at := at + 1;
        EndsOnly(ring, at);
      }
    }

    /** The next element, or nothing at the end. */
    method Next(ghost ring: seq<Node>, ghost i: nat) returns (p: Node?)
      requires Ring(ring) && i < |ring| && this == ring[i]
      ensures p == if i + 1 < |ring| then ring[i + 1] else null
    {
      EndsOnly(ring, i);
      assert i + 1 < |ring| ==> Linked(ring, i);
      p := if IsLast() then null else next;
    }

    /** The previous element, or nothing at the front. */
    method Prev(ghost ring: seq<Node>, ghost i: nat) returns (p: Node?)
      requires Ring(ring) && i < |ring| && this == ring[i]
      ensures p == if i > 0 then ring[i - 1] else null
    {
      EndsOnly(ring, i);
      assert i > 0 ==> Linked(ring, i - 1);
      p := if IsFirst() then null else prev;
    }

    /** Chains `newLast` in after the last element, whichever element this is. */
    method Append(newLast: Node, ghost ring: seq<Node>, ghost i: nat)
      requires Ring(ring) && i < |ring| && this == ring[i] && newLast !in ring
      modifies ring, newLast
      ensures Ring(ring + [newLast])
      ensures forall n :: n in ring + [newLast] ==> n.value == old(n.value) && n.list == old(n.list)
    {
      var p := Last(ring, i);
      var f := First(ring, i);
      p.next, p.nextTagged := newLast, false;
      newLast.prev, newLast.prevTagged := p, false;
      newLast.next, newLast.nextTagged := f, true;
      f.prev, f.prevTagged := newLast, true;
      ghost var longer := ring + [newLast];
      forall k | 0 <= k < |longer| - 1
        ensures Linked(longer, k)
      {
        if k + 1 < |ring| {
          assert old(Linked(ring, k));
        }
      }
    }
  }

  ghost predicate Linked(ring: seq<Node>, i: nat)
    requires i + 1 < |ring|
    reads ring
  {
    && ring[i].next == ring[i + 1] && !ring[i].nextTagged
    && ring[i + 1].prev == ring[i] && !ring[i + 1].prevTagged
  }

  /** Doubly linked in order, closed up through two tagged links. */
  ghost predicate Ring(ring: seq<Node>)
    reads ring
  {
    && ring != [] && (forall i, j :: 0 <= i < j < |ring| ==> ring[i] != ring[j])
    && (forall i :: 0 <= i < |ring| - 1 ==> Linked(ring, i))
    && ring[|ring| - 1].next == ring[0] && ring[|ring| - 1].nextTagged
    && ring[0].prev == ring[|ring| - 1] && ring[0].prevTagged
  }

  /** Tagged links mark the two ends and nothing else. */
  lemma EndsOnly(ring: seq<Node>, i: nat)
    requires Ring(ring) && i < |ring|
    ensures ring[i].IsFirst() <==> i == 0
    ensures ring[i].IsLast() <==> i == |ring| - 1
  {
    assert i > 0 ==> Linked(ring, i - 1);
    assert i + 1 < |ring| ==> Linked(ring, i);
  }

  ghost predicate Used(ring: seq<Node>)
    reads ring
  {
    forall i :: 0 <= i < |ring| ==> ring[i].value.Some?
  }

  // ---- The storing pass ----

  /** The options among `stored` whose row has list index `k`, in order. */
  function WithIndex(usage: seq<Descriptor>, stored: seq<Option>, k: nat): seq<Option> {
    if stored == [] then []
    else
      var front := WithIndex(usage, stored[..|stored| - 1], k);
      var o := stored[|stored| - 1];
      if o.desc < |usage| && usage[o.desc].index == k then front + [o] else front
  }

  ghost function ValuesOf(ring: seq<Node>): (v: seq<Option>)
    requires Used(ring)
    reads ring
    ensures |v| == |ring| && forall i :: 0 <= i < |ring| ==> v[i] == ring[i].value.value
  {
    seq(|ring|, i requires 0 <= i < |ring| && Used(ring) reads ring => ring[i].value.value)
  }

  /**
   The nodes of list `k`: its head is a slot of the options array, the others are buffer slots, and they hold
   `expected`.
  */
  ghost predicate ListOk(ring: seq<Node>, head: Node, k: int, expected: seq<Option>)
    reads ring
  {
    && Ring(ring) && ring[0] == head
    && (forall i :: 0 <= i < |ring| ==> ring[i].list == k && (ring[i].slot == -1 <==> i == 0))
    && if expected == [] then |ring| == 1 && head.value == None else Used(ring) && ValuesOf(ring) == expected
  }

  /** The buffer: filled slots hold what was stored, free slots belong to no list. */
  ghost predicate SlotsOk(buffer: seq<Node>, stored: seq<Option>)
    reads buffer
  {
    && |stored| <= |buffer|
    && (forall i :: 0 <= i < |buffer| ==> buffer[i].slot == i)
    && (forall i :: 0 <= i < |stored| ==> buffer[i].value == Some(stored[i]))
    && (forall i :: |stored| <= i < |buffer| ==> buffer[i].list == -1 && buffer[i].value == None)
  }

  ghost function NodesOf(options: seq<Node>, buffer: seq<Node>): set<Node> {
    (set n | n in options) + (set n | n in buffer)
  }

  /** Both arrays with `stored` in the buffer, and its options chained index by index along `rings`. */
  ghost predicate Chained(usage: seq<Descriptor>, options: seq<Node>, buffer: seq<Node>, stored: seq<Option>,
                          rings: seq<seq<Node>>,
                          nodes: set<Node>)
    reads nodes
  {
    && Within(options, nodes) && Within(buffer, nodes)
    && |rings| == |options| && SlotsOk(buffer, stored)
    && (forall k :: 0 <= k < |options| ==> options[k].slot == -1)
    && (forall k :: 0 <= k < |rings| ==> Within(rings[k], nodes))
    && forall k :: 0 <= k < |rings| ==> ListOk(rings[k], options[k], k, WithIndex(usage, stored, k))
  }

  /** An options array of zeroed slots. */
  ghost predicate EmptyLists(options: seq<Node>)
    reads options
  {
    forall k :: 0 <= k < |options| ==>
      options[k].list == k && options[k].slot == -1 && options[k].value == None && Ring([options[k]])
  }

  ghost predicate Within(ring: seq<Node>, nodes: set<Node>) {
    forall i :: 0 <= i < |ring| ==> ring[i] in nodes
  }

  class StoreOptionAction {
    const usage: seq<Descriptor>
    /** The two arrays of the caller. Their slots never move, so sequences of nodes stand for them. */
    const options: seq<Node>
    const buffer: seq<Node>
    const bufmax: int
    var opCount: nat
    /** The options stored so far and, for each index, the nodes of its list. */
    ghost var stored: seq<Option>
    ghost var rings: seq<seq<Node>>
    ghost const nodes: set<Node>

    ghost predicate Valid()
      reads this, nodes
    {
      && Chained(usage, options, buffer, stored, rings, nodes)
      && opCount == if bufmax < 0 then |stored| else Min(|stored|, bufmax)
    }

    /** Starts at the first empty slot, after whatever earlier passes stored. */
    constructor (table: seq<Descriptor>, optionSlots: seq<Node>, bufferSlots: seq<Node>, limit: int,
                 ghost filled: seq<Option>, ghost lists: seq<seq<Node>>)
      requires Chained(table, optionSlots, bufferSlots, filled, lists, NodesOf(optionSlots, bufferSlots))
      requires limit <= |bufferSlots| && (limit < 0 ==> |filled| < |bufferSlots|)
      ensures nodes == NodesOf(optionSlots, bufferSlots)
      ensures Valid() && stored == filled && usage == table && options == optionSlots && buffer == bufferSlots
              && bufmax == limit
    {
      usage, options, buffer, bufmax := table, optionSlots, bufferSlots, limit;
      opCount, stored, rings := 0, filled, lists;
      nodes := NodesOf(optionSlots, bufferSlots);
      new;
      hide ListOk, WithIndex;
      while (bufmax < 0 || opCount < bufmax) && buffer[opCount].value.Some?
        invariant Chained(usage, options, buffer, stored, rings, nodes)
        invariant stored == filled && rings == lists && opCount <= |stored| && (bufmax >= 0 ==> opCount <= bufmax)
        decreases |stored| - opCount
      {
        assert opCount < |stored|;
        opCount := opCount + 1;
      }
    }

    /** Stores an option and chains it into the list of its index. */
    method Perform(option: Option) returns (ok: bool)
      requires Valid() && option.desc < |usage| && 0 <= AsInt(usage[option.desc].index) < |options|
      requires bufmax <= |buffer| && (bufmax < 0 ==> opCount < |buffer| || opCount == MAX_INT)
      modifies this, nodes
      ensures Valid()
      ensures (Store(bufmax, stored), ok) == OptionModel.Perform(Store(bufmax, old(stored)), option)
    {
      hide ListOk, WithIndex, SlotsOk;
      if bufmax >= 0 && opCount >= bufmax {
        return true;
      }
      if opCount == MAX_INT {
        return false;
      }
      FitsBuffer();
      var k := AsInt(usage[option.desc].index);
      ghost var longer := FillSlot(option, k);
      WithIndexSnoc(usage, stored, option);
      opCount := opCount + 1;
      stored := stored + [option];
      rings := rings[k := longer];
      ok := true;
    }

    /** The free slot is filled and chained into one list; the other slots and lists stay. */
    method FillSlot(option: Option, k: nat) returns (ghost longer: seq<Node>)
      requires Valid() && k < |options| && opCount == |stored| < |buffer|
      modifies nodes
      ensures ListOk(longer, options[k], k, WithIndex(usage, stored, k) + [option]) && Within(longer, nodes)
      ensures forall j :: 0 <= j < |rings| && j != k ==> ListOk(rings[j], options[j], j, WithIndex(usage, stored, j))
      ensures SlotsOk(buffer, stored + [option])
    {
      hide ListOk, WithIndex;
      var node := buffer[opCount];
      RingsApart(k);
      FreeSlot();
      longer := Chain(options[k], node, option, rings[k], k, WithIndex(usage, stored, k));
      assert forall i :: 0 <= i < |buffer| && i != opCount ==> buffer[i] != node;
    }

    /** The loop of a caller: from the head, if it is used, along `Next` to the end. */
    method Visit(k: nat) returns (visited: seq<Option>)
      requires Valid() && k < |options|
      ensures visited == WithIndex(usage, stored, k)
    {
      ghost var ring := rings[k];
      assert ListOk(ring, options[k], k, WithIndex(usage, stored, k));
      visited := [];
      var o: Node? := if options[k].value.Some? then options[k] else null;
      while o != null
        invariant |visited| <= |ring|
        invariant o == null ==> visited == WithIndex(usage, stored, k)
        invariant o != null ==> |visited| < |ring| && o == ring[|visited|] && Used(ring)
                                && visited == ValuesOf(ring)[..|visited|]
        decreases |ring| - |visited|, o != null
      {
        visited := visited + [o.value.value];
        o := o.Next(ring, |visited| - 1);
      }
    }

    /** From any element of a list: how many stored options have its index, and the latest of them. */
    method CountAndLast(k: nat, ghost i: nat, element: Node) returns (count: nat, latest: Maybe<Option>)
      requires Valid() && k < |options| && i < |rings[k]| && element == rings[k][i]
      ensures count == |WithIndex(usage, stored, k)|
      ensures latest == if count == 0 then None else Some(WithIndex(usage, stored, k)[count - 1])
    {
      assert ListOk(rings[k], options[k], k, WithIndex(usage, stored, k));
      count := element.Count(rings[k], i);
      var last := element.Last(rings[k], i);
      latest := last.value;
      assert count > 0 ==> latest.value == ValuesOf(rings[k])[count - 1];
    }

    /** Nodes of different lists are different, and a free slot is in none. */
    lemma RingsApart(k: nat)
      requires Valid() && k < |options| && opCount == |stored| < |buffer|
      ensures forall j, i :: 0 <= j < |rings| && j != k && 0 <= i < |rings[j]| ==> rings[j][i] !in rings[k]
      ensures forall j, i :: 0 <= j < |rings| && 0 <= i < |rings[j]| ==> rings[j][i] != buffer[opCount]
      ensures forall i :: opCount <= i < |buffer| ==> buffer[i] !in rings[k]
    {
      forall j, i | 0 <= j < |rings| && 0 <= i < |rings[j]|
        ensures rings[j][i].list == j
      {
        assert ListOk(rings[j], options[j], j, WithIndex(usage, stored, j));
      }
    }

    lemma FitsBuffer()
      requires Valid()
      ensures |stored| <= |buffer| && (bufmax < 0 ==> opCount == |stored|)
    {}

    lemma FreeSlot()
      requires Valid() && opCount == |stored| < |buffer|
      ensures buffer[opCount].list == -1 && buffer[opCount].slot == opCount
    {}
  }

  lemma {:induction false} WithIndexSnoc(usage: seq<Descriptor>, stored: seq<Option>, option: Option)
    requires option.desc < |usage|
    ensures forall j :: WithIndex(usage, stored + [option], j) ==
                        if usage[option.desc].index == j then WithIndex(usage, stored, j) + [option]
                        else WithIndex(usage, stored, j)
  {
    assert (stored + [option])[..|stored|] == stored;
  }

  /** Fills a free slot and makes it the last of a list, or, if the list is empty, copies it into the list's head. */
  method Chain(head: Node, node: Node, option: Option, ghost ring: seq<Node>, ghost k: int, ghost expected: seq<Option>)
    returns (ghost longer: seq<Node>)
    requires ListOk(ring, head, k, expected) && node !in ring && node.slot != -1
    modifies ring, node
    ensures ListOk(longer, head, k, expected + [option]) && (longer == ring || longer == ring + [node])
    ensures node.value == Some(option)
    ensures forall n :: n in ring ==> n.list == k && (n.slot == -1 || n.value == old(n.value))
  {
    longer := ring;
    node.Assign(option);
    if head.value.Some? {
      node.list := k;
      head.Append(node, ring, 0);
      longer := ring + [node];
    } else {
      head.Assign(option);
      assert ring == [head];
    }
  }

  method ZeroedOptions(n: nat) returns (options: seq<Node>)
    ensures |options| == n && EmptyLists(options) && fresh(set o | o in options)
  {
    options := [];
    for k := 0 to n
      invariant |options| == k && fresh(set o | o in options) && EmptyLists(options)
    {
      var node := new Node(k, -1);
      options := options + [node];
    }
  }

  method ZeroedBuffer(n: nat) returns (buffer: seq<Node>)
    ensures |buffer| == n && SlotsOk(buffer, []) && fresh(set b | b in buffer)
  {
    buffer := [];
    for i := 0 to n
      invariant |buffer| == i && fresh(set b | b in buffer) && SlotsOk(buffer, [])
    {
      var node := new Node(-1, i);
      buffer := buffer + [node];
    }
  }

  lemma ZeroedIsChained(usage: seq<Descriptor>, options: seq<Node>, buffer: seq<Node>) returns (rings: seq<seq<Node>>)
    requires EmptyLists(options) && SlotsOk(buffer, [])
    ensures Chained(usage, options, buffer, [], rings, NodesOf(options, buffer))
  {
    rings := seq(|options|, k requires 0 <= k < |options| => [options[k]]);
  }

  /** What a table must be for its options to be stored: each row's subscript lies in the options array. */
  predicate Subscripts(usage: seq<Descriptor>, found: seq<Option>, n: int) {
    forall i :: 0 <= i < |found| ==> found[i].desc < |usage| && 0 <= AsInt(usage[found[i].desc].index) < n
  }

  /** Stores options until the first refusal: the lists change as the abstract storing pass says. */
  method StoreAll(action: StoreOptionAction, found: seq<Option>) returns (ok: bool)
    requires action.Valid() && Subscripts(action.usage, found, |action.options|)
    requires action.bufmax <= |action.buffer|
    requires action.bufmax < 0 ==> |action.stored| + |found| <= |action.buffer| || |action.buffer| == MAX_INT
    modifies action, action.nodes
    ensures action.Valid()
    ensures (Store(action.bufmax, action.stored), ok) == PerformAll(Store(action.bufmax, old(action.stored)), found)
  {
    hide Chained, PerformAll;
    var i := 0;
    ok := true;
    while i < |found|
      invariant i <= |found| && action.Valid()
      invariant action.bufmax < 0 ==> |action.stored| + |found| - i <= |action.buffer| || |action.buffer| == MAX_INT
      invariant PerformAll(Store(action.bufmax, action.stored), found[i..]) ==
                PerformAll(Store(action.bufmax, old(action.stored)), found)
    {
      PerformFirst(Store(action.bufmax, action.stored), found[i..]);
      action.FitsBuffer();
      ok := action.Perform(found[i]);
      assert found[i..][1..] == found[i + 1..];
      i := i + 1;
      if !ok { return; }
    }
    PerformFirst(Store(action.bufmax, action.stored), found[i..]);
  }

  lemma {:induction false} PerformFirst(a: Action, options: seq<Option>)
    ensures PerformAll(a, options) ==
            if options == [] then (a, true)
            else
              var (b, ok) := OptionModel.Perform(a, options[0]);
              if ok then PerformAll(b, options[1..]) else (b, false)
  {}
}
