/**
 The two passes as the tools run them: `Stats` counts options and measures the table, then `Parser`
 stores options into as many slots as were counted.
*/
module OptionPasses {
  import opened Common
  import opened OptionModel
  import opened OptionParser
  import opened OptionTheorems
  import opened OptionLists

  function U32(n: nat): Unsigned { n % 0x1_0000_0000 }

  /** The size of the options array after one more table row, in 32-bit arithmetic. */
  function GrowOptions(max: nat, index: nat): nat {
    if U32(index + 1) >= max then U32(U32(index + 1) + 1) else max
  }

  function OptionsMax(usage: seq<Descriptor>, max: nat): nat
    decreases |usage|
  {
    if usage == [] then max else OptionsMax(usage[1..], GrowOptions(max, usage[0].index))
  }

  lemma {:induction false} OptionsMaxFits(usage: seq<Descriptor>, max: nat)
    requires max < 0x1_0000_0000 && forall i :: 0 <= i < |usage| ==> usage[i].index < 0xffff_fffe
    ensures max <= OptionsMax(usage, max) < 0x1_0000_0000
    ensures forall i :: 0 <= i < |usage| ==> usage[i].index + 1 < OptionsMax(usage, max)
    decreases |usage|
  {
    hide GrowOptions;
    if usage != [] {
      GrowFits(max, usage[0].index);
      OptionsMaxFits(usage[1..], GrowOptions(max, usage[0].index));
      forall i | 0 <= i < |usage|
        ensures usage[i].index + 1 < OptionsMax(usage, max)
      {
        if i > 0 {
          assert usage[1..][i - 1] == usage[i];
        }
      }
    }
  }

  lemma GrowFits(max: nat, index: Unsigned)
    requires max < 0x1_0000_0000 && index < 0xffff_fffe
    ensures max <= GrowOptions(max, index) < 0x1_0000_0000 && index + 1 < GrowOptions(max, index)
  {}

  lemma {:induction false} OptionsMaxIs32Bit(usage: seq<Descriptor>, max: nat)
    requires max < 0x1_0000_0000
    ensures OptionsMax(usage, max) < 0x1_0000_0000
    decreases |usage|
  {
    if usage != [] {
      OptionsMaxIs32Bit(usage[1..], GrowOptions(max, usage[0].index));
    }
  }

  /** The options array has a place for every index and one more exactly when no index is within two of 2^32. */
  lemma {:induction false} OptionsArraySuffices(usage: seq<Descriptor>)
    ensures (forall i :: 0 <= i < |usage| ==> usage[i].index + 1 < OptionsMax(usage, 1)) <==>
            (forall i :: 0 <= i < |usage| ==> usage[i].index < 0xffff_fffe)
  {
    OptionsMaxIs32Bit(usage, 1);
    if forall i :: 0 <= i < |usage| ==> usage[i].index < 0xffff_fffe {
      OptionsMaxFits(usage, 1);
    }
  }

  /** One row with the largest index there is: the options array gets one slot, and the index does not fit. */
  lemma {:induction false} LargestIndexDoesNotFit()
    ensures var usage := [Descriptor(0xffff_ffff, 0, "x", "")]; OptionsMax(usage, 1) == 1 <= usage[0].index
  {
    var usage := [Descriptor(0xffff_ffff, 0, "x", "")];
    assert usage[1..] == [];
    assert U32(0xffff_ffff + 1) == 0;
  }

  /**
   The storing pass subscripts the options array with the index read as an `int`: every subscript lies
   in the array, with a place to spare, exactly when every index is below 2^31.
  */
  lemma {:induction false} SubscriptsFitExactlyWhen(usage: seq<Descriptor>)
    ensures (forall i :: 0 <= i < |usage| ==> 0 <= AsInt(usage[i].index) < OptionsMax(usage, 1) - 1) <==>
            (forall i :: 0 <= i < |usage| ==> usage[i].index < 0x8000_0000)
  {
    hide OptionsMax;
    if forall i :: 0 <= i < |usage| ==> usage[i].index < 0x8000_0000 {
      OptionsMaxFits(usage, 1);
    }
  }

  /** One row with index 2^31: the options array is large enough, and the subscript is negative. */
  lemma {:induction false} HighIndexIsNegative()
    ensures var usage := [Descriptor(0x8000_0000, 0, "x", "")];
            usage[0].index + 1 < OptionsMax(usage, 1) && AsInt(usage[0].index) == -0x8000_0000
  {
    OptionsArraySuffices([Descriptor(0x8000_0000, 0, "x", "")]);
  }

  // ---- Every option belongs to a row ----

  predicate InTable(usage: seq<Descriptor>, found: seq<Option>) {
    forall i :: 0 <= i < |found| ==> found[i].desc < |usage|
  }

  lemma {:induction false} GroupInTable(env: Env, msg: bool, word: string, i: nat, next: Maybe<string>)
    requires i <= |word|
    ensures InTable(env.usage, ShortGroup(env, msg, word, i, next).found)
    decreases |word| - i
  {
    hide FirstShort, Resolve;
    if i < |word| {
      GroupInTable(env, msg, word, i + 1, next);
    }
  }

  lemma {:induction false} ParseInTable(gnu: bool, env: Env, msg: bool, words: seq<string>)
    ensures InTable(env.usage, ParseWords(gnu, env, msg, words).found)
    decreases |words|
  {
    if words == [] {
    } else if NonOption(words[0]) {
      ParseInTable(gnu, env, msg, words[1..]);
    } else if !IsTerminator(words[0]) {
      WordInTable(env, msg, words[0], NextOf(words));
      ParseInTable(gnu, env, msg, words[if ParseWord(env, msg, words[0], NextOf(words)).took then 2 else 1..]);
    }
  }

  lemma WordInTable(env: Env, msg: bool, word: string, next: Maybe<string>)
    requires OptionWord(word)
    ensures InTable(env.usage, ParseWord(env, msg, word, next).found)
  {
    hide ShortGroup, LongIndex;
    GroupInTable(env, msg, word, 1, next);
  }

  // ---- The objects ----

  class Stats {
    var bufferMax: nat
    var optionsMax: nat

    constructor ()
      ensures bufferMax == 1 && optionsMax == 1
    {
      bufferMax, optionsMax := 1, 1;
    }

    method Add(gnu: bool, env: Env, args: array<Slot>, argc: int)
      requires Readable(args[..], argc)
      modifies this, args
      ensures var found := ParseWords(gnu, env, false, Words(old(args[..]), argc)).found;
              PerformAll(Count(old(bufferMax)), found).0 == Count(bufferMax)
      ensures optionsMax == OptionsMax(env.usage, old(optionsMax))
      ensures !gnu ==> args[..] == old(args[..])
    {
      var i := 0;
      while i < |env.usage|
        invariant i <= |env.usage| && bufferMax == old(bufferMax) && args[..] == old(args[..])
        invariant OptionsMax(env.usage[i..], optionsMax) == OptionsMax(env.usage, old(optionsMax))
      {
        assert env.usage[i..][1..] == env.usage[i + 1..];
        if U32(env.usage[i].index + 1) >= optionsMax {
          optionsMax := U32(U32(env.usage[i].index + 1) + 1);
        }
        i := i + 1;
      }
      var action := new ActionObject.Counting(bufferMax);
      var ok, first, remaining := Workhorse(gnu, env, false, args, argc, action);
      bufferMax := action.bufferMax;
    }
  }

  /**
   The number of left-over words, unless the caller's count exceeds the words and the pass stops short of their end.
  */
  function LeftCount(gnu: bool, env: Env, words: seq<string>, argc: int): int {
    var p := ParseWords(gnu, env, true, words);
    if argc > |words| && Unread(gnu, env, true, words) > 0 then argc - |p.taken| else |p.left|
  }

  class Parser {
    /** The filled slots of the caller's buffer; their number is `op_count`. */
    var buffer: seq<Option>
    /** Where the left-over words start in the argument vector, and how many there are. */
    var nonopFirst: nat
    var nonopCount: int
    var err: bool

    constructor ()
      ensures buffer == [] && nonopCount == 0 && !err
    {
      buffer, nonopFirst, nonopCount, err := [], 0, 0, false;
    }

    method Parse(gnu: bool, env: Env, args: array<Slot>, argc: int, bufmax: int)
      requires Readable(args[..], argc)
      modifies this, args
      ensures var words := Words(old(args[..]), argc);
              var p := ParseWords(gnu, env, true, words);
              var r := PerformAll(Store(bufmax, old(buffer)), p.found);
              && r.0 == Store(bufmax, buffer) && err == !(p.ok && r.1)
              && (!err && p.left != [] ==>
                    nonopCount == LeftCount(gnu, env, words, argc) && nonopFirst + |p.left| <= args.Length
                    && args[nonopFirst..nonopFirst + |p.left|] == Slots(p.left))
              && (err || p.left == [] ==> nonopFirst == old(nonopFirst) && nonopCount == old(nonopCount))
      ensures !gnu ==> args[..] == old(args[..])
    {
      hide ParseWords, Unread, PerformAll, Words, Readable, Slots;
      ghost var slots := args[..];
      ghost var words := Words(slots, argc);
      ghost var p := ParseWords(gnu, env, true, words);
      var action := new ActionObject.Storing(bufmax, buffer);
      var ok, first, remaining := Workhorse(gnu, env, true, args, argc, action);
      buffer := action.buffer;
      err := !ok;
      if ok {
        SlotsTail(p.taken, p.left, slots[|words|..]);
        UnreadAreLeft(gnu, env, true, words);
        if remaining > 0 {
          nonopFirst, nonopCount := first, remaining;
        }
      }
    }
  }

  lemma SlotsTail(taken: seq<string>, left: seq<string>, rest: seq<Slot>)
    ensures (Slots(taken + left) + rest)[|taken|..|taken| + |left|] == Slots(left)
  {}

  /** Both passes in POSIX mode, as every tool runs them: the slots counted are one more than the slots filled. */
  method ParseCommandLine(env: Env, args: array<Slot>, argc: int) returns (stats: Stats, parser: Parser)
    requires Readable(args[..], argc) && FlagFree(env)
    modifies args
    ensures args[..] == old(args[..])
    ensures var found := ParseWords(false, env, true, Words(args[..], argc)).found;
            && |parser.buffer| <= stats.bufferMax
            && (stats.bufferMax == |parser.buffer| + 1 <==> |found| < MAX_INT)
            && stats.bufferMax == Min(1 + |found|, MAX_INT) && parser.buffer == found[..Min(|found|, MAX_INT)]
    ensures stats.optionsMax == OptionsMax(env.usage, 1)
    ensures (forall i :: 0 <= i < |env.usage| ==> env.usage[i].index < 0x8000_0000) ==>
              Subscripts(env.usage, ParseWords(false, env, true, Words(args[..], argc)).found, stats.optionsMax - 1)
              && Subscripts(env.usage, parser.buffer, stats.optionsMax - 1)
  {
    hide ParseWords, PerformAll, Words, Readable, OptionsMax;
    ghost var words := Words(args[..], argc);
    stats := new Stats();
    stats.Add(false, env, args, argc);
    parser := new Parser();
    parser.Parse(false, env, args, argc, -1);
    PosixPassesAgree(env, words);
    SubscriptsFitExactlyWhen(env.usage);
    ParseInTable(false, env, true, words);
    PassesCompute(ParseWords(false, env, true, words).found);
  }

  lemma {:induction false} PassesCompute(found: seq<Option>)
    ensures Reserved(found) == Count(Min(1 + |found|, MAX_INT))
    ensures Filled(found) == Store(-1, found[..Min(|found|, MAX_INT)])
  {
    CountedAll(1, found);
    StoredAll([], found);
  }

  /** Both passes and the lists: the counted slots are allocated, and the storing pass chains its options into them. */
  method ParseIntoLists(env: Env, args: array<Slot>, argc: int)
    returns (stats: Stats, parser: Parser, lists: StoreOptionAction)
    requires Readable(args[..], argc) && FlagFree(env)
    requires forall i :: 0 <= i < |env.usage| ==> env.usage[i].index < 0x8000_0000
    modifies args
    ensures args[..] == old(args[..])
    ensures lists.Valid() && lists.usage == env.usage && lists.bufmax == -1
    ensures |lists.options| == stats.optionsMax == OptionsMax(env.usage, 1) && |lists.buffer| == stats.bufferMax
    ensures lists.stored == parser.buffer
    ensures var found := ParseWords(false, env, true, Words(args[..], argc)).found;
            parser.buffer == found[..Min(|found|, MAX_INT)]
  {
    hide ParseWords, PerformAll, Words, Readable, OptionsMax, Chained, EmptyLists, SlotsOk, FlagFree;
    stats, parser := ParseCommandLine(env, args, argc);
    var options := ZeroedOptions(stats.optionsMax);
    var buffer := ZeroedBuffer(stats.bufferMax);
    ghost var rings := ZeroedIsChained(env.usage, options, buffer);
    lists := new StoreOptionAction(env.usage, options, buffer, -1, [], rings);
    lists.FitsBuffer();
    PassesCompute(parser.buffer);
    var ok := StoreAll(lists, parser.buffer);
  }

  /** What a tool reads back: the loop along one row's list, its count and its latest option. */
  method ParseAndVisit(env: Env, args: array<Slot>, argc: int, row: nat)
    returns (visited: seq<Option>, count: nat, latest: Maybe<Option>)
    requires Readable(args[..], argc) && FlagFree(env) && row < |env.usage|
    requires forall i :: 0 <= i < |env.usage| ==> env.usage[i].index < 0x8000_0000
    modifies args
    ensures var found := ParseWords(false, env, true, Words(old(args[..]), argc)).found;
            visited == WithIndex(env.usage, found[..Min(|found|, MAX_INT)], env.usage[row].index)
    ensures count == |visited| && latest == if count == 0 then None else Some(visited[count - 1])
  {
    hide ParseWords, Words, Readable, OptionsMax, WithIndex, FlagFree;
    var stats, parser, lists := ParseIntoLists(env, args, argc);
    SubscriptsFitExactlyWhen(env.usage);
    var k := AsInt(env.usage[row].index);
    visited := lists.Visit(k);
    count, latest := lists.CountAndLast(k, 0, lists.options[k]);
  }
}
