/**
 The argument parser as it runs: `workhorse` advances through the argument vector, rotates it in
 place and hands each option to an action. It is proved to do what `OptionModel` says.
*/
module OptionParser {
  import opened Common
  import opened OptionModel

  // ---- The character loops ----

  method StrEqual(st1: string, st2: string) returns (r: bool)
    ensures r == StrEq(st1, st2)
  {
    var i := 0;
    while i < |st1|
      invariant i <= |st1| && i <= |st2| && st1[..i] == st2[..i]
    {
      if i == |st2| || st1[i] != st2[i] {
        return false;
      }
      i := i + 1;
    }
    assert st1[..i] == st1;
    return i == |st2| || st2[i] == '=';
  }

  method StrEqualAbbr(st1: string, st2: string, min: int) returns (r: bool)
    ensures r == StrEqAbbr(st1, st2, min)
  {
    var i := 0;
    while i < |st1| && i < |st2| && st1[i] == st2[i]
      invariant i <= |st1| && i <= |st2| && st1[..i] == st2[..i]
    {
      i := i + 1;
    }
    PrefixIsCommon(st1, st2, i);
    return (i == |st1| || (min > 0 && i >= min)) && (i == |st2| || st2[i] == '=');
  }

  lemma {:induction false} PrefixIsCommon(st1: string, st2: string, i: nat)
    requires i <= |st1| && i <= |st2| && st1[..i] == st2[..i]
    requires i < |st1| && i < |st2| ==> st1[i] != st2[i]
    ensures CommonPrefix(st1, st2) == i
  {
    var n := CommonPrefix(st1, st2);
    assert forall k :: 0 <= k < n ==> st1[k] == st1[..n][k] && st2[k] == st2[..n][k];
    assert forall k :: 0 <= k < i ==> st1[k] == st1[..i][k] && st2[k] == st2[..i][k];
  }

  method InStr(c: char, st: string) returns (r: bool)
    ensures r == (c in st)
  {
    var i := 0;
    while i < |st| && st[i] != c
      invariant i <= |st| && c !in st[..i]
    {
      i := i + 1;
    }
    return i < |st|;
  }

  method FindEquals(name: string) returns (r: Maybe<string>)
    ensures r == AfterEquals(name)
  {
    var i := 0;
    while i < |name| && name[i] != '='
      invariant i <= |name| && AfterEquals(name[i..]) == AfterEquals(name)
    {
      assert name[i..][1..] == name[i + 1..];
      i := i + 1;
    }
    if i < |name| {
      assert name[i..][1..] == name[i + 1..];
      return Some(name[i + 1..]);
    }
    return None;
  }

  // ---- The table loops ----

  method FindAbbr(env: Env, name: string, k: nat) returns (i: nat)
    requires k <= |env.usage|
    ensures i == FirstAbbr(env.usage, name, env.minAbbr, k)
  {
    i := k;
    while i < |env.usage|
      invariant k <= i <= |env.usage|
      invariant FirstAbbr(env.usage, name, env.minAbbr, i) == FirstAbbr(env.usage, name, env.minAbbr, k)
    {
      var matches := StrEqualAbbr(env.usage[i].longopt, name, env.minAbbr);
      if matches {
        return;
      }
      i := i + 1;
    }
  }

  method FindLong(env: Env, name: string) returns (idx: nat)
    ensures idx == LongIndex(env, name)
  {
    idx := 0;
    var found := false;
    while idx < |env.usage| && !found
      invariant idx <= |env.usage|
      invariant found ==> idx < |env.usage| && StrEq(env.usage[idx].longopt, name)
      invariant FirstLong(env.usage, name, idx) == FirstLong(env.usage, name, 0)
      decreases |env.usage| - idx, !found
    {
      found := StrEqual(env.usage[idx].longopt, name);
      if !found {
        idx := idx + 1;
      }
    }
    if idx == |env.usage| && env.minAbbr > 0 {
      var i1 := FindAbbr(env, name, 0);
      if i1 < |env.usage| {
        var i2 := FindAbbr(env, name, i1 + 1);
        if i2 == |env.usage| {
          idx := i1;
        }
      }
    }
  }

  method FindShort(usage: seq<Descriptor>, c: char) returns (idx: nat)
    ensures idx == FirstShort(usage, c, 0)
  {
    idx := 0;
    while idx < |usage|
      invariant idx <= |usage| && FirstShort(usage, c, idx) == FirstShort(usage, c, 0)
    {
      var here := InStr(c, usage[idx].shortopt);
      if here {
        return;
      }
      idx := idx + 1;
    }
  }

  method FindDummy(usage: seq<Descriptor>) returns (idx: nat)
    ensures idx == FirstDummy(usage, 0)
  {
    idx := 0;
    while idx < |usage| && (usage[idx].shortopt != "" || usage[idx].longopt != "")
      invariant idx <= |usage| && FirstDummy(usage, idx) == FirstDummy(usage, 0)
    {
      idx := idx + 1;
    }
  }

  method Describe(usage: seq<Descriptor>, idx: nat) returns (d: Maybe<nat>)
    ensures d == Resolve(usage, idx)
  {
    if idx < |usage| {
      return Some(idx);
    }
    var dummy := FindDummy(usage);
    return if dummy < |usage| then Some(dummy) else None;
  }

  // ---- Actions ----

  class ActionObject {
    const counting: bool
    const bufmax: int
    /** `*buffer_max` of a counting action. */
    var bufferMax: nat
    /** The filled slots of a storing action; their number is the parser's `op_count`. */
    var buffer: seq<Option>

    function View(): Action
      reads this
    {
      if counting then Count(bufferMax) else Store(bufmax, buffer)
    }

    constructor Counting(start: nat)
      ensures View() == Count(start)
    {
      counting, bufmax, bufferMax, buffer := true, 0, start, [];
    }

    /** Starts at the first empty slot. */
    constructor Storing(limit: int, filled: seq<Option>)
      ensures View() == Store(limit, filled)
    {
      counting, bufmax, bufferMax, buffer := false, limit, 0, filled;
    }

    method Do(option: Option) returns (ok: bool)
      modifies this
      ensures (View(), ok) == Perform(old(View()), option)
    {
      if counting {
        if bufferMax == MAX_INT {
          return false;
        }
        bufferMax := bufferMax + 1;
      } else if bufmax < 0 || |buffer| < bufmax {
        if |buffer| == MAX_INT {
          return false;
        }
        buffer := buffer + [option];
      }
      return true;
    }
  }

  // ---- The argument vector ----

  type Slot = Maybe<string>

  /** The counted or terminated words: no further than the first NULL, and at most `numargs` if that is not negative. */
  function Words(slots: seq<Slot>, numargs: int): (w: seq<string>)
    ensures |w| <= |slots| && slots[..|w|] == Slots(w) && (numargs >= 0 ==> |w| <= numargs)
    decreases |slots|
  {
    if numargs == 0 || slots == [] || slots[0].None? then []
    else
      var w := Words(slots[1..], if numargs > 0 then numargs - 1 else numargs);
      assert slots[..|w| + 1] == [slots[0]] + slots[1..][..|w|];
      [slots[0].value] + w
  }

  /** The vector ends with NULL, or is as long as the caller says. */
  predicate Readable(slots: seq<Slot>, numargs: int)
    decreases |slots|
  {
    numargs == 0 || (slots != []
                     && (slots[0].None? || Readable(slots[1..], if numargs > 0 then numargs - 1 else numargs)))
  }

  function Slots(words: seq<string>): (s: seq<Slot>)
    ensures |s| == |words| && forall i :: 0 <= i < |s| ==> s[i] == Some(words[i])
  {
    seq(|words|, i requires 0 <= i < |words| => Some(words[i]))
  }

  /** The element at `at` moved in front of the `count` elements before it. */
  function Rotated<T>(s: seq<T>, at: nat, count: nat): (r: seq<T>)
    requires count <= at < |s|
    ensures |r| == |s|
  {
    s[..at - count] + [s[at]] + s[at - count..at] + s[at + 1..]
  }

  method Shift<T>(args: array<T>, at: nat, count: nat)
    requires count <= at < args.Length
    modifies args
    ensures args[..] == Rotated(old(args[..]), at, count)
    ensures count == 0 ==> args[..] == old(args[..])
  {
    ghost var s := args[..];
    for i := 0 to count
      invariant forall k :: 0 <= k < args.Length && !(at - i <= k <= at) ==> args[k] == s[k]
      invariant args[at - i] == s[at]
      invariant forall k :: at - i < k <= at ==> args[k] == s[k - 1]
    {
      var temp := args[at - i];
      args[at - i] := args[at - i - 1];
      args[at - i - 1] := temp;
    }
    assert forall k :: 0 <= k < |s| ==> args[..][k] == Rotated(s, at, count)[k];
  }

  // ---- One option word, in place ----

  function Prepend(done: seq<Option>, o: Outcome): Outcome {
    o.(found := done + o.found)
  }

  /** What the vector looks like once the word's options have been handled. */
  function AfterWord(slots: seq<Slot>, pos: nat, nonops: nat, took: bool): seq<Slot>
    requires nonops <= pos < |slots|
  {
    if took then Rotated(slots, pos, nonops) else slots
  }

  function Options(v: Verdict): seq<Option> {
    match v
    case Fatal => []
    case Final(option, _) => [option]
    case Onward(options) => options
  }

  /** Asks about one candidate; takes the next word, performs the option. */
  method Accept(env: Env, msg: bool, idx: nat, name: string, optarg: Maybe<string>, detached: bool,
                args: array<Slot>, pos: nat, numargs: int, nonops: nat, action: ActionObject)
    returns (ok: bool, final: bool, newPos: nat, newNumargs: int)
    requires nonops <= pos < args.Length && numargs != 0
    modifies args, action
    ensures nonops == 0 ==> args[..] == old(args[..])
    ensures var v := Assess(env, msg, idx, name, optarg, detached);
            var took := v.Final? && v.took;
            var r := PerformAll(old(action.View()), Options(v));
            && action.View() == r.0 && ok == (!v.Fatal? && r.1)
            && (ok ==> final == v.Final? && newPos == pos + (if took then 1 else 0)
                       && newNumargs == (if took && numargs > 0 then numargs - 1 else numargs)
                       && args[..] == AfterWord(old(args[..]), pos, nonops, took))
  {
    final, newPos, newNumargs := false, pos, numargs;
    var descriptor := Describe(env.usage, idx);
    if descriptor.None? {
      return true, final, newPos, newNumargs;
    }
    var option := Option(descriptor.value, name, optarg);
    match env.checkArg(option, msg) {
      case ARG_ILLEGAL =>
        return false, final, newPos, newNumargs;
      case ARG_OK =>
        if optarg.Some? && detached {
          Shift(args, pos, nonops);
          if newNumargs > 0 {
            newNumargs := newNumargs - 1;
          }
          newPos := newPos + 1;
        }
        final := true;
      case _ =>
        option := option.(arg := None);
    }
    ok := action.Do(option);
  }

  /** Handles the word at `pos`, which `nonops` left-over words precede. */
  method ParseGroup(env: Env, msg: bool, args: array<Slot>, pos: nat, numargs: int, nonops: nat, action: ActionObject)
    returns (ok: bool, newPos: nat, newNumargs: int)
    requires nonops <= pos < args.Length && numargs != 0
    requires args[pos].Some? && OptionWord(args[pos].value)
    requires numargs > 1 || numargs < 0 ==> pos + 1 < args.Length
    modifies args, action
    ensures nonops == 0 ==> args[..] == old(args[..])
    ensures var next := if numargs > 1 || numargs < 0 then old(args[pos + 1]) else None;
            var o := ParseWord(env, msg, old(args[pos]).value, next);
            var r := PerformAll(old(action.View()), o.found);
            && action.View() == r.0 && ok == (o.ok && r.1)
            && (ok ==> newPos == pos + (if o.took then 1 else 0)
                       && newNumargs == (if o.took && numargs > 0 then numargs - 1 else numargs)
                       && args[..] == AfterWord(old(args[..]), pos, nonops, o.took))
  {
    hide Assess, LongIndex, AfterWord, Perform;
    var word := args[pos].value;
    var next := if numargs > 1 || numargs < 0 then args[pos + 1] else None;
    var handleShort := word[1] != '-';
    var final := false;
    newPos, newNumargs, ok := pos, numargs, true;
    if !handleShort || env.singleMinus {
      var name := if handleShort then word[1..] else word[2..];
      var idx := FindLong(env, name);
      if !handleShort || idx < |env.usage| {
        var attached := FindEquals(name);
        ok, final, newPos, newNumargs :=
            Accept(env, msg, idx, word, if attached.Some? then attached else next, attached.None?,
                                                args, pos, numargs, nonops, action);
        return;
      }
    }
    ok, newPos, newNumargs := ParseShortGroup(env, msg, word, next, args, pos, numargs, nonops, action);
  }

  method ParseShortGroup(env: Env, msg: bool, word: string, next: Maybe<string>,
                         args: array<Slot>, pos: nat, numargs: int, nonops: nat, action: ActionObject)
    returns (ok: bool, newPos: nat, newNumargs: int)
    requires nonops <= pos < args.Length && numargs != 0 && word != ""
    modifies args, action
    ensures nonops == 0 ==> args[..] == old(args[..])
    ensures var o := ShortGroup(env, msg, word, 1, next);
            var r := PerformAll(old(action.View()), o.found);
            && action.View() == r.0 && ok == (o.ok && r.1)
            && (ok ==> newPos == pos + (if o.took then 1 else 0)
                       && newNumargs == (if o.took && numargs > 0 then numargs - 1 else numargs)
                       && args[..] == AfterWord(old(args[..]), pos, nonops, o.took))
  {
    hide Assess, Rotated, PerformAll, ShortGroup, Slots;
    newPos, newNumargs := pos, numargs;
    ghost var start := action.View();
    ghost var done: seq<Option> := [];
    var at := 0;
    assert PerformAll(start, []) == (start, true) by { PerformNone(start); }
    while true
      invariant at < |word|
      invariant ShortGroup(env, msg, word, 1, next) == Prepend(done, ShortGroup(env, msg, word, at + 1, next))
      invariant PerformAll(start, done) == (action.View(), true)
      invariant newPos == pos && newNumargs == numargs && args[..] == old(args[..])
      decreases |word| - at
    {
      at := at + 1;
      if at == |word| {
        GroupEnd(env, msg, word, next);
        assert done + [] == done;
        return true, newPos, newNumargs;
      }
      var idx := FindShort(env.usage, word[at]);
      var detached := at + 1 == |word|;
      ghost var v := AssessShort(env, msg, word, at, next);
      GroupStep(env, msg, word, at, next, start, done);
      var final;
      ok, final, newPos, newNumargs :=
          Accept(env, msg, idx, word[at..], if detached then next else Some(word[at + 1..]), detached,
                                              args, pos, newNumargs, nonops, action);
      if !ok || final {
        return;
      }
      done := done + v.options;
    }
  }

  lemma {:induction false} PerformNone(a: Action)
    ensures PerformAll(a, []) == (a, true)
  {}

  lemma {:induction false} GroupEnd(env: Env, msg: bool, word: string, next: Maybe<string>)
    ensures ShortGroup(env, msg, word, |word|, next) == Outcome([], false, true)
  {}

  /** One character of a group: what is found there comes first, what follows is found after it. */
  lemma {:induction false} GroupStep(env: Env, msg: bool, word: string, at: nat, next: Maybe<string>, start: Action,
                                     done: seq<Option>)
    requires at < |word| && PerformAll(start, done).1
    ensures var v := AssessShort(env, msg, word, at, next);
            var here := Prepend(done, ShortGroup(env, msg, word, at, next));
            var r := PerformAll(PerformAll(start, done).0, Options(v));
            && PerformAll(start, done + Options(v)) == r
            && (!v.Onward? || !r.1 ==> PerformAll(start, here.found) == r)
            && (v.Onward? ==> here == Prepend(done + Options(v), ShortGroup(env, msg, word, at + 1, next)))
            && (v.Fatal? ==> !here.ok) && (v.Final? ==> here.ok && here.took == v.took)
  {
    hide AssessShort, Perform, PerformAll;
    var v := AssessShort(env, msg, word, at, next);
    var here := Prepend(done, ShortGroup(env, msg, word, at, next));
    PerformConcat(start, done, Options(v));
    if v.Onward? {
      var rest := ShortGroup(env, msg, word, at + 1, next);
      assert here.found == done + Options(v) + rest.found;
      PerformConcat(start, done + Options(v), rest.found);
    }
  }

  // ---- The whole vector, in place ----

  function Join(found: seq<Option>, taken: seq<string>, skipped: seq<string>, p: Parsed): Parsed {
    Parsed(found + p.found, taken + p.taken, skipped + p.left, p.ok)
  }

  /** The vector midway: used words, then skipped ones, then the rest untouched. */
  function Layout(taken: seq<string>, skipped: seq<string>, slots: seq<Slot>): seq<Slot>
    requires |taken| + |skipped| <= |slots|
  {
    Slots(taken) + Slots(skipped) + slots[|taken| + |skipped|..]
  }

  /** One rotation moves the word at hand behind the used ones. */
  lemma RotateLayout(taken: seq<string>, skipped: seq<string>, slots: seq<Slot>, word: string)
    requires |taken| + |skipped| < |slots| && slots[|taken| + |skipped|] == Some(word)
    ensures Rotated(Layout(taken, skipped, slots), |taken| + |skipped|, |skipped|) ==
            Layout(taken + [word], skipped, slots)
  {
    var l := Layout(taken, skipped, slots);
    var pos := |taken| + |skipped|;
    assert l[..|taken|] == Slots(taken) && l[|taken|..pos] == Slots(skipped) && l[pos + 1..] == slots[pos + 1..];
    assert l[pos] == Some(word);
    assert Slots(taken + [word]) == Slots(taken) + [Some(word)];
  }

  lemma SkipLayout(taken: seq<string>, skipped: seq<string>, slots: seq<Slot>, word: string)
    requires |taken| + |skipped| < |slots| && slots[|taken| + |skipped|] == Some(word)
    ensures Layout(taken, skipped, slots) == Layout(taken, skipped + [word], slots)
  {
    var pos := |taken| + |skipped|;
    assert slots[pos..] == [Some(word)] + slots[pos + 1..];
    assert Slots(skipped + [word]) == Slots(skipped) + [Some(word)];
  }

  /** What the loop head sees of the words ahead. */
  lemma Ahead(slots: seq<Slot>, numargs: int)
    requires Readable(slots, numargs) && numargs != 0
    ensures slots != []
    ensures slots[0].None? ==> Words(slots, numargs) == []
    ensures slots[0].Some? ==>
              var less := if numargs > 0 then numargs - 1 else numargs;
              && Words(slots, numargs) == [slots[0].value] + Words(slots[1..], less) && Readable(slots[1..], less)
    ensures slots[0].Some? ==>
              NextOf(Words(slots, numargs)) == if (numargs > 1 || numargs < 0) then slots[1] else None
  {}

  lemma {:induction false} SkipStep(env: Env, msg: bool, found: seq<Option>, taken: seq<string>, skipped: seq<string>,
                                    words: seq<string>)
    requires words != [] && NonOption(words[0])
    ensures Join(found, taken, skipped, ParseWords(true, env, msg, words)) ==
            Join(found, taken, skipped + [words[0]], ParseWords(true, env, msg, words[1..]))
    ensures Unread(true, env, msg, words) == Unread(true, env, msg, words[1..])
  {
    hide ParseWord;
    var rest := ParseWords(true, env, msg, words[1..]);
    assert skipped + ([words[0]] + rest.left) == skipped + [words[0]] + rest.left;
  }

  lemma {:induction false} OptionStep(gnu: bool, env: Env, msg: bool, found: seq<Option>, taken: seq<string>,
                                      skipped: seq<string>, words: seq<string>)
    requires words != [] && OptionWord(words[0])
    ensures var o := ParseWord(env, msg, words[0], NextOf(words));
            var used := if o.took then 2 else 1;
            var full := Join(found, taken, skipped, ParseWords(gnu, env, msg, words));
            && (!o.ok ==> full.found == found + o.found && !full.ok)
            && (o.ok ==> full == Join(found + o.found, taken + words[..used], skipped,
                                      ParseWords(gnu, env, msg, words[used..])))
            && (o.ok ==> Unread(gnu, env, msg, words) == Unread(gnu, env, msg, words[used..]))
  {
    hide ParseWord;
    var o := ParseWord(env, msg, words[0], NextOf(words));
    var used := if o.took then 2 else 1;
    if o.ok {
      var rest := ParseWords(gnu, env, msg, words[used..]);
      assert found + (o.found + rest.found) == found + o.found + rest.found;
      assert taken + (words[..used] + rest.taken) == taken + words[..used] + rest.taken;
    }
  }

  /** How far the loop has come, in terms of the words it started with. */
  ghost predicate Midway(gnu: bool, env: Env, msg: bool, slots: seq<Slot>, words: seq<string>, full: Parsed,
                         found: seq<Option>, taken: seq<string>, skipped: seq<string>, numargs: int)
  {
    var pos := |taken| + |skipped|;
    && pos <= |slots| && Readable(slots[pos..], numargs)
    && pos <= |words| && Words(slots[pos..], numargs) == words[pos..]
    && full == Join(found, taken, skipped, ParseWords(gnu, env, msg, Words(slots[pos..], numargs)))
    && Unread(gnu, env, msg, words) == Unread(gnu, env, msg, Words(slots[pos..], numargs))
  }

  lemma {:induction false} Begin(gnu: bool, env: Env, msg: bool, slots: seq<Slot>, numargs: int)
    requires Readable(slots, numargs)
    ensures Midway(gnu, env, msg, slots, Words(slots, numargs), ParseWords(gnu, env, msg, Words(slots, numargs)), [],
                   [], [], numargs)
    ensures Layout([], [], slots) == slots
  {
    assert slots[0..] == slots;
    var p := ParseWords(gnu, env, msg, Words(slots, numargs));
    assert [] + p.found == p.found && [] + p.taken == p.taken && [] + p.left == p.left;
  }

  /** The step over a word left over. */
  lemma MidwaySkip(env: Env, msg: bool, slots: seq<Slot>, words: seq<string>, full: Parsed,
                   found: seq<Option>, taken: seq<string>, skipped: seq<string>, numargs: int)
    requires Midway(true, env, msg, slots, words, full, found, taken, skipped, numargs)
    requires numargs != 0 && |taken| + |skipped| < |slots|
    requires var slot := slots[|taken| + |skipped|]; slot.Some? && NonOption(slot.value)
    ensures var word := slots[|taken| + |skipped|].value;
            var less := if numargs > 0 then numargs - 1 else numargs;
            && Midway(true, env, msg, slots, words, full, found, taken, skipped + [word], less)
            && Layout(taken, skipped, slots) == Layout(taken, skipped + [word], slots)
  {
    hide ParseWords, Unread, Words, Readable, Layout;
    var pos := |taken| + |skipped|;
    var word := slots[pos].value;
    Ahead(slots[pos..], numargs);
    assert slots[pos..][1..] == slots[pos + 1..];
    SkipStep(env, msg, found, taken, skipped, Words(slots[pos..], numargs));
    assert Words(slots[pos..], numargs)[1..] == Words(slots[pos + 1..], if numargs > 0 then numargs - 1 else numargs);
    SkipLayout(taken, skipped, slots, word);
  }

  /** The step over an option word and, if it took one, its argument. */
  lemma MidwayOption(gnu: bool, env: Env, msg: bool, slots: seq<Slot>, words: seq<string>, full: Parsed,
                     found: seq<Option>, taken: seq<string>, skipped: seq<string>, numargs: int)
    requires Midway(gnu, env, msg, slots, words, full, found, taken, skipped, numargs)
    requires numargs != 0 && |taken| + |skipped| < |slots|
    requires var slot := slots[|taken| + |skipped|]; slot.Some? && OptionWord(slot.value)
    ensures var pos := |taken| + |skipped|;
            var word := slots[pos].value;
            var less := if numargs > 0 then numargs - 1 else numargs;
            && (numargs > 1 || numargs < 0 ==> pos + 1 < |slots|)
            && var next := if numargs > 1 || numargs < 0 then slots[pos + 1] else None;
            var o := ParseWord(env, msg, word, next);
            && (!o.ok ==> full.found == found + o.found && !full.ok)
            && (o.ok && !o.took ==> Midway(gnu, env, msg, slots, words, full, found + o.found, taken + [word], skipped,
                                           less))
            && (o.ok && o.took ==>
                  next.Some? && Midway(gnu, env, msg, slots, words, full, found + o.found,
                                       taken + [word] + [next.value], skipped,
                                       if less > 0 then less - 1 else less))
  {
    hide ParseWords, Unread, Words, Readable, ParseWord;
    var pos := |taken| + |skipped|;
    var word := slots[pos].value;
    var less := if numargs > 0 then numargs - 1 else numargs;
    var ahead := Words(slots[pos..], numargs);
    Ahead(slots[pos..], numargs);
    assert slots[pos..][1..] == slots[pos + 1..];
    assert ahead[1..] == Words(slots[pos + 1..], less);
    OptionStep(gnu, env, msg, found, taken, skipped, ahead);
    assert ahead[..1] == [word];
    if numargs > 1 || numargs < 0 {
      Ahead(slots[pos + 1..], less);
      var next := slots[pos + 1];
      if ParseWord(env, msg, word, next).took {
        assert slots[pos + 1..][1..] == slots[pos + 2..];
        assert ahead[2..] == ahead[1..][1..] && ahead[..2] == [word] + [next.value];
        assert taken + ([word] + [next.value]) == taken + [word] + [next.value];
      }
    }
  }

  /** Where the loop stops, nothing ahead is an option. */
  lemma {:induction false} MidwayEnd(gnu: bool, env: Env, msg: bool, slots: seq<Slot>, words: seq<string>, full: Parsed,
                  found: seq<Option>, taken: seq<string>, skipped: seq<string>, numargs: int)
    requires Midway(gnu, env, msg, slots, words, full, found, taken, skipped, numargs)
    requires var ahead := Words(slots[|taken| + |skipped|..], numargs); ahead == [] || (!gnu && NonOption(ahead[0]))
    ensures full == Parsed(found, taken, skipped + words[|taken| + |skipped|..], true)
    ensures Unread(gnu, env, msg, words) == |words| - |taken| - |skipped|
  {
    hide Words, Readable;
  }

  lemma {:induction false} MidwayTerminator(gnu: bool, env: Env, msg: bool, slots: seq<Slot>, words: seq<string>,
                                            full: Parsed,
                         found: seq<Option>, taken: seq<string>, skipped: seq<string>, numargs: int)
    requires Midway(gnu, env, msg, slots, words, full, found, taken, skipped, numargs)
    requires numargs != 0 && |taken| + |skipped| < |slots|
    requires var slot := slots[|taken| + |skipped|]; slot.Some? && IsTerminator(slot.value)
    ensures |taken| + |skipped| < |words|
    ensures var pos := |taken| + |skipped|;
            var less := if numargs > 0 then numargs - 1 else numargs;
            && Readable(slots[pos + 1..], less)
            && pos < |words| && Words(slots[pos + 1..], less) == words[pos + 1..]
            && full == Parsed(found, taken + [slots[pos].value], skipped + words[pos + 1..], true)
            && Unread(gnu, env, msg, words) == |words| - pos - 1
  {
    hide Words, Readable;
    var pos := |taken| + |skipped|;
    Ahead(slots[pos..], numargs);
    assert slots[pos..][1..] == slots[pos + 1..];
  }

  /** The finished vector: used words, then left-over ones, then whatever lay beyond. */
  lemma FinalLayout(taken: seq<string>, skipped: seq<string>, slots: seq<Slot>, words: seq<string>)
    requires |taken| + |skipped| <= |words| <= |slots| && slots[..|words|] == Slots(words)
    ensures Layout(taken, skipped, slots) == Slots(taken + (skipped + words[|taken| + |skipped|..])) + slots[|words|..]
  {
    var pos := |taken| + |skipped|;
    assert slots[pos..] == slots[..|words|][pos..] + slots[|words|..];
    assert Slots(words)[pos..] == Slots(words[pos..]);
    assert Slots(taken + (skipped + words[pos..])) == Slots(taken) + (Slots(skipped) + Slots(words[pos..]));
  }

  method CountRemaining(args: array<Slot>, pos: nat, numargs: int) returns (n: nat)
    requires pos <= args.Length && numargs < 0 && Readable(args[pos..], numargs)
    ensures n == |Words(args[pos..], numargs)|
  {
    n := 0;
    assert args[pos..] == args[pos + 0..];
    while args[pos + n].Some?
      invariant pos + n < args.Length && Readable(args[pos + n..], numargs)
      invariant |Words(args[pos..], numargs)| == n + |Words(args[pos + n..], numargs)|
      decreases args.Length - n
    {
      assert args[pos + n..][1..] == args[pos + (n + 1)..];
      n := n + 1;
    }
  }

  /** An option word and its argument: handled, then rotated in front of the words left over so far. */
  method HandleOption(gnu: bool, env: Env, msg: bool, args: array<Slot>, pos: nat, numargs: int, nonops: nat,
                      action: ActionObject,
                      ghost slots: seq<Slot>, ghost words: seq<string>, ghost p: Parsed, ghost start: Action,
                      ghost found: seq<Option>, ghost taken: seq<string>, ghost skipped: seq<string>)
    returns (ok: bool, newPos: nat, newNumargs: int, ghost newFound: seq<Option>, ghost newTaken: seq<string>)
    requires pos == |taken| + |skipped| && nonops == |skipped| && pos < args.Length && numargs != 0
    requires Midway(gnu, env, msg, slots, words, p, found, taken, skipped, numargs)
    requires args[..] == Layout(taken, skipped, slots)
    requires args[pos].Some? && OptionWord(args[pos].value)
    requires PerformAll(start, found) == (action.View(), true)
    modifies args, action
    ensures nonops == 0 ==> args[..] == old(args[..])
    ensures !ok ==> action.View() == PerformAll(start, p.found).0 && !(p.ok && PerformAll(start, p.found).1)
    ensures ok ==> newPos == |newTaken| + |skipped| && pos < newPos && (newNumargs != 0 ==> newPos < args.Length)
    ensures ok ==> newNumargs == (if numargs < 0 then numargs else numargs - (newPos - pos))
                   && (numargs > 0 ==> newNumargs >= 0)
    ensures ok ==> Midway(gnu, env, msg, slots, words, p, newFound, newTaken, skipped, newNumargs)
    ensures ok ==> args[..] == Layout(newTaken, skipped, slots)
    ensures ok ==> PerformAll(start, newFound) == (action.View(), true)
  {
    hide ParseWords, Unread, Words, ParseWord, Layout, Rotated, Slots, PerformAll, Join, NonOption, IsTerminator;
    LayoutAt(taken, skipped, slots);
    var param := args[pos].value;
    MidwayOption(gnu, env, msg, slots, words, p, found, taken, skipped, numargs);
    ghost var next := if numargs > 1 || numargs < 0 then slots[pos + 1] else None;
    ghost var o := ParseWord(env, msg, param, next);
    ghost var less := if numargs > 0 then numargs - 1 else numargs;
    PerformConcat(start, found, o.found);
    RotateLayout(taken, skipped, slots, param);
    ok, newPos, newNumargs := ParseGroup(env, msg, args, pos, numargs, nonops, action);
    newFound, newTaken := found + o.found, taken + [param];
    if o.took {
      RotateLayout(newTaken, skipped, slots, next.value);
      newTaken := newTaken + [next.value];
    }
    if !ok {
      if o.ok {
        Refused(gnu, env, msg, slots, words, p, newFound, newTaken, skipped,
                if o.took && less > 0 then less - 1 else less, start);
      }
      return;
    }
    Shift(args, newPos, nonops);
    newPos := newPos + 1;
    if newNumargs > 0 {
      newNumargs := newNumargs - 1;
    }
  }

  /** "--" itself is used up, and ends the options. */
  method SkipTerminator(ghost gnu: bool, ghost env: Env, ghost msg: bool, args: array<Slot>, pos: nat, numargs: int,
                        nonops: nat,
                        ghost slots: seq<Slot>, ghost words: seq<string>, ghost p: Parsed,
                        ghost found: seq<Option>, ghost taken: seq<string>, ghost skipped: seq<string>)
    returns (newPos: nat, newNumargs: int, ghost newTaken: seq<string>)
    requires pos == |taken| + |skipped| && nonops == |skipped| && pos < args.Length && numargs != 0
    requires Midway(gnu, env, msg, slots, words, p, found, taken, skipped, numargs)
    requires args[..] == Layout(taken, skipped, slots)
    requires args[pos].Some? && IsTerminator(args[pos].value) && |words| <= |slots|
    modifies args
    ensures nonops == 0 ==> args[..] == old(args[..])
    ensures newPos == pos + 1 <= |slots| && newPos == |newTaken| + |skipped|
    ensures newNumargs == if numargs > 0 then numargs - 1 else numargs
    ensures args[..] == Layout(newTaken, skipped, slots)
    ensures Stopped(p, slots, words, found, newTaken, skipped, newNumargs)
    ensures newPos + Unread(gnu, env, msg, words) == |words|
  {
    hide Words, Layout, Rotated, Slots, IsTerminator, Readable, Midway;
    MidwayFacts(gnu, env, msg, slots, words, p, found, taken, skipped, numargs);
    LayoutAt(taken, skipped, slots);
    MidwayTerminator(gnu, env, msg, slots, words, p, found, taken, skipped, numargs);
    RotateLayout(taken, skipped, slots, args[pos].value);
    newTaken := taken + [args[pos].value];
    Shift(args, pos, nonops);
    newPos := pos + 1;
    newNumargs := if numargs > 0 then numargs - 1 else numargs;
  }

  /** Where the loop may stop: everything ahead is left over. */
  ghost predicate Stopped(p: Parsed, slots: seq<Slot>, words: seq<string>, found: seq<Option>, taken: seq<string>,
                          skipped: seq<string>,
                          numargs: int)
  {
    var pos := |taken| + |skipped|;
    && pos <= |words| <= |slots| && p == Parsed(found, taken, skipped + words[pos..], true)
    && Readable(slots[pos..], numargs) && Words(slots[pos..], numargs) == words[pos..]
  }

  lemma {:induction false} StopAt(gnu: bool, env: Env, msg: bool, slots: seq<Slot>, words: seq<string>, full: Parsed,
               found: seq<Option>, taken: seq<string>, skipped: seq<string>, numargs: int)
    requires Midway(gnu, env, msg, slots, words, full, found, taken, skipped, numargs) && |words| <= |slots|
    requires numargs == 0 || (|taken| + |skipped| < |slots|
                              && var slot := slots[|taken| + |skipped|]; slot.None? || (!gnu && NonOption(slot.value)))
    ensures Stopped(full, slots, words, found, taken, skipped, numargs)
    ensures |taken| + |skipped| + Unread(gnu, env, msg, words) == |words|
  {
    hide Words, ParseWords, Readable;
    var pos := |taken| + |skipped|;
    if numargs == 0 {
      Nothing(slots[pos..], numargs);
    } else {
      Ahead(slots[pos..], numargs);
    }
    MidwayEnd(gnu, env, msg, slots, words, full, found, taken, skipped, numargs);
  }

  /** The loop over the words: the options are performed, the words rotated, and nothing ahead is an option. */
  method Advance(gnu: bool, env: Env, msg: bool, args: array<Slot>, numargs0: int, action: ActionObject,
                 ghost words: seq<string>, ghost p: Parsed)
    returns (ok: bool, pos: nat, numargs: int, nonops: nat,
             ghost found: seq<Option>, ghost taken: seq<string>, ghost skipped: seq<string>)
    requires Readable(args[..], numargs0)
    requires words == Words(args[..], numargs0) && p == ParseWords(gnu, env, msg, words)
    modifies args, action
    ensures !gnu ==> args[..] == old(args[..])
    ensures !ok ==> action.View() == PerformAll(old(action.View()), p.found).0
    ensures !ok ==> !(p.ok && PerformAll(old(action.View()), p.found).1)
    ensures ok ==> Stopped(p, old(args[..]), words, found, taken, skipped, numargs)
    ensures ok ==> pos + Unread(gnu, env, msg, words) == |words|
    ensures ok ==> pos == |taken| + |skipped| && nonops == |skipped|
    ensures ok ==> numargs == (if numargs0 < 0 then numargs0 else numargs0 - pos) && (numargs0 >= 0 ==> numargs >= 0)
    ensures ok ==> args[..] == Layout(taken, skipped, old(args[..]))
    ensures ok ==> PerformAll(old(action.View()), found) == (action.View(), true)
  {
    hide ParseWords, Unread, Words, ParseWord, Layout, Rotated, Slots, PerformAll;
    hide NonOption, IsTerminator, Readable, Midway, Stopped, Join;
    ghost var slots := args[..];
    ghost var start := action.View();
    found, taken, skipped := [], [], [];
    ok, numargs, pos, nonops := true, numargs0, 0, 0;
    Begin(gnu, env, msg, slots, numargs0);
    PerformNone(start);
    MidwayFacts(gnu, env, msg, slots, words, p, found, taken, skipped, numargs);
    while numargs != 0 && args[pos].Some?
      invariant ok && pos == |taken| + |skipped| && nonops == |skipped| && pos <= |slots|
                && (numargs != 0 ==> pos < |slots|)
      invariant numargs == (if numargs0 < 0 then numargs0 else numargs0 - pos) && (numargs0 >= 0 ==> numargs >= 0)
      invariant Midway(gnu, env, msg, slots, words, p, found, taken, skipped, numargs)
      invariant args[..] == Layout(taken, skipped, slots)
      invariant PerformAll(start, found) == (action.View(), true)
      invariant !gnu ==> nonops == 0 && args[..] == slots
      decreases |slots| - pos
    {
      LayoutAt(taken, skipped, slots);
      var param := args[pos].value;
      if NonOption(param) {
        if !gnu {
          break;
        }
        MidwaySkip(env, msg, slots, words, p, found, taken, skipped, numargs);
        skipped := skipped + [param];
        nonops, pos := nonops + 1, pos + 1;
        if numargs > 0 {
          numargs := numargs - 1;
        }
      } else if IsTerminator(param) {
        pos, numargs, taken := SkipTerminator(gnu, env, msg, args, pos, numargs, nonops, slots, words, p, found, taken,
                                              skipped);
        return;
      } else {
        OptionOrNot(param);
        ok, pos, numargs, found, taken := HandleOption(gnu, env, msg, args, pos, numargs, nonops, action,
                                                       slots, words, p, start, found, taken, skipped);
        if !ok {
          return;
        }
      }
      MidwayFacts(gnu, env, msg, slots, words, p, found, taken, skipped, numargs);
    }
    LayoutAt(taken, skipped, slots);
    StopAt(gnu, env, msg, slots, words, p, found, taken, skipped, numargs);
  }

  /** Counts what is left if the caller did not say, and corrects a count that points past the end. */
  method CorrectCount(args: array<Slot>, pos: nat, numargs: int) returns (n: nat)
    requires pos <= args.Length && Readable(args[pos..], numargs)
    ensures var ahead := Words(args[pos..], numargs);
            n == if numargs > 0 && ahead != [] then numargs else |ahead|
  {
    hide Words, Readable, Slots;
    if numargs == 0 {
      return 0;
    }
    Ahead(args[pos..], numargs);
    if numargs > 0 {
      n := if args[pos].None? then 0 else numargs;
    } else {
      n := CountRemaining(args, pos, numargs);
    }
  }

  /**
   One pass over the vector: the result is the parse of its words, and the vector is left in the order of that parse.
  */
  method Workhorse(gnu: bool, env: Env, msg: bool, args: array<Slot>, numargs0: int, action: ActionObject)
    returns (ok: bool, first: nat, remaining: int)
    requires Readable(args[..], numargs0)
    modifies args, action
    ensures !gnu ==> args[..] == old(args[..])
    ensures var words := Words(old(args[..]), numargs0);
            var p := ParseWords(gnu, env, msg, words);
            var r := PerformAll(old(action.View()), p.found);
            && action.View() == r.0 && ok == (p.ok && r.1)
            && (ok ==> first == |p.taken| && |p.taken| + |p.left| == |words|
                       && args[..] == Slots(p.taken + p.left) + old(args[..])[|words|..])
            && (ok ==> remaining == if numargs0 > |words| && Unread(gnu, env, msg, words) > 0
                                then numargs0 - |p.taken| else |p.left|)
  {
    hide ParseWords, Unread, Words, Layout, Slots, PerformAll, Readable;
    ghost var slots := args[..];
    ghost var words := Words(slots, numargs0);
    ghost var p := ParseWords(gnu, env, msg, words);
    var pos, numargs, nonops;
    ghost var found, taken, skipped;
    ok, pos, numargs, nonops, found, taken, skipped := Advance(gnu, env, msg, args, numargs0, action, words, p);
    if !ok {
      return false, 0, 0;
    }
    FinalLayout(taken, skipped, slots, words);
    LayoutAt(taken, skipped, slots);
    assert args[pos..] == slots[pos..];
    numargs := CorrectCount(args, pos, numargs);
    first, remaining := pos - nonops, numargs + nonops;
  }

  /** An action that refused among the options so far would have refused in the whole parse. */
  lemma {:induction false} Refused(gnu: bool, env: Env, msg: bool, slots: seq<Slot>, words: seq<string>, full: Parsed,
                found: seq<Option>, taken: seq<string>, skipped: seq<string>, numargs: int, start: Action)
    requires Midway(gnu, env, msg, slots, words, full, found, taken, skipped, numargs)
    requires !PerformAll(start, found).1
    ensures PerformAll(start, full.found) == PerformAll(start, found)
  {
    hide PerformAll, ParseWords, Words, Readable;
    PerformConcat(start, found, ParseWords(gnu, env, msg, Words(slots[|taken| + |skipped|..], numargs)).found);
  }

  lemma {:induction false} MidwayFacts(gnu: bool, env: Env, msg: bool, slots: seq<Slot>, words: seq<string>,
                                       full: Parsed,
                    found: seq<Option>, taken: seq<string>, skipped: seq<string>, numargs: int)
    requires Midway(gnu, env, msg, slots, words, full, found, taken, skipped, numargs)
    ensures var pos := |taken| + |skipped|;
            && pos <= |slots| && pos <= |words| && (numargs != 0 ==> pos < |slots|)
            && Readable(slots[pos..], numargs) && Words(slots[pos..], numargs) == words[pos..]
  {}

  lemma {:induction false} Nothing(slots: seq<Slot>, numargs: int)
    requires numargs == 0 || (slots != [] && slots[0].None?)
    ensures Words(slots, numargs) == []
  {}

  lemma LayoutAt(taken: seq<string>, skipped: seq<string>, slots: seq<Slot>)
    requires |taken| + |skipped| <= |slots|
    ensures |Layout(taken, skipped, slots)| == |slots|
    ensures forall i :: |taken| + |skipped| <= i < |slots| ==> Layout(taken, skipped, slots)[i] == slots[i]
  {}

  lemma OptionOrNot(word: string)
    requires !NonOption(word) && !IsTerminator(word)
    ensures OptionWord(word)
  {}
}
