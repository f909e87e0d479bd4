/**
 What the two passes of the argument parser have to do with each other, and what a parse does to
 the words: every word is kept, used words first, each group in its original order.
*/
module OptionTheorems {
  import opened Common
  import opened OptionModel
  import opened OptionParser

  /** A parse that starts with an option word. */
  lemma {:induction false} OptionFirst(gnu: bool, env: Env, msg: bool, words: seq<string>)
    requires words != [] && OptionWord(words[0])
    ensures var o := ParseWord(env, msg, words[0], NextOf(words));
            var used := if o.took then 2 else 1;
            && used <= |words|
            && ParseWords(gnu, env, msg, words) ==
               if !o.ok then Parsed(o.found, [], [], false)
               else
                 var rest := ParseWords(gnu, env, msg, words[used..]);
                 Parsed(o.found + rest.found, words[..used] + rest.taken, rest.left, rest.ok)
  {
    hide ParseWord;
  }

  // ---- Reordering ----

  /** `words` is an interleaving of `x` and `y`: both keep their order and every word is in one of them. */
  predicate Interleaves(words: seq<string>, x: seq<string>, y: seq<string>)
    decreases |words|
  {
    if words == [] then x == [] && y == []
    else
      || (x != [] && x[0] == words[0] && Interleaves(words[1..], x[1..], y))
      || (y != [] && y[0] == words[0] && Interleaves(words[1..], x, y[1..]))
  }

  lemma {:induction false} InterleavesRight(y: seq<string>)
    ensures Interleaves(y, [], y)
  {
    if y != [] { InterleavesRight(y[1..]); }
  }

  lemma {:induction false} InterleavesPermutes(words: seq<string>, x: seq<string>, y: seq<string>)
    requires Interleaves(words, x, y)
    ensures multiset(x + y) == multiset(words) && |x| + |y| == |words|
    decreases |words|
  {
    if words != [] {
      assert words == [words[0]] + words[1..];
      if x != [] && x[0] == words[0] && Interleaves(words[1..], x[1..], y) {
        InterleavesPermutes(words[1..], x[1..], y);
        assert x + y == [x[0]] + (x[1..] + y);
      } else {
        InterleavesPermutes(words[1..], x, y[1..]);
        assert y == [y[0]] + y[1..];
        assert multiset(x + y) == multiset(x) + multiset(y) && multiset(x + y[1..]) == multiset(x) + multiset(y[1..]);
      }
    }
  }

  lemma {:induction false} InterleavesUsed(words: seq<string>, used: nat, x: seq<string>, y: seq<string>)
    requires 1 <= used <= 2 && used <= |words| && Interleaves(words[used..], x, y)
    ensures Interleaves(words, words[..used] + x, y)
  {
    var front := words[..used] + x;
    if used == 1 {
      assert front[1..] == x;
    } else {
      assert front[1..][1..] == x && words[1..][1..] == words[2..];
      assert Interleaves(words[1..], front[1..], y);
    }
  }

  /** The left-over words: words that are no options, then, if "--" came, everything after it. */
  predicate LeftOver(taken: seq<string>, left: seq<string>, k: nat) {
    && k <= |left| && (forall i :: 0 <= i < k ==> NonOption(left[i]))
    && (k < |left| ==> taken != [] && taken[|taken| - 1] == "--")
  }

  lemma {:induction false} ParseInterleaves(gnu: bool, env: Env, msg: bool, words: seq<string>)
    requires ParseWords(gnu, env, msg, words).ok
    ensures var p := ParseWords(gnu, env, msg, words); Interleaves(words, p.taken, p.left)
    decreases |words|
  {
    hide ParseWord, NonOption, Interleaves;
    if words == [] {
      InterleavesRight(words);
    } else if NonOption(words[0]) {
      if gnu {
        ParseInterleaves(gnu, env, msg, words[1..]);
        InterleavesLeft(words, ParseWords(gnu, env, msg, words[1..]));
      } else {
        InterleavesRight(words);
      }
    } else if IsTerminator(words[0]) {
      InterleavesRight(words[1..]);
      InterleavesUsed(words, 1, [], words[1..]);
      assert words[..1] + [] == words[..1];
    } else {
      var o := ParseWord(env, msg, words[0], NextOf(words));
      var used := if o.took then 2 else 1;
      ParseInterleaves(gnu, env, msg, words[used..]);
      var rest := ParseWords(gnu, env, msg, words[used..]);
      InterleavesUsed(words, used, rest.taken, rest.left);
    }
  }

  lemma {:induction false} InterleavesLeft(words: seq<string>, p: Parsed)
    requires words != [] && Interleaves(words[1..], p.taken, p.left)
    ensures Interleaves(words, p.taken, [words[0]] + p.left)
  {
    assert ([words[0]] + p.left)[1..] == p.left;
  }

  lemma {:induction false} ParseLeavesNonOptions(env: Env, msg: bool, words: seq<string>) returns (k: nat)
    requires ParseWords(true, env, msg, words).ok
    ensures var p := ParseWords(true, env, msg, words); LeftOver(p.taken, p.left, k)
    decreases |words|
  {
    hide ParseWord, NonOption;
    k := 0;
    if words == [] {
    } else if NonOption(words[0]) {
      k := ParseLeavesNonOptions(env, msg, words[1..]);
      var rest := ParseWords(true, env, msg, words[1..]);
      assert ([words[0]] + rest.left)[1..] == rest.left;
      k := k + 1;
    } else if !IsTerminator(words[0]) {
      var used := if ParseWord(env, msg, words[0], NextOf(words)).took then 2 else 1;
      k := ParseLeavesNonOptions(env, msg, words[used..]);
    }
  }

  lemma {:induction false} PosixKeepsOrder(env: Env, msg: bool, words: seq<string>)
    requires ParseWords(false, env, msg, words).ok
    ensures var p := ParseWords(false, env, msg, words); p.taken + p.left == words
    decreases |words|
  {
    hide ParseWord, NonOption;
    if words != [] && OptionWord(words[0]) {
      var used := if ParseWord(env, msg, words[0], NextOf(words)).took then 2 else 1;
      PosixKeepsOrder(env, msg, words[used..]);
      var rest := ParseWords(false, env, msg, words[used..]);
      Regroup(words, used, rest.taken, rest.left);
    }
  }

  lemma Regroup(words: seq<string>, used: nat, taken: seq<string>, left: seq<string>)
    requires used <= |words| && taken + left == words[used..]
    ensures words[..used] + taken + left == words
  {
    assert words[..used] + taken + left == words[..used] + (taken + left);
  }

  /** A parse that succeeds keeps every word, in order, and in GNU mode leaves over exactly what is no option. */
  lemma {:induction false} SuccessfulParseReorders(gnu: bool, env: Env, msg: bool, words: seq<string>)
    requires ParseWords(gnu, env, msg, words).ok
    ensures var p := ParseWords(gnu, env, msg, words);
            && Interleaves(words, p.taken, p.left)
            && multiset(p.taken + p.left) == multiset(words)
            && (gnu ==> exists k :: LeftOver(p.taken, p.left, k))
            && (!gnu ==> p.taken + p.left == words)
  {
    hide ParseWords, LeftOver, Interleaves;
    var p := ParseWords(gnu, env, msg, words);
    ParseInterleaves(gnu, env, msg, words);
    InterleavesPermutes(words, p.taken, p.left);
    if gnu {
      var k := ParseLeavesNonOptions(env, msg, words);
    } else {
      PosixKeepsOrder(env, msg, words);
    }
  }

  /** The words a successful parse never looks at are the last of the words, and of those left over. */
  lemma {:induction false} UnreadAreLeft(gnu: bool, env: Env, msg: bool, words: seq<string>)
    requires ParseWords(gnu, env, msg, words).ok
    ensures UnreadLast(Unread(gnu, env, msg, words), words, ParseWords(gnu, env, msg, words).left)
    decreases |words|
  {
    hide ParseWord, NonOption, UnreadLast;
    if words == [] {
      AllLast(0, words);
    } else if NonOption(words[0]) {
      if gnu {
        UnreadAreLeft(gnu, env, msg, words[1..]);
        LastOfMore(Unread(gnu, env, msg, words[1..]), words, 1, [words[0]], ParseWords(gnu, env, msg, words[1..]).left);
      } else {
        AllLast(|words|, words);
      }
    } else if IsTerminator(words[0]) {
      AllLast(|words| - 1, words[1..]);
      LastOfMore(|words| - 1, words, 1, [], words[1..]);
    } else {
      var used := if ParseWord(env, msg, words[0], NextOf(words)).took then 2 else 1;
      UnreadAreLeft(gnu, env, msg, words[used..]);
      LastOfMore(Unread(gnu, env, msg, words[used..]), words, used, [], ParseWords(gnu, env, msg, words[used..]).left);
    }
  }

  predicate UnreadLast(n: nat, words: seq<string>, left: seq<string>) {
    n <= |left| && n <= |words| && words[|words| - n..] == left[|left| - n..]
  }

  lemma AllLast(n: nat, words: seq<string>)
    requires n == |words|
    ensures UnreadLast(n, words, words)
  {}

  lemma LastOfMore(n: nat, words: seq<string>, used: nat, more: seq<string>, left: seq<string>)
    requires used <= |words| && UnreadLast(n, words[used..], left)
    ensures UnreadLast(n, words, more + left)
    ensures more == [] ==> UnreadLast(n, words, left)
  {
    assert words[|words| - n..] == words[used..][|words| - used - n..];
    assert (more + left)[|more + left| - n..] == left[|left| - n..];
  }

  // ---- The two passes ----

  /** The verdict on an argument does not depend on whether messages are wanted. */
  ghost predicate FlagFree(env: Env) {
    forall o :: env.checkArg(o, false) == env.checkArg(o, true)
  }

  lemma {:induction false} AssessFlag(env: Env, idx: nat, name: string, optarg: Maybe<string>, detached: bool)
    requires FlagFree(env)
    ensures Assess(env, false, idx, name, optarg, detached) == Assess(env, true, idx, name, optarg, detached)
  {
    hide Resolve;
  }

  lemma {:induction false} ShortGroupFlag(env: Env, word: string, i: nat, next: Maybe<string>)
    requires FlagFree(env) && i <= |word|
    ensures ShortGroup(env, false, word, i, next) == ShortGroup(env, true, word, i, next)
    decreases |word| - i
  {
    hide FirstShort, Assess;
    if i < |word| {
      var detached := i + 1 == |word|;
      AssessFlag(env, FirstShort(env.usage, word[i], 0), word[i..], if detached then next else Some(word[i + 1..]),
                 detached);
      ShortGroupFlag(env, word, i + 1, next);
    }
  }

  lemma ParseWordFlag(env: Env, word: string, next: Maybe<string>)
    requires FlagFree(env) && OptionWord(word)
    ensures ParseWord(env, false, word, next) == ParseWord(env, true, word, next)
  {
    hide FirstShort, Resolve, LongIndex, ShortGroup;
    ShortGroupFlag(env, word, 1, next);
  }

  lemma {:induction false} ParseFlag(gnu: bool, env: Env, words: seq<string>)
    requires FlagFree(env)
    ensures ParseWords(gnu, env, false, words) == ParseWords(gnu, env, true, words)
    decreases |words|
  {
    hide ParseWord;
    if words == [] {
    } else if NonOption(words[0]) {
      ParseFlag(gnu, env, words[1..]);
    } else if !IsTerminator(words[0]) {
      ParseWordFlag(env, words[0], NextOf(words));
      ParseFlag(gnu, env, words[if ParseWord(env, true, words[0], NextOf(words)).took then 2 else 1..]);
    }
  }

  lemma {:induction false} CountedAll(n: nat, options: seq<Option>)
    requires n <= MAX_INT
    ensures PerformAll(Count(n), options) == (Count(Min(n + |options|, MAX_INT)), n + |options| <= MAX_INT)
    decreases |options|
  {
    if options != [] && n < MAX_INT {
      CountedAll(n + 1, options[1..]);
    }
  }

  lemma {:induction false} StoredAll(buffer: seq<Option>, options: seq<Option>)
    requires |buffer| <= MAX_INT
    ensures PerformAll(Store(-1, buffer), options) ==
            (Store(-1, buffer + options[..Min(|options|, MAX_INT - |buffer|)]), |buffer| + |options| <= MAX_INT)
    decreases |options|
  {
    if options == [] {
      assert buffer + options[..0] == buffer;
    } else if |buffer| < MAX_INT {
      StoredAll(buffer + [options[0]], options[1..]);
      var m := Min(|options|, MAX_INT - |buffer|);
      assert buffer + [options[0]] + options[1..][..m - 1] == buffer + options[..m];
    } else {
      assert buffer + options[..0] == buffer;
    }
  }

  /** With room for a bounded number of options, the first ones are stored and the rest discarded. */
  lemma {:induction false} StoredBounded(bufmax: nat, buffer: seq<Option>, options: seq<Option>)
    requires |buffer| <= bufmax <= MAX_INT
    ensures PerformAll(Store(bufmax, buffer), options) ==
            (Store(bufmax, buffer + options[..Min(|options|, bufmax - |buffer|)]), true)
    decreases |options|
  {
    if options == [] {
      assert buffer + options[..0] == buffer;
    } else if |buffer| < bufmax {
      StoredBounded(bufmax, buffer + [options[0]], options[1..]);
      var m := Min(|options|, bufmax - |buffer|);
      assert buffer + [options[0]] + options[1..][..m - 1] == buffer + options[..m];
    } else {
      StoredBounded(bufmax, buffer, options[1..]);
      assert buffer + options[..0] == buffer && buffer + options[1..][..0] == buffer;
    }
  }

  /** The slots the counting pass reserves for a parse that yields `found`, and those the storing pass fills. */
  function Reserved(found: seq<Option>): Action { PerformAll(Count(1), found).0 }
  function Filled(found: seq<Option>): Action { PerformAll(Store(-1, []), found).0 }

  /**
   In POSIX mode the second pass fills exactly one slot fewer than the first reserved, whether or not
   the parse succeeds, if and only if there are fewer than 2^31 - 1 options; it never overruns.
  */
  lemma {:induction false} PosixPassesAgree(env: Env, words: seq<string>)
    requires FlagFree(env)
    ensures var counted := ParseWords(false, env, false, words);
            var parsed := ParseWords(false, env, true, words);
            && counted == parsed
            && Reserved(counted.found).Count? && Filled(parsed.found).Store?
            && |Filled(parsed.found).buffer| <= Reserved(counted.found).bufferMax
            && (Reserved(counted.found).bufferMax == |Filled(parsed.found).buffer| + 1 <==>
                |parsed.found| < 0x7fff_ffff)
            && (|parsed.found| <= MAX_INT ==> Filled(parsed.found).buffer == parsed.found)
  {
    ParseFlag(false, env, words);
    var found := ParseWords(false, env, true, words).found;
    CountedAll(1, found);
    StoredAll([], found);
    assert |found| <= MAX_INT ==> found[..|found|] == found;
  }

  // ---- Which command lines are short enough ----

  function Chars(words: seq<string>): nat {
    if words == [] then 0 else |words[0]| + Chars(words[1..])
  }

  lemma {:induction false} GroupYields(env: Env, msg: bool, word: string, i: nat, next: Maybe<string>)
    requires i <= |word|
    ensures |ShortGroup(env, msg, word, i, next).found| <= |word| - i
    decreases |word| - i
  {
    hide AssessShort;
    if i < |word| {
      GroupYields(env, msg, word, i + 1, next);
      AssessYields(env, msg, word, i, next);
    }
  }

  lemma AssessYields(env: Env, msg: bool, word: string, i: nat, next: Maybe<string>)
    requires i < |word|
    ensures var v := AssessShort(env, msg, word, i, next); v.Onward? ==> |v.options| <= 1
  {
    hide Assess, FirstShort;
  }

  lemma WordYields(env: Env, msg: bool, word: string, next: Maybe<string>)
    requires OptionWord(word)
    ensures |ParseWord(env, msg, word, next).found| <= |word| - 1
  {
    hide ShortGroup, Assess, LongIndex;
    GroupYields(env, msg, word, 1, next);
  }

  /** A word yields fewer options than it has characters. */
  lemma {:induction false} FewerThanChars(gnu: bool, env: Env, msg: bool, words: seq<string>)
    ensures var found := ParseWords(gnu, env, msg, words).found; found == [] || |found| < Chars(words)
    decreases |words|
  {
    hide ParseWord, NonOption;
    if words == [] {
    } else if NonOption(words[0]) {
      FewerThanChars(gnu, env, msg, words[1..]);
    } else if !IsTerminator(words[0]) {
      var used := if ParseWord(env, msg, words[0], NextOf(words)).took then 2 else 1;
      WordYields(env, msg, words[0], NextOf(words));
      FewerThanChars(gnu, env, msg, words[used..]);
      CharsFrom(words, used);
    }
  }

  lemma {:induction false} CharsFrom(words: seq<string>, used: nat)
    requires 1 <= used <= 2 && used <= |words|
    ensures Chars(words) >= |words[0]| + Chars(words[used..])
  {
    if used == 2 {
      assert words[1..][1..] == words[2..];
      assert Chars(words[1..]) == |words[1]| + Chars(words[2..]);
    }
  }

  /** One row with one short name, whose check never objects. */
  function OneFlag(): Env {
    Env([Descriptor(0, 0, "x", "")], false, 0, (o: Option, msg: bool) => ARG_NONE)
  }

  function Xs(n: nat): string { seq(n, i => 'x') }

  lemma {:induction false} GroupOfXs(n: nat, i: nat, msg: bool)
    requires 1 <= i <= n + 1
    ensures var o := ShortGroup(OneFlag(), msg, "-" + Xs(n), i, None); |o.found| == n + 1 - i && o.ok && !o.took
    decreases n + 1 - i
  {
    if i < n + 1 {
      GroupOfXs(n, i + 1, msg);
      XIsFound(n, i, msg);
    }
  }

  lemma {:induction false} XIsFound(n: nat, i: nat, msg: bool)
    requires 1 <= i < n + 1
    ensures var word := "-" + Xs(n); AssessShort(OneFlag(), msg, word, i, None) == Onward([Option(0, word[i..], None)])
  {
    var word := "-" + Xs(n);
    assert word[i] == 'x';
    assert FirstShort(OneFlag().usage, 'x', 0) == 0;
  }

  lemma {:induction false} WordOfXs(n: nat, msg: bool)
    requires n > 0
    ensures |ParseWords(false, OneFlag(), msg, ["-" + Xs(n)]).found| == n && Chars(["-" + Xs(n)]) == n + 1
  {
    hide ShortGroup;
    var word := "-" + Xs(n);
    assert word[1] == 'x';
    var none: seq<string> := [word][1..];
    assert none == [];
    GroupOfXs(n, 1, msg);
    var o := ParseWord(OneFlag(), msg, word, None);
    assert o == ShortGroup(OneFlag(), msg, word, 1, None);
    assert ParseWords(false, OneFlag(), msg, []) == Parsed([], [], [], true);
    assert ParseWords(false, OneFlag(), msg, [word]).found == o.found + [];
  }

  /** The counting pass reserves one slot more than the storing pass fills. */
  predicate OneMoreReserved(env: Env, words: seq<string>) {
    var reserved := Reserved(ParseWords(false, env, false, words).found);
    var filled := Filled(ParseWords(false, env, true, words).found);
    reserved.Count? && filled.Store? && reserved.bufferMax == |filled.buffer| + 1
  }

  /** One word of 2^31 characters: as many slots are reserved as are filled. */
  lemma {:induction false} LongestGroupHasNoSpare()
    ensures var words := ["-" + Xs(MAX_INT)];
            && Reserved(ParseWords(false, OneFlag(), false, words).found) == Count(0x7fff_ffff)
            && Filled(ParseWords(false, OneFlag(), true, words).found).Store?
            && |Filled(ParseWords(false, OneFlag(), true, words).found).buffer| == 0x7fff_ffff
            && Chars(words) == 0x8000_0000
  {
    hide ParseWords, PerformAll, Chars, Xs;
    var words := ["-" + Xs(MAX_INT)];
    WordOfXs(MAX_INT, false);
    WordOfXs(MAX_INT, true);
    CountedAll(1, ParseWords(false, OneFlag(), false, words).found);
    StoredAll([], ParseWords(false, OneFlag(), true, words).found);
  }

  /**
   The promise holds of every command line of at most `bound` characters, whatever the table and the
   check, exactly when `bound` is below 2^31.
  */
  lemma {:induction false} ShortCommandLinesAgree(bound: nat)
    ensures (forall env, words :: FlagFree(env) && Chars(words) <= bound ==> OneMoreReserved(env, words)) <==>
            bound <= 0x7fff_ffff
  {
    hide ParseWords, PerformAll, Chars, Xs, FlagFree, Reserved, Filled;
    if bound <= MAX_INT {
      forall env, words | FlagFree(env) && Chars(words) <= bound
        ensures OneMoreReserved(env, words)
      {
        PosixPassesAgree(env, words);
        FewerThanChars(false, env, true, words);
      }
    } else {
      LongestGroupHasNoSpare();
      OneFlagIsFlagFree();
      assert !OneMoreReserved(OneFlag(), ["-" + Xs(MAX_INT)]);
    }
  }

  lemma OneFlagIsFlagFree()
    ensures FlagFree(OneFlag())
  {}
}
