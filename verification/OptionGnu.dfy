/**
 The second pass of the argument parser in GNU mode, over the words that the first pass reordered:
 it finds the same options on every command line exactly when no option's verdict on its next word
 can be turned by the reordering.
*/
module OptionGnu {
  import opened Common
  import opened OptionModel
  import opened OptionTheorems
  import OptionParser

  /** A name whose argument, if it has one, is the next word. */
  predicate DetachedName(name: string) { |name| == 1 || (name != "" && name[0] == '-' && '=' !in name) }

  /** The verdict does not use up the argument offered. */
  predicate LeavesArgument(env: Env, o: Option) {
    var status := env.checkArg(o, true);
    status == ARG_NONE || status == ARG_IGNORE || (status == ARG_OK && o.arg.None?)
  }

  /** An option that leaves one next word alone leaves every next word alone. */
  ghost predicate Steady(env: Env) {
    forall d, name, a, b :: DetachedName(name) && LeavesArgument(env, Option(d, name, a)) ==>
          LeavesArgument(env, Option(d, name, b))
  }

  lemma SteadyAssess(env: Env, idx: nat, name: string, a: Maybe<string>, b: Maybe<string>)
    requires Steady(env) && DetachedName(name)
    requires var v := Assess(env, true, idx, name, a, true); v.Onward? || (v.Final? && !v.took)
    ensures var v, w := Assess(env, true, idx, name, a, true), Assess(env, true, idx, name, b, true);
            && (w.Onward? || (w.Final? && !w.took)) && OptionParser.Options(w) == OptionParser.Options(v)
  {}

  lemma {:induction false} SteadyGroup(env: Env, word: string, i: nat, a: Maybe<string>, b: Maybe<string>)
    requires Steady(env) && i <= |word|
    requires var o := ShortGroup(env, true, word, i, a); o.ok && !o.took
    ensures ShortGroup(env, true, word, i, b) == ShortGroup(env, true, word, i, a)
    decreases |word| - i
  {
    if i < |word| {
      if i + 1 == |word| {
        SteadyAssess(env, FirstShort(env.usage, word[i], 0), word[i..], a, b);
      } else if AssessShort(env, true, word, i, a).Onward? {
        SteadyGroup(env, word, i + 1, a, b);
      }
    }
  }

  lemma {:induction false} NoEquals(name: string)
    ensures AfterEquals(name).None? <==> '=' !in name
  {
    if name != "" && name[0] != '=' {
      NoEquals(name[1..]);
      assert name == [name[0]] + name[1..];
    }
  }

  lemma SteadyLong(env: Env, word: string, k: nat, a: Maybe<string>, b: Maybe<string>)
    requires Steady(env) && 1 <= k <= 2 && k <= |word| && forall i :: 0 <= i < k ==> word[i] == '-'
    requires var o := LongOption(env, true, word, word[k..], a); o.ok && !o.took
    ensures LongOption(env, true, word, word[k..], b) == LongOption(env, true, word, word[k..], a)
  {
    NoEquals(word[k..]);
    if AfterEquals(word[k..]).None? {
      assert word == word[..k] + word[k..];
      SteadyAssess(env, LongIndex(env, word[k..]), word, a, b);
    }
  }

  lemma SteadyWord(env: Env, word: string, a: Maybe<string>, b: Maybe<string>)
    requires Steady(env) && OptionWord(word)
    requires var o := ParseWord(env, true, word, a); o.ok && !o.took
    ensures ParseWord(env, true, word, b) == ParseWord(env, true, word, a)
  {
    if word[1] == '-' {
      SteadyLong(env, word, 2, a, b);
    } else if env.singleMinus && LongIndex(env, word[1..]) < |env.usage| {
      SteadyLong(env, word, 1, a, b);
    } else {
      SteadyGroup(env, word, 1, a, b);
    }
  }

  predicate AllNonOptions(words: seq<string>) {
    forall i :: 0 <= i < |words| ==> NonOption(words[i])
  }

  lemma {:induction false} ParseNonOptions(env: Env, words: seq<string>)
    requires AllNonOptions(words)
    ensures ParseWords(true, env, true, words) == Parsed([], [], words, true)
    decreases |words|
  {
    if words != [] {
      ParseNonOptions(env, words[1..]);
    }
  }

  // ---- Which next words matter ----

  /** The option word can do with this next word, or none, without using it up. */
  predicate Leaves(env: Env, word: string, next: Maybe<string>)
    requires OptionWord(word)
  {
    var o := ParseWord(env, true, word, next);
    o.ok && !o.took
  }

  /** Some command line goes on from this word without a failure. */
  ghost predicate Completable(env: Env, word: string) {
    exists rest :: ParseWords(true, env, true, [word] + rest).ok
  }

  /** After the reordering, `b` can follow an option word that `a` followed before, or that came last. */
  ghost predicate MayFollow(env: Env, a: Maybe<string>, b: string) {
    NonOption(b) || (a.Some? && (IsTerminator(b) || (OptionWord(b) && Completable(env, b))))
  }

  /**
   No option leaves a word that is no option alone but fails on, or uses up, one that the reordering may put in its
   place.
  */
  ghost predicate Insensitive(env: Env) {
    forall word, a: Maybe<string>, b ::
      OptionWord(word) && (a.None? || NonOption(a.value)) && Leaves(env, word, a) && MayFollow(env, a, b) ==>
        Leaves(env, word, Some(b))
  }

  lemma {:induction false} SteadyIsInsensitive(env: Env)
    requires Steady(env)
    ensures Insensitive(env)
  {
    hide ParseWord, Completable;
    forall word, a: Maybe<string>, b | OptionWord(word) && (a.None? || NonOption(a.value)) && Leaves(env, word, a)
        && MayFollow(env, a, b)
      ensures Leaves(env, word, Some(b))
    {
      SteadyWord(env, word, a, Some(b));
    }
  }

  /** One found list ends with an argument that the other does without. */
  predicate Differ(x: Outcome, y: Outcome) {
    |x.found| == |y.found| > 0 && x.found[|x.found| - 1] != y.found[|y.found| - 1]
  }

  /** The last character of a group, which alone may take the next word. */
  lemma {:induction false} LeftAloneLast(env: Env, word: string, a: Maybe<string>, b: Maybe<string>)
    requires word != "" && var o := ShortGroup(env, true, word, |word| - 1, a); o.ok && !o.took
    requires ShortGroup(env, true, word, |word| - 1, b).ok
    ensures var x, y := ShortGroup(env, true, word, |word| - 1, a), ShortGroup(env, true, word, |word| - 1, b);
            if y.took then Differ(x, y) else x == y
  {
    hide Assess;
    LastAsks(env, word, a);
    LastAsks(env, word, b);
    AssessNext(env, FirstShort(env.usage, word[|word| - 1], 0), word[|word| - 1..], a, b);
  }

  /** The last character of a group is judged with the next word as its argument. */
  lemma {:induction false} LastAsks(env: Env, word: string, next: Maybe<string>)
    requires word != ""
    ensures ShortGroup(env, true, word, |word| - 1, next) ==
            Judged(Assess(env, true, FirstShort(env.usage, word[|word| - 1], 0), word[|word| - 1..], next, true))
  {
    hide Assess, FirstShort;
    assert ShortGroup(env, true, word, |word|, next) == Outcome([], false, true);
  }

  /** What a word yields whose only candidate is judged so. */
  function Judged(v: Verdict): Outcome {
    match v
    case Fatal => Outcome([], false, false)
    case Final(option, took) => Outcome([option], took, true)
    case Onward(options) => Outcome(options, false, true)
  }

  /** A candidate that leaves its next word alone is judged alike with another next word, unless it takes that. */
  lemma {:induction false} AssessNext(env: Env, idx: nat, name: string, a: Maybe<string>, b: Maybe<string>)
    requires var o := Judged(Assess(env, true, idx, name, a, true)); o.ok && !o.took
    requires Judged(Assess(env, true, idx, name, b, true)).ok
    ensures var x, y := Judged(Assess(env, true, idx, name, a, true)), Judged(Assess(env, true, idx, name, b, true));
            if y.took then Differ(x, y) else x == y
  {
    hide Resolve;
  }

  /** What leaves its next word alone finds the same whatever the word is. */
  lemma {:induction false} LeftAloneGroup(env: Env, word: string, i: nat, a: Maybe<string>, b: Maybe<string>)
    requires i <= |word|
    requires var o := ShortGroup(env, true, word, i, a); o.ok && !o.took
    requires ShortGroup(env, true, word, i, b).ok
    ensures var x, y := ShortGroup(env, true, word, i, a), ShortGroup(env, true, word, i, b);
            if y.took then Differ(x, y) else x == y
    decreases |word| - i
  {
    if i + 1 == |word| {
      LeftAloneLast(env, word, a, b);
    } else if i < |word| {
      LeftAloneEarlier(env, word, i, a, b);
    }
  }

  lemma {:induction false} LeftAloneEarlier(env: Env, word: string, i: nat, a: Maybe<string>, b: Maybe<string>)
    requires i + 1 < |word|
    requires var o := ShortGroup(env, true, word, i, a); o.ok && !o.took
    requires ShortGroup(env, true, word, i, b).ok
    ensures var x, y := ShortGroup(env, true, word, i, a), ShortGroup(env, true, word, i, b);
            if y.took then Differ(x, y) else x == y
    decreases |word| - i, 0
  {
    hide Assess, FirstShort;
    SameAssessment(env, word, i, a, b);
    if AssessShort(env, true, word, i, a).Onward? {
      hide AssessShort;
      LeftAloneGroup(env, word, i + 1, a, b);
    }
  }

  /** Before the last character, the next word is not offered. */
  lemma {:induction false} SameAssessment(env: Env, word: string, i: nat, a: Maybe<string>, b: Maybe<string>)
    requires i + 1 < |word|
    ensures AssessShort(env, true, word, i, a) == AssessShort(env, true, word, i, b)
  {}

  lemma {:induction false} LeftAlone(env: Env, word: string, a: Maybe<string>, b: Maybe<string>)
    requires OptionWord(word) && Leaves(env, word, a) && ParseWord(env, true, word, b).ok
    ensures var x, y := ParseWord(env, true, word, a), ParseWord(env, true, word, b);
            if y.took then Differ(x, y) else x == y
  {
    hide ShortGroup, LongIndex, Resolve;
    if word[1] != '-' && !(env.singleMinus && LongIndex(env, word[1..]) < |env.usage|) {
      LeftAloneGroup(env, word, 1, a, b);
    }
  }

  // ---- Insensitive checks: the passes agree ----

  /** The first word used is "--" or an option from which the parse went on. */
  lemma {:induction false} FirstTaken(env: Env, words: seq<string>)
    requires ParseWords(true, env, true, words).ok && ParseWords(true, env, true, words).taken != []
    ensures var w := ParseWords(true, env, true, words).taken[0];
            IsTerminator(w) || (OptionWord(w) && Completable(env, w))
    decreases |words|
  {
    hide ParseWord;
    if NonOption(words[0]) {
      FirstTaken(env, words[1..]);
    } else if !IsTerminator(words[0]) {
      assert words == [words[0]] + words[1..];
    }
  }

  lemma {:induction false} NothingTaken(env: Env, words: seq<string>)
    requires ParseWords(true, env, true, words).ok && ParseWords(true, env, true, words).taken == []
    ensures ParseWords(true, env, true, words).left == words && AllNonOptions(words)
    decreases |words|
  {
    hide ParseWord;
    if words != [] {
      if NonOption(words[0]) { NothingTaken(env, words[1..]); }
      assert words == [words[0]] + words[1..];
    }
  }

  /** The words as a first pass leaves them, with `pre` skipped words before those left over. */
  lemma {:induction false} Reparse(env: Env, words: seq<string>, pre: seq<string>)
    requires Insensitive(env) && AllNonOptions(pre) && ParseWords(true, env, true, words).ok
    ensures var p := ParseWords(true, env, true, words);
            ParseWords(true, env, true, p.taken + (pre + p.left)) == Parsed(p.found, p.taken, pre + p.left, true)
    decreases |words|
  {
    hide ParseWord, NonOption, Insensitive;
    var p := ParseWords(true, env, true, words);
    if words == [] {
      assert [] + (pre + []) == pre == pre + [];
      ParseNonOptions(env, pre);
    } else if NonOption(words[0]) {
      Reparse(env, words[1..], pre + [words[0]]);
      var rest := ParseWords(true, env, true, words[1..]);
      assert pre + [words[0]] + rest.left == pre + p.left;
    } else if IsTerminator(words[0]) {
      var again := p.taken + (pre + p.left);
      assert again[0] == words[0] && again[..1] == words[..1] && again[1..] == pre + p.left;
    } else {
      ReparseOption(env, words, pre);
    }
  }

  lemma {:induction false} ReparseOption(env: Env, words: seq<string>, pre: seq<string>)
    requires Insensitive(env) && AllNonOptions(pre) && words != [] && OptionWord(words[0])
             && ParseWords(true, env, true, words).ok
    ensures var p := ParseWords(true, env, true, words);
            ParseWords(true, env, true, p.taken + (pre + p.left)) == Parsed(p.found, p.taken, pre + p.left, true)
    decreases |words|, 0
  {
    hide ParseWord, ParseWords, NonOption, Insensitive;
    OptionFirst(true, env, true, words);
    var p := ParseWords(true, env, true, words);
    var o := ParseWord(env, true, words[0], NextOf(words));
    var used := if o.took then 2 else 1;
    var rest := ParseWords(true, env, true, words[used..]);
    Reparse(env, words[used..], pre);
    var again := p.taken + (pre + p.left);
    assert again == words[..used] + (rest.taken + (pre + rest.left));
    assert again[0] == words[0] && again[used..] == rest.taken + (pre + rest.left) && again[..used] == words[..used];
    OptionFirst(true, env, true, again);
    if o.took {
      assert again[1] == words[1];
    } else {
      assert again == [words[0]] + (rest.taken + (pre + rest.left));
      SameOutcome(env, words, pre);
    }
  }

  /** An option that left its next word alone finds the same with the word it now precedes. */
  lemma {:induction false} SameOutcome(env: Env, words: seq<string>, pre: seq<string>)
    requires Insensitive(env) && AllNonOptions(pre) && words != [] && OptionWord(words[0])
             && ParseWords(true, env, true, words).ok
    requires Leaves(env, words[0], NextOf(words))
    ensures var rest := ParseWords(true, env, true, words[1..]);
            ParseWord(env, true, words[0], NextOf([words[0]] + (rest.taken + (pre + rest.left)))) ==
            ParseWord(env, true, words[0], NextOf(words))
  {
    hide ParseWord, Completable;
    var rest := ParseWords(true, env, true, words[1..]);
    var after := rest.taken + (pre + rest.left);
    var a := NextOf(words);
    if a.Some? && !NonOption(a.value) {
      assert after[0] == a.value;
    } else if after != [] {
      if rest.taken != [] {
        FirstTaken(env, words[1..]);
      } else {
        NothingTaken(env, words[1..]);
        assert NonOption(after[0]);
      }
      assert MayFollow(env, a, after[0]);
      assert ([words[0]] + after)[1] == after[0];
      LeftAlone(env, words[0], a, Some(after[0]));
    } else {
      assert a == None;
    }
  }

  /** The second pass over the words as the first leaves them, against the first. */
  predicate Agrees(env: Env, words: seq<string>) {
    var p := ParseWords(true, env, true, words);
    p.ok ==> ParseWords(true, env, true, p.taken + p.left) == p
  }

  lemma {:induction false} InsensitiveAgrees(env: Env, words: seq<string>)
    requires Insensitive(env)
    ensures Agrees(env, words)
  {
    hide Insensitive, ParseWords;
    var p := ParseWords(true, env, true, words);
    if p.ok {
      Reparse(env, words, []);
      assert [] + p.left == p.left;
    }
  }

  // ---- Sensitive checks: the passes part ----

  lemma {:induction false} Parts(env: Env, words: seq<string>, word: string, a: Maybe<string>, b: string, more: Parsed)
    requires OptionWord(word) && Leaves(env, word, a) && !Leaves(env, word, Some(b))
    requires ParseWords(true, env, true, words) ==
             Parsed(ParseWord(env, true, word, a).found + more.found, [word] + more.taken, more.left, true)
    requires more.taken + more.left != [] && (more.taken + more.left)[0] == b
    ensures !Agrees(env, words)
  {
    hide ParseWord;
    var p := ParseWords(true, env, true, words);
    var again := p.taken + p.left;
    assert again == [word] + (more.taken + more.left) && again[1] == b;
    var x, y := ParseWord(env, true, word, a), ParseWord(env, true, word, Some(b));
    var q := ParseWords(true, env, true, again);
    if y.ok {
      LeftAlone(env, word, a, Some(b));
      var last := |x.found| - 1;
      assert p.found[last] == x.found[last] && q.found[last] == y.found[last];
    }
  }

  lemma {:induction false} OneOption(env: Env, word: string, rest: seq<string>)
    requires OptionWord(word) && Leaves(env, word, NextOf([word] + rest))
    ensures var o, r := ParseWord(env, true, word, NextOf([word] + rest)), ParseWords(true, env, true, rest);
            ParseWords(true, env, true, [word] + rest) == Parsed(o.found + r.found, [word] + r.taken, r.left, r.ok)
  {
    hide ParseWord;
    assert ([word] + rest)[1..] == rest && ([word] + rest)[..1] == [word];
  }

  lemma {:induction false} OneSkipped(env: Env, word: string, rest: seq<string>)
    requires NonOption(word)
    ensures var r := ParseWords(true, env, true, rest);
            ParseWords(true, env, true, [word] + rest) == Parsed(r.found, r.taken, [word] + r.left, r.ok)
  {
    assert ([word] + rest)[1..] == rest;
  }

  /** From an option that is sensitive, a command line on which the passes part. */
  lemma {:induction false} SensitiveParts(env: Env, word: string, a: Maybe<string>, b: string)
    returns (words: seq<string>)
    requires OptionWord(word) && (a.None? || NonOption(a.value)) && Leaves(env, word, a) && MayFollow(env, a, b)
    requires !Leaves(env, word, Some(b))
    ensures !Agrees(env, words)
  {
    hide ParseWord, ParseWords, Agrees, Leaves;
    var tail := if a.Some? then [a.value] else [];
    assert NextOf([word] + tail) == a;
    if NonOption(b) {
      ParseNonOptions(env, tail);
      OneOption(env, word, tail);
      OneSkipped(env, b, [word] + tail);
      words := [b] + ([word] + tail);
      Parts(env, words, word, a, b, Parsed([], [], [b] + tail, true));
    } else if IsTerminator(b) {
      assert ParseWords(true, env, true, [b]) == Parsed([], [b], [], true) by { TerminatorAlone(env); }
      OneSkipped(env, a.value, [b]);
      assert NextOf([word] + ([a.value] + [b])) == a;
      OneOption(env, word, [a.value] + [b]);
      words := [word] + ([a.value] + [b]);
      Parts(env, words, word, a, b, Parsed([], [b], [a.value] + [], true));
    } else {
      var rest :| ParseWords(true, env, true, [b] + rest).ok;
      var r := ParseWords(true, env, true, [b] + rest);
      OptionTaken(env, b, rest);
      OneSkipped(env, a.value, [b] + rest);
      assert NextOf([word] + ([a.value] + ([b] + rest))) == a;
      OneOption(env, word, [a.value] + ([b] + rest));
      words := [word] + ([a.value] + ([b] + rest));
      Parts(env, words, word, a, b, Parsed(r.found, r.taken, [a.value] + r.left, true));
    }
  }

  lemma {:induction false} TerminatorAlone(env: Env)
    ensures ParseWords(true, env, true, ["--"]) == Parsed([], ["--"], [], true)
  {
    assert ["--"][..1] == ["--"] && ["--"][1..] == [];
  }

  lemma {:induction false} OptionTaken(env: Env, word: string, rest: seq<string>)
    requires OptionWord(word) && ParseWords(true, env, true, [word] + rest).ok
    ensures var r := ParseWords(true, env, true, [word] + rest); r.taken != [] && r.taken[0] == word
  {
    hide ParseWord;
  }

  // ---- The theorem ----

  /** In GNU mode the passes agree on every command line exactly when the checks are insensitive. */
  lemma {:induction false} GnuPassesAgreeExactlyWhen(env: Env)
    ensures (forall words :: Agrees(env, words)) <==> Insensitive(env)
  {
    hide Agrees, Leaves, MayFollow;
    if Insensitive(env) {
      forall words
        ensures Agrees(env, words)
      {
        InsensitiveAgrees(env, words);
      }
    } else {
      var word, a: Maybe<string>, b :| OptionWord(word) && (a.None? || NonOption(a.value)) && Leaves(env, word, a)
          && MayFollow(env, a, b)
                        && !Leaves(env, word, Some(b));
      var words := SensitiveParts(env, word, a, b);
    }
  }

  /**
   The passes as they are run, the first without messages: they find the same options, and the second moves nothing.
  */
  lemma {:induction false} GnuPassesAgree(env: Env, words: seq<string>)
    requires Steady(env) && FlagFree(env) && ParseWords(true, env, false, words).ok
    ensures var p := ParseWords(true, env, false, words);
            ParseWords(true, env, true, p.taken + p.left) == p
  {
    ParseFlag(true, env, words);
    SteadyIsInsensitive(env);
    InsensitiveAgrees(env, words);
  }

  /** An option whose argument is optional and detached: silent about the flag, and not steady. */
  function Greedy(): Env {
    Env([Descriptor(0, 0, "f", "")], false, 0, (o: Option, msg: bool) => if o.arg.Some? then ARG_OK else ARG_NONE)
  }

  /** Without steadiness the passes part: on `a -f` the first leaves `a` over, the second gives it to `-f`. */
  lemma GnuPassesMayDiffer()
    ensures FlagFree(Greedy())
    ensures var p := ParseWords(true, Greedy(), false, ["a", "-f"]);
            && p == Parsed([Option(0, "f", None)], ["-f"], ["a"], true)
            && ParseWords(true, Greedy(), true, p.taken + p.left) ==
                Parsed([Option(0, "f", Some("a"))], ["-f", "a"], [], true)
  {
    var env := Greedy();
    FirstFlag();
    assert ["a", "-f"][1..] == ["-f"] && ["-f"][1..] == [] && ["-f"] + ["a"] == ["-f", "a"];
    assert ParseWords(true, env, false, ["-f"]) == Parsed([Option(0, "f", None)], ["-f"], [], true) by {
      assert NextOf(["-f"]) == None;
      assert [Option(0, "f", None)] + [] == [Option(0, "f", None)] && ["-f"][..1] + [] == ["-f"];
    }
    assert ["a"] + [] == ["a"];
    assert NextOf(["-f", "a"]) == Some("a") && ["-f", "a"][2..] == [] && ["-f", "a"][..2] + [] == ["-f", "a"];
    assert [Option(0, "f", Some("a"))] + [] == [Option(0, "f", Some("a"))];
  }

  lemma FirstFlag()
    ensures var env := Greedy(); forall msg ::
              && ParseWord(env, msg, "-f", None) == Outcome([Option(0, "f", None)], false, true)
              && ParseWord(env, msg, "-f", Some("a")) == Outcome([Option(0, "f", Some("a"))], true, true)
  {
    var env := Greedy();
    assert "-f"[1..] == "f" && "-f"[1] == 'f';
    assert FirstShort(env.usage, 'f', 0) == 0;
    assert [Option(0, "f", None)] + [] == [Option(0, "f", None)];
  }
}
