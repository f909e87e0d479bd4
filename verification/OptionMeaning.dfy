/**
 What the words of a command line mean: which row an option belongs to, what its argument is, which
 words it uses, and what becomes of words that are no options, unknown or refused.
*/
module OptionMeaning {
  import opened Common
  import opened OptionModel
  import opened OptionTheorems

  /** Row `k` is the first with the long name `name`, and no name up to it contains the sign that ends a name. */
  predicate LongRow(usage: seq<Descriptor>, k: nat, name: string) {
    && k < |usage| && usage[k].longopt == name && name != "" && '=' !in name
    && forall j :: 0 <= j < k ==> usage[j].longopt != name && '=' !in usage[j].longopt
  }

  /** Row `k` is the first with the short name `x`. */
  predicate ShortRow(usage: seq<Descriptor>, k: nat, x: char) {
    k < |usage| && x in usage[k].shortopt && forall j :: 0 <= j < k ==> x !in usage[j].shortopt
  }

  /** The parse of some words after these options have been found in the first `used` words. */
  predicate FindsFirst(gnu: bool, env: Env, msg: bool, words: seq<string>, used: nat, options: seq<Option>)
    requires used <= |words|
  {
    var p, q := ParseWords(gnu, env, msg, words), ParseWords(gnu, env, msg, words[used..]);
    p == Parsed(options + q.found, words[..used] + q.taken, q.left, q.ok)
  }

  // ---- Names ----

  /** A row's name is meant by itself, or followed by an equals sign. */
  lemma {:induction false} StrEqMeans(longopt: string, name: string)
    requires '=' !in longopt
    ensures StrEq(longopt, name) <==> longopt == Until(name)
  {
    UntilMeans(name);
  }

  /** What precedes the first equals sign. */
  function Until(name: string): string {
    if name == "" || name[0] == '=' then "" else [name[0]] + Until(name[1..])
  }

  lemma {:induction false} UntilMeans(name: string)
    ensures Until(name) <= name && '=' !in Until(name)
    ensures |Until(name)| < |name| ==> name[|Until(name)|] == '='
  {
    if name != "" && name[0] != '=' { UntilMeans(name[1..]); }
  }

  lemma {:induction false} UntilJoined(name: string, more: string)
    requires '=' !in name && (more == "" || more[0] == '=')
    ensures Until(name + more) == name
  {
    if name == "" {
      assert name + more == more;
    } else {
      assert (name + more)[1..] == name[1..] + more;
      UntilJoined(name[1..], more);
      assert name == [name[0]] + name[1..];
    }
  }

  /** What follows the first equals sign is the argument; without one there is none. */
  lemma {:induction false} AfterEqualsMeans(name: string, value: string)
    requires '=' !in name
    ensures AfterEquals(name) == None && AfterEquals(name + "=" + value) == Some(value)
  {
    if name == "" {
      assert name + "=" + value == "=" + value;
      assert ("=" + value)[1..] == value;
    } else {
      assert (name + "=" + value)[1..] == name[1..] + "=" + value;
      AfterEqualsMeans(name[1..], value);
    }
  }

  lemma {:induction false} LongRowFound(env: Env, k: nat, name: string, more: string)
    requires LongRow(env.usage, k, name) && (more == "" || more[0] == '=')
    ensures LongIndex(env, name + more) == k
  {
    hide StrEq;
    UntilJoined(name, more);
    forall j | 0 <= j <= k ensures StrEq(env.usage[j].longopt, name + more) <==> j == k {
      StrEqMeans(env.usage[j].longopt, name + more);
    }
  }

  lemma {:induction false} ShortRowFound(usage: seq<Descriptor>, k: nat, x: char)
    requires ShortRow(usage, k, x)
    ensures FirstShort(usage, x, 0) == k
  {}

  lemma ResolveRow(usage: seq<Descriptor>, k: nat)
    requires k < |usage|
    ensures Resolve(usage, k) == Some(k)
  {}

  // ---- Long options ----

  lemma LongWord(name: string, more: string)
    requires name != ""
    ensures var word := "--" + name + more; OptionWord(word) && word[1] == '-' && word[2..] == name + more
  {
    var word := "--" + name + more;
    assert |word| > 2 && word != "--";
  }

  /** `--name=value`: the option of the row with exactly that value, and one word is used. */
  lemma {:induction false} LongWithValue(gnu: bool, env: Env, msg: bool, k: nat, name: string, value: string,
                                         rest: seq<string>)
    requires LongRow(env.usage, k, name)
    requires env.checkArg(Option(k, "--" + name + "=" + value, Some(value)), msg) == ARG_OK
    ensures var word := "--" + name + "=" + value;
            FindsFirst(gnu, env, msg, [word] + rest, 1, [Option(k, word, Some(value))])
  {
    hide LongIndex, AfterEquals, Resolve, ParseWords;
    var word := "--" + name + "=" + value;
    var more := "=" + value;
    assert name + more == name + "=" + value && "--" + name + more == word;
    LongWord(name, more);
    LongRowFound(env, k, name, more);
    ResolveRow(env.usage, k);
    AfterEqualsMeans(name, value);
    OptionFirst(gnu, env, msg, [word] + rest);
  }

  /** `--name value`: the option of the row with the next word as its value, and both words are used. */
  lemma {:induction false} LongThenValue(gnu: bool, env: Env, msg: bool, k: nat, name: string, value: string,
                                         rest: seq<string>)
    requires LongRow(env.usage, k, name)
    requires env.checkArg(Option(k, "--" + name, Some(value)), msg) == ARG_OK
    ensures FindsFirst(gnu, env, msg, ["--" + name, value] + rest, 2, [Option(k, "--" + name, Some(value))])
  {
    hide LongIndex, AfterEquals, Resolve, ParseWords;
    var word := "--" + name;
    assert name + "" == name && "--" + name + "" == word;
    LongWord(name, "");
    LongRowFound(env, k, name, "");
    ResolveRow(env.usage, k);
    AfterEqualsMeans(name, value);
    OptionFirst(gnu, env, msg, [word, value] + rest);
  }

  /** `--name` where the check wants no argument: the option without one, and one word is used, whatever follows. */
  lemma {:induction false} LongAlone(gnu: bool, env: Env, msg: bool, k: nat, name: string, rest: seq<string>)
    requires LongRow(env.usage, k, name)
    requires var s := env.checkArg(Option(k, "--" + name, NextOf(["--" + name] + rest)), msg);
             s == ARG_NONE || s == ARG_IGNORE
    ensures FindsFirst(gnu, env, msg, ["--" + name] + rest, 1, [Option(k, "--" + name, None)])
  {
    hide LongIndex, AfterEquals, Resolve, ParseWords;
    var word := "--" + name;
    assert name + "" == name && "--" + name + "" == word;
    LongWord(name, "");
    LongRowFound(env, k, name, "");
    ResolveRow(env.usage, k);
    AfterEqualsMeans(name, "");
    OptionFirst(gnu, env, msg, [word] + rest);
  }

  /** `-name` is the long option too if a single minus may introduce one. */
  lemma {:induction false} SingleMinusThenValue(gnu: bool, env: Env, msg: bool, k: nat, name: string, value: string,
                                                rest: seq<string>)
    requires LongRow(env.usage, k, name) && env.singleMinus && name[0] != '-'
    requires env.checkArg(Option(k, "-" + name, Some(value)), msg) == ARG_OK
    ensures FindsFirst(gnu, env, msg, ["-" + name, value] + rest, 2, [Option(k, "-" + name, Some(value))])
  {
    hide LongIndex, AfterEquals, Resolve, ParseWords;
    var word := "-" + name;
    assert name + "" == name && word[1..] == name && OptionWord(word);
    LongRowFound(env, k, name, "");
    ResolveRow(env.usage, k);
    AfterEqualsMeans(name, value);
    OptionFirst(gnu, env, msg, [word, value] + rest);
  }

  /** Which abbreviations are allowed: prefixes of a minimal length, or the whole name. */
  lemma AbbreviationMeans(longopt: string, name: string, min: int)
    requires '=' !in name
    ensures StrEqAbbr(longopt, name, min) <==> name <= longopt && (name == longopt || (min > 0 && |name| >= min))
  {
    var n := CommonPrefix(longopt, name);
    if n == |name| { assert longopt[..n] == name; }
  }

  /** A name the prefix is a proper part of, if `meant`, and no part of otherwise. */
  predicate Abbreviates(longopt: string, prefix: string, meant: bool) {
    '=' !in longopt && longopt != prefix && (prefix <= longopt <==> meant)
  }

  /** `--prefix value` is the only row whose name it abbreviates, if no row has it for its name. */
  lemma {:induction false} AbbreviationThenValue(gnu: bool, env: Env, msg: bool, k: nat, prefix: string, value: string,
                                                 rest: seq<string>)
    requires k < |env.usage| && prefix != "" && '=' !in prefix && 0 < env.minAbbr <= |prefix|
    requires forall j :: 0 <= j < |env.usage| ==> Abbreviates(env.usage[j].longopt, prefix, j == k)
    requires env.checkArg(Option(k, "--" + prefix, Some(value)), msg) == ARG_OK
    ensures FindsFirst(gnu, env, msg, ["--" + prefix, value] + rest, 2, [Option(k, "--" + prefix, Some(value))])
  {
    hide LongIndex, AfterEquals, Resolve, ParseWords;
    var word := "--" + prefix;
    assert prefix + "" == prefix && "--" + prefix + "" == word;
    LongWord(prefix, "");
    AbbreviationFound(env, k, prefix);
    ResolveRow(env.usage, k);
    AfterEqualsMeans(prefix, value);
    OptionFirst(gnu, env, msg, [word, value] + rest);
  }

  lemma {:induction false} AbbreviationFound(env: Env, k: nat, prefix: string)
    requires k < |env.usage| && prefix != "" && '=' !in prefix && 0 < env.minAbbr <= |prefix|
    requires forall j :: 0 <= j < |env.usage| ==> Abbreviates(env.usage[j].longopt, prefix, j == k)
    ensures LongIndex(env, prefix) == k
  {
    hide StrEq, StrEqAbbr;
    UntilJoined(prefix, "");
    assert prefix + "" == prefix;
    forall j | 0 <= j < |env.usage|
      ensures !StrEq(env.usage[j].longopt, prefix) && (StrEqAbbr(env.usage[j].longopt, prefix, env.minAbbr) <==> j == k)
    {
      assert Abbreviates(env.usage[j].longopt, prefix, j == k);
      StrEqMeans(env.usage[j].longopt, prefix);
      AbbreviationMeans(env.usage[j].longopt, prefix, env.minAbbr);
    }
    assert FirstLong(env.usage, prefix, 0) == |env.usage|;
    assert StrEqAbbr(env.usage[k].longopt, prefix, env.minAbbr);
    assert FirstAbbr(env.usage, prefix, env.minAbbr, 0) == k;
    assert FirstAbbr(env.usage, prefix, env.minAbbr, k + 1) == |env.usage|;
  }

  /** A prefix of two names is neither of them. */
  lemma {:induction false} AmbiguousIsUnknown(env: Env, i: nat, j: nat, prefix: string)
    requires i < j < |env.usage| && prefix <= env.usage[i].longopt && prefix <= env.usage[j].longopt && '=' !in prefix
    requires forall r :: 0 <= r < |env.usage| ==> '=' !in env.usage[r].longopt && env.usage[r].longopt != prefix
    ensures LongIndex(env, prefix) == |env.usage|
  {
    hide StrEq, StrEqAbbr;
    UntilJoined(prefix, "");
    assert prefix + "" == prefix;
    forall r | 0 <= r < |env.usage|
      ensures !StrEq(env.usage[r].longopt, prefix)
    {
      StrEqMeans(env.usage[r].longopt, prefix);
    }
    AbbreviationMeans(env.usage[i].longopt, prefix, env.minAbbr);
    AbbreviationMeans(env.usage[j].longopt, prefix, env.minAbbr);
    var i1 := FirstAbbr(env.usage, prefix, env.minAbbr, 0);
    if i1 < |env.usage| {
      AbbreviationMeans(env.usage[i1].longopt, prefix, env.minAbbr);
    }
  }

  // ---- Short options ----

  /** Whether a word that starts with one minus is read as a group of short options. */
  predicate IsGroup(env: Env, word: string) {
    |word| > 1 && word[0] == '-' && word[1] != '-' && (!env.singleMinus || LongIndex(env, word[1..]) == |env.usage|)
  }

  lemma {:induction false} GroupWord(env: Env, msg: bool, word: string, next: Maybe<string>)
    requires IsGroup(env, word)
    ensures OptionWord(word) && ParseWord(env, msg, word, next) == ShortGroup(env, msg, word, 1, next)
  {
    hide LongIndex, ShortGroup;
  }

  /** `-xvalue`: the rest of the word is the value. */
  lemma {:induction false} ShortWithValue(gnu: bool, env: Env, msg: bool, k: nat, x: char, value: string,
                                          rest: seq<string>)
    requires ShortRow(env.usage, k, x) && value != "" && IsGroup(env, "-" + [x] + value)
    requires env.checkArg(Option(k, [x] + value, Some(value)), msg) == ARG_OK
    ensures FindsFirst(gnu, env, msg, ["-" + [x] + value] + rest, 1, [Option(k, [x] + value, Some(value))])
  {
    hide FirstShort, Resolve, ParseWords, ParseWord;
    var word := "-" + [x] + value;
    assert word[1] == x && word[1..] == [x] + value && word[2..] == value;
    GroupWord(env, msg, word, NextOf([word] + rest));
    ShortRowFound(env.usage, k, x);
    ResolveRow(env.usage, k);
    OptionFirst(gnu, env, msg, [word] + rest);
  }

  /** `-x value`: the next word is the value, and both words are used. */
  lemma {:induction false} ShortThenValue(gnu: bool, env: Env, msg: bool, k: nat, x: char, value: string,
                                          rest: seq<string>)
    requires ShortRow(env.usage, k, x) && IsGroup(env, "-" + [x])
    requires env.checkArg(Option(k, [x], Some(value)), msg) == ARG_OK
    ensures FindsFirst(gnu, env, msg, ["-" + [x], value] + rest, 2, [Option(k, [x], Some(value))])
  {
    hide FirstShort, Resolve, ParseWords, ParseWord;
    var word := "-" + [x];
    assert word[1] == x && word[1..] == [x];
    GroupWord(env, msg, word, NextOf([word, value] + rest));
    ShortRowFound(env.usage, k, x);
    ResolveRow(env.usage, k);
    OptionFirst(gnu, env, msg, [word, value] + rest);
  }

  /** The options of flags in a group from position `i` on: one each, in order, without arguments. */
  function FlagsFrom(env: Env, word: string, i: nat): seq<Option>
    requires i <= |word|
    decreases |word| - i
  {
    if i == |word| then []
    else [Option(FirstShort(env.usage, word[i], 0), word[i..], None)] + FlagsFrom(env, word, i + 1)
  }

  /** What the check is offered at a position of a group: the rest of the word, or the next word at its end. */
  function Offered(word: string, i: nat, next: Maybe<string>): Maybe<string>
    requires i < |word|
  {
    if i + 1 < |word| then Some(word[i + 1..]) else next
  }

  predicate Flag(env: Env, msg: bool, word: string, i: nat, next: Maybe<string>)
    requires i < |word|
  {
    var k := FirstShort(env.usage, word[i], 0);
    k < |env.usage|
    && var s := env.checkArg(Option(k, word[i..], Offered(word, i, next)), msg);
       s == ARG_NONE || s == ARG_IGNORE
  }

  lemma {:induction false} FlagsFound(env: Env, msg: bool, word: string, i: nat, next: Maybe<string>)
    requires i <= |word| && forall j :: i <= j < |word| ==> Flag(env, msg, word, j, next)
    ensures ShortGroup(env, msg, word, i, next) == Outcome(FlagsFrom(env, word, i), false, true)
    decreases |word| - i
  {
    hide FirstShort, Resolve;
    if i < |word| {
      assert Flag(env, msg, word, i, next);
      ResolveRow(env.usage, FirstShort(env.usage, word[i], 0));
      FlagsFound(env, msg, word, i + 1, next);
    }
  }

  /** `-xyz` where no check takes an argument: an option for each character, in order, and one word is used. */
  lemma {:induction false} FlagGroup(gnu: bool, env: Env, msg: bool, word: string, rest: seq<string>)
    requires IsGroup(env, word) && forall j :: 1 <= j < |word| ==> Flag(env, msg, word, j, NextOf([word] + rest))
    ensures FindsFirst(gnu, env, msg, [word] + rest, 1, FlagsFrom(env, word, 1))
  {
    hide ParseWords, ParseWord, FlagsFrom, Flag, ShortGroup;
    GroupWord(env, msg, word, NextOf([word] + rest));
    FlagsFound(env, msg, word, 1, NextOf([word] + rest));
    OptionFirst(gnu, env, msg, [word] + rest);
  }

  // ---- Unknown and refused options ----

  /** A long option no row knows goes to the first row without names, or is passed over. */
  lemma {:induction false} UnknownLong(gnu: bool, env: Env, msg: bool, word: string, rest: seq<string>)
    requires |word| > 2 && word[..2] == "--" && LongIndex(env, word[2..]) == |env.usage|
    requires forall o :: env.checkArg(o, msg) == ARG_NONE
    ensures var d := FirstDummy(env.usage, 0);
            FindsFirst(gnu, env, msg, [word] + rest, 1, if d < |env.usage| then [Option(d, word, None)] else [])
  {
    hide LongIndex, AfterEquals, FirstDummy, ParseWords;
    assert word[0] == word[..2][0] && word[1] == word[..2][1];
    OptionFirst(gnu, env, msg, [word] + rest);
  }

  /** An option whose check refuses it ends the parse at once. */
  lemma {:induction false} RefusedLong(gnu: bool, env: Env, msg: bool, k: nat, name: string, value: string,
                                       rest: seq<string>)
    requires LongRow(env.usage, k, name)
    requires env.checkArg(Option(k, "--" + name + "=" + value, Some(value)), msg) == ARG_ILLEGAL
    ensures ParseWords(gnu, env, msg, ["--" + name + "=" + value] + rest) == Parsed([], [], [], false)
  {
    hide LongIndex, AfterEquals, Resolve, ParseWords;
    var word := "--" + name + "=" + value;
    var more := "=" + value;
    assert name + more == name + "=" + value && "--" + name + more == word;
    LongWord(name, more);
    LongRowFound(env, k, name, more);
    ResolveRow(env.usage, k);
    AfterEqualsMeans(name, value);
    OptionFirst(gnu, env, msg, [word] + rest);
  }

  // ---- Words that are no options ----

  /** A word that does not start with a minus, or is one, is left over; outside GNU mode so is all that follows. */
  lemma {:induction false} PlainWord(gnu: bool, env: Env, msg: bool, word: string, rest: seq<string>)
    requires word == "" || word[0] != '-' || word == "-"
    ensures var p, q := ParseWords(gnu, env, msg, [word] + rest), ParseWords(gnu, env, msg, rest);
            p == if gnu then Parsed(q.found, q.taken, [word] + q.left, q.ok) else Parsed([], [], [word] + rest, true)
  {
    assert ([word] + rest)[1..] == rest;
  }

  /** Two minuses end the options: they are used up, and all that follows is left over as it is. */
  lemma {:induction false} Terminator(gnu: bool, env: Env, msg: bool, rest: seq<string>)
    ensures ParseWords(gnu, env, msg, ["--"] + rest) == Parsed([], ["--"], rest, true)
  {
    assert (["--"] + rest)[1..] == rest && (["--"] + rest)[..1] == ["--"];
  }
}
