/**
 What the argument parser promises, as functions of the command line: which options each word
 yields, which words are consumed and which are left over. Texts are what precedes a C string's
 terminator; a position past the end reads as the terminator.
*/
module OptionModel {
  import opened Common

  datatype ArgStatus = ARG_NONE | ARG_OK | ARG_IGNORE | ARG_ILLEGAL

  type Unsigned = n: nat | n < 0x1_0000_0000

  /** An `unsigned` read as an `int`. */
  function AsInt(n: Unsigned): int { if n < 0x8000_0000 then n else n - 0x1_0000_0000 }

  /** A row of the usage table. The row that ends the table is not part of the sequence. */
  datatype Descriptor = Descriptor(index: Unsigned, kind: int, shortopt: string, longopt: string)

  /** A parsed option: the row it matched, where its name starts, and its argument if any. */
  datatype Option = Option(desc: nat, name: string, arg: Maybe<string>)

  /** Everything a parse depends on besides the words. `checkArg` also gets the message flag. */
  datatype Env = Env(usage: seq<Descriptor>, singleMinus: bool, minAbbr: int, checkArg: (Option, bool) -> ArgStatus)

  // ---- Matching names ----

  /** `st1` is a prefix of `st2`, and what follows it in `st2` is its end or '='. */
  predicate StrEq(st1: string, st2: string) {
    st1 <= st2 && (|st2| == |st1| || st2[|st1|] == '=')
  }

  function CommonPrefix(st1: string, st2: string): (n: nat)
    ensures n <= |st1| && n <= |st2| && st1[..n] == st2[..n]
    ensures n < |st1| && n < |st2| ==> st1[n] != st2[n]
  {
    if st1 == [] || st2 == [] || st1[0] != st2[0] then 0
    else
      var m := CommonPrefix(st1[1..], st2[1..]);
      assert st1[..m + 1] == [st1[0]] + st1[1..][..m] && st2[..m + 1] == [st2[0]] + st2[1..][..m];
      m + 1
  }

  predicate StrEqAbbr(st1: string, st2: string, min: int) {
    var n := CommonPrefix(st1, st2);
    (n == |st1| || (min > 0 && n >= min)) && (n == |st2| || st2[n] == '=')
  }

  /** The first row from `k` on whose long name is meant exactly; the table's length if none is. */
  function FirstLong(usage: seq<Descriptor>, name: string, k: nat): (i: nat)
    requires k <= |usage|
    ensures k <= i <= |usage| && (i < |usage| ==> StrEq(usage[i].longopt, name))
    ensures forall j :: k <= j < i ==> !StrEq(usage[j].longopt, name)
    decreases |usage| - k
  {
    if k == |usage| || StrEq(usage[k].longopt, name) then k else FirstLong(usage, name, k + 1)
  }

  function FirstAbbr(usage: seq<Descriptor>, name: string, min: int, k: nat): (i: nat)
    requires k <= |usage|
    ensures k <= i <= |usage| && (i < |usage| ==> StrEqAbbr(usage[i].longopt, name, min))
    ensures forall j :: k <= j < i ==> !StrEqAbbr(usage[j].longopt, name, min)
    decreases |usage| - k
  {
    if k == |usage| || StrEqAbbr(usage[k].longopt, name, min) then k else FirstAbbr(usage, name, min, k + 1)
  }

  function FirstShort(usage: seq<Descriptor>, c: char, k: nat): (i: nat)
    requires k <= |usage|
    ensures k <= i <= |usage| && (i < |usage| ==> c in usage[i].shortopt)
    ensures forall j :: k <= j < i ==> c !in usage[j].shortopt
    decreases |usage| - k
  {
    if k == |usage| || c in usage[k].shortopt then k else FirstShort(usage, c, k + 1)
  }

  /** The row that collects unknown options: the first with two empty names. */
  function FirstDummy(usage: seq<Descriptor>, k: nat): (i: nat)
    requires k <= |usage|
    ensures k <= i <= |usage| && (i < |usage| ==> usage[i].shortopt == "" == usage[i].longopt)
    ensures forall j :: k <= j < i ==> usage[j].shortopt != "" || usage[j].longopt != ""
    decreases |usage| - k
  {
    if k == |usage| || (usage[k].shortopt == "" && usage[k].longopt == "") then k else FirstDummy(usage, k + 1)
  }

  /** The row for a long name: an exact match, else the only abbreviation there is, else none. */
  function LongIndex(env: Env, name: string): (i: nat)
    ensures i <= |env.usage|
  {
    var exact := FirstLong(env.usage, name, 0);
    if exact < |env.usage| || env.minAbbr <= 0 then exact
    else
      var i1 := FirstAbbr(env.usage, name, env.minAbbr, 0);
      if i1 < |env.usage| && FirstAbbr(env.usage, name, env.minAbbr, i1 + 1) == |env.usage| then i1 else exact
  }

  /** The row that judges an option found at `idx`, or none for an unknown option nobody collects. */
  function Resolve(usage: seq<Descriptor>, idx: nat): (d: Maybe<nat>)
    ensures d.Some? ==> d.value < |usage|
  {
    if idx < |usage| then Some(idx)
    else
      var dummy := FirstDummy(usage, 0);
      if dummy < |usage| then Some(dummy) else None
  }

  /** The text after the first '=', if there is one. */
  function AfterEquals(name: string): Maybe<string> {
    if name == "" then None
    else if name[0] == '=' then Some(name[1..])
    else AfterEquals(name[1..])
  }

  // ---- One word ----

  /** The options a word yields, whether it used up the next word, and whether parsing may go on. */
  datatype Outcome = Outcome(found: seq<Option>, took: bool, ok: bool)

  predicate NonOption(word: string) { word == "" || word[0] != '-' || |word| == 1 }

  predicate IsTerminator(word: string) { word == "--" }

  predicate OptionWord(word: string) { !NonOption(word) && !IsTerminator(word) }

  /**
   What becomes of one candidate: a fatal verdict, an option that ends its word, or zero or one options and onward.
  */
  datatype Verdict = Fatal | Final(option: Option, took: bool) | Onward(options: seq<Option>)

  /** Asks the row at `idx`, or the row for unknown options, about a name and its potential argument. */
  function Assess(env: Env, msg: bool, idx: nat, name: string, optarg: Maybe<string>, detached: bool): (v: Verdict)
    ensures v.Onward? ==> |v.options| <= 1
  {
    match Resolve(env.usage, idx)
    case None => Onward([])
    case Some(d) =>
      match env.checkArg(Option(d, name, optarg), msg)
      case ARG_ILLEGAL => Fatal
      case ARG_OK => Final(Option(d, name, optarg), detached && optarg.Some?)
      case _ => Onward([Option(d, name, None)])
  }

  function AssessShort(env: Env, msg: bool, word: string, i: nat, next: Maybe<string>): Verdict
    requires i < |word|
  {
    var detached := i + 1 == |word|;
    Assess(env, msg, FirstShort(env.usage, word[i], 0), word[i..], if detached then next else Some(word[i + 1..]),
           detached)
  }

  function AssessLong(env: Env, msg: bool, word: string, name: string, next: Maybe<string>): Verdict {
    var attached := AfterEquals(name);
    Assess(env, msg, LongIndex(env, name), word, if attached.Some? then attached else next, attached.None?)
  }

  /** A group of short options from position `i` on; `next` is the word after it, if any. */
  function ShortGroup(env: Env, msg: bool, word: string, i: nat, next: Maybe<string>): (o: Outcome)
    requires i <= |word|
    ensures o.took ==> next.Some?
    decreases |word| - i
  {
    if i == |word| then Outcome([], false, true)
    else
      match AssessShort(env, msg, word, i, next)
      case Fatal => Outcome([], false, false)
      case Final(option, took) => Outcome([option], took, true)
      case Onward(options) =>
        var rest := ShortGroup(env, msg, word, i + 1, next);
        rest.(found := options + rest.found)
  }

  function LongOption(env: Env, msg: bool, word: string, name: string, next: Maybe<string>): (o: Outcome)
    ensures o.took ==> next.Some?
  {
    match AssessLong(env, msg, word, name, next)
    case Fatal => Outcome([], false, false)
    case Final(option, took) => Outcome([option], took, true)
    case Onward(options) => Outcome(options, false, true)
  }

  function ParseWord(env: Env, msg: bool, word: string, next: Maybe<string>): (o: Outcome)
    requires OptionWord(word)
    ensures o.took ==> next.Some?
  {
    if word[1] == '-' then LongOption(env, msg, word, word[2..], next)
    else if env.singleMinus && LongIndex(env, word[1..]) < |env.usage| then LongOption(env, msg, word, word[1..], next)
    else ShortGroup(env, msg, word, 1, next)
  }

  // ---- The whole command line ----

  /** The options in order, the words used up, the words left over, and whether nothing was fatal. */
  datatype Parsed = Parsed(found: seq<Option>, taken: seq<string>, left: seq<string>, ok: bool)

  function NextOf(words: seq<string>): Maybe<string> {
    if |words| > 1 then Some(words[1]) else None
  }

  function ParseWords(gnu: bool, env: Env, msg: bool, words: seq<string>): (p: Parsed)
    decreases |words|
  {
    if words == [] then Parsed([], [], [], true)
    else if NonOption(words[0]) then
      if !gnu then Parsed([], [], words, true)
      else
        var rest := ParseWords(gnu, env, msg, words[1..]);
        rest.(left := [words[0]] + rest.left)
    else if IsTerminator(words[0]) then Parsed([], words[..1], words[1..], true)
    else
      var o := ParseWord(env, msg, words[0], NextOf(words));
      if !o.ok then Parsed(o.found, [], [], false)
      else
        var used := if o.took then 2 else 1;
        var rest := ParseWords(gnu, env, msg, words[used..]);
        Parsed(o.found + rest.found, words[..used] + rest.taken, rest.left, rest.ok)
  }

  /** How many words a parse that succeeds never looks at: those from its end or its terminator on. */
  function Unread(gnu: bool, env: Env, msg: bool, words: seq<string>): nat
    decreases |words|
  {
    if words == [] then 0
    else if NonOption(words[0]) then
      if gnu then Unread(gnu, env, msg, words[1..]) else |words|
    else if IsTerminator(words[0]) then |words| - 1
    else
      var o := ParseWord(env, msg, words[0], NextOf(words));
      if o.ok then Unread(gnu, env, msg, words[if o.took then 2 else 1..]) else 0
  }

  // ---- What is done with the options ----

  const MAX_INT := 0x7fffffff

  /** The counting pass keeps a number; the storing pass fills slots, `bufmax < 0` meaning as many as needed. */
  datatype Action = Count(bufferMax: nat) | Store(bufmax: int, buffer: seq<Option>)

  function Perform(a: Action, option: Option): (r: (Action, bool)) {
    match a
    case Count(n) => if n == MAX_INT then (a, false) else (Count(n + 1), true)
    case Store(bufmax, buffer) =>
      if bufmax < 0 || |buffer| < bufmax then
        if |buffer| == MAX_INT then (a, false) else (Store(bufmax, buffer + [option]), true)
      else (a, true)
  }

  /** Performs until the first refusal. */
  function PerformAll(a: Action, options: seq<Option>): (r: (Action, bool))
    decreases |options|
  {
    if options == [] then (a, true)
    else
      var (b, ok) := Perform(a, options[0]);
      if ok then PerformAll(b, options[1..]) else (b, false)
  }

  lemma {:induction false} PerformConcat(a: Action, x: seq<Option>, y: seq<Option>)
    ensures PerformAll(a, x + y) == if PerformAll(a, x).1 then PerformAll(PerformAll(a, x).0, y) else PerformAll(a, x)
    decreases |x|
  {
    if x == [] {
      assert x + y == y;
    } else {
      assert (x + y)[1..] == x[1..] + y;
      PerformConcat(Perform(a, x[0]).0, x[1..], y);
    }
  }
}
