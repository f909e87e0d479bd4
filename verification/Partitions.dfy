/**
 Partition strings and the replayer's partition filter: how a recorded channel's writers and their
 partitions are read back, and that changing the filter at run time is the same as starting with it.
*/
module Partitions {
  import opened Common

  // ---- Names joined with '|' ----

  function SplitBar(s: string): (names: seq<string>)
    ensures names != []
  {
    if s == "" then [""]
    else
      var rest := SplitBar(s[1..]);
      if s[0] == '|' then [""] + rest else [[s[0]] + rest[0]] + rest[1..]
  }

  function Join(names: seq<string>): string
    requires names != []
  {
    if |names| == 1 then names[0] else names[0] + "|" + Join(names[1..])
  }

  predicate BarFree(names: seq<string>) {
    forall k :: 0 <= k < |names| ==> '|' !in names[k]
  }

  lemma {:induction false} SplitIsBarFree(s: string)
    ensures BarFree(SplitBar(s))
  {
    if s != "" { SplitIsBarFree(s[1..]); }
  }

  /** Joining what was split gives the string back. */
  lemma {:induction false} JoinSplit(s: string)
    ensures Join(SplitBar(s)) == s
  {
    if s != "" {
      var rest := SplitBar(s[1..]);
      JoinSplit(s[1..]);
      var names := SplitBar(s);
      if s[0] == '|' {
        assert names[1..] == rest;
        assert "" + "|" + s[1..] == s;
      } else {
        assert names[1..] == rest[1..];
        assert |rest| > 1 ==> [s[0]] + rest[0] + "|" + Join(rest[1..]) == [s[0]] + (rest[0] + "|" + Join(rest[1..]));
        assert [s[0]] + s[1..] == s;
      }
    }
  }

  lemma {:induction false} SplitName(name: string, tail: string)
    requires '|' !in name
    ensures var rest := SplitBar(tail); SplitBar(name + tail) == [name + rest[0]] + rest[1..]
  {
    if name == "" {
      assert name + tail == tail;
      var rest := SplitBar(tail);
      assert "" + rest[0] == rest[0] && [rest[0]] + rest[1..] == rest;
    } else {
      assert (name + tail)[1..] == name[1..] + tail;
      SplitName(name[1..], tail);
      var rest := SplitBar(tail);
      assert [name[0]] + (name[1..] + rest[0]) == name + rest[0];
      assert ([name[1..] + rest[0]] + rest[1..])[1..] == rest[1..];
    }
  }

  lemma {:induction false} SplitJoin(names: seq<string>)
    requires names != [] && BarFree(names)
    ensures SplitBar(Join(names)) == names
  {
    if |names| == 1 {
      SplitName(names[0], "");
      assert names[0] + "" == names[0];
    } else {
      SplitJoin(names[1..]);
      SplitName(names[0], "|" + Join(names[1..]));
      assert ("|" + Join(names[1..]))[1..] == Join(names[1..]);
      assert names[0] + "|" + Join(names[1..]) == names[0] + ("|" + Join(names[1..]));
      assert names[0] + "" == names[0];
    }
  }

  /** Splitting undoes joining exactly for the lists without a '|' in a name; empty names are no exception. */
  lemma {:induction false} SplitInvertsJoin(names: seq<string>)
    requires names != []
    ensures SplitBar(Join(names)) == names <==> BarFree(names)
  {
    SplitIsBarFree(Join(names));
    if BarFree(names) { SplitJoin(names); }
  }

  /** What the character loops keep: the names finished, the one being built, and the names ahead. */
  function Assemble(done: seq<string>, current: string, rest: seq<string>): seq<string>
    requires rest != []
  {
    done + [current + rest[0]] + rest[1..]
  }

  lemma {:induction false} AssembleStep(s: string, j: nat, done: seq<string>, current: string)
    requires j < |s|
    ensures Assemble(done, current, SplitBar(s[j..])) ==
            if s[j] == '|' then Assemble(done + [current], "", SplitBar(s[j + 1..]))
            else Assemble(done, current + [s[j]], SplitBar(s[j + 1..]))
  {
    assert s[j..][1..] == s[j + 1..];
    if s[j] == '|' {
      AssembleBar(done, current, SplitBar(s[j + 1..]));
    } else {
      AssembleChar(done, current, s[j], SplitBar(s[j + 1..]));
    }
  }

  lemma {:induction false} AssembleBar(done: seq<string>, current: string, rest: seq<string>)
    requires rest != []
    ensures Assemble(done, current, [""] + rest) == Assemble(done + [current], "", rest)
  {
    assert ([""] + rest)[1..] == rest && current + "" == current && "" + rest[0] == rest[0];
    assert done + [current] + rest == done + [current] + ([rest[0]] + rest[1..]);
  }

  lemma {:induction false} AssembleChar(done: seq<string>, current: string, c: char, rest: seq<string>)
    requires rest != []
    ensures Assemble(done, current, [[c] + rest[0]] + rest[1..]) == Assemble(done, current + [c], rest)
  {
    assert ([[c] + rest[0]] + rest[1..])[1..] == rest[1..];
    assert current + ([c] + rest[0]) == current + [c] + rest[0];
  }

  lemma {:induction false} AssembleEnd(done: seq<string>, current: string)
    ensures Assemble(done, current, SplitBar("")) == done + [current]
    ensures Assemble([], "", SplitBar(current)) == SplitBar(current)
  {
    assert current + "" == current;
    var names := SplitBar(current);
    assert "" + names[0] == names[0];
    assert [] + [names[0]] + names[1..] == names;
  }

  /** The splitter of the filter update. */
  method SplitForUpdate(partitions: string) returns (names: seq<string>)
    ensures names == SplitBar(partitions)
  {
    var current := "";
    names := [];
    var j := 0;
    AssembleEnd([], partitions);
    assert partitions[0..] == partitions;
    while j < |partitions|
      invariant j <= |partitions| && Assemble(names, current, SplitBar(partitions[j..])) == SplitBar(partitions)
      invariant current == "" <==> j == 0 || partitions[j - 1] == '|'
    {
      AssembleStep(partitions, j, names, current);
      if partitions[j] == '|' {
        names := names + [current];
        current := "";
      } else {
        current := current + [partitions[j]];
      }
      j := j + 1;
    }
    AssembleEnd(names, current);
    if current != "" {
      names := names + [current];
    } else if |partitions| == 0 || partitions[|partitions| - 1] == '|' {
      names := names + [""];
    }
  }

  /** The splitter for the partition QoS of a message, which handles the empty string apart. */
  method SplitForQos(partitionName: string) returns (names: seq<string>)
    ensures names == SplitBar(partitionName)
  {
    names := [];
    AssembleEnd([], partitionName);
    assert partitionName[0..] == partitionName;
    if partitionName != "" {
      var i := 0;
      var tmp := "";
      while i < |partitionName|
        invariant i <= |partitionName| && Assemble(names, tmp, SplitBar(partitionName[i..])) == SplitBar(partitionName)
        invariant tmp == "" <==> i == 0 || partitionName[i - 1] == '|'
      {
        AssembleStep(partitionName, i, names, tmp);
        if partitionName[i] == '|' {
          names := names + [tmp];
          tmp := "";
        } else {
          tmp := tmp + [partitionName[i]];
        }
        i := i + 1;
      }
      AssembleEnd(names, tmp);
      if tmp != "" || partitionName[|partitionName| - 1] == '|' {
        names := names + [tmp];
      }
    } else {
      names := names + [""];
    }
  }

  // ---- writer:partitions; ... ----

  type Pair = (string, string)

  function Until(s: string, stop: char): (p: string)
    ensures p <= s && stop !in p && (|p| < |s| ==> s[|p|] == stop)
  {
    if s == "" || s[0] == stop then "" else [s[0]] + Until(s[1..], stop)
  }

  /** What follows `p` and its separator. */
  function Beyond(s: string, p: string): (rest: string)
    requires p <= s
    ensures s != "" ==> |rest| < |s|
    ensures s == "" ==> rest == ""
  {
    if |p| < |s| then s[|p| + 1..] else ""
  }

  function Scan(s: string): seq<Pair>
    decreases |s|
  {
    if s == "" then []
    else
      var writer := Until(s, ':');
      var s1 := Beyond(s, writer);
      var partitions := Until(s1, ';');
      [(writer, partitions)] + Scan(Beyond(s1, partitions))
  }

  function Print(pairs: seq<Pair>): string {
    if pairs == [] then "" else pairs[0].0 + ":" + pairs[0].1 + ";" + Print(pairs[1..])
  }

  predicate Separable(pairs: seq<Pair>) {
    forall k :: 0 <= k < |pairs| ==> ':' !in pairs[k].0 && ';' !in pairs[k].1
  }

  lemma {:induction false} UntilSeparator(text: string, stop: char, tail: string)
    requires stop !in text
    ensures Until(text + [stop] + tail, stop) == text && Beyond(text + [stop] + tail, text) == tail
  {
    if text != "" {
      UntilSeparator(text[1..], stop, tail);
      assert (text + [stop] + tail)[1..] == text[1..] + [stop] + tail;
    }
  }

  lemma {:induction false} ScanFirst(w: string, p: string, tail: string)
    requires ':' !in w && ';' !in p
    ensures Scan(w + ":" + p + ";" + tail) == [(w, p)] + Scan(tail)
  {
    var s := w + ":" + p + ";" + tail;
    assert s == w + [':'] + (p + [';'] + tail);
    hide Until, Beyond;
    UntilSeparator(w, ':', p + [';'] + tail);
    UntilSeparator(p, ';', tail);
  }

  lemma {:induction false} ScanPrint(pairs: seq<Pair>)
    requires Separable(pairs)
    ensures Scan(Print(pairs)) == pairs
  {
    hide Scan;
    if pairs == [] {
      assert Scan(Print(pairs)) == [] by { ScanNothing(); }
    } else {
      ScanFirst(pairs[0].0, pairs[0].1, Print(pairs[1..]));
      ScanPrint(pairs[1..]);
      assert pairs == [pairs[0]] + pairs[1..];
    }
  }

  lemma {:induction false} ScanNothing()
    ensures Scan("") == []
  {}

  lemma {:induction false} ScanIsSeparable(s: string)
    ensures Separable(Scan(s))
    decreases |s|
  {
    hide Until, Beyond, Separable;
    if s == "" {
      NoneSeparable();
    } else {
      var writer := Until(s, ':');
      var s1 := Beyond(s, writer);
      var partitions := Until(s1, ';');
      ScanIsSeparable(Beyond(s1, partitions));
      SeparableCons(writer, partitions, Scan(Beyond(s1, partitions)));
    }
  }

  lemma {:induction false} NoneSeparable()
    ensures Separable([])
  {}

  lemma {:induction false} SeparableCons(w: string, p: string, rest: seq<Pair>)
    requires ':' !in w && ';' !in p && Separable(rest)
    ensures Separable([(w, p)] + rest)
  {}

  /** The scanner undoes the printer exactly for writers without ':' and partitions without ';'. */
  lemma {:induction false} ScanInvertsPrint(pairs: seq<Pair>)
    ensures Scan(Print(pairs)) == pairs <==> Separable(pairs)
  {
    ScanIsSeparable(Print(pairs));
    if Separable(pairs) { ScanPrint(pairs); }
  }

  // ---- The filter ----

  /** The library's wildcard match of a pattern and a name. */
  type Match = (string, string) -> bool

  type Topic = (string, string)
  type WriterMap = map<string, string>

  /** A channel of the file: its topic, the name of its schema if that is known, and its partition metadata. */
  datatype Channel = Channel(topic: string, schema: Maybe<string>, partitions: string)

  /** Whether a writer with these partitions may be heard. */
  ghost predicate Passes(matches: Match, allowed: set<string>, partitions: string) {
    || allowed == {} || partitions == "*"
    || exists k, a :: 0 <= k < |SplitBar(partitions)| && a in allowed && matches(a, SplitBar(partitions)[k])
  }

  function WriterMapOf(pairs: seq<Pair>): WriterMap {
    if pairs == [] then map[]
    else WriterMapOf(pairs[..|pairs| - 1])[pairs[|pairs| - 1].0 := pairs[|pairs| - 1].1]
  }

  /** The topics of the channels with a schema; a later channel of the same topic replaces an earlier one. */
  function TopicsOf(channels: seq<Channel>): map<Topic, WriterMap> {
    if channels == [] then map[]
    else
      var front, last := TopicsOf(channels[..|channels| - 1]), channels[|channels| - 1];
      if last.schema.None? then front else front[(last.topic, last.schema.value) := WriterMapOf(Scan(last.partitions))]
  }

  /** The pair of some channel is filtered out. */
  ghost predicate Filters(matches: Match, allowed: set<string>, channels: seq<Channel>, w: string, i: nat, k: nat) {
    && i < |channels| && channels[i].schema.Some? && k < |Scan(channels[i].partitions)|
    && Scan(channels[i].partitions)[k].0 == w && !Passes(matches, allowed, Scan(channels[i].partitions)[k].1)
  }

  ghost predicate FilteredAtStart(matches: Match, allowed: set<string>, channels: seq<Channel>, w: string) {
    exists i, k :: Filters(matches, allowed, channels, w, i, k)
  }

  ghost predicate FilteredByUpdate(matches: Match, allowed: set<string>, topics: map<Topic, WriterMap>, w: string) {
    exists id :: id in topics && w in topics[id] && !Passes(matches, allowed, topics[id][w])
  }

  predicate DistinctWriters(pairs: seq<Pair>) {
    forall i, j :: 0 <= i < j < |pairs| ==> pairs[i].0 != pairs[j].0
  }

  predicate DistinctTopics(channels: seq<Channel>) {
    forall i, j :: 0 <= i < j < |channels| && channels[i].schema.Some? && channels[j].schema.Some? ==>
      channels[i].topic != channels[j].topic || channels[i].schema != channels[j].schema
  }

  /** Every entry of a writer map is the last of the pairs of its writer. */
  lemma {:induction false} MapFromPairs(pairs: seq<Pair>, w: string) returns (k: nat)
    requires w in WriterMapOf(pairs)
    ensures k < |pairs| && pairs[k] == (w, WriterMapOf(pairs)[w])
    ensures forall j :: k < j < |pairs| ==> pairs[j].0 != w
  {
    var last := pairs[|pairs| - 1];
    if last.0 == w {
      k := |pairs| - 1;
    } else {
      k := MapFromPairs(pairs[..|pairs| - 1], w);
    }
  }

  lemma {:induction false} PairsInMap(pairs: seq<Pair>, k: nat)
    requires k < |pairs|
    ensures pairs[k].0 in WriterMapOf(pairs)
    ensures DistinctWriters(pairs) ==> WriterMapOf(pairs)[pairs[k].0] == pairs[k].1
  {
    if k < |pairs| - 1 { PairsInMap(pairs[..|pairs| - 1], k); }
  }

  /** Every topic is that of the last channel with its name and schema. */
  lemma {:induction false} TopicFromChannel(channels: seq<Channel>, id: Topic) returns (i: nat)
    requires id in TopicsOf(channels)
    ensures i < |channels| && channels[i].schema.Some? && id == (channels[i].topic, channels[i].schema.value)
    ensures TopicsOf(channels)[id] == WriterMapOf(Scan(channels[i].partitions))
    ensures forall j :: i < j < |channels| && channels[j].schema.Some? ==>
            id != (channels[j].topic, channels[j].schema.value)
  {
    hide Scan, WriterMapOf;
    var last := channels[|channels| - 1];
    if last.schema.Some? && (last.topic, last.schema.value) == id {
      i := |channels| - 1;
    } else {
      i := TopicFromChannel(channels[..|channels| - 1], id);
    }
  }

  lemma {:induction false} ChannelInTopics(channels: seq<Channel>, i: nat)
    requires i < |channels| && channels[i].schema.Some?
    ensures var id := (channels[i].topic, channels[i].schema.value);
            id in TopicsOf(channels)
                && (DistinctTopics(channels) ==> TopicsOf(channels)[id] == WriterMapOf(Scan(channels[i].partitions)))
  {
    if i < |channels| - 1 { ChannelInTopics(channels[..|channels| - 1], i); }
  }

  /** An update never filters a writer that a fresh start would not. */
  lemma {:induction false} UpdateFiltersNoMore(matches: Match, allowed: set<string>, channels: seq<Channel>, w: string)
    requires FilteredByUpdate(matches, allowed, TopicsOf(channels), w)
    ensures FilteredAtStart(matches, allowed, channels, w)
  {
    hide Passes;
    var id :| id in TopicsOf(channels) && w in TopicsOf(channels)[id]
        && !Passes(matches, allowed, TopicsOf(channels)[id][w]);
    var i := TopicFromChannel(channels, id);
    var k := MapFromPairs(Scan(channels[i].partitions), w);
    assert Filters(matches, allowed, channels, w, i, k);
  }

  /** With one channel per topic and one entry per writer, updating the filter is the same as starting with it. */
  lemma {:induction false} UpdateEqualsFreshStart(matches: Match, allowed: set<string>, channels: seq<Channel>,
                                                  w: string)
    requires DistinctTopics(channels)
    requires forall i :: 0 <= i < |channels| && channels[i].schema.Some? ==>
             DistinctWriters(Scan(channels[i].partitions))
    ensures FilteredByUpdate(matches, allowed, TopicsOf(channels), w) <==>
            FilteredAtStart(matches, allowed, channels, w)
  {
    hide Passes, TopicsOf, WriterMapOf, Scan;
    if FilteredByUpdate(matches, allowed, TopicsOf(channels), w) {
      UpdateFiltersNoMore(matches, allowed, channels, w);
    }
    if FilteredAtStart(matches, allowed, channels, w) {
      var i: nat, k: nat :| Filters(matches, allowed, channels, w, i, k);
      UpdateFiltersPair(matches, allowed, channels, w, i, k);
    }
  }

  lemma {:induction false} UpdateFiltersPair(matches: Match, allowed: set<string>, channels: seq<Channel>, w: string,
                                             i: nat, k: nat)
    requires DistinctTopics(channels) && Filters(matches, allowed, channels, w, i, k)
    requires DistinctWriters(Scan(channels[i].partitions))
    ensures FilteredByUpdate(matches, allowed, TopicsOf(channels), w)
  {
    hide Passes, TopicsOf, WriterMapOf, Scan, DistinctTopics, DistinctWriters;
    ChannelInTopics(channels, i);
    PairsInMap(Scan(channels[i].partitions), k);
    var id := (channels[i].topic, channels[i].schema.value);
    assert id in TopicsOf(channels) && w in TopicsOf(channels)[id]
           && !Passes(matches, allowed, TopicsOf(channels)[id][w]);
  }

  /** Every name of `q` is a name of `p`. */
  predicate NamesWithin(q: string, p: string) {
    forall j :: 0 <= j < |SplitBar(q)| ==> SplitBar(q)[j] in SplitBar(p)
  }

  /** The topics still know the writer, not as a wildcard, and with none but the partitions of `p`. */
  ghost predicate Remembered(topics: map<Topic, WriterMap>, w: string, p: string) {
    exists id :: id in topics && w in topics[id] && topics[id][w] != "*" && NamesWithin(topics[id][w], p)
  }

  /** Nothing that was read was forgotten by a later channel or a later entry of the same writer. */
  ghost predicate Faithful(channels: seq<Channel>) {
    forall i, k :: 0 <= i < |channels| && channels[i].schema.Some? && 0 <= k < |Scan(channels[i].partitions)| ==>
      PairRemembered(channels, i, k)
  }

  ghost predicate PairRemembered(channels: seq<Channel>, i: nat, k: nat)
    requires i < |channels| && k < |Scan(channels[i].partitions)|
  {
    var (w, p) := Scan(channels[i].partitions)[k];
    p != "*" ==> Remembered(TopicsOf(channels), w, p)
  }

  lemma {:induction false} RejectedWithin(matches: Match, allowed: set<string>, p: string, q: string)
    requires !Passes(matches, allowed, p) && q != "*" && NamesWithin(q, p)
    ensures !Passes(matches, allowed, q)
  {
    hide SplitBar;
  }

  lemma {:induction false} FaithfulUpdates(matches: Match, allowed: set<string>, channels: seq<Channel>, w: string)
    requires Faithful(channels)
    ensures FilteredByUpdate(matches, allowed, TopicsOf(channels), w) <==>
            FilteredAtStart(matches, allowed, channels, w)
  {
    hide Passes, TopicsOf, Scan, NamesWithin;
    if FilteredByUpdate(matches, allowed, TopicsOf(channels), w) {
      UpdateFiltersNoMore(matches, allowed, channels, w);
    }
    if FilteredAtStart(matches, allowed, channels, w) {
      var i: nat, k: nat :| Filters(matches, allowed, channels, w, i, k);
      var p := Scan(channels[i].partitions)[k].1;
      assert PairRemembered(channels, i, k);
      WildcardPasses(matches, allowed);
      var id :| id in TopicsOf(channels) && w in TopicsOf(channels)[id] && TopicsOf(channels)[id][w] != "*"
                && NamesWithin(TopicsOf(channels)[id][w], p);
      RejectedWithin(matches, allowed, p, TopicsOf(channels)[id][w]);
    }
  }

  lemma {:induction false} WildcardPasses(matches: Match, allowed: set<string>)
    ensures Passes(matches, allowed, "*")
  {}

  function Exact(): Match { (pattern, name) => pattern == name }

  /**
   A filter that tells a forgotten pair from what is left of its writer: the names left, without those of the pair.
  */
  ghost function Telling(topics: map<Topic, WriterMap>, w: string, p: string): (allowed: set<string>)
    ensures "|" in allowed && forall n :: n in allowed ==> n !in SplitBar(p)
    ensures forall id, j ::
              id in topics && w in topics[id] && 0 <= j < |SplitBar(topics[id][w])|
                  && SplitBar(topics[id][w])[j] !in SplitBar(p) ==>
                SplitBar(topics[id][w])[j] in allowed
  {
    SplitIsBarFree(p);
    assert '|' in "|";
    {"|"} + set id, n | id in topics && w in topics[id] && n in SplitBar(topics[id][w]) && n !in SplitBar(p) :: n
  }

  lemma {:induction false} ForgottenIsTold(channels: seq<Channel>, i: nat, k: nat)
    requires i < |channels| && channels[i].schema.Some? && k < |Scan(channels[i].partitions)|
    requires !PairRemembered(channels, i, k)
    ensures var (w, p) := Scan(channels[i].partitions)[k];
            var allowed := Telling(TopicsOf(channels), w, p);
            FilteredAtStart(Exact(), allowed, channels, w) && !FilteredByUpdate(Exact(), allowed, TopicsOf(channels), w)
  {
    hide SplitBar, Scan, TopicsOf;
    var (w, p) := Scan(channels[i].partitions)[k];
    var topics := TopicsOf(channels);
    var allowed := Telling(topics, w, p);
    assert !Passes(Exact(), allowed, p);
    assert Filters(Exact(), allowed, channels, w, i, k);
    forall id | id in topics && w in topics[id]
      ensures Passes(Exact(), allowed, topics[id][w])
    {
      if topics[id][w] != "*" {
        var j :| 0 <= j < |SplitBar(topics[id][w])| && SplitBar(topics[id][w])[j] !in SplitBar(p);
        assert Exact()(SplitBar(topics[id][w])[j], SplitBar(topics[id][w])[j]);
      }
    }
  }

  /** Updating equals starting afresh, for every filter, exactly when no pair read was forgotten. */
  lemma {:induction false} UpdateEqualsFreshStartExactlyWhen(channels: seq<Channel>)
    ensures Faithful(channels) <==>
            forall allowed, w ::
              FilteredByUpdate(Exact(), allowed, TopicsOf(channels), w) <==>
                    FilteredAtStart(Exact(), allowed, channels, w)
    ensures Faithful(channels) ==>
            forall matches, allowed, w ::
              FilteredByUpdate(matches, allowed, TopicsOf(channels), w) <==>
                    FilteredAtStart(matches, allowed, channels, w)
  {
    hide FilteredByUpdate, FilteredAtStart, PairRemembered, Scan;
    if Faithful(channels) {
      forall matches, allowed, w
        ensures FilteredByUpdate(matches, allowed, TopicsOf(channels), w) <==>
                FilteredAtStart(matches, allowed, channels, w)
      {
        FaithfulUpdates(matches, allowed, channels, w);
      }
    } else {
      var i, k :| 0 <= i < |channels| && channels[i].schema.Some? && 0 <= k < |Scan(channels[i].partitions)|
                  && !PairRemembered(channels, i, k);
      ForgottenIsTold(channels, i, k);
      var (w, p) := Scan(channels[i].partitions)[k];
      var allowed := Telling(TopicsOf(channels), w, p);
      assert FilteredAtStart(Exact(), allowed, channels, w) !=
             FilteredByUpdate(Exact(), allowed, TopicsOf(channels), w);
    }
  }

  /** Where two channels share a topic, an update can forget a writer that a fresh start filters. */
  lemma SharedTopicForgets()
    ensures var equal := (a: string, b: string) => a == b;
            var channels := [Channel("t", Some("T"), "w:A;"), Channel("t", Some("T"), "v:B;")];
            FilteredAtStart(equal, {"B"}, channels, "w") && !FilteredByUpdate(equal, {"B"}, TopicsOf(channels), "w")
  {
    hide Scan, SplitBar, Join;
    var equal := (a: string, b: string) => a == b;
    var first, second := Channel("t", Some("T"), "w:A;"), Channel("t", Some("T"), "v:B;");
    OnePair("w", "A");
    OnePair("v", "B");
    OneName("A");
    assert "w:A;" == "w" + ":" + "A" + ";" && "v:B;" == "v" + ":" + "B" + ";";
    assert "A"[0] != "B"[0] && "w"[0] != "v"[0] && "A"[0] != "*"[0];
    assert !Passes(equal, {"B"}, "A");
    assert Filters(equal, {"B"}, [first, second], "w", 0, 0);
    TwoChannels(first, second);
    MapOfOne("v", "B");
  }

  lemma {:induction false} OneName(name: string)
    requires '|' !in name
    ensures SplitBar(name) == [name]
  {
    SplitName(name, "");
    assert name + "" == name;
  }

  lemma MapOfOne(w: string, p: string)
    ensures WriterMapOf([(w, p)]) == map[w := p]
  {
    assert [(w, p)][..0] == [];
  }

  lemma TwoChannels(first: Channel, second: Channel)
    requires first.schema.Some? && second.schema.Some? && first.topic == second.topic && first.schema == second.schema
    ensures TopicsOf([first, second]) ==
            map[(second.topic, second.schema.value) := WriterMapOf(Scan(second.partitions))]
  {
    assert [first, second][..1] == [first] && [first][..0] == [];
    assert TopicsOf([first]) == map[(first.topic, first.schema.value) := WriterMapOf(Scan(first.partitions))] by {
      assert TopicsOf([]) == map[];
    }
  }

  lemma {:induction false} OnePair(w: string, p: string)
    requires ':' !in w && ';' !in p
    ensures Scan(w + ":" + p + ";") == [(w, p)]
  {
    ScanPrint([(w, p)]);
    assert [(w, p)][1..] == [];
    assert w + ":" + p + ";" + "" == w + ":" + p + ";";
  }

  /** Recorded and read back: the writers of a topic and their partitions, if neither separator was used in a name. */
  lemma {:induction false} RecordedPartitionsReturn(pairs: seq<Pair>, k: nat)
    requires Separable(pairs) && DistinctWriters(pairs) && k < |pairs|
    ensures var m := WriterMapOf(Scan(Print(pairs))); pairs[k].0 in m && m[pairs[k].0] == pairs[k].1
  {
    ScanPrint(pairs);
    PairsInMap(pairs, k);
  }

  // ---- What the filter means for recorded names ----

  /** An empty list filters no writer, whatever its partitions. */
  lemma {:induction false} NothingToFilter(matches: Match, channels: seq<Channel>, topics: map<Topic, WriterMap>)
    ensures forall w :: !FilteredAtStart(matches, {}, channels, w) && !FilteredByUpdate(matches, {}, topics, w)
  {
    hide Scan;
  }

  /** A channel as it was recorded: the writers of a topic, each with the names of its partitions. */
  datatype Recorded = Recorded(topic: string, schema: Maybe<string>, writers: seq<(string, seq<string>)>)

  /** Names that survive printing: none has a separator in it. */
  predicate Printable(r: Recorded) {
    forall k :: 0 <= k < |r.writers| ==>
      ':' !in r.writers[k].0 && r.writers[k].1 != [] && BarFree(r.writers[k].1) && ';' !in Join(r.writers[k].1)
  }

  function PairsOf(r: Recorded): seq<Pair>
    requires Printable(r)
  {
    seq(|r.writers|, k requires 0 <= k < |r.writers| => (r.writers[k].0, Join(r.writers[k].1)))
  }

  function ChannelsOf(recorded: seq<Recorded>): seq<Channel>
    requires forall i :: 0 <= i < |recorded| ==> Printable(recorded[i])
  {
    seq(|recorded|, i requires 0 <= i < |recorded| =>
      Channel(recorded[i].topic, recorded[i].schema, Print(PairsOf(recorded[i]))))
  }

  /** Some pattern of the list matches some name. */
  ghost predicate Allowed(matches: Match, allowed: set<string>, names: seq<string>) {
    exists k, a :: 0 <= k < |names| && a in allowed && matches(a, names[k])
  }

  /**
   A writer recorded with these names is filtered out unless there is no list, a lone "*", or a pattern for a name.
  */
  ghost predicate Unheard(matches: Match, allowed: set<string>, names: seq<string>) {
    allowed != {} && names != ["*"] && !Allowed(matches, allowed, names)
  }

  ghost predicate RecordedUnheard(matches: Match, allowed: set<string>, recorded: seq<Recorded>, w: string, i: nat,
                                  k: nat)
    requires forall i :: 0 <= i < |recorded| ==> Printable(recorded[i])
  {
    && i < |recorded| && recorded[i].schema.Some? && k < |recorded[i].writers|
    && recorded[i].writers[k].0 == w && Unheard(matches, allowed, recorded[i].writers[k].1)
  }

  lemma {:induction false} UnheardIsRejected(matches: Match, allowed: set<string>, names: seq<string>)
    requires names != [] && BarFree(names)
    ensures Passes(matches, allowed, Join(names)) <==> !Unheard(matches, allowed, names)
  {
    SplitJoin(names);
    if names == ["*"] {
      assert Join(names) == "*";
    }
    if Join(names) == "*" {
      StarSplits();
    }
  }

  lemma {:induction false} StarSplits()
    ensures SplitBar("*") == ["*"]
  {
    OneName("*");
  }

  /**
   The filter of a fresh start in terms of what was recorded: a writer is filtered exactly if a channel
   with a schema records it with partitions of which the list, not being empty, allows none, unless its
   only partition is "*".
  */
  lemma {:induction false} FilterMeans(matches: Match, allowed: set<string>, recorded: seq<Recorded>, w: string)
    requires forall i :: 0 <= i < |recorded| ==> Printable(recorded[i])
    ensures FilteredAtStart(matches, allowed, ChannelsOf(recorded), w) <==>
            exists i: nat, k: nat :: RecordedUnheard(matches, allowed, recorded, w, i, k)
  {
    hide Passes, Scan, Print, Join, Unheard, BarFree;
    var channels := ChannelsOf(recorded);
    forall i: nat, k: nat
      ensures Filters(matches, allowed, channels, w, i, k) <==> RecordedUnheard(matches, allowed, recorded, w, i, k)
    {
      if i < |recorded| {
        PairsAreSeparable(recorded[i]);
        ScanPrint(PairsOf(recorded[i]));
        if k < |recorded[i].writers| {
          UnheardIsRejected(matches, allowed, recorded[i].writers[k].1);
        }
      }
    }
    if FilteredAtStart(matches, allowed, channels, w) {
      var i, k :| Filters(matches, allowed, channels, w, i, k);
      assert RecordedUnheard(matches, allowed, recorded, w, i, k);
    }
    if exists i: nat, k: nat :: RecordedUnheard(matches, allowed, recorded, w, i, k) {
      var i: nat, k: nat :| RecordedUnheard(matches, allowed, recorded, w, i, k);
      assert Filters(matches, allowed, channels, w, i, k);
    }
  }

  lemma PairsAreSeparable(r: Recorded)
    requires Printable(r)
    ensures Separable(PairsOf(r))
  {}

  /** How a bar is read. */
  lemma {:induction false} BarSeparates()
    ensures SplitBar("A|B|") == ["A", "B", ""] && SplitBar("") == [""]
  {
    hide SplitBar;
    assert SplitBar("") == [""] by { NoName(); }
    BarThen("");
    assert "|" + "" == "|";
    SplitName("B", "|");
    assert "B" + "|" == "B|" && "B" + "" == "B";
    assert SplitBar("B|") == ["B", ""];
    BarThen("B|");
    SplitName("A", "|B|");
    assert "|" + "B|" == "|B|" && "A" + "|B|" == "A|B|" && "A" + "" == "A";
  }

  lemma {:induction false} NoName()
    ensures SplitBar("") == [""]
  {}

  lemma {:induction false} BarThen(tail: string)
    ensures SplitBar("|" + tail) == [""] + SplitBar(tail)
  {
    assert ("|" + tail)[1..] == tail;
  }

  /** How a colon and a semicolon are read. */
  lemma {:induction false} ColonAndSemicolonSeparate()
    ensures Scan("w:A|B;v:;") == [("w", "A|B"), ("v", "")]
  {
    hide Scan;
    ScanFirst("w", "A|B", "v:;");
    ScanFirst("v", "", "");
    ScanNothing();
    assert "w" + ":" + "A|B" + ";" + "v:;" == "w:A|B;v:;" && "v" + ":" + "" + ";" + "" == "v:;";
  }

  // ---- The reader ----

  ghost predicate Rejected(matches: Match, allowed: set<string>, pairs: seq<Pair>, w: string) {
    exists k :: 0 <= k < |pairs| && pairs[k].0 == w && !Passes(matches, allowed, pairs[k].1)
  }

  lemma {:induction false} RejectedSnoc(matches: Match, allowed: set<string>, pairs: seq<Pair>, p: Pair, w: string)
    ensures Rejected(matches, allowed, pairs + [p], w) <==>
            Rejected(matches, allowed, pairs, w) || (p.0 == w && !Passes(matches, allowed, p.1))
  {
    hide Passes;
    if Rejected(matches, allowed, pairs, w) {
      var k :| 0 <= k < |pairs| && pairs[k].0 == w && !Passes(matches, allowed, pairs[k].1);
      assert (pairs + [p])[k] == pairs[k];
    }
    assert (pairs + [p])[|pairs|] == p;
  }

  lemma {:induction false} RejectedMore(matches: Match, allowed: set<string>, pairs: seq<Pair>, p: Pair)
    ensures forall w :: Rejected(matches, allowed, pairs + [p], w) <==>
                        Rejected(matches, allowed, pairs, w) || (p.0 == w && !Passes(matches, allowed, p.1))
  {
    hide Passes, Rejected;
    forall w
      ensures Rejected(matches, allowed, pairs + [p], w) <==>
              Rejected(matches, allowed, pairs, w) || (p.0 == w && !Passes(matches, allowed, p.1))
    {
      RejectedSnoc(matches, allowed, pairs, p, w);
    }
  }

  lemma {:induction false} UntilIs(s: string, stop: char, n: nat)
    requires n <= |s| && stop !in s[..n] && (n < |s| ==> s[n] == stop)
    ensures Until(s, stop) == s[..n]
  {
    if n < |s| {
      UntilSeparator(s[..n], stop, s[n + 1..]);
      assert s == s[..n] + [stop] + s[n + 1..];
    } else {
      assert s[..n] == s;
      UntilAll(s, stop);
    }
  }

  lemma {:induction false} UntilAll(s: string, stop: char)
    requires stop !in s
    ensures Until(s, stop) == s
  {
    if s != "" { UntilAll(s[1..], stop); }
  }

  /** What is left of a text from a position that may lie beyond its end. */
  function From(text: string, i: nat): string {
    if i < |text| then text[i..] else ""
  }

  lemma {:induction false} FilteredSnoc(matches: Match, allowed: set<string>, channels: seq<Channel>, c: Channel,
                                        w: string)
    ensures FilteredAtStart(matches, allowed, channels + [c], w) <==>
            FilteredAtStart(matches, allowed, channels, w)
            || (c.schema.Some? && Rejected(matches, allowed, Scan(c.partitions), w))
  {
    hide Passes, Scan;
    var longer := channels + [c];
    if FilteredAtStart(matches, allowed, longer, w) {
      var i: nat, k: nat :| Filters(matches, allowed, longer, w, i, k);
      if i < |channels| { assert Filters(matches, allowed, channels, w, i, k); }
    }
    if FilteredAtStart(matches, allowed, channels, w) {
      var i: nat, k: nat :| Filters(matches, allowed, channels, w, i, k);
      assert Filters(matches, allowed, longer, w, i, k);
    }
    if c.schema.Some? && Rejected(matches, allowed, Scan(c.partitions), w) {
      var k :| 0 <= k < |Scan(c.partitions)| && Scan(c.partitions)[k].0 == w
          && !Passes(matches, allowed, Scan(c.partitions)[k].1);
      assert Filters(matches, allowed, longer, w, |channels|, k);
    }
  }

  lemma {:induction false} WriterMapSnoc(pairs: seq<Pair>, p: Pair)
    ensures WriterMapOf(pairs + [p]) == WriterMapOf(pairs)[p.0 := p.1]
  {
    assert (pairs + [p])[..|pairs|] == pairs;
  }

  ghost predicate CachedFrom(topics: map<Topic, WriterMap>, w: string, names: seq<string>) {
    exists id :: id in topics && w in topics[id] && names == SplitBar(topics[id][w])
  }

  // ---- The cache of split partitions ----

  /** What decides the partitions put on a message: its topic and its writer. */
  type Message = (Topic, string)

  predicate HasPartitions(topics: map<Topic, WriterMap>, m: Message) {
    m.0 in topics && m.1 in topics[m.0]
  }

  function NamesOf(topics: map<Topic, WriterMap>, m: Message): seq<string>
    requires HasPartitions(topics, m)
  {
    SplitBar(topics[m.0][m.1])
  }

  /** The answer without a cache. */
  function Uncached(topics: map<Topic, WriterMap>, m: Message): Maybe<seq<string>> {
    if HasPartitions(topics, m) then Some(NamesOf(topics, m)) else None
  }

  /** The answer with a cache by writer, and the cache after it. */
  function Cached(topics: map<Topic, WriterMap>, cache: map<string, seq<string>>, m: Message)
    : (Maybe<seq<string>>, map<string, seq<string>>)
  {
    if !HasPartitions(topics, m) then (None, cache)
    else if m.1 in cache then (Some(cache[m.1]), cache)
    else (Some(NamesOf(topics, m)), cache[m.1 := NamesOf(topics, m)])
  }

  function CachedRun(topics: map<Topic, WriterMap>, cache: map<string, seq<string>>,
                     messages: seq<Message>): seq<Maybe<seq<string>>>
    decreases |messages|
  {
    if messages == [] then []
    else
      var step := Cached(topics, cache, messages[0]);
      [step.0] + CachedRun(topics, step.1, messages[1..])
  }

  function UncachedRun(topics: map<Topic, WriterMap>, messages: seq<Message>): seq<Maybe<seq<string>>> {
    if messages == [] then [] else [Uncached(topics, messages[0])] + UncachedRun(topics, messages[1..])
  }

  predicate SameNames(topics: map<Topic, WriterMap>, m: Message, n: Message) {
    HasPartitions(topics, m) && HasPartitions(topics, n) && m.1 == n.1 ==> topics[m.0][m.1] == topics[n.0][n.1]
  }

  /** No writer is met in two topics that record different partitions for it. */
  predicate MetConsistently(topics: map<Topic, WriterMap>, messages: seq<Message>) {
    forall i, j :: 0 <= i < j < |messages| ==> SameNames(topics, messages[i], messages[j])
  }

  /** What is cached is what the messages would be answered without a cache. */
  predicate CacheFits(topics: map<Topic, WriterMap>, cache: map<string, seq<string>>, messages: seq<Message>) {
    forall i :: 0 <= i < |messages| ==> CacheFitsOne(topics, cache, messages[i])
  }

  predicate CacheFitsOne(topics: map<Topic, WriterMap>, cache: map<string, seq<string>>, m: Message) {
    HasPartitions(topics, m) && m.1 in cache ==> NamesOf(topics, m) == cache[m.1]
  }

  lemma {:induction false} SplitBarInjective(s: string, t: string)
    ensures SplitBar(s) == SplitBar(t) <==> s == t
  {
    JoinSplit(s);
    JoinSplit(t);
  }

  /** One message settles what the cache must fit from then on. */
  lemma {:induction false} CacheAfter(topics: map<Topic, WriterMap>, cache: map<string, seq<string>>,
                                      messages: seq<Message>)
    requires messages != [] && CacheFitsOne(topics, cache, messages[0])
    ensures CacheFits(topics, Cached(topics, cache, messages[0]).1, messages[1..])
            && MetConsistently(topics, messages[1..]) <==>
            CacheFits(topics, cache, messages) && MetConsistently(topics, messages)
  {
    hide SplitBar;
    var after, rest := Cached(topics, cache, messages[0]).1, messages[1..];
    forall j | 0 < j < |messages|
      ensures CacheFitsOne(topics, after, messages[j]) <==>
              CacheFitsOne(topics, cache, messages[j]) && SameNames(topics, messages[0], messages[j])
    {
      if HasPartitions(topics, messages[0]) && HasPartitions(topics, messages[j]) && messages[0].1 == messages[j].1 {
        SplitBarInjective(topics[messages[0].0][messages[0].1], topics[messages[j].0][messages[j].1]);
      }
    }
    hide HasPartitions, CacheFitsOne, SameNames, Cached;
    assert forall j :: 0 < j < |messages| ==> messages[j] == rest[j - 1];
    if CacheFits(topics, after, rest) && MetConsistently(topics, rest) {
      forall i | 0 <= i < |messages| ensures CacheFitsOne(topics, cache, messages[i]) {
        if i > 0 { assert CacheFitsOne(topics, after, rest[i - 1]); }
      }
      forall i, j | 0 <= i < j < |messages| ensures SameNames(topics, messages[i], messages[j]) {
        assert CacheFitsOne(topics, after, rest[j - 1]);
        if i > 0 { assert SameNames(topics, rest[i - 1], rest[j - 1]); }
      }
    }
    if CacheFits(topics, cache, messages) && MetConsistently(topics, messages) {
      forall j | 0 <= j < |rest| ensures CacheFitsOne(topics, after, rest[j]) {
        assert CacheFitsOne(topics, cache, messages[j + 1]) && SameNames(topics, messages[0], messages[j + 1]);
      }
      forall i, j | 0 <= i < j < |rest| ensures SameNames(topics, rest[i], rest[j]) {
        assert SameNames(topics, messages[i + 1], messages[j + 1]);
      }
    }
  }

  lemma {:induction false} CachedAnswers(topics: map<Topic, WriterMap>, cache: map<string, seq<string>>,
                                         messages: seq<Message>)
    ensures CachedRun(topics, cache, messages) == UncachedRun(topics, messages) <==>
            CacheFits(topics, cache, messages) && MetConsistently(topics, messages)
    decreases |messages|
  {
    hide CacheFits, MetConsistently;
    if messages == [] {
      NothingMet(topics, cache);
    } else {
      var step := Cached(topics, cache, messages[0]);
      CachedAnswers(topics, step.1, messages[1..]);
      OneAnswer(topics, cache, messages);
      if CacheFitsOne(topics, cache, messages[0]) {
        CacheAfter(topics, cache, messages);
      }
    }
  }

  lemma {:induction false} NothingMet(topics: map<Topic, WriterMap>, cache: map<string, seq<string>>)
    ensures CacheFits(topics, cache, []) && MetConsistently(topics, [])
  {}

  lemma {:induction false} OneAnswer(topics: map<Topic, WriterMap>, cache: map<string, seq<string>>,
                                     messages: seq<Message>)
    requires messages != []
    ensures Cached(topics, cache, messages[0]).0 == Uncached(topics, messages[0]) <==>
            CacheFitsOne(topics, cache, messages[0])
    ensures CacheFits(topics, cache, messages) ==> CacheFitsOne(topics, cache, messages[0])
    ensures CachedRun(topics, cache, messages) == UncachedRun(topics, messages) <==>
            && Cached(topics, cache, messages[0]).0 == Uncached(topics, messages[0])
            && CachedRun(topics, Cached(topics, cache, messages[0]).1, messages[1..]) ==
                UncachedRun(topics, messages[1..])
  {
    var x, y := Cached(topics, cache, messages[0]).0, Uncached(topics, messages[0]);
    var xs := CachedRun(topics, Cached(topics, cache, messages[0]).1, messages[1..]);
    var ys := UncachedRun(topics, messages[1..]);
    assert ([x] + xs)[0] == x && ([x] + xs)[1..] == xs && ([y] + ys)[0] == y && ([y] + ys)[1..] == ys;
  }

  /**
   Over a whole run of messages from an empty cache, every message gets the partitions it would get
   without a cache exactly when no writer is met with different partitions in two topics.
  */
  lemma {:induction false} CacheIsInvisibleExactlyWhen(topics: map<Topic, WriterMap>, messages: seq<Message>)
    ensures CachedRun(topics, map[], messages) == UncachedRun(topics, messages) <==> MetConsistently(topics, messages)
  {
    hide MetConsistently, CachedRun, UncachedRun;
    CachedAnswers(topics, map[], messages);
  }

  /** A writer with partition A in one topic and B in another: its message in the second gets A. */
  lemma {:induction false} SecondTopicGetsFirst()
    ensures var topics: map<Topic, WriterMap> := map[("t", "T") := map["w" := "A"], ("u", "T") := map["w" := "B"]];
            var messages := [(("t", "T"), "w"), (("u", "T"), "w")];
            CachedRun(topics, map[], messages) == [Some(["A"]), Some(["A"])]
            && UncachedRun(topics, messages) == [Some(["A"]), Some(["B"])]
  {
    hide SplitBar;
    var topics: map<Topic, WriterMap> := map[("t", "T") := map["w" := "A"], ("u", "T") := map["w" := "B"]];
    var first, second: Message := (("t", "T"), "w"), (("u", "T"), "w");
    OneName("A");
    OneName("B");
    assert "t"[0] != "u"[0];
    var cache: map<string, seq<string>> := map["w" := ["A"]];
    assert Cached(topics, map[], first) == (Some(["A"]), cache);
    assert Cached(topics, cache, second) == (Some(["A"]), cache);
    var none: seq<Message> := [second][1..];
    assert none == [] && [first, second][1..] == [second];
    assert CachedRun(topics, cache, [second]) == [Some(["A"])] + CachedRun(topics, cache, none);
    assert UncachedRun(topics, [second]) == [Some(["B"])] + UncachedRun(topics, none);
    assert UncachedRun(topics, [first, second]) == [Some(["A"])] + UncachedRun(topics, [second]);
  }

  class McapReaderParticipant {
    const matches: Match
    var allowedPartitionList: set<string>
    var filteredWriters: set<string>
    var topics: map<Topic, WriterMap>
    /** The partitions already split for a writer. */
    var partitionsQos: map<string, seq<string>>

    constructor (m: Match, allowed: set<string>)
      ensures matches == m && allowedPartitionList == allowed && filteredWriters == {} && topics == map[]
              && partitionsQos == map[]
    {
      matches, allowedPartitionList, filteredWriters, topics, partitionsQos := m, allowed, {}, map[], map[];
    }

    /** Whether one of the names matches one of the allowed patterns. */
    method MatchAny(names: seq<string>) returns (pass: bool)
      ensures pass <==> exists k, a :: 0 <= k < |names| && a in allowedPartitionList && matches(a, names[k])
    {
      pass := false;
      for k := 0 to |names|
        invariant pass <==> exists j, a :: 0 <= j < k && a in allowedPartitionList && matches(a, names[j])
      {
        ghost var seen := pass;
        var rest := allowedPartitionList;
        while rest != {}
          invariant rest <= allowedPartitionList
          invariant pass <==> seen || exists a :: a in allowedPartitionList && a !in rest && matches(a, names[k])
          decreases rest
        {
          var a :| a in rest;
          rest := rest - {a};
          if matches(a, names[k]) {
            pass := true;
          }
        }
      }
    }

    method WriterPasses(partitions: string) returns (pass: bool)
      ensures pass <==> Passes(matches, allowedPartitionList, partitions)
    {
      if partitions == "*" || allowedPartitionList == {} {
        return true;
      }
      var names := SplitForUpdate(partitions);
      pass := MatchAny(names);
    }

    /** The run-time change of the filter. */
    method UpdatePartitionList(allowed: set<string>)
      modifies `allowedPartitionList, `filteredWriters
      ensures allowedPartitionList == allowed
      ensures forall w :: w in filteredWriters <==> FilteredByUpdate(matches, allowed, topics, w)
      ensures allowed == {} ==> filteredWriters == {}
    {
      hide Passes;
      NothingToFilter(matches, [], topics);
      allowedPartitionList := allowed;
      filteredWriters := {};
      var ids := topics.Keys;
      while ids != {}
        invariant ids <= topics.Keys && allowedPartitionList == allowed
        invariant forall w :: w in filteredWriters <==>
                    exists id :: id in topics && id !in ids && w in topics[id]
                        && !Passes(matches, allowed, topics[id][w])
        decreases ids
      {
        var id :| id in ids;
        ghost var was, before := filteredWriters, ids;
        UpdateTopic(topics[id]);
        ids := ids - {id};
      }
    }

    method UpdateTopic(writers: WriterMap)
      modifies `filteredWriters
      ensures forall w :: w in filteredWriters <==>
                w in old(filteredWriters) || (w in writers && !Passes(matches, allowedPartitionList, writers[w]))
    {
      hide Passes;
      var rest := writers.Keys;
      while rest != {}
        invariant rest <= writers.Keys
        invariant forall w :: w in filteredWriters <==>
                    w in old(filteredWriters)
                        || (w in writers && w !in rest && !Passes(matches, allowedPartitionList, writers[w]))
        decreases rest
      {
        var w :| w in rest;
        var pass := WriterPasses(writers[w]);
        if !pass {
          filteredWriters := filteredWriters + {w};
        }
        rest := rest - {w};
      }
    }

    /** Reads the writers of one channel and filters them as they come. */
    method ScanChannel(text: string) returns (writers: WriterMap)
      modifies `filteredWriters
      ensures writers == WriterMapOf(Scan(text))
      ensures forall w :: w in filteredWriters <==>
                w in old(filteredWriters) || Rejected(matches, allowedPartitionList, Scan(text), w)
    {
      hide Passes, Rejected, Scan, WriterMapOf;
      writers := map[];
      var i := 0;
      ghost var done: seq<Pair> := [];
      StartOfScan(matches, allowedPartitionList);
      assert From(text, 0) == text;
      assert [] + Scan(text) == Scan(text);
      while i < |text|
        invariant Scan(text) == done + Scan(From(text, i)) && writers == WriterMapOf(done)
        invariant forall w :: w in filteredWriters <==>
                  w in old(filteredWriters) || Rejected(matches, allowedPartitionList, done, w)
        decreases |text| - i
      {
        var writer, partitions;
        writer, partitions, i := ReadPair(text, i);
        writers := writers[writer := partitions];
        FilterWriter(writer, partitions);
        RejectedMore(matches, allowedPartitionList, done, (writer, partitions));
        WriterMapSnoc(done, (writer, partitions));
        assert done + ([(writer, partitions)] + Scan(From(text, i))) ==
               done + [(writer, partitions)] + Scan(From(text, i));
        done := done + [(writer, partitions)];
      }
      assert done + [] == done;
    }

    method FilterWriter(writer: string, partitions: string)
      modifies `filteredWriters
      ensures filteredWriters ==
              old(filteredWriters) + if Passes(matches, allowedPartitionList, partitions) then {} else {writer}
    {
      hide Passes;
      var pass := WriterPasses(partitions);
      if !pass {
        filteredWriters := filteredWriters + {writer};
      }
    }

    /** One writer and its partitions, and where the next pair starts. */
    method ReadPair(text: string, i: nat) returns (writer: string, partitions: string, next: nat)
      requires i < |text|
      ensures next > i && Scan(From(text, i)) == [(writer, partitions)] + Scan(From(text, next))
    {
      hide Until, Beyond;
      writer, next := ReadUntil(text, i, ':');
      partitions, next := ReadUntil(text, next, ';');
    }

    /** Reads up to a separator or the end, and steps over the separator. */
    method ReadUntil(text: string, from: nat, stop: char) returns (word: string, next: nat)
      ensures word == Until(From(text, from), stop) && next > from
      ensures From(text, next) == Beyond(From(text, from), word)
    {
      hide Until;
      word, next := "", from;
      ghost var ahead := From(text, from);
      while next < |text| && text[next] != stop
        invariant from <= next == from + |word| && |word| <= |ahead| && (from < |text| ==> |ahead| == |text| - from)
        invariant word == ahead[..|word|] && stop !in word
        decreases |text| - next
      {
        assert text[next] == ahead[|word|];
        word := word + [text[next]];
        next := next + 1;
      }
      UntilIs(ahead, stop, |word|);
      next := next + 1;
    }

    /** Reads the channels of a file: its topics, and the writers the current filter rejects. */
    method ProcessSummary(channels: seq<Channel>)
      requires topics == map[]
      modifies `topics, `filteredWriters
      ensures topics == TopicsOf(channels)
      ensures forall w :: w in filteredWriters <==>
                w in old(filteredWriters) || FilteredAtStart(matches, allowedPartitionList, channels, w)
      ensures allowedPartitionList == {} ==> filteredWriters == old(filteredWriters)
    {
      hide Passes, Rejected, Scan, WriterMapOf;
      NothingToFilter(matches, channels, topics);
      for i := 0 to |channels|
        invariant topics == TopicsOf(channels[..i])
        invariant forall w :: w in filteredWriters <==>
                    w in old(filteredWriters) || FilteredAtStart(matches, allowedPartitionList, channels[..i], w)
      {
        var channel := channels[i];
        assert channels[..i + 1] == channels[..i] + [channel] && channels[..i + 1][..i] == channels[..i];
        forall w
          ensures FilteredAtStart(matches, allowedPartitionList, channels[..i + 1], w) <==>
                  FilteredAtStart(matches, allowedPartitionList, channels[..i], w)
                  || (channel.schema.Some? && Rejected(matches, allowedPartitionList, Scan(channel.partitions), w))
        {
          FilteredSnoc(matches, allowedPartitionList, channels[..i], channel, w);
        }
        if channel.schema.Some? {
          var writers := ScanChannel(channel.partitions);
          topics := topics[(channel.topic, channel.schema.value) := writers];
        }
      }
      assert channels[..|channels|] == channels;
    }

    /** The cached partitions of a writer are those of some topic it writes to. */
    ghost predicate CacheOk()
      reads this
    {
      forall w :: w in partitionsQos ==> CachedFrom(topics, w, partitionsQos[w])
    }

    /** No writer has different partitions in two topics. */
    ghost predicate Consistent()
      reads this
    {
      forall x, y, w :: x in topics && y in topics && w in topics[x] && w in topics[y] ==> topics[x][w] == topics[y][w]
    }

    /** The partitions put on a message of a writer: the cache does not change the answer if writers are consistent. */
    method MessagePartitions(id: Topic, writer: string) returns (partitions: Maybe<seq<string>>)
      requires CacheOk()
      modifies `partitionsQos
      ensures CacheOk()
      ensures (partitions, partitionsQos) == Cached(topics, old(partitionsQos), (id, writer))
      ensures id !in topics || writer !in topics[id] ==> partitions == None && partitionsQos == old(partitionsQos)
      ensures id in topics && writer in topics[id] && Consistent() ==> partitions == Some(SplitBar(topics[id][writer]))
    {
      if id !in topics || writer !in topics[id] {
        return None;
      }
      if writer in partitionsQos {
        assert CachedFrom(topics, writer, partitionsQos[writer]);
        return Some(partitionsQos[writer]);
      }
      var names := SplitForQos(topics[id][writer]);
      partitionsQos := partitionsQos[writer := names];
      assert CachedFrom(topics, writer, names);
      return Some(names);
    }
  }

  /** The messages of a run, from a fresh cache. */
  method AnswerMessages(reader: McapReaderParticipant, messages: seq<Message>)
    returns (answers: seq<Maybe<seq<string>>>)
    requires reader.partitionsQos == map[]
    modifies reader`partitionsQos
    ensures answers == CachedRun(reader.topics, map[], messages)
    ensures answers == UncachedRun(reader.topics, messages) <==> MetConsistently(reader.topics, messages)
  {
    hide CachedRun, UncachedRun, MetConsistently, Cached;
    answers := [];
    var i := 0;
    while i < |messages|
      invariant i <= |messages| && reader.CacheOk()
      invariant CachedRun(reader.topics, map[], messages) ==
                answers + CachedRun(reader.topics, reader.partitionsQos, messages[i..])
    {
      CachedFirst(reader.topics, reader.partitionsQos, messages[i..]);
      assert messages[i..][1..] == messages[i + 1..];
      var answer := reader.MessagePartitions(messages[i].0, messages[i].1);
      answers := answers + [answer];
      i := i + 1;
    }
    CachedFirst(reader.topics, reader.partitionsQos, messages[i..]);
    CacheIsInvisibleExactlyWhen(reader.topics, messages);
  }

  lemma {:induction false} CachedFirst(topics: map<Topic, WriterMap>, cache: map<string, seq<string>>,
                                       messages: seq<Message>)
    ensures CachedRun(topics, cache, messages) ==
            if messages == [] then []
            else [Cached(topics, cache, messages[0]).0]
                 + CachedRun(topics, Cached(topics, cache, messages[0]).1, messages[1..])
  {}

  lemma {:induction false} StartOfScan(matches: Match, allowed: set<string>)
    ensures WriterMapOf([]) == map[] && Scan("") == [] && forall w :: !Rejected(matches, allowed, [], w)
  {}

  /** After any updates, updating to a list leaves the same filter as a reader started with that list. */
  method UpdateLikeRestart(matches: Match, channels: seq<Channel>, lists: seq<set<string>>, final: set<string>)
    returns (updated: McapReaderParticipant, restarted: McapReaderParticipant)
    requires Faithful(channels)
    ensures updated.filteredWriters == restarted.filteredWriters
  {
    updated := new McapReaderParticipant(matches, if lists == [] then final else lists[0]);
    updated.ProcessSummary(channels);
    for i := 0 to |lists|
      invariant updated.matches == matches && updated.topics == TopicsOf(channels)
    {
      updated.UpdatePartitionList(lists[i]);
    }
    updated.UpdatePartitionList(final);
    restarted := new McapReaderParticipant(matches, final);
    restarted.ProcessSummary(channels);
    forall w
      ensures w in updated.filteredWriters <==> w in restarted.filteredWriters
    {
      FaithfulUpdates(matches, final, channels, w);
    }
  }
}
