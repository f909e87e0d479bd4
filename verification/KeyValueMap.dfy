/**
 The parser for MCAP key-value maps: a 32-bit size, then length-prefixed keys and values. The
 sequence handed to a parser is exactly what it may read, so every access within it stays in bounds.
*/
module KeyValueMaps {

  type Byte = b: int | 0 <= b < 256
  type Bytes = seq<Byte>
  type Entry = (Bytes, Bytes)

  const TWO_32: nat := 0x1_0000_0000

  datatype Error =
    | NoSize(have: nat)
    | TooLong(size: nat, remaining: nat)
    | InKey(at: nat, why: Error)
    | InValue(at: nat, why: Error)

  datatype Result<T> = Ok(value: T) | Err(error: Error)

  // ---- Integers and strings ----

  function Uint32(b0: Byte, b1: Byte, b2: Byte, b3: Byte): (n: nat)
    ensures n < TWO_32
  {
    b0 + 0x100 * b1 + 0x1_0000 * b2 + 0x100_0000 * b3
  }

  function EncodeUint32(n: nat): (r: Bytes)
    ensures |r| == 4
  {
    [n % 256, (n / 0x100) % 256, (n / 0x1_0000) % 256, (n / 0x100_0000) % 256]
  }

  lemma Uint32Inverse(n: nat)
    requires n < TWO_32
    ensures var b := EncodeUint32(n); Uint32(b[0], b[1], b[2], b[3]) == n
  {
    Recompose(n);
    Quotients(n);
  }

  lemma Recompose(n: nat)
    requires n < TWO_32
    ensures n == n % 256 + 0x100 * ((n / 256) % 256) + 0x1_0000 * ((n / 256 / 256) % 256) +
            0x100_0000 * ((n / 256 / 256 / 256) % 256)
  {
    OneDigit(n);
    OneDigit(n / 256);
    OneDigit(n / 256 / 256);
    OneDigit(n / 256 / 256 / 256);
    assert n / 256 / 256 / 256 / 256 == 0;
  }

  lemma OneDigit(n: nat)
    ensures n == n % 256 + 256 * (n / 256)
  {}

  lemma Quotients(n: nat)
    ensures n / 0x1_0000 == n / 256 / 256 && n / 0x100_0000 == n / 256 / 256 / 256
  {}

  lemma Uint32Unique(b0: Byte, b1: Byte, b2: Byte, b3: Byte)
    ensures EncodeUint32(Uint32(b0, b1, b2, b3)) == [b0, b1, b2, b3]
  {
    var n := Uint32(b0, b1, b2, b3);
    Digit(b2, b3);
    Digit(b1, b2 + 256 * b3);
    Digit(b0, b1 + 256 * (b2 + 256 * b3));
    assert n == b0 + 256 * (b1 + 256 * (b2 + 256 * b3));
    Quotients(n);
  }

  lemma Digit(b: Byte, more: nat)
    ensures (b + 256 * more) / 256 == more && (b + 256 * more) % 256 == b
  {}

  /** The value of some bytes, the least first. */
  function LittleEndian(b: Bytes): nat {
    if b == [] then 0 else b[0] + 256 * LittleEndian(b[1..])
  }

  lemma {:induction false} Uint32Means(b: Bytes)
    requires |b| == 4
    ensures Uint32(b[0], b[1], b[2], b[3]) == LittleEndian(b)
  {
    assert b[1..][1..] == b[2..] && b[2..][1..] == b[3..] && b[3..][1..] == [];
    assert LittleEndian([]) == 0;
    var d, c: nat := b[3], b[2] + 256 * (b[3] as int);
    assert LittleEndian(b[3..]) == d && LittleEndian(b[2..]) == c;
    assert LittleEndian(b[1..]) == b[1] + 256 * c;
  }

  function ParseUint32(data: Bytes): (r: Result<nat>)
    ensures r.Ok? ==> |data| >= 4 && r.value < TWO_32
  {
    if |data| < 4 then Err(NoSize(|data|)) else Ok(Uint32(data[0], data[1], data[2], data[3]))
  }

  function ParseString(data: Bytes): (r: Result<Bytes>)
    ensures r.Ok? ==> |data| >= 4 + |r.value|
  {
    match ParseUint32(data)
    case Err(e) => Err(e)
    case Ok(size) => if size > |data| - 4 then Err(TooLong(size, |data| - 4)) else Ok(data[4..4 + size])
  }

  function EncodeString(s: Bytes): (r: Bytes)
    ensures |r| == 4 + |s|
  {
    EncodeUint32(|s|) + s
  }

  /** A string is read back from its encoding, whatever follows it. */
  lemma StringRoundTrip(s: Bytes, rest: Bytes)
    requires |s| < TWO_32
    ensures ParseString(EncodeString(s) + rest) == Ok(s)
  {
    var data := EncodeString(s) + rest;
    Uint32Inverse(|s|);
    assert data[..4] == EncodeUint32(|s|);
    assert data[0] == data[..4][0] && data[1] == data[..4][1] && data[2] == data[..4][2] && data[3] == data[..4][3];
    assert data[4..4 + |s|] == s;
  }

  /** What is read as a string is the encoding of it. */
  lemma StringIsEncoded(data: Bytes)
    requires ParseString(data).Ok?
    ensures var s := ParseString(data).value; data == EncodeString(s) + data[4 + |s|..]
  {
    var s := ParseString(data).value;
    Uint32Unique(data[0], data[1], data[2], data[3]);
    assert data == data[..4] + data[4..4 + |s|] + data[4 + |s|..];
    assert data[..4] == [data[0], data[1], data[2], data[3]];
  }

  // ---- The map ----

  /** The entries in a map's bytes, which start at `at`, and the error that ended the reading if one did. */
  function Entries(body: Bytes, at: nat): (r: (seq<Entry>, Result<()>))
    decreases |body|
  {
    if body == [] then ([], Ok(()))
    else
      match ParseString(body)
      case Err(e) => ([], Err(InKey(at, e)))
      case Ok(key) =>
        var rest := body[4 + |key|..];
        match ParseString(rest)
        case Err(e) => ([], Err(InValue(at + 4 + |key|, e)))
        case Ok(value) =>
          var (more, status) := Entries(rest[4 + |value|..], at + 4 + |key| + 4 + |value|);
          ([(key, value)] + more, status)
  }

  function EncodeEntry(e: Entry): Bytes { EncodeString(e.0) + EncodeString(e.1) }

  function EncodeEntries(entries: seq<Entry>): Bytes {
    if entries == [] then [] else EncodeEntry(entries[0]) + EncodeEntries(entries[1..])
  }

  /** A map as the writer lays it out: the size of its entries in 32 bits, then the entries. */
  function Encode(entries: seq<Entry>): Bytes {
    EncodeUint32(|EncodeEntries(entries)| % TWO_32) + EncodeEntries(entries)
  }

  /** The first value of a key stays. */
  function FirstWins(entries: seq<Entry>): map<Bytes, Bytes> {
    if entries == [] then map[]
    else
      var m := FirstWins(entries[..|entries| - 1]);
      var (key, value) := entries[|entries| - 1];
      if key in m then m else m[key := value]
  }

  /** What `FirstWins` means: each key has the value of its first entry. */
  lemma {:induction false} FirstWinsMeans(entries: seq<Entry>, i: nat)
    requires i < |entries|
    ensures entries[i].0 in FirstWins(entries)
    ensures (forall j :: 0 <= j < i ==> entries[j].0 != entries[i].0) ==>
            FirstWins(entries)[entries[i].0] == entries[i].1
    ensures forall key :: key in FirstWins(entries) ==> exists j :: 0 <= j < |entries| && entries[j].0 == key
  {
    var front := entries[..|entries| - 1];
    if i < |front| { FirstWinsMeans(front, i); }
    FirstWinsKeys(front);
    FirstWinsKeys(entries);
  }

  lemma {:induction false} FirstWinsKeys(entries: seq<Entry>)
    ensures forall key :: key in FirstWins(entries) <==> exists j :: 0 <= j < |entries| && entries[j].0 == key
  {
    if entries != [] {
      var front := entries[..|entries| - 1];
      FirstWinsKeys(front);
      forall key
        ensures key in FirstWins(entries) <==> exists j :: 0 <= j < |entries| && entries[j].0 == key
      {
        if j :| 0 <= j < |entries| && entries[j].0 == key {
          assert j < |front| ==> front[j].0 == key;
        }
      }
    }
  }

  /** The whole parser: what it reports and what the output map holds afterwards. The size wraps in 32 bits. */
  function Parse(data: Bytes, output: map<Bytes, Bytes>): (Result<()>, map<Bytes, Bytes>) {
    match ParseUint32(data)
    case Err(e) => (Err(e), output)
    case Ok(size) =>
      if size > |data| - 4 then (Err(TooLong(size, |data| - 4)), output)
      else
        var end := (size + 4) % TWO_32;
        var (entries, status) := Entries(if end < 4 then [] else data[4..end], 4);
        (status, FirstWins(entries))
  }

  /** One entry, byte by byte: the size of the entries, then the key, then the value. */
  lemma {:induction false} OneEntryIsRead(output: map<Bytes, Bytes>)
    ensures Parse([10, 0, 0, 0, 1, 0, 0, 0, 97, 1, 0, 0, 0, 98], output) == (Ok(()), map[[97] := [98]])
  {
    hide Entries, ParseString, FirstWins;
    var data: Bytes := [10, 0, 0, 0, 1, 0, 0, 0, 97, 1, 0, 0, 0, 98];
    assert data[4..14] == [1, 0, 0, 0, 97, 1, 0, 0, 0, 98];
    OneEntryInBytes();
    OneEntryInMap([97], [98]);
  }

  lemma {:induction false} OneEntryInBytes()
    ensures Entries([1, 0, 0, 0, 97, 1, 0, 0, 0, 98], 4) == ([([97], [98])], Ok(()))
  {
    hide ParseString;
    var body, rest: Bytes := [1, 0, 0, 0, 97, 1, 0, 0, 0, 98], [1, 0, 0, 0, 98];
    var key, value: Bytes := [97], [98];
    TwoStringsInBytes();
    assert body[5..] == rest && rest[5..] == [];
    var none: Bytes := rest[5..];
    assert Entries(none, 14) == ([], Ok(()));
    assert body[4 + |key|..] == rest && rest[4 + |value|..] == none;
    assert [(key, value)] + [] == [(key, value)];
  }

  lemma TwoStringsInBytes()
    ensures ParseString([1, 0, 0, 0, 97, 1, 0, 0, 0, 98]) == Ok([97]) && ParseString([1, 0, 0, 0, 98]) == Ok([98])
  {
    var body, rest: Bytes := [1, 0, 0, 0, 97, 1, 0, 0, 0, 98], [1, 0, 0, 0, 98];
    assert body[4..5] == [97] && rest[4..5] == [98];
  }

  lemma {:induction false} OneEntryInMap(key: Bytes, value: Bytes)
    ensures FirstWins([(key, value)]) == map[key := value]
  {
    assert [(key, value)][..0] == [];
  }

  // ---- Inverses ----

  lemma EntryRoundTrip(key: Bytes, value: Bytes, more: Bytes)
    requires |key| < TWO_32 && |value| < TWO_32
    ensures var body := EncodeEntry((key, value)) + more;
            && |body| == 8 + |key| + |value| + |more| && ParseString(body) == Ok(key)
            && ParseString(body[4 + |key|..]) == Ok(value)
            && body[4 + |key|..][4 + |value|..] == more
  {
    hide EncodeString, ParseString;
    var body := EncodeEntry((key, value)) + more;
    assert body == EncodeString(key) + (EncodeString(value) + more);
    StringRoundTrip(key, EncodeString(value) + more);
    assert body[4 + |key|..] == EncodeString(value) + more;
    StringRoundTrip(value, more);
  }

  lemma {:induction false} EntriesOfEncoding(entries: seq<Entry>, at: nat)
    requires |EncodeEntries(entries)| < TWO_32
    ensures Entries(EncodeEntries(entries), at) == (entries, Ok(()))
    decreases |entries|
  {
    hide EncodeEntry, ParseString;
    if entries != [] {
      var (key, value) := entries[0];
      EntryFits(entries[0], EncodeEntries(entries[1..]));
      EntryRoundTrip(key, value, EncodeEntries(entries[1..]));
      EntriesOfEncoding(entries[1..], at + 4 + |key| + 4 + |value|);
      assert entries == [(key, value)] + entries[1..];
    }
  }

  lemma EntryFits(e: Entry, more: Bytes)
    ensures |EncodeEntry(e) + more| == 8 + |e.0| + |e.1| + |more|
  {}

  /** Bytes that are read without an error are the encoding of the entries read. */
  lemma {:induction false} EntriesAreEncoded(body: Bytes, at: nat)
    requires Entries(body, at).1.Ok?
    ensures EncodeEntries(Entries(body, at).0) == body
    decreases |body|
  {
    hide EncodeString, ParseString, EncodeEntries;
    NothingEncoded();
    if body != [] {
      var key := ParseString(body).value;
      var rest := body[4 + |key|..];
      var value := ParseString(rest).value;
      var last := rest[4 + |value|..];
      StringIsEncoded(body);
      StringIsEncoded(rest);
      EntriesAreEncoded(last, at + 4 + |key| + 4 + |value|);
      OneEncoded(key, value, Entries(last, at + 4 + |key| + 4 + |value|).0);
      assert EncodeString(key) + (EncodeString(value) + last) == EncodeString(key) + EncodeString(value) + last;
    }
  }

  /** An error met at its position: before it are entries, and a key for a value, and what follows it is no string. */
  ghost predicate Located(body: Bytes, at: nat, entries: seq<Entry>, e: Error) {
    match e
    case InKey(p, why) =>
      && at <= p <= at + |body| && ParseString(body[p - at..]) == Err(why)
      && body[..p - at] == EncodeEntries(entries)
    case InValue(p, why) =>
      && at <= p <= at + |body| && ParseString(body[p - at..]) == Err(why)
      && exists key :: body[..p - at] == EncodeEntries(entries) + EncodeString(key)
    case _ => false
  }

  /** Every error says where it was met. */
  lemma {:induction false} ErrorsAreLocated(body: Bytes, at: nat)
    ensures var (entries, status) := Entries(body, at); status.Err? ==> Located(body, at, entries, status.error)
    decreases |body|
  {
    hide EncodeString, ParseString, EncodeEntries;
    NothingEncoded();
    if body != [] {
      if ParseString(body).Err? {
        assert body[0..] == body;
      } else {
        StringIsEncoded(body);
        var key := ParseString(body).value;
        var n := 4 + |key|;
        var rest := body[n..];
        assert body[..n] == EncodeString(key);
        if ParseString(rest).Err? {
          assert body[..n] == [] + EncodeString(key);
        } else {
          hide Located;
          StringIsEncoded(rest);
          var value := ParseString(rest).value;
          var last := rest[4 + |value|..];
          var (more, status) := Entries(last, at + n + 4 + |value|);
          ErrorsAreLocated(last, at + n + 4 + |value|);
          var pre := EncodeString(key) + EncodeString(value);
          assert body == pre + last;
          if status.Err? { LocatedLater(pre, last, at, more, status.error, key, value); }
        }
      }
    }
  }

  lemma {:induction false} LocatedLater(pre: Bytes, last: Bytes, at: nat, more: seq<Entry>, e: Error, key: Bytes,
                                        value: Bytes)
    requires pre == EncodeString(key) + EncodeString(value) && Located(last, at + |pre|, more, e)
    ensures Located(pre + last, at, [(key, value)] + more, e)
  {
    hide EncodeString, ParseString, EncodeEntries;
    OneEncoded(key, value, more);
    var p := e.at;
    var n := p - at - |pre|;
    assert (pre + last)[p - at..] == last[n..] && (pre + last)[..p - at] == pre + last[..n];
    if e.InValue? {
      var k :| last[..n] == EncodeEntries(more) + EncodeString(k);
      assert pre + (EncodeEntries(more) + EncodeString(k)) == pre + EncodeEntries(more) + EncodeString(k);
    }
  }

  lemma {:induction false} NothingEncoded()
    ensures EncodeEntries([]) == []
  {}

  lemma {:induction false} OneEncoded(key: Bytes, value: Bytes, more: seq<Entry>)
    ensures EncodeEntries([(key, value)] + more) == EncodeString(key) + EncodeString(value) + EncodeEntries(more)
  {
    hide EncodeString;
    assert ([(key, value)] + more)[1..] == more;
  }

  lemma SizeOfPrefix(prefix: Bytes, rest: Bytes)
    requires |prefix| == 4
    ensures ParseUint32(prefix + rest) == Ok(Uint32(prefix[0], prefix[1], prefix[2], prefix[3]))
  {}

  lemma {:induction false} SizeOfEncoding(entries: seq<Entry>, rest: Bytes)
    requires |EncodeEntries(entries)| < TWO_32
    ensures ParseUint32(Encode(entries) + rest) == Ok(|EncodeEntries(entries)|)
  {
    hide EncodeUint32, Uint32, ParseUint32, EncodeEntries;
    var n := |EncodeEntries(entries)|;
    Uint32Inverse(n);
    SizeOfPrefix(EncodeUint32(n), EncodeEntries(entries) + rest);
    assert Encode(entries) + rest == EncodeUint32(n) + (EncodeEntries(entries) + rest);
  }

  /**
   For entries whose size fits 32 bits, parsing their encoding gives back the first-wins map,
   whatever follows and whatever the output held, exactly when the size plus its own four bytes fits too.
  */
  lemma {:induction false} ParseInvertsEncode(entries: seq<Entry>, rest: Bytes, output: map<Bytes, Bytes>)
    requires |EncodeEntries(entries)| < TWO_32
    ensures Parse(Encode(entries) + rest, output) == (Ok(()), FirstWins(entries)) <==>
            |EncodeEntries(entries)| + 4 < TWO_32
    ensures |EncodeEntries(entries)| + 4 >= TWO_32 ==> Parse(Encode(entries) + rest, output) == (Ok(()), map[])
  {
    hide ParseUint32, EncodeUint32, FirstWins, Entries, EncodeEntries;
    var body := EncodeEntries(entries);
    var data := Encode(entries) + rest;
    SizeOfEncoding(entries, rest);
    EmptyMaps();
    if |body| + 4 < TWO_32 {
      assert data[4..|body| + 4] == body;
      EntriesOfEncoding(entries, 4);
    } else {
      FirstWinsMeans(entries, 0);
    }
  }

  lemma EmptyMaps()
    ensures EncodeEntries([]) == [] && FirstWins([]) == map[] && Entries([], 4) == ([], Ok(()))
  {}

  /** One entry with an empty value and a key just long enough: the parser reports success and an empty map. */
  lemma {:induction false} LongestKeyIsLost(output: map<Bytes, Bytes>)
    ensures var key: Bytes := seq(TWO_32 - 12, _ => 0);
            var entries := [(key, [])];
            Parse(Encode(entries), output) == (Ok(()), map[]) && FirstWins(entries) == map[key := []]
  {
    hide ParseUint32, EncodeUint32, Parse, EncodeString;
    var key: Bytes := seq(TWO_32 - 12, _ => 0);
    var entries: seq<Entry> := [(key, [])];
    assert entries[1..] == [] && entries[..0] == [];
    EmptyMaps();
    assert |EncodeEntries(entries)| == TWO_32 - 4;
    ParseInvertsEncode(entries, [], output);
    assert Encode(entries) + [] == Encode(entries);
  }

  /** The size field of some bytes, when it is there. */
  function SizeField(data: Bytes): nat
    requires |data| >= 4
  {
    Uint32(data[0], data[1], data[2], data[3])
  }

  /**
   A map is accepted exactly when its size is in bounds and either wraps or covers a whole number of
   entries, which are then the output.
  */
  lemma AcceptedExactlyWhen(data: Bytes, output: map<Bytes, Bytes>)
    ensures Parse(data, output).0.Ok? <==>
            && |data| >= 4 && SizeField(data) <= |data| - 4
            && (SizeField(data) + 4 < TWO_32 ==>
                exists entries :: EncodeEntries(entries) == data[4..4 + SizeField(data)])
    ensures Parse(data, output).0.Ok? && SizeField(data) + 4 < TWO_32 ==>
              forall entries :: EncodeEntries(entries) == data[4..4 + SizeField(data)] ==>
                    Parse(data, output).1 == FirstWins(entries)
  {
    hide Uint32, FirstWins, Entries, EncodeEntries;
    EmptyMaps();
    if |data| >= 4 && SizeField(data) <= |data| - 4 && SizeField(data) + 4 < TWO_32 {
      ReadExactlyWhen(data[4..4 + SizeField(data)], 4);
    }
  }

  lemma {:induction false} ReadExactlyWhen(body: Bytes, at: nat)
    requires |body| < TWO_32
    ensures Entries(body, at).1.Ok? <==> exists entries :: EncodeEntries(entries) == body
    ensures forall entries :: EncodeEntries(entries) == body ==> Entries(body, at) == (entries, Ok(()))
  {
    hide Entries, EncodeEntries;
    if Entries(body, at).1.Ok? {
      EntriesAreEncoded(body, at);
    }
    forall entries | EncodeEntries(entries) == body
      ensures Entries(body, at) == (entries, Ok(()))
    {
      EntriesOfEncoding(entries, at);
    }
  }

  lemma PrefixSlice(data: Bytes, rest: Bytes, end: nat)
    requires 4 <= end <= |data|
    ensures (data + rest)[4..end] == data[..end][4..end]
  {}

  /** Bytes beyond the announced size are never looked at. */
  lemma OnlyThePrefixCounts(data: Bytes, rest: Bytes, output: map<Bytes, Bytes>)
    requires |data| >= 4 && SizeField(data) <= |data| - 4
    ensures Parse(data + rest, output) == Parse(data[..4 + SizeField(data)], output)
  {
    hide Entries, FirstWins;
    var whole, prefix := data + rest, data[..4 + SizeField(data)];
    assert whole[..4] == prefix[..4];
    assert whole[0] == prefix[0] && whole[1] == prefix[1] && whole[2] == prefix[2] && whole[3] == prefix[3];
    assert SizeField(whole) == SizeField(prefix) == SizeField(data);
    if SizeField(data) + 4 < TWO_32 {
      PrefixSlice(data, rest, SizeField(data) + 4);
    } else {
      assert (SizeField(data) + 4) % TWO_32 == SizeField(data) + 4 - TWO_32;
    }
  }

  // ---- The code ----

  method ReadString(data: Bytes) returns (status: Result<()>, text: Bytes)
    ensures match ParseString(data) case Ok(s) => status == Ok(()) && text == s case Err(e) => status == Err(e)
  {
    text := [];
    var size := ParseUint32(data);
    if size.Err? {
      return Err(size.error), text;
    }
    if size.value > |data| - 4 {
      return Err(TooLong(size.value, |data| - 4)), text;
    }
    return Ok(()), data[4..4 + size.value];
  }

  method ParseKeyValueMap(data: Bytes, output0: map<Bytes, Bytes>)
    returns (status: Result<()>, output: map<Bytes, Bytes>)
    ensures (status, output) == Parse(data, output0)
  {
    hide Entries, FirstWins, ParseUint32;
    var size := ParseUint32(data);
    if size.Err? {
      return Err(size.error), output0;
    }
    if size.value > |data| - 4 {
      return Err(TooLong(size.value, |data| - 4)), output0;
    }
    var sizeInBytes := (size.value + 4) % TWO_32;
    EmptyMaps();
    if sizeInBytes < 4 {
      return Ok(()), map[];
    }
    status, output := ReadEntries(data, sizeInBytes);
  }

  /** The loop over the entries up to `sizeInBytes`. */
  method ReadEntries(data: Bytes, sizeInBytes: nat) returns (status: Result<()>, output: map<Bytes, Bytes>)
    requires 4 <= sizeInBytes <= |data|
    ensures var (entries, s) := Entries(data[4..sizeInBytes], 4); status == s && output == FirstWins(entries)
  {
    hide Entries, FirstWins, ParseString;
    output := map[];
    var pos := 4;
    ghost var done: seq<Entry> := [];
    EmptyMaps();
    assert done + Entries(data[4..sizeInBytes], 4).0 == Entries(data[4..sizeInBytes], 4).0;
    while pos < sizeInBytes
      invariant 4 <= pos <= sizeInBytes && output == FirstWins(done)
      invariant var (more, s) := Entries(data[pos..sizeInBytes], pos);
                Entries(data[4..sizeInBytes], 4) == (done + more, s)
      decreases sizeInBytes - pos
    {
      EntriesStep(data, pos, sizeInBytes);
      var s, key := ReadString(data[pos..sizeInBytes]);
      if s.Err? {
        assert done + [] == done;
        return Err(InKey(pos, s.error)), output;
      }
      pos := pos + 4 + |key|;
      var value;
      s, value := ReadString(data[pos..sizeInBytes]);
      if s.Err? {
        assert done + [] == done;
        return Err(InValue(pos, s.error)), output;
      }
      pos := pos + 4 + |value|;
      FirstWinsSteps(done, (key, value));
      ghost var more := Entries(data[pos..sizeInBytes], pos).0;
      assert done + ([(key, value)] + more) == done + [(key, value)] + more;
      done := done + [(key, value)];
      if key !in output {
        output := output[key := value];
      }
    }
    assert data[pos..sizeInBytes] == [];
    NoEntries(pos);
    assert done + [] == done;
    status := Ok(());
  }

  lemma {:induction false} NoEntries(at: nat)
    ensures Entries([], at) == ([], Ok(()))
  {}

  lemma EntriesStep(data: Bytes, pos: nat, end: nat)
    requires pos < end <= |data|
    ensures match ParseString(data[pos..end])
            case Err(e) => Entries(data[pos..end], pos) == ([], Err(InKey(pos, e)))
            case Ok(key) =>
              var at := pos + 4 + |key|;
              at <= end &&
              match ParseString(data[at..end])
              case Err(e) => Entries(data[pos..end], pos) == ([], Err(InValue(at, e)))
              case Ok(value) =>
                var next := at + 4 + |value|;
                && next <= end
                && var (more, status) := Entries(data[next..end], next);
                Entries(data[pos..end], pos) == ([(key, value)] + more, status)
  {
    hide ParseString;
    var body := data[pos..end];
    if ParseString(body).Ok? {
      var key := ParseString(body).value;
      var at := pos + 4 + |key|;
      assert body[4 + |key|..] == data[at..end];
      if ParseString(data[at..end]).Ok? {
        var value := ParseString(data[at..end]).value;
        assert data[at..end][4 + |value|..] == data[at + 4 + |value|..end];
      }
    }
  }

  lemma {:induction false} FirstWinsSteps(done: seq<Entry>, e: Entry)
    ensures FirstWins([]) == map[]
    ensures FirstWins(done + [e]) == if e.0 in FirstWins(done) then FirstWins(done) else FirstWins(done)[e.0 := e.1]
  {
    assert (done + [e])[..|done|] == done;
  }

  /** The size the writer announces, truncated to 32 bits. */
  method KeyValueMapSize(entries: seq<Entry>) returns (size: nat)
    ensures size == |EncodeEntries(entries)| % TWO_32
  {
    var sum := 0;
    for i := 0 to |entries|
      invariant |EncodeEntries(entries)| == sum + |EncodeEntries(entries[i..])|
    {
      assert entries[i..][1..] == entries[i + 1..];
      sum := sum + 4 + |entries[i].0| + 4 + |entries[i].1|;
    }
    size := sum % TWO_32;
  }
}
