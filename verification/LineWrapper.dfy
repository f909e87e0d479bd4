/**
 The line wrapper of the usage printer: it cuts UTF-8 text into pieces that fit a column and passes
 them through a ring buffer of sixteen slots. The pieces rebuild the text, fit the width, and come
 out in the order in which they were cut.
*/
module LineWrapping {

  type Byte = b: int | 0 <= b < 256

  const SPACE: Byte := 32

  // ---- Characters ----

  predicate Continuation(b: Byte) { 0x80 <= b <= 0xbf }

  function Run(s: seq<Byte>): (n: nat)
    ensures n <= |s| && (forall i :: 0 <= i < n ==> Continuation(s[i])) && (n < |s| ==> !Continuation(s[n]))
  {
    if s == [] || !Continuation(s[0]) then 0 else 1 + Run(s[1..])
  }

  /** Bytes of the first character: a start byte above 0xC1 takes all continuation bytes that follow. */
  function CharBytes(s: seq<Byte>): (n: nat)
    requires s != []
    ensures 1 <= n <= |s|
  {
    if s[0] > 0xc1 then 1 + Run(s[1..]) else 1
  }

  /**
   The start byte without its length bits. For 0xFF the source's count of leading zeros is undefined; `ff` is what it
   yields.
  */
  function LeadBits(b: Byte, ff: Byte): (ch: nat)
    requires b > 0xc1
    ensures ch < 256
  {
    if b < 0xe0 then b - 0xc0
    else if b < 0xf0 then b - 0xe0
    else if b < 0xf8 then b - 0xf0
    else if b < 0xfc then b - 0xf8
    else if b < 0xfe then b - 0xfc
    else if b == 0xfe then 0
    else ff
  }

  /** All ones from the highest set bit down: `(unsigned)-1 >> clz(v)`. */
  function OnesBelow(v: bv8): bv8 {
    var w := v | (v >> 1);
    var y := w | (w >> 2);
    y | (y >> 4)
  }

  /** The ranges above are what masking with the inverted start byte leaves. */
  lemma LeadBitsAreMasked(b: bv8)
    requires 0xc1 < b < 0xff
    ensures LeadBits(b as int, 0) == (b & OnesBelow(b ^ 0xff)) as int
  {
    assert b < 0xe0 ==> b & OnesBelow(b ^ 0xff) == b - 0xc0;
    assert 0xe0 <= b < 0xf0 ==> b & OnesBelow(b ^ 0xff) == b - 0xe0;
    assert 0xf0 <= b < 0xf8 ==> b & OnesBelow(b ^ 0xff) == b - 0xf0;
    assert 0xf8 <= b < 0xfc ==> b & OnesBelow(b ^ 0xff) == b - 0xf8;
    assert 0xfc <= b < 0xfe ==> b & OnesBelow(b ^ 0xff) == b - 0xfc;
    assert b == 0xfe ==> b & OnesBelow(b ^ 0xff) == 0;
  }

  /** Six more bits a byte, in 32-bit arithmetic. */
  function AddBits(ch: nat, s: seq<Byte>): nat
    requires forall i :: 0 <= i < |s| ==> Continuation(s[i])
    decreases |s|
  {
    if s == [] then ch
    else
      assert Continuation(s[0]);
      AddBits((ch * 64) % 0x1_0000_0000 + (s[0] as int - 0x80), s[1..])
  }

  predicate IsWideChar(ch: nat) {
    && ch != 0x303f
    && (0x1100 <= ch <= 0x115f || 0x2329 <= ch <= 0x232a || 0x2e80 <= ch <= 0xa4c6
        || 0xa960 <= ch <= 0xa97c || 0xac00 <= ch <= 0xd7fb || 0xf900 <= ch <= 0xfaff
        || 0xfe10 <= ch <= 0xfe6b || 0xff01 <= ch <= 0xff60 || 0xffe0 <= ch <= 0xffe6
        || 0x1b000 <= ch)
  }

  /** Screen columns of the first character. */
  function CharColumns(s: seq<Byte>, ff: Byte): (c: nat)
    requires s != []
    ensures 1 <= c <= 2 && c <= CharBytes(s)
  {
    if s[0] > 0xc1 then
      var tail := s[1..CharBytes(s)];
      if IsWideChar(AddBits(LeadBits(s[0], ff), tail)) then
        assert tail == [] ==> AddBits(LeadBits(s[0], ff), tail) < 256;
        2
      else 1
    else 1
  }

  /** Screen columns of a text. */
  function Columns(s: seq<Byte>, ff: Byte): nat
    decreases |s|
  {
    if s == [] then 0 else CharColumns(s, ff) + Columns(s[CharBytes(s)..], ff)
  }

  /** The longest run of whole characters from the start that fits `width` columns. */
  function Fit(s: seq<Byte>, width: int, ff: Byte): (n: nat)
    ensures n <= |s|
    decreases |s|
  {
    if s == [] || width <= 0 || CharColumns(s, ff) > width then 0
    else CharBytes(s) + Fit(s[CharBytes(s)..], width - CharColumns(s, ff), ff)
  }

  lemma {:induction false} ColumnsAtMostBytes(s: seq<Byte>, ff: Byte)
    ensures Columns(s, ff) <= |s|
    decreases |s|
  {
    if s != [] { ColumnsAtMostBytes(s[CharBytes(s)..], ff); }
  }

  lemma {:induction false} RunPrefix(s: seq<Byte>, m: nat)
    requires Run(s) <= m <= |s|
    ensures Run(s[..m]) == Run(s)
    decreases |s|
  {
    if s != [] && Continuation(s[0]) {
      assert s[..m][1..] == s[1..][..m - 1];
      RunPrefix(s[1..], m - 1);
    }
  }

  /** Cutting at or after the end of the first character does not change it. */
  lemma CharPrefix(s: seq<Byte>, m: nat, ff: Byte)
    requires s != [] && CharBytes(s) <= m <= |s|
    ensures CharBytes(s[..m]) == CharBytes(s) && CharColumns(s[..m], ff) == CharColumns(s, ff)
  {
    assert s[..m][1..] == s[1..][..m - 1];
    if s[0] > 0xc1 { RunPrefix(s[1..], m - 1); }
    assert s[..m][1..CharBytes(s)] == s[1..CharBytes(s)];
  }

  lemma {:induction false} ColumnsFirst(s: seq<Byte>, m: nat, ff: Byte)
    requires s != [] && CharBytes(s) <= m <= |s|
    ensures Columns(s[..m], ff) == CharColumns(s, ff) + Columns(s[CharBytes(s)..][..m - CharBytes(s)], ff)
  {
    CharPrefix(s, m, ff);
    assert s[..m][CharBytes(s)..] == s[CharBytes(s)..][..m - CharBytes(s)];
  }

  /** A cut before the first character that does not fit, or earlier before any character, fits. */
  lemma {:induction false} PrefixFits(s: seq<Byte>, width: nat, ff: Byte, i: nat)
    requires i <= Fit(s, width, ff) && (i < |s| ==> i == Fit(s, width, ff) || !Continuation(s[i]))
    ensures Columns(s[..i], ff) <= width
    decreases |s|
  {
    hide CharColumns, CharBytes;
    if i > 0 {
      var n := CharBytes(s);
      if i < n {
        InsideCharacter(s, i);
      } else {
        ColumnsFirst(s, i, ff);
        PrefixFits(s[n..], width - CharColumns(s, ff), ff, i - n);
      }
    }
  }

  lemma InsideCharacter(s: seq<Byte>, i: nat)
    requires s != [] && 0 < i < CharBytes(s)
    ensures Continuation(s[i])
  {
    assert s[i] == s[1..][i - 1];
  }

  /** Everything fits exactly when no character is left out. */
  lemma {:induction false} FitWhole(s: seq<Byte>, width: nat, ff: Byte)
    ensures Fit(s, width, ff) == |s| <==> Columns(s, ff) <= width
    decreases |s|
  {
    if s != [] && CharColumns(s, ff) <= width && width > 0 {
      FitWhole(s[CharBytes(s)..], width - CharColumns(s, ff), ff);
    }
  }

  lemma {:induction false} FitProgress(s: seq<Byte>, width: nat, ff: Byte)
    requires s != [] && width >= 2
    ensures Fit(s, width, ff) >= 1
  {}

  // ---- Cutting a text ----

  datatype Break = AtSpace | Hard | End

  /** A piece and how it was separated from what follows: at a space that is dropped, within a word, or by the end. */
  datatype Cut = Cut(piece: seq<Byte>, how: Break)

  /** The last space at or before `i`, or -1. */
  function LastSpace(s: seq<Byte>, i: int): (r: int)
    requires -1 <= i < |s|
    ensures -1 <= r <= i && (r >= 0 ==> s[r] == SPACE) && forall j :: r < j <= i ==> s[j] != SPACE
    decreases i + 1
  {
    if i < 0 || s[i] == SPACE then i else LastSpace(s, i - 1)
  }

  /** The first piece of a text, and how much of the text it and its break use up. */
  function FirstCut(s: seq<Byte>, width: nat, ff: Byte): (r: (Cut, nat))
    requires width >= 2 && s != []
    ensures 1 <= r.1 <= |s|
  {
    var maxi := Fit(s, width, ff);
    if |s| <= width || maxi == |s| then (Cut(s, End), |s|)
    else
      FitProgress(s, width, ff);
      var i := LastSpace(s, maxi);
      if i >= 0 then (Cut(s[..i], AtSpace), i + 1) else (Cut(s[..maxi], Hard), maxi)
  }

  lemma FirstCutLosesNothing(s: seq<Byte>, width: nat, ff: Byte)
    requires width >= 2 && s != []
    ensures var (cut, used) := FirstCut(s, width, ff);
            && s == cut.piece + (if cut.how == AtSpace then [SPACE] else []) + s[used..]
            && (cut.how == End <==> cut.piece == s) && (cut.how == End ==> used == |s|)
  {
    hide Fit;
    var maxi := Fit(s, width, ff);
    if maxi < |s| {
      var j := LastSpace(s, maxi);
      assert j >= 0 ==> s[..j] + [SPACE] == s[..j + 1];
    }
  }

  function Split(s: seq<Byte>, width: nat, ff: Byte): seq<Cut>
    requires width >= 2
    decreases |s|
  {
    if s == [] then []
    else
      var (cut, used) := FirstCut(s, width, ff);
      [cut] + Split(s[used..], width, ff)
  }

  /** Puts the pieces back together, one space for each cut at a space. */
  function Rebuild(cuts: seq<Cut>): seq<Byte>
    decreases |cuts|
  {
    if cuts == [] then []
    else cuts[0].piece + (if cuts[0].how == AtSpace then [SPACE] else []) + Rebuild(cuts[1..])
  }

  lemma {:induction false} SplitRebuilds(s: seq<Byte>, width: nat, ff: Byte)
    requires width >= 2
    ensures Rebuild(Split(s, width, ff)) == s
    decreases |s|
  {
    hide FirstCut;
    if s != [] {
      var (cut, used) := FirstCut(s, width, ff);
      FirstCutLosesNothing(s, width, ff);
      SplitRebuilds(s[used..], width, ff);
      RebuildFirst(cut, Split(s[used..], width, ff));
    }
  }

  lemma {:induction false} RebuildFirst(cut: Cut, rest: seq<Cut>)
    ensures Rebuild([cut] + rest) == cut.piece + (if cut.how == AtSpace then [SPACE] else []) + Rebuild(rest)
  {
    assert ([cut] + rest)[1..] == rest;
  }

  predicate Fits(cuts: seq<Cut>, width: nat, ff: Byte) {
    forall k :: 0 <= k < |cuts| ==> Columns(cuts[k].piece, ff) <= width
  }

  lemma {:induction false} FirstCutFits(s: seq<Byte>, width: nat, ff: Byte)
    requires width >= 2 && s != []
    ensures Columns(FirstCut(s, width, ff).0.piece, ff) <= width
  {
    var maxi := Fit(s, width, ff);
    if |s| <= width || maxi == |s| {
      ColumnsAtMostBytes(s, ff);
      FitWhole(s, width, ff);
    } else {
      var i := LastSpace(s, maxi);
      PrefixFits(s, width, ff, if i >= 0 then i else maxi);
    }
  }

  /** Every piece is at most `width` columns wide. */
  lemma {:induction false} SplitFits(s: seq<Byte>, width: nat, ff: Byte)
    requires width >= 2
    ensures Fits(Split(s, width, ff), width, ff)
    decreases |s|
  {
    hide FirstCut, Columns;
    if s != [] {
      FirstCutFits(s, width, ff);
      SplitFits(s[FirstCut(s, width, ff).1..], width, ff);
    }
  }

  lemma {:induction false} NextTooWide(s: seq<Byte>, width: nat, ff: Byte)
    requires Fit(s, width, ff) < |s|
    ensures var maxi := Fit(s, width, ff); Columns(s[..maxi + CharBytes(s[maxi..])], ff) > width
    decreases |s|
  {
    hide CharColumns, CharBytes;
    var n := CharBytes(s);
    if width <= 0 || CharColumns(s, ff) > width {
      assert s[0..] == s;
      ColumnsFirst(s, n, ff);
    } else {
      var rest := s[n..];
      var fit := Fit(rest, width - CharColumns(s, ff), ff);
      NextTooWide(rest, width - CharColumns(s, ff), ff);
      assert rest[fit..] == s[n + fit..];
      ColumnsFirst(s, n + fit + CharBytes(rest[fit..]), ff);
    }
  }

  /** A cut within a word is made only where no space could be used, and only before a character too many. */
  lemma {:induction false} HardCutIsNeeded(s: seq<Byte>, width: nat, ff: Byte)
    requires width >= 2 && s != [] && FirstCut(s, width, ff).0.how == Hard
    ensures var (cut, used) := FirstCut(s, width, ff);
            && used < |s| && SPACE !in s[..used + 1]
            && Columns(s[..used + CharBytes(s[used..])], ff) > width
  {
    hide Columns, Fit;
    var maxi := Fit(s, width, ff);
    FitProgress(s, width, ff);
    NextTooWide(s, width, ff);
    assert s[..maxi + 1] == s[..maxi] + [s[maxi]];
  }

  // ---- Where words are cut ----

  /** A position between characters, counted from the start of the text. */
  predicate Boundary(s: seq<Byte>, p: nat)
    decreases |s|
  {
    p == 0 || (s != [] && p >= CharBytes(s) && Boundary(s[CharBytes(s)..], p - CharBytes(s)))
  }

  /** Every continuation byte belongs to a start byte: no character begins with one. */
  predicate NoStray(s: seq<Byte>)
    decreases |s|
  {
    s == [] || (!Continuation(s[0]) && NoStray(s[CharBytes(s)..]))
  }

  lemma {:induction false} FitIsBoundary(s: seq<Byte>, width: int, ff: Byte)
    ensures Boundary(s, Fit(s, width, ff))
    decreases |s|
  {
    hide CharBytes, CharColumns;
    if !(s == [] || width <= 0 || CharColumns(s, ff) > width) {
      FitIsBoundary(s[CharBytes(s)..], width - CharColumns(s, ff), ff);
    }
  }

  /** A byte that continues no character is where one starts. */
  lemma {:induction false} StartIsBoundary(s: seq<Byte>, p: nat)
    requires p < |s| && !Continuation(s[p])
    ensures Boundary(s, p)
    decreases |s|
  {
    hide CharBytes;
    if p > 0 {
      if p < CharBytes(s) {
        InsideCharacter(s, p);
      } else {
        StartIsBoundary(s[CharBytes(s)..], p - CharBytes(s));
      }
    }
  }

  lemma {:induction false} BoundaryJoins(s: seq<Byte>, p: nat, q: nat)
    requires p <= |s| && Boundary(s, p) && Boundary(s[p..], q)
    ensures Boundary(s, p + q)
    decreases |s|
  {
    hide CharBytes, Boundary;
    BoundaryStep(s, p);
    BoundaryStep(s, p + q);
    if p == 0 {
      assert s[0..] == s;
    } else {
      var n := CharBytes(s);
      assert s[n..][p - n..] == s[p..];
      BoundaryJoins(s[n..], p - n, q);
    }
  }

  lemma {:induction false} BoundaryStep(s: seq<Byte>, p: nat)
    ensures Boundary(s, p) <==>
            p == 0 || (s != [] && p >= CharBytes(s) && Boundary(s[CharBytes(s)..], p - CharBytes(s)))
  {}

  lemma {:induction false} BoundaryBound(s: seq<Byte>, p: nat)
    requires Boundary(s, p)
    ensures p <= |s|
    decreases |s|
  {
    if p > 0 { BoundaryBound(s[CharBytes(s)..], p - CharBytes(s)); }
  }

  lemma {:induction false} ColumnsJoin(s: seq<Byte>, p: nat, q: nat, ff: Byte)
    requires p + q <= |s| && Boundary(s, p)
    ensures Columns(s[..p + q], ff) == Columns(s[..p], ff) + Columns(s[p..][..q], ff)
    decreases |s|
  {
    hide CharBytes, CharColumns;
    if p == 0 {
      assert s[0..] == s;
    } else {
      var n := CharBytes(s);
      ColumnsFirst(s, p + q, ff);
      ColumnsFirst(s, p, ff);
      ColumnsJoin(s[n..], p - n, q, ff);
      assert s[n..][p - n..] == s[p..];
    }
  }

  /** Characters fill a width up to a boundary exactly when the width is that of the text before it. */
  lemma {:induction false} FitReaches(s: seq<Byte>, p: nat, ff: Byte)
    requires Boundary(s, p) && p <= |s|
    ensures Fit(s, Columns(s[..p], ff), ff) == p
    decreases |s|
  {
    hide CharBytes, CharColumns;
    if p > 0 {
      ColumnsFirst(s, p, ff);
      FitReaches(s[CharBytes(s)..], p - CharBytes(s), ff);
    }
  }

  lemma {:induction false} FitStaysBelow(s: seq<Byte>, width: nat, p: nat, ff: Byte)
    requires Boundary(s, p) && p <= |s| && width <= Columns(s[..p], ff)
    ensures Fit(s, width, ff) <= p
    decreases |s|
  {
    hide CharBytes, CharColumns;
    if p > 0 && width > 0 && CharColumns(s, ff) <= width {
      ColumnsFirst(s, p, ff);
      FitStaysBelow(s[CharBytes(s)..], width - CharColumns(s, ff), p - CharBytes(s), ff);
    }
  }

  /** Where the `k`-th piece of a text ends. */
  function CutAt(s: seq<Byte>, width: nat, ff: Byte, k: nat): (at: nat)
    requires width >= 2 && k < |Split(s, width, ff)|
    ensures at <= |s|
    decreases |s|
  {
    var (cut, used) := FirstCut(s, width, ff);
    if k == 0 then |cut.piece| else used + CutAt(s[used..], width, ff, k - 1)
  }

  /** A cut within a word that separates a byte from one that should continue it. */
  predicate CutsStray(s: seq<Byte>, width: nat, ff: Byte, k: nat)
    requires width >= 2 && k < |Split(s, width, ff)|
  {
    && Split(s, width, ff)[k].how == Hard
    && CutAt(s, width, ff, k) < |s| && Continuation(s[CutAt(s, width, ff, k)])
  }

  /** A word that starts at `pos` has, behind at least two columns, a continuation byte where a character starts. */
  predicate LateStrayAt(s: seq<Byte>, pos: nat, p: nat, ff: Byte) {
    && pos <= |s| && (pos == 0 || s[pos - 1] == SPACE)
    && p < |s[pos..]| && Boundary(s[pos..], p) && Continuation(s[pos..][p])
    && SPACE !in s[pos..][..p] && Columns(s[pos..][..p], ff) >= 2
  }

  ghost predicate LateStray(s: seq<Byte>, ff: Byte) {
    exists pos: nat, p: nat :: LateStrayAt(s, pos, p, ff)
  }

  lemma {:induction false} BoundaryHasNoStray(s: seq<Byte>, p: nat)
    requires NoStray(s) && Boundary(s, p) && p < |s|
    ensures !Continuation(s[p]) && NoStray(s[p..])
    decreases |s|
  {
    hide CharBytes;
    if p == 0 {
      assert s[0..] == s;
    } else {
      var n := CharBytes(s);
      assert s[n..][p - n..] == s[p..];
      BoundaryHasNoStray(s[n..], p - n);
    }
  }

  /** In well-formed text no word is cut within a character. */
  lemma {:induction false} WellFormedHasNoLateStray(s: seq<Byte>, ff: Byte)
    requires NoStray(s)
    ensures !LateStray(s, ff)
  {
    hide CharBytes, NoStray, Columns;
    forall pos: nat, p: nat | LateStrayAt(s, pos, p, ff)
      ensures false
    {
      if pos > 0 {
        StartIsBoundary(s, pos - 1);
        SpaceIsAlone(s, pos - 1);
      }
      BoundaryJoins(s, pos, p);
      assert s[pos + p] == s[pos..][p];
      BoundaryHasNoStray(s, pos + p);
    }
  }

  lemma {:induction false} SpaceIsAlone(s: seq<Byte>, p: nat)
    requires p < |s| && s[p] == SPACE && Boundary(s, p)
    ensures Boundary(s, p + 1)
  {
    assert CharBytes(s[p..]) == 1;
    assert Boundary(s[p..], 1);
    BoundaryJoins(s, p, 1);
  }

  /** A width at which the first cut is made right before a late stray byte of the first word. */
  lemma {:induction false} FirstWordIsCut(s: seq<Byte>, p: nat, ff: Byte)
    requires LateStrayAt(s, 0, p, ff)
    ensures Split(s, Columns(s[..p], ff), ff) != [] && CutsStray(s, Columns(s[..p], ff), ff, 0)
  {
    hide Columns, CharBytes, Boundary, Fit;
    assert s[0..] == s;
    FitReaches(s, p, ff);
    ColumnsAtMostBytes(s[..p], ff);
    assert s[p] != SPACE;
    var i := LastSpace(s, p);
    assert forall j :: 0 <= j < p ==> s[..p][j] == s[j];
  }

  /** Up to a later word the cuts made at such a width leave the word whole. */
  lemma {:induction false} NextCutLeavesWord(s: seq<Byte>, pos: nat, p: nat, ff: Byte)
    requires pos > 0 && LateStrayAt(s, pos, p, ff)
    ensures s != [] && FirstCut(s, Columns(s[pos..][..p], ff), ff).1 <= pos
  {
    hide Columns, CharBytes, Boundary, Fit;
    var width := Columns(s[pos..][..p], ff);
    StartIsBoundary(s, pos - 1);
    SpaceIsAlone(s, pos - 1);
    BoundaryJoins(s, pos, p);
    ColumnsJoin(s, pos, p, ff);
    FitStaysBelow(s, width, pos + p, ff);
    ColumnsAtMostBytes(s[pos..][..p], ff);
    var maxi := Fit(s, width, ff);
    FitProgress(s, width, ff);
    if maxi >= pos {
      forall j | pos <= j <= maxi
        ensures s[j] != SPACE
      {
        assert s[j] == s[pos..][j - pos];
        if j < pos + p { assert s[pos..][..p][j - pos] == s[j]; }
      }
    }
  }

  lemma {:induction false} LateStrayMoves(s: seq<Byte>, used: nat, pos: nat, p: nat, ff: Byte)
    requires used <= pos && LateStrayAt(s, pos, p, ff)
    ensures LateStrayAt(s[used..], pos - used, p, ff)
  {
    hide Columns, Boundary;
    assert s[used..][pos - used..] == s[pos..];
  }

  /** A late stray byte is cut off at some width. */
  lemma {:induction false} LateStrayIsCut(s: seq<Byte>, pos: nat, p: nat, ff: Byte) returns (k: nat)
    requires LateStrayAt(s, pos, p, ff)
    ensures var width := Columns(s[pos..][..p], ff);
            k < |Split(s, width, ff)| && CutsStray(s, width, ff, k)
    decreases |s|
  {
    hide Columns, Boundary, FirstCut;
    var width := Columns(s[pos..][..p], ff);
    if pos == 0 {
      assert s[0..] == s;
      FirstWordIsCut(s, p, ff);
      k := 0;
    } else {
      NextCutLeavesWord(s, pos, p, ff);
      var used := FirstCut(s, width, ff).1;
      LateStrayMoves(s, used, pos, p, ff);
      assert s[used..][pos - used..] == s[pos..];
      k := LateStrayIsCut(s[used..], pos - used, p, ff);
      LaterCut(s, width, ff, k);
      k := k + 1;
    }
  }

  lemma {:induction false} LaterCut(s: seq<Byte>, width: nat, ff: Byte, k: nat)
    requires width >= 2 && s != []
    requires var used := FirstCut(s, width, ff).1; k < |Split(s[used..], width, ff)|
    ensures k + 1 < |Split(s, width, ff)|
    ensures CutsStray(s, width, ff, k + 1) <==> CutsStray(s[FirstCut(s, width, ff).1..], width, ff, k)
  {
    hide FirstCut;
    var used := FirstCut(s, width, ff).1;
    var at := CutAt(s[used..], width, ff, k);
    assert at < |s[used..]| ==> s[used + at] == s[used..][at];
  }

  /**
   The part of a text from `q` on is being wrapped: `q` lies between two characters of the word that starts at `pos`.
  */
  predicate Reached(s: seq<Byte>, pos: nat, q: nat) {
    && pos <= q <= |s| && (pos == 0 || s[pos - 1] == SPACE)
    && SPACE !in s[pos..q] && Boundary(s[pos..], q - pos)
  }

  /** The next piece starts in the same word, or at the start of another. */
  lemma {:induction false} NextReached(s: seq<Byte>, pos: nat, q: nat, width: nat, ff: Byte) returns (next: nat)
    requires width >= 2 && Reached(s, pos, q) && q < |s| && FirstCut(s[q..], width, ff).0.how != End
    ensures Reached(s, next, q + FirstCut(s[q..], width, ff).1)
  {
    hide Boundary, Fit, Columns;
    var (cut, used) := FirstCut(s[q..], width, ff);
    FirstCutLosesNothing(s[q..], width, ff);
    if cut.how == Hard {
      HardCutReaches(s, pos, q, width, ff);
      next := pos;
    } else {
      assert s[q + used - 1] == s[q..][used - 1] == SPACE;
      next := q + used;
      NothingReached(s, next);
    }
  }

  lemma {:induction false} MoreFollows(s: seq<Byte>, width: nat, ff: Byte, k: nat)
    requires width >= 2 && 0 < k < |Split(s, width, ff)|
    ensures s != [] && FirstCut(s, width, ff).0.how != End && k - 1 < |Split(s[FirstCut(s, width, ff).1..], width, ff)|
  {
    hide FirstCut;
    FirstCutLosesNothing(s, width, ff);
  }

  /** Every cut before a stray byte is one behind at least two columns of its word. */
  lemma {:induction false} CutIsLate(s: seq<Byte>, pos: nat, q: nat, width: nat, ff: Byte, k: nat)
    requires width >= 2 && Reached(s, pos, q) && k < |Split(s[q..], width, ff)| && CutsStray(s[q..], width, ff, k)
    ensures LateStray(s, ff)
    decreases |s| - q
  {
    hide FirstCut, CutsStray, LateStray, Split, Boundary;
    if k == 0 {
      FirstCutIsLate(s, pos, q, width, ff);
    } else {
      MoreFollows(s[q..], width, ff, k);
      var used := FirstCut(s[q..], width, ff).1;
      var next := NextReached(s, pos, q, width, ff);
      LaterCut(s[q..], width, ff, k - 1);
      TailOfTail(s, q, used);
      CutIsLate(s, next, q + used, width, ff, k - 1);
    }
  }

  lemma TailOfTail(s: seq<Byte>, q: nat, used: nat)
    requires q + used <= |s|
    ensures s[q..][used..] == s[q + used..]
  {}

  lemma {:induction false} NothingReached(s: seq<Byte>, q: nat)
    requires q <= |s| && (q == 0 || s[q - 1] == SPACE)
    ensures Reached(s, q, q)
  {}

  lemma {:induction false} HardCutReaches(s: seq<Byte>, pos: nat, q: nat, width: nat, ff: Byte)
    requires width >= 2 && Reached(s, pos, q) && q < |s| && FirstCut(s[q..], width, ff).0.how == Hard
    ensures var used := FirstCut(s[q..], width, ff).1;
            used == Fit(s[q..], width, ff) < |s| - q && Reached(s, pos, q + used)
  {
    hide Boundary, Fit, Columns;
    var used := FirstCut(s[q..], width, ff).1;
    FitIsBoundary(s[q..], width, ff);
    assert s[pos..][q - pos..] == s[q..];
    BoundaryJoins(s[pos..], q - pos, used);
    assert s[pos..q + used] == s[pos..q] + s[q..][..used];
  }

  lemma {:induction false} FirstCutIsLate(s: seq<Byte>, pos: nat, q: nat, width: nat, ff: Byte)
    requires width >= 2 && Reached(s, pos, q) && Split(s[q..], width, ff) != [] && CutsStray(s[q..], width, ff, 0)
    ensures LateStray(s, ff)
  {
    hide Boundary, Fit, Columns;
    HardCutReaches(s, pos, q, width, ff);
    var used := FirstCut(s[q..], width, ff).1;
    StrayStopsFullLine(s[q..], width, ff);
    SameBytes(s, pos, q, used);
    ColumnsJoin(s[pos..], q - pos, used, ff);
    var p := q + used - pos;
    assert LateStrayAt(s, pos, p, ff);
  }

  lemma SameBytes(s: seq<Byte>, pos: nat, q: nat, used: nat)
    requires pos <= q && q + used < |s|
    ensures s[pos..][q - pos..] == s[q..]
    ensures s[pos..][..q + used - pos] == s[pos..q + used] && s[pos..][q + used - pos] == s[q..][used]
  {
    var t := s[pos..];
    assert forall k :: 0 <= k < |t| ==> t[k] == s[pos + k];
    assert forall k :: 0 <= k < |s[q..]| ==> t[q - pos..][k] == s[q..][k];
    var x, y := t[..q + used - pos], s[pos..q + used];
    assert forall k :: 0 <= k < |x| ==> x[k] == y[k];
  }

  /** A byte of one column does not fit only on a line that is full. */
  lemma {:induction false} StrayStopsFullLine(s: seq<Byte>, width: nat, ff: Byte)
    requires Fit(s, width, ff) < |s| && Continuation(s[Fit(s, width, ff)])
    ensures Columns(s[..Fit(s, width, ff)], ff) == width
    decreases |s|
  {
    hide CharBytes;
    if width > 0 && CharColumns(s, ff) <= width {
      var n := CharBytes(s);
      ColumnsFirst(s, Fit(s, width, ff), ff);
      StrayStopsFullLine(s[n..], width - CharColumns(s, ff), ff);
    }
  }

  /** At every width words are cut between characters exactly when no word has a late stray byte. */
  lemma {:induction false} CutsBetweenCharactersExactlyWhen(s: seq<Byte>, ff: Byte)
    ensures (forall width: nat, k: nat :: width >= 2 && k < |Split(s, width, ff)| ==> !CutsStray(s, width, ff, k))
            <==> !LateStray(s, ff)
  {
    hide CutsStray, LateStrayAt, Split;
    if LateStray(s, ff) {
      var pos: nat, p: nat :| LateStrayAt(s, pos, p, ff);
      WideEnough(s, pos, p, ff);
      var k := LateStrayIsCut(s, pos, p, ff);
    } else {
      forall width: nat, k: nat | width >= 2 && k < |Split(s, width, ff)|
        ensures !CutsStray(s, width, ff, k)
      {
        if CutsStray(s, width, ff, k) {
          assert s[0..] == s;
          NothingReached(s, 0);
          CutIsLate(s, 0, 0, width, ff, k);
        }
      }
    }
  }

  lemma {:induction false} WideEnough(s: seq<Byte>, pos: nat, p: nat, ff: Byte)
    requires LateStrayAt(s, pos, p, ff)
    ensures pos <= |s| && p <= |s[pos..]| && Columns(s[pos..][..p], ff) >= 2
  {}

  /** Well-formed text: every cut within a word is before a byte that starts a character. */
  lemma {:induction false} WellFormedIsCutBetweenCharacters(s: seq<Byte>, width: nat, ff: Byte, k: nat)
    requires NoStray(s) && width >= 2 && k < |Split(s, width, ff)|
    ensures !CutsStray(s, width, ff, k)
  {
    hide CutsStray, NoStray, LateStray;
    WellFormedHasNoLateStray(s, ff);
    CutsBetweenCharactersExactlyWhen(s, ff);
  }

  /** Two letters and a stray byte at width 2: the cut is made before the continuation byte. */
  lemma {:induction false} StrayByteIsCutOff(ff: Byte)
    ensures var s := [97, 97, 0x80]; Split(s, 2, ff) != [] && CutsStray(s, 2, ff, 0)
  {
    var s: seq<Byte> := [97, 97, 0x80];
    assert s[1..] == [97, 0x80] && [97, 0x80][1..] == [0x80];
    assert Fit([0x80], 0, ff) == 0;
    assert Fit([97, 0x80], 1, ff) == 1;
    assert Fit(s, 2, ff) == 2;
  }

  // ---- The undefined start byte ----

  /** `64^k`, the weight of a bit before `k` continuation bytes. */
  function Weight(k: nat): nat { if k == 0 then 1 else 64 * Weight(k - 1) }

  /** As long as nothing leaves the word, the start byte's bits stand in front of the others. */
  lemma {:induction false} AddBitsLinear(ch: nat, tail: seq<Byte>)
    requires (forall i :: 0 <= i < |tail| ==> Continuation(tail[i])) && (ch + 1) * Weight(|tail|) <= 0x1_0000_0000
    ensures AddBits(ch, tail) == ch * Weight(|tail|) + AddBits(0, tail) && AddBits(0, tail) < Weight(|tail|)
    decreases |tail|
  {
    hide AddBits, Weight;
    if tail == [] {
      FourWeights();
      AddNone(ch, tail);
      AddNone(0, tail);
    } else {
      assert Continuation(tail[0]);
      var w, t: nat := Weight(|tail| - 1), tail[0] - 0x80;
      WeightGrows(|tail|);
      Product(ch, t, w);
      AddFirst(ch, tail);
      AddFirst(0, tail);
      AddBitsLinear(ch * 64 + t, tail[1..]);
      AddBitsLinear(t, tail[1..]);
    }
  }

  lemma {:induction false} AddNone(ch: nat, tail: seq<Byte>)
    requires tail == []
    ensures AddBits(ch, tail) == ch
  {}

  lemma {:induction false} AddFirst(ch: nat, tail: seq<Byte>)
    requires tail != [] && forall i :: 0 <= i < |tail| ==> Continuation(tail[i])
    ensures Continuation(tail[0])
    ensures AddBits(ch, tail) == AddBits((ch * 64) % 0x1_0000_0000 + (tail[0] - 0x80), tail[1..])
  {}

  lemma {:induction false} WeightGrows(k: nat)
    requires k > 0
    ensures Weight(k) == 64 * Weight(k - 1) && Weight(k - 1) >= 1
  {
    if k > 1 { WeightGrows(k - 1); }
  }

  lemma Product(ch: nat, t: nat, w: nat)
    requires t < 64 && w >= 1 && (ch + 1) * (64 * w) <= 0x1_0000_0000
    ensures (ch * 64 + t) * w == ch * (64 * w) + t * w && t * w + w <= 64 * w
    ensures (ch * 64 + t + 1) * w <= 0x1_0000_0000 && (t + 1) * w <= 0x1_0000_0000
    ensures ch * 64 < 0x1_0000_0000
  {
    Scale(ch, w);
    Distribute(ch * 64, t, w);
    Distribute(ch * 64 + t, 1, w);
    Distribute(t, 1, w);
    Distribute(ch, 1, 64 * w);
    Monotone(t + 1, 64, w);
    Monotone(1, w, ch * 64);
  }

  lemma Scale(ch: nat, w: nat)
    ensures (ch * 64) * w == ch * (64 * w) == w * (ch * 64)
  {}

  lemma Distribute(a: nat, b: nat, w: nat)
    ensures (a + b) * w == a * w + b * w
  {}

  lemma Monotone(a: nat, b: nat, w: nat)
    requires a <= b
    ensures a * w <= b * w
  {}

  lemma {:induction false} AddBitsConcat(ch: nat, x: seq<Byte>, y: seq<Byte>)
    requires (forall i :: 0 <= i < |x| ==> Continuation(x[i])) && forall i :: 0 <= i < |y| ==> Continuation(y[i])
    ensures (forall i :: 0 <= i < |x + y| ==> Continuation((x + y)[i]))
            && AddBits(ch, x + y) == AddBits(AddBits(ch, x), y)
    decreases |x|
  {
    if x == [] {
      assert x + y == y;
    } else {
      assert (x + y)[1..] == x[1..] + y;
      assert Continuation(x[0]);
      AddBitsConcat((ch * 64) % 0x1_0000_0000 + (x[0] - 0x80), x[1..], y);
    }
  }

  lemma {:induction false} AddOne(ch: nat, b: Byte)
    requires Continuation(b)
    ensures AddBits(ch, [b]) == (ch * 64) % 0x1_0000_0000 + (b - 0x80)
  {
    var none: seq<Byte> := [b][1..];
    assert none == [];
  }

  /** Before five continuation bytes only two bits stay in the word. */
  lemma {:induction false} FiveBytes(ch: Byte, tail: seq<Byte>)
    requires |tail| == 5 && forall i :: 0 <= i < |tail| ==> Continuation(tail[i])
    ensures AddBits(ch, tail) == (ch % 4) * 0x4000_0000 + AddBits(0, tail) && AddBits(0, tail) < 0x4000_0000
  {
    hide AddBits;
    var x, b := tail[..4], tail[4];
    assert tail == x + [b];
    FourWeights();
    AddBitsLinear(ch, x);
    AddBitsConcat(ch, x, [b]);
    AddBitsConcat(0, x, [b]);
    AddOne(AddBits(ch, x), b);
    AddOne(AddBits(0, x), b);
    TwoBitsStay(ch, AddBits(0, x));
  }

  lemma TwoBitsStay(ch: Byte, t: nat)
    requires t < 0x100_0000
    ensures ((ch * 0x100_0000 + t) * 64) % 0x1_0000_0000 == (ch % 4) * 0x4000_0000 + t * 64
    ensures (t * 64) % 0x1_0000_0000 == t * 64
  {}

  lemma FourWeights()
    ensures Weight(0) == 1 && Weight(1) == 64 && Weight(2) == 0x1000 && Weight(3) == 0x4_0000 && Weight(4) == 0x100_0000
  {}

  /** Before six or more nothing of the start byte stays. */
  lemma {:induction false} SixBytes(ch: Byte, tail: seq<Byte>)
    requires |tail| >= 6 && forall i :: 0 <= i < |tail| ==> Continuation(tail[i])
    ensures AddBits(ch, tail) == AddBits(0, tail)
  {
    hide AddBits;
    var x, b, rest := tail[..5], tail[5], tail[6..];
    assert tail == x + ([b] + rest);
    FiveBytes(ch, x);
    AddBitsConcat(ch, x, [b] + rest);
    AddBitsConcat(0, x, [b] + rest);
    AddBitsConcat(AddBits(ch, x), [b], rest);
    AddBitsConcat(AddBits(0, x), [b], rest);
    AddOne(AddBits(ch, x), b);
    AddOne(AddBits(0, x), b);
    NoBitStays(ch, AddBits(0, x));
  }

  lemma NoBitStays(ch: Byte, t: nat)
    ensures (((ch % 4) * 0x4000_0000 + t) * 64) % 0x1_0000_0000 == (t * 64) % 0x1_0000_0000
  {
    var q := (ch % 4) * 16;
    assert ((ch % 4) * 0x4000_0000 + t) * 64 == q * 0x1_0000_0000 + t * 64;
  }

  /** The value 0 makes a character as narrow as any other value does, and 0xFF as wide. */
  lemma {:induction false} WideOrder(f: Byte, tail: seq<Byte>)
    requires forall i :: 0 <= i < |tail| ==> Continuation(tail[i])
    ensures IsWideChar(AddBits(0, tail)) ==> IsWideChar(AddBits(f, tail))
    ensures IsWideChar(AddBits(f, tail)) ==> IsWideChar(AddBits(0xff, tail))
  {
    hide AddBits, IsWideChar, Weight;
    if |tail| >= 6 {
      SixBytes(f, tail);
      SixBytes(0xff, tail);
    } else if |tail| == 5 {
      FiveBytes(f, tail);
      FiveBytes(0xff, tail);
      HighBits(f % 4, AddBits(0, tail));
    } else {
      FourWeights();
      assert |tail| == 0 || |tail| == 1 || |tail| == 2 || |tail| == 3 || |tail| == 4;
      AddBitsLinear(f, tail);
      AddBitsLinear(0xff, tail);
      FewBytes(f, Weight(|tail|), AddBits(0, tail));
    }
  }

  lemma HighBits(d: nat, t: nat)
    requires d < 4
    ensures IsWideChar(t) ==> IsWideChar(d * 0x4000_0000 + t)
    ensures IsWideChar(d * 0x4000_0000 + t) ==> IsWideChar(3 * 0x4000_0000 + t)
  {}

  lemma FewBytes(f: Byte, w: nat, t: nat)
    requires (w == 1 || w == 64 || w == 0x1000 || w == 0x4_0000 || w == 0x100_0000) && t < w
    ensures IsWideChar(t) ==> IsWideChar(f * w + t)
    ensures IsWideChar(f * w + t) ==> IsWideChar(0xff * w + t)
  {
    if w == 0x4_0000 || w == 0x100_0000 {
      assert f == 0 || f * w >= w;
    }
  }

  lemma CharOrder(s: seq<Byte>, f: Byte)
    requires s != []
    ensures CharColumns(s, 0) <= CharColumns(s, f) <= CharColumns(s, 0xff)
  {
    hide AddBits, IsWideChar;
    if s[0] == 255 { WideOrder(f, s[1..CharBytes(s)]); }
  }

  lemma {:induction false} ColumnsOrder(s: seq<Byte>, f: Byte)
    ensures Columns(s, 0) <= Columns(s, f) <= Columns(s, 0xff)
    decreases |s|
  {
    hide CharColumns, CharBytes;
    if s != [] {
      CharOrder(s, f);
      ColumnsOrder(s[CharBytes(s)..], f);
    }
  }

  /** No character's width depends on the undefined value. */
  predicate Settled(s: seq<Byte>)
    decreases |s|
  {
    s == [] || (CharColumns(s, 0) == CharColumns(s, 0xff) && Settled(s[CharBytes(s)..]))
  }

  lemma {:induction false} SettledMeans(s: seq<Byte>)
    ensures Settled(s) <==> Columns(s, 0) == Columns(s, 0xff)
    decreases |s|
  {
    hide CharColumns, CharBytes;
    if s != [] {
      CharOrder(s, 0);
      ColumnsOrder(s[CharBytes(s)..], 0);
      SettledMeans(s[CharBytes(s)..]);
    }
  }

  lemma {:induction false} SettledFrom(s: seq<Byte>, p: nat)
    requires Settled(s) && p <= |s| && Boundary(s, p)
    ensures Settled(s[p..])
    decreases |s|
  {
    hide CharColumns, CharBytes;
    if p == 0 {
      assert s[0..] == s;
    } else {
      var n := CharBytes(s);
      assert s[n..][p - n..] == s[p..];
      SettledFrom(s[n..], p - n);
    }
  }

  lemma {:induction false} FitSettled(s: seq<Byte>, width: int, f: Byte, g: Byte)
    requires Settled(s)
    ensures Fit(s, width, f) == Fit(s, width, g)
    decreases |s|
  {
    hide CharColumns, CharBytes;
    if s != [] {
      CharOrder(s, f);
      CharOrder(s, g);
      FitSettled(s[CharBytes(s)..], width - CharColumns(s, f), f, g);
    }
  }

  /** What a piece and its break use up ends between two characters. */
  lemma {:induction false} UsedIsBoundary(s: seq<Byte>, width: nat, ff: Byte)
    requires width >= 2 && s != [] && FirstCut(s, width, ff).1 < |s|
    ensures Boundary(s, FirstCut(s, width, ff).1)
  {
    hide Fit, Boundary;
    FitIsBoundary(s, width, ff);
    var i := LastSpace(s, Fit(s, width, ff));
    if i >= 0 {
      StartIsBoundary(s, i);
      SpaceIsAlone(s, i);
    }
  }

  lemma {:induction false} SplitSettled(s: seq<Byte>, width: nat, f: Byte, g: Byte)
    requires width >= 2 && Settled(s)
    ensures Split(s, width, f) == Split(s, width, g)
    decreases |s|
  {
    hide Fit, Settled, Boundary;
    if s != [] {
      FitSettled(s, width, f, g);
      var used := FirstCut(s, width, f).1;
      if used < |s| {
        UsedIsBoundary(s, width, f);
        SettledFrom(s, used);
        SplitSettled(s[used..], width, f, g);
      }
    }
  }

  /**
   At no width do the pieces of a text depend on the undefined value exactly when the text is as wide
   with the value 0 as with 0xFF, or is a single narrow character or nothing with the value 0.
  */
  lemma {:induction false} SplitDependsExactlyWhen(s: seq<Byte>)
    ensures (forall width: nat, f, g :: width >= 2 ==> Split(s, width, f) == Split(s, width, g))
            <==> Columns(s, 0) == Columns(s, 0xff) || Columns(s, 0) <= 1
  {
    hide Columns, Split, Settled;
    SettledMeans(s);
    ColumnsOrder(s, 0);
    if Settled(s) {
      forall width: nat, f, g | width >= 2
        ensures Split(s, width, f) == Split(s, width, g)
      {
        SplitSettled(s, width, f, g);
      }
    } else if Columns(s, 0) <= 1 {
      forall width: nat, f | width >= 2
        ensures Split(s, width, f) == if s == [] then [] else [Cut(s, End)]
      {
        OneCharacter(s, width, f);
      }
    } else {
      WiderIsCut(s, Columns(s, 0));
    }
  }

  lemma {:induction false} OneCharacter(s: seq<Byte>, width: nat, f: Byte)
    requires Columns(s, 0) <= 1 && width >= 2
    ensures Split(s, width, f) == if s == [] then [] else [Cut(s, End)]
  {
    hide Fit, CharColumns, CharBytes;
    if s != [] {
      var rest := s[CharBytes(s)..];
      NoColumns(rest);
      assert Columns(s, f) == CharColumns(s, f) <= 2;
      FitWhole(s, width, f);
      assert s[|s|..] == [];
    }
  }

  lemma {:induction false} NoColumns(s: seq<Byte>)
    ensures Columns(s, 0) == 0 <==> s == []
  {}

  lemma {:induction false} WiderIsCut(s: seq<Byte>, width: nat)
    requires width == Columns(s, 0) >= 2 && Columns(s, 0xff) > width
    ensures Split(s, width, 0) != Split(s, width, 0xff)
  {
    hide Fit, Columns;
    NoColumns(s);
    FitWhole(s, width, 0);
    FitWhole(s, width, 0xff);
    ColumnsAtMostBytes(s, 0xff);
    FirstCutLosesNothing(s, width, 0xff);
    assert Split(s, width, 0)[0].how == End && Split(s, width, 0xff)[0].how != End;
  }

  lemma {:induction false} Without255IsSettled(s: seq<Byte>)
    requires 255 !in s
    ensures Settled(s)
    decreases |s|
  {
    hide CharBytes;
    if s != [] {
      assert s[0] != 255;
      Without255IsSettled(s[CharBytes(s)..]);
    }
  }

  /** The undefined count for the byte 0xFF matters only to texts that contain it. */
  lemma {:induction false} SplitWithout255(s: seq<Byte>, width: nat, f: Byte, g: Byte)
    requires width >= 2 && 255 !in s
    ensures Split(s, width, f) == Split(s, width, g)
  {
    hide Settled, Split;
    Without255IsSettled(s);
    SplitSettled(s, width, f, g);
  }

  /** With it the wrapping depends on what the count yields: one line, or a cut between the two characters. */
  lemma {:induction false} SplitWith255()
    ensures var s := [255, 0xa0, 255, 0xa0];
            Split(s, 2, 0) == [Cut(s, End)] && Split(s, 2, 0xff)[..1] == [Cut([255, 0xa0], Hard)]
  {
    var s: seq<Byte> := [255, 0xa0, 255, 0xa0];
    var c: seq<Byte> := [255, 0xa0];
    TwoBytes(s, s[2..]);
    TwoBytes(c, []);
    assert s[2..] == c && s[..2] == c && c[2..] == [];
    assert Fit(c, 1, 0) == 2 && Fit(s, 2, 0) == 4;
    assert Fit(c, 0, 0xff) == 0 && Fit(s, 2, 0xff) == 2;
    assert s[4..] == [];
    assert LastSpace(s, 2) == -1 by {
      assert LastSpace(s, 0) == -1 && LastSpace(s, 1) == LastSpace(s, 0);
    }
  }

  lemma {:induction false} TwoBytes(s: seq<Byte>, rest: seq<Byte>)
    requires s == [255, 0xa0] + rest && (rest == [] || rest[0] == 255)
    ensures CharBytes(s) == 2 && CharColumns(s, 0) == 1 && CharColumns(s, 0xff) == 2
  {
    assert s[1..] == [0xa0] + rest && s[1..][1..] == rest;
    assert Run(rest) == 0 && Run(s[1..]) == 1;
    var tail := s[1..2];
    assert tail == [0xa0] && tail[1..] == [];
    assert AddBits(0, tail) == AddBits(0x20, []) && AddBits(0xff, tail) == AddBits(0x3fe0, []);
  }

  // ---- The pieces are as long as they can be ----

  /** A text that fits is not cut. */
  lemma {:induction false} WhatFitsStaysWhole(s: seq<Byte>, width: nat, ff: Byte)
    requires width >= 2 && s != [] && Columns(s, ff) <= width
    ensures Split(s, width, ff) == [Cut(s, End)]
  {
    hide Fit, Columns;
    FitWhole(s, width, ff);
    assert s[|s|..] == [];
  }

  /** A text cut at a space does not fit, nor does any part of it up to a later space. */
  lemma {:induction false} SpaceCutIsLatest(s: seq<Byte>, width: nat, ff: Byte, j: nat)
    requires width >= 2 && s != [] && FirstCut(s, width, ff).0.how == AtSpace
    requires |FirstCut(s, width, ff).0.piece| < j < |s| && s[j] == SPACE
    ensures Columns(s, ff) > width && Columns(s[..j], ff) > width
  {
    hide Fit, Columns, Boundary, CharBytes, CharColumns;
    var maxi := Fit(s, width, ff);
    FitWhole(s, width, ff);
    FitIsBoundary(s, width, ff);
    NextTooWide(s, width, ff);
    FurtherIsWider(s, maxi, j, ff);
  }

  /** Beyond a character boundary, a text up to a start byte holds the next character too. */
  lemma {:induction false} FurtherIsWider(s: seq<Byte>, p: nat, j: nat, ff: Byte)
    requires p < j < |s| && Boundary(s, p) && s[j] == SPACE
    ensures Columns(s[..j], ff) >= Columns(s[..p + CharBytes(s[p..])], ff)
  {
    hide Columns, Boundary, CharBytes, CharColumns;
    var n := CharBytes(s[p..]);
    if j - p < n {
      InsideCharacter(s[p..], j - p);
    }
    ColumnsJoin(s, p, n, ff);
    ColumnsJoin(s, p, j - p, ff);
    ColumnsFirst(s[p..], n, ff);
    ColumnsFirst(s[p..], j - p, ff);
    assert s[p..][n..][..0] == [];
    NoColumnsAtAll(ff);
  }

  lemma {:induction false} NoColumnsAtAll(ff: Byte)
    ensures Columns([], ff) == 0
  {}

  /** Words are cut at the space between them, which is dropped. */
  lemma {:induction false} TwoWords(ff: Byte)
    ensures Split([0x61, 0x62, 0x20, 0x63, 0x64], 2, ff) == [Cut([0x61, 0x62], AtSpace), Cut([0x63, 0x64], End)]
  {
    var s, t: seq<Byte> := [0x61, 0x62, 0x20, 0x63, 0x64], [0x63, 0x64];
    assert s[1..] == [0x62, 0x20, 0x63, 0x64] && s[1..][1..] == s[2..] && s[3..] == t && s[..2] == [0x61, 0x62];
    assert Fit(s[2..], 0, ff) == 0 && Fit(s[1..], 1, ff) == 1 && Fit(s, 2, ff) == 2;
    assert LastSpace(s, 2) == 2;
    assert FirstCut(s, 2, ff) == (Cut([0x61, 0x62], AtSpace), 3);
    var none: seq<Byte> := t[2..];
    assert FirstCut(t, 2, ff) == (Cut(t, End), 2) && Split(none, 2, ff) == [];
    assert Split(t, 2, ff) == [Cut(t, End)];
  }

  /** A letter, a letter with an accent and an ideograph: one, one and two columns. */
  lemma {:induction false} SomeWidths(ff: Byte)
    ensures CharColumns([0x61], ff) == 1 && CharColumns([0xc3, 0xa9], ff) == 1
            && CharColumns([0xe6, 0x97, 0xa5], ff) == 2
  {
    var e, i: seq<Byte> := [0xc3, 0xa9], [0xe6, 0x97, 0xa5];
    var none: seq<Byte> := [];
    assert e[1..] == [0xa9] && [0xa9][1..] == none && Run(none) == 0 && Run([0xa9]) == 1;
    assert i[1..] == [0x97, 0xa5] && [0x97, 0xa5][1..] == [0xa5] && [0xa5][1..] == none;
    assert Run([0xa5]) == 1 && Run([0x97, 0xa5]) == 2;
    assert e[1..2] == [0xa9] && i[1..3] == [0x97, 0xa5];
    assert AddBits(0xe9, none) == 0xe9 && AddBits(3, [0xa9]) == 0xe9;
    assert AddBits(0x65e5, none) == 0x65e5 && AddBits(0x197, [0xa5]) == 0x65e5 && AddBits(6, [0x97, 0xa5]) == 0x65e5;
  }

  function Pieces(cuts: seq<Cut>): (p: seq<seq<Byte>>)
    ensures |p| == |cuts|
    decreases |cuts|
  {
    if cuts == [] then [] else [cuts[0].piece] + Pieces(cuts[1..])
  }

  // ---- Output ----

  datatype Event = Text(piece: seq<Byte>) | NewLine | Indent(columns: int)

  /** What writing the pieces one per line adds; `started` says that a line was already written. */
  function Render(pieces: seq<seq<Byte>>, x: int, started: bool): seq<Event>
    decreases |pieces|
  {
    if pieces == [] then []
    else (if started then [NewLine, Indent(x)] else []) + [Text(pieces[0])] + Render(pieces[1..], x, true)
  }

  lemma {:induction false} RenderSnoc(pieces: seq<seq<Byte>>, piece: seq<Byte>, x: int, started: bool)
    ensures Render(pieces + [piece], x, started) ==
            Render(pieces, x, started) + (if started || pieces != [] then [NewLine, Indent(x)] else []) + [Text(piece)]
    decreases |pieces|
  {
    if pieces == [] {
      assert pieces + [piece] == [piece];
    } else {
      assert (pieces + [piece])[1..] == pieces[1..] + [piece];
      RenderSnoc(pieces[1..], piece, x, true);
    }
  }

  /** Every piece has a line of its own, and every line but the first of all is indented. */
  lemma {:induction false} RenderLines(pieces: seq<seq<Byte>>, x: int, k: nat)
    requires k < |pieces|
    ensures var out := Render(pieces, x, false);
            |out| == 3 * |pieces| - 2 && out[3 * k] == Text(pieces[k])
            && (k + 1 < |pieces| ==> out[3 * k + 1] == NewLine && out[3 * k + 2] == Indent(x))
  {
    RenderStarted(pieces[1..], x);
    if k > 0 { RenderLine(pieces[1..], x, k - 1); }
    if k + 1 < |pieces| { RenderLine(pieces[1..], x, k); }
  }

  lemma {:induction false} RenderStarted(pieces: seq<seq<Byte>>, x: int)
    ensures |Render(pieces, x, true)| == 3 * |pieces|
  {
    if pieces != [] { RenderStarted(pieces[1..], x); }
  }

  lemma {:induction false} RenderLine(pieces: seq<seq<Byte>>, x: int, k: nat)
    requires k < |pieces|
    ensures var out := Render(pieces, x, true);
            |out| == 3 * |pieces| && out[3 * k..3 * k + 3] == [NewLine, Indent(x), Text(pieces[k])]
  {
    RenderStarted(pieces[1..], x);
    var head := [NewLine, Indent(x), Text(pieces[0])];
    assert Render(pieces, x, true) == head + Render(pieces[1..], x, true);
    if k > 0 {
      RenderLine(pieces[1..], x, k - 1);
    }
  }

  /** The pieces among some output, in order. */
  function Texts(out: seq<Event>): seq<seq<Byte>>
    decreases |out|
  {
    if out == [] then [] else (if out[0].Text? then [out[0].piece] else []) + Texts(out[1..])
  }

  lemma {:induction false} TextsConcat(a: seq<Event>, b: seq<Event>)
    ensures Texts(a + b) == Texts(a) + Texts(b)
    decreases |a|
  {
    if a == [] {
      assert a + b == b;
    } else {
      assert (a + b)[1..] == a[1..] + b;
      TextsConcat(a[1..], b);
    }
  }

  lemma {:induction false} TextsOfRender(pieces: seq<seq<Byte>>, x: int, started: bool)
    ensures Texts(Render(pieces, x, started)) == pieces
    decreases |pieces|
  {
    if pieces != [] {
      TextsOfRender(pieces[1..], x, true);
      var front := if started then [NewLine, Indent(x)] else [];
      TextsConcat(front + [Text(pieces[0])], Render(pieces[1..], x, true));
      TextsConcat(front, [Text(pieces[0])]);
      assert Texts([Text(pieces[0])]) == [pieces[0]] by { assert [Text(pieces[0])][1..] == []; }
      assert Texts(front) == [] by {
        if started { assert front[1..] == [Indent(x)] && front[1..][1..] == []; }
      }
    }
  }

  /** How many of the waiting and new pieces a call writes: one if there is any, or as many as do not fit the buffer. */
  function Emitted(n: nat): (k: nat)
    ensures k <= n && n - k <= CAPACITY
  {
    if n > CAPACITY then n - CAPACITY else if n > 0 then 1 else 0
  }

  /** The least that leaves at most fifteen pieces waiting and writes one if there is any. */
  lemma EmittedIsLeast(n: nat)
    ensures n - Emitted(n) <= 15 && (n > 0 ==> Emitted(n) >= 1)
    ensures Emitted(n) == 0 || n - (Emitted(n) - 1) > 15 || (n > 0 && Emitted(n) == 1)
  {}

  const CAPACITY := 15

  /** Position of the `i`-th waiting piece behind `tail`. */
  function Slot(tail: int, i: nat): (p: int)
    ensures 0 <= p < 16
  {
    (tail + 1 + i) % 16
  }

  lemma SlotDistinct(tail: int, i: nat, j: nat)
    requires i < j < 16
    ensures Slot(tail, i) != Slot(tail, j)
  {}

  predicate EntriesOk(lens: seq<int>, dats: seq<seq<Byte>>, tail: int, n: nat) {
    && |lens| == |dats| == 16 && n <= CAPACITY
    && forall i :: 0 <= i < n ==> 0 <= lens[Slot(tail, i)] <= |dats[Slot(tail, i)]|
  }

  function QueueOf(lens: seq<int>, dats: seq<seq<Byte>>, tail: int, n: nat): (q: seq<seq<Byte>>)
    requires EntriesOk(lens, dats, tail, n)
    ensures |q| == n && forall i :: 0 <= i < n ==> q[i] == dats[Slot(tail, i)][..lens[Slot(tail, i)]]
  {
    seq(n, i requires 0 <= i < n => dats[Slot(tail, i)][..lens[Slot(tail, i)]])
  }

  lemma StoreBehind(lens: seq<int>, dats: seq<seq<Byte>>, tail: int, n: nat, len: nat, data: seq<Byte>)
    requires EntriesOk(lens, dats, tail, n) && n < CAPACITY && len <= |data|
    ensures |lens| == |dats| == 16
    ensures var h := Slot(tail, n);
            && EntriesOk(lens[h := len], dats[h := data], tail, n + 1)
            && QueueOf(lens[h := len], dats[h := data], tail, n + 1) == QueueOf(lens, dats, tail, n) + [data[..len]]
  {
    hide Slot;
    forall i | 0 <= i < n
      ensures Slot(tail, i) != Slot(tail, n)
    {
      SlotDistinct(tail, i, n);
    }
  }

  class LineWrapper {
    const lenbuf: array<int>
    const datbuf: array<seq<Byte>>
    const x: int
    const width: nat
    const ff: Byte
    /** Index for the next write. */
    var head: int
    /** Index for the next read minus one. */
    var tail: int
    var wroteSomething: bool
    /** All output so far. */
    var out: seq<Event>

    ghost predicate Valid()
      reads `head, `tail, lenbuf, datbuf
    {
      && lenbuf.Length == datbuf.Length == 16 && 0 <= head < 16 && 0 <= tail < 16 && width >= 2
      && Waiting() <= CAPACITY && EntriesOk(lenbuf[..], datbuf[..], tail, Waiting())
    }

    ghost function Waiting(): (n: nat)
      reads `head, `tail
    {
      (head - tail - 1) % 16
    }

    /** The waiting pieces, oldest first. */
    ghost function Queue(): (q: seq<seq<Byte>>)
      requires Valid()
      reads `head, `tail, lenbuf, datbuf
      ensures |q| == Waiting() <= CAPACITY
    {
      QueueOf(lenbuf[..], datbuf[..], tail, Waiting())
    }

    constructor (x1: int, x2: int, undefinedBits: Byte)
      ensures Valid() && Queue() == [] && out == [] && x == x1 && fresh(lenbuf) && fresh(datbuf)
      ensures width == if x2 - x1 < 2 then 2 else x2 - x1
    {
      lenbuf, datbuf := new int[16], new seq<Byte>[16];
      x, width, ff := x1, if x2 - x1 < 2 then 2 else x2 - x1, undefinedBits;
      head, tail, wroteSomething, out := 0, 15, false, [];
    }

    predicate BufEmpty()
      reads `head, `tail
    { (tail + 1) % 16 == head }

    predicate BufFull()
      reads `head, `tail
    { tail == head }

    method BufStore(data: seq<Byte>, len: nat)
      requires Valid() && !BufFull() && len <= |data|
      modifies `head, lenbuf, datbuf
      ensures Valid() && Queue() == old(Queue()) + [data[..len]]
    {
      hide Slot, EntriesOk, QueueOf;
      ghost var n := Waiting();
      HeadSlot();
      NextHead();
      StoreBehind(lenbuf[..], datbuf[..], tail, n, len, data);
      lenbuf[head], datbuf[head] := len, data;
      head := (head + 1) % 16;
    }

    lemma {:induction false} NextHead()
      requires 0 <= head < 16 && 0 <= tail < 16 && !BufFull()
      ensures ((head + 1) % 16 - tail - 1) % 16 == Waiting() + 1
    {}

    lemma HeadSlot()
      requires 0 <= head < 16 && 0 <= tail < 16
      ensures Slot(tail, Waiting()) == head
      ensures BufEmpty() <==> Waiting() == 0
      ensures BufFull() <==> Waiting() == CAPACITY
    {}

    method BufNext() returns (piece: seq<Byte>)
      requires Valid() && Queue() != []
      modifies `tail
      ensures Valid() && [piece] + Queue() == old(Queue())
    {
      hide Slot;
      ghost var t, n, was := tail, Waiting(), Queue();
      NextSlots();
      tail := (tail + 1) % 16;
      piece := datbuf[tail][..lenbuf[tail]];
    }

    lemma NextSlots()
      requires 0 <= head < 16 && 0 <= tail < 16 && Waiting() > 0
      ensures Slot(tail, 0) == (tail + 1) % 16 && (head - (tail + 1) % 16 - 1) % 16 == Waiting() - 1
      ensures var next := (tail + 1) % 16; forall i :: 0 <= i < Waiting() - 1 ==> Slot(next, i) == Slot(tail, i + 1)
    {}

    /** Writes one line from the buffer, starting a new line if one was already written. */
    method WriteOneLine()
      requires Valid()
      modifies `out, `tail, `wroteSomething
      ensures Valid() && wroteSomething
      ensures Queue() == if old(Queue()) == [] then [] else old(Queue())[1..]
      ensures out == old(out) + (if old(wroteSomething) then [NewLine, Indent(x)] else [])
                              + (if old(Queue()) == [] then [] else [Text(old(Queue())[0])])
    {
      if wroteSomething {
        out := out + [NewLine, Indent(x)];
      }
      HeadSlot();
      if !BufEmpty() {
        var piece := BufNext();
        out := out + [Text(piece)];
      }
      wroteSomething := true;
    }

    /** How far a call has come: of the waiting and new pieces `all`, the first `k` are out, on lines of their own. */
    ghost predicate Progress(before: seq<Event>, all: seq<seq<Byte>>, k: nat)
      requires Valid()
      reads `head, `tail, `out, lenbuf, datbuf
    {
      k <= |all| && Queue() == all[k..] && out == before + Render(all[..k], x, false)
    }

    method WriteNext(ghost before: seq<Event>, ghost all: seq<seq<Byte>>, ghost k: nat)
      requires Valid() && Progress(before, all, k) && wroteSomething == (k > 0) && (k == |all| ==> k == 0)
      modifies `out, `tail, `wroteSomething
      ensures Valid() && wroteSomething && Progress(before, all, if k < |all| then k + 1 else k)
    {
      hide EntriesOk, QueueOf, Render;
      if k < |all| {
        assert all[..k + 1] == all[..k] + [all[k]] && all[k..][1..] == all[k + 1..];
        RenderSnoc(all[..k], all[k], x, false);
        assert all[..k] != [] <==> k > 0;
      }
      WriteOneLine();
      assert k < |all| ==>
        out == before + (Render(all[..k], x, false) + (if k > 0 then [NewLine, Indent(x)] else []) + [Text(all[k])]);
    }

    /** Queues a piece, writing a line first if the buffer is full. */
    method Output(data: seq<Byte>, len: nat, ghost before: seq<Event>, ghost all: seq<seq<Byte>>, ghost k: nat)
      requires Valid() && Progress(before, all, k) && wroteSomething == (k > 0) && len <= |data|
      modifies `out, `head, `tail, `wroteSomething, lenbuf, datbuf
      ensures var k' := if |all| - k == CAPACITY then k + 1 else k;
              Valid() && Progress(before, all + [data[..len]], k') && wroteSomething == (k' > 0)
    {
      hide EntriesOk, QueueOf, Render;
      HeadSlot();
      ghost var k' := if |all| - k == CAPACITY then k + 1 else k;
      if BufFull() {
        WriteNext(before, all, k);
        HeadSlot();
      }
      assert (all + [data[..len]])[k'..] == all[k'..] + [data[..len]] && (all + [data[..len]])[..k'] == all[..k'];
      BufStore(data, len);
    }

    /** Writes out everything that waits, indenting every line. */
    method Flush()
      requires Valid()
      modifies `out, `tail, `wroteSomething
      ensures Valid() && Queue() == []
      ensures out == old(out) + if old(Queue()) == [] then []
                                else [Indent(x)] + Render(old(Queue()), x, false) + [NewLine]
    {
      hide EntriesOk, QueueOf, Render;
      HeadSlot();
      if BufEmpty() {
        return;
      }
      ghost var all := Queue();
      out := out + [Indent(x)];
      ghost var before := out;
      wroteSomething := false;
      ghost var k := 0;
      RenderNone(x);
      while !BufEmpty()
        invariant Valid() && Progress(before, all, k) && wroteSomething == (k > 0)
        invariant BufEmpty() <==> k == |all|
        decreases |all| - k
      {
        WriteNext(before, all, k);
        k := k + 1;
        HeadSlot();
      }
      assert all[..k] == all;
      out := out + [NewLine];
    }

    /** Bytes and columns of the first character of `s`. */
    method MeasureChar(s: seq<Byte>) returns (charbytes: nat, columns: nat)
      requires s != []
      ensures charbytes == CharBytes(s) && columns == CharColumns(s, ff)
    {
      charbytes, columns := 1, 1;
      if s[0] > 0xc1 {
        var ch: nat := LeadBits(s[0], ff);
        ghost var n := CharBytes(s);
        while charbytes < |s| && Continuation(s[charbytes])
          invariant 1 <= charbytes <= n
          invariant AddBits(ch, s[charbytes..n]) == AddBits(LeadBits(s[0], ff), s[1..n])
          decreases |s| - charbytes
        {
          InRun(s, charbytes);
          assert s[charbytes..n][1..] == s[charbytes + 1..n];
          ch := (ch * 64) % 0x1_0000_0000 + (s[charbytes] as int - 0x80);
          charbytes := charbytes + 1;
        }
        if charbytes < n {
          InsideCharacter(s, charbytes);
        }
        assert s[n..n] == [];
        if ch >= 0x1100 && IsWideChar(ch) {
          columns := 2;
        }
      }
    }

    /** The loop that counts columns until the line is full. */
    method FindFit(data: seq<Byte>) returns (maxi: nat)
      requires width >= 2
      ensures maxi == Fit(data, width, ff)
    {
      hide CharColumns, CharBytes, Fit;
      var utf8width := 0;
      maxi := 0;
      assert data[0..] == data;
      while maxi < |data| && utf8width < width
        invariant maxi <= |data| && utf8width <= width
        invariant Fit(data, width, ff) == maxi + Fit(data[maxi..], width - utf8width, ff)
        decreases |data| - maxi
      {
        var charbytes, columns := MeasureChar(data[maxi..]);
        FitStep(data[maxi..], width - utf8width, ff);
        assert data[maxi..][charbytes..] == data[maxi + charbytes..];
        if columns == 2 && utf8width + 2 > width {
          break;
        }
        utf8width := utf8width + columns;
        maxi := maxi + charbytes;
      }
      FitNone(data[maxi..], width - utf8width, ff);
    }

    /** The loop that looks back for a space. */
    method FindSpace(data: seq<Byte>, maxi: nat) returns (i: int)
      requires maxi < |data|
      ensures i == LastSpace(data, maxi)
    {
      i := maxi;
      while i >= 0 && data[i] != SPACE
        invariant -1 <= i <= maxi && LastSpace(data, i) == LastSpace(data, maxi)
      {
        i := i - 1;
      }
    }

    /**
     Wraps a text: its pieces join the waiting ones, and one piece is written, or as many as do not fit the buffer.
    */
    method Process(text: seq<Byte>)
      requires Valid()
      modifies `out, `head, `tail, `wroteSomething, lenbuf, datbuf
      ensures Valid()
      ensures var all := old(Queue()) + Pieces(Split(text, width, ff));
              Progress(old(out), all, Emitted(|all|))
    {
      hide EntriesOk, QueueOf, Render, Split, FirstCut, Pieces;
      ghost var all := Queue() + Pieces(Split(text, width, ff));
      ghost var before := out;
      ghost var done := Queue();
      ghost var k := 0;
      wroteSomething := false;
      RenderNone(x);
      var data := text;
      assert done[..0] == [] && done[0..] == done;
      while data != []
        invariant Valid() && Progress(before, done, k) && wroteSomething == (k > 0)
        invariant k == if |done| > CAPACITY then |done| - CAPACITY else 0
        invariant all == done + Pieces(Split(data, width, ff))
        decreases |data|
      {
        var piece, skip := NextPiece(data);
        SplitFirst(data, width, ff);
        assert done + ([data[..piece]] + Pieces(Split(data[skip..], width, ff)))
               == done + [data[..piece]] + Pieces(Split(data[skip..], width, ff));
        Output(data, piece, before, done, k);
        k := if |done| - k == CAPACITY then k + 1 else k;
        done := done + [data[..piece]];
        data := data[skip..];
      }
      SplitNone(width, ff);
      assert done + [] == done;
      if !wroteSomething {
        WriteNext(before, done, k);
      }
    }

    /** Where the first piece of a text ends, and where the next one starts. */
    method NextPiece(data: seq<Byte>) returns (piece: nat, skip: nat)
      requires width >= 2 && data != []
      ensures piece <= |data| && data[..piece] == FirstCut(data, width, ff).0.piece
              && skip == FirstCut(data, width, ff).1
    {
      hide Fit, LastSpace;
      if |data| <= width {
        return |data|, |data|;
      }
      var maxi := FindFit(data);
      if maxi == |data| {
        return |data|, |data|;
      }
      var i := FindSpace(data, maxi);
      if i >= 0 {
        return i, i + 1;
      }
      return maxi, maxi;
    }
  }

  lemma FitStep(s: seq<Byte>, width: nat, ff: Byte)
    requires s != [] && width > 0
    ensures Fit(s, width, ff) == if CharColumns(s, ff) > width then 0
                                 else CharBytes(s) + Fit(s[CharBytes(s)..], width - CharColumns(s, ff), ff)
  {}

  lemma {:induction false} FitNone(s: seq<Byte>, width: nat, ff: Byte)
    requires s == [] || width == 0 || CharColumns(s, ff) > width
    ensures Fit(s, width, ff) == 0
  {}

  lemma InRun(s: seq<Byte>, i: nat)
    requires s != [] && s[0] > 0xc1 && 1 <= i <= CharBytes(s) && i < |s| && Continuation(s[i])
    ensures i < CharBytes(s)
  {
    assert s[i] == s[1..][i - 1];
  }

  lemma {:induction false} RenderNone(x: int)
    ensures Render([], x, false) == []
  {}

  lemma {:induction false} SplitFirst(s: seq<Byte>, width: nat, ff: Byte)
    requires width >= 2 && s != []
    ensures var (cut, used) := FirstCut(s, width, ff);
            Pieces(Split(s, width, ff)) == [cut.piece] + Pieces(Split(s[used..], width, ff))
  {
    hide FirstCut;
    var (cut, used) := FirstCut(s, width, ff);
    assert ([cut] + Split(s[used..], width, ff))[1..] == Split(s[used..], width, ff);
  }

  lemma {:induction false} SplitNone(width: nat, ff: Byte)
    requires width >= 2
    ensures Pieces(Split([], width, ff)) == []
  {}

  // ---- Whole runs ----

  function AllPieces(texts: seq<seq<Byte>>, width: nat, ff: Byte): seq<seq<Byte>>
    requires width >= 2
  {
    if texts == [] then []
    else AllPieces(texts[..|texts| - 1], width, ff) + Pieces(Split(texts[|texts| - 1], width, ff))
  }

  /** Any texts processed and flushed: exactly their pieces come out, each once and in order. */
  method WrapAll(w: LineWrapper, texts: seq<seq<Byte>>)
    requires w.Valid() && w.Queue() == [] && w.out == []
    modifies w, w.lenbuf, w.datbuf
    ensures w.Valid() && w.Queue() == [] && Texts(w.out) == AllPieces(texts, w.width, w.ff)
  {
    hide EntriesOk, QueueOf, Render, Split, Pieces, Texts;
    TextsNone();
    for i := 0 to |texts|
      invariant w.Valid() && Texts(w.out) + w.Queue() == AllPieces(texts[..i], w.width, w.ff)
    {
      ghost var before, waiting := w.out, w.Queue();
      w.Process(texts[i]);
      WrapStep(before, waiting, Pieces(Split(texts[i], w.width, w.ff)), w.x);
      assert texts[..i + 1][..i] == texts[..i];
    }
    assert texts[..|texts|] == texts;
    ghost var before, waiting := w.out, w.Queue();
    w.Flush();
    FlushedTexts(before, waiting, w.x);
  }

  lemma {:induction false} WrapStep(before: seq<Event>, waiting: seq<seq<Byte>>, pieces: seq<seq<Byte>>, x: int)
    ensures var all := waiting + pieces;
            var k := Emitted(|all|);
            Texts(before + Render(all[..k], x, false)) + all[k..] == Texts(before) + waiting + pieces
  {
    hide Texts, Render;
    var all := waiting + pieces;
    var k := Emitted(|all|);
    TextsConcat(before, Render(all[..k], x, false));
    TextsOfRender(all[..k], x, false);
    assert all == all[..k] + all[k..];
  }

  lemma TextsNone()
    ensures Texts([]) == []
  {}

  lemma TextsOfLayout(e: Event)
    requires !e.Text?
    ensures Texts([e]) == []
  {
    assert [e][1..] == [];
  }

  lemma {:induction false} FlushedTexts(before: seq<Event>, waiting: seq<seq<Byte>>, x: int)
    ensures Texts(before + if waiting == [] then [] else [Indent(x)] + Render(waiting, x, false) + [NewLine]) ==
            Texts(before) + waiting
  {
    hide Render, Texts;
    if waiting == [] {
      assert before + [] == before;
    } else {
      TextsConcat(before, [Indent(x)] + Render(waiting, x, false) + [NewLine]);
      TextsConcat([Indent(x)] + Render(waiting, x, false), [NewLine]);
      TextsConcat([Indent(x)], Render(waiting, x, false));
      TextsOfRender(waiting, x, false);
      TextsOfLayout(Indent(x));
      TextsOfLayout(NewLine);
    }
  }
}
