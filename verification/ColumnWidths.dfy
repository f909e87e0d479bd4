/**
 The loop of the usage printer that finds column widths: it ignores ever more of the widest parts
 until the columns but the last fit. It ends, and the parts it ignores are as few as possible.
*/
module ColumnWidths {
  import opened Common

  /**
   A part of the usage table: where it stands, its width on the screen, and whether a tab or vertical tab follows it.
  */
  datatype Part = Part(column: nat, line: nat, screenLength: nat, separated: bool)

  const MAX_COLUMNS := 8
  const INITIAL_THRESHOLD := 10000

  /** The part takes part in the width of its column. */
  predicate Counts(p: Part, threshold: nat) {
    p.screenLength < threshold && (p.column > 0 || p.line > 0 || p.separated)
  }

  function LastColumn(parts: seq<Part>): (c: nat)
    ensures c < MAX_COLUMNS
  {
    if parts == [] then 0
    else
      var p := parts[|parts| - 1];
      var before := LastColumn(parts[..|parts| - 1]);
      if p.column < MAX_COLUMNS then Max(before, p.column) else before
  }

  /** The width of column `c` when parts of `threshold` columns or more are ignored. */
  function WidthOf(parts: seq<Part>, c: nat, threshold: nat): (w: nat)
    ensures w == 0 || w < threshold
  {
    if parts == [] then 0
    else
      var p := parts[|parts| - 1];
      var before := WidthOf(parts[..|parts| - 1], c, threshold);
      if p.column == c && Counts(p, threshold) then Max(before, p.screenLength) else before
  }

  /** The width of the first `n` columns together, and the widest of them. */
  function LeftWidth(parts: seq<Part>, n: nat, threshold: nat): nat {
    if n == 0 then 0 else LeftWidth(parts, n - 1, threshold) + WidthOf(parts, n - 1, threshold)
  }

  function Widest(parts: seq<Part>, n: nat, threshold: nat): (w: nat)
    ensures w == 0 || w < threshold
  {
    if n == 0 then 0 else Max(Widest(parts, n - 1, threshold), WidthOf(parts, n - 1, threshold))
  }

  /** No column is wider than the parts that count, and each width belongs to one of them. */
  lemma {:induction false} WidthOfIsMax(parts: seq<Part>, c: nat, threshold: nat)
    ensures forall k :: 0 <= k < |parts| && parts[k].column == c && Counts(parts[k], threshold) ==>
              parts[k].screenLength <= WidthOf(parts, c, threshold)
    ensures WidthOf(parts, c, threshold) > 0 ==>
              exists k :: 0 <= k < |parts| && parts[k].column == c && Counts(parts[k], threshold)
                          && parts[k].screenLength == WidthOf(parts, c, threshold)
  {
    if parts != [] {
      var front := parts[..|parts| - 1];
      WidthOfIsMax(front, c, threshold);
      assert forall k :: 0 <= k < |front| ==> front[k] == parts[k];
    }
  }

  /**
   Which parts make a column wide: those below the threshold, except that in column 0 a row without a
   separator does not take part, unless the part is not on its first line.
  */
  lemma {:induction false} WidthIsOfTableParts(parts: seq<Part>, k: nat, threshold: nat)
    requires k < |parts|
    ensures parts[k].screenLength < threshold && (parts[k].column > 0 || parts[k].line > 0 || parts[k].separated) ==>
              parts[k].screenLength <= WidthOf(parts, parts[k].column, threshold)
    ensures parts[k].screenLength >= threshold || (parts[k].column == 0 == parts[k].line && !parts[k].separated) ==>
              forall c :: WidthOf(parts, c, threshold) == WidthOf(parts[..k] + parts[k + 1..], c, threshold)
  {
    WidthOfIsMax(parts, parts[k].column, threshold);
    if !Counts(parts[k], threshold) {
      forall c ensures WidthOf(parts, c, threshold) == WidthOf(parts[..k] + parts[k + 1..], c, threshold) {
        WithoutPart(parts, k, c, threshold);
      }
    }
  }

  lemma {:induction false} WithoutPart(parts: seq<Part>, k: nat, c: nat, threshold: nat)
    requires k < |parts| && !Counts(parts[k], threshold)
    ensures WidthOf(parts, c, threshold) == WidthOf(parts[..k] + parts[k + 1..], c, threshold)
  {
    var n := |parts| - 1;
    var less := parts[..k] + parts[k + 1..];
    if k == n {
      assert less == parts[..n];
    } else {
      assert less[..n - 1] == parts[..n][..k] + parts[..n][k + 1..] && less[n - 1] == parts[n];
      WithoutPart(parts[..n], k, c, threshold);
    }
  }

  /** The last column is the highest there is among the first eight. */
  lemma {:induction false} LastColumnIsHighest(parts: seq<Part>)
    ensures forall k :: 0 <= k < |parts| && parts[k].column < 8 ==> parts[k].column <= LastColumn(parts)
    ensures LastColumn(parts) > 0 ==> exists k :: 0 <= k < |parts| && parts[k].column == LastColumn(parts)
  {
    if parts != [] {
      var front := parts[..|parts| - 1];
      LastColumnIsHighest(front);
      assert forall k :: 0 <= k < |front| ==> front[k] == parts[k];
    }
  }

  /** A threshold between the widest part counted and the one counted with changes nothing. */
  lemma {:induction false} SameWidth(parts: seq<Part>, c: nat, low: nat, s: nat, t: nat)
    requires WidthOf(parts, c, t) <= low < s <= t
    ensures WidthOf(parts, c, s) == WidthOf(parts, c, t)
  {
    if parts != [] {
      SameWidth(parts[..|parts| - 1], c, low, s, t);
    }
  }

  lemma {:induction false} SameLeft(parts: seq<Part>, n: nat, s: nat, t: nat)
    requires Widest(parts, n, t) < s <= t
    ensures LeftWidth(parts, n, s) == LeftWidth(parts, n, t)
  {
    if n > 0 {
      SameWidth(parts, n - 1, Widest(parts, n, t), s, t);
      SameLeft(parts, n - 1, s, t);
    }
  }

  lemma {:induction false} NothingWide(parts: seq<Part>, n: nat, threshold: nat)
    requires Widest(parts, n, threshold) == 0
    ensures LeftWidth(parts, n, threshold) == 0
  {
    if n > 0 { NothingWide(parts, n - 1, threshold); }
  }

  /** The threshold a layout was made with is the largest that fits. */
  ghost predicate LargestFitting(parts: seq<Part>, width: nat, t: nat) {
    var n := LastColumn(parts);
    && t <= 10000 && LeftWidth(parts, n, t) <= width
    && forall s :: t < s <= 10000 ==> LeftWidth(parts, n, s) > width
  }

  /** One pass over the table. */
  method Measure(parts: seq<Part>, threshold: nat, colWidth: array<nat>) returns (lastColumn: nat)
    requires colWidth.Length == MAX_COLUMNS
    modifies colWidth
    ensures lastColumn == LastColumn(parts)
    ensures forall c :: 0 <= c < MAX_COLUMNS ==> colWidth[c] == WidthOf(parts, c, threshold)
  {
    lastColumn := 0;
    for i := 0 to MAX_COLUMNS
      invariant forall c :: 0 <= c < i ==> colWidth[c] == 0
    {
      colWidth[i] := 0;
    }
    for k := 0 to |parts|
      invariant lastColumn == LastColumn(parts[..k])
      invariant forall c :: 0 <= c < MAX_COLUMNS ==> colWidth[c] == WidthOf(parts[..k], c, threshold)
    {
      assert parts[..k + 1][..k] == parts[..k];
      var part := parts[k];
      if part.column < MAX_COLUMNS {
        lastColumn := Max(lastColumn, part.column);
        if part.screenLength < threshold && (part.column > 0 || part.line > 0 || part.separated) {
          colWidth[part.column] := Max(colWidth[part.column], part.screenLength);
        }
      }
    }
    assert parts[..|parts|] == parts;
  }

  /**
   The whole loop: it terminates because the threshold falls, with columns that fit and the largest threshold that
   lets them.
  */
  method FitColumns(parts: seq<Part>, width: nat)
    returns (colWidth: array<nat>, lastColumn: nat, leftWidth: nat, ghost used: nat)
    requires 1 <= width <= 10000
    ensures fresh(colWidth) && colWidth.Length == MAX_COLUMNS && lastColumn == LastColumn(parts)
    ensures LargestFitting(parts, width, used)
    ensures forall c :: 0 <= c < MAX_COLUMNS ==> colWidth[c] == WidthOf(parts, c, used)
    ensures leftWidth == LeftWidth(parts, lastColumn, used) <= width
  {
    colWidth := new nat[MAX_COLUMNS];
    var threshold: nat := INITIAL_THRESHOLD;
    ghost var n := LastColumn(parts);
    while true
      invariant threshold <= INITIAL_THRESHOLD && fresh(colWidth)
      invariant forall s :: threshold < s <= INITIAL_THRESHOLD ==> LeftWidth(parts, n, s) > width
      decreases threshold
    {
      used := threshold;
      lastColumn := Measure(parts, threshold, colWidth);
      leftWidth, threshold := 0, 0;
      for i := 0 to lastColumn
        invariant leftWidth == LeftWidth(parts, i, used) && threshold == Widest(parts, i, used)
        invariant forall c :: 0 <= c < MAX_COLUMNS ==> colWidth[c] == WidthOf(parts, c, used)
      {
        leftWidth := leftWidth + colWidth[i];
        threshold := Max(threshold, colWidth[i]);
      }
      if leftWidth <= width {
        return;
      }
      forall s | threshold < s <= used
        ensures LeftWidth(parts, n, s) > width
      {
        SameLeft(parts, n, s, used);
      }
      if threshold == 0 {
        NothingWide(parts, n, used);
      }
    }
  }
}
