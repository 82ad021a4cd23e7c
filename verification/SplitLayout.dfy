/**
 * How a tab's panes share the screen (src/components/terminal/SplitLayout.tsx): rectangles from rows of
 * columns and two levels of fractions, and dividers that trade size between neighbours. Sizes are reals.
 */
module SplitLayout {
  import opened Basics

  const MIN_FR := 0.15

  /** Rows of pane ids, top to bottom, left to right. */
  type Rows = seq<seq<string>>

  function Sum(fr: seq<real>): real {
    if fr == [] then 0.0 else fr[0] + Sum(fr[1..])
  }

  predicate Positive(fr: seq<real>) { forall i :: 0 <= i < |fr| ==> fr[i] > 0.0 }

  /** A full set of shares. */
  predicate Whole(fr: seq<real>) { Positive(fr) && Sum(fr) == 1.0 }

  /** Shares no divider could have squeezed too far. */
  predicate Roomy(fr: seq<real>) { Sum(fr) == 1.0 && forall i :: 0 <= i < |fr| ==> fr[i] >= MIN_FR }

  function Equal(n: nat): (r: seq<real>)
    requires n > 0
    ensures |r| == n && forall i :: 0 <= i < n ==> r[i] == 1.0 / (n as real)
  {
    seq(n, i => 1.0 / (n as real))
  }

  /** Stored sizes, or equal shares when there are none of the right length. */
  function Shares(fr: Option<seq<real>>, n: nat): (r: seq<real>)
    requires n > 0
    ensures |r| == n
  {
    if fr.Some? && |fr.value| == n then fr.value else Equal(n)
  }

  /** Running start offsets. */
  function Offset(fr: seq<real>, i: nat): real
    requires i <= |fr|
  {
    Sum(fr[..i])
  }

  // ---- sums ----

  lemma {:induction false} SumConcat(a: seq<real>, b: seq<real>)
    ensures Sum(a + b) == Sum(a) + Sum(b)
    decreases |a|
  {
    if a == [] {
      assert a + b == b;
    } else {
      assert (a + b)[1..] == a[1..] + b;
      SumConcat(a[1..], b);
    }
  }

  lemma {:induction false} SumOfConstant(n: nat, v: real, fr: seq<real>)
    requires |fr| == n && forall i :: 0 <= i < n ==> fr[i] == v
    ensures Sum(fr) == (n as real) * v
    decreases n
  {
    if n > 0 { SumOfConstant(n - 1, v, fr[1..]); }
  }

  lemma EqualIsWhole(n: nat)
    requires n > 0
    ensures Whole(Equal(n))
    ensures n <= 6 ==> Roomy(Equal(n))
  {
    SumOfConstant(n, 1.0 / (n as real), Equal(n));
    assert n == 1 || n == 2 || n == 3 || n == 4 || n == 5 || n == 6 || n > 6;
  }

  lemma OffsetNext(fr: seq<real>, i: nat)
    requires i < |fr|
    ensures Offset(fr, i + 1) == Offset(fr, i) + fr[i]
  {
    assert fr[..i + 1] == fr[..i] + [fr[i]];
    SumConcat(fr[..i], [fr[i]]);
    assert [fr[i]][1..] == [];
  }

  // ---- rectangles ----

  datatype Rect = Rect(x: real, y: real, w: real, h: real)

  predicate Contains(r: Rect, x: real, y: real) {
    r.x <= x < r.x + r.w && r.y <= y < r.y + r.h
  }

  /** A tab's stored sizes, as the last drags left them; lengths may be stale. */
  datatype Sizes = Sizes(rowFr: Option<seq<real>>, colFr: Option<seq<seq<real>>>)

  predicate ShapeOk(rows: Rows) { rows != [] && forall r :: 0 <= r < |rows| ==> rows[r] != [] }

  function RowShares(sizes: Sizes, rows: Rows): (fr: seq<real>)
    requires ShapeOk(rows)
    ensures |fr| == |rows|
  {
    Shares(sizes.rowFr, |rows|)
  }

  /** `tab.colFr?.[r]`. */
  function StoredCols(sizes: Sizes, r: nat): Option<seq<real>> {
    if sizes.colFr.Some? && r < |sizes.colFr.value| then Some(sizes.colFr.value[r]) else None
  }

  function ColShares(sizes: Sizes, rows: Rows, r: nat): (fr: seq<real>)
    requires ShapeOk(rows) && r < |rows|
    ensures |fr| == |rows[r]|
  {
    Shares(StoredCols(sizes, r), |rows[r]|)
  }

  function CellRect(sizes: Sizes, rows: Rows, r: nat, c: nat): Rect
    requires ShapeOk(rows) && r < |rows| && c < |rows[r]|
  {
    var rowFr, colFr := RowShares(sizes, rows), ColShares(sizes, rows, r);
    Rect(Offset(colFr, c), Offset(rowFr, r), colFr[c], rowFr[r])
  }

  /** No pane sits in two cells. */
  ghost predicate Distinct(rows: Rows) {
    forall r, c, r', c' ::
      && 0 <= r < |rows| && 0 <= c < |rows[r]| && 0 <= r' < |rows| && 0 <= c' < |rows[r']|
      && rows[r][c] == rows[r'][c']
      ==> r == r' && c == c'
  }

  ghost predicate IsCell(rows: Rows, id: string, r: nat, c: nat) {
    r < |rows| && c < |rows[r]| && rows[r][c] == id
  }

  method ComputeRects(sizes: Sizes, rows: Rows) returns (rects: map<string, Rect>)
    requires ShapeOk(rows) && Distinct(rows)
    ensures forall id :: id in rects <==> exists r: nat, c: nat :: IsCell(rows, id, r, c)
    ensures forall r: nat, c: nat, id :: IsCell(rows, id, r, c) ==>
      id in rects && rects[id] == CellRect(sizes, rows, r, c)
  {
    rects := map[];
    var rowFr := RowShares(sizes, rows);
    var r := 0;
    while r < |rows|
      invariant r <= |rows|
      invariant forall id :: id in rects ==> exists r': nat, c: nat :: IsCell(rows, id, r', c)
      invariant forall r': nat, c: nat, id :: r' < r && IsCell(rows, id, r', c) ==>
                  id in rects && rects[id] == CellRect(sizes, rows, r', c)
    {
      var colFr := ColShares(sizes, rows, r);
      var c := 0;
      while c < |rows[r]|
        invariant c <= |rows[r]|
        invariant forall id :: id in rects ==> exists r': nat, c': nat :: IsCell(rows, id, r', c')
        invariant forall r': nat, c': nat, id :: (r' < r || (r' == r && c' < c)) && IsCell(rows, id, r', c') ==>
                    id in rects && rects[id] == CellRect(sizes, rows, r', c')
      {
        assert IsCell(rows, rows[r][c], r, c);
        rects := rects[rows[r][c] := Rect(Offset(colFr, c), Offset(rowFr, r), colFr[c], rowFr[r])];
        c := c + 1;
      }
      r := r + 1;
    }
  }

  /** Sizes of the right length decide; without such, everyone gets the same. */
  lemma StoredSizesDecide(sizes: Sizes, rows: Rows, r: nat, c: nat)
    requires ShapeOk(rows) && r < |rows| && c < |rows[r]|
    ensures var rect, cols := CellRect(sizes, rows, r, c), |rows[r]|;
      && (if sizes.rowFr.Some? && |sizes.rowFr.value| == |rows| then
            rect.h == sizes.rowFr.value[r] && rect.y == Sum(sizes.rowFr.value[..r])
          else rect.h == 1.0 / (|rows| as real) && rect.y == (r as real) / (|rows| as real))
      && (if sizes.colFr.Some? && r < |sizes.colFr.value| && |sizes.colFr.value[r]| == cols then
            rect.w == sizes.colFr.value[r][c] && rect.x == Sum(sizes.colFr.value[r][..c])
          else rect.w == 1.0 / (cols as real) && rect.x == (c as real) / (cols as real))
  {
    EqualOffset(|rows|, r);
    EqualOffset(|rows[r]|, c);
  }

  lemma EqualOffset(n: nat, i: nat)
    requires i < n
    ensures Offset(Equal(n), i) == (i as real) / (n as real)
  {
    SumOfConstant(i, 1.0 / (n as real), Equal(n)[..i]);
  }

  // ---- one line of shares ----

  /** The stretch of line that share `i` takes; none if the share is not positive. */
  predicate InPiece(fr: seq<real>, i: nat, x: real) {
    i < |fr| && Offset(fr, i) <= x < Offset(fr, i) + fr[i]
  }

  ghost predicate Hit(fr: seq<real>, x: real) { exists i: nat :: InPiece(fr, i, x) }

  ghost predicate Apart(fr: seq<real>) {
    forall i: nat, j: nat, x :: InPiece(fr, i, x) && InPiece(fr, j, x) ==> i == j
  }

  /** Each point from 0 up to `left` is in exactly one piece, and no other point is in any. */
  ghost predicate Covers(fr: seq<real>, left: real) {
    Apart(fr) && forall x :: Hit(fr, x) <==> 0.0 <= x < left
  }

  /** Shares that are not negative add up to `left`; then nothing more comes. */
  predicate Fills(fr: seq<real>, left: real) {
    if left == 0.0 then forall i :: 0 <= i < |fr| ==> fr[i] <= 0.0
    else fr != [] && 0.0 <= fr[0] <= left && Fills(fr[1..], left - fr[0])
  }

  /** The pieces after the first, seen from where it ends. */
  lemma NextPiece(fr: seq<real>, i: nat, x: real)
    requires fr != []
    ensures InPiece(fr, i + 1, x) <==> InPiece(fr[1..], i, x - fr[0])
    ensures InPiece(fr, 0, x) <==> 0.0 <= x < fr[0]
  {
    assert fr[..0] == [];
    if i + 1 < |fr| {
      assert fr[..i + 1] == [fr[0]] + fr[1..][..i];
      assert fr[..i + 1][1..] == fr[1..][..i];
    }
  }

  lemma HitNext(fr: seq<real>, x: real)
    requires fr != []
    ensures Hit(fr, x) <==> 0.0 <= x < fr[0] || Hit(fr[1..], x - fr[0])
  {
    NextPiece(fr, 0, x);
    if Hit(fr, x) {
      var i: nat :| InPiece(fr, i, x);
      if i > 0 { NextPiece(fr, i - 1, x); }
    }
    if Hit(fr[1..], x - fr[0]) {
      var i: nat :| InPiece(fr[1..], i, x - fr[0]);
      NextPiece(fr, i, x);
    }
  }

  lemma ApartNext(fr: seq<real>)
    requires fr != [] && Apart(fr)
    ensures Apart(fr[1..])
  {
    forall i: nat, j: nat, x | InPiece(fr[1..], i, x) && InPiece(fr[1..], j, x) ensures i == j {
      NextPiece(fr, i, x + fr[0]);
      NextPiece(fr, j, x + fr[0]);
    }
  }

  lemma NotInFirst(fr: seq<real>, x: real)
    requires fr != [] && Apart(fr) && Hit(fr[1..], x - fr[0])
    ensures !(0.0 <= x < fr[0])
  {
    var i: nat :| InPiece(fr[1..], i, x - fr[0]);
    NextPiece(fr, i, x);
    NextPiece(fr, 0, x);
  }

  lemma ApartFromNext(fr: seq<real>)
    requires fr != [] && Apart(fr[1..]) && forall x :: Hit(fr[1..], x) ==> 0.0 <= x
    ensures Apart(fr)
  {
    forall i: nat, j: nat, x | InPiece(fr, i, x) && InPiece(fr, j, x) ensures i == j {
      FirstOrLater(fr, i, x);
      FirstOrLater(fr, j, x);
    }
  }

  lemma FirstOrLater(fr: seq<real>, i: nat, x: real)
    requires fr != [] && InPiece(fr, i, x)
    ensures i == 0 ==> x < fr[0]
    ensures i > 0 ==> InPiece(fr[1..], i - 1, x - fr[0]) && Hit(fr[1..], x - fr[0])
  {
    NextPiece(fr, 0, x);
    if i > 0 { NextPiece(fr, i - 1, x); }
  }

  /** A line that goes from below 0 to 0 or more takes some point below 0. */
  lemma {:induction false} Crosses(fr: seq<real>, i: nat, j: nat) returns (k: nat)
    requires i <= j <= |fr| && Offset(fr, i) < 0.0 <= Offset(fr, j)
    ensures k < |fr| && Offset(fr, k) < 0.0 && InPiece(fr, k, Offset(fr, k))
    decreases j - i
  {
    OffsetNext(fr, i);
    if Offset(fr, i + 1) >= 0.0 { k := i; } else { k := Crosses(fr, i + 1, j); }
  }

  lemma CoversNext(fr: seq<real>, left: real)
    requires fr != [] && 0.0 <= fr[0] <= left
    ensures Covers(fr, left) <==> Covers(fr[1..], left - fr[0])
  {
    if Covers(fr, left) {
      ApartNext(fr);
      forall x ensures Hit(fr[1..], x) <==> 0.0 <= x < left - fr[0] {
        assert x + fr[0] - fr[0] == x;
        HitNext(fr, x + fr[0]);
        if Hit(fr[1..], x) { NotInFirst(fr, x + fr[0]); }
      }
    }
    if Covers(fr[1..], left - fr[0]) {
      ApartFromNext(fr);
      forall x ensures Hit(fr, x) <==> 0.0 <= x < left { HitNext(fr, x); }
    }
  }

  lemma StartsWithin(fr: seq<real>, left: real)
    requires Covers(fr, left) && left > 0.0
    ensures fr != [] && 0.0 <= fr[0] <= left
  {
    assert Hit(fr, 0.0);
    var i: nat :| InPiece(fr, i, 0.0);
    NextPiece(fr, 0, left);
    assert !Hit(fr, left);
    assert !InPiece(fr, 0, left);
    if fr[0] < 0.0 { DipsBelow(fr, i); }
  }

  /** A line that first goes back and still takes 0 takes a point below it. */
  lemma DipsBelow(fr: seq<real>, i: nat)
    requires fr != [] && fr[0] < 0.0 && InPiece(fr, i, 0.0)
    ensures exists x :: x < 0.0 && Hit(fr, x)
  {
    NextPiece(fr, 0, 0.0);
    assert fr[..0] == [];
    OffsetNext(fr, 0);
    OffsetNext(fr, i);
    var k := Crosses(fr, 1, i + 1);
    assert Hit(fr, Offset(fr, k));
  }

  lemma NothingCovers(fr: seq<real>)
    ensures Covers(fr, 0.0) <==> forall i :: 0 <= i < |fr| ==> fr[i] <= 0.0
  {
    if Covers(fr, 0.0) {
      forall i | 0 <= i < |fr| ensures fr[i] <= 0.0 {
        assert fr[i] > 0.0 ==> InPiece(fr, i, Offset(fr, i));
        assert !Hit(fr, Offset(fr, i));
      }
    }
  }

  /** Covering a stretch can be checked share by share, for any shares, negative ones included. */
  lemma {:induction false} CoversIffFills(fr: seq<real>, left: real)
    requires left >= 0.0
    ensures Covers(fr, left) <==> Fills(fr, left)
    decreases |fr|
  {
    if left == 0.0 {
      NothingCovers(fr);
    } else {
      if Covers(fr, left) { StartsWithin(fr, left); }
      if fr != [] && 0.0 <= fr[0] <= left {
        CoversNext(fr, left);
        CoversIffFills(fr[1..], left - fr[0]);
      }
    }
  }

  // ---- the square ----

  predicate InSquare(x: real, y: real) { 0.0 <= x < 1.0 && 0.0 <= y < 1.0 }

  /** The pane at row `r`, column `c` contains the point. */
  predicate At(sizes: Sizes, rows: Rows, x: real, y: real, r: nat, c: nat)
    requires ShapeOk(rows)
  {
    r < |rows| && c < |rows[r]| && Contains(CellRect(sizes, rows, r, c), x, y)
  }

  ghost predicate CoveredOnce(sizes: Sizes, rows: Rows, x: real, y: real)
    requires ShapeOk(rows)
  {
    && (exists r: nat, c: nat :: At(sizes, rows, x, y, r, c))
    && (forall r: nat, c: nat, r': nat, c': nat ::
          At(sizes, rows, x, y, r, c) && At(sizes, rows, x, y, r', c') ==> r == r' && c == c')
  }

  /** The rectangles tile the half-open unit square: inside it each point is in exactly one, outside it in none. */
  ghost predicate Tiles(sizes: Sizes, rows: Rows)
    requires ShapeOk(rows)
  {
    && (forall x, y :: InSquare(x, y) ==> CoveredOnce(sizes, rows, x, y))
    && (forall x, y, r: nat, c: nat :: At(sizes, rows, x, y, r, c) ==> InSquare(x, y))
  }

  /** A row with a height and with a pane that has a width. */
  predicate Seen(sizes: Sizes, rows: Rows, r: nat)
    requires ShapeOk(rows)
  {
    && r < |rows| && RowShares(sizes, rows)[r] > 0.0
    && exists c :: 0 <= c < |rows[r]| && ColShares(sizes, rows, r)[c] > 0.0
  }

  predicate RowAt(sizes: Sizes, rows: Rows, r: nat, y: real)
    requires ShapeOk(rows)
  {
    Seen(sizes, rows, r) && InPiece(RowShares(sizes, rows), r, y)
  }

  ghost predicate RowHit(sizes: Sizes, rows: Rows, y: real)
    requires ShapeOk(rows)
  {
    exists r: nat :: RowAt(sizes, rows, r, y)
  }

  /** The rows one can see divide the height between them. */
  ghost predicate RowsDivide(sizes: Sizes, rows: Rows)
    requires ShapeOk(rows)
  {
    && (forall y :: RowHit(sizes, rows, y) <==> 0.0 <= y < 1.0)
    && (forall r: nat, r': nat, y :: RowAt(sizes, rows, r, y) && RowAt(sizes, rows, r', y) ==> r == r')
  }

  /** And the panes of each fill its width. */
  predicate ColumnsFill(sizes: Sizes, rows: Rows)
    requires ShapeOk(rows)
  {
    forall r :: 0 <= r < |rows| && Seen(sizes, rows, r) ==> Fills(ColShares(sizes, rows, r), 1.0)
  }

  lemma AtIsRowAndColumn(sizes: Sizes, rows: Rows, x: real, y: real, r: nat, c: nat)
    requires ShapeOk(rows)
    ensures At(sizes, rows, x, y, r, c) <==> RowAt(sizes, rows, r, y) && InPiece(ColShares(sizes, rows, r), c, x)
  {
    if At(sizes, rows, x, y, r, c) { assert ColShares(sizes, rows, r)[c] > 0.0; }
  }

  /** Of shares that keep to 0 and beyond, the first positive one starts at 0. */
  lemma {:induction false} FirstSeenStartsAtZero(fr: seq<real>, c: nat)
    requires c < |fr| && fr[c] > 0.0 && forall x :: Hit(fr, x) ==> 0.0 <= x
    ensures Hit(fr, 0.0)
    decreases c
  {
    if i :| 0 <= i < c && fr[i] > 0.0 {
      FirstSeenStartsAtZero(fr, i);
    } else {
      NoProgress(fr, c);
      assert InPiece(fr, c, Offset(fr, c));
      assert Hit(fr, Offset(fr, c));
    }
  }

  lemma {:induction false} NoProgress(fr: seq<real>, c: nat)
    requires c <= |fr| && forall i :: 0 <= i < c ==> fr[i] <= 0.0
    ensures Offset(fr, c) <= 0.0
  {
    if c > 0 {
      NoProgress(fr, c - 1);
      OffsetNext(fr, c - 1);
    } else {
      assert fr[..0] == [];
    }
  }

  lemma TilingDivides(sizes: Sizes, rows: Rows)
    requires ShapeOk(rows) && Tiles(sizes, rows)
    ensures RowsDivide(sizes, rows)
  {
    forall r: nat, y | RowAt(sizes, rows, r, y) ensures 0.0 <= y < 1.0 && Hit(ColShares(sizes, rows, r), 0.0) {
      SeenRowIsInside(sizes, rows, r, y);
    }
    forall y ensures RowHit(sizes, rows, y) <==> 0.0 <= y < 1.0 {
      if 0.0 <= y < 1.0 {
        assert CoveredOnce(sizes, rows, 0.0, y) by { assert InSquare(0.0, y); }
        var r: nat, c: nat :| At(sizes, rows, 0.0, y, r, c);
        AtIsRowAndColumn(sizes, rows, 0.0, y, r, c);
      }
    }
    forall r: nat, r': nat, y | RowAt(sizes, rows, r, y) && RowAt(sizes, rows, r', y) ensures r == r' {
      var c: nat :| InPiece(ColShares(sizes, rows, r), c, 0.0);
      var c': nat :| InPiece(ColShares(sizes, rows, r'), c', 0.0);
      AtIsRowAndColumn(sizes, rows, 0.0, y, r, c);
      AtIsRowAndColumn(sizes, rows, 0.0, y, r', c');
      assert CoveredOnce(sizes, rows, 0.0, y) by { assert InSquare(0.0, y); }
    }
  }

  lemma SeenRowIsInside(sizes: Sizes, rows: Rows, r: nat, y: real)
    requires ShapeOk(rows) && Tiles(sizes, rows) && RowAt(sizes, rows, r, y)
    ensures 0.0 <= y < 1.0 && Hit(ColShares(sizes, rows, r), 0.0)
  {
    var colFr := ColShares(sizes, rows, r);
    var c: nat :| c < |rows[r]| && colFr[c] > 0.0;
    forall x | Hit(colFr, x) ensures 0.0 <= x {
      var k: nat :| InPiece(colFr, k, x);
      AtIsRowAndColumn(sizes, rows, x, y, r, k);
      assert InSquare(x, y);
    }
    FirstSeenStartsAtZero(colFr, c);
    var k: nat :| InPiece(colFr, k, 0.0);
    AtIsRowAndColumn(sizes, rows, 0.0, y, r, k);
    assert InSquare(0.0, y);
  }

  lemma TilingFills(sizes: Sizes, rows: Rows, r: nat)
    requires ShapeOk(rows) && Tiles(sizes, rows) && RowsDivide(sizes, rows) && Seen(sizes, rows, r)
    ensures Fills(ColShares(sizes, rows, r), 1.0)
  {
    var colFr, y := ColShares(sizes, rows, r), Offset(RowShares(sizes, rows), r);
    assert RowAt(sizes, rows, r, y);
    forall x ensures Hit(colFr, x) <==> 0.0 <= x < 1.0 { ColumnAtRow(sizes, rows, r, x, y); }
    forall c: nat, c': nat, x | InPiece(colFr, c, x) && InPiece(colFr, c', x) ensures c == c' {
      ColumnAtRow(sizes, rows, r, x, y);
      AtIsRowAndColumn(sizes, rows, x, y, r, c);
      AtIsRowAndColumn(sizes, rows, x, y, r, c');
      assert Hit(colFr, x);
    }
    CoversIffFills(colFr, 1.0);
  }

  lemma ColumnAtRow(sizes: Sizes, rows: Rows, r: nat, x: real, y: real)
    requires ShapeOk(rows) && Tiles(sizes, rows) && RowsDivide(sizes, rows) && RowAt(sizes, rows, r, y)
    ensures Hit(ColShares(sizes, rows, r), x) <==> 0.0 <= x < 1.0
    ensures 0.0 <= x < 1.0 ==> CoveredOnce(sizes, rows, x, y)
  {
    var colFr := ColShares(sizes, rows, r);
    assert RowHit(sizes, rows, y);
    if Hit(colFr, x) {
      var c: nat :| InPiece(colFr, c, x);
      AtIsRowAndColumn(sizes, rows, x, y, r, c);
      assert InSquare(x, y);
    }
    if 0.0 <= x < 1.0 {
      assert InSquare(x, y);
      var r': nat, c: nat :| At(sizes, rows, x, y, r', c);
      AtIsRowAndColumn(sizes, rows, x, y, r', c);
    }
  }

  lemma DividedAndFilledTiles(sizes: Sizes, rows: Rows)
    requires ShapeOk(rows) && RowsDivide(sizes, rows) && ColumnsFill(sizes, rows)
    ensures Tiles(sizes, rows)
  {
    forall x, y | InSquare(x, y) ensures CoveredOnce(sizes, rows, x, y) { PointIsInOnePane(sizes, rows, x, y); }
    forall x, y, r: nat, c: nat | At(sizes, rows, x, y, r, c) ensures InSquare(x, y) {
      AtIsRowAndColumn(sizes, rows, x, y, r, c);
      assert RowHit(sizes, rows, y);
      CoversIffFills(ColShares(sizes, rows, r), 1.0);
      assert Hit(ColShares(sizes, rows, r), x);
    }
  }

  lemma PointIsInOnePane(sizes: Sizes, rows: Rows, x: real, y: real)
    requires ShapeOk(rows) && RowsDivide(sizes, rows) && ColumnsFill(sizes, rows) && InSquare(x, y)
    ensures CoveredOnce(sizes, rows, x, y)
  {
    assert RowHit(sizes, rows, y);
    var r: nat :| RowAt(sizes, rows, r, y);
    CoversIffFills(ColShares(sizes, rows, r), 1.0);
    assert Hit(ColShares(sizes, rows, r), x);
    var c: nat :| InPiece(ColShares(sizes, rows, r), c, x);
    AtIsRowAndColumn(sizes, rows, x, y, r, c);
    forall r': nat, c': nat | At(sizes, rows, x, y, r', c') ensures r' == r && c' == c {
      AtIsRowAndColumn(sizes, rows, x, y, r', c');
    }
  }

  /**
   * For every layout and all stored sizes, of whatever length and whatever value: the panes tile the unit square
   * exactly when the rows one can see divide the height and the panes of each fill the width. A stored array of a
   * stale length is not in use and may hold anything.
   */
  lemma TilesIffDividedAndFilled(sizes: Sizes, rows: Rows)
    requires ShapeOk(rows)
    ensures Tiles(sizes, rows) <==> RowsDivide(sizes, rows) && ColumnsFill(sizes, rows)
  {
    if Tiles(sizes, rows) {
      TilingDivides(sizes, rows);
      forall r | 0 <= r < |rows| && Seen(sizes, rows, r) ensures Fills(ColShares(sizes, rows, r), 1.0) {
        TilingFills(sizes, rows, r);
      }
    }
    if RowsDivide(sizes, rows) && ColumnsFill(sizes, rows) { DividedAndFilledTiles(sizes, rows); }
  }

  /** Where every row with a height shows something, dividing the height can be checked share by share too. */
  lemma RowsDivideIffFill(sizes: Sizes, rows: Rows)
    requires ShapeOk(rows) && forall r :: 0 <= r < |rows| && RowShares(sizes, rows)[r] > 0.0 ==> Seen(sizes, rows, r)
    ensures RowsDivide(sizes, rows) <==> Fills(RowShares(sizes, rows), 1.0)
  {
    var rowFr := RowShares(sizes, rows);
    forall r: nat, y ensures RowAt(sizes, rows, r, y) <==> InPiece(rowFr, r, y) {
      if InPiece(rowFr, r, y) { assert rowFr[r] > 0.0; }
    }
    forall y ensures Hit(rowFr, y) <==> RowHit(sizes, rows, y) {
      if Hit(rowFr, y) { var r: nat :| InPiece(rowFr, r, y); assert RowAt(sizes, rows, r, y); }
    }
    CoversIffFills(rowFr, 1.0);
  }

  /** Positive shares fill the line exactly when they sum to its length. */
  lemma {:induction false} PositiveFills(fr: seq<real>, left: real)
    requires Positive(fr) && left >= 0.0
    ensures Fills(fr, left) <==> Sum(fr) == left
    decreases |fr|
  {
    if fr != [] {
      PositiveSum(fr[1..]);
      if left > 0.0 && fr[0] <= left { PositiveFills(fr[1..], left - fr[0]); }
    }
  }

  lemma {:induction false} PositiveSum(fr: seq<real>)
    requires Positive(fr)
    ensures Sum(fr) >= 0.0
  {
    if fr != [] { PositiveSum(fr[1..]); }
  }

  /** Consecutive positive shares cover the stretch up to their sum, each point once. */
  lemma PositiveSharesCover(fr: seq<real>)
    requires Positive(fr)
    ensures Covers(fr, Sum(fr))
  {
    PositiveSum(fr);
    PositiveFills(fr, Sum(fr));
    CoversIffFills(fr, Sum(fr));
  }

  /** Positive shares, as drags leave them, tile exactly when every set in use sums to 1. */
  lemma PositiveTilesIffWhole(sizes: Sizes, rows: Rows)
    requires ShapeOk(rows) && Positive(RowShares(sizes, rows))
    requires forall r :: 0 <= r < |rows| ==> Positive(ColShares(sizes, rows, r))
    ensures Tiles(sizes, rows) <==>
      Sum(RowShares(sizes, rows)) == 1.0 && forall r :: 0 <= r < |rows| ==> Sum(ColShares(sizes, rows, r)) == 1.0
  {
    forall r | 0 <= r < |rows|
      ensures Seen(sizes, rows, r)
      ensures Fills(ColShares(sizes, rows, r), 1.0) <==> Sum(ColShares(sizes, rows, r)) == 1.0
    {
      assert ColShares(sizes, rows, r)[0] > 0.0;
      PositiveFills(ColShares(sizes, rows, r), 1.0);
    }
    TilesIffDividedAndFilled(sizes, rows);
    RowsDivideIffFill(sizes, rows);
    PositiveFills(RowShares(sizes, rows), 1.0);
  }

  // ---- dragging ----

  function Clamp(v: real, lo: real, hi: real): real {
    var m := if v < lo then lo else v;
    if m < hi then m else hi
  }

  /** One mouse move of a drag that began on `fr`, at the divider before entry `i`. */
  function Moved(fr: seq<real>, i: nat, delta: real): seq<real>
    requires 0 < i < |fr|
  {
    var total := fr[i - 1] + fr[i];
    var first := Clamp(fr[i - 1] + delta, MIN_FR, total - MIN_FR);
    fr[i - 1 := first][i := total - first]
  }

  method OnMove(fr: seq<real>, i: nat, delta: real) returns (next: seq<real>)
    requires 0 < i < |fr|
    ensures next == Moved(fr, i, delta)
  {
    var total := fr[i - 1] + fr[i];
    next := fr;
    next := next[i - 1 := Clamp(fr[i - 1] + delta, MIN_FR, total - MIN_FR)];
    next := next[i := total - next[i - 1]];
  }

  lemma SumAround(fr: seq<real>, i: nat)
    requires 0 < i < |fr|
    ensures Sum(fr) == Sum(fr[..i - 1]) + (fr[i - 1] + fr[i]) + Sum(fr[i + 1..])
  {
    var before, pair, after := fr[..i - 1], [fr[i - 1], fr[i]], fr[i + 1..];
    assert fr == before + (pair + after);
    ThreeParts(before, pair, after);
    SumOfTwo(fr[i - 1], fr[i]);
  }

  lemma ThreeParts(a: seq<real>, b: seq<real>, c: seq<real>)
    ensures Sum(a + (b + c)) == Sum(a) + Sum(b) + Sum(c)
  {
    SumConcat(a, b + c);
    SumConcat(b, c);
  }

  lemma SumOfTwo(a: real, b: real)
    ensures Sum([a, b]) == a + b
  {
    assert [b][1..] == [];
    assert Sum([b]) == b;
    assert [a, b][1..] == [b];
  }

  /** The two neighbours trade size between themselves; nobody is squeezed away, nobody else moves. */
  lemma MoveKeepsRoomy(fr: seq<real>, i: nat, delta: real)
    requires 0 < i < |fr| && Roomy(fr)
    ensures var next := Moved(fr, i, delta);
            && Roomy(next) && |next| == |fr|
            && next[i - 1] + next[i] == fr[i - 1] + fr[i]
            && forall k :: 0 <= k < |fr| && k != i - 1 && k != i ==> next[k] == fr[k]
    ensures var total, first := fr[i - 1] + fr[i], Moved(fr, i, delta)[i - 1];
      && (fr[i - 1] + delta <= MIN_FR ==> first == MIN_FR)
      && (MIN_FR <= fr[i - 1] + delta <= total - MIN_FR ==> first == fr[i - 1] + delta)
      && (total - MIN_FR <= fr[i - 1] + delta ==> first == total - MIN_FR)
  {
    var next := Moved(fr, i, delta);
    SumAround(fr, i);
    SumAround(next, i);
    assert next[..i - 1] == fr[..i - 1] && next[i + 1..] == fr[i + 1..];
  }

  // ---- every drag sequence ----

  /** What a mouse-down handler captured: the arrays on screen at that moment. */
  datatype Drag = DragRow(fr: seq<real>, i: nat) | DragCol(cols: seq<seq<real>>, r: nat, i: nat)

  predicate DragOk(d: Drag) {
    match d
    case DragRow(fr, i) => Roomy(fr) && 0 < i < |fr|
    case DragCol(cols, r, i) => (forall k :: 0 <= k < |cols| ==> Roomy(cols[k])) && r < |cols| && 0 < i < |cols[r]|
  }

  /** `rows` is the layout on screen; `drag` the divider held, if any. */
  datatype View = View(sizes: Sizes, rows: Rows, drag: Option<Drag>)

  datatype Event =
    | GrabRow(i: nat)
    | GrabCol(r: nat, i: nat)
    | Move(delta: real)
    | Drop
    | Relayout(rows: Rows)

  /** At most six panes in a row and six rows, far more than a tab ever holds. */
  predicate OnScreen(rows: Rows) { ShapeOk(rows) && |rows| <= 6 && forall r :: 0 <= r < |rows| ==> |rows[r]| <= 6 }

  predicate Enabled(v: View, e: Event) {
    match e
    case GrabRow(i) => 0 < i < |v.rows|
    case GrabCol(r, i) => r < |v.rows| && 0 < i < |v.rows[r]|
    case Move(_) => v.drag.Some?
    case Drop => true
    case Relayout(rows) => OnScreen(rows)
  }

  function AllCols(v: View): (cols: seq<seq<real>>)
    requires ShapeOk(v.rows)
    ensures |cols| == |v.rows| && forall r :: 0 <= r < |cols| ==> cols[r] == ColShares(v.sizes, v.rows, r)
  {
    seq(|v.rows|, r requires 0 <= r < |v.rows| => ColShares(v.sizes, v.rows, r))
  }

  function Step(v: View, e: Event): View
    requires OnScreen(v.rows) && Enabled(v, e) && (v.drag.Some? ==> DragOk(v.drag.value))
  {
    match e
    case GrabRow(i) => v.(drag := Some(DragRow(RowShares(v.sizes, v.rows), i)))
    case GrabCol(r, i) => v.(drag := Some(DragCol(AllCols(v), r, i)))
    case Move(delta) =>
      (match v.drag.value
       case DragRow(fr, i) => v.(sizes := v.sizes.(rowFr := Some(Moved(fr, i, delta))))
       case DragCol(cols, r, i) => v.(sizes := v.sizes.(colFr := Some(cols[r := Moved(cols[r], i, delta)]))))
    case Drop => v.(drag := None)
    case Relayout(rows) => v.(rows := rows)
  }

  predicate SizesRoomy(sizes: Sizes) {
    && (sizes.rowFr.Some? ==> Roomy(sizes.rowFr.value))
    && (sizes.colFr.Some? ==> forall r :: 0 <= r < |sizes.colFr.value| ==> Roomy(sizes.colFr.value[r]))
  }

  predicate Inv(v: View) {
    OnScreen(v.rows) && SizesRoomy(v.sizes) && (v.drag.Some? ==> DragOk(v.drag.value))
  }

  lemma SharesAreRoomy(fr: Option<seq<real>>, n: nat)
    requires 0 < n <= 6 && (fr.Some? ==> Roomy(fr.value))
    ensures Roomy(Shares(fr, n))
  {
    EqualIsWhole(n);
  }

  lemma StepKeepsInv(v: View, e: Event)
    requires Inv(v) && Enabled(v, e)
    ensures Inv(Step(v, e))
  {
    match e
    case GrabRow(i) => SharesAreRoomy(v.sizes.rowFr, |v.rows|);
    case GrabCol(r, i) =>
      forall k | 0 <= k < |v.rows| ensures Roomy(AllCols(v)[k]) { SharesAreRoomy(StoredCols(v.sizes, k), |v.rows[k]|); }
    case Move(delta) =>
      match v.drag.value {
        case DragRow(fr, i) => MoveKeepsRoomy(fr, i, delta);
        case DragCol(cols, r, i) => MoveKeepsRoomy(cols[r], i, delta);
      }
    case Drop =>
    case Relayout(rows) =>
  }

  // ---- what a drag does to the panes ----

  /** Where the mouse puts the divider between two neighbours of these sizes. */
  function Followed(before: real, after: real, delta: real): (first: real)
    requires before >= 0.15 && after >= 0.15
    ensures 0.15 <= first <= before + after - 0.15
    ensures first == before + delta || (first == 0.15 && before + delta < 0.15)
      || (first == before + after - 0.15 && before + delta > first)
  {
    if before + delta < 0.15 then 0.15
    else if before + delta > before + after - 0.15 then before + after - 0.15
    else before + delta
  }

  lemma MovedFollows(fr: seq<real>, i: nat, delta: real)
    requires 0 < i < |fr| && Roomy(fr)
    ensures Moved(fr, i, delta)[i - 1] == Followed(fr[i - 1], fr[i], delta)
  {
    MoveKeepsRoomy(fr, i, delta);
  }

  /** Grabbing the divider above row `i` and moving the mouse resizes rows `i - 1` and `i`, and no width at all. */
  lemma RowDragResizes(v: View, i: nat, delta: real, r: nat, c: nat)
    requires Inv(v) && 0 < i < |v.rows| && r < |v.rows| && c < |v.rows[r]|
    ensures var grabbed := Step(v, GrabRow(i));
      && grabbed.drag.Some? && DragOk(grabbed.drag.value)
      && var before, after := CellRect(v.sizes, v.rows, r, c), CellRect(Step(grabbed, Move(delta)).sizes, v.rows, r, c);
      var rows := RowShares(v.sizes, v.rows);
      && rows[i - 1] >= MIN_FR && rows[i] >= MIN_FR
      && var first := Followed(rows[i - 1], rows[i], delta);
      && after.h == (if r == i - 1 then first else if r == i then rows[i - 1] + rows[i] - first else before.h)
      && after.w == before.w && after.x == before.x
  {
    SharesAreRoomy(v.sizes.rowFr, |v.rows|);
    MovedFollows(RowShares(v.sizes, v.rows), i, delta);
    MoveKeepsRoomy(RowShares(v.sizes, v.rows), i, delta);
  }

  /** The divider left of column `i` of row `k` resizes two panes of that row, and no height at all. */
  lemma ColumnDragResizes(v: View, k: nat, i: nat, delta: real, r: nat, c: nat)
    requires Inv(v) && k < |v.rows| && 0 < i < |v.rows[k]| && r < |v.rows| && c < |v.rows[r]|
    ensures var grabbed := Step(v, GrabCol(k, i));
      && grabbed.drag.Some? && DragOk(grabbed.drag.value)
      && var before, after := CellRect(v.sizes, v.rows, r, c), CellRect(Step(grabbed, Move(delta)).sizes, v.rows, r, c);
      var cols := ColShares(v.sizes, v.rows, k);
      && cols[i - 1] >= MIN_FR && cols[i] >= MIN_FR
      && var first := Followed(cols[i - 1], cols[i], delta);
      && after.w == (if r != k then before.w else if c == i - 1 then first
                     else if c == i then cols[i - 1] + cols[i] - first else before.w)
      && after.h == before.h && after.y == before.y
  {
    var cols := ColShares(v.sizes, v.rows, k);
    SharesAreRoomy(StoredCols(v.sizes, k), |v.rows[k]|);
    StepKeepsInv(v, GrabCol(k, i));
    MovedFollows(cols, i, delta);
    MoveKeepsRoomy(cols, i, delta);
  }

  /** Another layout takes the stored sizes with it, and they decide where their length fits. */
  lemma RelayoutKeepsSizes(v: View, rows: Rows, r: nat, c: nat)
    requires Inv(v) && OnScreen(rows) && r < |rows| && c < |rows[r]|
    ensures var after := Step(v, Relayout(rows));
      && after.rows == rows && after.sizes == v.sizes && after.drag == v.drag
      && (v.sizes.rowFr.Some? && |v.sizes.rowFr.value| == |rows| ==>
            CellRect(after.sizes, after.rows, r, c).h == v.sizes.rowFr.value[r])
  {
    StoredSizesDecide(v.sizes, rows, r, c);
  }

  /** Of one drag the mouse's last place alone counts: moves are taken from where it began. */
  lemma LastMoveCounts(v: View, early: real, late: real)
    requires Inv(v) && v.drag.Some?
    ensures Inv(Step(v, Move(early))) && Step(Step(v, Move(early)), Move(late)) == Step(v, Move(late))
    ensures Step(Step(v, Move(late)), Drop) == Step(v, Move(late)).(drag := None)
  {
    StepKeepsInv(v, Move(early));
    StepKeepsInv(v, Move(late));
  }

  predicate Legal(v: View, events: seq<Event>)
    requires Inv(v)
    decreases |events|
  {
    events == [] || (Enabled(v, events[0]) && (StepKeepsInv(v, events[0]); Legal(Step(v, events[0]), events[1..])))
  }

  function Run(v: View, events: seq<Event>): View
    requires Inv(v) && Legal(v, events)
    decreases |events|
  {
    if events == [] then v
    else
      StepKeepsInv(v, events[0]);
      Run(Step(v, events[0]), events[1..])
  }

  lemma {:induction false} RunKeepsInv(v: View, events: seq<Event>)
    requires Inv(v) && Legal(v, events)
    ensures Inv(Run(v, events))
    decreases |events|
  {
    if events != [] {
      StepKeepsInv(v, events[0]);
      RunKeepsInv(Step(v, events[0]), events[1..]);
    }
  }

  lemma RoomySharesAreWhole(sizes: Sizes, rows: Rows)
    requires SizesRoomy(sizes) && OnScreen(rows)
    ensures Whole(RowShares(sizes, rows)) && forall r :: 0 <= r < |rows| ==> Whole(ColShares(sizes, rows, r))
  {
    SharesAreRoomy(sizes.rowFr, |rows|);
    forall r | 0 <= r < |rows| ensures Roomy(ColShares(sizes, rows, r)) {
      SharesAreRoomy(StoredCols(sizes, r), |rows[r]|);
    }
  }

  /**
   * From a tab never resized, after any grabs, moves, drops and layout changes: every stored array still
   * sums to 1 with no entry under MIN_FR, and the panes still tile the square.
   */
  lemma DragsNeverBreakTheTiling(rows: Rows, events: seq<Event>)
    requires OnScreen(rows) && Legal(View(Sizes(None, None), rows, None), events)
    ensures var v := Run(View(Sizes(None, None), rows, None), events);
      SizesRoomy(v.sizes) && OnScreen(v.rows) && Tiles(v.sizes, v.rows)
  {
    var start := View(Sizes(None, None), rows, None);
    RunKeepsInv(start, events);
    var v := Run(start, events);
    RoomySharesAreWhole(v.sizes, v.rows);
    PositiveTilesIffWhole(v.sizes, v.rows);
  }
}
