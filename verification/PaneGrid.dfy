/**
 * The pane grid of one tab (src/store/useTabStore.ts, `findPane`, `insertPane`, `removePane`, `fits2x2`):
 * rows of pane ids, split to the right or downwards, closed again.
 */
module PaneGrid {
  import opened Basics

  type Id = nat

  type Rows = seq<seq<Id>>

  const MAX_PANES := 6
  const MAX_ROWS := 2
  const MAX_COLS := 3

  datatype Direction = Across | Down

  function Flat(rows: Rows): seq<Id> {
    if rows == [] then [] else rows[0] + Flat(rows[1..])
  }

  /** No id twice. */
  ghost predicate Once(ids: seq<Id>) { forall p :: multiset(ids)[p] <= 1 }

  /** At most two rows of at most three panes, none of them empty. */
  predicate Shape(rows: Rows) {
    1 <= |rows| <= MAX_ROWS && forall r :: 0 <= r < |rows| ==> 1 <= |rows[r]| <= MAX_COLS
  }

  /** The rows hold exactly these panes, each once. */
  ghost predicate Partition(rows: Rows, panes: seq<Id>) {
    multiset(Flat(rows)) == multiset(panes) && Once(panes)
  }

  predicate Fits2x2(rows: Rows) {
    |rows| <= 2 && forall r :: 0 <= r < |rows| ==> |rows[r]| <= 2
  }

  // ---- finding ----

  function IndexIn(row: seq<Id>, id: Id): (c: nat)
    ensures c <= |row| && (c < |row| ==> row[c] == id)
    ensures c == |row| <==> id !in row
  {
    if row == [] || row[0] == id then 0 else 1 + IndexIn(row[1..], id)
  }

  /** Row and column of a pane; None stands for `[-1, -1]`. */
  function PlaceOf(rows: Rows, id: Id): (at: Option<(nat, nat)>)
    ensures at.Some? ==> at.value.0 < |rows| && at.value.1 < |rows[at.value.0]| && rows[at.value.0][at.value.1] == id
    ensures at.None? <==> id !in Flat(rows)
  {
    if rows == [] then None
    else if IndexIn(rows[0], id) < |rows[0]| then Some((0, IndexIn(rows[0], id)))
    else
      var below := PlaceOf(rows[1..], id);
      if below.None? then None else Some((below.value.0 + 1, below.value.1))
  }

  method FindPane(rows: Rows, id: Id) returns (at: Option<(nat, nat)>)
    ensures at == PlaceOf(rows, id)
  {
    assert rows[0..] == rows;
    for r := 0 to |rows|
      invariant PlaceOf(rows, id) == var rest := PlaceOf(rows[r..], id);
        if rest.None? then None else Some((rest.value.0 + r, rest.value.1))
    {
      assert rows[r..][1..] == rows[r + 1..];
      var c := IndexIn(rows[r], id);
      if c < |rows[r]| { return Some((r, c)); }
    }
    return None;
  }

  // ---- splitting ----

  /** `row.splice(c, 0, id)`. */
  function Spliced(row: seq<Id>, c: nat, id: Id): seq<Id>
    requires c <= |row|
  {
    row[..c] + [id] + row[c..]
  }

  predicate InGrid(rows: Rows, at: Option<(nat, nat)>) {
    at.Some? ==> at.value.0 < |rows| && at.value.1 < |rows[at.value.0]|
  }

  function InsertAt(rows: Rows, at: Option<(nat, nat)>, newId: Id, dir: Direction, maxCols: nat): Option<Rows>
    requires InGrid(rows, at)
  {
    match at
    case None => Some(rows + [[newId]])
    case Some((r, c)) =>
      if dir == Across then
        if |rows[r]| >= maxCols then None
        else Some(rows[..r] + [Spliced(rows[r], c + 1, newId)] + rows[r + 1..])
      else
        if |rows| >= MAX_ROWS then None
        else Some(rows[..r + 1] + [[newId]] + rows[r + 1..])
  }

  /** The new pane right of the active one, or in a new row below it; None when there is no room. */
  function InsertPane(rows: Rows, activeId: Id, newId: Id, dir: Direction, maxCols: nat): Option<Rows> {
    InsertAt(rows, PlaceOf(rows, activeId), newId, dir, maxCols)
  }

  lemma {:induction false} FlatConcat(a: Rows, b: Rows)
    ensures Flat(a + b) == Flat(a) + Flat(b)
    decreases |a|
  {
    if a == [] {
      assert a + b == b;
    } else {
      FlatConcat(a[1..], b);
      FirstOfConcat(a, b);
      PlusAssociates(a[0], Flat(a[1..]), Flat(b));
    }
  }

  lemma FlatOne(row: seq<Id>)
    ensures Flat([row]) == row
  {
    assert [row][1..] == [];
  }

  lemma FlatAround(above: Rows, row: seq<Id>, below: Rows)
    ensures Flat(above + [row] + below) == Flat(above) + row + Flat(below)
  {
    FlatConcat(above + [row], below);
    FlatConcat(above, [row]);
    FlatOne(row);
  }

  lemma AcrossAddsOne(above: Rows, row: seq<Id>, below: Rows, c: nat, id: Id)
    requires c <= |row|
    ensures multiset(Flat(above + [Spliced(row, c, id)] + below)) ==
      multiset(Flat(above + [row] + below)) + multiset{id}
  {
    FlatAround(above, Spliced(row, c, id), below);
    FlatAround(above, row, below);
    assert row[..c] + row[c..] == row;
  }

  lemma DownAddsOne(above: Rows, below: Rows, id: Id)
    ensures multiset(Flat(above + [[id]] + below)) == multiset(Flat(above + below)) + multiset{id}
  {
    FlatAround(above, [id], below);
    FlatConcat(above, below);
  }

  lemma BottomAddsOne(rows: Rows, id: Id)
    ensures multiset(Flat(rows + [[id]])) == multiset(Flat(rows)) + multiset{id}
  {
    FlatConcat(rows, [[id]]);
    FlatOne([id]);
  }

  lemma CutRows(rows: Rows, r: nat)
    requires r <= |rows|
    ensures rows[..r] + rows[r..] == rows
    ensures r < |rows| ==> rows[..r] + [rows[r]] + rows[r + 1..] == rows
  {}

  lemma AcrossAdds(rows: Rows, r: nat, c: nat, id: Id)
    requires r < |rows| && c <= |rows[r]|
    ensures multiset(Flat(rows[..r] + [Spliced(rows[r], c, id)] + rows[r + 1..])) == multiset(Flat(rows)) + multiset{id}
  {
    CutRows(rows, r);
    AcrossAddsOne(rows[..r], rows[r], rows[r + 1..], c, id);
  }

  lemma DownAdds(rows: Rows, r: nat, id: Id)
    requires r <= |rows|
    ensures multiset(Flat(rows[..r] + [[id]] + rows[r..])) == multiset(Flat(rows)) + multiset{id}
  {
    CutRows(rows, r);
    DownAddsOne(rows[..r], rows[r..], id);
  }

  lemma InsertAcrossIs(rows: Rows, r: nat, c: nat, newId: Id, maxCols: nat)
    requires r < |rows| && c < |rows[r]|
    ensures var next := InsertAt(rows, Some((r, c)), newId, Across, maxCols);
      next.Some? ==> next.value == rows[..r] + [Spliced(rows[r], c + 1, newId)] + rows[r + 1..]
  {}

  lemma InsertDownIs(rows: Rows, r: nat, c: nat, newId: Id, maxCols: nat)
    requires r < |rows| && c < |rows[r]|
    ensures var next := InsertAt(rows, Some((r, c)), newId, Down, maxCols);
      next.Some? ==> next.value == rows[..r + 1] + [[newId]] + rows[r + 1..]
  {}

  lemma InsertAcrossAdds(rows: Rows, r: nat, c: nat, newId: Id, maxCols: nat)
    requires r < |rows| && c < |rows[r]|
    ensures var next := InsertAt(rows, Some((r, c)), newId, Across, maxCols);
      next.Some? ==> multiset(Flat(next.value)) == multiset(Flat(rows)) + multiset{newId}
  {
    InsertAcrossIs(rows, r, c, newId, maxCols);
    AcrossAdds(rows, r, c + 1, newId);
  }

  lemma InsertDownAdds(rows: Rows, r: nat, c: nat, newId: Id, maxCols: nat)
    requires r < |rows| && c < |rows[r]|
    ensures var next := InsertAt(rows, Some((r, c)), newId, Down, maxCols);
      next.Some? ==> multiset(Flat(next.value)) == multiset(Flat(rows)) + multiset{newId}
  {
    InsertDownIs(rows, r, c, newId, maxCols);
    DownAdds(rows, r + 1, newId);
  }

  /** Splitting adds the new pane and loses none. */
  lemma InsertAddsOne(rows: Rows, at: Option<(nat, nat)>, newId: Id, dir: Direction, maxCols: nat)
    requires InGrid(rows, at)
    ensures var next := InsertAt(rows, at, newId, dir, maxCols);
      next.Some? ==> multiset(Flat(next.value)) == multiset(Flat(rows)) + multiset{newId}
  {
    if at.None? {
      BottomAddsOne(rows, newId);
    } else if dir == Across {
      InsertAcrossAdds(rows, at.value.0, at.value.1, newId, maxCols);
    } else {
      InsertDownAdds(rows, at.value.0, at.value.1, newId, maxCols);
    }
  }

  /** Within the shape: the result keeps it, and rows grow only up to `maxCols`. */
  lemma InsertKeepsShape(rows: Rows, activeId: Id, newId: Id, dir: Direction, maxCols: nat)
    requires Shape(rows) && activeId in Flat(rows) && 1 <= maxCols <= MAX_COLS
    ensures var next := InsertPane(rows, activeId, newId, dir, maxCols);
      next.Some? ==>
        && Shape(next.value)
        && forall k :: 0 <= k < |next.value| ==> |next.value[k]| <= maxCols || next.value[k] in rows
  {
    var at := PlaceOf(rows, activeId);
    var (r, c) := at.value;
    var next := InsertPane(rows, activeId, newId, dir, maxCols);
    if next.Some? {
      forall k | 0 <= k < |next.value|
        ensures 1 <= |next.value[k]| <= MAX_COLS && (|next.value[k]| <= maxCols || next.value[k] in rows)
      {
        if k < r {
          assert next.value[k] == rows[k];
        } else if k == r + 1 && dir == Across {
          assert next.value[k] == rows[k];
        }
      }
    }
  }

  /**
   * Split right: next to the active pane, in its row. Split down: a new row right below. Refused exactly for want of
   * room.
   */
  lemma SplitPlacesNewPane(rows: Rows, activeId: Id, newId: Id, maxCols: nat)
    requires activeId in Flat(rows)
    ensures var (r, c) := PlaceOf(rows, activeId).value;
      var right, down :=
        InsertPane(rows, activeId, newId, Across, maxCols), InsertPane(rows, activeId, newId, Down, maxCols);
      && (right.Some? <==> |rows[r]| < maxCols)
      && (right.Some? ==> |right.value| == |rows| && right.value[r][c] == activeId && right.value[r][c + 1] == newId)
      && (down.Some? <==> |rows| < MAX_ROWS)
      && (down.Some? ==> |down.value| == |rows| + 1 && down.value[r][c] == activeId && down.value[r + 1] == [newId])
  {}

  /** Without an active pane in the grid, the new one goes below all the others. */
  lemma UnknownActiveSplitsBelow(rows: Rows, activeId: Id, newId: Id, dir: Direction, maxCols: nat)
    requires activeId !in Flat(rows)
    ensures InsertPane(rows, activeId, newId, dir, maxCols) == Some(rows + [[newId]])
  {}

  // ---- closing ----

  function Without(row: seq<Id>, id: Id): seq<Id> {
    if row == [] then [] else (if row[0] == id then [] else [row[0]]) + Without(row[1..], id)
  }

  function RemovePane(rows: Rows, id: Id): Rows {
    if rows == [] then []
    else
      var row := Without(rows[0], id);
      (if row == [] then [] else [row]) + RemovePane(rows[1..], id)
  }

  lemma {:induction false} WithoutCounts(row: seq<Id>, id: Id)
    ensures multiset(Without(row, id)) == multiset(row)[id := 0]
    ensures |Without(row, id)| <= |row|
  {
    if row != [] {
      WithoutCounts(row[1..], id);
      assert row == [row[0]] + row[1..];
    }
  }

  lemma {:induction false} WithoutConcat(a: seq<Id>, b: seq<Id>, id: Id)
    ensures Without(a + b, id) == Without(a, id) + Without(b, id)
    decreases |a|
  {
    if a == [] {
      assert a + b == b;
    } else {
      WithoutConcat(a[1..], b, id);
      FirstOfConcat(a, b);
      PlusAssociates(if a[0] == id then [] else [a[0]], Without(a[1..], id), Without(b, id));
    }
  }

  lemma {:induction false} WithoutAbsent(row: seq<Id>, id: Id)
    requires id !in row
    ensures Without(row, id) == row
  {
    if row != [] {
      WithoutAbsent(row[1..], id);
      assert row == [row[0]] + row[1..];
    }
  }

  lemma {:induction false} FlatOfRemove(rows: Rows, id: Id)
    ensures Flat(RemovePane(rows, id)) == Without(Flat(rows), id)
  {
    if rows != [] {
      var row := Without(rows[0], id);
      FlatOfRemove(rows[1..], id);
      WithoutConcat(rows[0], Flat(rows[1..]), id);
      FlatConcat(if row == [] then [] else [row], RemovePane(rows[1..], id));
      FlatOne(row);
    }
  }

  /** Removing keeps rows non-empty and no longer than they were. */
  lemma {:induction false} RemoveKeepsRows(rows: Rows, id: Id, maxCols: nat)
    requires forall r :: 0 <= r < |rows| ==> |rows[r]| <= maxCols
    ensures var left := RemovePane(rows, id);
      |left| <= |rows| && forall r :: 0 <= r < |left| ==> 1 <= |left[r]| <= maxCols
  {
    if rows != [] {
      RemoveKeepsRows(rows[1..], id, maxCols);
      WithoutCounts(rows[0], id);
    }
  }

  lemma {:induction false} RemoveConcat(a: Rows, b: Rows, id: Id)
    ensures RemovePane(a + b, id) == RemovePane(a, id) + RemovePane(b, id)
    decreases |a|
  {
    if a == [] {
      assert a + b == b;
    } else {
      var row := Without(a[0], id);
      RemoveConcat(a[1..], b, id);
      FirstOfConcat(a, b);
      PlusAssociates(if row == [] then [] else [row], RemovePane(a[1..], id), RemovePane(b, id));
    }
  }

  lemma {:induction false} RemoveAbsent(rows: Rows, id: Id)
    requires id !in Flat(rows) && forall r :: 0 <= r < |rows| ==> rows[r] != []
    ensures RemovePane(rows, id) == rows
  {
    if rows != [] {
      WithoutAbsent(rows[0], id);
      RemoveAbsent(rows[1..], id);
      assert rows == [rows[0]] + rows[1..];
    }
  }

  lemma WithoutOnly(id: Id)
    ensures Without([id], id) == []
  {
    assert [id][1..] == [];
  }

  lemma RemoveInserted(before: seq<Id>, after: seq<Id>, id: Id)
    requires Without(before, id) == before && Without(after, id) == after
    ensures Without(before + [id] + after, id) == before + after
  {
    WithoutConcat(before + [id], after, id);
    WithoutConcat(before, [id], id);
    WithoutOnly(id);
    assert before + [] == before;
  }

  /** A row that becomes `wider` and narrow again, or appears and goes. */
  lemma RowUndone(above: Rows, row: seq<Id>, wider: seq<Id>, below: Rows, id: Id)
    requires RemovePane(above, id) == above && RemovePane(below, id) == below
    requires row != [] && Without(wider, id) == row
    ensures RemovePane(above + [wider] + below, id) == above + [row] + below
  {
    RemoveAround(above, wider, below, id);
  }

  lemma NewRowUndone(above: Rows, below: Rows, added: seq<Id>, id: Id)
    requires RemovePane(above, id) == above && RemovePane(below, id) == below && Without(added, id) == []
    ensures RemovePane(above + [added] + below, id) == above + below
  {
    RemoveAround(above, added, below, id);
    assert above + [] == above;
  }

  lemma PartAbsent(part: Rows, rest: Rows, id: Id)
    requires id !in Flat(part + rest) && NoneEmpty(part + rest)
    ensures RemovePane(part, id) == part && RemovePane(rest, id) == rest
    ensures id !in Flat(part) && id !in Flat(rest) && NoneEmpty(part) && NoneEmpty(rest)
  {
    FlatConcat(part, rest);
    assert forall r :: 0 <= r < |part| ==> (part + rest)[r] == part[r];
    assert forall r :: 0 <= r < |rest| ==> (part + rest)[|part| + r] == rest[r];
    RemoveAbsent(part, id);
    RemoveAbsent(rest, id);
  }

  predicate NoneEmpty(rows: Rows) { forall r :: 0 <= r < |rows| ==> rows[r] != [] }

  lemma AcrossUndone(above: Rows, row: seq<Id>, below: Rows, c: nat, id: Id)
    requires id !in Flat(above + [row] + below) && NoneEmpty(above + [row] + below) && c <= |row|
    ensures RemovePane(above + [Spliced(row, c, id)] + below, id) == above + [row] + below
  {
    PartAbsent(above + [row], below, id);
    PartAbsent(above, [row], id);
    FlatOne(row);
    assert [row][0] == row;
    SplitRowUndone(row, c, id);
    RowUndone(above, row, Spliced(row, c, id), below, id);
  }

  lemma DownUndone(above: Rows, below: Rows, id: Id)
    requires id !in Flat(above + below) && NoneEmpty(above + below)
    ensures RemovePane(above + [[id]] + below, id) == above + below
  {
    PartAbsent(above, below, id);
    WithoutOnly(id);
    NewRowUndone(above, below, [id], id);
  }

  lemma CloseUndoesAcross(rows: Rows, r: nat, c: nat, newId: Id)
    requires newId !in Flat(rows) && NoneEmpty(rows) && r < |rows| && c <= |rows[r]|
    ensures RemovePane(rows[..r] + [Spliced(rows[r], c, newId)] + rows[r + 1..], newId) == rows
  {
    assert rows[..r] + [rows[r]] + rows[r + 1..] == rows;
    AcrossUndone(rows[..r], rows[r], rows[r + 1..], c, newId);
  }

  lemma CloseUndoesDown(rows: Rows, r: nat, newId: Id)
    requires newId !in Flat(rows) && NoneEmpty(rows) && r <= |rows|
    ensures RemovePane(rows[..r] + [[newId]] + rows[r..], newId) == rows
  {
    assert rows[..r] + rows[r..] == rows;
    DownUndone(rows[..r], rows[r..], newId);
  }

  lemma BottomUndone(rows: Rows, id: Id)
    requires id !in Flat(rows) && NoneEmpty(rows)
    ensures RemovePane(rows + [[id]], id) == rows
  {
    RemoveConcat(rows, [[id]], id);
    RemoveAbsent(rows, id);
    WithoutOnly(id);
    assert [[id]][1..] == [];
  }

  /** Closing the pane a split just made gives back the grid as it was. */
  lemma CloseUndoesSplit(rows: Rows, at: Option<(nat, nat)>, newId: Id, dir: Direction, maxCols: nat)
    requires InGrid(rows, at) && newId !in Flat(rows) && NoneEmpty(rows)
    ensures var next := InsertAt(rows, at, newId, dir, maxCols); next.Some? ==> RemovePane(next.value, newId) == rows
  {
    match at {
      case None => BottomUndone(rows, newId);
      case Some((r, c)) =>
        if dir == Across {
          CloseUndoesAcross(rows, r, c + 1, newId);
        } else {
          CloseUndoesDown(rows, r + 1, newId);
        }
    }
  }

  lemma SplitRowUndone(row: seq<Id>, c: nat, id: Id)
    requires id !in row && c <= |row|
    ensures Without(Spliced(row, c, id), id) == row
  {
    Cut(row, c);
    InsertedUndone(row[..c], row[c..], id);
  }

  lemma Cut(row: seq<Id>, c: nat)
    requires c <= |row|
    ensures row[..c] + row[c..] == row && forall p :: p in row[..c] || p in row[c..] ==> p in row
  {}

  lemma InsertedUndone(before: seq<Id>, after: seq<Id>, id: Id)
    requires id !in before && id !in after
    ensures Without(before + [id] + after, id) == before + after
  {
    WithoutAbsent(before, id);
    WithoutAbsent(after, id);
    RemoveInserted(before, after, id);
  }

  lemma RemoveAround(above: Rows, row: seq<Id>, below: Rows, id: Id)
    ensures RemovePane(above + [row] + below, id) ==
      RemovePane(above, id) + (if Without(row, id) == [] then [] else [Without(row, id)]) + RemovePane(below, id)
  {
    RemoveConcat(above + [row], below, id);
    RemoveConcat(above, [row], id);
    assert [row][1..] == [];
  }
}
