/** Rectangle overlap, collision against a clip list, and the row-major
    first-free-spot scan (utils/collision.ts). */
module Collision {
  import opened Types
  import opened JsSemantics

  /** The scan gives up after rows 1..MaxRows-1. */
  const MaxRows: int := 200

  /** Overlap on half-open intervals in both axes: for rectangles of
      positive extent, their intersection is non-empty on each axis. */
  predicate IsOverlapping(a: Rect, b: Rect): (r: bool)
    ensures a.w >= 1 && a.h >= 1 && b.w >= 1 && b.h >= 1 ==>
              (r <==> Max(a.x, b.x) < Min(a.x + a.w, b.x + b.w) && Max(a.y, b.y) < Min(a.y + a.h, b.y + b.h))
  {
    a.x < b.x + b.w && a.x + a.w > b.x && a.y < b.y + b.h && a.y + a.h > b.y
  }

  /** The cell (i, j) lies inside the rectangle. */
  predicate Covers(r: Rect, i: int, j: int) {
    r.x <= i < r.x + r.w && r.y <= j < r.y + r.h
  }

  /** For rectangles of positive extent, overlapping means sharing a cell. */
  lemma OverlapMeansSharedCell(a: Rect, b: Rect)
    requires a.w >= 1 && a.h >= 1 && b.w >= 1 && b.h >= 1
    ensures IsOverlapping(a, b) <==> exists i, j :: Covers(a, i, j) && Covers(b, i, j)
  {
    if IsOverlapping(a, b) {
      var i := if a.x >= b.x then a.x else b.x;
      var j := if a.y >= b.y then a.y else b.y;
      assert Covers(a, i, j) && Covers(b, i, j);
    }
  }

  lemma OverlapSymmetric(a: Rect, b: Rect)
    ensures IsOverlapping(a, b) == IsOverlapping(b, a)
  {
  }

  /** Rectangles that meet along a vertical or horizontal edge do not overlap. */
  lemma TouchingIsNotOverlap(a: Rect, b: Rect)
    requires a.x + a.w == b.x || b.x + b.w == a.x || a.y + a.h == b.y || b.y + b.h == a.y
    ensures !IsOverlapping(a, b)
  {
  }

  /** A rectangle of positive extent overlaps itself. */
  lemma OverlapReflexive(a: Rect)
    requires a.w >= 1 && a.h >= 1
    ensures IsOverlapping(a, a)
  {
  }

  /** The clip is excluded from the check (`c.id === ignoredId`). */
  predicate Ignored(c: Clip, ignoredId: Option<ClipId>) {
    ignoredId.Some? && c.id == ignoredId.value
  }

  /** `clips.some(...)`: some clip other than the ignored id overlaps the target. */
  function CheckCollision(target: Rect, clips: seq<Clip>, ignoredId: Option<ClipId>): (r: bool)
    ensures r <==> exists i :: 0 <= i < |clips| && !Ignored(clips[i], ignoredId)
                               && IsOverlapping(target, ClipRect(clips[i]))
  {
    if |clips| == 0 then false
    else
      var rest := CheckCollision(target, clips[1..], ignoredId);
      assert rest <==> exists i :: 1 <= i < |clips| && !Ignored(clips[i], ignoredId)
                                   && IsOverlapping(target, ClipRect(clips[i])) by {
        if rest {
          var i :| 0 <= i < |clips[1..]| && !Ignored(clips[1..][i], ignoredId)
                   && IsOverlapping(target, ClipRect(clips[1..][i]));
          assert clips[i + 1] == clips[1..][i];
        }
        forall i | 1 <= i < |clips| && !Ignored(clips[i], ignoredId) && IsOverlapping(target, ClipRect(clips[i]))
          ensures rest
        {
          assert clips[1..][i - 1] == clips[i];
        }
      }
      (!Ignored(clips[0], ignoredId) && IsOverlapping(target, ClipRect(clips[0]))) || rest
  }

  lemma NoCollisionWithEmptyList(target: Rect, ignoredId: Option<ClipId>)
    ensures !CheckCollision(target, [], ignoredId)
  {
  }

  /** Collision against a concatenation is collision against either part. */
  lemma CollisionOfConcat(target: Rect, a: seq<Clip>, b: seq<Clip>, ignoredId: Option<ClipId>)
    ensures CheckCollision(target, a + b, ignoredId)
            <==> CheckCollision(target, a, ignoredId) || CheckCollision(target, b, ignoredId)
  {
    var ab := a + b;
    if CheckCollision(target, ab, ignoredId) {
      var i :| 0 <= i < |ab| && !Ignored(ab[i], ignoredId) && IsOverlapping(target, ClipRect(ab[i]));
      if i >= |a| { assert ab[i] == b[i - |a|]; }
    }
    if CheckCollision(target, b, ignoredId) {
      var i :| 0 <= i < |b| && !Ignored(b[i], ignoredId) && IsOverlapping(target, ClipRect(b[i]));
      assert ab[i + |a|] == b[i];
    }
    if CheckCollision(target, a, ignoredId) {
      var i :| 0 <= i < |a| && !Ignored(a[i], ignoredId) && IsOverlapping(target, ClipRect(a[i]));
      assert ab[i] == a[i];
    }
  }

  // ---------------------------------------------------------------- free-spot scan

  /** A `w`×`h` rectangle at (x, y) collides with no clip. */
  predicate IsFree(w: int, h: int, clips: seq<Clip>, x: int, y: int) {
    !CheckCollision(Rect(x, y, w, h), clips, None)
  }

  /** (x, y) is one of the positions the scan visits. */
  predicate InScan(w: int, maxColumns: int, x: int, y: int) {
    1 <= y < MaxRows && 1 <= x <= maxColumns - w + 1
  }

  /** (x', y') comes strictly before (x, y) in row-major order. */
  predicate RowMajorBefore(x': int, y': int, x: int, y: int) {
    y' < y || (y' == y && x' < x)
  }

  ghost predicate FreeSpotExists(w: int, h: int, clips: seq<Clip>, maxColumns: int) {
    exists x, y :: InScan(w, maxColumns, x, y) && IsFree(w, h, clips, x, y)
  }

  /** (x, y) is a visited free position and every visited position before it is taken. */
  ghost predicate IsFirstFree(w: int, h: int, clips: seq<Clip>, maxColumns: int, x: int, y: int) {
    && InScan(w, maxColumns, x, y)
    && IsFree(w, h, clips, x, y)
    && forall x', y' :: InScan(w, maxColumns, x', y') && RowMajorBefore(x', y', x, y)
                        ==> !IsFree(w, h, clips, x', y')
  }

  /** What `findFirstFreeSpot` returns: the row-major first free visited
      position, or (1, 1) when every visited position is taken. */
  ghost predicate SpotSpec(w: int, h: int, clips: seq<Clip>, maxColumns: int, x: int, y: int) {
    if FreeSpotExists(w, h, clips, maxColumns) then IsFirstFree(w, h, clips, maxColumns, x, y)
    else x == 1 && y == 1
  }

  method FindFirstFreeSpot(w: int, h: int, clips: seq<Clip>, maxColumns: int) returns (x: int, y: int)
    ensures SpotSpec(w, h, clips, maxColumns, x, y)
  {
    var row := 1;
    while row < MaxRows
      invariant 1 <= row <= MaxRows
      invariant forall x', y' :: InScan(w, maxColumns, x', y') && y' < row ==> !IsFree(w, h, clips, x', y')
    {
      var col := 1;
      while col <= maxColumns - w + 1
        invariant 1 <= col
        invariant col <= maxColumns - w + 2 || col == 1
        invariant forall x' :: 1 <= x' < col ==> !IsFree(w, h, clips, x', row)
      {
        if IsFree(w, h, clips, col, row) {
          return col, row;
        }
        col := col + 1;
      }
      row := row + 1;
    }
    return 1, 1;
  }

  /** The specification pins the spot down: two results satisfying it are equal. */
  lemma SpotSpecDeterminesSpot(w: int, h: int, clips: seq<Clip>, maxColumns: int, x1: int, y1: int, x2: int, y2: int)
    requires SpotSpec(w, h, clips, maxColumns, x1, y1)
    requires SpotSpec(w, h, clips, maxColumns, x2, y2)
    ensures x1 == x2 && y1 == y2
  {
    if FreeSpotExists(w, h, clips, maxColumns) {
      assert RowMajorBefore(x1, y1, x2, y2) ==> !IsFree(w, h, clips, x1, y1);
      assert RowMajorBefore(x2, y2, x1, y1) ==> !IsFree(w, h, clips, x2, y2);
    }
  }

  /** On an empty grid wide enough for the tile the spot is the top-left cell. */
  lemma EmptyGridGivesOrigin(w: int, h: int, maxColumns: int, x: int, y: int)
    requires maxColumns >= w
    requires SpotSpec(w, h, [], maxColumns, x, y)
    ensures x == 1 && y == 1
  {
    assert InScan(w, maxColumns, 1, 1) && IsFree(w, h, [], 1, 1);
    assert RowMajorBefore(1, 1, x, y) ==> !IsFree(w, h, [], 1, 1);
  }

  /** A tile wider than the grid has no visited position, so the fallback is used. */
  lemma TooWideGivesOrigin(w: int, h: int, clips: seq<Clip>, maxColumns: int, x: int, y: int)
    requires maxColumns < w
    requires SpotSpec(w, h, clips, maxColumns, x, y)
    ensures x == 1 && y == 1
  {
  }

  /** When a free position exists, the returned spot collides with no clip. */
  lemma FoundSpotIsCollisionFree(w: int, h: int, clips: seq<Clip>, maxColumns: int, x: int, y: int)
    requires SpotSpec(w, h, clips, maxColumns, x, y)
    requires FreeSpotExists(w, h, clips, maxColumns)
    ensures 1 <= y <= MaxRows - 1 && 1 <= x <= maxColumns - w + 1
    ensures forall i :: 0 <= i < |clips| ==> !IsOverlapping(Rect(x, y, w, h), ClipRect(clips[i]))
  {
  }
}
