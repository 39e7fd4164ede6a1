/** Edge and corner resizing of a tile (the resize handler of
    components/SoundGrid.tsx): the pointer delta becomes whole grid steps,
    the dragged edges move, sizes are floored at one cell, and the result is
    committed only when it collides with no other clip. */
module Resize {
  import opened Types
  import opened JsSemantics
  import opened Collision
  import Clips

  /** The horizontal part of a resize: new start column and width. East
      edges grow or shrink the width (at least one cell); west edges move the
      start and shrink the width by the same steps, but only while the start
      stays on the grid. */
  function ResizeSpan(isEast: bool, isWest: bool, start: int, size: int, steps: int): (r: (int, int))
    ensures isEast ==> r == (start, Max(1, size + steps))
    ensures !isEast && isWest && start + steps >= 1 ==> r == (start + steps, size - steps)
    ensures !isEast && (!isWest || start + steps < 1) ==> r == (start, size)
  {
    if isEast then (start, Max(1, size + steps))
    else if isWest && start + steps >= 1 then (start + steps, size - steps)
    else (start, size)
  }

  /** The rectangle the handler proposes for `clip` after `colSteps` and
      `rowSteps` whole steps in direction `dir`. */
  function Proposal(clip: Clip, dir: ResizeDirection, colSteps: int, rowSteps: int): (p: Rect)
    ensures p.w >= 1 && p.h >= 1
  {
    var (x, cols) := ResizeSpan(Includes(dir, 'e'), Includes(dir, 'w'), clip.x, clip.cols, colSteps);
    var (y, rows) := ResizeSpan(Includes(dir, 's'), Includes(dir, 'n'), clip.y, clip.rows, rowSteps);
    Rect(x, y, Max(1, cols), Max(1, rows))
  }

  /** What the handler asks for: a move (new origin) and a resize (new size), each optional. */
  datatype ResizeOutcome = ResizeOutcome(move: Option<MoveUpdate>, size: Option<(int, int)>)

  /** The steps a pointer delta makes: `Math.round(delta / (cellSize + GRID_GAP))`. */
  function Steps(delta: int, cellSize: int): (s: int)
    requires cellSize + GridGap >= 1
    ensures 2 * (cellSize + GridGap) * s - (cellSize + GridGap) <= 2 * delta < 2 * (cellSize + GridGap) * s + (cellSize + GridGap)
  {
    JsRound(delta, cellSize + GridGap)
  }

  /** The resize handler: nothing for a delta under half a step on both
      axes; otherwise the proposal is committed when it collides with no
      other clip, as a move when the origin changed and a resize when the
      size changed. */
  function PlanResize(clip: Clip, dir: ResizeDirection, dx: int, dy: int, cellSize: int, clips: seq<Clip>): (r: ResizeOutcome)
    requires cellSize + GridGap >= 1
    ensures var p := Proposal(clip, dir, Steps(dx, cellSize), Steps(dy, cellSize));
            && (r.move.Some? || r.size.Some? ==> !CheckCollision(p, clips, Some(clip.id)))
            && (r.move.Some? ==> r.move.value == MoveUpdate(clip.id, p.x, p.y) && (p.x, p.y) != (clip.x, clip.y))
            && (r.size.Some? ==> r.size.value == (p.w, p.h) && (p.w, p.h) != (clip.cols, clip.rows))
    ensures var p := Proposal(clip, dir, Steps(dx, cellSize), Steps(dy, cellSize));
            (Steps(dx, cellSize) != 0 || Steps(dy, cellSize) != 0) && !CheckCollision(p, clips, Some(clip.id)) ==>
              && (r.move.Some? <==> (p.x, p.y) != (clip.x, clip.y))
              && (r.size.Some? <==> (p.w, p.h) != (clip.cols, clip.rows))
    ensures Steps(dx, cellSize) == 0 && Steps(dy, cellSize) == 0 ==> r == ResizeOutcome(None, None)
  {
    var colSteps := Steps(dx, cellSize);
    var rowSteps := Steps(dy, cellSize);
    if colSteps == 0 && rowSteps == 0 then ResizeOutcome(None, None)
    else
      var p := Proposal(clip, dir, colSteps, rowSteps);
      if CheckCollision(p, clips, Some(clip.id)) then ResizeOutcome(None, None)
      else
        ResizeOutcome(
          if p.x != clip.x || p.y != clip.y then Some(MoveUpdate(clip.id, p.x, p.y)) else None,
          if p.w != clip.cols || p.h != clip.rows then Some((p.w, p.h)) else None)
  }

  /** A delta under half a step on both axes asks for nothing. */
  lemma SmallDeltaDoesNothing(clip: Clip, dir: ResizeDirection, dx: int, dy: int, cellSize: int, clips: seq<Clip>)
    requires cellSize + GridGap >= 1
    requires -(cellSize + GridGap) <= 2 * dx < cellSize + GridGap
    requires -(cellSize + GridGap) <= 2 * dy < cellSize + GridGap
    ensures PlanResize(clip, dir, dx, dy, cellSize, clips) == ResizeOutcome(None, None)
  {
    var d := cellSize + GridGap;
    StepsZero(dx, d);
    StepsZero(dy, d);
  }

  lemma StepsZero(delta: int, d: int)
    requires d >= 1 && -d <= 2 * delta < d
    ensures JsRound(delta, d) == 0
  {
    var s := JsRound(delta, d);
    if s >= 1 {
      assert 2 * d * s - d >= d by { MulAtLeast(2 * d, s); }
    } else if s <= -1 {
      assert 2 * d * s + d <= -d by { MulAtMost(2 * d, s); }
    }
  }

  lemma MulAtLeast(a: int, s: int)
    requires a >= 0 && s >= 1
    ensures a * s >= a
  {
  }

  lemma MulAtMost(a: int, s: int)
    requires a >= 0 && s <= -1
    ensures a * s <= -a
  {
  }

  /** Dragging a west edge inside the grid keeps the right edge where it was,
      as long as the tile keeps at least one column. */
  lemma WestKeepsRightEdge(clip: Clip, dir: ResizeDirection, colSteps: int, rowSteps: int)
    requires Includes(dir, 'w') && clip.x + colSteps >= 1 && colSteps < clip.cols
    ensures var p := Proposal(clip, dir, colSteps, rowSteps);
            p.x == clip.x + colSteps && p.x + p.w == clip.x + clip.cols
  {
    DirectionsAreEdgesOrCorners(dir);
  }

  /** ... likewise a north edge keeps the bottom edge. */
  lemma NorthKeepsBottomEdge(clip: Clip, dir: ResizeDirection, colSteps: int, rowSteps: int)
    requires Includes(dir, 'n') && clip.y + rowSteps >= 1 && rowSteps < clip.rows
    ensures var p := Proposal(clip, dir, colSteps, rowSteps);
            p.y == clip.y + rowSteps && p.y + p.h == clip.y + clip.rows
  {
    DirectionsAreEdgesOrCorners(dir);
  }

  /** An east or south edge never moves the origin. */
  lemma SouthEastKeepsOrigin(clip: Clip, colSteps: int, rowSteps: int)
    ensures var p := Proposal(clip, SE, colSteps, rowSteps);
            p == Rect(clip.x, clip.y, Max(1, clip.cols + colSteps), Max(1, clip.rows + rowSteps))
  {
  }

  /** A west or north edge that would leave the grid leaves that axis alone. */
  lemma WestStopsAtGridEdge(clip: Clip, dir: ResizeDirection, colSteps: int, rowSteps: int)
    requires Includes(dir, 'w') && clip.x + colSteps < 1
    ensures var p := Proposal(clip, dir, colSteps, rowSteps);
            p.x == clip.x && p.w == Max(1, clip.cols)
  {
    DirectionsAreEdgesOrCorners(dir);
  }

  /** A tile that starts on the grid still starts on the grid after any resize. */
  lemma ProposalStaysOnGrid(clip: Clip, dir: ResizeDirection, colSteps: int, rowSteps: int)
    requires clip.x >= 1 && clip.y >= 1
    ensures var p := Proposal(clip, dir, colSteps, rowSteps);
            p.x >= 1 && p.y >= 1 && p.w >= 1 && p.h >= 1
  {
  }

  /** Growing an east edge and shrinking it back by the same steps restores the tile. */
  lemma EastUndo(clip: Clip, steps: int)
    requires clip.cols >= 1 && clip.rows >= 1 && clip.cols + steps >= 1
    ensures var p := Proposal(clip, E, steps, 0);
            var back := Proposal(clip.(x := p.x, y := p.y, cols := p.w, rows := p.h), E, -steps, 0);
            back == ClipRect(clip)
  {
  }

  /** Committing a planned resize with the clip updaters puts the clip at the
      proposal, and with unique ids the resized clip overlaps no other clip. */
  lemma CommittedResizeIsCollisionFree(clip: Clip, i: nat, dir: ResizeDirection, dx: int, dy: int, cellSize: int,
                                       clips: seq<Clip>)
    requires cellSize + GridGap >= 1
    requires UniqueIds(clips) && i < |clips| && clips[i] == clip
    requires var r := PlanResize(clip, dir, dx, dy, cellSize, clips); r.move.Some? || r.size.Some?
    ensures var p := Proposal(clip, dir, Steps(dx, cellSize), Steps(dy, cellSize));
            var after := Commit(clips, PlanResize(clip, dir, dx, dy, cellSize, clips), clip.id);
            && ClipRect(after[i]) == p
            && forall j :: 0 <= j < |after| && j != i ==> after[j] == clips[j] && !IsOverlapping(p, ClipRect(after[j]))
  {
  }

  /** The two callbacks in order: `onMoveClip` then `onResizeClip`. */
  function Commit(clips: seq<Clip>, r: ResizeOutcome, id: ClipId): (after: seq<Clip>)
    ensures |after| == |clips|
    ensures forall i :: 0 <= i < |clips| && clips[i].id != id ==> after[i] == clips[i]
    ensures forall i :: 0 <= i < |clips| && clips[i].id == id ==>
              && (after[i].x, after[i].y) == (if r.move.Some? then (r.move.value.x, r.move.value.y) else (clips[i].x, clips[i].y))
              && (after[i].cols, after[i].rows) == (if r.size.Some? then r.size.value else (clips[i].cols, clips[i].rows))
              && after[i].(x := clips[i].x, y := clips[i].y, cols := clips[i].cols, rows := clips[i].rows) == clips[i]
  {
    var moved := if r.move.Some? then Clips.MoveClip(clips, id, r.move.value.x, r.move.value.y) else clips;
    if r.size.Some? then Clips.ResizeClip(moved, id, r.size.value.0, r.size.value.1) else moved
  }

  /** A proposal that overlaps any other clip is refused outright, on both
      axes: neither the move nor the resize is asked for. */
  lemma OverlappingProposalIsRefused(clip: Clip, dir: ResizeDirection, dx: int, dy: int, cellSize: int,
                                     clips: seq<Clip>, j: nat)
    requires cellSize + GridGap >= 1
    requires j < |clips| && clips[j].id != clip.id
    requires IsOverlapping(Proposal(clip, dir, Steps(dx, cellSize), Steps(dy, cellSize)), ClipRect(clips[j]))
    ensures PlanResize(clip, dir, dx, dy, cellSize, clips) == ResizeOutcome(None, None)
  {
  }
}
