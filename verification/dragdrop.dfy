/** Drag and drop on the grid view (components/SoundGrid.tsx): snapping a
    pointer to a cell, the drag session a tile drag starts, the drop preview,
    the atomic group move, and the placement of dropped audio files. */
module DragDrop {
  import opened Types
  import opened JsSemantics
  import opened Collision
  import Color
  import Selection
  import opened Placement

  datatype Cell = Cell(col: int, row: int)

  /** `rel` pixels from the first cell snap to the 1-based index `idx`:
      `Math.max(1, Math.round(rel / pitch) + 1)`. */
  predicate SnapsTo(rel: int, pitch: int, idx: int) {
    (idx >= 2 && 2 * pitch * (idx - 1) - pitch <= 2 * rel < 2 * pitch * (idx - 1) + pitch)
    || (idx == 1 && 2 * rel < pitch)
  }

  function SnapIndex(rel: int, pitch: int): (idx: int)
    requires pitch >= 1
    ensures idx >= 1 && SnapsTo(rel, pitch, idx)
  {
    Max(1, JsRound(rel, pitch) + 1)
  }

  /** Snapping is monotone: a pointer further right never lands in an earlier column. */
  lemma SnapMonotone(a: int, b: int, pitch: int)
    requires pitch >= 1 && a <= b
    ensures SnapIndex(a, pitch) <= SnapIndex(b, pitch)
  {
    var ra := JsRound(a, pitch);
    var rb := JsRound(b, pitch);
    if ra > rb {
      assert 2 * pitch * ra - pitch <= 2 * a <= 2 * b < 2 * pitch * rb + pitch;
      assert 2 * pitch * (ra - rb) < 2 * pitch;
      MulPositiveBound(2 * pitch, ra - rb);
    }
  }

  lemma MulPositiveBound(p: int, k: int)
    requires p >= 1 && p * k < p
    ensures k < 1
  {
  }

  /** Every pixel of a cell, gap excluded, snaps to that cell when the grab offset is zero. */
  lemma CellPixelsSnapToCell(col: nat, off: int, cellSize: int)
    requires cellSize >= 0 && 0 <= 2 * off < cellSize + GridGap
    ensures SnapIndex((col as int) * (cellSize + GridGap) + off, cellSize + GridGap) == col + 1
  {
    var pitch := cellSize + GridGap;
    var rel := (col as int) * pitch + off;
    assert 2 * pitch * col - pitch <= 2 * rel < 2 * pitch * col + pitch;
    var r := JsRound(rel, pitch);
    assert 2 * pitch * r - pitch <= 2 * rel < 2 * pitch * r + pitch;
    RoundUnique(rel, pitch, r, col);
  }

  /** As written, snapping rounds: with a zero grab offset (a file drag) a
      pointer in the right half of a cell snaps to the next cell. */
  lemma RightHalfSnapsToNextCell(col: nat, off: int, cellSize: int)
    requires cellSize >= 0 && cellSize + GridGap <= 2 * off && off < cellSize
    ensures SnapIndex((col as int) * (cellSize + GridGap) + off, cellSize + GridGap) == col + 2
  {
    var pitch := cellSize + GridGap;
    var rel := (col as int) * pitch + off;
    assert 2 * pitch * (col + 1) - pitch <= 2 * rel < 2 * pitch * (col + 1) + pitch;
    var r := JsRound(rel, pitch);
    RoundUnique(rel, pitch, r, col + 1);
  }

  /** The cell a pointer `rel` pixels from the first cell is over: each cell
      owns its pixels and the gap after it. */
  function CellUnder(rel: int, pitch: int): (idx: int)
    requires pitch >= 1
    ensures idx >= 1
    ensures rel >= 0 ==> (idx - 1) * pitch <= rel < idx * pitch
    ensures rel < 0 ==> idx == 1
  {
    if rel < 0 then 1 else rel / pitch + 1
  }

  /** Every pixel of a cell, and of the gap after it, selects that cell. */
  lemma CellPixelsSelectTheirCell(col: nat, off: int, pitch: int)
    requires pitch >= 1 && 0 <= off < pitch
    ensures CellUnder((col as int) * pitch + off, pitch) == col + 1
  {
    var rel := (col as int) * pitch + off;
    var idx := CellUnder(rel, pitch);
    if idx - 1 < col {
      MulLeftStep(pitch, idx, col);
    } else if idx - 1 > col {
      MulLeftStep(pitch, col + 1, idx - 1);
    }
  }

  lemma MulLeftStep(p: int, a: int, b: int)
    requires p >= 1 && a <= b
    ensures a * p <= b * p
  {
  }

  /** The drop cell of a file drag with snapping to the cell under the
      pointer rather than to the nearest grid line. */
  function FileDropCell(container: Option<Selection.Container>, clientX: int, clientY: int, cellSize: int): (r: Cell)
    requires cellSize + GridGap >= 1
    ensures r.col >= 1 && r.row >= 1
    ensures container.None? ==> r == Cell(1, 1)
  {
    match container
    case None => Cell(1, 1)
    case Some(c) =>
      Cell(CellUnder(clientX - c.left - Selection.Padding, cellSize + GridGap),
           CellUnder(clientY - c.top + c.scrollTop - Selection.Padding, cellSize + GridGap))
  }

  /** With the corrected snapping a file dragged anywhere over a cell targets that cell. */
  lemma FileDropCellIsUnderPointer(c: Selection.Container, col: nat, row: nat, offX: int, offY: int, cellSize: int)
    requires cellSize + GridGap >= 1
    requires 0 <= offX < cellSize + GridGap && 0 <= offY < cellSize + GridGap
    ensures var clientX := c.left + Selection.Padding + (col as int) * (cellSize + GridGap) + offX;
            var clientY := c.top - c.scrollTop + Selection.Padding + (row as int) * (cellSize + GridGap) + offY;
            FileDropCell(Some(c), clientX, clientY, cellSize) == Cell(col + 1, row + 1)
  {
    CellPixelsSelectTheirCell(col, offX, cellSize + GridGap);
    CellPixelsSelectTheirCell(row, offY, cellSize + GridGap);
  }

  lemma RoundUnique(n: int, d: int, r1: int, r2: int)
    requires d >= 1
    requires 2 * d * r1 - d <= 2 * n < 2 * d * r1 + d
    requires 2 * d * r2 - d <= 2 * n < 2 * d * r2 + d
    ensures r1 == r2
  {
    assert 2 * d * (r1 - r2) < 2 * d && 2 * d * (r2 - r1) < 2 * d;
    MulPositiveBound(2 * d, r1 - r2);
    MulPositiveBound(2 * d, r2 - r1);
  }

  /** `calculateGridPosition`: the cell under the pointer, less the grab
      offset within the tile. Without a container the cell is (1, 1). The
      horizontal position ignores the container's horizontal scroll. */
  function GridPosition(container: Option<Selection.Container>, clientX: int, clientY: int,
                        offsetX: int, offsetY: int, cellSize: int): (r: Cell)
    requires cellSize + GridGap >= 1
    ensures r.col >= 1 && r.row >= 1
    ensures container.None? ==> r == Cell(1, 1)
    ensures container.Some? ==>
              var c := container.value;
              SnapsTo(clientX - c.left - offsetX - Selection.Padding, cellSize + GridGap, r.col)
              && SnapsTo(clientY - c.top - offsetY + c.scrollTop - Selection.Padding, cellSize + GridGap, r.row)
  {
    match container
    case None => Cell(1, 1)
    case Some(c) =>
      var relX := clientX - c.left - offsetX - Selection.Padding;
      var relY := clientY - c.top - offsetY + c.scrollTop - Selection.Padding;
      Cell(SnapIndex(relX, cellSize + GridGap), SnapIndex(relY, cellSize + GridGap))
  }

  /** As written, a file dragged over the right half of a cell (less the gap)
      is placed in the next column: the pointer's own cell is missed. */
  lemma FileDragMissesPointerCell(c: Selection.Container, col: nat, row: nat, offX: int, cellSize: int)
    requires cellSize >= 0 && cellSize + GridGap <= 2 * offX && offX < cellSize
    ensures var clientX := c.left + Selection.Padding + (col as int) * (cellSize + GridGap) + offX;
            var clientY := c.top - c.scrollTop + Selection.Padding + (row as int) * (cellSize + GridGap);
            GridPosition(Some(c), clientX, clientY, 0, 0, cellSize) == Cell(col + 2, row + 1)
  {
    RightHalfSnapsToNextCell(col, offX, cellSize);
    CellPixelsSnapToCell(row, 0, cellSize);
  }

  // ---------------------------------------------------------------- drag session

  /** One dragged clip's offset from the anchor clip, taken at drag start. */
  datatype Offset = Offset(id: ClipId, dx: int, dy: int)

  /** What `handleDragStart` records: the selection being dragged, the anchor
      clip's id and the offsets. */
  datatype DragSession = DragSession(selection: Selection.Selection, anchorId: ClipId, offsets: seq<Offset>)

  /** The offset is measured from the anchor to the first clip carrying its id. */
  predicate OffsetOf(o: Offset, anchor: Clip, clips: seq<Clip>) {
    var c := FindById(clips, o.id);
    c.Some? && o.dx == c.value.x - anchor.x && o.dy == c.value.y - anchor.y
  }

  /** The selected ids that name a clip, in selection order. */
  function KnownIds(ids: Selection.Selection, clips: seq<Clip>): (r: Selection.Selection)
    ensures |r| <= |ids|
    ensures forall k :: 0 <= k < |r| ==> r[k] in ids && FindById(clips, r[k]).Some?
    ensures forall id :: id in ids && FindById(clips, id).Some? ==> id in r
  {
    if |ids| == 0 then []
    else
      var rest := KnownIds(ids[1..], clips);
      assert forall id :: id in ids ==> id == ids[0] || id in ids[1..];
      if FindById(clips, ids[0]).Some? then [ids[0]] + rest else rest
  }

  /** The filter keeps the selection order: it distributes over concatenation. */
  lemma {:induction false} KnownIdsOfConcat(a: Selection.Selection, b: Selection.Selection, clips: seq<Clip>)
    ensures KnownIds(a + b, clips) == KnownIds(a, clips) + KnownIds(b, clips)
  {
    if |a| > 0 {
      assert (a + b)[0] == a[0];
      assert (a + b)[1..] == a[1..] + b;
      KnownIdsOfConcat(a[1..], b, clips);
      var x, y := KnownIds(a[1..], clips), KnownIds(b, clips);
      if FindById(clips, a[0]).Some? {
        assert [a[0]] + (x + y) == ([a[0]] + x) + y;
      }
    } else {
      assert a + b == b;
    }
  }

  /** `currentSelection.forEach(...)`: one offset per selected id that names a clip, in selection order. */
  function DragOffsets(ids: Selection.Selection, anchor: Clip, clips: seq<Clip>): (r: seq<Offset>)
    ensures var known := KnownIds(ids, clips);
            |r| == |known| && forall k :: 0 <= k < |r| ==> r[k].id == known[k] && OffsetOf(r[k], anchor, clips)
  {
    var known := KnownIds(ids, clips);
    seq(|known|, k requires 0 <= k < |known| =>
      var c := FindById(clips, known[k]).value;
      Offset(known[k], c.x - anchor.x, c.y - anchor.y))
  }

  /** `handleDragStart`: outside edit mode the drag is refused. A tile that is
      not selected replaces the selection; the offsets cover the selection. */
  function DragStart(editMode: bool, selection: Selection.Selection, clip: Clip, clips: seq<Clip>): (r: Option<DragSession>)
    ensures r.None? <==> !editMode
    ensures r.Some? ==> r.value.anchorId == clip.id && clip.id in r.value.selection
                        && (clip.id in selection ==> r.value.selection == selection)
                        && (clip.id !in selection ==> r.value.selection == [clip.id])
                        && r.value.offsets == DragOffsets(r.value.selection, clip, clips)
  {
    if !editMode then None
    else
      var sel := if clip.id in selection then selection else [clip.id];
      Some(DragSession(sel, clip.id, DragOffsets(sel, clip, clips)))
  }

  /** When ids are unique and the dragged tile is in the list, its own offset is (0, 0). */
  lemma AnchorOffsetIsZero(editMode: bool, selection: Selection.Selection, clip: Clip, clips: seq<Clip>)
    requires editMode && UniqueIds(clips) && clip in clips
    ensures var s := DragStart(editMode, selection, clip, clips).value;
            exists k :: 0 <= k < |s.offsets| && s.offsets[k] == Offset(clip.id, 0, 0)
  {
    var s := DragStart(editMode, selection, clip, clips).value;
    var i :| 0 <= i < |clips| && clips[i] == clip;
    var found := FindById(clips, clip.id);
    assert found.Some?;
    assert found.value == clip;
    var known := KnownIds(s.selection, clips);
    var k :| 0 <= k < |known| && known[k] == clip.id;
    assert OffsetOf(s.offsets[k], clip, clips);
  }

  // ---------------------------------------------------------------- group move

  /** The smallest offsets, starting from 0 (`minDx`, `minDy`). */
  function MinOffsets(offsets: seq<Offset>): (m: (int, int))
    ensures m.0 <= 0 && m.1 <= 0
    ensures forall k :: 0 <= k < |offsets| ==> m.0 <= offsets[k].dx && m.1 <= offsets[k].dy
    ensures m.0 == 0 || exists k :: 0 <= k < |offsets| && offsets[k].dx == m.0
    ensures m.1 == 0 || exists k :: 0 <= k < |offsets| && offsets[k].dy == m.1
  {
    if |offsets| == 0 then (0, 0)
    else
      var rest := MinOffsets(offsets[1..]);
      assert forall k :: 1 <= k < |offsets| ==> offsets[k] == offsets[1..][k - 1];
      (Min(offsets[0].dx, rest.0), Min(offsets[0].dy, rest.1))
  }

  /** The anchor cell pushed right and down just far enough that every
      offset lands at column and row 1 or later. */
  function ClampAnchor(cell: Cell, offsets: seq<Offset>): (r: Cell)
    ensures r.col >= cell.col && r.row >= cell.row
    ensures forall k :: 0 <= k < |offsets| ==> r.col + offsets[k].dx >= 1 && r.row + offsets[k].dy >= 1
    ensures r.col > cell.col ==> r.col == 1 || exists k :: 0 <= k < |offsets| && r.col + offsets[k].dx == 1
    ensures r.row > cell.row ==> r.row == 1 || exists k :: 0 <= k < |offsets| && r.row + offsets[k].dy == 1
  {
    var m := MinOffsets(offsets);
    Cell(Max(1 - m.0, cell.col), Max(1 - m.1, cell.row))
  }

  /** A clip's projected rectangle for the drop. */
  datatype Placed = Placed(id: ClipId, rect: Rect)

  /** The offsets whose id names a clip (`.filter(Boolean)` after the lookup), in order. */
  function FoundOffsets(offsets: seq<Offset>, clips: seq<Clip>): (r: seq<Offset>)
    ensures |r| <= |offsets|
    ensures forall k :: 0 <= k < |r| ==> r[k] in offsets && FindById(clips, r[k].id).Some?
    ensures forall o :: o in offsets && FindById(clips, o.id).Some? ==> o in r
  {
    if |offsets| == 0 then []
    else
      var rest := FoundOffsets(offsets[1..], clips);
      assert forall o :: o in offsets ==> o == offsets[0] || o in offsets[1..];
      if FindById(clips, offsets[0].id).Some? then [offsets[0]] + rest else rest
  }

  /** `o` projected from the anchor cell: `max(1, cell + offset)`, with its clip's size. */
  function ProjectOne(o: Offset, cell: Cell, clips: seq<Clip>): (p: Placed)
    requires FindById(clips, o.id).Some?
    ensures p.id == o.id && p.rect.x >= 1 && p.rect.y >= 1
  {
    var c := FindById(clips, o.id).value;
    Placed(o.id, Rect(Max(1, cell.col + o.dx), Max(1, cell.row + o.dy), c.cols, c.rows))
  }

  /** `projectedPositions`. */
  function Project(offsets: seq<Offset>, cell: Cell, clips: seq<Clip>): (r: seq<Placed>)
    ensures var found := FoundOffsets(offsets, clips);
            |r| == |found| && forall k :: 0 <= k < |r| ==> r[k] == ProjectOne(found[k], cell, clips)
  {
    var found := FoundOffsets(offsets, clips);
    seq(|found|, k requires 0 <= k < |found| => ProjectOne(found[k], cell, clips))
  }

  /** From the clamped anchor the projection is the plain sum: the lower bound of 1 never bites. */
  lemma ClampedProjectionIsExact(o: Offset, cell: Cell, offsets: seq<Offset>, clips: seq<Clip>)
    requires o in offsets && FindById(clips, o.id).Some?
    ensures var a := ClampAnchor(cell, offsets);
            ProjectOne(o, a, clips).rect.x == a.col + o.dx && ProjectOne(o, a, clips).rect.y == a.row + o.dy
  {
  }

  /** Some clip outside the selection overlaps the rectangle (`clips.some(...)`
      skipping selected ids). Selected clips never block a group move. */
  function CollidesOutside(target: Rect, clips: seq<Clip>, selection: Selection.Selection): (b: bool)
    ensures b <==> exists i :: 0 <= i < |clips| && clips[i].id !in selection && IsOverlapping(target, ClipRect(clips[i]))
  {
    if |clips| == 0 then false
    else
      var rest := CollidesOutside(target, clips[1..], selection);
      assert forall i :: 1 <= i < |clips| ==> clips[i] == clips[1..][i - 1];
      (clips[0].id !in selection && IsOverlapping(target, ClipRect(clips[0]))) || rest
  }

  /** The drop loop: stop at the first blocked projection; otherwise one update per projection. */
  function MoveUpdates(placed: seq<Placed>, clips: seq<Clip>, selection: Selection.Selection): (r: Option<seq<MoveUpdate>>)
    ensures r.None? <==> exists k :: 0 <= k < |placed| && CollidesOutside(placed[k].rect, clips, selection)
    ensures r.Some? ==> |r.value| == |placed|
                        && forall k :: 0 <= k < |placed| ==>
                             r.value[k] == MoveUpdate(placed[k].id, placed[k].rect.x, placed[k].rect.y)
  {
    if |placed| == 0 then Some([])
    else if CollidesOutside(placed[0].rect, clips, selection) then None
    else
      var rest := MoveUpdates(placed[1..], clips, selection);
      assert forall k :: 1 <= k < |placed| ==> placed[k] == placed[1..][k - 1];
      match rest
      case None => None
      case Some(us) => Some([MoveUpdate(placed[0].id, placed[0].rect.x, placed[0].rect.y)] + us)
  }

  /** The group part of `handleDrop`, given the snapped pointer cell: the
      updates handed to `onMoveClips`, or None when it is not called. It is
      called only in edit mode with a drag session, only when no projected
      rectangle overlaps a clip outside the selection, and only with at least
      one update. */
  function PlanGroupDrop(editMode: bool, session: Option<DragSession>, cell: Cell,
                         selection: Selection.Selection, clips: seq<Clip>): (r: Option<seq<MoveUpdate>>)
    ensures !editMode || session.None? ==> r.None?
    ensures editMode && session.Some? ==>
              var placed := Project(session.value.offsets, ClampAnchor(cell, session.value.offsets), clips);
              (r.Some? <==> |placed| > 0 && forall k :: 0 <= k < |placed| ==> !CollidesOutside(placed[k].rect, clips, selection))
              && (r.Some? ==> |r.value| == |placed|
                              && forall k :: 0 <= k < |placed| ==>
                                   r.value[k] == MoveUpdate(placed[k].id, placed[k].rect.x, placed[k].rect.y))
  {
    if !editMode || session.None? then None
    else
      var offsets := session.value.offsets;
      var placed := Project(offsets, ClampAnchor(cell, offsets), clips);
      match MoveUpdates(placed, clips, selection)
      case None => None
      case Some(us) => if |us| > 0 then Some(us) else None
  }

  /** An accepted group move keeps the formation: every update lies at or
      after (1, 1), exactly at the clamped anchor plus its clip's offset. */
  lemma GroupDropKeepsFormation(session: DragSession, cell: Cell, selection: Selection.Selection, clips: seq<Clip>)
    requires PlanGroupDrop(true, Some(session), cell, selection, clips).Some?
    ensures var us := PlanGroupDrop(true, Some(session), cell, selection, clips).value;
            var anchor := ClampAnchor(cell, session.offsets);
            forall k :: 0 <= k < |us| ==>
              us[k].x >= 1 && us[k].y >= 1
              && exists o :: o in session.offsets && o.id == us[k].id
                             && us[k].x == anchor.col + o.dx && us[k].y == anchor.row + o.dy
  {
    var us := PlanGroupDrop(true, Some(session), cell, selection, clips).value;
    var anchor := ClampAnchor(cell, session.offsets);
    var found := FoundOffsets(session.offsets, clips);
    var placed := Project(session.offsets, anchor, clips);
    forall k | 0 <= k < |us|
      ensures us[k].x >= 1 && us[k].y >= 1
      ensures exists o :: o in session.offsets && o.id == us[k].id
                          && us[k].x == anchor.col + o.dx && us[k].y == anchor.row + o.dy
    {
      assert placed[k] == ProjectOne(found[k], anchor, clips);
      ClampedProjectionIsExact(found[k], cell, session.offsets, clips);
    }
  }

  /** Every dragged clip that still exists gets an update. */
  lemma GroupDropMovesEveryDraggedClip(session: DragSession, cell: Cell, selection: Selection.Selection,
                                       clips: seq<Clip>, o: Offset)
    requires PlanGroupDrop(true, Some(session), cell, selection, clips).Some?
    requires o in session.offsets && FindById(clips, o.id).Some?
    ensures exists k :: 0 <= k < |PlanGroupDrop(true, Some(session), cell, selection, clips).value|
                        && PlanGroupDrop(true, Some(session), cell, selection, clips).value[k].id == o.id
  {
    var us := PlanGroupDrop(true, Some(session), cell, selection, clips).value;
    var anchor := ClampAnchor(cell, session.offsets);
    var found := FoundOffsets(session.offsets, clips);
    var placed := Project(session.offsets, anchor, clips);
    var k :| 0 <= k < |found| && found[k] == o;
    assert placed[k] == ProjectOne(found[k], anchor, clips);
    assert us[k].id == placed[k].id;
  }

  // ---------------------------------------------------------------- drop preview

  /** The highlighted drop area and whether a drop there is accepted. `box` is
      None for the unbounded box the source computes when nothing projects. */
  datatype DropTarget = DropTarget(box: Option<Rect>, valid: bool)

  /** The smallest rectangle holding both. */
  function Union(a: Rect, b: Rect): (r: Rect)
    ensures r.x == Min(a.x, b.x) && r.y == Min(a.y, b.y)
    ensures r.x + r.w == Max(a.x + a.w, b.x + b.w) && r.y + r.h == Max(a.y + a.h, b.y + b.h)
  {
    var x := Min(a.x, b.x);
    var y := Min(a.y, b.y);
    Rect(x, y, Max(a.x + a.w, b.x + b.w) - x, Max(a.y + a.h, b.y + b.h) - y)
  }

  /** The minX/minY/maxX/maxY fold over the projections. */
  function BoundingBox(placed: seq<Placed>): (r: Option<Rect>)
    ensures r.None? <==> |placed| == 0
    ensures r.Some? ==> forall k :: 0 <= k < |placed| ==>
              r.value.x <= placed[k].rect.x && placed[k].rect.x + placed[k].rect.w <= r.value.x + r.value.w
              && r.value.y <= placed[k].rect.y && placed[k].rect.y + placed[k].rect.h <= r.value.y + r.value.h
    ensures r.Some? ==> (exists k :: 0 <= k < |placed| && placed[k].rect.x == r.value.x)
                        && (exists k :: 0 <= k < |placed| && placed[k].rect.y == r.value.y)
    ensures r.Some? ==> (exists k :: 0 <= k < |placed| && placed[k].rect.x + placed[k].rect.w == r.value.x + r.value.w)
                        && (exists k :: 0 <= k < |placed| && placed[k].rect.y + placed[k].rect.h == r.value.y + r.value.h)
  {
    if |placed| == 0 then None
    else
      var rest := BoundingBox(placed[1..]);
      assert forall k :: 1 <= k < |placed| ==> placed[k] == placed[1..][k - 1];
      match rest
      case None => Some(placed[0].rect)
      case Some(b) => Some(Union(placed[0].rect, b))
  }

  /** The file part of `handleGridDragOver`: a 1x1 target under the pointer,
      valid when it overlaps no clip. */
  function FileDragOver(cell: Cell, clips: seq<Clip>): (t: DropTarget)
    ensures t.box == Some(Rect(cell.col, cell.row, 1, 1))
    ensures t.valid <==> forall i :: 0 <= i < |clips| ==> !IsOverlapping(Rect(cell.col, cell.row, 1, 1), ClipRect(clips[i]))
  {
    DropTarget(Some(Rect(cell.col, cell.row, 1, 1)), !CheckCollision(Rect(cell.col, cell.row, 1, 1), clips, None))
  }

  /** The tile part of `handleGridDragOver`: no new target outside edit mode,
      without a drag in progress or without a session; otherwise the box
      around the projections and whether every projection is free. */
  function GroupDragOver(editMode: bool, dragging: bool, session: Option<DragSession>, cell: Cell,
                         selection: Selection.Selection, clips: seq<Clip>): (r: Option<DropTarget>)
    ensures r.None? <==> !editMode || !dragging || session.None?
    ensures r.Some? ==>
              var placed := Project(session.value.offsets, ClampAnchor(cell, session.value.offsets), clips);
              r.value.box == BoundingBox(placed)
              && (r.value.valid <==> forall k :: 0 <= k < |placed| ==> !CollidesOutside(placed[k].rect, clips, selection))
  {
    if !editMode || !dragging || session.None? then None
    else
      var offsets := session.value.offsets;
      var placed := Project(offsets, ClampAnchor(cell, offsets), clips);
      Some(DropTarget(BoundingBox(placed), MoveUpdates(placed, clips, selection).Some?))
  }

  /** The preview tells the truth: at the same cell, the drop moves the tiles
      exactly when the preview shows a non-empty, valid target. */
  lemma PreviewAgreesWithDrop(session: DragSession, cell: Cell, selection: Selection.Selection, clips: seq<Clip>)
    ensures var t := GroupDragOver(true, true, Some(session), cell, selection, clips).value;
            PlanGroupDrop(true, Some(session), cell, selection, clips).Some? <==> t.valid && t.box.Some?
  {
  }

  // ---------------------------------------------------------------- dropped files

  /** `f.type.startsWith('audio/')`. */
  predicate IsAudio(f: FileInfo) {
    |f.mimeType| >= 6 && f.mimeType[..6] == "audio/"
  }

  /** `files.filter(f => f.type.startsWith('audio/'))`. */
  function AudioFiles(files: seq<FileInfo>): (r: seq<FileInfo>)
    ensures |r| <= |files|
    ensures forall k :: 0 <= k < |r| ==> IsAudio(r[k])
  {
    if |files| == 0 then []
    else if IsAudio(files[0]) then [files[0]] + AudioFiles(files[1..])
    else AudioFiles(files[1..])
  }

  /** The filter keeps exactly the audio files. */
  lemma {:induction false} AudioFilesAreTheAudioOnes(files: seq<FileInfo>)
    ensures forall k :: 0 <= k < |AudioFiles(files)| ==> IsAudio(AudioFiles(files)[k]) && AudioFiles(files)[k] in files
    ensures forall f :: f in files && IsAudio(f) ==> f in AudioFiles(files)
  {
    if |files| > 0 {
      AudioFilesAreTheAudioOnes(files[1..]);
      assert forall f :: f in files ==> f == files[0] || f in files[1..];
    }
  }

  /** The filter keeps the audio files in their order: it distributes over concatenation. */
  lemma {:induction false} AudioFilesOfConcat(a: seq<FileInfo>, b: seq<FileInfo>)
    ensures AudioFiles(a + b) == AudioFiles(a) + AudioFiles(b)
  {
    if |a| > 0 {
      assert (a + b)[0] == a[0];
      assert (a + b)[1..] == a[1..] + b;
      AudioFilesOfConcat(a[1..], b);
      var x, y := AudioFiles(a[1..]), AudioFiles(b);
      if IsAudio(a[0]) {
        assert [a[0]] + (x + y) == ([a[0]] + x) + y;
      }
    } else {
      assert a + b == b;
    }
  }

  /** The placeholder id of dropped-file clips (the source appends a random number). */
  const DropTempId: ClipId := "temp-"

  /** The working list of the drop after some tiles: placeholders carry no blob id. */
  function DropWorkingList(clips: seq<Clip>, tiles: seq<Tile>): seq<Clip> {
    WorkingList(clips, tiles, DropTempId, None)
  }

  /** A tile sits where the drop puts it: the first tile under the pointer
      when that cell is free, every other tile at the first free spot of the
      working list of the tiles before it. */
  ghost predicate DropPlaced(clips: seq<Clip>, before: seq<Tile>, t: Tile, cell: Cell, columns: int) {
    if |before| == 0 && !CheckCollision(Rect(cell.col, cell.row, 1, 1), clips, None)
    then t.x == cell.col && t.y == cell.row
    else SpotSpec(1, 1, DropWorkingList(clips, before), columns, t.x, t.y)
  }

  ghost function DropFact(clips: seq<Clip>, cell: Cell, columns: int): TileFact {
    (before, t) => DropPlaced(clips, before, t, cell, columns)
  }

  /** One file of the drop: the tile keeps `(col, row)` while that cell is
      free on the working list and otherwise takes the first free spot. */
  method DropOne(clips: seq<Clip>, tiles: seq<Tile>, f: FileInfo, col: int, row: int,
                 cell: Cell, columns: int, codec: Color.HslCodec)
    returns (t: Tile)
    requires |tiles| > 0 ==> col == tiles[|tiles| - 1].x && row == tiles[|tiles| - 1].y
    requires |tiles| == 0 ==> col == cell.col && row == cell.row
    ensures t.file == f
    ensures NamedAndColoured(clips, tiles, t, SmartColouring(codec), DropTempId, None)
    ensures DropPlaced(clips, tiles, t, cell, columns)
  {
    if |tiles| > 0 {
      // the previous tile sits on (col, row), so the cell is taken
      LastTileBlocksItsCell(clips, tiles, DropTempId, None);
    }
    var temp := DropWorkingList(clips, tiles);
    var x, y := col, row;
    if CheckCollision(Rect(col, row, 1, 1), temp, None) {
      x, y := FindFirstFreeSpot(1, 1, temp, columns);
    }
    var name := StripExtension(f.name);
    t := Tile(f, name, x, y, Color.GenerateSmartColor(codec, name, temp));
  }

  /** The file part of `handleDrop`: each audio file in turn becomes a 1x1
      tile named after the file without its extension and coloured against
      the working list. The cell under the pointer is kept while it is free;
      once taken, the first free spot on the working list is used. Since
      every tile occupies its own cell, only the first file can land under
      the pointer. */
  method DropFiles(files: seq<FileInfo>, cell: Cell, clips: seq<Clip>, columns: int, codec: Color.HslCodec)
    returns (tiles: seq<Tile>)
    ensures FilesOf(tiles) == AudioFiles(files)
    ensures forall k :: 0 <= k < |tiles| ==> NamedAndColoured(clips, tiles[..k], tiles[k], SmartColouring(codec), DropTempId, None)
    ensures forall k :: 0 <= k < |tiles| ==> DropPlaced(clips, tiles[..k], tiles[k], cell, columns)
  {
    var named := NamedFact(clips, SmartColouring(codec), DropTempId, None);
    var placed := DropFact(clips, cell, columns);
    var audio := AudioFiles(files);
    var col, row := cell.col, cell.row;
    tiles := [];
    for k := 0 to |audio|
      invariant |tiles| == k
      invariant k > 0 ==> col == tiles[k - 1].x && row == tiles[k - 1].y
      invariant k == 0 ==> col == cell.col && row == cell.row
      invariant FilesOf(tiles) == audio[..k]
      invariant InOrder(tiles, named) && InOrder(tiles, placed)
    {
      var t := DropOne(clips, tiles, audio[k], col, row, cell, columns, codec);
      FilesOfAppend(tiles, t);
      TakeOneMore(audio, k);
      InOrderStep(tiles, t, named);
      InOrderStep(tiles, t, placed);
      tiles := tiles + [t];
      col, row := t.x, t.y;
    }
    assert audio[..|audio|] == audio;
    forall k | 0 <= k < |tiles|
      ensures NamedAndColoured(clips, tiles[..k], tiles[k], SmartColouring(codec), DropTempId, None)
      ensures DropPlaced(clips, tiles[..k], tiles[k], cell, columns)
    {
      InOrderAt(tiles, named, k);
      InOrderAt(tiles, placed, k);
    }
  }

  /** The file part of `handleDrop` from the pointer position, as written:
      the drop cell is `calculateGridPosition(e, 0, 0)`, which rounds to the
      nearest grid line. */
  method DropFilesAtPointer(files: seq<FileInfo>, container: Option<Selection.Container>, clientX: int, clientY: int,
                            clips: seq<Clip>, columns: int, cellSize: int, codec: Color.HslCodec)
    returns (cell: Cell, tiles: seq<Tile>)
    requires cellSize + GridGap >= 1
    ensures cell == GridPosition(container, clientX, clientY, 0, 0, cellSize)
    ensures FilesOf(tiles) == AudioFiles(files)
    ensures forall k :: 0 <= k < |tiles| ==> NamedAndColoured(clips, tiles[..k], tiles[k], SmartColouring(codec), DropTempId, None)
    ensures forall k :: 0 <= k < |tiles| ==> DropPlaced(clips, tiles[..k], tiles[k], cell, columns)
  {
    cell := GridPosition(container, clientX, clientY, 0, 0, cellSize);
    tiles := DropFiles(files, cell, clips, columns, codec);
  }

  /** As written, a file dropped over the right half of a cell lands in the
      next column whenever that cell is free: the pointer's own cell is missed. */
  lemma FirstDropMissesPointerCell(c: Selection.Container, col: nat, row: nat, offX: int, cellSize: int,
                                   clips: seq<Clip>, t: Tile, columns: int)
    requires cellSize >= 0 && cellSize + GridGap <= 2 * offX && offX < cellSize
    requires !CheckCollision(Rect(col + 2, row + 1, 1, 1), clips, None)
    requires var clientX := c.left + Selection.Padding + (col as int) * (cellSize + GridGap) + offX;
             var clientY := c.top - c.scrollTop + Selection.Padding + (row as int) * (cellSize + GridGap);
             DropPlaced(clips, [], t, GridPosition(Some(c), clientX, clientY, 0, 0, cellSize), columns)
    ensures t.x == col + 2 && t.y == row + 1
  {
    FileDragMissesPointerCell(c, col, row, offX, cellSize);
  }

  /** The file part of `handleDrop` from the pointer position, with the
      corrected snapping: the tiles of the drop at the cell under the pointer. */
  method DropFilesUnderPointer(files: seq<FileInfo>, container: Option<Selection.Container>, clientX: int, clientY: int,
                            clips: seq<Clip>, columns: int, cellSize: int, codec: Color.HslCodec)
    returns (cell: Cell, tiles: seq<Tile>)
    requires cellSize + GridGap >= 1
    ensures cell == FileDropCell(container, clientX, clientY, cellSize)
    ensures FilesOf(tiles) == AudioFiles(files)
    ensures forall k :: 0 <= k < |tiles| ==> NamedAndColoured(clips, tiles[..k], tiles[k], SmartColouring(codec), DropTempId, None)
    ensures forall k :: 0 <= k < |tiles| ==> DropPlaced(clips, tiles[..k], tiles[k], cell, columns)
  {
    cell := FileDropCell(container, clientX, clientY, cellSize);
    tiles := DropFiles(files, cell, clips, columns, codec);
  }

  /** With the corrected snapping, the first dropped file lands in the cell
      the pointer is over whenever that cell is free. */
  lemma FirstDropLandsUnderPointer(c: Selection.Container, col: nat, row: nat, offX: int, offY: int, cellSize: int,
                                   clips: seq<Clip>, t: Tile, columns: int)
    requires cellSize + GridGap >= 1
    requires 0 <= offX < cellSize + GridGap && 0 <= offY < cellSize + GridGap
    requires !CheckCollision(Rect(col + 1, row + 1, 1, 1), clips, None)
    requires var clientX := c.left + Selection.Padding + (col as int) * (cellSize + GridGap) + offX;
             var clientY := c.top - c.scrollTop + Selection.Padding + (row as int) * (cellSize + GridGap) + offY;
             DropPlaced(clips, [], t, FileDropCell(Some(c), clientX, clientY, cellSize), columns)
    ensures t.x == col + 1 && t.y == row + 1
  {
    FileDropCellIsUnderPointer(c, col, row, offX, offY, cellSize);
  }

  /** When the working list had room, a dropped tile overlaps no clip that was on the grid. */
  lemma DroppedTileAvoidsClips(clips: seq<Clip>, before: seq<Tile>, t: Tile, cell: Cell, columns: int)
    requires DropPlaced(clips, before, t, cell, columns)
    requires FreeSpotExists(1, 1, DropWorkingList(clips, before), columns)
    ensures forall c :: 0 <= c < |clips| ==> !IsOverlapping(Rect(t.x, t.y, 1, 1), ClipRect(clips[c]))
  {
    if !(|before| == 0 && !CheckCollision(Rect(cell.col, cell.row, 1, 1), clips, None)) {
      SpotAvoidsPrefix(clips, DropWorkingList(clips, before), columns, t.x, t.y);
    }
  }

  /** ... and no two dropped tiles share a cell. */
  lemma DroppedTilesAreDistinct(clips: seq<Clip>, tiles: seq<Tile>, cell: Cell, columns: int, i: nat, j: nat)
    requires i < j < |tiles| && DropPlaced(clips, tiles[..j], tiles[j], cell, columns)
    requires FreeSpotExists(1, 1, DropWorkingList(clips, tiles[..j]), columns)
    ensures (tiles[i].x, tiles[i].y) != (tiles[j].x, tiles[j].y)
  {
    SpotAvoidsEarlierTile(clips, tiles, DropTempId, None, columns, i, j);
  }
}
