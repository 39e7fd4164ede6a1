/** Tile selection in the grid view (components/SoundGrid.tsx): clicking a tile,
    the rubber-band gesture driven by pointer down / move / up, and the pixel
    boxes the gesture tests against. The selection is a JS `Set` of clip ids;
    it is modelled as a duplicate-free sequence in insertion order, the order
    `Set.prototype.forEach` visits. */
module Selection {
  import opened Types
  import opened JsSemantics
  import Collision

  type Selection = seq<ClipId>

  predicate Distinct(s: Selection) {
    forall i, j :: 0 <= i < j < |s| ==> s[i] != s[j]
  }

  /** `set.add(id)`: appended when absent, otherwise the set is unchanged. */
  function SelAdd(s: Selection, id: ClipId): (r: Selection)
    ensures forall x :: x in r <==> x in s || x == id
    ensures Distinct(s) ==> Distinct(r)
    ensures |r| >= |s| && r[..|s|] == s
  {
    if id in s then s else s + [id]
  }

  /** `set.delete(id)`: every other id keeps its position order. */
  function SelDelete(s: Selection, id: ClipId): (r: Selection)
    ensures forall x :: x in r <==> x in s && x != id
    ensures Distinct(s) ==> Distinct(r)
    ensures |r| <= |s|
  {
    if |s| == 0 then []
    else
      var rest := SelDelete(s[1..], id);
      assert forall x :: x in s[1..] ==> x in s;
      assert forall j :: 0 <= j < |s[1..]| ==> s[1..][j] == s[j + 1];
      assert Distinct(s) ==> Distinct(s[1..]) && s[0] !in s[1..];
      if s[0] == id then rest
      else
        assert Distinct(s) ==> Distinct([s[0]] + rest) by {
          if Distinct(s) { DistinctCons(s[0], rest); }
        }
        [s[0]] + rest
  }

  lemma DistinctCons(a: ClipId, t: Selection)
    requires Distinct(t) && a !in t
    ensures Distinct([a] + t)
  {
    var s := [a] + t;
    assert forall j :: 1 <= j < |s| ==> s[j] == t[j - 1];
  }

  /** The modifier keys of a pointer event. */
  datatype Modifiers = Modifiers(ctrl: bool, meta: bool, shift: bool)

  predicate IsMulti(m: Modifiers) {
    m.ctrl || m.meta || m.shift
  }

  /** `handleTileSelect`: without a modifier the selection becomes the clip
      alone; with one, the clip's membership is toggled. */
  function TileSelect(prev: Selection, id: ClipId, isMulti: bool): (r: Selection)
    ensures !isMulti ==> r == [id]
    ensures isMulti ==> (id in r <==> id !in prev)
    ensures isMulti ==> forall x :: x != id ==> (x in r <==> x in prev)
    ensures Distinct(prev) ==> Distinct(r)
  {
    var start := if isMulti then prev else [];
    if id in start then (if isMulti then SelDelete(start, id) else SelAdd(start, id))
    else SelAdd(start, id)
  }

  /** Clicking the same tile twice with a modifier restores the membership of every id. */
  lemma ToggleTwiceRestores(prev: Selection, id: ClipId)
    ensures forall x :: x in TileSelect(TileSelect(prev, id, true), id, true) <==> x in prev
  {
  }

  /** A plain click is idempotent. */
  lemma PlainClickIdempotent(prev: Selection, id: ClipId)
    ensures TileSelect(TileSelect(prev, id, false), id, false) == TileSelect(prev, id, false)
  {
  }

  // ---------------------------------------------------------------- pixel geometry

  /** The padding between the container's edge and the first cell. */
  const Padding: int := 32

  datatype Point = Point(x: int, y: int)

  /** The scroll container: its client-rect origin and scroll offsets. */
  datatype Container = Container(left: int, top: int, scrollLeft: int, scrollTop: int)

  /** `getPointerPos`: the pointer in content coordinates, or (0, 0) without a container. */
  function PointerPos(container: Option<Container>, clientX: int, clientY: int): (p: Point)
    ensures container.None? ==> p == Point(0, 0)
    ensures container.Some? ==> p.x - container.value.scrollLeft == clientX - container.value.left
    ensures container.Some? ==> p.y - container.value.scrollTop == clientY - container.value.top
  {
    match container
    case None => Point(0, 0)
    case Some(c) => Point(clientX - c.left + c.scrollLeft, clientY - c.top + c.scrollTop)
  }

  /** A clip's box in content pixels: cells of `cellSize` separated by `GRID_GAP`. */
  function PixelBox(c: Clip, cellSize: int): (r: Rect)
    ensures r.x == Padding + (c.x - 1) * (cellSize + GridGap)
    ensures r.y == Padding + (c.y - 1) * (cellSize + GridGap)
    ensures r.x + r.w + GridGap == Padding + (c.x - 1 + c.cols) * (cellSize + GridGap)
    ensures r.y + r.h + GridGap == Padding + (c.y - 1 + c.rows) * (cellSize + GridGap)
  {
    var pitch := cellSize + GridGap;
    Rect(Padding + (c.x - 1) * pitch, Padding + (c.y - 1) * pitch,
         c.cols * cellSize + (c.cols - 1) * GridGap, c.rows * cellSize + (c.rows - 1) * GridGap)
  }

  /** The rectangle spanned by the gesture's start point and the pointer. */
  function DragBox(start: Point, pos: Point): (r: Rect)
    ensures r.w >= 0 && r.h >= 0
    ensures r.x == Min(start.x, pos.x) && r.x + r.w == Max(start.x, pos.x)
    ensures r.y == Min(start.y, pos.y) && r.y + r.h == Max(start.y, pos.y)
  {
    Rect(Min(pos.x, start.x), Min(pos.y, start.y), Abs(pos.x - start.x), Abs(pos.y - start.y))
  }

  /** `clips.forEach(...)` adding every clip whose pixel box strictly intersects the box. */
  function RubberBand(sel: Selection, clips: seq<Clip>, box: Rect, cellSize: int): (r: Selection)
    ensures forall id :: id in r <==> id in sel || (exists i :: 0 <= i < |clips| && clips[i].id == id
                                                     && Collision.IsOverlapping(box, PixelBox(clips[i], cellSize)))
    ensures Distinct(sel) ==> Distinct(r)
    ensures |r| >= |sel| && r[..|sel|] == sel
    decreases |clips|
  {
    if |clips| == 0 then sel
    else
      var c := clips[0];
      var next := if Collision.IsOverlapping(box, PixelBox(c, cellSize)) then SelAdd(sel, c.id) else sel;
      var r := RubberBand(next, clips[1..], box, cellSize);
      assert forall i :: 1 <= i < |clips| ==> clips[i] == clips[1..][i - 1];
      assert r[..|sel|] == next[..|sel|];
      r
  }

  /** A larger box selects at least every clip a smaller one does. */
  lemma RubberBandMonotone(sel: Selection, clips: seq<Clip>, small: Rect, large: Rect, cellSize: int)
    requires small.w >= 0 && small.h >= 0
    requires large.x <= small.x && small.x + small.w <= large.x + large.w
    requires large.y <= small.y && small.y + small.h <= large.y + large.h
    ensures forall id :: id in RubberBand(sel, clips, small, cellSize) ==> id in RubberBand(sel, clips, large, cellSize)
  {
    forall i | 0 <= i < |clips| && Collision.IsOverlapping(small, PixelBox(clips[i], cellSize))
      ensures Collision.IsOverlapping(large, PixelBox(clips[i], cellSize))
    {
    }
  }

  // ---------------------------------------------------------------- the gesture

  /** The grid view's selection state: the selected ids, whether a rubber band
      is in progress, its start point, the selection captured when it began,
      and the box drawn on screen. */
  datatype GridUi = GridUi(
    selection: Selection,
    selecting: bool,
    start: Option<Point>,
    initial: Selection,
    box: Option<Rect>)

  predicate WellFormed(ui: GridUi) {
    Distinct(ui.selection) && Distinct(ui.initial)
  }

  /** `handlePointerDown` at content position `pos`. In edit mode a press on the
      background, or any press with Shift, starts a rubber band; without a
      modifier the selection is cleared and the band starts from nothing. */
  function PointerDown(ui: GridUi, editMode: bool, onBackground: bool, mods: Modifiers, pos: Point): (r: GridUi)
    ensures !editMode || (!onBackground && !mods.shift) ==> r == ui
    ensures editMode && (onBackground || mods.shift) ==>
              r.selecting && r.start == Some(pos) && r.box == Some(Rect(pos.x, pos.y, 0, 0))
              && r.initial == r.selection
              && (IsMulti(mods) ==> r.selection == ui.selection)
              && (!IsMulti(mods) ==> r.selection == [])
    ensures WellFormed(ui) ==> WellFormed(r)
  {
    if !editMode || (!onBackground && !mods.shift) then ui
    else
      var initial := if IsMulti(mods) then ui.selection else [];
      GridUi(initial, true, Some(pos), initial, Some(Rect(pos.x, pos.y, 0, 0)))
  }

  /** `handlePointerMove`: while a band is in progress, the selection is the
      captured start set plus every clip the band touches. */
  function PointerMove(ui: GridUi, hasContainer: bool, pos: Point, clips: seq<Clip>, cellSize: int): (r: GridUi)
    ensures !(ui.selecting && ui.start.Some? && hasContainer) ==> r == ui
    ensures ui.selecting && ui.start.Some? && hasContainer ==>
              r.box == Some(DragBox(ui.start.value, pos))
              && (forall id :: id in r.selection <==>
                    id in ui.initial
                    || (exists i :: 0 <= i < |clips| && clips[i].id == id
                          && Collision.IsOverlapping(DragBox(ui.start.value, pos), PixelBox(clips[i], cellSize))))
              && r.selecting == ui.selecting && r.start == ui.start && r.initial == ui.initial
    ensures WellFormed(ui) ==> WellFormed(r)
  {
    if ui.selecting && ui.start.Some? && hasContainer then
      var box := DragBox(ui.start.value, pos);
      ui.(box := Some(box), selection := RubberBand(ui.initial, clips, box, cellSize))
    else ui
  }

  /** Each move recomputes the band from the captured start set, so only the
      latest pointer position matters. */
  lemma LatestMoveDecides(ui: GridUi, p1: Point, p2: Point, clips: seq<Clip>, cellSize: int)
    ensures PointerMove(PointerMove(ui, true, p1, clips, cellSize), true, p2, clips, cellSize)
            == PointerMove(ui, true, p2, clips, cellSize)
  {
  }

  /** A band started without a modifier never keeps an id no touched clip carries. */
  lemma PlainBandSelectsOnlyTouched(ui: GridUi, editMode: bool, onBackground: bool, mods: Modifiers,
                                    start: Point, pos: Point, clips: seq<Clip>, cellSize: int)
    requires editMode && (onBackground || mods.shift) && !IsMulti(mods)
    ensures var r := PointerMove(PointerDown(ui, editMode, onBackground, mods, start), true, pos, clips, cellSize);
            forall id :: id in r.selection ==>
              exists i :: 0 <= i < |clips| && clips[i].id == id
                && Collision.IsOverlapping(DragBox(start, pos), PixelBox(clips[i], cellSize))
  {
  }

  /** The pixel box contains the point, bounds included. */
  predicate ContainsPoint(b: Rect, p: Point) {
    b.x <= p.x <= b.x + b.w && b.y <= p.y <= b.y + b.h
  }

  /** `clips.find(...)`: the first clip whose pixel box contains the point. */
  function FirstHit(clips: seq<Clip>, p: Point, cellSize: int): (r: Option<Clip>)
    ensures r.Some? ==> exists i :: 0 <= i < |clips| && clips[i] == r.value
                                    && ContainsPoint(PixelBox(clips[i], cellSize), p)
                                    && forall j :: 0 <= j < i ==> !ContainsPoint(PixelBox(clips[j], cellSize), p)
    ensures r.None? <==> forall i :: 0 <= i < |clips| ==> !ContainsPoint(PixelBox(clips[i], cellSize), p)
  {
    match FindFirst(clips, (c: Clip) => ContainsPoint(PixelBox(c, cellSize), p))
    case None => None
    case Some(i) => Some(clips[i])
  }

  /** The click threshold: `Math.hypot(dx, dy) < 5`, compared in squares. */
  predicate IsClick(start: Point, pos: Point): (r: bool)
    ensures r ==> -5 < pos.x - start.x < 5 && -5 < pos.y - start.y < 5
    ensures pos.y == start.y ==> (r <==> -5 < pos.x - start.x < 5)
    ensures pos.x == start.x ==> (r <==> -5 < pos.y - start.y < 5)
  {
    var dx, dy := pos.x - start.x, pos.y - start.y;
    SquareBelow25(dx);
    SquareBelow25(dy);
    dx * dx + dy * dy < 25
  }

  /** A square is non-negative, and below 25 exactly for offsets under 5. */
  lemma SquareBelow25(d: int)
    ensures d * d >= 0
    ensures d * d < 25 <==> -5 < d < 5
  {
    if d >= 5 {
      assert d * d >= 5 * d >= 25;
    } else if d <= -5 {
      assert d * d >= -5 * d >= 25;
    } else if d >= 0 {
      assert d * d <= 4 * d <= 16;
    } else {
      assert d * d <= -4 * d <= 16;
    }
  }

  /** `handlePointerUp`: ends the band. A pointer that moved less than 5 px is a
      click: the first tile under it is selected as by `handleTileSelect`, and a
      click on no tile without a modifier clears the selection. */
  function PointerUp(ui: GridUi, pos: Point, mods: Modifiers, clips: seq<Clip>, cellSize: int): (r: GridUi)
    ensures !ui.selecting ==> r == ui
    ensures ui.selecting ==> !r.selecting && r.start.None? && r.box.None? && r.initial == ui.initial
    ensures ui.selecting && ui.start.Some? && IsClick(ui.start.value, pos) ==>
              match FirstHit(clips, pos, cellSize)
              case Some(c) => r.selection == TileSelect(ui.selection, c.id, IsMulti(mods))
              case None => r.selection == (if IsMulti(mods) then ui.selection else [])
    ensures ui.selecting && !(ui.start.Some? && IsClick(ui.start.value, pos)) ==> r.selection == ui.selection
    ensures WellFormed(ui) ==> WellFormed(r)
  {
    if !ui.selecting then ui
    else
      var selection :=
        if ui.start.Some? && IsClick(ui.start.value, pos) then
          match FirstHit(clips, pos, cellSize)
          case Some(c) => TileSelect(ui.selection, c.id, IsMulti(mods))
          case None => if IsMulti(mods) then ui.selection else []
        else ui.selection;
      GridUi(selection, false, None, ui.initial, None)
  }

  /** Leaving edit mode clears the selection (the effect on `isEditMode`). */
  function EditModeChanged(ui: GridUi, editMode: bool): (r: GridUi)
    ensures !editMode ==> r.selection == [] && r.(selection := ui.selection) == ui
    ensures editMode ==> r == ui
  {
    if editMode then ui else ui.(selection := [])
  }

  /** A press and release on a tile without moving, and without a modifier,
      selects exactly the tile under the pointer. */
  lemma PlainClickOnTileSelectsIt(ui: GridUi, mods: Modifiers, pos: Point, clips: seq<Clip>, cellSize: int, i: nat)
    requires !IsMulti(mods)
    requires i < |clips| && ContainsPoint(PixelBox(clips[i], cellSize), pos)
    requires forall j :: 0 <= j < i ==> !ContainsPoint(PixelBox(clips[j], cellSize), pos)
    ensures PointerUp(PointerDown(ui, true, true, mods, pos), pos, mods, clips, cellSize).selection == [clips[i].id]
  {
    var hit := FirstHit(clips, pos, cellSize);
    assert hit.Some?;
    var k :| 0 <= k < |clips| && clips[k] == hit.value
             && ContainsPoint(PixelBox(clips[k], cellSize), pos)
             && forall j :: 0 <= j < k ==> !ContainsPoint(PixelBox(clips[j], cellSize), pos);
    assert !(k < i) && !(i < k);
  }
}
