/** Placing a batch of new 1x1 tiles one after another against a growing
    working list: the shared shape of the file drop in the grid view
    (components/SoundGrid.tsx) and of the bulk upload (App.tsx). */
module Placement {
  import opened Types
  import opened JsSemantics
  import opened Collision
  import Color

  /** One placed file: the file, the tile's name, cell and colour. */
  datatype Tile = Tile(file: FileInfo, name: string, x: int, y: int, color: string)

  /** The data handed to `saveClip` for a placed file. */
  function TileRequest(t: Tile): (d: ClipData)
    ensures d.x == Some(t.x) && d.y == Some(t.y) && d.cols == Some(1) && d.rows == Some(1)
  {
    TileData(t.name, t.x, t.y, t.color)
  }

  /** The files the tiles were made from, in order. */
  function FilesOf(tiles: seq<Tile>): (r: seq<FileInfo>)
    ensures |r| == |tiles| && forall k :: 0 <= k < |tiles| ==> r[k] == tiles[k].file
  {
    seq(|tiles|, k requires 0 <= k < |tiles| => tiles[k].file)
  }

  lemma FilesOfAppend(tiles: seq<Tile>, t: Tile)
    ensures FilesOf(tiles + [t]) == FilesOf(tiles) + [t.file]
  {
    assert forall k :: 0 <= k < |tiles| ==> (tiles + [t])[k] == tiles[k];
  }

  /** The placeholder clip pushed for a placed tile. */
  function Placeholder(t: Tile, id: ClipId, blobId: Option<string>): (c: Clip)
    ensures ClipRect(c) == Rect(t.x, t.y, 1, 1)
  {
    TileClip(t.name, t.x, t.y, t.color, id, blobId)
  }

  /** The working list after some tiles: the grid's clips plus one
      placeholder per tile carrying the given id and blob id (placement and
      colour never look at either). */
  function WorkingList(clips: seq<Clip>, tiles: seq<Tile>, id: ClipId, blobId: Option<string>): (r: seq<Clip>)
    ensures |r| == |clips| + |tiles|
    ensures |tiles| == 0 ==> r == clips
  {
    clips + seq(|tiles|, k requires 0 <= k < |tiles| => Placeholder(tiles[k], id, blobId))
  }

  /** The working list starts with the clips, then holds one placeholder per tile, in order. */
  lemma WorkingListLayout(clips: seq<Clip>, tiles: seq<Tile>, id: ClipId, blobId: Option<string>)
    ensures WorkingList(clips, tiles, id, blobId)[..|clips|] == clips
    ensures forall k :: 0 <= k < |tiles| ==> WorkingList(clips, tiles, id, blobId)[|clips| + k] == Placeholder(tiles[k], id, blobId)
  {
  }

  /** Placing one more tile appends its placeholder. */
  lemma WorkingListAppend(clips: seq<Clip>, tiles: seq<Tile>, t: Tile, id: ClipId, blobId: Option<string>)
    ensures WorkingList(clips, tiles + [t], id, blobId) == WorkingList(clips, tiles, id, blobId) + [Placeholder(t, id, blobId)]
  {
    var a := WorkingList(clips, tiles + [t], id, blobId);
    var b := WorkingList(clips, tiles, id, blobId) + [Placeholder(t, id, blobId)];
    assert forall i :: 0 <= i < |clips| ==> a[i] == clips[i] == b[i];
    assert a[|clips| + |tiles|] == b[|clips| + |tiles|];
    assert forall i :: 0 <= i < |a| ==> a[i] == b[i] by {
      forall i | 0 <= i < |a| ensures a[i] == b[i] {
        if i >= |clips| {
          assert a[|clips| + (i - |clips|)] == b[|clips| + (i - |clips|)];
        }
      }
    }
  }

  /** How a tile's colour follows from its name and the working list. The
      grid and the upload both use `SmartColouring`; the bookkeeping below
      holds for any colouring. */
  type Colouring = (string, seq<Clip>) -> string

  /** `generateSmartColor` as a colouring. */
  function SmartColouring(codec: Color.HslCodec): Colouring {
    (name, existing) => Color.GenerateSmartColor(codec, name, existing)
  }

  /** A fact about one placed tile, given the tiles placed before it. */
  type TileFact = (seq<Tile>, Tile) -> bool

  /** Every tile so far satisfies `fact` against the tiles before it,
      stated tile by tile from the last one back (the shape a loop that
      appends one tile per turn establishes). */
  ghost predicate InOrder(tiles: seq<Tile>, fact: TileFact)
    decreases |tiles|
  {
    |tiles| == 0
    || (InOrder(tiles[..|tiles| - 1], fact) && fact(tiles[..|tiles| - 1], tiles[|tiles| - 1]))
  }

  /** Appending a tile that satisfies the fact against the current tiles keeps the list in order. */
  lemma InOrderStep(tiles: seq<Tile>, t: Tile, fact: TileFact)
    requires InOrder(tiles, fact) && fact(tiles, t)
    ensures InOrder(tiles + [t], fact)
  {
    assert (tiles + [t])[..|tiles|] == tiles;
  }

  /** ... and in a list in order, each tile satisfies the fact against the tiles before it. */
  lemma {:induction false} InOrderAt(tiles: seq<Tile>, fact: TileFact, k: nat)
    requires InOrder(tiles, fact) && k < |tiles|
    ensures fact(tiles[..k], tiles[k])
    decreases |tiles|
  {
    var front := tiles[..|tiles| - 1];
    if k < |front| {
      InOrderAt(front, fact, k);
      assert front[k] == tiles[k];
      assert front[..k] == tiles[..k];
    }
  }

  /** A tile is named after its file without the extension and coloured
      against the working list of the tiles before it. */
  ghost predicate NamedAndColoured(clips: seq<Clip>, before: seq<Tile>, t: Tile, colour: Colouring,
                                   id: ClipId, blobId: Option<string>)
  {
    t.name == StripExtension(t.file.name)
    && t.color == colour(t.name, WorkingList(clips, before, id, blobId))
  }

  ghost function NamedFact(clips: seq<Clip>, colour: Colouring, id: ClipId, blobId: Option<string>): TileFact {
    (before, t) => NamedAndColoured(clips, before, t, colour, id, blobId)
  }

  /** The cell of the last placed tile is taken on the working list. */
  lemma LastTileBlocksItsCell(clips: seq<Clip>, tiles: seq<Tile>, id: ClipId, blobId: Option<string>)
    requires |tiles| > 0
    ensures var t := tiles[|tiles| - 1];
            CheckCollision(Rect(t.x, t.y, 1, 1), WorkingList(clips, tiles, id, blobId), None)
  {
    var t := tiles[|tiles| - 1];
    var w := WorkingList(clips, tiles, id, blobId);
    assert IsOverlapping(Rect(t.x, t.y, 1, 1), ClipRect(w[|clips| + |tiles| - 1]));
  }

  /** A found spot overlaps none of the clips the working list starts with. */
  lemma SpotAvoidsPrefix(clips: seq<Clip>, w: seq<Clip>, columns: int, x: int, y: int)
    requires |clips| <= |w| && w[..|clips|] == clips
    requires SpotSpec(1, 1, w, columns, x, y) && FreeSpotExists(1, 1, w, columns)
    ensures forall c :: 0 <= c < |clips| ==> !IsOverlapping(Rect(x, y, 1, 1), ClipRect(clips[c]))
  {
    FoundSpotIsCollisionFree(1, 1, w, columns, x, y);
    assert forall c :: 0 <= c < |clips| ==> w[c] == clips[c];
  }

  /** A found spot is not the cell of any earlier tile. */
  lemma SpotAvoidsEarlierTile(clips: seq<Clip>, tiles: seq<Tile>, id: ClipId, blobId: Option<string>,
                              columns: int, i: nat, j: nat)
    requires i < j < |tiles|
    requires var w := WorkingList(clips, tiles[..j], id, blobId);
             SpotSpec(1, 1, w, columns, tiles[j].x, tiles[j].y) && FreeSpotExists(1, 1, w, columns)
    ensures (tiles[i].x, tiles[i].y) != (tiles[j].x, tiles[j].y)
  {
    SpotAvoidsEntry(WorkingList(clips, tiles[..j], id, blobId), columns, tiles[j].x, tiles[j].y, |clips| + i);
  }

  lemma SpotAvoidsEntry(w: seq<Clip>, columns: int, x: int, y: int, i: nat)
    requires i < |w|
    requires SpotSpec(1, 1, w, columns, x, y) && FreeSpotExists(1, 1, w, columns)
    ensures ClipRect(w[i]) != Rect(x, y, 1, 1)
  {
    FoundSpotIsCollisionFree(1, 1, w, columns, x, y);
    assert !IsOverlapping(Rect(x, y, 1, 1), ClipRect(w[i]));
  }
}
