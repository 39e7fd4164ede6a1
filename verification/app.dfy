/** The two file loops of the application shell (App.tsx): the bulk upload,
    which places a batch of files one by one on a growing working list and
    saves each as a new clip, and the directory restore, which matches
    picked files to clips by file name. */
module App {
  import opened Types
  import opened JsSemantics
  import opened Collision
  import opened Placement
  import Color
  import Clips

  // ---------------------------------------------------------------- bulk upload

  /** The placeholder id and blob id of uploaded clips on the working list
      (the source appends a random number to the id). */
  const UploadTempId: ClipId := "temp-"
  const UploadTempBlob: Option<string> := Some("temp")

  function UploadWorkingList(clips: seq<Clip>, tiles: seq<Tile>): seq<Clip> {
    WorkingList(clips, tiles, UploadTempId, UploadTempBlob)
  }

  /** A tile sits at the first free spot of the working list of the tiles before it. */
  ghost predicate UploadPlaced(clips: seq<Clip>, before: seq<Tile>, t: Tile, columns: int) {
    SpotSpec(1, 1, UploadWorkingList(clips, before), columns, t.x, t.y)
  }

  ghost function UploadFact(clips: seq<Clip>, columns: int): TileFact {
    (before, t) => UploadPlaced(clips, before, t, columns)
  }

  /** One file of the batch: the first free spot of the working list, the
      file name without its extension, and a colour against the working list. */
  method UploadOne(clips: seq<Clip>, tiles: seq<Tile>, f: FileInfo, columns: int, codec: Color.HslCodec)
    returns (t: Tile)
    ensures t.file == f
    ensures NamedAndColoured(clips, tiles, t, SmartColouring(codec), UploadTempId, UploadTempBlob)
    ensures UploadPlaced(clips, tiles, t, columns)
  {
    var temp := UploadWorkingList(clips, tiles);
    var x, y := FindFirstFreeSpot(1, 1, temp, columns);
    var name := StripExtension(f.name);
    t := Tile(f, name, x, y, Color.GenerateSmartColor(codec, name, temp));
  }

  /** The placement part of `handleBulkUpload`: every file, in order, becomes
      a 1x1 tile at the first free spot of the list of clips plus the tiles
      placed before it, named after the file and coloured against that list. */
  method BulkUpload(files: seq<FileInfo>, clips: seq<Clip>, columns: int, codec: Color.HslCodec)
    returns (tiles: seq<Tile>)
    ensures FilesOf(tiles) == files
    ensures forall k :: 0 <= k < |tiles| ==>
              NamedAndColoured(clips, tiles[..k], tiles[k], SmartColouring(codec), UploadTempId, UploadTempBlob)
    ensures forall k :: 0 <= k < |tiles| ==> UploadPlaced(clips, tiles[..k], tiles[k], columns)
  {
    var named := NamedFact(clips, SmartColouring(codec), UploadTempId, UploadTempBlob);
    var placed := UploadFact(clips, columns);
    tiles := [];
    for k := 0 to |files|
      invariant FilesOf(tiles) == files[..k]
      invariant InOrder(tiles, named) && InOrder(tiles, placed)
    {
      var t := UploadOne(clips, tiles, files[k], columns, codec);
      FilesOfAppend(tiles, t);
      TakeOneMore(files, k);
      InOrderStep(tiles, t, named);
      InOrderStep(tiles, t, placed);
      tiles := tiles + [t];
    }
    assert files[..|files|] == files;
    forall k | 0 <= k < |tiles|
      ensures NamedAndColoured(clips, tiles[..k], tiles[k], SmartColouring(codec), UploadTempId, UploadTempBlob)
      ensures UploadPlaced(clips, tiles[..k], tiles[k], columns)
    {
      InOrderAt(tiles, named, k);
      InOrderAt(tiles, placed, k);
    }
  }

  /** While the grid has room, an uploaded tile overlaps no clip that was on the grid ... */
  lemma UploadedTileAvoidsClips(clips: seq<Clip>, before: seq<Tile>, t: Tile, columns: int)
    requires UploadPlaced(clips, before, t, columns)
    requires FreeSpotExists(1, 1, UploadWorkingList(clips, before), columns)
    ensures forall c :: 0 <= c < |clips| ==> !IsOverlapping(Rect(t.x, t.y, 1, 1), ClipRect(clips[c]))
  {
    SpotAvoidsPrefix(clips, UploadWorkingList(clips, before), columns, t.x, t.y);
  }

  /** ... and no two uploaded tiles share a cell. */
  lemma UploadedTilesAreDistinct(clips: seq<Clip>, tiles: seq<Tile>, columns: int, i: nat, j: nat)
    requires i < j < |tiles| && UploadPlaced(clips, tiles[..j], tiles[j], columns)
    requires FreeSpotExists(1, 1, UploadWorkingList(clips, tiles[..j]), columns)
    ensures (tiles[i].x, tiles[i].y) != (tiles[j].x, tiles[j].y)
  {
    SpotAvoidsEarlierTile(clips, tiles, UploadTempId, UploadTempBlob, columns, i, j);
  }

  /** Every placed tile starts on the grid, found spot or fallback alike. */
  lemma UploadedTileOnGrid(clips: seq<Clip>, before: seq<Tile>, t: Tile, columns: int)
    requires UploadPlaced(clips, before, t, columns)
    ensures t.x >= 1 && t.y >= 1
  {
  }

  /** What the id generator and the blob store contribute to one upload. */
  datatype UploadIds = UploadIds(blobId: string, clipId: ClipId, storeOk: bool)

  /** The `saveClip` call for one tile: new clip data, the file, no edited clip. */
  function SaveTile(prev: seq<Clip>, t: Tile, ids: UploadIds, codec: Color.HslCodec): (r: seq<Clip>)
    ensures !ids.storeOk ==> r == prev
    ensures ids.storeOk ==> |r| == |prev| + 1 && r[..|prev|] == prev
    ensures ids.storeOk ==> var c := r[|prev|];
              && c.id == ids.clipId && c.blobId == Some(ids.blobId) && c.fileName == Some(t.file.name)
              && c.cols == 1 && c.rows == 1
    ensures ids.storeOk && t.x >= 1 && t.y >= 1 ==> r[|prev|].x == t.x && r[|prev|].y == t.y
  {
    var ctx := Clips.SaveContext(Some(t.file), None, ids.blobId, ids.clipId, ids.storeOk);
    var data := TileData(t.name, t.x, t.y, t.color);
    if ids.storeOk then Clips.SaveNewClipAppends(prev, data, ctx, codec); Clips.SaveClip(prev, data, ctx, codec)
    else Clips.SaveClip(prev, data, ctx, codec)
  }

  /** The clip an uploaded tile is saved as. An empty name (a file named
      only by its extension) falls back to the new-clip placeholder name. */
  function UploadedClip(t: Tile, ids: UploadIds): (c: Clip)
    ensures c.x == t.x && c.y == t.y && c.cols == 1 && c.rows == 1
    ensures c.volume == 1.0 && c.fadeInOut && c.isLooping
    ensures c.color == t.color && c.id == ids.clipId && c.blobId == Some(ids.blobId)
  {
    Clip(ids.clipId, if t.name != "" then t.name else Clips.NewClipName, Some(t.file.name), t.color, 1.0,
         Some(ids.blobId), t.x, t.y, 1, 1, true, true)
  }

  /** A tile on the grid is saved as exactly its uploaded clip, appended;
      a failed store adds nothing. */
  lemma SaveTileAppends(prev: seq<Clip>, t: Tile, ids: UploadIds, codec: Color.HslCodec)
    requires t.x >= 1 && t.y >= 1 && t.color != ""
    ensures ids.storeOk ==> SaveTile(prev, t, ids, codec) == prev + [UploadedClip(t, ids)]
    ensures !ids.storeOk ==> SaveTile(prev, t, ids, codec) == prev
  {
    if ids.storeOk {
      var ctx := Clips.SaveContext(Some(t.file), None, ids.blobId, ids.clipId, ids.storeOk);
      Clips.SaveNewClipAppends(prev, TileData(t.name, t.x, t.y, t.color), ctx, codec);
      var r := SaveTile(prev, t, ids, codec);
      assert r == r[..|prev|] + [r[|prev|]];
    }
  }

  /** The saves of the whole batch, in order. */
  function SaveUploads(clips: seq<Clip>, tiles: seq<Tile>, ids: seq<UploadIds>, codec: Color.HslCodec): (r: seq<Clip>)
    requires |ids| == |tiles|
    ensures |clips| <= |r| <= |clips| + |tiles|
    ensures r[..|clips|] == clips
    decreases |tiles|
  {
    if |tiles| == 0 then clips
    else
      var n := |tiles| - 1;
      SaveTile(SaveUploads(clips, tiles[..n], ids[..n], codec), tiles[n], ids[n], codec)
  }

  /** `c` is what the upload of one of the tiles saved: that tile's store
      succeeded and `c` is its clip. */
  predicate IsUploadOf(c: Clip, tiles: seq<Tile>, ids: seq<UploadIds>)
    requires |ids| == |tiles|
    decreases |tiles|
  {
    |tiles| > 0 &&
      var n := |tiles| - 1;
      (ids[n].storeOk && c == UploadedClip(tiles[n], ids[n])) || IsUploadOf(c, tiles[..n], ids[..n])
  }

  /** The uploaded clips of the stores that succeeded, in order. */
  function Uploaded(tiles: seq<Tile>, ids: seq<UploadIds>): (r: seq<Clip>)
    requires |ids| == |tiles|
    ensures |r| <= |tiles|
    ensures forall k :: 0 <= k < |r| ==> IsUploadOf(r[k], tiles, ids)
    decreases |tiles|
  {
    if |tiles| == 0 then []
    else
      var n := |tiles| - 1;
      var front := Uploaded(tiles[..n], ids[..n]);
      if ids[n].storeOk then front + [UploadedClip(tiles[n], ids[n])] else front
  }

  /** The batch appends one clip per successful store to the clips that were
      there, which stay unchanged; with every store succeeding, the clips
      appended are the uploaded clips of all tiles. */
  lemma {:induction false} SaveUploadsAppends(clips: seq<Clip>, tiles: seq<Tile>, ids: seq<UploadIds>, codec: Color.HslCodec)
    requires |ids| == |tiles|
    requires forall k :: 0 <= k < |tiles| ==> tiles[k].x >= 1 && tiles[k].y >= 1 && tiles[k].color != ""
    ensures SaveUploads(clips, tiles, ids, codec) == clips + Uploaded(tiles, ids)
    decreases |tiles|
  {
    if |tiles| > 0 {
      var n := |tiles| - 1;
      SaveUploadsAppends(clips, tiles[..n], ids[..n], codec);
      SaveTileAppends(SaveUploads(clips, tiles[..n], ids[..n], codec), tiles[n], ids[n], codec);
    }
  }

  lemma {:induction false} UploadedWhenAllStored(tiles: seq<Tile>, ids: seq<UploadIds>)
    requires |ids| == |tiles|
    requires forall k :: 0 <= k < |ids| ==> ids[k].storeOk
    ensures |Uploaded(tiles, ids)| == |tiles|
    ensures forall k :: 0 <= k < |tiles| ==> Uploaded(tiles, ids)[k] == UploadedClip(tiles[k], ids[k])
    decreases |tiles|
  {
    if |tiles| > 0 {
      var n := |tiles| - 1;
      UploadedWhenAllStored(tiles[..n], ids[..n]);
      var front := Uploaded(tiles[..n], ids[..n]);
      assert Uploaded(tiles, ids) == front + [UploadedClip(tiles[n], ids[n])];
      assert forall k :: 0 <= k < n ==> tiles[..n][k] == tiles[k] && ids[..n][k] == ids[k];
    }
  }

  // ---------------------------------------------------------------- directory restore

  /** `fileMap`: each name maps to the last picked file carrying it. */
  function FileMap(files: seq<FileInfo>): (m: map<string, FileInfo>)
    ensures forall n :: n in m <==> exists k :: 0 <= k < |files| && files[k].name == n
    decreases |files|
  {
    if |files| == 0 then map[]
    else
      var n := |files| - 1;
      var m := FileMap(files[..n]);
      assert forall k :: 0 <= k < n ==> files[..n][k] == files[k];
      m[files[n].name := files[n]]
  }

  /** A later file with the same name overrides an earlier one. */
  lemma {:induction false} FileMapLastWins(files: seq<FileInfo>, k: nat)
    requires k < |files|
    requires forall j :: k < j < |files| ==> files[j].name != files[k].name
    ensures FileMap(files)[files[k].name] == files[k]
    decreases |files|
  {
    var n := |files| - 1;
    var front := files[..n];
    assert FileMap(files) == FileMap(front)[files[n].name := files[n]];
    if k < n {
      assert front[k] == files[k];
      assert forall j :: k < j < n ==> front[j] == files[j];
      FileMapLastWins(front, k);
      assert files[n].name != files[k].name;
    }
  }

  /** A clip is restored when it names a picked file and has a blob id. */
  predicate Restorable(c: Clip, m: map<string, FileInfo>): (r: bool)
    ensures r ==> c.fileName.Some? && c.fileName.value in m && c.blobId.Some? && c.blobId.value != ""
    ensures c.fileName.None? || c.fileName.value !in m || c.blobId.None? ==> !r
  {
    Truthy(c.fileName) && c.fileName.value in m && HasAudio(c)
  }

  /** `w` is the write that restores `c`: its blob id and the picked file of its name. */
  predicate IsWriteOf(w: (string, FileInfo), c: Clip, m: map<string, FileInfo>) {
    Restorable(c, m) && w == (c.blobId.value, m[c.fileName.value])
  }

  /** The blob writes of a restore, in clip order. */
  function RestoreWrites(clips: seq<Clip>, m: map<string, FileInfo>): (r: seq<(string, FileInfo)>)
    ensures |r| <= |clips|
    ensures forall k :: 0 <= k < |r| ==> exists j :: 0 <= j < |clips| && IsWriteOf(r[k], clips[j], m)
    decreases |clips|
  {
    if |clips| == 0 then []
    else
      var n := |clips| - 1;
      var c := clips[n];
      var front := RestoreWrites(clips[..n], m);
      assert forall j :: 0 <= j < n ==> clips[..n][j] == clips[j];
      if Restorable(c, m) then
        var r := front + [(c.blobId.value, m[c.fileName.value])];
        assert IsWriteOf(r[|front|], clips[n], m);
        r
      else front
  }

  /** The clips a restore counts. */
  function CountRestorable(clips: seq<Clip>, m: map<string, FileInfo>): (r: nat)
    ensures r <= |clips|
    ensures r == |RestoreWrites(clips, m)|
    decreases |clips|
  {
    if |clips| == 0 then 0
    else
      var n := |clips| - 1;
      CountRestorable(clips[..n], m) + (if Restorable(clips[n], m) then 1 else 0)
  }

  /** `handleDirectorySelect`: nothing for an empty pick; otherwise every
      restorable clip's blob is written from the file named by its file name,
      and the count of those writes is reported. */
  method RestoreFromDirectory(files: seq<FileInfo>, clips: seq<Clip>)
    returns (count: Option<nat>, writes: seq<(string, FileInfo)>)
    ensures |files| == 0 ==> count.None? && writes == []
    ensures |files| > 0 ==> count == Some(CountRestorable(clips, FileMap(files)))
    ensures writes == (if |files| == 0 then [] else RestoreWrites(clips, FileMap(files)))
    ensures count.Some? ==> count.value == |writes|
  {
    if |files| == 0 {
      return None, [];
    }
    var m: map<string, FileInfo> := map[];
    for i := 0 to |files|
      invariant m == FileMap(files[..i])
    {
      assert files[..i + 1][..i] == files[..i];
      m := m[files[i].name := files[i]];
    }
    assert files[..|files|] == files;
    var restored := 0;
    writes := [];
    for i := 0 to |clips|
      invariant restored == CountRestorable(clips[..i], m)
      invariant writes == RestoreWrites(clips[..i], m)
      invariant restored == |writes|
    {
      var c := clips[i];
      assert clips[..i + 1][..i] == clips[..i];
      if Truthy(c.fileName) && c.fileName.value in m && HasAudio(c) {
        writes := writes + [(c.blobId.value, m[c.fileName.value])];
        restored := restored + 1;
      }
    }
    assert clips[..|clips|] == clips;
    count := Some(restored);
  }

  /** The count is the number of clips whose file name is among the picked
      names and whose blob id is non-empty. */
  lemma {:induction false} CountIsRestorableClips(clips: seq<Clip>, m: map<string, FileInfo>)
    ensures CountRestorable(clips, m) == |set k | 0 <= k < |clips| && Restorable(clips[k], m)|
    decreases |clips|
  {
    if |clips| > 0 {
      var n := |clips| - 1;
      CountIsRestorableClips(clips[..n], m);
      var before := set k | 0 <= k < n && Restorable(clips[..n][k], m);
      var after := set k | 0 <= k < |clips| && Restorable(clips[k], m);
      assert forall k :: 0 <= k < n ==> clips[..n][k] == clips[k];
      if Restorable(clips[n], m) {
        assert after == before + {n};
      } else {
        assert after == before;
      }
    }
  }
}
