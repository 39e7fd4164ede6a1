/** The clip-list updaters of the clips hook (hooks/useClips.ts): move, group
    move, resize, delete and save. Each `setClips` updater is a function from
    the previous list to the next one; the blob store and the id generator are
    inputs. */
module Clips {
  import opened Types
  import opened JsSemantics
  import opened Collision
  import Color

  // ---------------------------------------------------------------- move / resize

  /** `moveClip`: every clip with the id gets the new origin. */
  function MoveClip(clips: seq<Clip>, id: ClipId, x: int, y: int): (r: seq<Clip>)
    ensures |r| == |clips|
    ensures forall i :: 0 <= i < |clips| && clips[i].id == id ==> r[i] == clips[i].(x := x, y := y)
    ensures forall i :: 0 <= i < |clips| && clips[i].id != id ==> r[i] == clips[i]
  {
    seq(|clips|, i requires 0 <= i < |clips| => if clips[i].id == id then clips[i].(x := x, y := y) else clips[i])
  }

  /** `resizeClip`: every clip with the id gets the new size. */
  function ResizeClip(clips: seq<Clip>, id: ClipId, cols: int, rows: int): (r: seq<Clip>)
    ensures |r| == |clips|
    ensures forall i :: 0 <= i < |clips| && clips[i].id == id ==> r[i] == clips[i].(cols := cols, rows := rows)
    ensures forall i :: 0 <= i < |clips| && clips[i].id != id ==> r[i] == clips[i]
  {
    seq(|clips|, i requires 0 <= i < |clips| => if clips[i].id == id then clips[i].(cols := cols, rows := rows) else clips[i])
  }

  /** Moving and resizing touch disjoint fields, so their order does not matter. */
  lemma MoveAndResizeCommute(clips: seq<Clip>, id: ClipId, x: int, y: int, cols: int, rows: int)
    ensures MoveClip(ResizeClip(clips, id, cols, rows), id, x, y) == ResizeClip(MoveClip(clips, id, x, y), id, cols, rows)
  {
  }

  /** Moving a clip back to where it was restores the list. */
  lemma MoveClipUndo(clips: seq<Clip>, i: nat, x: int, y: int)
    requires i < |clips| && UniqueIds(clips)
    ensures MoveClip(MoveClip(clips, clips[i].id, x, y), clips[i].id, clips[i].x, clips[i].y) == clips
  {
    var id := clips[i].id;
    var back := MoveClip(MoveClip(clips, id, x, y), id, clips[i].x, clips[i].y);
    assert forall j :: 0 <= j < |clips| ==> back[j] == clips[j];
  }

  /** `updates.find(update => update.id === c.id)`. */
  function FindUpdate(updates: seq<MoveUpdate>, id: ClipId): (r: Option<MoveUpdate>)
    ensures r.Some? ==> r.value.id == id && exists k :: 0 <= k < |updates| && updates[k] == r.value &&
                                                      forall j :: 0 <= j < k ==> updates[j].id != id
    ensures r.None? <==> forall k :: 0 <= k < |updates| ==> updates[k].id != id
  {
    match FindFirst(updates, (u: MoveUpdate) => u.id == id)
    case None => None
    case Some(k) => Some(updates[k])
  }

  /** `moveClips`: each clip takes the origin of the first update carrying
      its id; clips without an update are unchanged. */
  function MoveClips(clips: seq<Clip>, updates: seq<MoveUpdate>): (r: seq<Clip>)
    ensures |r| == |clips|
    ensures forall i :: 0 <= i < |clips| ==>
              match FindUpdate(updates, clips[i].id)
              case None => r[i] == clips[i]
              case Some(u) => r[i] == clips[i].(x := u.x, y := u.y)
  {
    seq(|clips|, i requires 0 <= i < |clips| =>
      match FindUpdate(updates, clips[i].id)
      case None => clips[i]
      case Some(u) => clips[i].(x := u.x, y := u.y))
  }

  /** A group move with a single update is a single move. */
  lemma MoveClipsOfOne(clips: seq<Clip>, u: MoveUpdate)
    ensures MoveClips(clips, [u]) == MoveClip(clips, u.id, u.x, u.y)
  {
    var a := MoveClips(clips, [u]);
    var b := MoveClip(clips, u.id, u.x, u.y);
    forall i | 0 <= i < |clips| ensures a[i] == b[i] {
      if clips[i].id == u.id {
        assert FindUpdate([u], clips[i].id) == Some(u);
      } else {
        assert FindUpdate([u], clips[i].id) == None;
      }
    }
  }

  /** A group move with updates for distinct ids is the sequence of single moves. */
  lemma MoveClipsOfCons(clips: seq<Clip>, u: MoveUpdate, rest: seq<MoveUpdate>)
    requires forall k :: 0 <= k < |rest| ==> rest[k].id != u.id
    ensures MoveClips(clips, [u] + rest) == MoveClips(MoveClip(clips, u.id, u.x, u.y), rest)
  {
    var a := MoveClips(clips, [u] + rest);
    var m := MoveClip(clips, u.id, u.x, u.y);
    var b := MoveClips(m, rest);
    forall i | 0 <= i < |clips| ensures a[i] == b[i] {
      assert m[i].id == clips[i].id;
      if clips[i].id == u.id {
        assert FindUpdate([u] + rest, clips[i].id) == Some(u);
        assert FindUpdate(rest, clips[i].id) == None;
      } else {
        assert ([u] + rest)[0] == u;
        assert forall k :: 0 <= k < |rest| ==> ([u] + rest)[k + 1] == rest[k];
        assert FindUpdate([u] + rest, clips[i].id) == FindUpdate(rest, clips[i].id) by {
          FindUpdateSkipsHead(u, rest, clips[i].id);
        }
      }
    }
  }

  lemma FindUpdateSkipsHead(u: MoveUpdate, rest: seq<MoveUpdate>, id: ClipId)
    requires u.id != id
    ensures FindUpdate([u] + rest, id) == FindUpdate(rest, id)
  {
    var p := (v: MoveUpdate) => v.id == id;
    assert ([u] + rest)[1..] == rest;
    assert FindFirst([u] + rest, p) == match FindFirst(rest, p) case None => None case Some(k) => Some(k + 1);
  }

  // ---------------------------------------------------------------- delete

  /** `deleteClip`: `prev.filter(c => c.id !== id)`. */
  function DeleteClip(clips: seq<Clip>, id: ClipId): (r: seq<Clip>)
    ensures |r| <= |clips|
    ensures forall c :: c in r <==> c in clips && c.id != id
  {
    if |clips| == 0 then []
    else
      var rest := DeleteClip(clips[1..], id);
      assert forall c :: c in clips <==> c == clips[0] || c in clips[1..];
      if clips[0].id == id then rest else [clips[0]] + rest
  }

  /** The filter keeps the survivors in their order: it distributes over concatenation. */
  lemma {:induction false} DeleteClipOfConcat(a: seq<Clip>, b: seq<Clip>, id: ClipId)
    ensures DeleteClip(a + b, id) == DeleteClip(a, id) + DeleteClip(b, id)
  {
    if |a| > 0 {
      assert (a + b)[0] == a[0];
      assert (a + b)[1..] == a[1..] + b;
      DeleteClipOfConcat(a[1..], b, id);
      var x, y := DeleteClip(a[1..], id), DeleteClip(b, id);
      if a[0].id != id {
        assert [a[0]] + (x + y) == ([a[0]] + x) + y;
      }
    } else {
      assert a + b == b;
    }
  }

  /** Deleting an id no clip carries changes nothing. */
  lemma {:induction false} DeleteMissingId(clips: seq<Clip>, id: ClipId)
    requires forall i :: 0 <= i < |clips| ==> clips[i].id != id
    ensures DeleteClip(clips, id) == clips
  {
    if |clips| > 0 {
      DeleteMissingId(clips[1..], id);
      assert clips == [clips[0]] + clips[1..];
    }
  }

  /** Deleting twice is deleting once. */
  lemma DeleteClipIdempotent(clips: seq<Clip>, id: ClipId)
    ensures DeleteClip(DeleteClip(clips, id), id) == DeleteClip(clips, id)
  {
    var once := DeleteClip(clips, id);
    assert forall i :: 0 <= i < |once| ==> once[i] in once;
    DeleteMissingId(once, id);
  }

  // ---------------------------------------------------------------- save

  /** JS truthiness of an optional number: present and not zero. */
  predicate NumTruthy(n: Option<int>) {
    n.Some? && n.value != 0
  }

  /** The name placeholder of a new clip saved without a name. */
  const NewClipName: string := "Без названия"

  /** `data.name || existingClip?.name || 'Unnamed'`. */
  function NameToCheck(data: ClipData, existing: Option<Clip>): (r: string)
    ensures Truthy(data.name) ==> r == data.name.value
    ensures !Truthy(data.name) && existing.Some? && existing.value.name != "" ==> r == existing.value.name
    ensures r != ""
  {
    if Truthy(data.name) then data.name.value
    else if existing.Some? && existing.value.name != "" then existing.value.name
    else "Unnamed"
  }

  /** The colour a save gives the clip: the colour in the form data, else the
      saved clip's own colour, else a colour derived from the name against the
      current clips. */
  function ChosenColor(data: ClipData, existing: Option<Clip>, clips: seq<Clip>, codec: Color.HslCodec): (r: string)
    ensures Truthy(data.color) ==> r == data.color.value
    ensures !Truthy(data.color) && existing.Some? && existing.value.color != "" ==> r == existing.value.color
    ensures !Truthy(data.color) && (existing.None? || existing.value.color == "") ==>
              r == Color.GenerateSmartColor(codec, NameToCheck(data, existing), clips)
  {
    if Truthy(data.color) then data.color.value
    else if existing.Some? && existing.value.color != "" then existing.value.color
    else Color.GenerateSmartColor(codec, NameToCheck(data, existing), clips)
  }

  /** A clip follows the family `family` in a save: it is not the saved clip
      and its name parses to that family (ignoring case) with a number above 1. */
  predicate IsFollower(c: Clip, existingId: Option<ClipId>, family: string): (r: bool)
    ensures r ==> !Color.LeadsFamily(c, family)
    ensures existingId.Some? && c.id == existingId.value ==> !r
  {
    (existingId.None? || c.id != existingId.value)
    && SameIgnoringCase(Color.ParseName(c.name).baseName, family)
    && Color.ParseName(c.name).number > 1
  }

  datatype Recolour = Recolour(id: ClipId, color: string)

  /** The two `filter` steps of `updatedFollowers`: the followers, in list order. */
  function FollowerClips(clips: seq<Clip>, existingId: Option<ClipId>, family: string): (r: seq<Clip>)
    ensures forall c :: c in r <==> c in clips && IsFollower(c, existingId, family)
  {
    if |clips| == 0 then []
    else
      var rest := FollowerClips(clips[1..], existingId, family);
      assert forall c :: c in clips <==> c == clips[0] || c in clips[1..];
      if IsFollower(clips[0], existingId, family) then [clips[0]] + rest else rest
  }

  /** A follower's new colour: the leader's colour shifted by its own number. */
  function FollowerColor(codec: Color.HslCodec, leaderColor: string, c: Clip): (r: string)
    ensures var base := codec.toHsl(leaderColor);
            exists h: Color.Hsl :: r == codec.toHex(h) && h.s == base.s
                                   && h.l == ClampReal(Color.LightnessTarget(base.l, Color.ParseName(c.name).number), 20.0, 80.0)
                                   && h.h == JsRem(base.h + 6 * (Color.ParseName(c.name).number - 1), 360)
  {
    Color.DeriveColorFromLeader(codec, leaderColor, Color.ParseName(c.name).number)
  }

  /** `updatedFollowers`: each follower with its derived colour, in list order. */
  function Followers(clips: seq<Clip>, existingId: Option<ClipId>, family: string, leaderColor: string,
                     codec: Color.HslCodec): (r: seq<Recolour>)
    ensures var fc := FollowerClips(clips, existingId, family);
            |r| == |fc| && forall k :: 0 <= k < |r| ==> r[k] == Recolour(fc[k].id, FollowerColor(codec, leaderColor, fc[k]))
  {
    var fc := FollowerClips(clips, existingId, family);
    seq(|fc|, k requires 0 <= k < |fc| => Recolour(fc[k].id, FollowerColor(codec, leaderColor, fc[k])))
  }

  /** `updatedFollowers.find(uf => uf.id === c.id)`. */
  function FindRecolour(fs: seq<Recolour>, id: ClipId): (r: Option<Recolour>)
    ensures r.Some? ==> r.value.id == id && exists k :: 0 <= k < |fs| && fs[k] == r.value &&
                                                      forall j :: 0 <= j < k ==> fs[j].id != id
    ensures r.None? <==> forall k :: 0 <= k < |fs| ==> fs[k].id != id
  {
    match FindFirst(fs, (f: Recolour) => f.id == id)
    case None => None
    case Some(k) => Some(fs[k])
  }

  /** The recolouring a save performs: only when the saved name is a family
      leader (number 1) and the chosen colour is non-empty. */
  function SaveFollowers(clips: seq<Clip>, existingId: Option<ClipId>, name: string, color: string,
                         codec: Color.HslCodec): (r: seq<Recolour>)
    ensures Color.ParseName(name).number != 1 || color == "" ==> r == []
  {
    var parsed := Color.ParseName(name);
    if parsed.number == 1 && color != "" then Followers(clips, existingId, parsed.baseName, color, codec)
    else []
  }

  /** `{ ...c, ...data }`: the fields present in the form data replace the clip's. */
  function Overlay(c: Clip, d: ClipData): (r: Clip)
    ensures r.id == (if d.id.Some? then d.id.value else c.id)
    ensures r.name == (if d.name.Some? then d.name.value else c.name)
    ensures r.fileName == (if d.fileName.Some? then d.fileName else c.fileName)
    ensures r.color == (if d.color.Some? then d.color.value else c.color)
    ensures r.volume == (if d.volume.Some? then d.volume.value else c.volume)
    ensures r.blobId == (if d.blobId.Some? then d.blobId else c.blobId)
    ensures r.x == (if d.x.Some? then d.x.value else c.x)
    ensures r.y == (if d.y.Some? then d.y.value else c.y)
    ensures r.cols == (if d.cols.Some? then d.cols.value else c.cols)
    ensures r.rows == (if d.rows.Some? then d.rows.value else c.rows)
    ensures r.fadeInOut == (if d.fadeInOut.Some? then d.fadeInOut.value else c.fadeInOut)
    ensures r.isLooping == (if d.isLooping.Some? then d.isLooping.value else c.isLooping)
    ensures d.x.None? && d.y.None? && d.cols.None? && d.rows.None? ==> ClipRect(r) == ClipRect(c)
  {
    Clip(Present(d.id, c.id), Present(d.name, c.name), if d.fileName.Some? then d.fileName else c.fileName,
         Present(d.color, c.color), Present(d.volume, c.volume), if d.blobId.Some? then d.blobId else c.blobId,
         Present(d.x, c.x), Present(d.y, c.y), Present(d.cols, c.cols), Present(d.rows, c.rows),
         Present(d.fadeInOut, c.fadeInOut), Present(d.isLooping, c.isLooping))
  }

  /** A spread field: the form's value when present, else the clip's. */
  function Present<T>(o: Option<T>, otherwise: T): T {
    if o.Some? then o.value else otherwise
  }

  /** The bottom edge of the lowest clip, `Math.max(0, ...prev.map(c => c.y + c.rows))`. */
  function LowestBottom(clips: seq<Clip>): (r: int)
    ensures r >= 0
    ensures forall i :: 0 <= i < |clips| ==> clips[i].y + clips[i].rows <= r
    ensures r == 0 || exists i :: 0 <= i < |clips| && r == clips[i].y + clips[i].rows
  {
    if |clips| == 0 then 0
    else
      var rest := LowestBottom(clips[1..]);
      assert forall i :: 1 <= i < |clips| ==> clips[i] == clips[1..][i - 1];
      Max(clips[0].y + clips[0].rows, rest)
  }

  /** The clip a save appends: the form data with the defaults filled in.
      Without both coordinates, a non-empty grid puts the clip on the row
      below the lowest clip. */
  function NewClip(clips: seq<Clip>, data: ClipData, file: Option<FileInfo>, blobId: Option<string>,
                   color: string, id: ClipId): (r: Clip)
    ensures r.id == id && r.color == color && r.blobId == blobId
    ensures r.name == (if Truthy(data.name) then data.name.value else NewClipName)
    ensures r.fileName == (if file.Some? then Some(file.value.name) else None)
    ensures r.cols == (if NumTruthy(data.cols) then data.cols.value else 1)
    ensures r.rows == (if NumTruthy(data.rows) then data.rows.value else 1)
    ensures r.volume == (if data.volume.Some? then data.volume.value else 1.0)
    ensures r.fadeInOut == (data.fadeInOut.None? || data.fadeInOut.value)
    ensures r.isLooping == (data.isLooping.None? || data.isLooping.value)
    ensures NumTruthy(data.x) ==> r.x == data.x.value
    ensures NumTruthy(data.y) ==> r.y == data.y.value
    ensures !NumTruthy(data.x) ==> r.x == 1
    ensures !NumTruthy(data.y) && (|clips| == 0 || LowestBottom(clips) == 0) ==> r.y == 1
    ensures !NumTruthy(data.y) && |clips| > 0 && LowestBottom(clips) != 0 ==> r.y == LowestBottom(clips)
  {
    var startY := if |clips| > 0 && (!NumTruthy(data.x) || !NumTruthy(data.y))
                  then (var maxY := LowestBottom(clips); if maxY != 0 then maxY else 1)
                  else 1;
    Clip(
      id,
      if Truthy(data.name) then data.name.value else NewClipName,
      if file.Some? then Some(file.value.name) else None,
      color,
      if data.volume.Some? then data.volume.value else 1.0,
      blobId,
      if NumTruthy(data.x) then data.x.value else 1,
      if NumTruthy(data.y) then data.y.value else startY,
      if NumTruthy(data.cols) then data.cols.value else 1,
      if NumTruthy(data.rows) then data.rows.value else 1,
      data.fadeInOut.None? || data.fadeInOut.value,
      data.isLooping.None? || data.isLooping.value)
  }

  /** The inputs of one `saveClip` call that come from outside the list:
      the file picked (if any), the id of the clip being edited (if any), the
      ids the generator hands out for the blob and the new clip, and whether
      the blob store accepted the file. */
  datatype SaveContext = SaveContext(
    file: Option<FileInfo>,
    existingId: Option<ClipId>,
    freshBlobId: string,
    freshClipId: ClipId,
    storeOk: bool)

  /** `saveClip` on the current clips. A failed file store is caught and
      leaves the list as it was. Editing an existing clip overlays the form
      data, the blob id, the file name and the chosen colour, and recolours
      the family's followers; a new clip is appended. */
  function SaveClip(clips: seq<Clip>, data: ClipData, ctx: SaveContext, codec: Color.HslCodec): (r: seq<Clip>)
    ensures ctx.file.Some? && !ctx.storeOk ==> r == clips
  {
    if ctx.file.Some? && !ctx.storeOk then clips
    else
      var existing := if ctx.existingId.Some? then FindById(clips, ctx.existingId.value) else None;
      var blobId := if ctx.file.Some? then Some(ctx.freshBlobId) else if existing.Some? then existing.value.blobId else None;
      var name := NameToCheck(data, existing);
      var color := ChosenColor(data, existing, clips, codec);
      var followers := SaveFollowers(clips, ctx.existingId, name, color, codec);
      if existing.Some? then
        seq(|clips|, i requires 0 <= i < |clips| =>
          var c := clips[i];
          if c.id == ctx.existingId.value then
            Overlay(c, data).(blobId := blobId,
                              fileName := if ctx.file.Some? then Some(ctx.file.value.name) else c.fileName,
                              color := color)
          else match FindRecolour(followers, c.id)
            case Some(f) => c.(color := f.color)
            case None => c)
      else clips + [NewClip(clips, data, ctx.file, blobId, color, ctx.freshClipId)]
  }

  /** The clip a save is editing, when the id names one. */
  function Edited(clips: seq<Clip>, ctx: SaveContext): Option<Clip> {
    if ctx.existingId.Some? then FindById(clips, ctx.existingId.value) else None
  }

  /** The blob id a save ends with: a fresh one for a new file, else the edited clip's. */
  function SavedBlobId(clips: seq<Clip>, ctx: SaveContext): Option<string> {
    if ctx.file.Some? then Some(ctx.freshBlobId)
    else if Edited(clips, ctx).Some? then Edited(clips, ctx).value.blobId
    else None
  }

  /** A save that stores its file (or has none) and edits no listed clip
      appends exactly one clip and leaves the others as they were. */
  lemma SaveNewClipAppends(clips: seq<Clip>, data: ClipData, ctx: SaveContext, codec: Color.HslCodec)
    requires ctx.file.None? || ctx.storeOk
    requires Edited(clips, ctx).None?
    ensures var r := SaveClip(clips, data, ctx, codec);
            && |r| == |clips| + 1
            && r[..|clips|] == clips
            && r[|clips|] == NewClip(clips, data, ctx.file, SavedBlobId(clips, ctx),
                                     ChosenColor(data, None, clips, codec), ctx.freshClipId)
  {
    var r := SaveClip(clips, data, ctx, codec);
    assert r[..|clips|] == clips;
  }

  /** Editing a clip overlays the form data on it and sets the blob id, the
      file name (when a file was picked) and the chosen colour; the colour is
      the form's, else the clip's own, else one derived from the name. */
  lemma SaveEditedClip(clips: seq<Clip>, data: ClipData, ctx: SaveContext, codec: Color.HslCodec, i: nat)
    requires ctx.file.None? || ctx.storeOk
    requires Edited(clips, ctx).Some? && i < |clips| && clips[i].id == ctx.existingId.value
    ensures var r := SaveClip(clips, data, ctx, codec);
            var e := Edited(clips, ctx).value;
            && |r| == |clips|
            && r[i] == Overlay(clips[i], data).(blobId := SavedBlobId(clips, ctx),
                                                fileName := if ctx.file.Some? then Some(ctx.file.value.name) else clips[i].fileName,
                                                color := ChosenColor(data, Edited(clips, ctx), clips, codec))
            && (Truthy(data.color) ==> r[i].color == data.color.value)
            && (!Truthy(data.color) && e.color != "" ==> r[i].color == e.color)
            && (!Truthy(data.color) && e.color == "" ==>
                  r[i].color == Color.GenerateSmartColor(codec, NameToCheck(data, Edited(clips, ctx)), clips))
  {
  }

  /** In an edit, every other clip keeps every field but its colour, and a
      clip whose colour changes is a follower of the saved name's family. */
  lemma SaveEditTouchesOnlyFollowers(clips: seq<Clip>, data: ClipData, ctx: SaveContext, codec: Color.HslCodec, i: nat)
    requires UniqueIds(clips)
    requires ctx.file.None? || ctx.storeOk
    requires Edited(clips, ctx).Some? && i < |clips| && clips[i].id != ctx.existingId.value
    ensures var r := SaveClip(clips, data, ctx, codec);
            var name := NameToCheck(data, Edited(clips, ctx));
            && |r| == |clips|
            && r[i] == clips[i].(color := r[i].color)
            && (r[i] != clips[i] ==> Color.ParseName(name).number == 1
                                     && IsFollower(clips[i], ctx.existingId, Color.ParseName(name).baseName))
  {
    var e := Edited(clips, ctx);
    var name := NameToCheck(data, e);
    var color := ChosenColor(data, e, clips, codec);
    var followers := SaveFollowers(clips, ctx.existingId, name, color, codec);
    SaveEditedOther(clips, data, ctx, codec, i);
    match FindRecolour(followers, clips[i].id)
    case None =>
    case Some(f) =>
      var parsed := Color.ParseName(name);
      assert parsed.number == 1 && color != "";
      var k :| 0 <= k < |followers| && followers[k] == f;
      RecolourComesFromClip(clips, ctx.existingId, parsed.baseName, color, codec, k, i);
  }

  /** In an edit, any other clip takes the colour of its recolouring, if it has one. */
  lemma SaveEditedOther(clips: seq<Clip>, data: ClipData, ctx: SaveContext, codec: Color.HslCodec, i: nat)
    requires ctx.file.None? || ctx.storeOk
    requires Edited(clips, ctx).Some? && i < |clips| && clips[i].id != ctx.existingId.value
    ensures var r := SaveClip(clips, data, ctx, codec);
            var e := Edited(clips, ctx);
            var f := FindRecolour(SaveFollowers(clips, ctx.existingId, NameToCheck(data, e), ChosenColor(data, e, clips, codec), codec), clips[i].id);
            && |r| == |clips|
            && r[i] == (if f.Some? then clips[i].(color := f.value.color) else clips[i])
  {
  }

  /** With unique ids, a follower finds its own recolouring. */
  lemma FollowerFindsItsColour(clips: seq<Clip>, existingId: Option<ClipId>, family: string, color: string,
                               codec: Color.HslCodec, i: nat)
    requires UniqueIds(clips) && i < |clips| && IsFollower(clips[i], existingId, family)
    ensures FindRecolour(Followers(clips, existingId, family, color, codec), clips[i].id)
            == Some(Recolour(clips[i].id, FollowerColor(codec, color, clips[i])))
  {
    var followers := Followers(clips, existingId, family, color, codec);
    FollowerIsRecoloured(clips, existingId, family, color, codec, i);
    var f := FindRecolour(followers, clips[i].id).value;
    var k :| 0 <= k < |followers| && followers[k] == f;
    RecolourComesFromClip(clips, existingId, family, color, codec, k, i);
  }

  /** Every follower has some recolouring carrying its id. */
  lemma FollowerIsRecoloured(clips: seq<Clip>, existingId: Option<ClipId>, family: string, color: string,
                             codec: Color.HslCodec, i: nat)
    requires i < |clips| && IsFollower(clips[i], existingId, family)
    ensures FindRecolour(Followers(clips, existingId, family, color, codec), clips[i].id).Some?
  {
    var fc := FollowerClips(clips, existingId, family);
    assert clips[i] in fc;
    var k :| 0 <= k < |fc| && fc[k] == clips[i];
    assert Followers(clips, existingId, family, color, codec)[k].id == clips[i].id;
  }

  /** With unique ids, the recolouring carrying a clip's id was made for that clip. */
  lemma RecolourComesFromClip(clips: seq<Clip>, existingId: Option<ClipId>, family: string, color: string,
                              codec: Color.HslCodec, k: nat, i: nat)
    requires UniqueIds(clips) && i < |clips|
    requires k < |Followers(clips, existingId, family, color, codec)|
    requires Followers(clips, existingId, family, color, codec)[k].id == clips[i].id
    ensures k < |FollowerClips(clips, existingId, family)| && FollowerClips(clips, existingId, family)[k] == clips[i]
    ensures Followers(clips, existingId, family, color, codec)[k] == Recolour(clips[i].id, FollowerColor(codec, color, clips[i]))
  {
    var fc := FollowerClips(clips, existingId, family);
    assert fc[k] in fc;
    var j :| 0 <= j < |clips| && clips[j] == fc[k];
    assert j == i;
  }

  /** Saving a family leader with a colour gives every follower the colour
      derived from that colour and the follower's own number. */
  lemma SaveRecoloursFollowers(clips: seq<Clip>, data: ClipData, ctx: SaveContext, codec: Color.HslCodec, i: nat)
    requires UniqueIds(clips)
    requires ctx.file.None? || ctx.storeOk
    requires Edited(clips, ctx).Some? && i < |clips|
    requires var name := NameToCheck(data, Edited(clips, ctx));
             && Color.ParseName(name).number == 1
             && ChosenColor(data, Edited(clips, ctx), clips, codec) != ""
             && IsFollower(clips[i], ctx.existingId, Color.ParseName(name).baseName)
    ensures SaveClip(clips, data, ctx, codec)[i]
            == clips[i].(color := FollowerColor(codec, ChosenColor(data, Edited(clips, ctx), clips, codec), clips[i]))
  {
    var e := Edited(clips, ctx);
    var name := NameToCheck(data, e);
    var color := ChosenColor(data, e, clips, codec);
    FollowerFindsItsColour(clips, ctx.existingId, Color.ParseName(name).baseName, color, codec, i);
  }

  /** Without a row, a new clip on a grid of well-placed clips lands below
      all of them, so it overlaps none. */
  lemma NewClipAvoidsExisting(clips: seq<Clip>, data: ClipData, file: Option<FileInfo>, blobId: Option<string>,
                              color: string, id: ClipId)
    requires |clips| > 0 && forall i :: 0 <= i < |clips| ==> WellPlaced(clips[i])
    requires !NumTruthy(data.y)
    ensures !CheckCollision(ClipRect(NewClip(clips, data, file, blobId, color, id)), clips, None)
  {
    assert clips[0].y + clips[0].rows <= LowestBottom(clips);
  }
}
