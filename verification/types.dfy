/** The soundboard's records: clips, profiles, the persisted application data,
    resize directions and the fixed grid constants (types.ts). */
module Types {

  datatype Option<+T> = None | Some(value: T)

  type ClipId = string

  /** A placed, playable tile. `x`/`y` are the 1-based start column/row and
      `cols`/`rows` the width/height in cells. `volume` is a JS number that the
      interface documents as lying in 0..1; `blobId` is the optional key of the
      audio payload in the blob store. */
  datatype Clip = Clip(
    id: ClipId,
    name: string,
    fileName: Option<string>,
    color: string,
    volume: real,
    blobId: Option<string>,
    x: int,
    y: int,
    cols: int,
    rows: int,
    fadeInOut: bool,
    isLooping: bool)

  datatype Profile = Profile(id: string, name: string, clips: seq<Clip>)

  /** The live profile state: the profile list and the id of the current one. */
  datatype AppData = AppData(profiles: seq<Profile>, currentProfileId: string)

  /** A `Partial<SoundClip>`: every field may be absent. */
  datatype ClipData = ClipData(
    id: Option<ClipId>,
    name: Option<string>,
    fileName: Option<string>,
    color: Option<string>,
    volume: Option<real>,
    blobId: Option<string>,
    x: Option<int>,
    y: Option<int>,
    cols: Option<int>,
    rows: Option<int>,
    fadeInOut: Option<bool>,
    isLooping: Option<bool>)

  /** A dropped or picked file: its name and MIME type. */
  datatype FileInfo = FileInfo(name: string, mimeType: string)

  /** One entry of a group move: the clip id and its new origin. */
  datatype MoveUpdate = MoveUpdate(id: ClipId, x: int, y: int)

  /** An axis-aligned rectangle in cell (or pixel) units: start `x`, `y`, extent `w`, `h`. */
  datatype Rect = Rect(x: int, y: int, w: int, h: int)

  datatype ResizeDirection = N | S | E | W | NE | NW | SE | SW

  const GridGap: int := 8
  const MinTileSize: int := 70

  /** The data the grid view and the bulk upload hand to `saveClip` for one
      new file: a 1x1 tile at (x, y), full volume, fading and looping. */
  function TileData(name: string, x: int, y: int, color: string): (d: ClipData)
    ensures d.cols == Some(1) && d.rows == Some(1) && d.volume == Some(1.0)
    ensures d.fadeInOut == Some(true) && d.isLooping == Some(true)
    ensures d.x == Some(x) && d.y == Some(y) && d.name == Some(name) && d.color == Some(color)
    ensures d.id.None? && d.fileName.None? && d.blobId.None?
  {
    ClipData(None, Some(name), None, Some(color), Some(1.0), None, Some(x), Some(y), Some(1), Some(1), Some(true), Some(true))
  }

  /** The placeholder clip pushed onto the working list after such a tile
      was handed over: `{ ...data, id, blobId }`. */
  function TileClip(name: string, x: int, y: int, color: string, id: ClipId, blobId: Option<string>): (c: Clip)
    ensures c.x == x && c.y == y && c.cols == 1 && c.rows == 1
    ensures c.name == name && c.color == color && c.id == id && c.blobId == blobId
  {
    Clip(id, name, None, color, 1.0, blobId, x, y, 1, 1, true, true)
  }

  /** The rectangle a clip occupies on the grid. */
  function ClipRect(c: Clip): Rect {
    Rect(c.x, c.y, c.cols, c.rows)
  }

  /** A placement of at least one cell starting inside the grid. */
  predicate WellPlaced(c: Clip) {
    c.x >= 1 && c.y >= 1 && c.cols >= 1 && c.rows >= 1
  }

  predicate VolumeInRange(c: Clip) {
    0.0 <= c.volume <= 1.0
  }

  /** JS truthiness of an optional string: present and non-empty. */
  predicate Truthy(s: Option<string>) {
    s.Some? && s.value != ""
  }

  /** A clip references audio exactly when its `blobId` is a non-empty string. */
  predicate HasAudio(c: Clip) {
    Truthy(c.blobId)
  }

  /** The direction's string value, as the source spells it. */
  function DirectionName(d: ResizeDirection): (r: string)
    ensures 1 <= |r| <= 2
  {
    match d
    case N => "n"
    case S => "s"
    case E => "e"
    case W => "w"
    case NE => "ne"
    case NW => "nw"
    case SE => "se"
    case SW => "sw"
  }

  /** `dir.includes(ch)` on the direction's string value. */
  predicate Includes(d: ResizeDirection, ch: char) {
    ch in DirectionName(d)
  }

  /** The eight values are exactly the edge and corner names, and no
      direction names two opposite edges. */
  lemma DirectionsAreEdgesOrCorners(d: ResizeDirection)
    ensures DirectionName(d) in {"n", "s", "e", "w", "ne", "nw", "se", "sw"}
    ensures !(Includes(d, 'e') && Includes(d, 'w'))
    ensures !(Includes(d, 'n') && Includes(d, 's'))
    ensures Includes(d, 'e') || Includes(d, 'w') || Includes(d, 'n') || Includes(d, 's')
  {
  }

  /** A non-empty sequence is its front plus its last element. */
  lemma FrontAndLast<T>(s: seq<T>)
    requires |s| > 0
    ensures s == s[..|s| - 1] + [s[|s| - 1]]
  {
  }

  /** Taking one more element of a sequence appends that element. */
  lemma TakeOneMore<T>(s: seq<T>, k: nat)
    requires k < |s|
    ensures s[..k + 1] == s[..k] + [s[k]]
  {
  }

  /** Every clip in the list has a distinct id. */
  predicate UniqueIds(clips: seq<Clip>) {
    forall i, j :: 0 <= i < |clips| && 0 <= j < |clips| && clips[i].id == clips[j].id ==> i == j
  }

  /** `Array.prototype.findIndex`: the index of the first element satisfying `p`. */
  function FindFirst<T>(s: seq<T>, p: T -> bool): (r: Option<nat>)
    ensures r.Some? ==> r.value < |s| && p(s[r.value]) && forall j :: 0 <= j < r.value ==> !p(s[j])
    ensures r.None? <==> forall j :: 0 <= j < |s| ==> !p(s[j])
  {
    if |s| == 0 then None
    else if p(s[0]) then Some(0)
    else
      match FindFirst(s[1..], p)
      case None =>
        assert forall j :: 1 <= j < |s| ==> s[j] == s[1..][j - 1];
        None
      case Some(i) =>
        assert forall j :: 1 <= j < i + 1 ==> s[j] == s[1..][j - 1];
        Some(i + 1)
  }

  /** A match in a prefix is found before anything appended after it. */
  lemma FindFirstOfConcat<T>(a: seq<T>, b: seq<T>, p: T -> bool)
    requires FindFirst(a, p).Some?
    ensures FindFirst(a + b, p) == FindFirst(a, p)
  {
    var i := FindFirst(a, p).value;
    var ab := a + b;
    assert ab[i] == a[i];
    assert forall j :: 0 <= j < i ==> ab[j] == a[j];
    assert forall j :: 0 <= j < i ==> !p(ab[j]);
  }

  /** `clips.find(c => c.id === id)`: the first clip carrying the id. */
  function FindById(clips: seq<Clip>, id: ClipId): (r: Option<Clip>)
    ensures r.Some? ==> (exists i :: 0 <= i < |clips| && clips[i] == r.value && r.value.id == id &&
                           forall j :: 0 <= j < i ==> clips[j].id != id)
    ensures r.None? <==> forall i :: 0 <= i < |clips| ==> clips[i].id != id
  {
    match FindFirst(clips, (c: Clip) => c.id == id)
    case None => None
    case Some(i) => Some(clips[i])
  }
}
