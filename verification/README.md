# Soundpad grid engine in Dafny

A model of the integer and string core of the Soundpad soundboard. The board is a
grid of coloured audio tiles ("clips") organised in profiles. The model covers:

- **Collision** (`Collision`): rectangle overlap, "collides with any clip but one",
  and the row-major scan for the first free cell.
- **Gestures of the grid view** (`Selection`, `DragDrop`, `Resize`):
  - tile clicks and the rubber band;
  - pixel-to-cell snapping;
  - drag start, drag-over preview and the atomic group drop;
  - placing dropped audio files;
  - edge and corner resizing.
- **The clips hook** (`Clips`, `Profiles`):
  - move, group move, resize and delete;
  - `saveClip`: colour precedence, follower recolouring, new-clip defaults and placement;
  - profile create, switch, delete and rename;
  - the initial load with its legacy migration.
- **Colour derivation** (`Color`):
  - the numbered-name parser;
  - the JS hash behind `stringToHue`;
  - hex/RGB conversion and the lightness test;
  - the leader and shift rules of `generateSmartColor` and `deriveColorFromLeader`.
- **Grid sizing** (`GridDimensions`): column count and cell size from the measured width.
- **The two file loops of the shell** (`App`): bulk upload and restore from a directory.

`Types` holds the records and constants. `JsSemantics` writes out the JavaScript
number and string behaviour the source relies on:

- `Math.round` of a ratio;
- the truncating `%`;
- `ToInt32` and `<< 5`;
- `trim` and `toLowerCase`;
- UTF-16 code units;
- `parseInt`, `toString(16)`;
- the extension-stripping regular expression.

Every handler is modelled as a pure function of its inputs. DOM reads become
parameters:

- pointer and container coordinates, as integers;
- the ResizeObserver width, as an exact real number.

The following outside inputs become parameters as well:

- generated ids;
- whether the blob store accepted a file;
- the floating-point `hexToHsl` / `hslToHex` pair, as the `HslCodec` record.

A batch of new tiles is placed one after another against a growing "working list"
(the clips plus one placeholder per tile placed so far). That loop is modelled by
the `DropFiles` and `BulkUpload` methods. Their loop invariants state, for every
tile, the placement and colouring fact relative to the tiles before it
(`Placement.InOrder`).

## Model

| member | source | states |
|---|---|---|
| Types.TileData | App.tsx:159-169 | The data handed to `saveClip` for one new file is a 1x1 tile at the given cell, volume 1, fading and looping, with no id, file name or blob id. |
| Types.TileClip | App.tsx:173-179 | The placeholder pushed on the working list occupies exactly the tile's 1x1 cell and carries its name, colour, the temporary id and blob id. |
| Types.DirectionsAreEdgesOrCorners | types.ts:35 | The eight directions are exactly n, s, e, w, ne, nw, se, sw; none names both 'e' and 'w' or both 'n' and 's', and each names at least one edge. |
| Types.FindById | hooks/useClips.ts:151 | `find` by id returns the first clip carrying the id, and nothing exactly when no clip carries it. |
| JsSemantics.JsRound | components/SoundGrid.tsx:392-393 | `Math.round(n / d)` is the integer within half a step of the ratio, halves rounding up. |
| JsSemantics.JsRem | utils/color.ts:146 | The JS remainder lies strictly between -b and b, equals the Euclidean one for non-negative dividends and is non-positive for negative ones. |
| JsSemantics.ClampReal | utils/color.ts:147 | `Math.max(lo, Math.min(hi, v))` lies in [lo, hi], leaves a value inside the range unchanged, and sends a value above or below the range to the nearer bound. |
| JsSemantics.ToInt32 | utils/color.ts:7 | ToInt32 lands in the signed 32-bit range and is congruent to its input modulo 2^32. |
| JsSemantics.Shl5 | utils/color.ts:7 | `hash << 5` lands in the signed 32-bit range and is congruent to 32 * hash modulo 2^32. |
| JsSemantics.Shl5Small | utils/color.ts:7 | While 32 * hash fits in 32 bits, the shift is plain multiplication by 32. |
| JsSemantics.ToLower | utils/color.ts:129 | Lower-casing keeps the length and maps every character on its own (A-Z to a-z; characters outside the mapped ranges unchanged). |
| JsSemantics.Trim | utils/color.ts:97 | `trim` returns a slice of the input with only whitespace around it, and the slice neither starts nor ends with whitespace. |
| JsSemantics.TrimOfTrimmed | utils/color.ts:97-101 | A string with no surrounding whitespace is its own trim. |
| JsSemantics.Utf16 | utils/color.ts:6-7 | `length` and `charCodeAt` see 16-bit code units, at least one per character. |
| JsSemantics.Utf16OfBmp | utils/color.ts:6-7 | For a string of Basic Multilingual Plane characters the code units are the characters themselves. |
| JsSemantics.DecimalRoundTrip | utils/color.ts:103 | `parseInt(String(n), 10)` gives back n. |
| JsSemantics.HexString | utils/color.ts:76 | `toString(16)` has one digit below 16 and two digits from 16 to 255. |
| JsSemantics.StripExtension | App.tsx:156 | Removing `/\.[^/.]+$/` leaves a prefix of the name: the name up to the extension when one matches, else the whole name. |
| JsSemantics.StripExtensionOfJoined | App.tsx:156 | A base name joined with "." and an extension free of dots and slashes strips back to the base name. |
| JsSemantics.ExtensionIsUnique | App.tsx:156 | The regular expression can match at one position only. |
| Collision.OverlapMeansSharedCell | utils/collision.ts:3-8 | For rectangles of positive extent, the half-open overlap test holds exactly when they share a cell. |
| Collision.IsOverlapping | utils/collision.ts:3-8 | For rectangles of positive extent, overlap means the two intersections of intervals (horizontal and vertical) are both non-empty. |
| Collision.OverlapSymmetric | utils/collision.ts:3-8 | Overlap does not depend on argument order. |
| Collision.TouchingIsNotOverlap | utils/collision.ts:4-5 | Rectangles that meet along an edge do not overlap. |
| Collision.OverlapReflexive | utils/collision.ts:3-8 | A rectangle of positive extent overlaps itself. |
| Collision.CheckCollision | utils/collision.ts:10-15 | True exactly when some clip whose id is not the ignored one overlaps the target. |
| Collision.NoCollisionWithEmptyList | utils/collision.ts:10-15 | Nothing collides with an empty list. |
| Collision.CollisionOfConcat | utils/collision.ts:10-15 | Collision with a concatenation is collision with either part. |
| Collision.FindFirstFreeSpot | utils/collision.ts:17-27 | The result is the row-major first free position of the scan (rows 1..199, columns 1..maxColumns-w+1), or (1, 1) when every scanned position is taken. |
| Collision.SpotSpecDeterminesSpot | utils/collision.ts:17-27 | That description fixes the spot uniquely. |
| Collision.EmptyGridGivesOrigin | utils/collision.ts:19-22 | With no clips and room for the tile, the spot is (1, 1). |
| Collision.TooWideGivesOrigin | utils/collision.ts:20-26 | A tile wider than the grid gets the (1, 1) fallback. |
| Collision.FoundSpotIsCollisionFree | utils/collision.ts:17-22 | A found spot lies in the scanned range and overlaps no clip. |
| Color.NameSplit | utils/color.ts:92 | The split positions of a numbered name are ordered and the digit group is a non-empty run of digits. |
| Color.NameSplitMatchesPattern | utils/color.ts:92 | The split is where `/^(.*?)(?:[ #]*(\d+))(.*)$/` puts its groups: the least first-group end, a greedy digit run, and no split exactly when the pattern does not match. |
| Color.ParseName | utils/color.ts:90-106 | Number: the digit group read in base 10, or 1 without a match. Base name: the trimmed prefix, else the trimmed suffix, else the whole name. |
| Color.NameWithoutDigits | utils/color.ts:93-96 | A name without digits parses to itself with number 1. |
| Color.ParseNumberedName | utils/color.ts:90-106 | A trimmed family name, any run of spaces and '#', then a number parses back to that family and number. |
| Color.ParseNameOfRuns | utils/color.ts:96-103 | When the text before the first digit run is a trimmed non-empty name, that name is the family and the run is the number. |
| Color.NameHashStep | utils/color.ts:7 | While the hash is small, each code unit updates it as 31 * hash + code. |
| Color.NameHash | utils/color.ts:4-8 | The hash loop, where only `<< 5` wraps to 32 bits, agrees modulo 2^32 with the textbook hash 31 * hash + code over the code units. |
| Color.StringToHue | utils/color.ts:4-10 | The hue is the absolute JS remainder of the 32-bit hash of the UTF-16 code units by 360, hence in 0..359. |
| Color.ParseHexPair | utils/color.ts:62-68 | `parseInt("0x" + a + b)` reads two hex digits, one when only the first is a digit, and NaN when the first is not one. |
| Color.HexToRgb | utils/color.ts:59-71 | Seven code units read three pairs and four code units read three doubled digits. Any other length gives black. |
| Color.ComponentToHex | utils/color.ts:75-78 | A channel in 0..255 becomes exactly two lowercase hex digits. |
| Color.ComponentParsesBack | utils/color.ts:75-78 | Parsing the two digits of a channel gives the channel back. |
| Color.RgbToHex | utils/color.ts:74-80 | Channels in 0..255 give a 7-character string starting with '#'. |
| Color.FormattedDigits | utils/color.ts:74-80 | The string is '#' followed by the two digits of each channel. |
| Color.HexRoundTrip | utils/color.ts:59-80 | `hexToRgb(rgbToHex(r, g, b))` gives back (r, g, b) for channels in 0..255. |
| Color.IsLightColor | utils/color.ts:83-88 | A colour is light exactly when all three channels parse and 299r + 587g + 114b is at least 200000. |
| Color.LightnessOfFormattedColor | utils/color.ts:83-88 | On a formatted colour the test is the integer YIQ threshold. |
| Color.FindLeader | utils/color.ts:127-130 | The leader is the first clip whose name parses to the family (case-insensitively) with number 1; none exactly when no clip qualifies. |
| Color.ShiftHsl | utils/color.ts:143-147 | The shift keeps saturation. The hue is (h + 6(n-1)) under the JS remainder, so it lies in (-360, 360) and is negative for a negative total (index 0 from hue 0 gives -6). The lightness is the clamp to 20..80 of l ± 3 (even/odd) less half of (3(n-1)) % 15, and equals that target when it is within range. |
| Color.FamilyBase | utils/color.ts:132-141 | With a coloured leader the base is `hexToHsl` of the leader's colour; without one it is the hashed family name at saturation 65 and lightness 50. |
| Color.DeriveColorFromLeader | utils/color.ts:109-120 | The follower's colour is the hex of an HSL with the leader's saturation, the leader's lightness nudged by ±3 less half of (3(n-1)) % 15 and clamped to 20..80, and the hue turned by 6 degrees per number past 1 under the JS remainder. |
| Color.GenerateSmartColor | utils/color.ts:122-150 | With a coloured leader of the name's family, the colour is `deriveColorFromLeader` of the leader's colour and the name's number; otherwise it is the shifted colour of the family name's hash at 65/50. |
| Color.SmartColorFollowsLeader | utils/color.ts:122-150 | With a coloured leader, `generateSmartColor` equals `deriveColorFromLeader` of the leader's colour and the name's number. |
| Color.SmartColorWithoutLeader | utils/color.ts:137-150 | Without a leader the colour is the shifted hash colour of the family name. |
| Color.SmartColorDependsOnFirstLeader | utils/color.ts:127-130 | Clips appended after the family's first leader do not change the colour. |
| GridDimensions.ColumnsFor | hooks/useGridDimensions.ts:18-19 | The column count is in 4..24, and it is the largest count of 78-pixel pitches that fits (width + 8), unless clamped. |
| GridDimensions.CellSizeFor | hooks/useGridDimensions.ts:22 | The cell size is the largest integer for which the columns and their gaps fit in the width. |
| GridDimensions.Measure | hooks/useGridDimensions.ts:18-22 | One measurement pairs the clamped column count with the largest fitting cell size. |
| GridDimensions.MeasureIsValid | hooks/useGridDimensions.ts:18-22 | Every measurement has 4..24 columns and a positive pitch (cell size + gap). |
| GridDimensions.InitialIsValid | hooks/useGridDimensions.ts:6 | The initial state {70, 12} is valid geometry. |
| GridDimensions.ApplyEntry | hooks/useGridDimensions.ts:14-28 | A width of zero or less leaves the state alone. Otherwise the state becomes the measurement, and it is replaced exactly when it differs. |
| GridDimensions.ApplyEntries | hooks/useGridDimensions.ts:11-29 | After a batch of entries the state is the previous state or the measurement of one of the positive widths. |
| GridDimensions.ApplyEntriesKeepsLastMeasurement | hooks/useGridDimensions.ts:11-29 | After a batch of entries the state is the measurement of the last positive width, or the previous state when there is none. |
| GridDimensions.ApplyEntriesPreservesValidity | hooks/useGridDimensions.ts:11-29 | The callback never leaves valid geometry. |
| Selection.SelAdd | components/SoundGrid.tsx:67 | `add` makes the id a member, keeps every other member and keeps the set duplicate-free, in insertion order. |
| Selection.SelDelete | components/SoundGrid.tsx:64 | `delete` removes exactly that id. |
| Selection.TileSelect | components/SoundGrid.tsx:59-71 | Without a modifier the selection becomes exactly the clip. With one, the clip's membership toggles and every other id stays as it was. |
| Selection.ToggleTwiceRestores | components/SoundGrid.tsx:59-71 | Two modifier clicks on the same tile restore the membership of every id. |
| Selection.PlainClickIdempotent | components/SoundGrid.tsx:59-71 | A repeated plain click changes nothing more. |
| Selection.PointerPos | components/SoundGrid.tsx:73-80 | The pointer in content coordinates is client position minus container origin plus scroll, or (0, 0) without a container. |
| Selection.PixelBox | components/SoundGrid.tsx:121-124 | A clip's pixel box starts at padding plus whole pitches and spans its cells with the gaps between them. |
| Selection.DragBox | components/SoundGrid.tsx:109-114 | The band is the rectangle between the start point and the pointer. |
| Selection.RubberBand | components/SoundGrid.tsx:116-136 | The band's selection is the start set plus exactly the clips whose pixel box strictly intersects the box. |
| Selection.RubberBandMonotone | components/SoundGrid.tsx:126-131 | A box containing another selects at least what the smaller one selects. |
| Selection.PointerDown | components/SoundGrid.tsx:82-102 | Outside edit mode, or on a tile without Shift, nothing happens. Otherwise a band starts at the pointer, keeping the selection only with a modifier. |
| Selection.PointerMove | components/SoundGrid.tsx:104-141 | During a band the selection is recomputed from the captured start set and the box. Otherwise the state is unchanged. |
| Selection.LatestMoveDecides | components/SoundGrid.tsx:104-141 | Of two moves, only the later pointer position matters. |
| Selection.PlainBandSelectsOnlyTouched | components/SoundGrid.tsx:94-138 | A band started without a modifier selects only ids of clips its box touches. |
| Selection.FirstHit | components/SoundGrid.tsx:156-165 | The click hit-test returns the first clip whose pixel box contains the point, bounds included, and none exactly when no box contains it. |
| Selection.PointerUp | components/SoundGrid.tsx:143-180 | Releasing ends the band. A release within 5 px selects the hit clip as a tile click, or clears the selection without a modifier. Any other release keeps the selection. |
| Selection.IsClick | components/SoundGrid.tsx:151-153 | A click moves less than 5 px on each axis, and along one axis it is exactly a move of less than 5 px, as `Math.hypot(dx, dy) < 5` gives. |
| Selection.EditModeChanged | components/SoundGrid.tsx:55-57 | Leaving edit mode clears the selection and nothing else. |
| Selection.PlainClickOnTileSelectsIt | components/SoundGrid.tsx:143-175 | Pressing and releasing on a tile without moving or a modifier selects exactly that tile. |
| DragDrop.SnapIndex | components/SoundGrid.tsx:194-195 | `max(1, round(rel / pitch) + 1)`: at least 1, and the rounded cell index when that is positive. |
| DragDrop.SnapMonotone | components/SoundGrid.tsx:194-195 | A pointer further right or down never snaps to an earlier cell. |
| DragDrop.CellPixelsSnapToCell | components/SoundGrid.tsx:194 | The left half of a pitch snaps to its own cell. |
| DragDrop.RightHalfSnapsToNextCell | components/SoundGrid.tsx:194-195 | As written, a file dragged over the right half of a cell snaps to the next cell. |
| DragDrop.FileDragMissesPointerCell | components/SoundGrid.tsx:182-198 | As written, a file over the right half of a cell is placed in the next column, missing the pointer's cell. |
| DragDrop.CellUnder | components/SoundGrid.tsx:194 | The cell under the pointer: each cell owns its pixels and the gap after it. |
| DragDrop.CellPixelsSelectTheirCell | components/SoundGrid.tsx:194 | Every pixel of a cell, and of its gap, selects that cell. |
| DragDrop.FileDropCell | components/SoundGrid.tsx:182-198 | The corrected file-drop cell is on the grid, and is (1, 1) without a container. |
| DragDrop.FileDropCellIsUnderPointer | components/SoundGrid.tsx:182-198 | With the corrected snapping, a file over any pixel of a cell targets that cell. |
| DragDrop.GridPosition | components/SoundGrid.tsx:182-198 | The drop cell is at least (1, 1) and snaps the pointer, less the grab offset, the padding and (vertically only) the scroll. |
| DragDrop.KnownIds | components/SoundGrid.tsx:216-218 | The selected ids that name a clip, all of them and only them. |
| DragDrop.KnownIdsOfConcat | components/SoundGrid.tsx:216-218 | Skipping unknown ids distributes over concatenation, so the known ids keep selection order. |
| DragDrop.DragOffsets | components/SoundGrid.tsx:215-226 | One offset per selected id that names a clip, in selection order, measured from the anchor. |
| DragDrop.DragStart | components/SoundGrid.tsx:200-233 | Outside edit mode the drag is refused. Otherwise the anchor is the dragged tile, which is always part of the dragged selection. |
| DragDrop.AnchorOffsetIsZero | components/SoundGrid.tsx:216-225 | With unique ids, the anchor's own offset is (0, 0). |
| DragDrop.MinOffsets | components/SoundGrid.tsx:344-349 | The minima start from 0 and bound every offset from below. |
| DragDrop.ClampAnchor | components/SoundGrid.tsx:350-351 | The anchor moves right and down just far enough that every offset lands on column and row 1 or later. |
| DragDrop.FoundOffsets | components/SoundGrid.tsx:356-362 | Exactly the offsets whose id names a clip survive `filter(Boolean)`. |
| DragDrop.ProjectOne | components/SoundGrid.tsx:357-361 | A projection keeps the id and starts on the grid. |
| DragDrop.Project | components/SoundGrid.tsx:356-362 | One projection per surviving offset, in order, with its clip's size. |
| DragDrop.ClampedProjectionIsExact | components/SoundGrid.tsx:350-361 | From the clamped anchor each projection is exactly anchor plus offset. |
| DragDrop.CollidesOutside | components/SoundGrid.tsx:365-373 | True exactly when a clip outside the selection overlaps the rectangle. |
| DragDrop.MoveUpdates | components/SoundGrid.tsx:364-379 | The loop yields no updates exactly when some projection collides outside the selection, else one update per projection. |
| DragDrop.PlanGroupDrop | components/SoundGrid.tsx:340-383 | `onMoveClips` is called only in edit mode with a session, and only when no projection collides and there is at least one update. Its updates are the projections. |
| DragDrop.GroupDropKeepsFormation | components/SoundGrid.tsx:344-383 | Every accepted update lies on the grid at the clamped anchor plus its clip's offset. |
| DragDrop.GroupDropMovesEveryDraggedClip | components/SoundGrid.tsx:364-383 | Every dragged clip that still exists gets an update. |
| DragDrop.Union | components/SoundGrid.tsx:280-283 | The union is the smallest rectangle holding both. |
| DragDrop.BoundingBox | components/SoundGrid.tsx:271-286 | The preview box holds every projection and touches the leftmost, topmost, rightmost and bottommost ones, so its width and height are maxX - minX and maxY - minY; there is none without projections. |
| DragDrop.FileDragOver | components/SoundGrid.tsx:245-251 | A file drag highlights the 1x1 cell, valid exactly when no clip overlaps it. |
| DragDrop.GroupDragOver | components/SoundGrid.tsx:253-310 | A tile drag has a preview only in edit mode during a drag with a session. The preview is the projections' box, valid exactly when none collides outside the selection. |
| DragDrop.PreviewAgreesWithDrop | components/SoundGrid.tsx:288-309 | At the same cell, the drop moves the tiles exactly when the preview is valid and non-empty. |
| DragDrop.AudioFiles | components/SoundGrid.tsx:319 | The filter keeps no more files than it is given, and every kept file is an audio file. |
| DragDrop.AudioFilesOfConcat | components/SoundGrid.tsx:319 | The filter distributes over concatenation, so the audio files keep their order and multiplicity, which decides which file takes which spot. |
| DragDrop.AudioFilesAreTheAudioOnes | components/SoundGrid.tsx:319 | The filter keeps exactly the files whose type starts with "audio/". |
| DragDrop.DropOne | components/SoundGrid.tsx:323-335 | A file keeps the current cell when it is free on the working list, else takes the first free spot. It is named after the file less its extension and coloured against the working list. |
| DragDrop.DropFiles | components/SoundGrid.tsx:318-337 | Every audio file becomes a tile, in order. Each is placed and coloured against the working list of the tiles before it; only the first can land under a free pointer cell. |
| DragDrop.DropFilesAtPointer | components/SoundGrid.tsx:318-337 | As written: the file drop from the pointer position starts at `calculateGridPosition(e, 0, 0)`, the rounded cell, and places the audio files in order as the drop does. |
| DragDrop.FirstDropMissesPointerCell | components/SoundGrid.tsx:320-328 | As written: a file dropped over the right half of a cell lands in the next column whenever that cell is free. |
| DragDrop.DropFilesUnderPointer | components/SoundGrid.tsx:318-337 | Corrected: the same drop starting at the cell under the pointer. |
| DragDrop.FirstDropLandsUnderPointer | components/SoundGrid.tsx:320-328 | With the corrected snapping, the first dropped file lands in the cell the pointer is over whenever that cell is free. |
| DragDrop.DroppedTileAvoidsClips | components/SoundGrid.tsx:323-328 | While the grid has room, a dropped tile overlaps no clip that was there. |
| DragDrop.DroppedTilesAreDistinct | components/SoundGrid.tsx:323-335 | While the grid has room, no two dropped tiles share a cell. |
| Placement.TileRequest | components/SoundGrid.tsx:331-333 | The save request for a tile puts a 1x1 clip at the tile's cell. |
| Placement.Placeholder | components/SoundGrid.tsx:335 | A placeholder occupies exactly its tile's cell. |
| Placement.WorkingList | components/SoundGrid.tsx:321-335 | The working list has one entry per clip and per placed tile, and is the clips before any tile. |
| Placement.WorkingListLayout | components/SoundGrid.tsx:321-335 | The working list is the clips followed by one placeholder per tile, in order. |
| Placement.WorkingListAppend | components/SoundGrid.tsx:335 | Placing one more tile appends its placeholder. |
| Placement.LastTileBlocksItsCell | components/SoundGrid.tsx:324-328 | The last placed tile's cell is taken on the working list, so later files cannot stay under the pointer. |
| Placement.SpotAvoidsPrefix | App.tsx:151-154 | A found spot overlaps none of the clips the working list starts with. |
| Placement.SpotAvoidsEarlierTile | App.tsx:151-179 | A found spot is not the cell of any earlier tile. |
| Placement.SpotAvoidsEntry | utils/collision.ts:17-27 | A found 1x1 spot is not the rectangle of any working-list entry. |
| Clips.MoveClip | hooks/useClips.ts:245-247 | The clips with the id get the new origin. Every other clip, the length and the order stay the same. |
| Clips.ResizeClip | hooks/useClips.ts:256-258 | The clips with the id get the new size. Every other clip, the length and the order stay the same. |
| Clips.MoveAndResizeCommute | hooks/useClips.ts:245-258 | Moving and resizing touch disjoint fields, so their order does not matter. |
| Clips.MoveClipUndo | hooks/useClips.ts:245-247 | With unique ids, moving a clip back to its old origin restores the list. |
| Clips.FindUpdate | hooks/useClips.ts:251 | The lookup finds the first update carrying the id, and none exactly when no update carries it. |
| Clips.MoveClips | hooks/useClips.ts:249-254 | Each clip takes the origin of the first update carrying its id; clips without one are unchanged. |
| Clips.MoveClipsOfOne | hooks/useClips.ts:249-254 | A group move with one update is a single move. |
| Clips.MoveClipsOfCons | hooks/useClips.ts:249-254 | A group move with updates for distinct ids is the sequence of single moves. |
| Clips.DeleteClip | hooks/useClips.ts:235 | Exactly the clips without the id survive. |
| Clips.DeleteClipOfConcat | hooks/useClips.ts:235 | Deletion distributes over concatenation, so the survivors keep their order. |
| Clips.DeleteMissingId | hooks/useClips.ts:235 | Deleting an id no clip carries changes nothing. |
| Clips.DeleteClipIdempotent | hooks/useClips.ts:235 | Deleting twice is deleting once. |
| Clips.NameToCheck | hooks/useClips.ts:160 | The name checked is the form's name, else the edited clip's, else 'Unnamed'; never empty. |
| Clips.ChosenColor | hooks/useClips.ts:161-165 | A non-empty colour in the form wins; otherwise the edited clip's non-empty colour; otherwise the smart colour of the name to check against the current clips. |
| Clips.FollowerClips | hooks/useClips.ts:173-178 | The followers are exactly the other clips of the same family (case-insensitive) with number above 1. |
| Clips.IsFollower | hooks/useClips.ts:173-178 | A follower is never the edited clip and never a leader (number 1) of the family. |
| Clips.Followers | hooks/useClips.ts:173-182 | Each follower, in order, with the leader's colour shifted by its own number. |
| Clips.FollowerColor | hooks/useClips.ts:179-182 | A follower's colour has the leader's saturation, the leader's lightness nudged and clamped to 20..80 by its own number, and the leader's hue turned by 6 degrees per step of its own number. |
| Clips.FindRecolour | hooks/useClips.ts:197 | The lookup finds the first recolouring carrying the id, and none exactly when no recolouring carries it. |
| Clips.SaveFollowers | hooks/useClips.ts:169-183 | Nothing is recoloured unless the saved name has number 1 and a colour was chosen. |
| Clips.Overlay | hooks/useClips.ts:189-191 | Every field the form data carries replaces the clip's, and every field it omits keeps the clip's; so the id and placement survive a form without them. |
| Clips.LowestBottom | hooks/useClips.ts:205 | `max(0, ...bottoms)` bounds every clip's bottom edge and is attained by one, or is 0. |
| Clips.NewClip | hooks/useClips.ts:201-222 | The new clip: the form's fields with defaults (one cell, volume 1, fading, looping, column 1). A missing row puts it below the lowest clip. |
| Clips.SaveClip | hooks/useClips.ts:143-230 | A failed file store leaves the clips unchanged. |
| Clips.SaveNewClipAppends | hooks/useClips.ts:200-224 | Saving a new clip appends exactly the new clip and leaves every existing clip unchanged. |
| Clips.SaveEditedClip | hooks/useClips.ts:186-195 | Editing overlays the form data on the clip and sets its blob id, file name and chosen colour. |
| Clips.SaveEditTouchesOnlyFollowers | hooks/useClips.ts:186-199 | In an edit every other clip keeps every field but its colour, and only a follower's colour changes. |
| Clips.SaveEditedOther | hooks/useClips.ts:196-198 | In an edit any other clip takes the colour of its recolouring, if any. |
| Clips.FollowerFindsItsColour | hooks/useClips.ts:173-198 | With unique ids, a follower finds the recolouring made for it. |
| Clips.FollowerIsRecoloured | hooks/useClips.ts:173-182 | Every follower has a recolouring carrying its id. |
| Clips.RecolourComesFromClip | hooks/useClips.ts:173-182 | With unique ids, the recolouring carrying a clip's id was made from that clip. |
| Clips.SaveRecoloursFollowers | hooks/useClips.ts:167-199 | Saving a family leader with a colour gives every follower the colour derived from it by the follower's number. |
| Clips.NewClipAvoidsExisting | hooks/useClips.ts:201-219 | A new clip saved without a row lands below every well-placed clip and collides with none. |
| Profiles.FindProfile | hooks/useClips.ts:23 | The first profile carrying the id, none exactly when no profile carries it. |
| Profiles.CurrentClips | hooks/useClips.ts:22-24 | The current profile's clips, or none when the current id names no profile. |
| Profiles.SetClips | hooks/useClips.ts:28-37 | The action is applied to the clips of every profile with the current id; other profiles and the current id are unchanged. |
| Profiles.SetClipsUpdatesCurrent | hooks/useClips.ts:22-37 | After `setClips(action)` the current clips are the action applied to the old current clips. |
| Profiles.CreateProfile | hooks/useClips.ts:100-104 | An empty profile is appended and made current. |
| Profiles.CreatedProfileIsEmpty | hooks/useClips.ts:100-104 | With a fresh id, the new profile is found at the end and the current clips are empty. |
| Profiles.SwitchProfile | hooks/useClips.ts:106-113 | The current id changes only to an id some profile carries; the profiles are unchanged. |
| Profiles.SwitchProfileShowsItsClips | hooks/useClips.ts:106-113 | After switching to an existing profile, the current clips are that profile's clips. |
| Profiles.RemoveProfile | hooks/useClips.ts:128 | Exactly the profiles without the id survive. |
| Profiles.RemoveProfileOfConcat | hooks/useClips.ts:128 | The filter distributes over concatenation, so the survivors keep their order. |
| Profiles.DeleteSwitchesToFirstOther | hooks/useClips.ts:128-136 | Deleting the current profile makes current the first profile in list order with another id. |
| Profiles.DeleteProfile | hooks/useClips.ts:115-137 | Refused with at most one profile. Otherwise the profile is removed, and if it was current the first remaining profile becomes current. |
| Profiles.DeleteKeepsCurrentValid | hooks/useClips.ts:128-136 | With distinct ids and a valid current id, the current id still names a profile after a delete. |
| Profiles.DeleteRemovesId | hooks/useClips.ts:128 | After an accepted delete, no profile carries the id. |
| Profiles.RenameProfile | hooks/useClips.ts:139-141 | Profiles carrying the id take the new name; nothing else changes. |
| Profiles.RenameKeepsClips | hooks/useClips.ts:139-141 | Renaming leaves the current clips as they were. |
| Profiles.MigrateClip | hooks/useClips.ts:62-67 | A missing position becomes the i-th cell of a six-column layout. A colour that is missing or not '#'-prefixed is derived from the name. |
| Profiles.MigrateClips | hooks/useClips.ts:62-67 | Each legacy clip migrates with its own index. |
| Profiles.MigratedPositionsAreDistinct | hooks/useClips.ts:64-65 | Legacy clips without positions get pairwise distinct cells. |
| Profiles.Init | hooks/useClips.ts:43-85 | The load always ends with a profile. Stored profiles are kept, with the stored current id or else the first profile's. |
| Profiles.InitWithoutProfiles | hooks/useClips.ts:60-81 | Without stored profiles the default profile is the only and current one, holding the migrated legacy clips if there were any. |
| Resize.ResizeSpan | components/SoundGrid.tsx:399-406 | East/south edges set the size to max(1, size + steps). West/north edges shift the start and shrink the size only while the start stays at 1 or more. |
| Resize.Proposal | components/SoundGrid.tsx:396-408 | The proposed size is at least one cell on each axis. |
| Resize.Steps | components/SoundGrid.tsx:392-393 | The step count is the pointer delta rounded to whole pitches. |
| Resize.PlanResize | components/SoundGrid.tsx:389-414 | Under half a step on both axes nothing is asked for. Otherwise, when the proposal collides with no other clip, a move is emitted exactly when the origin changed and a resize exactly when the size changed, each at the proposal; anything emitted is collision-free. |
| Resize.SmallDeltaDoesNothing | components/SoundGrid.tsx:392-394 | A delta under half a pitch on both axes asks for nothing. |
| Resize.WestKeepsRightEdge | components/SoundGrid.tsx:400-402 | Dragging a west edge inside the grid keeps the right edge fixed. |
| Resize.NorthKeepsBottomEdge | components/SoundGrid.tsx:404-406 | Dragging a north edge inside the grid keeps the bottom edge fixed. |
| Resize.SouthEastKeepsOrigin | components/SoundGrid.tsx:399-403 | A south-east drag never moves the origin. |
| Resize.WestStopsAtGridEdge | components/SoundGrid.tsx:400-402 | A west drag past column 1 leaves the horizontal axis alone. |
| Resize.ProposalStaysOnGrid | components/SoundGrid.tsx:396-408 | A tile on the grid stays on the grid after any resize. |
| Resize.EastUndo | components/SoundGrid.tsx:399 | Growing an east edge and shrinking it back restores the tile. |
| Resize.Commit | components/SoundGrid.tsx:410-412 | Committing a plan keeps the list length and every other clip; the clip with the id takes the planned origin and size, or keeps its own where none is planned, and nothing else about it changes. |
| Resize.CommittedResizeIsCollisionFree | components/SoundGrid.tsx:410-412 | A committed resize puts the clip at the proposal, leaves the other clips alone and overlaps none of them. |
| Resize.OverlappingProposalIsRefused | components/SoundGrid.tsx:409-414 | For every clip, direction and delta: a proposal that overlaps a clip with another id asks for neither a move nor a resize, so a refused edge drag leaves the tile untouched on both axes. |
| App.UploadOne | App.tsx:153-179 | One file is placed at the first free spot of the working list, named after the file less its extension, and coloured against the working list. |
| App.BulkUpload | App.tsx:147-182 | Every file becomes a tile, in order. Each is placed and coloured against the working list of the tiles before it. |
| App.UploadedTileAvoidsClips | App.tsx:151-154 | While the grid has room, an uploaded tile overlaps no clip that was there. |
| App.UploadedTilesAreDistinct | App.tsx:151-179 | While the grid has room, no two uploaded tiles share a cell. |
| App.UploadedTileOnGrid | App.tsx:154 | Every uploaded tile starts on the grid, found spot or fallback alike. |
| App.UploadedClip | App.tsx:159-169 | An uploaded clip is 1x1 at its tile's cell, volume 1, fading and looping, with the tile's colour and its fresh ids. |
| App.SaveTile | App.tsx:159-171 | A failed store leaves the clips alone. A successful one appends one clip carrying the fresh clip id, the fresh blob id, the file's name and a 1x1 size, at the tile's cell when it is on the grid. |
| App.SaveTileAppends | App.tsx:171 | Saving a tile appends exactly its uploaded clip; a failed store adds nothing. |
| App.Uploaded | App.tsx:173-179 | At most one uploaded clip per tile, and each is the uploaded clip of a tile whose store succeeded. |
| App.SaveUploads | App.tsx:153-179 | The batch keeps the clips that were there as a prefix and adds at most one clip per tile. |
| App.SaveUploadsAppends | App.tsx:153-179 | The batch appends one clip per successful store to the unchanged clips, in order. |
| App.UploadedWhenAllStored | App.tsx:171 | When every store succeeds, every tile is saved as its uploaded clip. |
| App.FileMap | App.tsx:133-136 | The map holds exactly the picked names. |
| App.FileMapLastWins | App.tsx:133-136 | A later file with the same name overrides an earlier one. |
| App.Restorable | App.tsx:138 | A restored clip has a file name that was picked and a non-empty blob id; a clip without a file name, with an unpicked one or without a blob id is skipped. |
| App.RestoreWrites | App.tsx:137-142 | At most one blob write per clip, and each write puts the picked file of a restorable clip's name under that clip's blob id. |
| App.CountRestorable | App.tsx:132-142 | The count is at most the number of clips and equals the number of writes. |
| App.RestoreFromDirectory | App.tsx:128-145 | An empty pick does nothing. Otherwise each restorable clip's blob is written from the file named by its file name, and the count equals the number of writes. |
| App.CountIsRestorableClips | App.tsx:137-142 | The count is the number of clips whose file name was picked and whose blob id is non-empty. |

## Left out

- The audio engine (hooks/useAudioPlayer.ts) is not part of this model: it is Web Audio playback with asynchronous fades and timers.
- The blob and metadata store (services/db.ts) is not part of this model. Whether `saveFile` succeeded is a boolean parameter. `getMetadata`, the two-second timeout race and a load failure become the optional `Stored` input of `Profiles.Init`.
- `hexToHsl` and `hslToHex` use floating-point arithmetic. They are the `HslCodec` parameter, so colours derived through them are stated up to that pair.
- Ids come from `generateId` (crypto or `Math.random`) and the temporary placeholder ids are random. Both are parameters or fixed constants; the constants only mark placeholders on the working list.
- React state batching and stale closures are not modelled. `saveClip` reads `getCurrentClips()` while its updater sees `prev`; the model takes both to be the same list. `switchProfile` calls `setCurrentProfileId` inside a `setProfiles` updater; the model applies it directly.
- `deleteProfile` and `deleteClip` also delete blobs without waiting. The model keeps only the list updates, because the deletions are fire-and-forget I/O.
- The profile `deleteProfile` tests is the `profiles` of the render, while the filter works on `prev`. The model uses one list for both.
- The user-facing alerts, JSON import/export (`importClips`, `handleExport`, `handleImportJSON`), `deleteAllClips` and the mixer and profile dialogs are UI glue and are not modelled.
- Header.tsx, GridTile.tsx, ActiveMixer.tsx, EditBar.tsx, ClipEditor.tsx and index.tsx are presentation only and are not part of this model.
- Pointer capture and `getBoundingClientRect` are not modelled. Coordinates are integer inputs, so fractional pixel positions are out of scope.
- Selection.IsClick: `Math.hypot(dx, dy) < 5` is compared as dx² + dy² < 25, which agrees on integer coordinates.
- GridDimensions.Measure: the width is an exact real; the source's two divisions round in doubles.
- DragDrop.GridPosition: the horizontal coordinate ignores `scrollLeft`, exactly as the source does. Only `scrollTop` is added.
- DragDrop.GroupDragOver: with no projections the source's box is infinite (`Infinity` minima). The model gives no box (`None`) instead of the infinite one.
- JsSemantics.ToLower: lower-cases ASCII, Latin-1 and the basic Cyrillic capitals only, which covers the Latin and Russian names the application uses. Other scripts are left as they are.
- Color.StringToHue: the hash is an unbounded integer. Past 2^53 the source's double would lose precision, and the model does not round there.
- Color.ParseName: `parseInt` of a very long digit run loses precision in the source. The model reads the exact value.
- App.RestoreFromDirectory: a `saveFile` that throws aborts the source's loop. The model assumes every write succeeds.
- Profiles.Init: the stored current id is taken as it is, even when no stored profile carries it, exactly as the source does. The model does not claim it names a profile.
- App.SaveTileAppends: requires a non-empty colour. An empty colour makes `saveClip` fall back to a smart colour, which the codec parameter leaves unknown; `generateSmartColor` always returns a hex string in the source.
- Clips.SaveClip: its own contract states only the failed-store case. The edit and new-clip cases are stated by `Clips.SaveNewClipAppends`, `Clips.SaveEditedClip`, `Clips.SaveEditTouchesOnlyFollowers` and `Clips.SaveRecoloursFollowers`.

## Findings

| source | as written | input that shows it | evidently intended | confidence | as-written member | corrected member |
|---|---|---|---|---|---|---|
| components/SoundGrid.tsx:194-195 | A file drag snaps with `Math.round(rel / pitch) + 1` and a zero grab offset. The position rounds to the nearest cell start rather than taking the cell the pointer is over (also used at lines 247 and 320). | cellSize 70 (pitch 78), pointer 40 px into the first cell: round(40/78) + 1 = 2, so the highlighted and dropped cell is column 2. | The cell under the pointer: floor(rel / pitch) + 1, so every pixel of a cell and its gap targets that cell. | medium, not executed | DragDrop.FileDragMissesPointerCell | DragDrop.FileDropCellIsUnderPointer |
