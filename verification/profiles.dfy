/** The profile updaters of the clips hook (hooks/useClips.ts): the current
    profile's clips, the `setClips` wrapper, create, switch, delete and rename,
    and the initial load with its migration of legacy data. */
module Profiles {
  import opened Types
  import opened JsSemantics
  import Color

  const DefaultProfileId: string := "default"
  const DefaultProfileName: string := "Основной"

  /** The id of the first profile carrying `id`, if any. */
  function FindProfile(profiles: seq<Profile>, id: string): (r: Option<nat>)
    ensures r.Some? ==> r.value < |profiles| && profiles[r.value].id == id
                        && forall j :: 0 <= j < r.value ==> profiles[j].id != id
    ensures r.None? <==> forall j :: 0 <= j < |profiles| ==> profiles[j].id != id
  {
    FindFirst(profiles, (p: Profile) => p.id == id)
  }

  /** `getCurrentClips`: the clips of the current profile, or none. */
  function CurrentClips(app: AppData): (r: seq<Clip>)
    ensures FindProfile(app.profiles, app.currentProfileId).None? ==> r == []
    ensures FindProfile(app.profiles, app.currentProfileId).Some? ==>
              r == app.profiles[FindProfile(app.profiles, app.currentProfileId).value].clips
  {
    match FindProfile(app.profiles, app.currentProfileId)
    case None => []
    case Some(k) => app.profiles[k].clips
  }

  /** `setClips(action)`: the action applied to the clips of every profile
      carrying the current id; the other profiles are unchanged. */
  function SetClips(app: AppData, action: seq<Clip> -> seq<Clip>): (r: AppData)
    ensures r.currentProfileId == app.currentProfileId && |r.profiles| == |app.profiles|
    ensures forall k :: 0 <= k < |app.profiles| && app.profiles[k].id != app.currentProfileId ==>
              r.profiles[k] == app.profiles[k]
    ensures forall k :: 0 <= k < |app.profiles| && app.profiles[k].id == app.currentProfileId ==>
              r.profiles[k] == app.profiles[k].(clips := action(app.profiles[k].clips))
  {
    var ps := app.profiles;
    AppData(seq(|ps|, k requires 0 <= k < |ps| =>
                  if ps[k].id == app.currentProfileId then ps[k].(clips := action(ps[k].clips)) else ps[k]),
            app.currentProfileId)
  }

  /** What the rest of the application sees after `setClips(action)`: the
      action applied to the current clips. */
  lemma SetClipsUpdatesCurrent(app: AppData, action: seq<Clip> -> seq<Clip>)
    requires FindProfile(app.profiles, app.currentProfileId).Some?
    ensures CurrentClips(SetClips(app, action)) == action(CurrentClips(app))
  {
    var r := SetClips(app, action);
    assert forall j :: 0 <= j < |r.profiles| ==> r.profiles[j].id == app.profiles[j].id;
    FindProfileSameIds(r.profiles, app.profiles, app.currentProfileId);
  }

  /** The lookup only looks at ids. */
  lemma FindProfileSameIds(a: seq<Profile>, b: seq<Profile>, id: string)
    requires |a| == |b| && forall j :: 0 <= j < |a| ==> a[j].id == b[j].id
    ensures FindProfile(a, id) == FindProfile(b, id)
  {
    var fa := FindProfile(a, id);
    var fb := FindProfile(b, id);
    if fa.Some? {
      assert fb.Some?;
      assert !(fa.value < fb.value) && !(fb.value < fa.value);
    }
  }

  /** `createProfile`: an empty profile appended and made current. */
  function CreateProfile(app: AppData, name: string, newId: string): (r: AppData)
    ensures r.profiles == app.profiles + [Profile(newId, name, [])]
    ensures r.currentProfileId == newId
  {
    AppData(app.profiles + [Profile(newId, name, [])], newId)
  }

  /** With an id no profile carries, the new profile starts with no clips. */
  lemma CreatedProfileIsEmpty(app: AppData, name: string, newId: string)
    requires FindProfile(app.profiles, newId).None?
    ensures CurrentClips(CreateProfile(app, name, newId)) == []
    ensures FindProfile(CreateProfile(app, name, newId).profiles, newId) == Some(|app.profiles|)
  {
    var ps := CreateProfile(app, name, newId).profiles;
    assert forall j :: 0 <= j < |app.profiles| ==> ps[j] == app.profiles[j];
    assert ps[|app.profiles|].id == newId;
  }

  /** `switchProfile`: the current id changes only to an id a profile carries. */
  function SwitchProfile(app: AppData, id: string): (r: AppData)
    ensures r.profiles == app.profiles
    ensures FindProfile(app.profiles, id).Some? ==> r.currentProfileId == id
    ensures FindProfile(app.profiles, id).None? ==> r == app
  {
    if FindProfile(app.profiles, id).Some? then app.(currentProfileId := id) else app
  }

  /** After switching to an existing profile, the grid shows that profile's clips. */
  lemma SwitchProfileShowsItsClips(app: AppData, id: string)
    requires FindProfile(app.profiles, id).Some?
    ensures CurrentClips(SwitchProfile(app, id)) == app.profiles[FindProfile(app.profiles, id).value].clips
  {
  }

  /** `prev.filter(p => p.id !== id)`. */
  function RemoveProfile(profiles: seq<Profile>, id: string): (r: seq<Profile>)
    ensures |r| <= |profiles|
    ensures forall p :: p in r <==> p in profiles && p.id != id
  {
    if |profiles| == 0 then []
    else
      var rest := RemoveProfile(profiles[1..], id);
      assert forall p :: p in profiles <==> p == profiles[0] || p in profiles[1..];
      if profiles[0].id == id then rest else [profiles[0]] + rest
  }

  /** The filter keeps the survivors in their order: it distributes over concatenation. */
  lemma {:induction false} RemoveProfileOfConcat(a: seq<Profile>, b: seq<Profile>, id: string)
    ensures RemoveProfile(a + b, id) == RemoveProfile(a, id) + RemoveProfile(b, id)
  {
    if |a| > 0 {
      assert (a + b)[0] == a[0];
      assert (a + b)[1..] == a[1..] + b;
      RemoveProfileOfConcat(a[1..], b, id);
      var x, y := RemoveProfile(a[1..], id), RemoveProfile(b, id);
      if a[0].id != id {
        assert [a[0]] + (x + y) == ([a[0]] + x) + y;
      }
    } else {
      assert a + b == b;
    }
  }

  /** Removing an id every profile carries leaves nothing. */
  lemma {:induction false} RemoveAllProfiles(profiles: seq<Profile>, id: string)
    requires forall i :: 0 <= i < |profiles| ==> profiles[i].id == id
    ensures RemoveProfile(profiles, id) == []
  {
    if |profiles| > 0 {
      RemoveAllProfiles(profiles[1..], id);
    }
  }

  /** `deleteProfile`: refused while at most one profile exists; otherwise
      the profile goes, and deleting the current one makes the first
      remaining profile current. */
  function DeleteProfile(app: AppData, id: string): (r: AppData)
    ensures |app.profiles| <= 1 ==> r == app
    ensures |app.profiles| > 1 ==> r.profiles == RemoveProfile(app.profiles, id)
    ensures |app.profiles| > 1 && app.currentProfileId != id ==> r.currentProfileId == app.currentProfileId
    ensures |app.profiles| > 1 && app.currentProfileId == id && |r.profiles| > 0 ==> r.currentProfileId == r.profiles[0].id
  {
    if |app.profiles| <= 1 then app
    else
      var remaining := RemoveProfile(app.profiles, id);
      if app.currentProfileId == id && |remaining| > 0 then AppData(remaining, remaining[0].id)
      else AppData(remaining, app.currentProfileId)
  }

  /** Deleting the current profile makes current the first profile, in list
      order, that carries another id. */
  lemma DeleteSwitchesToFirstOther(app: AppData, id: string, k: nat)
    requires |app.profiles| > 1 && app.currentProfileId == id
    requires k < |app.profiles| && app.profiles[k].id != id
    requires forall j :: 0 <= j < k ==> app.profiles[j].id == id
    ensures DeleteProfile(app, id).currentProfileId == app.profiles[k].id
  {
    var ps := app.profiles;
    assert ps == ps[..k] + ps[k..];
    RemoveProfileOfConcat(ps[..k], ps[k..], id);
    RemoveAllProfiles(ps[..k], id);
    assert ps[k..] == [ps[k]] + ps[k + 1..];
    RemoveProfileOfConcat([ps[k]], ps[k + 1..], id);
    assert RemoveProfile([ps[k]], id) == [ps[k]] by {
      assert [ps[k]][1..] == [];
    }
  }

  /** Profile ids are distinct. */
  predicate UniqueProfileIds(profiles: seq<Profile>) {
    forall i, j :: 0 <= i < |profiles| && 0 <= j < |profiles| && profiles[i].id == profiles[j].id ==> i == j
  }

  /** With distinct ids, deleting never leaves the current id dangling: when
      it named a profile before, it names one afterwards. */
  lemma DeleteKeepsCurrentValid(app: AppData, id: string)
    requires UniqueProfileIds(app.profiles)
    requires FindProfile(app.profiles, app.currentProfileId).Some?
    ensures var r := DeleteProfile(app, id);
            FindProfile(r.profiles, r.currentProfileId).Some?
  {
    if |app.profiles| > 1 {
      var r := DeleteProfile(app, id);
      var remaining := RemoveProfile(app.profiles, id);
      if app.currentProfileId == id {
        // two profiles with distinct ids: one of them survives
        var other := if app.profiles[0].id != id then app.profiles[0] else app.profiles[1];
        assert other in remaining;
        assert r.profiles[0].id == r.currentProfileId;
      } else {
        var k := FindProfile(app.profiles, app.currentProfileId).value;
        assert app.profiles[k] in remaining;
        var j :| 0 <= j < |remaining| && remaining[j] == app.profiles[k];
        assert r.profiles[j].id == r.currentProfileId;
      }
    }
  }

  /** Once deleted (while more than one profile existed), the id names no profile. */
  lemma DeleteRemovesId(app: AppData, id: string)
    requires |app.profiles| > 1
    ensures FindProfile(DeleteProfile(app, id).profiles, id).None?
  {
    var remaining := DeleteProfile(app, id).profiles;
    assert forall j :: 0 <= j < |remaining| ==> remaining[j] in remaining;
  }

  /** `renameProfile`: every profile carrying the id takes the new name. */
  function RenameProfile(app: AppData, id: string, newName: string): (r: AppData)
    ensures r.currentProfileId == app.currentProfileId && |r.profiles| == |app.profiles|
    ensures forall k :: 0 <= k < |app.profiles| ==>
              r.profiles[k] == if app.profiles[k].id == id then app.profiles[k].(name := newName) else app.profiles[k]
  {
    var ps := app.profiles;
    AppData(seq(|ps|, k requires 0 <= k < |ps| => if ps[k].id == id then ps[k].(name := newName) else ps[k]),
            app.currentProfileId)
  }

  /** Renaming changes names only: the current clips stay as they were. */
  lemma RenameKeepsClips(app: AppData, id: string, newName: string)
    ensures CurrentClips(RenameProfile(app, id, newName)) == CurrentClips(app)
  {
    var r := RenameProfile(app, id, newName);
    assert forall j :: 0 <= j < |r.profiles| ==> r.profiles[j].id == app.profiles[j].id
                                                 && r.profiles[j].clips == app.profiles[j].clips;
    FindProfileSameIds(r.profiles, app.profiles, app.currentProfileId);
  }

  // ---------------------------------------------------------------- initial load

  /** A clip as stored by older versions: its position and colour may be missing. */
  datatype LegacyClip = LegacyClip(clip: Clip, x: Option<int>, y: Option<int>, color: Option<string>)

  /** The stored metadata: the profile list and current id of the current
      format, and the flat clip list of the legacy format, each optional. */
  datatype Stored = Stored(profiles: Option<seq<Profile>>, currentProfileId: Option<string>,
                           clips: Option<seq<LegacyClip>>)

  /** The clip list a legacy record migrates to: a missing position becomes
      the `i`-th cell of a six-column layout, and a colour that is missing or
      not a `#` hex string is derived from the name. */
  function MigrateClip(c: LegacyClip, i: nat, codec: Color.HslCodec): (r: Clip)
    ensures c.x.None? ==> r.x == i % 6 + 1
    ensures c.y.None? ==> r.y == i / 6 + 1
    ensures c.x.Some? ==> r.x == c.x.value
    ensures c.y.Some? ==> r.y == c.y.value
    ensures r.color == (if Truthy(c.color) && c.color.value[0] == '#' then c.color.value
                        else Color.GenerateSmartColor(codec, c.clip.name, []))
  {
    c.clip.(x := if c.x.Some? then c.x.value else i % 6 + 1,
            y := if c.y.Some? then c.y.value else i / 6 + 1,
            color := if Truthy(c.color) && c.color.value[0] == '#' then c.color.value
                     else Color.GenerateSmartColor(codec, c.clip.name, []))
  }

  function MigrateClips(legacy: seq<LegacyClip>, codec: Color.HslCodec): (r: seq<Clip>)
    ensures |r| == |legacy| && forall i :: 0 <= i < |legacy| ==> r[i] == MigrateClip(legacy[i], i, codec)
  {
    seq(|legacy|, i requires 0 <= i < |legacy| => MigrateClip(legacy[i], i, codec))
  }

  /** Legacy clips that had no position get pairwise distinct cells. */
  lemma MigratedPositionsAreDistinct(legacy: seq<LegacyClip>, codec: Color.HslCodec, i: nat, j: nat)
    requires i < j < |legacy|
    requires legacy[i].x.None? && legacy[i].y.None? && legacy[j].x.None? && legacy[j].y.None?
    ensures var r := MigrateClips(legacy, codec);
            (r[i].x, r[i].y) != (r[j].x, r[j].y)
  {
    var r := MigrateClips(legacy, codec);
    if r[i].x == r[j].x && r[i].y == r[j].y {
      SameCellSameIndex(i, j);
    }
  }

  lemma SameCellSameIndex(i: nat, j: nat)
    requires i % 6 == j % 6 && i / 6 == j / 6
    ensures i == j
  {
    assert i == 6 * (i / 6) + i % 6;
    assert j == 6 * (j / 6) + j % 6;
  }

  /** The profile list everyone starts with. */
  function FallbackData(): AppData {
    AppData([Profile(DefaultProfileId, DefaultProfileName, [])], DefaultProfileId)
  }

  /** The initial load. Stored profiles are taken as they are, with the
      stored current id or else the first profile's; a legacy clip list is
      migrated into the default profile; anything else (no data, a timeout, a
      failure) gives the empty default profile. */
  function Init(stored: Option<Stored>, codec: Color.HslCodec): (r: AppData)
    ensures |r.profiles| > 0
    ensures stored.Some? && stored.value.profiles.Some? && |stored.value.profiles.value| > 0 ==>
              r.profiles == stored.value.profiles.value
              && r.currentProfileId == (if Truthy(stored.value.currentProfileId) then stored.value.currentProfileId.value
                                        else stored.value.profiles.value[0].id)
  {
    match stored
    case Some(m) =>
      if m.profiles.Some? && |m.profiles.value| > 0 then
        AppData(m.profiles.value, if Truthy(m.currentProfileId) then m.currentProfileId.value else m.profiles.value[0].id)
      else if m.clips.Some? then
        AppData([Profile(DefaultProfileId, DefaultProfileName, MigrateClips(m.clips.value, codec))], DefaultProfileId)
      else FallbackData()
    case None => FallbackData()
  }

  /** Without stored profiles, the load ends with the default profile as the
      only and current profile, holding the migrated legacy clips if any. */
  lemma InitWithoutProfiles(stored: Option<Stored>, codec: Color.HslCodec)
    requires stored.None? || stored.value.profiles.None? || |stored.value.profiles.value| == 0
    ensures var r := Init(stored, codec);
            && |r.profiles| == 1 && r.profiles[0].id == DefaultProfileId && r.currentProfileId == DefaultProfileId
            && CurrentClips(r) == (if stored.Some? && stored.value.clips.Some?
                                   then MigrateClips(stored.value.clips.value, codec) else [])
  {
    var r := Init(stored, codec);
    assert FindProfile(r.profiles, r.currentProfileId) == Some(0);
  }
}
