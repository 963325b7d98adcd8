/** The session editor. Every operation builds a new session value from the
    current one (the editor hands it to `setSession`); nothing is changed in
    place, so each operation is a function on `Session`. */
module WorkoutSetup {
  import opened Types
  import opened Numerals
  import Constants

  // ---------------------------------------------------------------------------
  // Adding a segment

  /** The segment the "add" button appends: one minute at speed 3, incline 0. */
  function NewSegment(id: string): Segment {
    Segment(id, 60, 3.0, 0.0)
  }

  /** `addSegment`: append a default segment whose identifier is `newId`
      (generated at random by the source). */
  function AddSegment(session: Session, newId: string): (r: Session)
    ensures r.id == session.id && r.name == session.name
    ensures |r.segments| == |session.segments| + 1
    ensures r.segments[..|session.segments|] == session.segments
    ensures r.segments[|session.segments|] == Segment(newId, 60, 3.0, 0.0)
  {
    session.(segments := session.segments + [NewSegment(newId)])
  }

  /** Adding a segment adds exactly one minute to the session and keeps the
      identifiers distinct when the new one is fresh. */
  lemma AddSegmentEffect(session: Session, newId: string)
    ensures TotalDuration(AddSegment(session, newId).segments) == TotalDuration(session.segments) + 60
    ensures UniqueIds(session.segments) && newId !in Ids(session.segments) ==>
      UniqueIds(AddSegment(session, newId).segments)
  {
    TotalDurationAppend(session.segments, [NewSegment(newId)]);
    assert TotalDuration([NewSegment(newId)]) == 60;
  }

  // ---------------------------------------------------------------------------
  // Removing a segment

  /** `segments.filter(s => s.id !== id)`. */
  function WithoutId(segs: seq<Segment>, id: string): (r: seq<Segment>)
    ensures |r| <= |segs|
    ensures forall x :: x in r <==> x in segs && x.id != id
  {
    if segs == [] then []
    else if segs[0].id != id then [segs[0]] + WithoutId(segs[1..], id)
    else WithoutId(segs[1..], id)
  }

  /** Filtering distributes over concatenation: the kept segments stay in their
      original order. */
  lemma {:induction false} WithoutIdAppend(a: seq<Segment>, b: seq<Segment>, id: string)
    ensures WithoutId(a + b, id) == WithoutId(a, id) + WithoutId(b, id)
  {
    if a == [] {
      assert a + b == b;
    } else {
      assert (a + b)[1..] == a[1..] + b;
      WithoutIdAppend(a[1..], b, id);
    }
  }

  /** A suffix of a sequence with distinct identifiers has distinct identifiers. */
  lemma UniqueIdsTail(segs: seq<Segment>)
    requires UniqueIds(segs) && segs != []
    ensures UniqueIds(segs[1..])
    ensures segs[0].id !in Ids(segs[1..])
    ensures forall x :: x in segs[1..] ==> x.id != segs[0].id
  {
    var rest := segs[1..];
    forall i, j | 0 <= i < j < |rest| ensures rest[i].id != rest[j].id {
      assert rest[i] == segs[i + 1] && rest[j] == segs[j + 1];
    }
    forall k | 0 <= k < |rest| ensures Ids(rest)[k] != segs[0].id {
      assert rest[k] == segs[k + 1];
    }
  }

  /** With distinct identifiers, filtering removes exactly one segment when
      the identifier is present and none when it is absent. */
  lemma {:induction false} WithoutIdLength(segs: seq<Segment>, id: string)
    requires UniqueIds(segs)
    ensures |WithoutId(segs, id)| == if id in Ids(segs) then |segs| - 1 else |segs|
  {
    if segs != [] {
      var rest := segs[1..];
      UniqueIdsTail(segs);
      WithoutIdLength(rest, id);
      assert Ids(segs) == [segs[0].id] + Ids(rest);
    }
  }

  /** Putting a segment in front of distinct identifiers that all differ from
      its own keeps them distinct. */
  lemma ConsUnique(x: Segment, w: seq<Segment>)
    requires UniqueIds(w)
    requires forall y :: y in w ==> y.id != x.id
    ensures UniqueIds([x] + w)
  {
    var r := [x] + w;
    forall i, j | 0 <= i < j < |r| ensures r[i].id != r[j].id {
      assert r[j] == w[j - 1];
      if i > 0 {
        assert r[i] == w[i - 1];
      }
    }
  }

  /** Filtering keeps identifiers distinct. */
  lemma {:induction false} WithoutIdKeepsUnique(segs: seq<Segment>, id: string)
    requires UniqueIds(segs)
    ensures UniqueIds(WithoutId(segs, id))
  {
    if segs != [] {
      var rest := segs[1..];
      UniqueIdsTail(segs);
      WithoutIdKeepsUnique(rest, id);
      if segs[0].id != id {
        var w := WithoutId(rest, id);
        assert forall y :: y in w ==> y in rest;
        ConsUnique(segs[0], w);
      }
    }
  }

  /** `removeSegment`: refused (the session is returned as is) at or below the
      minimum segment count; otherwise every segment with that identifier goes. */
  function RemoveSegment(session: Session, id: string): (r: Session)
    ensures r.id == session.id && r.name == session.name
    ensures |session.segments| <= MinSegments ==> r == session
    ensures |session.segments| > MinSegments ==> r.segments == WithoutId(session.segments, id)
  {
    if |session.segments| <= MinSegments then session
    else session.(segments := WithoutId(session.segments, id))
  }

  /** With distinct identifiers, removal takes away at most one segment, never
      goes below the floor once the floor is reached, and keeps identifiers
      distinct. */
  lemma RemoveSegmentKeepsFloor(session: Session, id: string)
    requires UniqueIds(session.segments)
    ensures var r := RemoveSegment(session, id).segments;
      UniqueIds(r) &&
      (|session.segments| > MinSegments ==>
         |r| == if id in Ids(session.segments) then |session.segments| - 1 else |session.segments|) &&
      (|session.segments| >= MinSegments ==> |r| >= MinSegments)
  {
    WithoutIdLength(session.segments, id);
    WithoutIdKeepsUnique(session.segments, id);
  }

  // ---------------------------------------------------------------------------
  // Updating a segment

  /** The fields a `Partial<Segment>` update may carry; the editor's callers
      set one of them at a time. */
  datatype SegmentUpdate = SegmentUpdate(durationInSeconds: Option<nat>, speed: Option<real>, incline: Option<real>)

  function DurationUpdate(d: nat): SegmentUpdate { SegmentUpdate(Some(d), None, None) }
  function SpeedUpdate(v: real): SegmentUpdate { SegmentUpdate(None, Some(v), None) }
  function InclineUpdate(v: real): SegmentUpdate { SegmentUpdate(None, None, Some(v)) }

  /** `{ ...s, ...updates }`: the given fields from the update, the rest from s. */
  function Merge(s: Segment, u: SegmentUpdate): (r: Segment)
    ensures r.id == s.id
    ensures u.durationInSeconds.Some? ==> r.durationInSeconds == u.durationInSeconds.value
    ensures u.durationInSeconds.None? ==> r.durationInSeconds == s.durationInSeconds
    ensures u.speed.Some? ==> r.speed == u.speed.value
    ensures u.speed.None? ==> r.speed == s.speed
    ensures u.incline.Some? ==> r.incline == u.incline.value
    ensures u.incline.None? ==> r.incline == s.incline
  {
    Segment(s.id,
            u.durationInSeconds.GetOr(s.durationInSeconds),
            u.speed.GetOr(s.speed),
            u.incline.GetOr(s.incline))
  }

  /** `segments.map(s => s.id === id ? { ...s, ...updates } : s)`. */
  function UpdateSegments(segs: seq<Segment>, id: string, u: SegmentUpdate): (r: seq<Segment>)
    ensures |r| == |segs|
    ensures forall i :: 0 <= i < |segs| ==>
      r[i] == if segs[i].id == id then Merge(segs[i], u) else segs[i]
  {
    if segs == [] then [] else
      [if segs[0].id == id then Merge(segs[0], u) else segs[0]] + UpdateSegments(segs[1..], id, u)
  }

  /** `updateSegment`: merge the update into every segment with that identifier. */
  function UpdateSegment(session: Session, id: string, u: SegmentUpdate): (r: Session)
    ensures r.id == session.id && r.name == session.name
    ensures r.segments == UpdateSegments(session.segments, id, u)
  {
    session.(segments := UpdateSegments(session.segments, id, u))
  }

  /** An update keeps every identifier in place (so distinct identifiers stay
      distinct), and applying the same update twice is applying it once. */
  lemma UpdateSegmentKeepsIds(session: Session, id: string, u: SegmentUpdate)
    ensures Ids(UpdateSegment(session, id, u).segments) == Ids(session.segments)
    ensures UniqueIds(session.segments) ==> UniqueIds(UpdateSegment(session, id, u).segments)
    ensures UpdateSegment(UpdateSegment(session, id, u), id, u) == UpdateSegment(session, id, u)
  {
    var r := UpdateSegment(session, id, u);
    assert Ids(r.segments) == Ids(session.segments);
    var rr := UpdateSegment(r, id, u);
    assert rr.segments == r.segments;
  }

  /** With distinct identifiers, updating the segment at index i replaces just
      that one segment, and the session total changes by the difference in its
      duration. */
  lemma UpdateSegmentAt(session: Session, i: nat, u: SegmentUpdate)
    requires UniqueIds(session.segments) && i < |session.segments|
    ensures var segs := session.segments;
      var r := UpdateSegment(session, segs[i].id, u).segments;
      r == segs[..i] + [Merge(segs[i], u)] + segs[i + 1..] &&
      TotalDuration(r) + segs[i].durationInSeconds ==
        TotalDuration(segs) + Merge(segs[i], u).durationInSeconds
  {
    var segs := session.segments;
    var r := UpdateSegment(session, segs[i].id, u).segments;
    assert r == segs[..i] + [Merge(segs[i], u)] + segs[i + 1..];
    assert segs == segs[..i] + [segs[i]] + segs[i + 1..];
    TotalDurationAppend(segs[..i] + [Merge(segs[i], u)], segs[i + 1..]);
    TotalDurationAppend(segs[..i], [Merge(segs[i], u)]);
    TotalDurationAppend(segs[..i] + [segs[i]], segs[i + 1..]);
    TotalDurationAppend(segs[..i], [segs[i]]);
  }

  // ---------------------------------------------------------------------------
  // Minutes and seconds of a duration

  /** The minutes field the editor shows: `Math.floor(d / 60)`. */
  function MinutesOf(d: nat): nat { d / 60 }

  /** The seconds field the editor shows: `d % 60`. */
  function SecondsOf(d: nat): nat { d % 60 }

  /** Typing v into the minutes field: `v * 60 + secs`. */
  function SetMinutes(d: nat, v: nat): nat { v * 60 + SecondsOf(d) }

  /** Typing v into the seconds field: `mins * 60 + v`. */
  function SetSeconds(d: nat, v: nat): nat { MinutesOf(d) * 60 + v }

  /** The two fields split a duration without loss, and the seconds field is
      below 60. */
  lemma SplitRecombines(d: nat)
    ensures MinutesOf(d) * 60 + SecondsOf(d) == d && SecondsOf(d) < 60
  {
  }

  /** Editing the minutes sets the minutes and keeps the seconds. */
  lemma SetMinutesKeepsSeconds(d: nat, v: nat)
    ensures MinutesOf(SetMinutes(d, v)) == v
    ensures SecondsOf(SetMinutes(d, v)) == SecondsOf(d)
  {
    DivModUnique(v * 60 + d % 60, v, d % 60);
  }

  /** Editing the seconds (the field accepts at most 59) sets the seconds and
      keeps the minutes. */
  lemma SetSecondsKeepsMinutes(d: nat, v: nat)
    requires v < 60
    ensures MinutesOf(SetSeconds(d, v)) == MinutesOf(d)
    ensures SecondsOf(SetSeconds(d, v)) == v
  {
    DivModUnique((d / 60) * 60 + v, d / 60, v);
  }

  lemma DivModUnique(n: nat, q: nat, r: nat)
    requires n == q * 60 + r && r < 60
    ensures n / 60 == q && n % 60 == r
  {
  }

  /** The onChange handler of segment i's minutes field. */
  function OnMinutesChange(session: Session, i: nat, v: nat): Session
    requires i < |session.segments|
  {
    var seg := session.segments[i];
    UpdateSegment(session, seg.id, DurationUpdate(SetMinutes(seg.durationInSeconds, v)))
  }

  /** The onChange handler of segment i's seconds field. */
  function OnSecondsChange(session: Session, i: nat, v: nat): Session
    requires i < |session.segments|
  {
    var seg := session.segments[i];
    UpdateSegment(session, seg.id, DurationUpdate(SetSeconds(seg.durationInSeconds, v)))
  }

  /** With distinct identifiers, editing segment i's minutes changes only that
      segment's minutes; its seconds, its targets and every other segment stay. */
  lemma OnMinutesChangeEffect(session: Session, i: nat, v: nat)
    requires UniqueIds(session.segments) && i < |session.segments|
    ensures var before := session.segments[i];
      var r := OnMinutesChange(session, i, v).segments;
      |r| == |session.segments| &&
      MinutesOf(r[i].durationInSeconds) == v &&
      SecondsOf(r[i].durationInSeconds) == SecondsOf(before.durationInSeconds) &&
      r[i] == before.(durationInSeconds := r[i].durationInSeconds) &&
      forall j :: 0 <= j < |r| && j != i ==> r[j] == session.segments[j]
  {
    SetMinutesKeepsSeconds(session.segments[i].durationInSeconds, v);
  }

  /** With distinct identifiers, editing segment i's seconds (at most 59)
      changes only that segment's seconds. */
  lemma OnSecondsChangeEffect(session: Session, i: nat, v: nat)
    requires UniqueIds(session.segments) && i < |session.segments| && v < 60
    ensures var before := session.segments[i];
      var r := OnSecondsChange(session, i, v).segments;
      |r| == |session.segments| &&
      SecondsOf(r[i].durationInSeconds) == v &&
      MinutesOf(r[i].durationInSeconds) == MinutesOf(before.durationInSeconds) &&
      r[i] == before.(durationInSeconds := r[i].durationInSeconds) &&
      forall j :: 0 <= j < |r| && j != i ==> r[j] == session.segments[j]
  {
    SetSecondsKeepsMinutes(session.segments[i].durationInSeconds, v);
  }

  /** The onChange handler of segment i's speed field. */
  function OnSpeedChange(session: Session, i: nat, v: real): Session
    requires i < |session.segments|
  {
    UpdateSegment(session, session.segments[i].id, SpeedUpdate(v))
  }

  /** The onChange handler of segment i's incline field. */
  function OnInclineChange(session: Session, i: nat, v: real): Session
    requires i < |session.segments|
  {
    UpdateSegment(session, session.segments[i].id, InclineUpdate(v))
  }

  /** With distinct identifiers, editing segment i's speed replaces that one
      segment's speed and nothing else; the session total is unchanged. */
  lemma OnSpeedChangeEffect(session: Session, i: nat, v: real)
    requires UniqueIds(session.segments) && i < |session.segments|
    ensures var segs := session.segments;
      var r := OnSpeedChange(session, i, v).segments;
      r == segs[..i] + [segs[i].(speed := v)] + segs[i + 1..] &&
      TotalDuration(r) == TotalDuration(segs)
  {
    UpdateSegmentAt(session, i, SpeedUpdate(v));
  }

  /** With distinct identifiers, editing segment i's incline replaces that one
      segment's incline and nothing else; the session total is unchanged. */
  lemma OnInclineChangeEffect(session: Session, i: nat, v: real)
    requires UniqueIds(session.segments) && i < |session.segments|
    ensures var segs := session.segments;
      var r := OnInclineChange(session, i, v).segments;
      r == segs[..i] + [segs[i].(incline := v)] + segs[i + 1..] &&
      TotalDuration(r) == TotalDuration(segs)
  {
    UpdateSegmentAt(session, i, InclineUpdate(v));
  }

  /** The session-name field: only the name changes. */
  function Rename(session: Session, name: string): (r: Session)
    ensures r.name == name && r.id == session.id && r.segments == session.segments
  {
    session.(name := name)
  }

  // ---------------------------------------------------------------------------
  // Presets

  /** `presets.find(p => p.id === presetId)`: the first preset with that id. */
  function FindPreset(presets: seq<Session>, presetId: string): (r: Option<Session>)
    ensures r.None? <==> forall i :: 0 <= i < |presets| ==> presets[i].id != presetId
    ensures r.Some? ==> exists i :: 0 <= i < |presets| && presets[i] == r.value && presets[i].id == presetId &&
                                   forall j :: 0 <= j < i ==> presets[j].id != presetId
  {
    if presets == [] then None
    else if presets[0].id == presetId then Some(presets[0])
    else
      var r := FindPreset(presets[1..], presetId);
      assert r.Some? ==> exists i :: 0 <= i < |presets| && presets[i] == r.value && presets[i].id == presetId &&
                                     forall j :: 0 <= j < i ==> presets[j].id != presetId by {
        if r.Some? {
          var k :| 0 <= k < |presets| - 1 && presets[1..][k] == r.value && presets[1..][k].id == presetId &&
                   forall j :: 0 <= j < k ==> presets[1..][j].id != presetId;
          assert forall j :: 0 <= j < k + 1 ==> presets[j].id != presetId by {
            forall j | 0 <= j < k + 1 ensures presets[j].id != presetId {
              if j > 0 { assert presets[j] == presets[1..][j - 1]; }
            }
          }
        }
      }
      r
  }

  /** `loadPreset`: a known preset replaces the session (a copy; Dafny values
      are never shared); an unknown identifier leaves the session unchanged. */
  function LoadPreset(session: Session, presetId: string): (r: Session)
    ensures (forall p :: p in Constants.DefaultSessions ==> p.id != presetId) ==> r == session
    ensures (exists p :: p in Constants.DefaultSessions && p.id == presetId) ==>
      r in Constants.DefaultSessions && r.id == presetId
  {
    match FindPreset(Constants.DefaultSessions, presetId)
    case Some(p) => p
    case None => session
  }

  /** Loading preset i of the catalog gives exactly that preset, which can be
      started and whose segment ids are distinct. */
  lemma LoadPresetSelects(session: Session, i: nat)
    requires i < |Constants.DefaultSessions|
    ensures LoadPreset(session, Constants.DefaultSessions[i].id) == Constants.DefaultSessions[i]
    ensures |LoadPreset(session, Constants.DefaultSessions[i].id).segments| >= MinSegments
    ensures UniqueIds(LoadPreset(session, Constants.DefaultSessions[i].id).segments)
  {
    Constants.PresetsAreStartable();
    Constants.PresetIdsDistinct();
    assert Constants.DefaultSessions[i] in Constants.DefaultSessions;
  }

  // ---------------------------------------------------------------------------
  // Total time label

  /** `getTotalTime`: "<minutes>m <seconds>s" of the session total. */
  function GetTotalTime(session: Session): string {
    var total := TotalDuration(session.segments);
    NatToString(total / 60) + "m " + NatToString(total % 60) + "s"
  }

  /** The label reads back as the session total: X minutes and Y < 60 seconds
      with X * 60 + Y == total, both written without leading zeros. */
  lemma GetTotalTimeDenotes(session: Session)
    ensures exists x, y :: (GetTotalTime(session) == x + "m " + y + "s" &&
      IsDecimal(x) && IsDecimal(y) && |x| >= 1 && 1 <= |y| <= 2 &&
      (|x| > 1 ==> x[0] != '0') && (|y| > 1 ==> y[0] != '0') &&
      ParseNat(x) * 60 + ParseNat(y) == TotalDuration(session.segments) && ParseNat(y) < 60)
  {
    var total := TotalDuration(session.segments);
    var x, y := NatToString(total / 60), NatToString(total % 60);
    NatToStringRoundTrip(total / 60);
    NatToStringRoundTrip(total % 60);
    assert GetTotalTime(session) == x + "m " + y + "s";
  }
}
