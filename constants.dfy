/** The catalog of preset sessions. Segment
    identifiers of the presets are generated at random when the catalog is
    built; this model gives them fixed, distinct placeholder strings. */
module Constants {
  import opened Types

  /** Segments 9 to 17 of the HIIT preset: 30 s at speed 4, incline falling
      from 14 to 6 (the `Array.from({ length: 9 }, ...)` block). */
  function HiitRamp(i: nat): (s: Segment)
    requires i < 9
    ensures s.durationInSeconds == 30 && s.speed == 4.0 && s.incline == (14 - i) as real
    ensures HiitPosition(s.id) == 8 + i
  {
    Segment("hiit-ramp-" + [(i + '0' as int) as char], 30, 4.0, (14 - i) as real)
  }

  const HiitSession: Session := Session(
    "hiit-gonzalo",
    "HIIT GONZALO",
    [
      Segment("hiit-01", 5 * 60, 3.5, 5.0),
      Segment("hiit-02", 6 * 60, 4.5, 8.0),
      Segment("hiit-03", 6 * 60, 4.5, 11.0),
      Segment("hiit-04", 6 * 60, 4.5, 9.0),
      Segment("hiit-05", 6 * 60, 4.5, 12.0),
      Segment("hiit-06", 1 * 60, 4.5, 13.0),
      Segment("hiit-07", 1 * 60, 4.5, 14.0),
      Segment("hiit-08", 1 * 60, 4.5, 15.0)
    ]
    + [HiitRamp(0), HiitRamp(1), HiitRamp(2), HiitRamp(3), HiitRamp(4),
       HiitRamp(5), HiitRamp(6), HiitRamp(7), HiitRamp(8)]
    + [
      Segment("hiit-18", 30, 3.5, 5.0),
      Segment("hiit-19", 30, 3.5, 4.0),
      Segment("hiit-20", 30, 3.0, 3.0),
      Segment("hiit-21", 1 * 60, 2.0, 2.0)
    ])

  const WarmupSession: Session := Session(
    "basic-warmup",
    "Calentamiento Básico",
    [
      Segment("warmup-1", 2 * 60, 3.0, 0.0),
      Segment("warmup-2", 2 * 60, 4.0, 2.0),
      Segment("warmup-3", 2 * 60, 5.0, 4.0),
      Segment("warmup-4", 2 * 60, 6.0, 2.0),
      Segment("warmup-5", 2 * 60, 3.0, 0.0)
    ])

  /** The HIIT preset has 21 segments, and segments 9 to 17 (indices 8 to 16)
      are the ramp: 30 s at speed 4 with the incline falling from 14 to 6. */
  lemma HiitLayout()
    ensures |HiitSession.segments| == 21
    ensures forall k :: 8 <= k < 17 ==> HiitSession.segments[k] == HiitRamp(k - 8)
    ensures forall k :: 8 <= k < 17 ==>
      HiitSession.segments[k].durationInSeconds == 30 && HiitSession.segments[k].speed == 4.0 &&
      HiitSession.segments[k].incline == (22 - k) as real
  {
  }

  /** The position a HIIT placeholder id encodes: "hiit-NN" is segment NN
      and "hiit-ramp-k" is segment 9 + k, counted from 1. */
  function HiitPosition(id: string): int {
    if |id| == 11 then 8 + (id[10] as int - '0' as int)
    else if |id| == 7 then 10 * (id[5] as int - '0' as int) + (id[6] as int - '0' as int) - 1
    else -1
  }

  /** The placeholder ids of each preset are distinct, as the randomly
      generated ones are meant to be. */
  lemma PresetIdsDistinct()
    ensures forall p :: p in DefaultSessions ==> UniqueIds(p.segments)
  {
    var h := HiitSession.segments;
    HiitLayout();
    assert forall i :: 0 <= i < 8 ==> HiitPosition(h[i].id) == i;
    assert forall i :: 8 <= i < 17 ==> HiitPosition(h[i].id) == i;
    assert forall i :: 17 <= i < 21 ==> HiitPosition(h[i].id) == i;
  }

  /** `DEFAULT_SESSIONS`, in catalog order. */
  const DefaultSessions: seq<Session> := [HiitSession, WarmupSession]

  /** Every preset can be started: each has at least the minimum number of
      segments, and the presets' identifiers are distinct. */
  lemma PresetsAreStartable()
    ensures forall p :: p in DefaultSessions ==> |p.segments| >= MinSegments
    ensures forall i, j :: 0 <= i < j < |DefaultSessions| ==> DefaultSessions[i].id != DefaultSessions[j].id
  {
    assert |HiitSession.segments| == 21;
    assert HiitSession.id[0] != WarmupSession.id[0];
  }
}
