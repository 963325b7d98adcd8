/** Shapes shared by the editor, the player and the application shell:
    a segment (one leg of a treadmill workout), a session (a named,
    ordered sequence of segments) and the three application phases. */
module Types {

  datatype Option<+T> = None | Some(value: T) {
    function GetOr(default: T): T {
      match this
      case Some(v) => v
      case None => default
    }
  }

  /** One leg of a workout: how long it lasts and the treadmill targets. */
  datatype Segment = Segment(id: string, durationInSeconds: nat, speed: real, incline: real)

  /** A named workout; segments play in sequence order. */
  datatype Session = Session(id: string, name: string, segments: seq<Segment>)

  /** The three screens of the application. */
  datatype AppState = Setup | Active | Summary

  /** The fewest segments a session may be started with, and the floor below
      which the editor refuses to remove segments. */
  const MinSegments: nat := 5

  /** Sum of the durations, the `reduce((acc, s) => acc + s.durationInSeconds, 0)`
      that both the editor and the player compute. */
  function TotalDuration(segs: seq<Segment>): nat {
    if segs == [] then 0 else segs[0].durationInSeconds + TotalDuration(segs[1..])
  }

  /** The total of a concatenation is the sum of the totals. */
  lemma {:induction false} TotalDurationAppend(a: seq<Segment>, b: seq<Segment>)
    ensures TotalDuration(a + b) == TotalDuration(a) + TotalDuration(b)
  {
    if a == [] {
      assert a + b == b;
    } else {
      assert (a + b)[1..] == a[1..] + b;
      TotalDurationAppend(a[1..], b);
    }
  }

  /** Peeling one segment off the front of a suffix. */
  lemma TotalDurationFrom(segs: seq<Segment>, i: nat)
    requires i < |segs|
    ensures TotalDuration(segs[i..]) == segs[i].durationInSeconds + TotalDuration(segs[i + 1..])
  {
    assert segs[i..][1..] == segs[i + 1..];
  }

  /** The identifiers of the segments, in order. */
  function Ids(segs: seq<Segment>): (r: seq<string>)
    ensures |r| == |segs|
    ensures forall i :: 0 <= i < |segs| ==> r[i] == segs[i].id
  {
    if segs == [] then [] else [segs[0].id] + Ids(segs[1..])
  }

  /** No two segments share an identifier. */
  predicate UniqueIds(segs: seq<Segment>) {
    forall i, j :: 0 <= i < j < |segs| ==> segs[i].id != segs[j].id
  }
}
