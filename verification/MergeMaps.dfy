/** The map merging node: scans and marker transforms changed in place by its callbacks. */
module MergeMaps {
  import opened Plane
  import opened Boxes
  import opened PlanarTransforms
  import opened SubmapMerging
  import opened Wrappers

  /** What a scan recomputes from its corrected pose and its ranges. */
  datatype Derived = Derived(barycenter: Rigid, unfiltered: seq<Point>, filtered: seq<Point>, box: Box)

  class LocalizedRangeScan {
    const derive: Rigid -> Derived

    var barycenterPose: Rigid
    var correctedPose: Rigid
    var odometricPose: Rigid
    var pointReadings: seq<Point>
    var unfilteredPointReadings: seq<Point>
    var boundingBox: Box
    var isDirty: bool

    constructor (derive: Rigid -> Derived, corrected: Rigid, odometric: Rigid)
    {
      this.derive := derive;
      correctedPose, odometricPose := corrected, odometric;
      barycenterPose, pointReadings, unfilteredPointReadings, boundingBox := IDENTITY, [], [], EMPTY_BOX;
      isDirty := true;
    }

    /** What the getters answer: a dirty scan is recomputed before it is read. */
    ghost function Value(): ScanValue
      reads this
    {
      if isDirty then
        var d := derive(correctedPose);
        ScanValue(d.barycenter, correctedPose, odometricPose, d.unfiltered, d.filtered, d.box)
      else
        ScanValue(barycenterPose, correctedPose, odometricPose, unfilteredPointReadings, pointReadings, boundingBox)
    }

    method Update()
      modifies this
      ensures !isDirty
      ensures ScanValue(barycenterPose, correctedPose, odometricPose, unfilteredPointReadings, pointReadings,
        boundingBox)
        == var d := derive(old(correctedPose));
           ScanValue(d.barycenter, old(correctedPose), old(odometricPose), d.unfiltered, d.filtered, d.box)
    {
      var d := derive(correctedPose);
      barycenterPose, unfilteredPointReadings, pointReadings, boundingBox
        := d.barycenter, d.unfiltered, d.filtered, d.box;
      isDirty := false;
    }

    method GetBarycenterPose() returns (pose: Rigid)
      modifies this
      ensures !isDirty && Value() == old(Value()) && pose == Value().barycenter
    {
      if isDirty {
        Update();
      }
      pose := barycenterPose;
    }

    method SetCorrectedPose(pose: Rigid)
      modifies this`correctedPose, this`isDirty
      ensures correctedPose == pose && isDirty
    {
      correctedPose := pose;
      isDirty := true;
    }

    /** Move everything but the filtered points; the scan is left clean so that nothing is recomputed. */
    method Transform(correction: Rigid)
      modifies this
      ensures !isDirty
      ensures Value() == Corrected(correction, old(Value()))
    {
      var baryCenterPose := GetBarycenterPose();
      barycenterPose := Compose(correction, baryCenterPose);

      var box := boundingBox;
      var minCorr := Apply(correction, box.min);
      var maxCorr := Apply(correction, box.max);
      var minRightCorr := Apply(correction, Point(box.max.x, box.min.y));
      var maxLeftCorr := Apply(correction, Point(box.min.x, box.max.y));
      var transformedBox := EMPTY_BOX;
      transformedBox := transformedBox.Add(minCorr);
      transformedBox := transformedBox.Add(maxCorr);
      transformedBox := transformedBox.Add(minRightCorr);
      transformedBox := transformedBox.Add(maxLeftCorr);
      boundingBox := transformedBox;

      var points := unfilteredPointReadings;
      for i := 0 to |points|
        invariant |points| == |unfilteredPointReadings|
        invariant forall k :: 0 <= k < i ==> points[k] == Apply(correction, unfilteredPointReadings[k])
        invariant forall k :: i <= k < |points| ==> points[k] == unfilteredPointReadings[k]
      {
        points := points[i := Apply(correction, points[i])];
      }
      assert points == AppliedAll(correction, unfilteredPointReadings);
      unfilteredPointReadings := points;

      SetCorrectedPose(Compose(correction, correctedPose));
      isDirty := false;
      odometricPose := Compose(correction, odometricPose);
    }
  }

  ghost predicate Distinct(scans: seq<LocalizedRangeScan>) {
    forall i, j :: 0 <= i < j < |scans| ==> scans[i] != scans[j]
  }

  ghost function Values(scans: seq<LocalizedRangeScan>): (values: seq<ScanValue>)
    reads scans
    ensures |values| == |scans| && forall j :: 0 <= j < |scans| ==> values[j] == scans[j].Value()
  {
    seq(|scans|, j requires 0 <= j < |scans| reads scans => scans[j].Value())
  }

  method TransformAll(scans: seq<LocalizedRangeScan>, correction: Rigid)
    requires Distinct(scans)
    modifies scans
    ensures forall j :: 0 <= j < |scans| ==> scans[j].Value() == Corrected(correction, old(scans[j].Value()))
  {
    for i := 0 to |scans|
      invariant forall j :: 0 <= j < i ==> scans[j].Value() == Corrected(correction, old(scans[j].Value()))
      invariant forall j :: i <= j < |scans| ==> scans[j].Value() == old(scans[j].Value())
    {
      scans[i].Transform(correction);
    }
  }

  /** All scans, submap after submap. */
  function Flat<T>(rows: seq<seq<T>>): seq<T>
    decreases |rows|
  {
    if rows == [] then [] else Flat(rows[..|rows| - 1]) + rows[|rows| - 1]
  }

  datatype FeedbackKind = MouseUp | PoseUpdate | OtherFeedback

  class MergeMapsKinematic {
    var scansVec: seq<seq<LocalizedRangeScan>>
    var numSubmaps: int
    var submapMarkerTransform: map<int, Rigid>
    var prevSubmapMarkerTransform: map<int, Rigid>
    var submapLocations: map<int, Point>

    // The same state as a value, with the scans as they were loaded.
    ghost var world: World

    ghost function Scans(): set<LocalizedRangeScan>
      reads this
    {
      set i, j | 0 <= i < |scansVec| && 0 <= j < |scansVec[i]| :: scansVec[i][j]
    }

    ghost predicate AllDistinct()
      reads this
    {
      && (forall i :: 0 <= i < |scansVec| ==> Distinct(scansVec[i]))
      && (forall i, j, k, l ::
            (0 <= i < k < |scansVec| && 0 <= j < |scansVec[i]| && 0 <= l < |scansVec[k]|)
            ==> scansVec[i][j] != scansVec[k][l])
    }

    ghost predicate Tracks()
      reads this
    {
      && numSubmaps == |scansVec| == world.Count()
      && world.WellFormed()
      && submapMarkerTransform == world.marker
      && prevSubmapMarkerTransform == world.prev
      && submapLocations == world.locations
    }

    ghost predicate Valid()
      reads this, Scans()
    {
      && AllDistinct() && Tracks()
      && forall i :: 0 <= i < |scansVec| ==> RowIs(i, world.submaps[i])
    }

    constructor ()
      ensures Valid() && world == START && scansVec == []
    {
      scansVec, numSubmaps := [], 0;
      submapMarkerTransform, prevSubmapMarkerTransform, submapLocations := map[], map[], map[];
      world := START;
    }

    /** A submap read from a file; None when the file could not be read. */
    method AddSubmap(scans: Option<seq<LocalizedRangeScan>>, centre: Point)
      requires Valid()
      requires scans.Some? ==> Distinct(scans.value) && forall s :: s in scans.value ==> s !in Scans()
      modifies this
      ensures Valid()
      ensures scans.None? ==> world == old(world) && scansVec == old(scansVec)
      ensures scans.Some? ==>
        && scansVec == old(scansVec) + [scans.value]
        && world == Step(old(world), Load(Values(scans.value), centre))
    {
      if scans.None? {
        return;
      }
      ghost var values := Values(scans.value);
      forall i, j, l | 0 <= i < |scansVec| && 0 <= j < |scansVec[i]| && 0 <= l < |scans.value|
        ensures scansVec[i][j] != scans.value[l]
      {
        assert scansVec[i][j] in Scans();
      }
      assert forall i :: 0 <= i < |scansVec| ==> RowIs(i, world.submaps[i]);
      scansVec := scansVec + [scans.value];
      numSubmaps := numSubmaps + 1;
      submapMarkerTransform := submapMarkerTransform[numSubmaps := IDENTITY];
      prevSubmapMarkerTransform := submapMarkerTransform;
      submapLocations := submapLocations[numSubmaps := centre];
      world := Loaded(world, values, centre);
    }

    /** Corrects one submap; distinct scans keep the others out of it. */
    method TransformSubmap(i: nat, correction: Rigid)
      requires i < |scansVec| && AllDistinct()
      modifies scansVec[i]
      ensures forall j :: 0 <= j < |scansVec[i]| ==>
        scansVec[i][j].Value() == Corrected(correction, old(scansVec[i][j].Value()))
      ensures forall k, j :: 0 <= k < |scansVec| && k != i && 0 <= j < |scansVec[k]| ==>
        scansVec[k][j].Value() == old(scansVec[k][j].Value())
    {
      TransformAll(scansVec[i], correction);
    }

    ghost predicate RowIs(i: int, values: seq<ScanValue>)
      requires 0 <= i < |scansVec|
      reads this, scansVec[i]
    {
      |values| == |scansVec[i]| && forall j :: 0 <= j < |values| ==> scansVec[i][j].Value() == values[j]
    }

    /** Rows before i hold the first values, the others the second. */
    ghost predicate RowsAre(i: int, done: seq<seq<ScanValue>>, ahead: seq<seq<ScanValue>>)
      requires |done| == |ahead| == |scansVec|
      reads this, Scans()
    {
      forall k :: 0 <= k < |scansVec| ==> RowIs(k, if k < i then done[k] else ahead[k])
    }

    /** Corrects submap i and with it one more row. */
    method MergeSubmap(i: nat, ghost done: seq<seq<ScanValue>>, ghost ahead: seq<seq<ScanValue>>, correction: Rigid)
      requires i < |scansVec| == |done| == |ahead| && AllDistinct()
      requires RowsAre(i, done, ahead) && done[i] == CorrectedAll(correction, ahead[i])
      modifies scansVec[i]
      ensures RowsAre(i + 1, done, ahead)
    {
      assert RowIs(i, ahead[i]);
      TransformSubmap(i, correction);
      forall k | 0 <= k < |scansVec|
        ensures RowIs(k, if k < i + 1 then done[k] else ahead[k])
      {
        if k != i {
          assert old(RowIs(k, if k < i then done[k] else ahead[k]));
        }
      }
    }

    /** Corrects every submap by what its marker moved; the scans are returned in map order. */
    method TransformScans(ghost goal: World) returns (transformed: seq<LocalizedRangeScan>)
      requires AllDistinct() && Tracks() && goal == Merged(world) && RowsAre(0, goal.submaps, world.submaps)
      modifies Scans()
      ensures RowsAre(|scansVec|, goal.submaps, world.submaps) && transformed == Flat(scansVec)
    {
      transformed := [];
      for i := 0 to |scansVec|
        invariant transformed == Flat(scansVec[..i])
        invariant RowsAre(i, goal.submaps, world.submaps)
      {
        var id := i + 1;
        var submapCorrection := Compose(submapMarkerTransform[id], Inverse(prevSubmapMarkerTransform[id]));
        assert submapCorrection == Correction(world, i + 1);
        assert goal.submaps[i] == CorrectedAll(submapCorrection, world.submaps[i]);
        assert forall j :: 0 <= j < |scansVec[i]| ==> scansVec[i][j] in Scans();
        MergeSubmap(i, goal.submaps, world.submaps, submapCorrection);
        transformed := transformed + scansVec[i];
        assert scansVec[..i + 1][..i] == scansVec[..i];
      }
      assert scansVec[..|scansVec|] == scansVec;
    }

    /** Returns the scans in the order in which they go into the merged map. */
    method MergeMap() returns (transformed: seq<LocalizedRangeScan>)
      requires Valid()
      modifies this, Scans()
      ensures Valid() && world == Step(old(world), MergeRequest)
      ensures scansVec == old(scansVec) && transformed == Flat(scansVec)
    {
      ghost var goal := Merged(world);
      transformed := TransformScans(goal);
      prevSubmapMarkerTransform := submapMarkerTransform;
      label merged:
      world := goal;
      forall i | 0 <= i < |scansVec|
        ensures RowIs(i, world.submaps[i])
      {
        assert old@merged(RowIs(i, goal.submaps[i]));
      }
    }

    /** Feedback for a marker; returns the frame that is broadcast, if any. */
    method ProcessInteractiveFeedback(id: int, pose: Rigid, kind: FeedbackKind, mousePointValid: bool)
      returns (frame: Option<Rigid>)
      requires Valid() && 1 <= id <= numSubmaps && pose.Proper()
      modifies this, Scans()
      ensures Valid() && scansVec == old(scansVec)
      ensures world == Step(old(world), Feedback(id, pose, kind == MouseUp && mousePointValid))
      ensures frame == if (kind == MouseUp && mousePointValid) || kind == PoseUpdate then Some(pose) else None
    {
      frame := None;
      if kind == MouseUp && mousePointValid {
        submapLocations := submapLocations[id := Point(pose.x, pose.y)];
        frame := Some(pose);
        submapMarkerTransform := submapMarkerTransform[id := pose];
        world := Released(world, id, pose);
      }
      if kind == PoseUpdate {
        frame := Some(pose);
      }
      var _ := MergeMap();
    }
  }
}
