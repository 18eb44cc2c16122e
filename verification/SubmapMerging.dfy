/** Where scans end up when submaps are dragged about and merged, as a state machine over its callbacks. */
module SubmapMerging {
  import opened Plane
  import opened Boxes
  import opened PlanarTransforms

  datatype ScanValue = ScanValue(
    barycenter: Rigid,
    corrected: Rigid,
    odometric: Rigid,
    unfiltered: seq<Point>,
    filtered: seq<Point>,
    box: Box)

  function AppliedAll(a: Rigid, points: seq<Point>): seq<Point> {
    seq(|points|, i requires 0 <= i < |points| => Apply(a, points[i]))
  }

  /** One correction of a scan. The filtered points are left as they are. */
  function Corrected(a: Rigid, v: ScanValue): ScanValue {
    ScanValue(Compose(a, v.barycenter), Compose(a, v.corrected), Compose(a, v.odometric),
              AppliedAll(a, v.unfiltered), v.filtered, TransformedBox(a, v.box))
  }

  datatype World = World(
    submaps: seq<seq<ScanValue>>,
    originals: seq<seq<ScanValue>>,
    marker: map<int, Rigid>,
    prev: map<int, Rigid>,
    locations: map<int, Point>)
  {
    function Count(): nat { |submaps| }

    /** Every submap has its two transforms; submaps are numbered from one. */
    ghost predicate WellFormed() {
      && |originals| == |submaps|
      && (forall i :: 0 <= i < |submaps| ==> |originals[i]| == |submaps[i]|)
      && (forall id :: 1 <= id <= |submaps| ==> id in marker && id in prev)
    }
  }

  const START := World([], [], map[], map[], map[])

  datatype Event =
    | Load(scans: seq<ScanValue>, centre: Point)
    | FailedLoad
    | Feedback(id: int, pose: Rigid, released: bool)
    | MergeRequest

  ghost predicate Allowed(w: World, e: Event) {
    e.Feedback? ==> 1 <= e.id <= w.Count() && e.pose.Proper()
  }

  function Correction(w: World, id: int): Rigid
    requires id in w.marker && id in w.prev
  {
    Compose(w.marker[id], Inverse(w.prev[id]))
  }

  function CorrectedAll(a: Rigid, scans: seq<ScanValue>): seq<ScanValue> {
    seq(|scans|, j requires 0 <= j < |scans| => Corrected(a, scans[j]))
  }

  ghost function Merged(w: World): World
    requires w.WellFormed()
  {
    w.(submaps := seq(w.Count(), i requires 0 <= i < w.Count() => CorrectedAll(Correction(w, i + 1), w.submaps[i])),
       prev := w.marker)
  }

  function Loaded(w: World, scans: seq<ScanValue>, centre: Point): World {
    var id := w.Count() + 1;
    var marker := w.marker[id := IDENTITY];
    World(w.submaps + [scans], w.originals + [scans], marker, marker, w.locations[id := centre])
  }

  function Released(w: World, id: int, pose: Rigid): World {
    w.(marker := w.marker[id := pose], locations := w.locations[id := Point(pose.x, pose.y)])
  }

  ghost function Step(w: World, e: Event): World
    requires w.WellFormed() && Allowed(w, e)
  {
    match e
    case Load(scans, centre) => Loaded(w, scans, centre)
    case FailedLoad => w
    case Feedback(id, pose, released) => Merged(if released then Released(w, id, pose) else w)
    case MergeRequest => Merged(w)
  }

  // ----- The invariant -----------------------------------------------------------------

  /** The scan is the original one moved by a; a point the box held originally is still in the box. */
  ghost predicate Placed(a: Rigid, original: ScanValue, v: ScanValue) {
    && v.barycenter == Compose(a, original.barycenter)
    && v.corrected == Compose(a, original.corrected)
    && v.odometric == Compose(a, original.odometric)
    && v.filtered == original.filtered
    && v.unfiltered == AppliedAll(a, original.unfiltered)
    && forall k :: 0 <= k < |original.unfiltered| && original.box.Contains(original.unfiltered[k])
         ==> v.box.Contains(v.unfiltered[k])
  }

  ghost predicate AllPlaced(a: Rigid, originals: seq<ScanValue>, scans: seq<ScanValue>) {
    |originals| == |scans| && forall j :: 0 <= j < |scans| ==> Placed(a, originals[j], scans[j])
  }

  ghost predicate Inv(w: World) {
    && w.WellFormed()
    && w.prev == w.marker
    && forall id :: 1 <= id <= w.Count() ==>
         && w.marker[id].Proper()
         && AllPlaced(w.marker[id], w.originals[id - 1], w.submaps[id - 1])
  }

  lemma PlacedAtIdentity(v: ScanValue)
    ensures Placed(IDENTITY, v, v)
  {
    ComposeIdentity(v.barycenter);
    ComposeIdentity(v.corrected);
    ComposeIdentity(v.odometric);
    forall k | 0 <= k < |v.unfiltered|
      ensures Apply(IDENTITY, v.unfiltered[k]) == v.unfiltered[k]
    {
      ApplyIdentity(v.unfiltered[k]);
    }
    assert AppliedAll(IDENTITY, v.unfiltered) == v.unfiltered;
  }

  /** The correction from one marker pose to the next moves a placed scan to where the next marker puts it. */
  lemma CorrectionReplaces(next: Rigid, prev: Rigid, original: ScanValue, v: ScanValue)
    requires prev.Proper() && Placed(prev, original, v)
    ensures Placed(next, original, Corrected(Compose(next, Inverse(prev)), v))
  {
    var a := Compose(next, Inverse(prev));
    var moved := Corrected(a, v);
    CorrectionsTelescope(next, prev, original.barycenter);
    CorrectionsTelescope(next, prev, original.corrected);
    CorrectionsTelescope(next, prev, original.odometric);
    forall k | 0 <= k < |original.unfiltered|
      ensures moved.unfiltered[k] == Apply(next, original.unfiltered[k])
      ensures original.box.Contains(original.unfiltered[k]) ==> moved.box.Contains(moved.unfiltered[k])
    {
      PointsTelescope(next, prev, original.unfiltered[k]);
      assert v.unfiltered[k] == Apply(prev, original.unfiltered[k]);
      if original.box.Contains(original.unfiltered[k]) {
        TransformedBoxContains(a, v.box, v.unfiltered[k]);
      }
    }
    assert moved.unfiltered == AppliedAll(next, original.unfiltered);
  }

  /** Before a merge: the scans still stand where the previous markers put them. */
  ghost predicate Pending(w: World) {
    && w.WellFormed()
    && forall id :: 1 <= id <= w.Count() ==>
         && w.marker[id].Proper() && w.prev[id].Proper()
         && AllPlaced(w.prev[id], w.originals[id - 1], w.submaps[id - 1])
  }

  lemma MergeRestores(w: World)
    requires Pending(w)
    ensures Inv(Merged(w))
  {
    var after := Merged(w);
    forall id | 1 <= id <= w.Count()
      ensures AllPlaced(after.marker[id], after.originals[id - 1], after.submaps[id - 1])
    {
      var originals, scans, moved := w.originals[id - 1], w.submaps[id - 1], after.submaps[id - 1];
      assert moved == CorrectedAll(Correction(w, id), scans);
      forall j | 0 <= j < |scans|
        ensures Placed(after.marker[id], originals[j], moved[j])
      {
        CorrectionReplaces(w.marker[id], w.prev[id], originals[j], scans[j]);
      }
    }
  }

  lemma LoadKeepsInv(w: World, scans: seq<ScanValue>, centre: Point)
    requires Inv(w)
    ensures Inv(Loaded(w, scans, centre))
  {
    forall j | 0 <= j < |scans|
      ensures Placed(IDENTITY, scans[j], scans[j])
    {
      PlacedAtIdentity(scans[j]);
    }
  }

  /** Every callback leaves every scan exactly where its marker says. */
  lemma StepKeepsInv(w: World, e: Event)
    requires Inv(w) && Allowed(w, e)
    ensures Inv(Step(w, e))
  {
    match e
    case Load(scans, centre) => LoadKeepsInv(w, scans, centre);
    case FailedLoad =>
    case Feedback(id, pose, released) => MergeRestores(if released then Released(w, id, pose) else w);
    case MergeRequest => MergeRestores(w);
  }

  // ----- Runs --------------------------------------------------------------------------

  ghost predicate IsRun(worlds: seq<World>, events: seq<Event>) {
    && |worlds| == |events| + 1
    && worlds[0] == START
    && forall k :: 0 <= k < |events| ==>
         worlds[k].WellFormed() && Allowed(worlds[k], events[k]) && worlds[k + 1] == Step(worlds[k], events[k])
  }

  lemma {:induction false} InvariantOverRuns(worlds: seq<World>, events: seq<Event>, k: nat)
    requires IsRun(worlds, events) && k <= |events|
    ensures Inv(worlds[k])
  {
    if k > 0 {
      InvariantOverRuns(worlds, events, k - 1);
      StepKeepsInv(worlds[k - 1], events[k - 1]);
      assert worlds[k - 1 + 1] == Step(worlds[k - 1], events[k - 1]);
    }
  }

  /** The pose at which submap id was last let go; the identity when it never was. */
  function LastRelease(events: seq<Event>, id: int): Rigid
    decreases |events|
  {
    if events == [] then IDENTITY
    else
      var e := events[|events| - 1];
      if e.Feedback? && e.released && e.id == id then e.pose else LastRelease(events[..|events| - 1], id)
  }

  lemma {:induction false} MarkerIsLastRelease(worlds: seq<World>, events: seq<Event>, k: nat, id: int)
    requires IsRun(worlds, events) && k <= |events|
    requires worlds[k].WellFormed() && 1 <= id <= worlds[k].Count()
    ensures worlds[k].marker[id] == LastRelease(events[..k], id)
  {
    if k > 0 {
      var w, e := worlds[k - 1], events[k - 1];
      assert worlds[k - 1 + 1] == Step(w, e);
      assert events[..k][..k - 1] == events[..k - 1];
      if id <= w.Count() {
        MarkerIsLastRelease(worlds, events, k - 1, id);
      } else {
        assert e.Load?;
        NotReleasedYet(worlds, events, k - 1, id);
      }
    }
  }

  lemma {:induction false} NotReleasedYet(worlds: seq<World>, events: seq<Event>, k: nat, id: int)
    requires IsRun(worlds, events) && k <= |events|
    requires id > worlds[k].Count()
    ensures LastRelease(events[..k], id) == IDENTITY
  {
    if k > 0 {
      assert worlds[k - 1 + 1] == Step(worlds[k - 1], events[k - 1]);
      assert events[..k][..k - 1] == events[..k - 1];
      NotReleasedYet(worlds, events, k - 1, id);
    }
  }

  function LoadCount(events: seq<Event>): nat
    decreases |events|
  {
    if events == [] then 0
    else LoadCount(events[..|events| - 1]) + if events[|events| - 1].Load? then 1 else 0
  }

  /** Where submap id was last let go, or else the centre of its map when it was loaded. */
  function LastPlace(events: seq<Event>, id: int): Point
    decreases |events|
  {
    if events == [] then Point(0.0, 0.0)
    else
      var e := events[|events| - 1];
      if e.Feedback? && e.released && e.id == id then Point(e.pose.x, e.pose.y)
      else if e.Load? && LoadCount(events) == id then e.centre
      else LastPlace(events[..|events| - 1], id)
  }

  /** After every run each submap has the place it was last given, and there are as many as were loaded. */
  lemma {:induction false} LocationIsLastPlace(worlds: seq<World>, events: seq<Event>, k: nat)
    requires IsRun(worlds, events) && k <= |events|
    ensures worlds[k].Count() == LoadCount(events[..k])
    ensures forall id :: 1 <= id <= worlds[k].Count() ==>
      id in worlds[k].locations && worlds[k].locations[id] == LastPlace(events[..k], id)
  {
    if k > 0 {
      LocationIsLastPlace(worlds, events, k - 1);
      assert worlds[k - 1 + 1] == Step(worlds[k - 1], events[k - 1]);
      assert events[..k][..k - 1] == events[..k - 1];
    }
  }

  /** However a submap was dragged about, its scans stand at the last release pose applied to the originals. */
  lemma LastReleaseDecides(worlds: seq<World>, events: seq<Event>, id: int)
    requires IsRun(worlds, events)
    ensures var w := worlds[|events|];
      && w.WellFormed()
      && (1 <= id <= w.Count() ==> AllPlaced(LastRelease(events, id), w.originals[id - 1], w.submaps[id - 1]))
  {
    InvariantOverRuns(worlds, events, |events|);
    if 1 <= id <= worlds[|events|].Count() {
      MarkerIsLastRelease(worlds, events, |events|, id);
      assert events[..|events|] == events;
    }
  }

  /** Dragging never bends a submap: distances between any two of its points are the original ones. */
  lemma SubmapsStayRigid(w: World, id: int, j: nat, k: nat, m: nat, n: nat)
    requires Inv(w) && 1 <= id <= w.Count()
    requires j < |w.submaps[id - 1]| && k < |w.submaps[id - 1]|
    requires m < |w.originals[id - 1][j].unfiltered| && n < |w.originals[id - 1][k].unfiltered|
    ensures |w.submaps[id - 1][j].unfiltered| == |w.originals[id - 1][j].unfiltered|
    ensures |w.submaps[id - 1][k].unfiltered| == |w.originals[id - 1][k].unfiltered|
    ensures SquaredDistance(w.submaps[id - 1][j].unfiltered[m], w.submaps[id - 1][k].unfiltered[n])
         == SquaredDistance(w.originals[id - 1][j].unfiltered[m], w.originals[id - 1][k].unfiltered[n])
  {
    var a := w.marker[id];
    assert Placed(a, w.originals[id - 1][j], w.submaps[id - 1][j]);
    assert Placed(a, w.originals[id - 1][k], w.submaps[id - 1][k]);
    ApplyKeepsDistance(a, w.originals[id - 1][j].unfiltered[m], w.originals[id - 1][k].unfiltered[n]);
  }

  ghost predicate SamePlaces(v: ScanValue, u: ScanValue) {
    && v.barycenter == u.barycenter && v.corrected == u.corrected && v.odometric == u.odometric
    && v.unfiltered == u.unfiltered && v.filtered == u.filtered
    && (Usual(v.box) ==> u.box == v.box)
  }

  /** Without a release a callback moves nothing. */
  lemma RestingCallbacksMoveNothing(w: World, e: Event, i: nat, j: nat)
    requires Inv(w) && Allowed(w, e) && (e.Feedback? ==> !e.released)
    requires i < w.Count() && j < |w.submaps[i]|
    ensures i < Step(w, e).Count() && j < |Step(w, e).submaps[i]|
    ensures SamePlaces(w.submaps[i][j], Step(w, e).submaps[i][j])
  {
    var v := w.submaps[i][j];
    if e.Feedback? || e.MergeRequest? {
      assert 1 <= i + 1 <= w.Count() && w.marker[i + 1].Proper();
      InverseCancels(w.marker[i + 1]);
      assert Correction(w, i + 1) == IDENTITY;
      PlacedAtIdentity(v);
      if Usual(v.box) {
        IdentityKeepsBox(v.box);
      }
    }
  }

  /** A release moves the other submaps not at all. */
  lemma ReleaseMovesOneSubmap(w: World, id: int, pose: Rigid, i: nat, j: nat)
    requires Inv(w) && 1 <= id <= w.Count() && pose.Proper()
    requires i < w.Count() && i + 1 != id && j < |w.submaps[i]|
    ensures var after := Step(w, Feedback(id, pose, true));
      i < after.Count() && j < |after.submaps[i]| && SamePlaces(w.submaps[i][j], after.submaps[i][j])
  {
    var v := w.submaps[i][j];
    assert 1 <= i + 1 <= w.Count() && w.marker[i + 1].Proper();
    InverseCancels(w.marker[i + 1]);
    assert Correction(Released(w, id, pose), i + 1) == IDENTITY;
    PlacedAtIdentity(v);
    if Usual(v.box) {
      IdentityKeepsBox(v.box);
    }
  }

  lemma ReleasedScan(w: World, id: int, pose: Rigid, j: nat)
    requires Inv(w) && 1 <= id <= w.Count() && pose.Proper() && j < |w.submaps[id - 1]|
    ensures var after := Step(w, Feedback(id, pose, true));
      && id - 1 < after.Count() && j < |after.submaps[id - 1]|
      && Placed(pose, w.originals[id - 1][j], after.submaps[id - 1][j])
  {
    var e := Feedback(id, pose, true);
    StepKeepsInv(w, e);
    var after := Step(w, e);
    assert after.marker[id] == pose;
    assert AllPlaced(after.marker[id], after.originals[id - 1], after.submaps[id - 1]);
  }

  lemma FirstRelease(w: World, loaded: World, scans: seq<ScanValue>, centre: Point, j: nat)
    requires Inv(loaded) && loaded.Count() == w.Count() + 1
    requires loaded.submaps[w.Count()] == scans && loaded.originals[w.Count()] == scans
    requires j < |scans| && scans[j].corrected.Proper()
    ensures var after := Step(loaded, Feedback(loaded.Count(), Rigid(1.0, 0.0, centre.x, centre.y), true));
      && w.Count() < after.Count() && j < |after.submaps[w.Count()]|
      && (after.submaps[w.Count()][j].corrected == scans[j].corrected <==> centre == Point(0.0, 0.0))
  {
    var shown := Rigid(1.0, 0.0, centre.x, centre.y);
    ReleasedScan(loaded, loaded.Count(), shown, j);
    FixesPoseIffIdentity(shown, scans[j].corrected);
  }

  /**
    A new submap's marker is drawn at the map's centre while its transform is the identity. Letting it go
    without moving it leaves its scans in place only when that centre is the origin.
  */
  lemma FirstReleaseInPlace(w: World, scans: seq<ScanValue>, centre: Point, j: nat)
    requires Inv(w) && j < |scans| && scans[j].corrected.Proper()
    ensures var loaded := Loaded(w, scans, centre);
      && Inv(loaded)
      && var after := Step(loaded, Feedback(loaded.Count(), Rigid(1.0, 0.0, centre.x, centre.y), true));
      && w.Count() < after.Count() && j < |after.submaps[w.Count()]|
      && (after.submaps[w.Count()][j].corrected == scans[j].corrected <==> centre == Point(0.0, 0.0))
  {
    LoadKeepsInv(w, scans, centre);
    FirstRelease(w, Loaded(w, scans, centre), scans, centre, j);
  }

  /** The filtered points never follow: they stay where the scan was first loaded. */
  lemma FilteredPointsStay(worlds: seq<World>, events: seq<Event>, i: nat, j: nat)
    requires IsRun(worlds, events)
    ensures var w := worlds[|events|];
      w.WellFormed() && (i < w.Count() && j < |w.submaps[i]| ==> w.submaps[i][j].filtered == w.originals[i][j].filtered)
  {
    InvariantOverRuns(worlds, events, |events|);
    var w := worlds[|events|];
    if i < w.Count() && j < |w.submaps[i]| {
      assert AllPlaced(w.marker[i + 1], w.originals[i + 1 - 1], w.submaps[i + 1 - 1]);
      assert Placed(w.marker[i + 1], w.originals[i][j], w.submaps[i][j]);
    }
  }

  /**
    Filtered points are where the last release puts the originals only if there was nothing to move: as soon
    as a scan has two different filtered points, exactly when the submap was last let go at the identity.
  */
  lemma FilteredPointsFollowExactly(worlds: seq<World>, events: seq<Event>, i: nat, j: nat, m: nat, n: nat)
    requires IsRun(worlds, events)
    requires var w := worlds[|events|];
      && i < w.Count() && j < |w.submaps[i]| && |w.originals| == |w.submaps| && j < |w.originals[i]|
      && m < |w.originals[i][j].filtered| && n < |w.originals[i][j].filtered|
      && w.originals[i][j].filtered[m] != w.originals[i][j].filtered[n]
    ensures var w, last := worlds[|events|], LastRelease(events, i + 1);
      w.submaps[i][j].filtered == AppliedAll(last, w.originals[i][j].filtered) <==> last == IDENTITY
  {
    var w, last := worlds[|events|], LastRelease(events, i + 1);
    var points := w.originals[i][j].filtered;
    FilteredPointsStay(worlds, events, i, j);
    if points == AppliedAll(last, points) {
      assert Apply(last, points[m]) == points[m] && Apply(last, points[n]) == points[n];
      FixesTwoPoints(last, points[m], points[n]);
    }
    if last == IDENTITY {
      forall k | 0 <= k < |points|
        ensures Apply(IDENTITY, points[k]) == points[k]
      {
        ApplyIdentity(points[k]);
      }
    }
  }
}
