/**
  The waypoint file: one record per waypoint, read with validation, written in a
  canonical form, and extended one pose at a time.

  A YAML file is modelled by the value its text denotes; no file is None. Turning text
  scalars into numbers is left to the two parsers in Parsers.
*/
module WaypointFormat {
  import opened Wrappers

  datatype Waypoint = Waypoint(
    number: int,
    x: real,
    y: real,
    angleRadians: real,
    threshold: real,
    stop: bool,
    waitTime: real)

  datatype Yaml =
    | Null
    | Bool(b: bool)
    | Int(i: int)
    | Real(r: real)
    | Text(s: string)
    | List(items: seq<Yaml>)
    | Mapping(entries: map<string, Yaml>)

  datatype Error =
    | FileNotFound
    | NotAWaypointList
    | EmptyList
    | NotAMapping(index: nat)
    | MissingField(index: nat)
    | Unsupported(index: nat)
    | InvalidValue(index: nat)
    | NegativeWait(index: nat)

  datatype Parsers = Parsers(parseInt: string -> Option<int>, parseFloat: string -> Option<real>)

  datatype Pose = Pose(x: real, y: real, yaw: real)

  // ----- Python's scalar conversions ---------------------------------------------------

  function Truncate(r: real): int {
    if r >= 0.0 then r.Floor else -((-r).Floor)
  }

  function ToInt(v: Yaml, p: Parsers): Option<int> {
    match v
    case Bool(b) => Some(if b then 1 else 0)
    case Int(i) => Some(i)
    case Real(r) => Some(Truncate(r))
    case Text(s) => p.parseInt(s)
    case _ => None
  }

  function ToFloat(v: Yaml, p: Parsers): Option<real> {
    match v
    case Bool(b) => Some(if b then 1.0 else 0.0)
    case Int(i) => Some(i as real)
    case Real(r) => Some(r)
    case Text(s) => p.parseFloat(s)
    case _ => None
  }

  predicate Truthy(v: Yaml) {
    match v
    case Null => false
    case Bool(b) => b
    case Int(i) => i != 0
    case Real(r) => r != 0.0
    case Text(s) => s != ""
    case List(items) => items != []
    case Mapping(entries) => |entries| != 0
  }

  /** A value Python finds in (None, '', 0, 0.0); False equals 0 there. */
  predicate Blank(v: Yaml) {
    v == Null || v == Text("") || v == Int(0) || v == Real(0.0) || v == Bool(false)
  }

  function Get(entries: map<string, Yaml>, key: string, default: Yaml): Yaml {
    if key in entries then entries[key] else default
  }

  // ----- Reading -----------------------------------------------------------------------

  function AsWaypoint(raw: Yaml, index: nat, p: Parsers): Result<Waypoint, Error> {
    if !raw.Mapping? then
      Err(NotAMapping(index))
    else if "x" !in raw.entries || "y" !in raw.entries || "angle_radians" !in raw.entries then
      Err(MissingField(index))
    else if !Blank(Get(raw.entries, "change_map", Null)) || !Blank(Get(raw.entries, "rotate", Null)) then
      Err(Unsupported(index))
    else
      var number := ToInt(Get(raw.entries, "number", Int(index + 1)), p);
      var x := ToFloat(raw.entries["x"], p);
      var y := ToFloat(raw.entries["y"], p);
      var angle := ToFloat(raw.entries["angle_radians"], p);
      var threshold := ToFloat(Get(raw.entries, "threshold", Real(-1.0)), p);
      var stop := Truthy(Get(raw.entries, "stop", Bool(false)));
      var waitTime := ToFloat(Get(raw.entries, "wait_time", Real(0.0)), p);
      if number.None? || x.None? || y.None? || angle.None? || threshold.None? || waitTime.None? then
        Err(InvalidValue(index))
      else if waitTime.value < 0.0 then
        Err(NegativeWait(index))
      else
        Ok(Waypoint(number.value, x.value, y.value, angle.value, threshold.value, stop, waitTime.value))
  }

  /** The records from position index on; the first faulty one decides. */
  function AsWaypoints(items: seq<Yaml>, index: nat, p: Parsers): Result<seq<Waypoint>, Error> {
    if items == [] then
      Ok([])
    else
      match AsWaypoint(items[0], index, p)
      case Err(e) => Err(e)
      case Ok(w) =>
        match AsWaypoints(items[1..], index + 1, p)
        case Err(e) => Err(e)
        case Ok(rest) => Ok([w] + rest)
  }

  function Load(file: Option<Yaml>, p: Parsers): Result<seq<Waypoint>, Error> {
    if file.None? then
      Err(FileNotFound)
    else if !file.value.Mapping? || !Get(file.value.entries, "waypoints", Null).List? then
      Err(NotAWaypointList)
    else
      var waypoints := AsWaypoints(file.value.entries["waypoints"].items, 0, p);
      if waypoints == Ok([]) then Err(EmptyList) else waypoints
  }

  // ----- Writing -----------------------------------------------------------------------

  function Optional(used: bool, key: string, value: Yaml): map<string, Yaml> {
    if used then map[key := value] else map[]
  }

  function Required(w: Waypoint): map<string, Yaml> {
    map["number" := Int(w.number), "x" := Real(w.x), "y" := Real(w.y), "angle_radians" := Real(w.angleRadians)]
  }

  /** A waypoint's record with some of the optional fields. */
  function Selected(w: Waypoint, threshold: bool, stop: bool, waitTime: bool): map<string, Yaml> {
    Required(w)
    + Optional(threshold, "threshold", Real(w.threshold))
    + Optional(stop, "stop", Bool(w.stop))
    + Optional(waitTime, "wait_time", Real(w.waitTime))
  }

  /** The record printed for a waypoint: optional fields appear only when used. */
  function Printed(w: Waypoint): map<string, Yaml> {
    Selected(w, w.threshold >= 0.0, w.stop, w.waitTime > 0.0)
  }

  lemma PopFromSum(a: map<string, Yaml>, b: map<string, Yaml>, key: string)
    ensures (a + b) - {key} == (a - {key}) + (b - {key})
  {
  }

  lemma PopOptional(used: bool, other: string, value: Yaml, key: string)
    ensures Optional(used, other, value) - {key} == Optional(used && other != key, other, value)
  {
  }

  lemma PopRequired(w: Waypoint, key: string)
    requires key == "threshold" || key == "stop" || key == "wait_time"
    ensures Required(w) - {key} == Required(w)
  {
  }

  lemma Popped(w: Waypoint, threshold: bool, stop: bool, waitTime: bool, key: string)
    requires key == "threshold" || key == "stop" || key == "wait_time"
    ensures Selected(w, threshold, stop, waitTime) - {key}
         == Selected(w, threshold && "threshold" != key, stop && "stop" != key, waitTime && "wait_time" != key)
  {
    var t := Optional(threshold, "threshold", Real(w.threshold));
    var s := Optional(stop, "stop", Bool(w.stop));
    PopFromSum(Required(w) + t + s, Optional(waitTime, "wait_time", Real(w.waitTime)), key);
    PopFromSum(Required(w) + t, s, key);
    PopFromSum(Required(w), t, key);
    PopRequired(w, key);
    PopOptional(threshold, "threshold", Real(w.threshold), key);
    PopOptional(stop, "stop", Bool(w.stop), key);
    PopOptional(waitTime, "wait_time", Real(w.waitTime), key);
  }

  lemma FullRecord(w: Waypoint)
    ensures map["number" := Int(w.number), "x" := Real(w.x), "y" := Real(w.y),
                "angle_radians" := Real(w.angleRadians), "threshold" := Real(w.threshold),
                "stop" := Bool(w.stop), "wait_time" := Real(w.waitTime)]
         == Selected(w, true, true, true)
  {
  }

  /** Build the full record, then pop the unused optional fields. */
  method WaypointToDict(w: Waypoint) returns (result: map<string, Yaml>)
    ensures result == Printed(w)
  {
    result := map[
      "number" := Int(w.number), "x" := Real(w.x), "y" := Real(w.y),
      "angle_radians" := Real(w.angleRadians), "threshold" := Real(w.threshold),
      "stop" := Bool(w.stop), "wait_time" := Real(w.waitTime)];
    FullRecord(w);
    Popped(w, true, true, true, "threshold");
    if w.threshold < 0.0 {
      result := result - {"threshold"};
    }
    Popped(w, w.threshold >= 0.0, true, true, "stop");
    if !w.stop {
      result := result - {"stop"};
    }
    Popped(w, w.threshold >= 0.0, w.stop, true, "wait_time");
    if w.waitTime <= 0.0 {
      result := result - {"wait_time"};
    }
  }

  function Records(waypoints: seq<Waypoint>): seq<Yaml> {
    seq(|waypoints|, i requires 0 <= i < |waypoints| => Mapping(Printed(waypoints[i])))
  }

  function Document(waypoints: seq<Waypoint>): Yaml {
    Mapping(map["format_version" := Text("1.0"), "waypoints" := List(Records(waypoints))])
  }

  /** What survives a trip through the file. */
  function Canonical(w: Waypoint): Waypoint {
    w.(threshold := if w.threshold < 0.0 then -1.0 else w.threshold,
       waitTime := if w.waitTime < 0.0 then 0.0 else w.waitTime)
  }

  function Canonicals(waypoints: seq<Waypoint>): seq<Waypoint> {
    seq(|waypoints|, i requires 0 <= i < |waypoints| => Canonical(waypoints[i]))
  }

  // ----- The stored file ---------------------------------------------------------------

  class WaypointFile {
    var content: Option<Yaml>

    constructor (content: Option<Yaml>)
      ensures this.content == content
    {
      this.content := content;
    }

    /** Replace the whole file. */
    method WriteWaypoints(waypoints: seq<Waypoint>)
      modifies this
      ensures content == Some(Document(waypoints))
    {
      var records: seq<Yaml> := [];
      for i := 0 to |waypoints|
        invariant records == Records(waypoints[..i])
      {
        var record := WaypointToDict(waypoints[i]);
        records := records + [Mapping(record)];
      }
      assert waypoints[..|waypoints|] == waypoints;
      content := Some(Mapping(map["format_version" := Text("1.0"), "waypoints" := List(records)]));
    }

    method AppendWaypoint(pose: Pose, p: Parsers) returns (r: Result<Waypoint, Error>)
      modifies this
      ensures (content, r) == Append(old(content), pose, p)
    {
      var existing: seq<Waypoint> := [];
      if content.Some? {
        var loaded := Load(content, p);
        if loaded.Err? {
          return Err(loaded.error);
        }
        existing := loaded.value;
      }
      var number := if existing != [] then existing[|existing| - 1].number + 1 else 1;
      var waypoint := Recorded(number, pose);
      WriteWaypoints(existing + [waypoint]);
      return Ok(waypoint);
    }
  }

  function Recorded(number: int, pose: Pose): Waypoint {
    Waypoint(number, pose.x, pose.y, pose.yaw, -1.0, false, 0.0)
  }

  function Existing(file: Option<Yaml>, p: Parsers): seq<Waypoint> {
    if file.Some? && Load(file, p).Ok? then Load(file, p).value else []
  }

  function NextNumber(existing: seq<Waypoint>): int {
    if existing != [] then existing[|existing| - 1].number + 1 else 1
  }

  /** The file and the result after appending one pose; an unreadable file is left alone. */
  function Append(file: Option<Yaml>, pose: Pose, p: Parsers): (Option<Yaml>, Result<Waypoint, Error>) {
    if file.Some? && Load(file, p).Err? then
      (file, Err(Load(file, p).error))
    else
      var existing := Existing(file, p);
      var waypoint := Recorded(NextNumber(existing), pose);
      (Some(Document(existing + [waypoint])), Ok(waypoint))
  }

  /** The file after appending every pose in turn. */
  function AppendAll(file: Option<Yaml>, poses: seq<Pose>, p: Parsers): Option<Yaml>
    decreases |poses|
  {
    if poses == [] then file else AppendAll(Append(file, poses[0], p).0, poses[1..], p)
  }

  function RecordedFrom(first: int, poses: seq<Pose>): seq<Waypoint> {
    seq(|poses|, i requires 0 <= i < |poses| => Recorded(first + i, poses[i]))
  }

  // ----- Round trips -------------------------------------------------------------------

  lemma PrintedFields(w: Waypoint)
    ensures forall k :: k in Printed(w) ==>
      k in {"number", "x", "y", "angle_radians", "threshold", "stop", "wait_time"}
    ensures Get(Printed(w), "number", Null) == Int(w.number)
    ensures Get(Printed(w), "x", Null) == Real(w.x)
    ensures Get(Printed(w), "y", Null) == Real(w.y)
    ensures Get(Printed(w), "angle_radians", Null) == Real(w.angleRadians)
    ensures "threshold" in Printed(w) <==> w.threshold >= 0.0
    ensures "stop" in Printed(w) <==> w.stop
    ensures "wait_time" in Printed(w) <==> w.waitTime > 0.0
    ensures Get(Printed(w), "threshold", Real(-1.0)) == Real(Canonical(w).threshold)
    ensures Get(Printed(w), "stop", Bool(false)) == Bool(w.stop)
    ensures Get(Printed(w), "wait_time", Real(0.0)) == Real(Canonical(w).waitTime)
  {
    var base := Required(w);
    assert base.Keys == {"number", "x", "y", "angle_radians"};
    var all := {"number", "x", "y", "angle_radians", "threshold", "stop", "wait_time"};
    assert Printed(w).Keys <= all;
    assert "threshold" !in base && "stop" !in base && "wait_time" !in base;
  }

  /** The file is of version 1.0 and lists one record for each waypoint. */
  lemma DocumentShape(waypoints: seq<Waypoint>)
    ensures var document := Document(waypoints);
      && document.Mapping? && document.entries.Keys == {"format_version", "waypoints"}
      && document.entries["format_version"] == Text("1.0")
      && document.entries["waypoints"].List? && |document.entries["waypoints"].items| == |waypoints|
  {
  }

  /** A printed record reads back as the canonical waypoint, wherever it stands in the list. */
  lemma RecordRoundTrip(w: Waypoint, index: nat, p: Parsers)
    ensures AsWaypoint(Mapping(Printed(w)), index, p) == Ok(Canonical(w))
  {
    PrintedFields(w);
    assert "change_map" !in Printed(w) && "rotate" !in Printed(w);
  }

  predicate ReadsAs(items: seq<Yaml>, index: nat, p: Parsers, waypoints: seq<Waypoint>) {
    && |items| == |waypoints|
    && forall i :: 0 <= i < |items| ==> AsWaypoint(items[i], index + i, p) == Ok(waypoints[i])
  }

  /** Records that all read well are read as a list, in order. */
  lemma {:induction false} ReadAll(items: seq<Yaml>, index: nat, p: Parsers, waypoints: seq<Waypoint>)
    requires ReadsAs(items, index, p, waypoints)
    ensures AsWaypoints(items, index, p) == Ok(waypoints)
    decreases |items|
  {
    if items != [] {
      assert AsWaypoint(items[0], index + 0, p) == Ok(waypoints[0]);
      forall i | 0 <= i < |items[1..]|
        ensures AsWaypoint(items[1..][i], index + 1 + i, p) == Ok(waypoints[1..][i])
      {
        assert AsWaypoint(items[i + 1], index + (i + 1), p) == Ok(waypoints[i + 1]);
      }
      ReadAll(items[1..], index + 1, p, waypoints[1..]);
      assert [waypoints[0]] + waypoints[1..] == waypoints;
    }
  }

  lemma RecordsRoundTrip(waypoints: seq<Waypoint>, index: nat, p: Parsers)
    ensures AsWaypoints(Records(waypoints), index, p) == Ok(Canonicals(waypoints))
  {
    forall i | 0 <= i < |waypoints|
      ensures AsWaypoint(Records(waypoints)[i], index + i, p) == Ok(Canonicals(waypoints)[i])
    {
      RecordRoundTrip(waypoints[i], index + i, p);
    }
    ReadAll(Records(waypoints), index, p, Canonicals(waypoints));
  }

  /** Writing any non-empty list and loading it gives the canonical list, and nothing else. */
  lemma WriteThenLoad(waypoints: seq<Waypoint>, p: Parsers)
    ensures Load(Some(Document(waypoints)), p)
         == if waypoints == [] then Err(EmptyList) else Ok(Canonicals(waypoints))
  {
    RecordsRoundTrip(waypoints, 0, p);
  }

  /** The trip is lossless exactly for lists whose unused thresholds are -1 and whose waits are not negative. */
  lemma WriteThenLoadIsIdentity(waypoints: seq<Waypoint>, p: Parsers)
    ensures Load(Some(Document(waypoints)), p) == Ok(waypoints) <==>
      (&& waypoints != []
       && forall i :: 0 <= i < |waypoints| ==>
            waypoints[i].waitTime >= 0.0 && (waypoints[i].threshold >= 0.0 || waypoints[i].threshold == -1.0))
  {
    WriteThenLoad(waypoints, p);
    if Canonicals(waypoints) == waypoints {
      forall i | 0 <= i < |waypoints|
        ensures waypoints[i].waitTime >= 0.0 && (waypoints[i].threshold >= 0.0 || waypoints[i].threshold == -1.0)
      {
        assert Canonicals(waypoints)[i] == waypoints[i];
      }
    } else {
      var i :| 0 <= i < |waypoints| && Canonicals(waypoints)[i] != waypoints[i];
    }
  }

  /** The file text is a fixed point: what was read back prints the same document again. */
  lemma DocumentIsStable(waypoints: seq<Waypoint>)
    ensures Document(Canonicals(waypoints)) == Document(waypoints)
  {
    forall i | 0 <= i < |waypoints|
      ensures Printed(Canonical(waypoints[i])) == Printed(waypoints[i])
    {
    }
    assert Records(Canonicals(waypoints)) == Records(waypoints);
  }

  // ----- What a record says ------------------------------------------------------------

  /** A value that reads as the number r. */
  predicate Numeral(v: Yaml, p: Parsers, r: real) {
    || v == Real(r) || (v.Int? && r == v.i as real)
    || (v == Bool(true) && r == 1.0) || (v == Bool(false) && r == 0.0)
    || (v.Text? && p.parseFloat(v.s) == Some(r))
  }

  /** A value that reads as the whole number n; fractions are cut off towards zero. */
  predicate Whole(v: Yaml, p: Parsers, n: int) {
    || v == Int(n)
    || (v.Real? && v.r >= 0.0 && n as real <= v.r < n as real + 1.0)
    || (v.Real? && v.r < 0.0 && n as real - 1.0 < v.r <= n as real)
    || (v == Bool(true) && n == 1) || (v == Bool(false) && n == 0)
    || (v.Text? && p.parseInt(v.s) == Some(n))
  }

  /** A value of no content. */
  predicate Empty(v: Yaml) {
    || v == Null || v == Bool(false) || v == Int(0) || v == Real(0.0) || v == Text("")
    || v == List([]) || v == Mapping(map[])
  }

  predicate IsRecord(raw: Yaml) {
    raw.Mapping? && {"x", "y", "angle_radians"} <= raw.entries.Keys
  }

  /** Fields of a richer format may be there only without content, and not as an empty list or mapping. */
  predicate Supported(raw: Yaml)
    requires raw.Mapping?
  {
    forall key :: key in {"change_map", "rotate"} && key in raw.entries ==>
      Empty(raw.entries[key]) && !raw.entries[key].List? && !raw.entries[key].Mapping?
  }

  /** The record says w; an absent number is counted by position, and an absent threshold is -1. */
  predicate Says(entries: map<string, Yaml>, index: nat, p: Parsers, w: Waypoint)
    requires {"x", "y", "angle_radians"} <= entries.Keys
  {
    && (if "number" in entries then Whole(entries["number"], p, w.number) else w.number == index + 1)
    && Numeral(entries["x"], p, w.x) && Numeral(entries["y"], p, w.y)
    && Numeral(entries["angle_radians"], p, w.angleRadians)
    && (if "threshold" in entries then Numeral(entries["threshold"], p, w.threshold) else w.threshold == -1.0)
    && w.stop == ("stop" in entries && !Empty(entries["stop"]))
    && (if "wait_time" in entries then Numeral(entries["wait_time"], p, w.waitTime) else w.waitTime == 0.0)
  }

  lemma NumeralIsToFloat(v: Yaml, p: Parsers, r: real)
    ensures Numeral(v, p, r) <==> ToFloat(v, p) == Some(r)
  {
  }

  lemma WholeIsToInt(v: Yaml, p: Parsers, n: int)
    ensures Whole(v, p, n) <==> ToInt(v, p) == Some(n)
  {
  }

  lemma EmptyIsFalsy(v: Yaml)
    ensures Empty(v) <==> !Truthy(v)
    ensures Blank(v) <==> Empty(v) && !v.List? && !v.Mapping?
  {
  }

  lemma SupportedIsBlank(raw: Yaml)
    requires raw.Mapping?
    ensures Supported(raw)
       <==> Blank(Get(raw.entries, "change_map", Null)) && Blank(Get(raw.entries, "rotate", Null))
  {
    EmptyIsFalsy(Get(raw.entries, "change_map", Null));
    EmptyIsFalsy(Get(raw.entries, "rotate", Null));
    assert "change_map" in {"change_map", "rotate"} && "rotate" in {"change_map", "rotate"};
  }

  /** The same by the conversions that the reader applies. */
  predicate Converts(entries: map<string, Yaml>, index: nat, p: Parsers, w: Waypoint)
    requires {"x", "y", "angle_radians"} <= entries.Keys
  {
    && ToInt(Get(entries, "number", Int(index + 1)), p) == Some(w.number)
    && ToFloat(entries["x"], p) == Some(w.x) && ToFloat(entries["y"], p) == Some(w.y)
    && ToFloat(entries["angle_radians"], p) == Some(w.angleRadians)
    && ToFloat(Get(entries, "threshold", Real(-1.0)), p) == Some(w.threshold)
    && Truthy(Get(entries, "stop", Bool(false))) == w.stop
    && ToFloat(Get(entries, "wait_time", Real(0.0)), p) == Some(w.waitTime)
  }

  lemma SaidNumbers(entries: map<string, Yaml>, index: nat, p: Parsers, w: Waypoint)
    requires {"x", "y", "angle_radians"} <= entries.Keys
    ensures Says(entries, index, p, w) <==> Converts(entries, index, p, w)
  {
    WholeIsToInt(Get(entries, "number", Int(index + 1)), p, w.number);
    NumeralIsToFloat(entries["x"], p, w.x);
    NumeralIsToFloat(entries["y"], p, w.y);
    NumeralIsToFloat(entries["angle_radians"], p, w.angleRadians);
    NumeralIsToFloat(Get(entries, "threshold", Real(-1.0)), p, w.threshold);
    EmptyIsFalsy(Get(entries, "stop", Bool(false)));
    NumeralIsToFloat(Get(entries, "wait_time", Real(0.0)), p, w.waitTime);
  }

  /** Any record is read as w exactly when it is complete, supported, says w, and does not wait backwards. */
  lemma ReadsWhatItSays(raw: Yaml, index: nat, p: Parsers, w: Waypoint)
    ensures AsWaypoint(raw, index, p) == Ok(w) <==>
      IsRecord(raw) && Supported(raw) && Says(raw.entries, index, p, w) && w.waitTime >= 0.0
  {
    if IsRecord(raw) {
      SupportedIsBlank(raw);
      SaidNumbers(raw.entries, index, p, w);
    }
  }

  /** The fault found: the first of not a mapping, a missing field, an unsupported field, no number, a negative wait. */
  lemma RejectedFor(raw: Yaml, index: nat, p: Parsers)
    ensures AsWaypoint(raw, index, p) == Err(NotAMapping(index)) <==> !raw.Mapping?
    ensures AsWaypoint(raw, index, p) == Err(MissingField(index)) <==> raw.Mapping? && !IsRecord(raw)
    ensures AsWaypoint(raw, index, p) == Err(Unsupported(index)) <==> IsRecord(raw) && !Supported(raw)
    ensures AsWaypoint(raw, index, p) == Err(InvalidValue(index)) <==>
      IsRecord(raw) && Supported(raw) && forall w :: !Says(raw.entries, index, p, w)
    ensures AsWaypoint(raw, index, p) == Err(NegativeWait(index)) <==>
      IsRecord(raw) && Supported(raw) && exists w :: Says(raw.entries, index, p, w) && w.waitTime < 0.0
  {
    if IsRecord(raw) {
      SupportedIsBlank(raw);
      forall w
        ensures Says(raw.entries, index, p, w) <==> Converts(raw.entries, index, p, w)
      {
        SaidNumbers(raw.entries, index, p, w);
      }
      if Supported(raw) {
        ConvertedOnce(raw, index, p);
      }
    }
  }

  lemma ConvertedOnce(raw: Yaml, index: nat, p: Parsers)
    requires IsRecord(raw) && Supported(raw)
    ensures AsWaypoint(raw, index, p) == Err(InvalidValue(index)) <==> forall w :: !Converts(raw.entries, index, p, w)
    ensures AsWaypoint(raw, index, p) == Err(NegativeWait(index)) <==>
      exists w :: Converts(raw.entries, index, p, w) && w.waitTime < 0.0
  {
    SupportedIsBlank(raw);
    var entries := raw.entries;
    var number, x, y, angle, threshold, waitTime :=
      ToInt(Get(entries, "number", Int(index + 1)), p), ToFloat(entries["x"], p), ToFloat(entries["y"], p),
      ToFloat(entries["angle_radians"], p), ToFloat(Get(entries, "threshold", Real(-1.0)), p),
      ToFloat(Get(entries, "wait_time", Real(0.0)), p);
    if number.Some? && x.Some? && y.Some? && angle.Some? && threshold.Some? && waitTime.Some? {
      assert Converts(entries, index, p, Waypoint(number.value, x.value, y.value, angle.value, threshold.value,
                                                  Truthy(Get(entries, "stop", Bool(false))), waitTime.value));
    }
  }

  // ----- Validation --------------------------------------------------------------------

  /** Loading succeeds exactly when every record does, and then record k is waypoint k. */
  lemma {:induction false} AllRecordsValid(items: seq<Yaml>, index: nat, p: Parsers)
    ensures AsWaypoints(items, index, p).Ok? <==>
      forall k :: 0 <= k < |items| ==> AsWaypoint(items[k], index + k, p).Ok?
    ensures AsWaypoints(items, index, p).Ok? ==>
      && |AsWaypoints(items, index, p).value| == |items|
      && forall k :: 0 <= k < |items| ==>
         AsWaypoint(items[k], index + k, p) == Ok(AsWaypoints(items, index, p).value[k])
    decreases |items|
  {
    if items != [] {
      AllRecordsValid(items[1..], index + 1, p);
      var head := AsWaypoint(items[0], index, p);
      var rest := AsWaypoints(items[1..], index + 1, p);
      if rest.Err? {
        var k :| 0 <= k < |items[1..]| && AsWaypoint(items[1..][k], index + 1 + k, p).Err?;
        assert AsWaypoint(items[k + 1], index + (k + 1), p).Err?;
      } else if head.Ok? {
        forall k | 0 <= k < |items|
          ensures AsWaypoint(items[k], index + k, p) == Ok(AsWaypoints(items, index, p).value[k])
        {
          if k > 0 {
            assert AsWaypoint(items[1..][k - 1], index + 1 + (k - 1), p) == Ok(rest.value[k - 1]);
          }
        }
      } else {
        assert AsWaypoint(items[0], index + 0, p).Err?;
      }
    }
  }

  /** When loading fails on a record, the reported error is that of the first faulty one. */
  lemma {:induction false} FirstFaultReported(items: seq<Yaml>, index: nat, p: Parsers, k: nat)
    requires k < |items| && AsWaypoint(items[k], index + k, p).Err?
    requires forall j :: 0 <= j < k ==> AsWaypoint(items[j], index + j, p).Ok?
    ensures AsWaypoints(items, index, p) == Err(AsWaypoint(items[k], index + k, p).error)
    decreases k
  {
    if k > 0 {
      assert AsWaypoint(items[0], index + 0, p).Ok?;
      forall j | 0 <= j < k - 1
        ensures AsWaypoint(items[1..][j], index + 1 + j, p).Ok?
      {
        assert AsWaypoint(items[j + 1], index + (j + 1), p).Ok?;
      }
      FirstFaultReported(items[1..], index + 1, p, k - 1);
    }
  }

  predicate HasList(file: Option<Yaml>) {
    file.Some? && file.value.Mapping? && "waypoints" in file.value.entries && file.value.entries["waypoints"].List?
  }

  /** A file loads exactly when it is there, has a list, the list is not empty and every record reads; else why not. */
  lemma LoadsExactly(file: Option<Yaml>, p: Parsers, route: seq<Waypoint>)
    ensures Load(file, p) == Err(FileNotFound) <==> file.None?
    ensures Load(file, p) == Err(NotAWaypointList) <==> file.Some? && !HasList(file)
    ensures Load(file, p) == Err(EmptyList) <==> HasList(file) && file.value.entries["waypoints"].items == []
    ensures Load(file, p) == Ok(route) <==>
      && HasList(file) && file.value.entries["waypoints"].items != []
      && ReadsAs(file.value.entries["waypoints"].items, 0, p, route)
  {
    if HasList(file) {
      var items := file.value.entries["waypoints"].items;
      AllRecordsValid(items, 0, p);
      if ReadsAs(items, 0, p, route) {
        ReadAll(items, 0, p, route);
      }
      RecordFaults(items, 0, p);
    }
  }

  /** The records themselves are never blamed for the file. */
  lemma {:induction false} RecordFaults(items: seq<Yaml>, index: nat, p: Parsers)
    ensures AsWaypoints(items, index, p).Err? ==>
      var error := AsWaypoints(items, index, p).error;
      !error.FileNotFound? && !error.NotAWaypointList? && !error.EmptyList?
    decreases |items|
  {
    if items != [] {
      RecordFaults(items[1..], index + 1, p);
    }
  }

  /** A loaded route is never empty and has no negative wait. */
  lemma LoadedRoute(file: Option<Yaml>, p: Parsers)
    requires Load(file, p).Ok?
    ensures Load(file, p).value != []
    ensures forall k :: 0 <= k < |Load(file, p).value| ==> Load(file, p).value[k].waitTime >= 0.0
  {
    var items := file.value.entries["waypoints"].items;
    AllRecordsValid(items, 0, p);
    forall k | 0 <= k < |items|
      ensures Load(file, p).value[k].waitTime >= 0.0
    {
      assert AsWaypoint(items[k], 0 + k, p) == Ok(Load(file, p).value[k]);
    }
  }

  // ----- Appending ---------------------------------------------------------------------

  /** One append to a readable or missing file: the canonical old route, then the new pose. */
  lemma AppendExtends(file: Option<Yaml>, pose: Pose, p: Parsers)
    requires file.Some? ==> Load(file, p).Ok?
    ensures var route := Existing(file, p);
      var number := if route == [] then 1 else route[|route| - 1].number + 1;
      var added := Waypoint(number, pose.x, pose.y, pose.yaw, -1.0, false, 0.0);
      && Append(file, pose, p).1 == Ok(added)
      && Load(Append(file, pose, p).0, p) == Ok(Canonicals(route) + [added])
  {
    var existing := Existing(file, p);
    var waypoint := Recorded(NextNumber(existing), pose);
    WriteThenLoad(existing + [waypoint], p);
    assert Canonicals(existing + [waypoint]) == Canonicals(existing) + [Canonical(waypoint)];
  }

  lemma RecordedStep(route: seq<Waypoint>, poses: seq<Pose>)
    requires poses != []
    ensures Canonicals(Canonicals(route) + [Recorded(NextNumber(route), poses[0])])
              + RecordedFrom(NextNumber(route) + 1, poses[1..])
         == Canonicals(route) + RecordedFrom(NextNumber(route), poses)
  {
    var first := NextNumber(route);
    assert RecordedFrom(first, poses) == [Recorded(first, poses[0])] + RecordedFrom(first + 1, poses[1..]);
    assert Canonicals(Canonicals(route) + [Recorded(first, poses[0])])
        == Canonicals(route) + [Recorded(first, poses[0])];
  }

  /** Appending a whole recording to a readable file keeps its route and continues its numbering. */
  lemma {:induction false} AppendAllExtends(file: Option<Yaml>, poses: seq<Pose>, p: Parsers)
    requires poses != []
    requires file.Some? ==> Load(file, p).Ok?
    ensures Load(AppendAll(file, poses, p), p)
         == Ok(Canonicals(Existing(file, p)) + RecordedFrom(NextNumber(Existing(file, p)), poses))
    decreases |poses|
  {
    var existing := Existing(file, p);
    var next := Append(file, poses[0], p).0;
    AppendExtends(file, poses[0], p);
    RecordedStep(existing, poses);
    if |poses| == 1 {
      assert AppendAll(next, poses[1..], p) == next;
      assert RecordedFrom(NextNumber(existing), poses) == [Recorded(NextNumber(existing), poses[0])];
    } else {
      AppendAllExtends(next, poses[1..], p);
    }
  }

  /** A recording started on a missing file loads as exactly its poses, numbered from 1. */
  lemma RecordingFromScratch(poses: seq<Pose>, p: Parsers)
    requires poses != []
    ensures var loaded := Load(AppendAll(None, poses, p), p);
      && loaded.Ok? && |loaded.value| == |poses|
      && forall i :: 0 <= i < |poses| ==>
           loaded.value[i] == Waypoint(i + 1, poses[i].x, poses[i].y, poses[i].yaw, -1.0, false, 0.0)
  {
    AppendAllExtends(None, poses, p);
    assert Canonicals([]) + RecordedFrom(1, poses) == RecordedFrom(1, poses);
    RecordedFields(poses);
  }

  lemma RecordedFields(poses: seq<Pose>)
    ensures forall i :: 0 <= i < |poses| ==>
      RecordedFrom(1, poses)[i] == Waypoint(i + 1, poses[i].x, poses[i].y, poses[i].yaw, -1.0, false, 0.0)
  {
  }

  /** An append to a file that does not load reports the load error and leaves the file alone. */
  lemma UnreadableFileUntouched(file: Option<Yaml>, poses: seq<Pose>, p: Parsers)
    requires file.Some? && Load(file, p).Err?
    ensures AppendAll(file, poses, p) == file
    decreases |poses|
  {
    if poses != [] {
      UnreadableFileUntouched(file, poses[1..], p);
    }
  }
}
