/** Canonical points and activities, and how one Semantic Location History
    file is turned into them (location_to_geojson.py, `Point`, `Activity`
    and `read_file`). The JSON document arrives already parsed: each
    datatype below mirrors the keys the code looks up, with `None` for a key
    that is absent. */
module Records {
  import opened Wrappers

  /** A location in decimal degrees. Datatype equality is field-wise, as
      the dataclass's `__eq__` is. */
  datatype Point = Point(lat: real, lng: real, accuracyMeters: Option<int>)

  /** One activity segment: its type tag and its points in file order. */
  datatype Activity = Activity(activityType: string, points: seq<Point>)

  /** A raw waypoint object: the E7 coordinate keys of both historical
      formats and the optional accuracy. */
  datatype RawWaypoint = RawWaypoint(
    latE7: Option<int>,
    lngE7: Option<int>,
    latitudeE7: Option<int>,
    longitudeE7: Option<int>,
    accuracyMeters: Option<int>)

  /** A path object; `items` is its "points" list (simplifiedRawPath) or its
      "waypoints" list (waypointPath). */
  datatype RawPath = RawPath(items: Option<seq<RawWaypoint>>)

  /** The "activitySegment" object of a timeline event. */
  datatype Segment = Segment(
    activityType: Option<string>,
    simplifiedRawPath: Option<RawPath>,
    waypointPath: Option<RawPath>)

  /** One entry of "timelineObjects". */
  datatype Event = Event(activitySegment: Option<Segment>)

  /** The exceptions `read_file` can raise. */
  datatype ReadError =
    | UnknownWaypointFormat(waypoint: RawWaypoint)  // the explicit `raise`
    | MissingKey(key: string)                       // a `KeyError`

  /** Activities of one file grouped by type. `types` is the insertion
      order of the Python dict, which later iterations follow. */
  datatype Collection = Collection(types: seq<string>, activities: map<string, seq<Activity>>)
  {
    ghost predicate Valid() {
      && (forall i, j :: 0 <= i < j < |types| ==> types[i] != types[j])
      && (forall t :: t in activities <==> t in types)
    }
  }

  const E7Scale: real := 10000000.0

  /** `v / 1e7`: E7 fixed point to decimal degrees. */
  function FromE7(v: int): real {
    v as real / E7Scale
  }

  /** Decimal degrees back to E7, for values that came from E7. */
  function ToE7(x: real): int {
    (x * E7Scale).Floor
  }

  lemma E7RoundTrip(v: int)
    ensures ToE7(FromE7(v)) == v
  {
    assert FromE7(v) * E7Scale == v as real;
  }

  /** Decoding one raw waypoint (location_to_geojson.py lines 46-63):
      "latE7" is looked up first, then "latitudeE7". */
  function DecodeWaypoint(wr: RawWaypoint): (r: Result<Point, ReadError>)
    ensures r.Ok? <==>
      (wr.latE7.Some? && wr.lngE7.Some?) ||
      (wr.latE7.None? && wr.latitudeE7.Some? && wr.longitudeE7.Some?)
    ensures r.Ok? ==> r.value.accuracyMeters == wr.accuracyMeters
    ensures wr.latE7.None? && wr.latitudeE7.None? ==> r == Err(UnknownWaypointFormat(wr))
    ensures wr.latE7.Some? && wr.lngE7.None? ==> r == Err(MissingKey("lngE7"))
    ensures wr.latE7.None? && wr.latitudeE7.Some? && wr.longitudeE7.None? ==> r == Err(MissingKey("longitudeE7"))
  {
    if wr.latE7.Some? then
      if wr.lngE7.None? then Err(MissingKey("lngE7"))
      else Ok(Point(FromE7(wr.latE7.value), FromE7(wr.lngE7.value), wr.accuracyMeters))
    else if wr.latitudeE7.Some? then
      if wr.longitudeE7.None? then Err(MissingKey("longitudeE7"))
      else Ok(Point(FromE7(wr.latitudeE7.value), FromE7(wr.longitudeE7.value), wr.accuracyMeters))
    else
      Err(UnknownWaypointFormat(wr))
  }

  /** A waypoint in the newer format, as the exporter writes it. */
  function NewFormat(latE7: int, lngE7: int, accuracy: Option<int>): RawWaypoint {
    RawWaypoint(Some(latE7), Some(lngE7), None, None, accuracy)
  }

  /** A waypoint in the older format. */
  function OldFormat(latE7: int, lngE7: int, accuracy: Option<int>): RawWaypoint {
    RawWaypoint(None, None, Some(latE7), Some(lngE7), accuracy)
  }

  /** Both formats decode to the point `(latE7/1e7, lngE7/1e7)` exactly,
      with the accuracy carried over, and the E7 values can be read back
      from it. */
  lemma DecodeEitherFormat(latE7: int, lngE7: int, accuracy: Option<int>)
    ensures DecodeWaypoint(NewFormat(latE7, lngE7, accuracy)) == DecodeWaypoint(OldFormat(latE7, lngE7, accuracy))
    ensures DecodeWaypoint(NewFormat(latE7, lngE7, accuracy)).Ok?
    ensures var p := DecodeWaypoint(NewFormat(latE7, lngE7, accuracy)).value;
      && p.lat * E7Scale == latE7 as real && p.lng * E7Scale == lngE7 as real
      && ToE7(p.lat) == latE7 && ToE7(p.lng) == lngE7 && p.accuracyMeters == accuracy
  {
    E7RoundTrip(latE7);
    E7RoundTrip(lngE7);
  }

  /** When a waypoint carries both key pairs, the older pair is ignored. */
  lemma NewKeysWin(wr: RawWaypoint)
    requires wr.latE7.Some?
    ensures DecodeWaypoint(wr) == DecodeWaypoint(wr.(latitudeE7 := None, longitudeE7 := None))
  {
  }

  /** Decoding a whole path, stopping at the first failing waypoint. */
  function DecodeAll(raws: seq<RawWaypoint>): (r: Result<seq<Point>, ReadError>)
    ensures r.Ok? ==> |r.value| == |raws|
  {
    if raws == [] then Ok([])
    else
      match DecodeAll(raws[..|raws| - 1])
      case Err(e) => Err(e)
      case Ok(pts) =>
        match DecodeWaypoint(raws[|raws| - 1])
        case Err(e) => Err(e)
        case Ok(pt) => Ok(pts + [pt])
  }

  /** A path decodes iff every waypoint does; the points are the waypoints
      decoded one by one, and a failure reports the first bad waypoint. */
  lemma {:induction false} DecodeAllCharacterized(raws: seq<RawWaypoint>)
    ensures DecodeAll(raws).Ok? <==> forall i :: 0 <= i < |raws| ==> DecodeWaypoint(raws[i]).Ok?
    ensures DecodeAll(raws).Ok? ==>
      forall i :: 0 <= i < |raws| ==> DecodeAll(raws).value[i] == DecodeWaypoint(raws[i]).value
    ensures DecodeAll(raws).Err? ==>
      exists i :: 0 <= i < |raws| && DecodeWaypoint(raws[i]) == Err(DecodeAll(raws).error) &&
        forall j :: 0 <= j < i ==> DecodeWaypoint(raws[j]).Ok?
  {
    if raws != [] {
      var n := |raws| - 1;
      var init := raws[..n];
      DecodeAllCharacterized(init);
      assert forall i :: 0 <= i < n ==> init[i] == raws[i];
      if DecodeAll(init).Err? {
        var i :| 0 <= i < n && DecodeWaypoint(init[i]) == Err(DecodeAll(init).error) &&
          forall j :: 0 <= j < i ==> DecodeWaypoint(init[j]).Ok?;
        assert DecodeWaypoint(raws[i]) == Err(DecodeAll(raws).error);
      } else if DecodeWaypoint(raws[n]).Err? {
        assert DecodeWaypoint(raws[n]) == Err(DecodeAll(raws).error);
      }
    }
  }

  /** Once a prefix fails, the whole path fails with the same error. */
  lemma {:induction false} DecodeAllFailedPrefix(raws: seq<RawWaypoint>, k: nat)
    requires k <= |raws|
    requires DecodeAll(raws[..k]).Err?
    ensures DecodeAll(raws) == DecodeAll(raws[..k])
    decreases |raws| - k
  {
    if k < |raws| {
      var k' := k + 1;
      assert raws[..k'][..k] == raws[..k];
      DecodeAllFailedPrefix(raws, k');
    } else {
      assert raws[..k] == raws;
    }
  }

  /** The loop of lines 44-63: append each decoded waypoint, raise on the
      first one that has neither coordinate format. */
  method DecodePoints(raws: seq<RawWaypoint>) returns (r: Result<seq<Point>, ReadError>)
    ensures r == DecodeAll(raws)
  {
    var points: seq<Point> := [];
    var i := 0;
    while i < |raws|
      invariant 0 <= i <= |raws|
      invariant DecodeAll(raws[..i]) == Ok(points)
    {
      assert raws[..i + 1][..i] == raws[..i];
      match DecodeWaypoint(raws[i]) {
        case Err(e) =>
          DecodeAllFailedPrefix(raws, i + 1);
          return Err(e);
        case Ok(pt) =>
          points := points + [pt];
      }
      i := i + 1;
    }
    assert raws[..i] == raws;
    r := Ok(points);
  }

  /** The segment a timeline event contributes, when it contributes one. */
  datatype Chosen = Chosen(activityType: string, path: RawPath, listKey: string)

  /** Lines 29-43: events without "activitySegment", segments without
      "activityType" and segments without either path are skipped;
      "simplifiedRawPath" is preferred over "waypointPath". */
  function Choose(e: Event): (c: Option<Chosen>)
    ensures c.Some? <==>
      e.activitySegment.Some? && e.activitySegment.value.activityType.Some? &&
      (e.activitySegment.value.simplifiedRawPath.Some? || e.activitySegment.value.waypointPath.Some?)
    ensures c.Some? ==> c.value.activityType == e.activitySegment.value.activityType.value
    ensures c.Some? && e.activitySegment.value.simplifiedRawPath.Some? ==>
      c.value.path == e.activitySegment.value.simplifiedRawPath.value && c.value.listKey == "points"
    ensures c.Some? && e.activitySegment.value.simplifiedRawPath.None? ==>
      c.value.path == e.activitySegment.value.waypointPath.value && c.value.listKey == "waypoints"
  {
    match e.activitySegment
    case None => None
    case Some(seg) =>
      match seg.activityType
      case None => None
      case Some(t) =>
        if seg.simplifiedRawPath.Some? then Some(Chosen(t, seg.simplifiedRawPath.value, "points"))
        else if seg.waypointPath.Some? then Some(Chosen(t, seg.waypointPath.value, "waypoints"))
        else None
  }

  /** Lines 66-69: the activity is appended to the list of its type, which
      is created (and the type's position fixed) on its first occurrence. */
  function AddActivity(col: Collection, a: Activity): (r: Collection)
    requires col.Valid()
    ensures r.Valid()
    ensures r.activities.Keys == col.activities.Keys + {a.activityType}
    ensures a.activityType in col.activities ==>
      r.activities[a.activityType] == col.activities[a.activityType] + [a]
    ensures a.activityType !in col.activities ==> r.activities[a.activityType] == [a]
    ensures forall t :: t in col.activities && t != a.activityType ==> r.activities[t] == col.activities[t]
    ensures r.types == if a.activityType in col.activities then col.types else col.types + [a.activityType]
  {
    var t := a.activityType;
    if t in col.activities then
      Collection(col.types, col.activities[t := col.activities[t] + [a]])
    else
      Collection(col.types + [t], col.activities[t := [a]])
  }

  /** What one event does to the collection being built: a skipped event
      changes nothing, a used segment without its waypoint list raises a
      missing-key error naming that list, and no type is ever removed. */
  function ReadStep(col: Collection, e: Event): (r: Result<Collection, ReadError>)
    requires col.Valid()
    ensures r.Ok? ==> r.value.Valid()
    ensures Choose(e).None? ==> r == Ok(col)
    ensures Choose(e).Some? && Choose(e).value.path.items.None? ==> r == Err(MissingKey(Choose(e).value.listKey))
    ensures r.Ok? ==> col.activities.Keys <= r.value.activities.Keys
  {
    match Choose(e)
    case None => Ok(col)
    case Some(ch) =>
      if ch.path.items.None? then Err(MissingKey(ch.listKey))
      else
        match DecodeAll(ch.path.items.value)
        case Err(err) => Err(err)
        case Ok(pts) => Ok(AddActivity(col, Activity(ch.activityType, pts)))
  }

  /** `read_file` on an already parsed "timelineObjects" list. */
  function ReadSpec(events: seq<Event>): (r: Result<Collection, ReadError>)
    ensures r.Ok? ==> r.value.Valid()
  {
    if events == [] then Ok(Collection([], map[]))
    else
      match ReadSpec(events[..|events| - 1])
      case Err(e) => Err(e)
      case Ok(col) => ReadStep(col, events[|events| - 1])
  }

  lemma {:induction false} ReadSpecFailedPrefix(events: seq<Event>, k: nat)
    requires k <= |events|
    requires ReadSpec(events[..k]).Err?
    ensures ReadSpec(events) == ReadSpec(events[..k])
    decreases |events| - k
  {
    if k < |events| {
      assert events[..k + 1][..k] == events[..k];
      ReadSpecFailedPrefix(events, k + 1);
    } else {
      assert events[..k] == events;
    }
  }

  /** Lines 25-70. */
  method ReadFile(events: seq<Event>) returns (r: Result<Collection, ReadError>)
    ensures r == ReadSpec(events)
  {
    var ret := Collection([], map[]);
    var i := 0;
    while i < |events|
      invariant 0 <= i <= |events|
      invariant ReadSpec(events[..i]) == Ok(ret)
    {
      assert events[..i + 1][..i] == events[..i];
      var event := events[i];
      i := i + 1;
      if event.activitySegment.None? {
        continue;
      }
      var segment := event.activitySegment.value;
      if segment.activityType.None? {
        continue;
      }
      var activityType := segment.activityType.value;
      var path: RawPath;
      var listKey: string;
      if segment.simplifiedRawPath.Some? {
        path, listKey := segment.simplifiedRawPath.value, "points";
      } else if segment.waypointPath.Some? {
        path, listKey := segment.waypointPath.value, "waypoints";
      } else {
        continue;
      }
      if path.items.None? {
        ReadSpecFailedPrefix(events, i);
        return Err(MissingKey(listKey));
      }
      var decoded := DecodePoints(path.items.value);
      if decoded.Err? {
        ReadSpecFailedPrefix(events, i);
        return Err(decoded.error);
      }
      ret := AddActivity(ret, Activity(activityType, decoded.value));
    }
    assert events[..i] == events;
    r := Ok(ret);
  }

  /** An independent description of what `read_file` keeps of type `t`: the
      raw waypoint lists of the chosen segments of that type, in file order. */
  function PathsOfType(events: seq<Event>, t: string): seq<seq<RawWaypoint>> {
    if events == [] then []
    else
      var e := events[|events| - 1];
      var c := Choose(e);
      PathsOfType(events[..|events| - 1], t) +
        (if c.Some? && c.value.activityType == t && c.value.path.items.Some?
         then [c.value.path.items.value] else [])
  }

  /** A successful read keeps exactly the types that occur on a chosen
      segment, and for each type one activity per chosen segment, in file
      order, whose points are that segment's waypoints decoded one by one
      (so an activity has as many points as its segment had waypoints). */
  lemma {:induction false} ReadFileGroupsByType(events: seq<Event>, t: string)
    requires ReadSpec(events).Ok?
    ensures var col := ReadSpec(events).value;
      (t in col.activities <==> |PathsOfType(events, t)| > 0) &&
      (t in col.activities ==>
        |col.activities[t]| == |PathsOfType(events, t)| &&
        forall k :: 0 <= k < |col.activities[t]| ==>
          col.activities[t][k].activityType == t &&
          DecodeAll(PathsOfType(events, t)[k]) == Ok(col.activities[t][k].points))
  {
    if events != [] {
      var n := |events| - 1;
      var init := events[..n];
      assert ReadSpec(init).Ok?;
      ReadFileGroupsByType(init, t);
      var col := ReadSpec(init).value;
      var c := Choose(events[n]);
      if c.Some? && c.value.activityType == t && c.value.path.items.Some? {
        var col' := ReadSpec(events).value;
        var pts := DecodeAll(c.value.path.items.value).value;
        assert col' == AddActivity(col, Activity(t, pts));
        var before := if t in col.activities then col.activities[t] else [];
        assert col'.activities[t] == before + [Activity(t, pts)];
      }
    }
  }

  /** A read fails iff some chosen segment has no waypoint list or holds a
      waypoint that does not decode. */
  lemma {:induction false} ReadFileFailsIff(events: seq<Event>)
    ensures ReadSpec(events).Err? <==>
      exists i :: 0 <= i < |events| && Choose(events[i]).Some? &&
        (Choose(events[i]).value.path.items.None? ||
         DecodeAll(Choose(events[i]).value.path.items.value).Err?)
  {
    if events != [] {
      var n := |events| - 1;
      var init := events[..n];
      ReadFileFailsIff(init);
      assert forall i :: 0 <= i < n ==> init[i] == events[i];
    }
  }

  /** An independent description of the order of `read_file`'s keys: the
      types of the chosen segments that carry a waypoint list, each at its
      first occurrence in the file. */
  function FirstSeenTypes(events: seq<Event>): seq<string> {
    if events == [] then []
    else
      var prev := FirstSeenTypes(events[..|events| - 1]);
      var c := Choose(events[|events| - 1]);
      if c.Some? && c.value.path.items.Some? && c.value.activityType !in prev
      then prev + [c.value.activityType] else prev
  }

  /** A successful read lists its types in the order in which they first
      occur on a chosen segment, which is the dict's insertion order. */
  lemma {:induction false} ReadFileTypeOrder(events: seq<Event>)
    requires ReadSpec(events).Ok?
    ensures ReadSpec(events).value.types == FirstSeenTypes(events)
  {
    if events != [] {
      var n := |events| - 1;
      var init := events[..n];
      assert ReadSpec(init).Ok?;
      ReadFileTypeOrder(init);
    }
  }
}
