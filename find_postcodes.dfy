/** find_postcodes.py: the search run as a script over module-level state,
    with the search area given as parameters rather than derived. */
module Script {
  import opened Wrappers
  import opened Py
  import opened Geo
  import opened Table
  import opened Routing
  import opened Search

  /** The loop filling destination_coordinates, one destination at a time;
      pc_raw.loc[x, ...] raises KeyError for a destination it does not index. */
  method DestinationCoordinates(reference: seq<Outcode>, destinations: seq<string>)
    returns (result: Result<map<string, Coord>, Exception>)
    ensures result == Coordinates(reference, destinations)
  {
    var coordinates: map<string, Coord> := map[];
    var k := 0;
    while k < |destinations|
      invariant 0 <= k <= |destinations|
      invariant Coordinates(reference, destinations[..k]) == Success(coordinates)
    {
      var x := destinations[k];
      var found := Locate(reference, x);
      if found.None? {
        assert Coordinates(reference, destinations).Failure?;
        return Failure(KeyError);
      }
      assert destinations[..k + 1][..k] == destinations[..k];
      coordinates := coordinates[x := found.value];
      k := k + 1;
    }
    assert destinations[..k] == destinations;
    return Success(coordinates);
  }

  /** The script from the coordinate lookup to the final pass. The table pc
      is restricted to the area, then for each destination in insertion
      order every row is queried and its cell written, and the rows over
      budget are dropped; the last column is filtered once more at the end. */
  method FindPostcodes(reference: seq<Outcode>, area: Box, destinationDistances: Dict<int>, oracle: Oracle)
    returns (result: Result<seq<Row>, Exception>)
    requires destinationDistances.Valid()
    ensures result == ScriptSearch(reference, area, destinationDistances, ViaOracle(oracle))
  {
    var destinations := destinationDistances.keys;
    var minutes := destinationDistances.values;
    var found := DestinationCoordinates(reference, destinations);
    if found.Failure? {
      return Failure(found.error);
    }
    var destinationCoordinates := found.value;
    CoordinatesKnown(reference, destinationDistances);
    ghost var router := ViaOracle(oracle);

    var pc := WithinBox(reference, area);
    ghost var initial := pc;
    var k := 0;
    while k < |destinations|
      invariant 0 <= k <= |destinations|
      invariant Known(destinations[..k], minutes, destinationCoordinates)
      invariant Run(initial, destinations[..k], minutes, destinationCoordinates, router) == Success(pc)
    {
      var d := destinations[k];
      var destCoord := destinationCoordinates[d];
      ghost var entry := pc;
      var filled := FillColumn(pc, d, destCoord, oracle);
      if filled.Failure? {
        StepRaises(initial, destinations, k, minutes, destinationCoordinates, router, entry);
        return Failure(filled.error);
      }
      pc := filled.value;
      pc := WithinBudget(pc, d, minutes[d]);
      OuterLoopStep(initial, destinations, k, minutes, destinationCoordinates, router, entry);
      k := k + 1;
    }
    assert destinations[..k] == destinations;

    var columns := Columns(destinations);
    var last := columns[|columns| - 1];
    if last !in minutes {
      return Failure(KeyError);
    }
    pc := WithinBudget(pc, last, minutes[last]);
    return Success(pc);
  }

  /** The inner loop for destination d: for p in list(pc.index), query the
      routing page and write pc.loc[p, d]; an exception from the parse ends it. */
  method FillColumn(pc: seq<Row>, d: string, destCoord: Coord, oracle: Oracle)
    returns (result: Result<seq<Row>, Exception>)
    ensures result == Annotate(pc, d, Towards(ViaOracle(oracle), destCoord))
  {
    ghost var query := Towards(ViaOracle(oracle), destCoord);
    var rows := pc;
    var progress := 0;
    var p := 0;
    while p < |rows|
      invariant 0 <= p <= |rows| == |pc|
      invariant progress == p
      invariant rows[p..] == pc[p..]
      invariant Annotate(pc[..p], d, query) == Success(rows[..p])
    {
      var t := GetDistance(oracle(rows[p].site.coord, destCoord));
      assert query(pc[p].site.coord) == t;
      if t.Failure? {
        InnerLoopRaises(pc, p, d, query, t.error);
        return Failure(t.error);
      }
      InnerLoopWrites(pc, p, d, query, rows[..p], t.value);
      ghost var before := rows;
      rows := rows[p := Record(rows[p], d, t.value)];
      assert rows[..p + 1] == before[..p] + [Record(pc[p], d, t.value)];
      progress := progress + 1;
      p := p + 1;
    }
    assert pc[..p] == pc && rows[..p] == rows;
    return Success(rows);
  }
}
