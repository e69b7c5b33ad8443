/** The search pipeline shared by the finder class and the script: the
    destination coordinates, the per-destination query-and-eliminate pass,
    and the final filter on the last column. */
module Search {
  import opened Wrappers
  import opened Seqs
  import opened Py
  import opened Geo
  import opened Table
  import opened Routing

  /** The columns of pc_raw once its id column is dropped. */
  const ReferenceColumns: seq<string> := ["latitude", "longitude"]

  /** list(pc_raw.columns) + destinations: the columns of the candidate table. */
  function Columns(dests: seq<string>): (cols: seq<string>)
    ensures |cols| == |dests| + 2 && cols[2..] == dests
    ensures Last(cols) == if dests == [] then "longitude" else Last(dests)
  {
    ReferenceColumns + dests
  }

  /** pc_raw.loc[x, 'latitude'], pc_raw.loc[x, 'longitude']: the coordinates
      of the first reference row indexed x, or None when there is none. */
  function Locate(reference: seq<Outcode>, id: string): (r: Option<Coord>)
    ensures r.None? <==> forall i :: 0 <= i < |reference| ==> reference[i].id != id
    ensures r.Some? ==> Outcode(id, r.value) in reference
  {
    if reference == [] then None
    else if reference[0].id == id then Some(reference[0].coord)
    else
      var r := Locate(reference[1..], id);
      assert forall i :: 0 < i < |reference| ==> reference[i] == reference[1..][i - 1];
      r
  }

  /** The destination_coordinates dict, built destination by destination;
      a destination missing from the reference table raises KeyError. */
  function Coordinates(reference: seq<Outcode>, dests: seq<string>): (r: Result<map<string, Coord>, Exception>)
    ensures r.Success? <==> forall k :: 0 <= k < |dests| ==> Locate(reference, dests[k]).Some?
    ensures r.Failure? ==> r.error == KeyError
    ensures r.Success? ==> r.value.Keys == Members(dests)
    ensures r.Success? ==> forall k :: 0 <= k < |dests| ==>
              dests[k] in r.value && Locate(reference, dests[k]) == Some(r.value[dests[k]])
    decreases |dests|
  {
    if dests == [] then Success(map[])
    else
      var before := dests[..|dests| - 1];
      assert forall k :: 0 <= k < |before| ==> before[k] == dests[k];
      match Coordinates(reference, before)
      case Failure(e) => Failure(e)
      case Success(m) =>
        match Locate(reference, Last(dests))
        case None => Failure(KeyError)
        case Some(c) =>
          assert dests == before + [Last(dests)];
          MembersAppend(before, Last(dests));
          Success(m[Last(dests) := c])
  }

  /** Every destination has a budget and coordinates. */
  predicate Known(dests: seq<string>, minutes: map<string, int>, coords: map<string, Coord>) {
    forall k :: 0 <= k < |dests| ==> dests[k] in minutes && dests[k] in coords
  }

  /** pc.loc[p, d] = t for one row. */
  function Record(r: Row, d: string, t: int): Row {
    r.(times := r.times[d := t])
  }

  /** get_distance(orig_lat, orig_lon, dest_lat, dest_lon): a travel time
      in minutes or the exception the parse raised. */
  type Router = (Coord, Coord) -> Result<int, Exception>

  /** The travel time from an origin to one fixed destination. */
  type Query = Coord -> Result<int, Exception>

  /** get_distance as the routing page and the summary parse define it. */
  function ViaOracle(oracle: Oracle): Router {
    (origin, dest) => QueryTime(oracle, origin, dest)
  }

  /** get_distance towards dest, as the inner loop calls it. */
  function Towards(router: Router, dest: Coord): Query {
    origin => router(origin, dest)
  }

  /** The inner loop over the rows for destination d: each row is queried
      once, in table order, and its result written into column d; the first
      exception raised by a query ends the search. */
  function Annotate(rows: seq<Row>, d: string, query: Query): (r: Result<seq<Row>, Exception>)
    ensures r.Success? <==> forall i :: 0 <= i < |rows| ==> query(rows[i].site.coord).Success?
    ensures r.Success? ==>
              |r.value| == |rows| &&
              forall i :: 0 <= i < |rows| ==> r.value[i] == Record(rows[i], d, query(rows[i].site.coord).value)
    decreases |rows|
  {
    if rows == [] then Success([])
    else
      var before := rows[..|rows| - 1];
      assert forall i :: 0 <= i < |before| ==> before[i] == rows[i];
      match Annotate(before, d, query)
      case Failure(e) => Failure(e)
      case Success(done) =>
        match query(Last(rows).site.coord)
        case Failure(e) => Failure(e)
        case Success(t) => Success(done + [Record(Last(rows), d, t)])
  }

  /** One iteration of the outer loop: fill column d, then keep the rows
      within the budget for d. */
  function Step(rows: seq<Row>, d: string, budget: int, dest: Coord, router: Router): Result<seq<Row>, Exception> {
    match Annotate(rows, d, Towards(router, dest))
    case Failure(e) => Failure(e)
    case Success(filled) => Success(WithinBudget(filled, d, budget))
  }

  /** The outer loop over the destinations, in their insertion order. */
  function Run(rows: seq<Row>, dests: seq<string>, minutes: map<string, int>,
               coords: map<string, Coord>, router: Router): Result<seq<Row>, Exception>
    requires Known(dests, minutes, coords)
    decreases |dests|
  {
    if dests == [] then Success(rows)
    else
      var d := Last(dests);
      match Run(rows, dests[..|dests| - 1], minutes, coords, router)
      case Failure(e) => Failure(e)
      case Success(prev) => Step(prev, d, minutes[d], coords[d], router)
  }

  /** d = list(pc.columns)[-1]; pc = pc[pc[d].le(destination_distances[d])];
      KeyError when the last column has no budget. */
  function FinalPass(rows: seq<Row>, columns: seq<string>, minutes: map<string, int>): Result<seq<Row>, Exception>
    requires |columns| > 0
  {
    var d := Last(columns);
    if d !in minutes then Failure(KeyError) else Success(WithinBudget(rows, d, minutes[d]))
  }

  /** The destination loop followed by the final pass. */
  function Eliminate(rows: seq<Row>, dests: seq<string>, minutes: map<string, int>,
                     coords: map<string, Coord>, router: Router): Result<seq<Row>, Exception>
    requires Known(dests, minutes, coords)
  {
    match Run(rows, dests, minutes, coords, router)
    case Failure(e) => Failure(e)
    case Success(out) => FinalPass(out, Columns(dests), minutes)
  }

  /** A destination dict whose coordinates were all found has a budget and
      coordinates for every destination. */
  lemma CoordinatesKnown(reference: seq<Outcode>, budgets: Dict<int>)
    requires budgets.Valid() && Coordinates(reference, budgets.keys).Success?
    ensures Known(budgets.keys, budgets.values, Coordinates(reference, budgets.keys).value)
  {
  }

  /** The part of PostcodeFinder.__init__ that can raise: the destination
      coordinates (KeyError) and the search boundary (ValueError when there
      are no destinations, SearchAreaError when it is empty). */
  function Prepare(reference: seq<Outcode>, budgets: Dict<int>, delta: DeltaFn): (r: Result<(map<string, Coord>, Box), Exception>)
    requires budgets.Valid()
    ensures r.Success? ==> Coordinates(reference, budgets.keys) == Success(r.value.0)
    ensures r.Success? ==> Known(budgets.keys, budgets.values, r.value.0)
  {
    match Coordinates(reference, budgets.keys)
    case Failure(e) => Failure(e)
    case Success(coords) =>
      CoordinatesKnown(reference, budgets);
      match SearchBoundary(budgets.keys, coords, budgets.values, delta)
      case Failure(e) => Failure(e)
      case Success(sb) => Success((coords, sb))
  }

  /** The finder's whole search: PostcodeFinder(input_dict) followed by main(). */
  function FinderSearch(reference: seq<Outcode>, budgets: Dict<int>, delta: DeltaFn, router: Router): Result<seq<Row>, Exception>
    requires budgets.Valid()
  {
    match Prepare(reference, budgets, delta)
    case Failure(e) => Failure(e)
    case Success((coords, sb)) => Eliminate(WithinBox(reference, sb), budgets.keys, budgets.values, coords, router)
  }

  /** The script's whole search: coordinates, the box given as parameters,
      elimination. */
  function ScriptSearch(reference: seq<Outcode>, area: Box, budgets: Dict<int>, router: Router): Result<seq<Row>, Exception>
    requires budgets.Valid()
  {
    match Coordinates(reference, budgets.keys)
    case Failure(e) => Failure(e)
    case Success(coords) =>
      CoordinatesKnown(reference, budgets);
      Eliminate(WithinBox(reference, area), budgets.keys, budgets.values, coords, router)
  }

  // ---- Selection predicates ---------------------------------------------

  /** The outcode's travel time to dest is known and within the budget. */
  predicate WithinTime(router: Router, o: Outcode, dest: Coord, budget: int) {
    match router(o.coord, dest)
    case Success(t) => t <= budget
    case Failure(_) => false
  }

  /** The outcode is within the budget of every destination. */
  predicate WithinAll(router: Router, o: Outcode, dests: seq<string>, minutes: map<string, int>, coords: map<string, Coord>)
    requires Known(dests, minutes, coords)
  {
    forall k :: 0 <= k < |dests| ==> WithinTime(router, o, coords[dests[k]], minutes[dests[k]])
  }

  /** Each destination column of the row holds the router's travel time for
      its outcode, within that destination's budget. */
  predicate Measured(r: Row, dests: seq<string>, minutes: map<string, int>, coords: map<string, Coord>, router: Router)
    requires Known(dests, minutes, coords)
  {
    forall k :: 0 <= k < |dests| ==>
      dests[k] in r.times &&
      router(r.site.coord, coords[dests[k]]) == Success(r.times[dests[k]]) &&
      r.times[dests[k]] <= minutes[dests[k]]
  }

  // ---- Lemmas: one destination ------------------------------------------

  /** Filling a column changes no outcode. */
  lemma AnnotateKeepsSites(rows: seq<Row>, d: string, dest: Coord, router: Router)
    requires Annotate(rows, d, Towards(router, dest)).Success?
    ensures Sites(Annotate(rows, d, Towards(router, dest)).value) == Sites(rows)
  {
  }

  /** After destination d, the rows left are exactly those whose travel time
      to d is within its budget, in their previous order and with their
      previous coordinates. */
  lemma StepSelects(rows: seq<Row>, d: string, budget: int, dest: Coord, router: Router)
    requires Step(rows, d, budget, dest, router).Success?
    ensures Sites(Step(rows, d, budget, dest, router).value) == Filter(Sites(rows), o => WithinTime(router, o, dest, budget))
    ensures IsSubsequence(Sites(Step(rows, d, budget, dest, router).value), Sites(rows))
  {
    var filled := Annotate(rows, d, Towards(router, dest)).value;
    var keep := (r: Row) => MeetsBudget(r, d, budget);
    var keepSite := (o: Outcode) => WithinTime(router, o, dest, budget);
    forall i | 0 <= i < |filled| ensures keep(filled[i]) == keepSite(filled[i].site) {
      assert filled[i] == Record(rows[i], d, router(rows[i].site.coord, dest).value);
    }
    SitesOfFilter(filled, keep, keepSite);
    AnnotateKeepsSites(rows, d, dest, router);
    FilterIsSubsequence(Sites(rows), keepSite);
  }

  /** Every row left after destination d is a row from before with column d
      set to its travel time, which is within the budget. */
  lemma StepRecords(rows: seq<Row>, d: string, budget: int, dest: Coord, router: Router)
    requires Step(rows, d, budget, dest, router).Success?
    ensures forall r :: r in Step(rows, d, budget, dest, router).value ==>
              d in r.times && router(r.site.coord, dest) == Success(r.times[d]) &&
              r.times[d] <= budget &&
              exists j :: 0 <= j < |rows| && r == Record(rows[j], d, r.times[d])
  {
    var filled := Annotate(rows, d, Towards(router, dest)).value;
    var next := Step(rows, d, budget, dest, router).value;
    FilterMembers(filled, (r: Row) => MeetsBudget(r, d, budget));
    forall r | r in next
      ensures d in r.times && router(r.site.coord, dest) == Success(r.times[d]) &&
              r.times[d] <= budget &&
              exists j :: 0 <= j < |rows| && r == Record(rows[j], d, r.times[d])
    {
      var i :| 0 <= i < |next| && next[i] == r;
      assert r in filled && MeetsBudget(r, d, budget);
      var j :| 0 <= j < |filled| && filled[j] == r;
      assert r == Record(rows[j], d, router(rows[j].site.coord, dest).value);
    }
  }

  // ---- Lemmas: the destination loop -------------------------------------

  lemma KnownPrefix(dests: seq<string>, minutes: map<string, int>, coords: map<string, Coord>)
    requires |dests| > 0 && Known(dests, minutes, coords)
    ensures Known(dests[..|dests| - 1], minutes, coords)
    ensures Last(dests) in minutes && Last(dests) in coords
  {
  }

  /** Being within every budget is being within every budget but the last,
      and within the last. */
  lemma WithinAllSplit(router: Router, o: Outcode, dests: seq<string>, minutes: map<string, int>, coords: map<string, Coord>)
    requires |dests| > 0 && Known(dests, minutes, coords)
    ensures Known(dests[..|dests| - 1], minutes, coords)
    ensures WithinAll(router, o, dests, minutes, coords) ==
            (WithinAll(router, o, dests[..|dests| - 1], minutes, coords) &&
             WithinTime(router, o, coords[Last(dests)], minutes[Last(dests)]))
  {
    var before := dests[..|dests| - 1];
    assert forall k :: 0 <= k < |before| ==> before[k] == dests[k];
  }

  /** The loop keeps exactly the outcodes within the budget of every
      destination, in their original order. */
  lemma {:induction false} RunSelects(rows: seq<Row>, dests: seq<string>, minutes: map<string, int>,
                                      coords: map<string, Coord>, router: Router)
    requires Known(dests, minutes, coords)
    requires Run(rows, dests, minutes, coords, router).Success?
    ensures Sites(Run(rows, dests, minutes, coords, router).value) ==
            Filter(Sites(rows), o => WithinAll(router, o, dests, minutes, coords))
    decreases |dests|
  {
    if dests == [] {
      FilterKeepsAll(Sites(rows), o => WithinAll(router, o, dests, minutes, coords));
    } else {
      var before := dests[..|dests| - 1];
      var d := Last(dests);
      KnownPrefix(dests, minutes, coords);
      var prev := Run(rows, before, minutes, coords, router).value;
      RunSelects(rows, before, minutes, coords, router);
      StepSelects(prev, d, minutes[d], coords[d], router);
      var p := (o: Outcode) => WithinAll(router, o, before, minutes, coords);
      var q := (o: Outcode) => WithinTime(router, o, coords[d], minutes[d]);
      var both := (o: Outcode) => WithinAll(router, o, dests, minutes, coords);
      forall i | 0 <= i < |Sites(rows)| ensures both(Sites(rows)[i]) == (p(Sites(rows)[i]) && q(Sites(rows)[i])) {
        WithinAllSplit(router, Sites(rows)[i], dests, minutes, coords);
      }
      FilterTwice(Sites(rows), p, q, both);
    }
  }

  /** Every row the loop keeps holds, in each destination column, the
      router's travel time for its outcode, within that destination's budget. */
  lemma {:induction false} RunMeasures(rows: seq<Row>, dests: seq<string>, minutes: map<string, int>,
                                       coords: map<string, Coord>, router: Router)
    requires Known(dests, minutes, coords)
    requires Run(rows, dests, minutes, coords, router).Success?
    ensures forall r :: r in Run(rows, dests, minutes, coords, router).value ==>
              Measured(r, dests, minutes, coords, router)
    decreases |dests|
  {
    if dests != [] {
      var before := dests[..|dests| - 1];
      var d := Last(dests);
      KnownPrefix(dests, minutes, coords);
      var prev := Run(rows, before, minutes, coords, router).value;
      RunMeasures(rows, before, minutes, coords, router);
      StepRecords(prev, d, minutes[d], coords[d], router);
      forall r | r in Run(rows, dests, minutes, coords, router).value
        ensures Measured(r, dests, minutes, coords, router)
      {
        var j :| 0 <= j < |prev| && r == Record(prev[j], d, r.times[d]);
        assert prev[j] in prev;
        MeasuredAfterRecord(prev[j], r, dests, minutes, coords, router);
      }
    }
  }

  /** A row measured for all destinations but the last, whose last column
      is then set to its travel time within budget, is measured for all. */
  lemma MeasuredAfterRecord(before: Row, after: Row, dests: seq<string>, minutes: map<string, int>,
                            coords: map<string, Coord>, router: Router)
    requires |dests| > 0 && Known(dests, minutes, coords)
    requires Measured(before, dests[..|dests| - 1], minutes, coords, router)
    requires var d := Last(dests);
             d in after.times && after == Record(before, d, after.times[d]) &&
             router(after.site.coord, coords[d]) == Success(after.times[d]) && after.times[d] <= minutes[d]
    ensures Measured(after, dests, minutes, coords, router)
  {
    var prefix := dests[..|dests| - 1];
    forall k | 0 <= k < |dests|
      ensures dests[k] in after.times &&
              router(after.site.coord, coords[dests[k]]) == Success(after.times[dests[k]]) &&
              after.times[dests[k]] <= minutes[dests[k]]
    {
      if k < |prefix| {
        assert prefix[k] == dests[k];
      }
    }
  }

  /** Started from the freshly reindexed table, the rows kept have a value
      in exactly the destination columns. */
  lemma {:induction false} RunFillsExactlyDestinations(rows: seq<Row>, dests: seq<string>, minutes: map<string, int>,
                                                       coords: map<string, Coord>, router: Router)
    requires Known(dests, minutes, coords)
    requires forall i :: 0 <= i < |rows| ==> rows[i].times == map[]
    requires Run(rows, dests, minutes, coords, router).Success?
    ensures forall r, x :: r in Run(rows, dests, minutes, coords, router).value ==> (x in r.times <==> x in dests)
    decreases |dests|
  {
    if dests != [] {
      var before := dests[..|dests| - 1];
      var d := Last(dests);
      KnownPrefix(dests, minutes, coords);
      var prev := Run(rows, before, minutes, coords, router).value;
      RunFillsExactlyDestinations(rows, before, minutes, coords, router);
      StepRecords(prev, d, minutes[d], coords[d], router);
      assert dests == before + [d];
      forall r, x | r in Run(rows, dests, minutes, coords, router).value ensures x in r.times <==> x in dests {
        var j :| 0 <= j < |prev| && r == Record(prev[j], d, r.times[d]);
        assert prev[j] in prev;
      }
    }
  }

  /** The loop only ever drops rows and keeps their order. */
  lemma RunShrinks(rows: seq<Row>, dests: seq<string>, minutes: map<string, int>,
                   coords: map<string, Coord>, router: Router)
    requires Known(dests, minutes, coords)
    requires Run(rows, dests, minutes, coords, router).Success?
    ensures IsSubsequence(Sites(Run(rows, dests, minutes, coords, router).value), Sites(rows))
    ensures |Run(rows, dests, minutes, coords, router).value| <= |rows|
  {
    RunSelects(rows, dests, minutes, coords, router);
    FilterIsSubsequence(Sites(rows), o => WithinAll(router, o, dests, minutes, coords));
  }

  /** An outcode for which the routing page never has a summary gets -1 for
      every destination, and with every budget positive it survives. */
  lemma UnroutableSurvives(rows: seq<Row>, dests: seq<string>, minutes: map<string, int>,
                           coords: map<string, Coord>, oracle: Oracle, i: int)
    requires Known(dests, minutes, coords)
    requires Run(rows, dests, minutes, coords, ViaOracle(oracle)).Success?
    requires 0 <= i < |rows|
    requires forall k :: 0 <= k < |dests| ==> oracle(rows[i].site.coord, coords[dests[k]]) == None
    requires forall k :: 0 <= k < |dests| ==> minutes[dests[k]] > 0
    ensures rows[i].site in Sites(Run(rows, dests, minutes, coords, ViaOracle(oracle)).value)
  {
    var router := ViaOracle(oracle);
    RunSelects(rows, dests, minutes, coords, router);
    FilterMembers(Sites(rows), o => WithinAll(router, o, dests, minutes, coords));
    assert Sites(rows)[i] == rows[i].site;
    forall k | 0 <= k < |dests| ensures WithinTime(router, rows[i].site, coords[dests[k]], minutes[dests[k]]) {
      UnavailableIsSentinel(oracle, rows[i].site.coord, coords[dests[k]]);
    }
    assert WithinAll(router, rows[i].site, dests, minutes, coords);
  }

  /** An outcode whose travel time to some destination exceeds that
      destination's budget is not in the result. */
  lemma OverBudgetEliminated(rows: seq<Row>, dests: seq<string>, minutes: map<string, int>,
                             coords: map<string, Coord>, router: Router, o: Outcode, k: int, t: int)
    requires Known(dests, minutes, coords)
    requires Run(rows, dests, minutes, coords, router).Success?
    requires 0 <= k < |dests|
    requires router(o.coord, coords[dests[k]]) == Success(t) && t > minutes[dests[k]]
    ensures o !in Sites(Run(rows, dests, minutes, coords, router).value)
  {
    RunSelects(rows, dests, minutes, coords, router);
    FilterMembers(Sites(rows), o => WithinAll(router, o, dests, minutes, coords));
    assert !WithinAll(router, o, dests, minutes, coords);
  }

  // ---- Lemmas: failures -------------------------------------------------

  /** A query that raises ends the inner loop with that exception, whatever
      the rows after it. */
  lemma {:induction false} AnnotateFailurePersists(rows: seq<Row>, n: nat, d: string, query: Query)
    requires n <= |rows|
    requires Annotate(rows[..n], d, query).Failure?
    ensures Annotate(rows, d, query) == Annotate(rows[..n], d, query)
    decreases |rows| - n
  {
    if n < |rows| {
      assert rows[..|rows| - 1][..n] == rows[..n];
      AnnotateFailurePersists(rows[..|rows| - 1], n, d, query);
    } else {
      assert rows[..n] == rows;
    }
  }

  /** An exception raised for one destination ends the search with it,
      whatever the destinations after it. */
  lemma {:induction false} RunFailurePersists(rows: seq<Row>, dests: seq<string>, n: nat, minutes: map<string, int>,
                                              coords: map<string, Coord>, router: Router)
    requires n <= |dests| && Known(dests, minutes, coords)
    requires Run(rows, dests[..n], minutes, coords, router).Failure?
    ensures Run(rows, dests, minutes, coords, router) == Run(rows, dests[..n], minutes, coords, router)
    decreases |dests| - n
  {
    if n < |dests| {
      KnownPrefix(dests, minutes, coords);
      assert dests[..|dests| - 1][..n] == dests[..n];
      RunFailurePersists(rows, dests[..|dests| - 1], n, minutes, coords, router);
    } else {
      assert dests[..n] == dests;
    }
  }

  // ---- Lemmas: loop steps of the two implementations --------------------

  /** One more row queried successfully extends the filled prefix by that
      row with its cell written. */
  lemma InnerLoopWrites(entry: seq<Row>, p: nat, d: string, query: Query, done: seq<Row>, t: int)
    requires p < |entry|
    requires Annotate(entry[..p], d, query) == Success(done)
    requires query(entry[p].site.coord) == Success(t)
    ensures Annotate(entry[..p + 1], d, query) == Success(done + [Record(entry[p], d, t)])
  {
    assert entry[..p + 1][..p] == entry[..p];
  }

  /** A query raising on row p ends the inner loop with its exception. */
  lemma InnerLoopRaises(entry: seq<Row>, p: nat, d: string, query: Query, e: Exception)
    requires p < |entry|
    requires Annotate(entry[..p], d, query).Success?
    requires query(entry[p].site.coord) == Failure(e)
    ensures Annotate(entry, d, query) == Failure(e)
  {
    assert entry[..p + 1][..p] == entry[..p];
    AnnotateFailurePersists(entry, p + 1, d, query);
  }

  /** Finishing destination k is one step of the outer loop. */
  lemma OuterLoopStep(initial: seq<Row>, destinations: seq<string>, k: nat, minutes: map<string, int>,
                      coords: map<string, Coord>, router: Router, entry: seq<Row>)
    requires k < |destinations| && Known(destinations, minutes, coords)
    requires Run(initial, destinations[..k], minutes, coords, router) == Success(entry)
    requires Annotate(entry, destinations[k], Towards(router, coords[destinations[k]])).Success?
    ensures Known(destinations[..k + 1], minutes, coords)
    ensures Run(initial, destinations[..k + 1], minutes, coords, router) ==
            Success(WithinBudget(Annotate(entry, destinations[k], Towards(router, coords[destinations[k]])).value,
                                 destinations[k], minutes[destinations[k]]))
  {
    assert destinations[..k + 1][..k] == destinations[..k];
  }

  /** An exception while filling destination k ends the whole search with it. */
  lemma StepRaises(initial: seq<Row>, destinations: seq<string>, k: nat, minutes: map<string, int>,
                   coords: map<string, Coord>, router: Router, entry: seq<Row>)
    requires k < |destinations| && Known(destinations, minutes, coords)
    requires Run(initial, destinations[..k], minutes, coords, router) == Success(entry)
    requires Annotate(entry, destinations[k], Towards(router, coords[destinations[k]])).Failure?
    ensures Run(initial, destinations, minutes, coords, router) ==
            Failure(Annotate(entry, destinations[k], Towards(router, coords[destinations[k]])).error)
  {
    assert destinations[..k + 1][..k] == destinations[..k];
    RunFailurePersists(initial, destinations, k + 1, minutes, coords, router);
  }

  // ---- Lemmas: the final pass -------------------------------------------

  /** The last column is the last destination, whose budget the loop has
      already enforced, so the final pass removes nothing. */
  lemma FinalPassIsNoOp(rows: seq<Row>, dests: seq<string>, minutes: map<string, int>,
                        coords: map<string, Coord>, router: Router)
    requires Known(dests, minutes, coords) && dests != []
    requires Run(rows, dests, minutes, coords, router).Success?
    ensures Eliminate(rows, dests, minutes, coords, router) == Run(rows, dests, minutes, coords, router)
  {
    var out := Run(rows, dests, minutes, coords, router).value;
    var d := Last(dests);
    RunMeasures(rows, dests, minutes, coords, router);
    forall i | 0 <= i < |out| ensures MeetsBudget(out[i], d, minutes[d]) {
      assert out[i] in out;
      assert Measured(out[i], dests, minutes, coords, router);
      assert dests[|dests| - 1] == d;
    }
    FilterKeepsAll(out, r => MeetsBudget(r, d, minutes[d]));
  }

  /** With no destinations the last column is 'longitude', which has no
      budget: the final pass raises KeyError. */
  lemma NoDestinationsRaisesKeyError(reference: seq<Outcode>, area: Box, budgets: Dict<int>, router: Router)
    requires budgets.Valid() && budgets.keys == []
    ensures ScriptSearch(reference, area, budgets, router) == Failure(KeyError)
  {
  }

  /** Elimination from the freshly reindexed table succeeds only with at
      least one destination, and then keeps exactly the outcodes within every
      budget, in their order, each row holding exactly its travel times. */
  lemma EliminateSelects(rows: seq<Row>, dests: seq<string>, minutes: map<string, int>,
                         coords: map<string, Coord>, router: Router)
    requires Known(dests, minutes, coords)
    requires dests == [] ==> "longitude" !in minutes
    requires forall i :: 0 <= i < |rows| ==> rows[i].times == map[]
    requires Eliminate(rows, dests, minutes, coords, router).Success?
    ensures dests != []
    ensures var out := Eliminate(rows, dests, minutes, coords, router).value;
            Sites(out) == Filter(Sites(rows), o => WithinAll(router, o, dests, minutes, coords)) &&
            forall r :: r in out ==> Measured(r, dests, minutes, coords, router)
                                     && forall x :: x in r.times <==> x in dests
  {
    RunSelects(rows, dests, minutes, coords, router);
    RunMeasures(rows, dests, minutes, coords, router);
    RunFillsExactlyDestinations(rows, dests, minutes, coords, router);
    if dests != [] {
      FinalPassIsNoOp(rows, dests, minutes, coords, router);
    }
  }

  /** The reindexed box filter holds exactly the reference rows inside the
      box, with no destination column filled. */
  lemma FreshRows(reference: seq<Outcode>, b: Box)
    ensures Sites(WithinBox(reference, b)) == Filter(reference, o => InBox(b, o))
    ensures forall i :: 0 <= i < |WithinBox(reference, b)| ==> WithinBox(reference, b)[i].times == map[]
  {
    SitesOfReindex(Filter(reference, o => InBox(b, o)));
  }

  /** The script's search succeeds only with a non-empty destination dict,
      and then yields exactly the outcodes inside the area that are within
      every budget, in reference order, each row holding its travel times. */
  lemma ScriptSearchSelects(reference: seq<Outcode>, area: Box, budgets: Dict<int>, router: Router)
    requires budgets.Valid()
    requires ScriptSearch(reference, area, budgets, router).Success?
    ensures budgets.keys != []
    ensures var coords := Coordinates(reference, budgets.keys).value;
            var out := ScriptSearch(reference, area, budgets, router).value;
            Known(budgets.keys, budgets.values, coords) &&
            Sites(out) == Filter(Filter(reference, o => InBox(area, o)),
                                 o => WithinAll(router, o, budgets.keys, budgets.values, coords)) &&
            forall r :: r in out ==> Measured(r, budgets.keys, budgets.values, coords, router)
                                     && forall x :: x in r.times <==> x in budgets.keys
  {
    if budgets.keys == [] {
      NoDestinationsRaisesKeyError(reference, area, budgets, router);
    }
    var coords := Coordinates(reference, budgets.keys).value;
    CoordinatesKnown(reference, budgets);
    FreshRows(reference, area);
    EliminateSelects(WithinBox(reference, area), budgets.keys, budgets.values, coords, router);
  }

  /** The finder's search succeeds only with a non-empty search area, and
      then yields exactly the outcodes inside that area that are within every
      budget, in reference order, each row holding its travel times; the area
      lies inside every destination's frame. */
  lemma FinderSearchSelects(reference: seq<Outcode>, budgets: Dict<int>, delta: DeltaFn, router: Router)
    requires budgets.Valid()
    requires FinderSearch(reference, budgets, delta, router).Success?
    ensures Prepare(reference, budgets, delta).Success? && budgets.keys != []
    ensures var (coords, sb) := Prepare(reference, budgets, delta).value;
            var out := FinderSearch(reference, budgets, delta, router).value;
            !IsEmpty(sb) &&
            (forall k :: 0 <= k < |budgets.keys| ==>
               Nested(sb, DestinationBox(coords[budgets.keys[k]], budgets.values[budgets.keys[k]], delta))) &&
            Sites(out) == Filter(Filter(reference, o => InBox(sb, o)),
                                 o => WithinAll(router, o, budgets.keys, budgets.values, coords)) &&
            forall r :: r in out ==> Measured(r, budgets.keys, budgets.values, coords, router)
                                     && forall x :: x in r.times <==> x in budgets.keys
  {
    var (coords, sb) := Prepare(reference, budgets, delta).value;
    PreparedArea(reference, budgets, delta);
    FreshRows(reference, sb);
    EliminateSelects(WithinBox(reference, sb), budgets.keys, budgets.values, coords, router);
  }

  /** A prepared search area comes from at least one destination, is not
      empty and lies inside every destination's frame. */
  lemma PreparedArea(reference: seq<Outcode>, budgets: Dict<int>, delta: DeltaFn)
    requires budgets.Valid()
    requires Prepare(reference, budgets, delta).Success?
    ensures var (coords, sb) := Prepare(reference, budgets, delta).value;
            budgets.keys != [] && !IsEmpty(sb) &&
            forall k :: 0 <= k < |budgets.keys| ==>
              Nested(sb, DestinationBox(coords[budgets.keys[k]], budgets.values[budgets.keys[k]], delta))
  {
    var (coords, sb) := Prepare(reference, budgets, delta).value;
    SearchBoundaryIsIntersection(budgets.keys, coords, budgets.values, delta);
  }
}
