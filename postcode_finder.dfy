/** postcode_finder.py, class PostcodeFinder: a search object built from a
    dict of destination budgets, which derives its search area, restricts the
    reference table to it, and then eliminates postcodes destination by
    destination. */
module Finder {
  import opened Wrappers
  import opened Py
  import opened Geo
  import opened Table
  import opened Routing
  import opened Search

  class PostcodeFinder {
    /** destination postcode -> budget in minutes, in insertion order */
    var destinationDistances: Dict<int>
    var destinations: seq<string>
    var destinationCoordinates: map<string, Coord>
    /** None until set_boundaries has stored a non-empty area */
    var searchBoundaries: Option<Box>
    /** the candidate table */
    var pc: seq<Row>

    /** The assignments at the head of __init__, before anything can raise. */
    constructor (destinationDistances: Dict<int>)
      ensures this.destinationDistances == destinationDistances
      ensures destinations == destinationDistances.keys
      ensures destinationCoordinates == map[] && searchBoundaries == None && pc == []
    {
      this.destinationDistances := destinationDistances;
      destinations := destinationDistances.keys;
      destinationCoordinates := map[];
      searchBoundaries := None;
      pc := [];
    }

    /** The rest of __init__: the coordinate lookup, set_boundaries, the box
        filter and the reindex. When it raises, Python discards the half-built
        object, so only the exception is stated. */
    method Setup(reference: seq<Outcode>, delta: DeltaFn) returns (outcome: Outcome<Exception>)
      requires destinationDistances.Valid() && destinations == destinationDistances.keys
      modifies this
      ensures destinationDistances == old(destinationDistances) && destinations == old(destinations)
      ensures match Prepare(reference, destinationDistances, delta)
              case Failure(e) => outcome == Fail(e)
              case Success((coords, sb)) =>
                outcome == Pass && destinationCoordinates == coords &&
                searchBoundaries == Some(sb) && pc == WithinBox(reference, sb)
    {
      outcome := FindCoordinates(reference);
      if outcome.Fail? {
        return;
      }
      CoordinatesKnown(reference, destinationDistances);
      searchBoundaries := None;
      outcome := SetBoundaries(delta);
      if outcome.Fail? {
        return;
      }
      pc := WithinBox(reference, searchBoundaries.value);
    }

    /** The loop filling destination_coordinates, one destination at a time;
        pc_raw.loc[x, ...] raises KeyError for a destination it does not index. */
    method FindCoordinates(reference: seq<Outcode>) returns (outcome: Outcome<Exception>)
      modifies this
      ensures destinationDistances == old(destinationDistances) && destinations == old(destinations)
      ensures searchBoundaries == old(searchBoundaries) && pc == old(pc)
      ensures match Coordinates(reference, destinations)
              case Failure(e) => outcome == Fail(e)
              case Success(coords) => outcome == Pass && destinationCoordinates == coords
    {
      destinationCoordinates := map[];
      var k := 0;
      while k < |destinations|
        invariant 0 <= k <= |destinations|
        invariant destinationDistances == old(destinationDistances) && destinations == old(destinations)
        invariant searchBoundaries == old(searchBoundaries) && pc == old(pc)
        invariant Coordinates(reference, destinations[..k]) == Success(destinationCoordinates)
      {
        var x := destinations[k];
        var found := Locate(reference, x);
        if found.None? {
          assert Coordinates(reference, destinations) == Failure(KeyError);
          return Fail(KeyError);
        }
        assert destinations[..k + 1][..k] == destinations[..k];
        destinationCoordinates := destinationCoordinates[x := found.value];
        k := k + 1;
      }
      assert destinations[..k] == destinations;
      return Pass;
    }

    /** set_boundaries: fills the matrix m with one frame per destination,
        takes their intersection, and raises SearchAreaError when it is empty
        (max() of an empty column raises ValueError first). */
    method SetBoundaries(delta: DeltaFn) returns (outcome: Outcome<Exception>)
      requires Known(destinations, destinationDistances.values, destinationCoordinates)
      modifies this
      ensures destinationDistances == old(destinationDistances) && destinations == old(destinations)
      ensures destinationCoordinates == old(destinationCoordinates) && pc == old(pc)
      ensures match SearchBoundary(destinations, destinationCoordinates, destinationDistances.values, delta)
              case Failure(e) => outcome == Fail(e) && searchBoundaries == old(searchBoundaries)
              case Success(sb) => outcome == Pass && searchBoundaries == Some(sb)
    {
      var dests := destinations;
      var coords := destinationCoordinates;
      var minutes := destinationDistances.values;
      var n := |dests|;
      var m := new Box[n](_ => Box(0.0, 0.0, 0.0, 0.0));
      for k := 0 to n
        modifies m
        invariant forall j :: 0 <= j < k ==> m[j] == DestinationBox(coords[dests[j]], minutes[dests[j]], delta)
      {
        m[k] := DestinationBox(coords[dests[k]], minutes[dests[k]], delta);
      }
      if n == 0 {
        return Fail(ValueError);
      }
      assert m[..] == DestinationBoxes(dests, coords, minutes, delta);
      var sb := Intersection(m[..]);
      if sb.minLat > sb.maxLat || sb.minLon > sb.maxLon {
        return Fail(SearchAreaError);
      }
      searchBoundaries := Some(sb);
      return Pass;
    }

    /** main: for each destination in insertion order fill its column and
        drop the rows over its budget; then filter on the last column once
        more. When a query raises, the partly filled table is not stated. */
    method RunSearch(oracle: Oracle) returns (outcome: Outcome<Exception>)
      requires Known(destinations, destinationDistances.values, destinationCoordinates)
      modifies this
      ensures destinationDistances == old(destinationDistances) && destinations == old(destinations)
      ensures destinationCoordinates == old(destinationCoordinates) && searchBoundaries == old(searchBoundaries)
      ensures match Eliminate(old(pc), destinations, destinationDistances.values, destinationCoordinates, ViaOracle(oracle))
              case Failure(e) => outcome == Fail(e)
              case Success(out) => outcome == Pass && pc == out
    {
      ghost var router := ViaOracle(oracle);
      ghost var initial := pc;
      var minutes := destinationDistances.values;
      var k := 0;
      while k < |destinations|
        invariant 0 <= k <= |destinations|
        invariant destinationDistances == old(destinationDistances) && destinations == old(destinations)
        invariant destinationCoordinates == old(destinationCoordinates) && searchBoundaries == old(searchBoundaries)
        invariant Known(destinations[..k], minutes, destinationCoordinates)
        invariant Run(initial, destinations[..k], minutes, destinationCoordinates, router) == Success(pc)
      {
        var d := destinations[k];
        var destCoord := destinationCoordinates[d];
        ghost var entry := pc;
        var filled := FillColumn(d, destCoord, oracle);
        if filled.Fail? {
          StepRaises(initial, destinations, k, minutes, destinationCoordinates, router, entry);
          return filled;
        }
        pc := WithinBudget(pc, d, minutes[d]);
        OuterLoopStep(initial, destinations, k, minutes, destinationCoordinates, router, entry);
        k := k + 1;
      }
      assert destinations[..k] == destinations;
      var columns := Columns(destinations);
      var d := columns[|columns| - 1];
      if d !in minutes {
        return Fail(KeyError);
      }
      pc := WithinBudget(pc, d, minutes[d]);
      return Pass;
    }

    /** The inner loop of main for destination d: each row of the table is
        queried once and pc.loc[p, d] written; an exception from the parse
        ends it. */
    method FillColumn(d: string, destCoord: Coord, oracle: Oracle) returns (outcome: Outcome<Exception>)
      modifies this
      ensures destinationDistances == old(destinationDistances) && destinations == old(destinations)
      ensures destinationCoordinates == old(destinationCoordinates) && searchBoundaries == old(searchBoundaries)
      ensures match Annotate(old(pc), d, Towards(ViaOracle(oracle), destCoord))
              case Failure(e) => outcome == Fail(e)
              case Success(filled) => outcome == Pass && pc == filled
    {
      ghost var query := Towards(ViaOracle(oracle), destCoord);
      ghost var entry := pc;
      var progress := 0;
      var p := 0;
      while p < |pc|
        invariant 0 <= p <= |pc| == |entry|
        invariant destinationDistances == old(destinationDistances) && destinations == old(destinations)
        invariant destinationCoordinates == old(destinationCoordinates) && searchBoundaries == old(searchBoundaries)
        invariant progress == p
        invariant pc[p..] == entry[p..]
        invariant Annotate(entry[..p], d, query) == Success(pc[..p])
      {
        var t := GetDistance(oracle(pc[p].site.coord, destCoord));
        assert query(entry[p].site.coord) == t;
        if t.Failure? {
          InnerLoopRaises(entry, p, d, query, t.error);
          return Fail(t.error);
        }
        InnerLoopWrites(entry, p, d, query, pc[..p], t.value);
        ghost var before := pc;
        pc := pc[p := Record(pc[p], d, t.value)];
        assert pc[..p + 1] == before[..p] + [Record(entry[p], d, t.value)];
        progress := progress + 1;
        p := p + 1;
      }
      assert entry[..p] == entry && pc[..p] == pc;
      return Pass;
    }
  }
}

/** postcode_finder.py, class Application: the form checks fp_main runs
    before it builds a PostcodeFinder, and the messages it shows. */
module Gui {
  import opened Wrappers
  import opened Seqs
  import opened Py
  import opened PyStr
  import opened Geo
  import opened Table
  import opened Routing
  import opened Search
  import opened Finder

  const InvalidFilename := "invalid filename"
  const EnterDestinations := "enter destination(s)"
  const InvalidPostcodes := "invalid postcode(s)"
  const InvalidDistances := "invalid distance(s)"
  const EmptySearchArea := "empty search area"

  /** c.isalpha(), c.isdigit(), or one of '_', '-', '.' */
  predicate FilenameChar(c: char) {
    IsAlpha(c) || IsDigit(c) || c == '_' || c == '-' || c == '.'
  }

  /** What valid_filename accepts, given the stripped entry. */
  predicate AcceptableFilename(name: string) {
    name == "" || forall i :: 0 <= i < |name| ==> FilenameChar(name[i])
  }

  /** pc_set: the postcodes that index the reference table. */
  function PcSet(reference: seq<Outcode>): set<string> {
    set o | o in reference :: o.id
  }

  /** Every entry stripped of surrounding whitespace. */
  function StripAll(entries: seq<string>): (r: seq<string>)
    ensures |r| == |entries| && forall i :: 0 <= i < |entries| ==> r[i] == Strip(entries[i])
  {
    seq(|entries|, i requires 0 <= i < |entries| => Strip(entries[i]))
  }

  /** input_dict[key] = value for each entry row in turn. */
  function Entered(keys: seq<string>, values: seq<string>): (d: Dict<string>)
    requires |keys| == |values|
    ensures d.Valid()
    decreases |keys|
  {
    if keys == [] then EmptyDict()
    else Insert(Entered(keys[..|keys| - 1], values[..|values| - 1]), Last(keys), Last(values))
  }

  /** The stripped entries, then input_dict[''] = '' and del input_dict[''],
      which drops a row left with no postcode. */
  function InputDict(pcs: seq<string>, dists: seq<string>): (d: Dict<string>)
    requires |pcs| == |dists|
    ensures d.Valid() && "" !in d.values
  {
    Delete(Insert(Entered(StripAll(pcs), StripAll(dists)), "", ""), "")
  }

  /** Every value converted in key order; None at the first that fails. */
  function ParseValues(keys: seq<string>, values: map<string, string>, convert: string -> Option<int>): (r: Option<map<string, int>>)
    requires forall i :: 0 <= i < |keys| ==> keys[i] in values
    ensures r.Some? <==> forall i :: 0 <= i < |keys| ==> convert(values[keys[i]]).Some?
    ensures r.Some? ==> r.value.Keys == Members(keys)
    ensures r.Some? ==> forall i :: 0 <= i < |keys| ==>
              keys[i] in r.value && convert(values[keys[i]]) == Some(r.value[keys[i]])
    decreases |keys|
  {
    if keys == [] then Some(map[])
    else
      var before := keys[..|keys| - 1];
      assert forall i :: 0 <= i < |before| ==> before[i] == keys[i];
      match ParseValues(before, values, convert)
      case None => None
      case Some(m) =>
        match convert(values[Last(keys)])
        case None => None
        case Some(n) =>
          assert keys == before + [Last(keys)];
          MembersAppend(before, Last(keys));
          Some(m[Last(keys) := n])
  }

  /** A value that fails to convert makes the whole conversion fail,
      whatever the keys after it. */
  lemma {:induction false} ParseValuesFailurePersists(keys: seq<string>, n: nat, values: map<string, string>,
                                                      convert: string -> Option<int>)
    requires n <= |keys| && forall i :: 0 <= i < |keys| ==> keys[i] in values
    requires ParseValues(keys[..n], values, convert).None?
    ensures ParseValues(keys, values, convert).None?
    decreases |keys| - n
  {
    if n < |keys| {
      assert keys[..|keys| - 1][..n] == keys[..n];
      ParseValuesFailurePersists(keys[..|keys| - 1], n, values, convert);
    } else {
      assert keys[..n] == keys;
    }
  }

  /** The checks of fp_main after the filename, on the input dict. */
  function CheckInput(input: Dict<string>, pcSet: set<string>, convert: string -> Option<int>): (r: Result<Dict<int>, string>)
    requires input.Valid()
    ensures r.Success? ==> r.value.Valid() && r.value.keys == input.keys
  {
    if |input.keys| == 0 then Failure(EnterDestinations)
    else if !(forall x | x in input.values :: x in pcSet) then Failure(InvalidPostcodes)
    else
      match ParseValues(input.keys, input.values, convert)
      case None => Failure(InvalidDistances)
      case Some(budgets) =>
        if exists x | x in budgets :: budgets[x] <= 0 then Failure(InvalidDistances)
        else Success(Dict(input.keys, budgets))
  }

  /** The validation sequence of fp_main: the message it shows, or the
      budgets dict it goes on to search with (int() converts the distances). */
  function CheckForm(saveEntry: string, pcs: seq<string>, dists: seq<string>, pcSet: set<string>): Result<Dict<int>, string>
    requires |pcs| == |dists|
  {
    if !AcceptableFilename(Strip(saveEntry)) then Failure(InvalidFilename)
    else CheckInput(InputDict(pcs, dists), pcSet, ParseInt)
  }

  // ---- Lemmas -----------------------------------------------------------

  /** The keys of the entered dict are the keys entered. */
  lemma {:induction false} EnteredKeys(keys: seq<string>, values: seq<string>)
    requires |keys| == |values|
    ensures Entered(keys, values).values.Keys == Members(keys)
    decreases |keys|
  {
    if keys != [] {
      var n := |keys| - 1;
      EnteredKeys(keys[..n], values[..n]);
      assert keys == keys[..n] + [keys[n]];
      MembersAppend(keys[..n], keys[n]);
    }
  }

  /** Row i is the last row entered with its key. */
  predicate LastEntry(keys: seq<string>, i: int) {
    0 <= i < |keys| && forall j :: i < j < |keys| ==> keys[j] != keys[i]
  }

  /** Three entry rows entered one after the other. */
  lemma EnteredThree(keys: seq<string>, values: seq<string>)
    requires |keys| == |values| == 3
    ensures Entered(keys, values) ==
            Insert(Insert(Insert(EmptyDict(), keys[0], values[0]), keys[1], values[1]), keys[2], values[2])
  {
    assert keys[..2][..1] == keys[..1] && values[..2][..1] == values[..1];
    assert Entered(keys[..1], values[..1]) == Insert(EmptyDict(), keys[0], values[0]);
    assert Entered(keys[..2], values[..2]) == Insert(Entered(keys[..1], values[..1]), keys[1], values[1]);
  }

  /** A row whose key is not entered again later sets that key's value. */
  lemma {:induction false} EnteredLastRow(keys: seq<string>, values: seq<string>, i: int)
    requires |keys| == |values| && LastEntry(keys, i)
    ensures keys[i] in Entered(keys, values).values
    ensures Entered(keys, values).values[keys[i]] == values[i]
    decreases |keys|
  {
    var n := |keys| - 1;
    if i < n {
      EnteredLastRow(keys[..n], values[..n], i);
      assert keys[n] != keys[i];
    }
  }

  /** A key of the entered dict is one of the keys entered, and its value is
      the one entered on the last row with that key. */
  lemma EnteredRows(keys: seq<string>, values: seq<string>)
    requires |keys| == |values|
    ensures forall k :: k in Entered(keys, values).values <==> k in keys
    ensures forall i :: LastEntry(keys, i) ==>
              keys[i] in Entered(keys, values).values && Entered(keys, values).values[keys[i]] == values[i]
  {
    EnteredKeys(keys, values);
    MembersListed(keys);
    forall i | LastEntry(keys, i)
      ensures keys[i] in Entered(keys, values).values && Entered(keys, values).values[keys[i]] == values[i]
    {
      EnteredLastRow(keys, values, i);
    }
  }

  /** input_dict[''] = '' followed by del input_dict[''] removes the key ''
      and leaves every other key's value as it was. */
  lemma DropEmptyKey(entered: Dict<string>)
    requires entered.Valid()
    ensures Delete(Insert(entered, "", ""), "").values == entered.values - {""}
  {
  }

  /** The dict fp_main searches with holds exactly the non-empty stripped
      postcode entries, each with the stripped distance of its last row. */
  lemma InputDictRows(pcs: seq<string>, dists: seq<string>)
    requires |pcs| == |dists|
    ensures var keys := StripAll(pcs);
            forall k :: k in InputDict(pcs, dists).values <==> k != "" && k in keys
    ensures var keys := StripAll(pcs);
            forall i :: LastEntry(keys, i) && keys[i] != "" ==>
              keys[i] in InputDict(pcs, dists).values && InputDict(pcs, dists).values[keys[i]] == StripAll(dists)[i]
  {
    var keys := StripAll(pcs);
    var entered := Entered(keys, StripAll(dists));
    EnteredRows(keys, StripAll(dists));
    DropEmptyKey(entered);
  }

  /** The checks after the filename pass exactly when some postcode was
      entered, every postcode is known, and every value converts to a
      positive integer; the budgets are then the converted values. */
  lemma CheckInputAccepts(input: Dict<string>, pcSet: set<string>, convert: string -> Option<int>)
    requires input.Valid()
    ensures CheckInput(input, pcSet, convert).Success? <==>
              |input.keys| > 0 && (forall x :: x in input.values ==> x in pcSet) &&
              forall i :: 0 <= i < |input.keys| ==>
                convert(input.values[input.keys[i]]).Some? && convert(input.values[input.keys[i]]).value > 0
    ensures CheckInput(input, pcSet, convert).Success? ==>
              var budgets := CheckInput(input, pcSet, convert).value;
              budgets.Valid() && budgets.keys == input.keys &&
              forall x :: x in input.values ==>
                x in budgets.values && convert(input.values[x]) == Some(budgets.values[x]) && budgets.values[x] > 0
  {
    if |input.keys| > 0 && (forall x :: x in input.values ==> x in pcSet) {
      match ParseValues(input.keys, input.values, convert)
      case None =>
      case Some(m) =>
        assert forall i :: 0 <= i < |input.keys| ==> convert(input.values[input.keys[i]]) == Some(m[input.keys[i]]);
        forall x | x in input.values ensures x in input.keys {
          MemberListed(input.keys, x);
        }
    }
  }

  /** fp_main goes on to search exactly when the filename is acceptable, some
      postcode was entered, every postcode is known, and every distance is a
      positive integer. */
  lemma CheckFormAccepts(saveEntry: string, pcs: seq<string>, dists: seq<string>, pcSet: set<string>)
    requires |pcs| == |dists|
    ensures var input := InputDict(pcs, dists);
            CheckForm(saveEntry, pcs, dists, pcSet).Success? <==>
              AcceptableFilename(Strip(saveEntry)) && |input.keys| > 0 &&
              (forall x :: x in input.values ==> x in pcSet) &&
              forall i :: 0 <= i < |input.keys| ==>
                ParseInt(input.values[input.keys[i]]).Some? && ParseInt(input.values[input.keys[i]]).value > 0
  {
    CheckInputAccepts(InputDict(pcs, dists), pcSet, ParseInt);
  }

  /** A dict the form accepts never makes PostcodeFinder raise KeyError or
      ValueError: only an empty search area can stop it. This relies on
      `delta` being total; compute_delta's own math-domain error for very
      large budgets is outside the model. */
  lemma FormGuardsFinder(reference: seq<Outcode>, saveEntry: string, pcs: seq<string>, dists: seq<string>, delta: DeltaFn)
    requires |pcs| == |dists|
    requires CheckForm(saveEntry, pcs, dists, PcSet(reference)).Success?
    ensures var budgets := CheckForm(saveEntry, pcs, dists, PcSet(reference)).value;
            budgets.Valid() &&
            (Prepare(reference, budgets, delta).Success? || Prepare(reference, budgets, delta) == Failure(SearchAreaError))
  {
    var input := InputDict(pcs, dists);
    var budgets := CheckForm(saveEntry, pcs, dists, PcSet(reference)).value;
    CheckInputAccepts(input, PcSet(reference), ParseInt);
    forall k | 0 <= k < |budgets.keys| ensures Locate(reference, budgets.keys[k]).Some? {
      var x := budgets.keys[k];
      assert x in PcSet(reference);
      var o :| o in reference && o.id == x;
    }
    var coords := Coordinates(reference, budgets.keys).value;
    CoordinatesKnown(reference, budgets);
    SearchBoundaryIsIntersection(budgets.keys, coords, budgets.values, delta);
  }

  /** The tkinter frame: the entry fields fp_main reads, its error label, and
      the text shown in its output widget (None when cleared). */
  class Application {
    var saveEntry: string
    var pcEntries: seq<string>
    var distEntries: seq<string>
    var errLabel: string
    var output: Option<seq<Row>>

    /** Three destination rows. */
    predicate Valid()
      reads this
    {
      |pcEntries| == 3 && |distEntries| == 3
    }

    constructor ()
      ensures Valid()
      ensures saveEntry == "" && pcEntries == ["", "", ""] && distEntries == ["", "", ""]
      ensures errLabel == "" && output == None
    {
      saveEntry := "";
      pcEntries := ["", "", ""];
      distEntries := ["", "", ""];
      errLabel := "";
      output := None;
    }

    /** valid_filename: the stripped entry is empty, or every character of
        it is a letter, a digit, '_', '-' or '.'. */
    method ValidFilename() returns (ok: bool)
      ensures ok <==> AcceptableFilename(Strip(saveEntry))
    {
      var name := Strip(saveEntry);
      if name == "" {
        return true;
      }
      for i := 0 to |name|
        invariant forall j :: 0 <= j < i ==> FilenameChar(name[j])
      {
        if !FilenameChar(name[i]) {
          return false;
        }
      }
      return true;
    }

    /** for x in input_dict.keys(): input_dict[x] = int(input_dict[x]),
        with the ValueError of a failed conversion caught. */
    static method ConvertDistances(input: Dict<string>, convert: string -> Option<int>) returns (budgets: Option<Dict<int>>)
      requires input.Valid()
      ensures match ParseValues(input.keys, input.values, convert)
              case None => budgets == None
              case Some(m) => budgets == Some(Dict(input.keys, m))
    {
      var converted: map<string, int> := map[];
      var k := 0;
      while k < |input.keys|
        invariant 0 <= k <= |input.keys|
        invariant ParseValues(input.keys[..k], input.values, convert) == Some(converted)
      {
        var x := input.keys[k];
        var n := convert(input.values[x]);
        assert input.keys[..k + 1][..k] == input.keys[..k];
        if n.None? {
          assert ParseValues(input.keys[..k + 1], input.values, convert).None?;
          ParseValuesFailurePersists(input.keys, k + 1, input.values, convert);
          return None;
        }
        converted := converted[x := n.value];
        k := k + 1;
      }
      assert input.keys[..k] == input.keys;
      return Some(Dict(input.keys, converted));
    }

    /** The validation sequence of fp_main, up to the budgets dict. */
    method ReadForm(pcSet: set<string>) returns (result: Result<Dict<int>, string>)
      requires Valid()
      ensures result == CheckForm(saveEntry, pcEntries, distEntries, pcSet)
    {
      var ok := ValidFilename();
      if !ok {
        return Failure(InvalidFilename);
      }
      var inputDict := ReadEntries();
      result := CheckEntries(inputDict, pcSet, ParseInt);
    }

    /** input_dict from the three entry rows, stripped, with the row left
        without a postcode dropped. */
    method ReadEntries() returns (inputDict: Dict<string>)
      requires Valid()
      ensures inputDict == InputDict(pcEntries, distEntries)
    {
      inputDict := EmptyDict();
      inputDict := Insert(inputDict, Strip(pcEntries[0]), Strip(distEntries[0]));
      inputDict := Insert(inputDict, Strip(pcEntries[1]), Strip(distEntries[1]));
      inputDict := Insert(inputDict, Strip(pcEntries[2]), Strip(distEntries[2]));
      EnteredThree(StripAll(pcEntries), StripAll(distEntries));
      inputDict := Insert(inputDict, "", "");
      inputDict := Delete(inputDict, "");
    }

    /** The checks of fp_main after the filename: some destination, known
        postcodes, distances that convert and are positive. */
    static method CheckEntries(inputDict: Dict<string>, pcSet: set<string>, convert: string -> Option<int>)
      returns (result: Result<Dict<int>, string>)
      requires inputDict.Valid()
      ensures result == CheckInput(inputDict, pcSet, convert)
    {
      if |inputDict.keys| == 0 {
        return Failure(EnterDestinations);
      }
      if !(forall x | x in inputDict.values :: x in pcSet) {
        return Failure(InvalidPostcodes);
      }
      var budgets := ConvertDistances(inputDict, convert);
      if budgets.None? {
        return Failure(InvalidDistances);
      }
      if exists x | x in budgets.value.values :: budgets.value.values[x] <= 0 {
        return Failure(InvalidDistances);
      }
      return Success(budgets.value);
    }

    /** fp_main: clear the label and the output, validate the form (showing
        the first failing check's message), build the finder (showing 'empty
        search area' for SearchAreaError), run its main, and show the table.
        Any other exception escapes the callback. */
    method FpMain(reference: seq<Outcode>, delta: DeltaFn, oracle: Oracle) returns (outcome: Outcome<Exception>)
      requires Valid()
      modifies this
      ensures Valid()
      ensures saveEntry == old(saveEntry) && pcEntries == old(pcEntries) && distEntries == old(distEntries)
      ensures match CheckForm(saveEntry, pcEntries, distEntries, PcSet(reference))
              case Failure(message) => outcome == Pass && errLabel == message && output == None
              case Success(budgets) =>
                match Prepare(reference, budgets, delta)
                case Failure(e) =>
                  output == None &&
                  if e == SearchAreaError then outcome == Pass && errLabel == EmptySearchArea
                  else outcome == Fail(e) && errLabel == ""
                case Success((coords, sb)) =>
                  errLabel == "" &&
                  match Eliminate(WithinBox(reference, sb), budgets.keys, budgets.values, coords, ViaOracle(oracle))
                  case Failure(e) => outcome == Fail(e) && output == None
                  case Success(out) => outcome == Pass && output == Some(out)
    {
      errLabel := "";
      output := None;
      var form := ReadForm(PcSet(reference));
      if form.Failure? {
        errLabel := form.error;
        return Pass;
      }
      var budgets := form.value;
      var pcf := new PostcodeFinder(budgets);
      var built := pcf.Setup(reference, delta);
      if built.Fail? {
        if built.error == SearchAreaError {
          errLabel := EmptySearchArea;
          return Pass;
        }
        return built;
      }
      var done := pcf.RunSearch(oracle);
      if done.Fail? {
        return done;
      }
      output := Some(pcf.pc);
      return Pass;
    }
  }
}
