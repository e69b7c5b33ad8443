# Postcode finder: a Dafny model of the search pipeline

The postcode finder looks for UK postcode outcodes from which every one of a
few destination postcodes can be reached by car within a time budget (minutes
per destination). The search has two forms:

- `postcode_finder.py`: a `PostcodeFinder` class driven by a tkinter form.
- `find_postcodes.py`: a script.

Both forms run the same pipeline:

1. **Destination coordinates.** Each destination is looked up in the reference
   table of outcodes (`pc_raw`). An unknown postcode raises KeyError.
2. **Search area.** This step belongs to the class only. Every destination gets
   a frame of half-widths `compute_delta(lat, lon, 1.5 * budget, axis)`. The
   search area is the intersection of these frames. An empty intersection
   raises `SearchAreaError`. With no destinations, `max()` of an empty column
   raises ValueError. The script instead takes its box as parameters.
3. **Box filter.** The reference table is restricted to the rows inside the
   box, bounds inclusive, and the destination columns are added empty (NaN).
4. **Elimination.** Destinations are taken in insertion order.
   - Every row is queried once, and its travel time is written in that
     destination's column.
   - The rows whose value is not `<=` the budget are dropped.
   - A page without a routing summary gives `-1`.
   - A summary that does not parse raises, and the exception ends the search.
5. **Final pass.** The filter is applied once more to the last column of the table.
6. **Form checks.** This step belongs to the class only. The form checks the
   output file name, collects the postcode/distance entries into a dict, and
   checks them:
   - some postcode was entered;
   - all postcodes are known;
   - every distance is an integer;
   - every distance is positive.

   Only then does it build the finder.

The model has the following parts:

- **`Search` (search.dfy):** the pipeline as functions. Its lemmas prove what the
  search returns:
  - exactly the outcodes inside the box that are within every budget, in
    reference order;
  - each row holds its travel time for every destination, and nothing else;
  - the final pass removes nothing;
  - an unroutable outcode survives;
  - an exception in any query ends the search with that exception.
- **Imperative implementations:** the class `Finder.PostcodeFinder`, the tkinter
  frame `Gui.Application`, and the module `Script`. Their loops are proved
  equal to the `Search` and `Gui` functions.
- **Geometry (geo.dfy):** the search area lies inside every destination's frame.
  It is empty exactly when the frames share no point. A single destination
  never gives an empty area. Larger budgets never shrink it, given that
  `compute_delta` grows with distance.
- **Travel-time parser (routing.dfy):** reading `h:mm` from the routing summary
  round-trips with the page's own `h:mm` formatting.
- **Python helpers (py.dfy, pystr.dfy):** a Python dict with insertion order and
  the string built-ins the source uses: `strip`, `rstrip`, `split` and `int()`.

Three behaviours of the code that the model keeps:

- A summary that cannot be parsed (ValueError from `int()`, or IndexError when
  the last token has no colon) aborts the search. It is not absorbed as
  "unavailable". Only a missing summary element gives the sentinel `-1`.
- The empty-area exception is `SearchAreaError`. A destination dict with no
  entries raises ValueError in the class (in `set_boundaries`). In the script
  it raises KeyError in the final pass, whose last column is then `longitude`.
- Rows are queried in the table's own order, the reference order restricted
  to the box.

## Model

| member | source | states |
|---|---|---|
| Geo.DestinationBox | postcode_finder.py:55-63 | the frame is centred on the destination, with half-widths compute_delta(lat, lon, 1.5 * budget, axis); it contains the destination and is never empty |
| Geo.MaxOf | postcode_finder.py:72 | max() of a non-empty column bounds every entry and is one of them |
| Geo.MinOf | postcode_finder.py:72 | min() of a non-empty column is below every entry and is one of them |
| Geo.DestinationBoxes | postcode_finder.py:68-70 | the matrix m has one row per destination, in destination order, each containing its destination |
| Geo.IntersectionNested | postcode_finder.py:72 | the intersection (max of minimums, min of maximums) lies inside every destination frame |
| Geo.IntersectionContains | postcode_finder.py:72 | a point is in the intersection exactly when it is in every frame |
| Geo.IntersectionEmpty | postcode_finder.py:75 | min > max on some axis exactly when no point lies in every frame |
| Geo.SearchBoundaryIsIntersection | postcode_finder.py:68-78 | for a compute_delta defined on every budget, set_boundaries either yields a non-empty boundary that is nested in every frame and is exactly their common part, or raises ValueError (no destinations) or SearchAreaError (frames share no point) |
| Geo.SingleDestinationNeverEmpty | postcode_finder.py:55-76 | with one destination no SearchAreaError is raised and the boundary contains the destination |
| Geo.DestinationBoxGrows | postcode_finder.py:55-63 | a larger budget gives a frame containing the smaller one, when compute_delta grows with distance |
| Geo.IntersectionMonotone | postcode_finder.py:72 | frames that each grow give an intersection that grows |
| Geo.BoundaryGrowsWithBudget | postcode_finder.py:55-72 | raising every budget never shrinks the search boundary |
| Py.Insert | postcode_finder.py:262-268 | d[k] = v stores v at k; a new key goes last in the order, an existing key keeps its place, keys stay distinct |
| Py.Delete | postcode_finder.py:270 | del d[k] removes k from the values and from the key order, the other keys keep their order |
| Py.MembersWithout | postcode_finder.py:270 | the keys left after deleting k are the previous keys without k |
| PyStr.TrimEnd | postcode_finder.py:132 | rstrip removes exactly the longest suffix of dropped characters: the result is a prefix ending in a kept character |
| PyStr.TrimStart | postcode_finder.py:323 | strip's left half removes exactly the longest prefix of dropped characters |
| PyStr.Split | postcode_finder.py:132 | split(sep) gives at least one piece, no piece contains sep, and joining the pieces with sep gives the input back |
| PyStr.SplitJoin | postcode_finder.py:132 | splitting pieces joined with a separator they do not contain gives the pieces back |
| PyStr.LastPiece | postcode_finder.py:132 | split(' ')[-1] of text ending in a space-free token after a space is that token |
| PyStr.ParseIntRoundTrip | postcode_finder.py:133 | int(str(n)) == n for every integer n |
| PyStr.ParsePad2 | postcode_finder.py:133 | int() of a two-digit minute field mm reads back its value |
| Routing.SummaryRoundTrip | postcode_finder.py:131-133 | a summary ending in " h:mm" as the page writes it, with any trailing dots, parses to h*60+mm, whatever text precedes it |
| Routing.ParseSummaryReadsToken | postcode_finder.py:131-133 | the parse reads hours and minutes from the last space-separated token with trailing dots stripped, as hours*60 + minutes |
| Routing.ParseSummaryOfInts | find_postcodes.py:25-27 | for any integers h, mm written with str(), the parse yields h*60+mm |
| Routing.MissingColonRaisesIndexError | postcode_finder.py:132-133 | a last token without a colon whose hour field is a number raises IndexError at z[1] |
| Routing.UnavailableIsSentinel | postcode_finder.py:126-128 | a page without a routing summary gives the travel time -1 |
| Table.WithinBoxSelects | postcode_finder.py:42-49 | the box filter keeps a reference row exactly when it lies in the box (bounds inclusive), keeps reference order, and every kept row has no destination value yet |
| Table.InvertedBoxSelectsNothing | find_postcodes.py:58-62 | an inverted parameter box raises nothing and selects no row |
| Table.WithinBudgetSelects | postcode_finder.py:108 | pc[pc[d].le(budget)] keeps a row exactly when its value in column d exists and is at most the budget, in order |
| Table.SitesOfFilter | postcode_finder.py:108 | filtering rows by a condition on their outcode filters the outcodes by that condition |
| Search.Columns | postcode_finder.py:46 | the candidate table's columns are latitude, longitude, then the destinations; the last is 'longitude' when there are none |
| Search.Locate | postcode_finder.py:34-35 | pc_raw.loc[x] finds a row indexed x, and fails exactly when no row has that index |
| Search.Coordinates | postcode_finder.py:33-35 | the lookup succeeds exactly when every destination is indexed, otherwise raises KeyError; it maps exactly the destinations to their located coordinates |
| Search.Prepare | postcode_finder.py:33-40 | when __init__ gets past set_boundaries, the coordinates are those of the lookup and every destination has a budget and coordinates |
| Search.Annotate | postcode_finder.py:98-105 | the inner loop succeeds exactly when every row's query succeeds, and then row i is row i with its query result written in column d |
| Search.AnnotateKeepsSites | postcode_finder.py:98-103 | filling a column changes no row's outcode or coordinates |
| Search.StepSelects | postcode_finder.py:98-108 | after destination d the outcodes left are exactly those whose travel time to d is within its budget, in previous order |
| Search.StepRecords | postcode_finder.py:98-108 | every row left after d is a previous row with column d set to its own travel time, which is within budget |
| Search.RunSelects | postcode_finder.py:91-109 | the loop keeps exactly the outcodes within the budget of every destination, in their order |
| Search.RunMeasures | postcode_finder.py:91-109 | every kept row holds, for each destination, the travel time of its outcode, within budget |
| Search.RunFillsExactlyDestinations | find_postcodes.py:62-82 | from the freshly reindexed table, kept rows hold a value in exactly the destination columns |
| Search.RunShrinks | postcode_finder.py:91-109 | the candidate set only ever loses rows and keeps their order |
| Search.UnroutableSurvives | postcode_finder.py:126-128 | an outcode for which no routing summary is found survives every destination when every budget is positive |
| Search.OverBudgetEliminated | find_postcodes.py:82 | an outcode whose travel time to some destination exceeds its budget is not in the result |
| Search.AnnotateFailurePersists | postcode_finder.py:101-103 | an exception raised by one query ends the inner loop with it, whatever the rows after it |
| Search.RunFailurePersists | postcode_finder.py:91-103 | an exception for one destination ends the search with it, whatever the destinations after it |
| Search.InnerLoopWrites | find_postcodes.py:75-81 | one more row queried successfully extends the filled prefix by that row with its cell written |
| Search.InnerLoopRaises | find_postcodes.py:78 | a query raising on row p ends the inner loop with its exception |
| Search.OuterLoopStep | find_postcodes.py:69-82 | finishing destination k is one step of the destination loop |
| Search.StepRaises | find_postcodes.py:69-78 | an exception while filling destination k ends the whole search with it |
| Search.FinalPassIsNoOp | postcode_finder.py:112-113 | with at least one destination, the final filter on the last column removes nothing |
| Search.NoDestinationsRaisesKeyError | find_postcodes.py:86-87 | with no destinations the last column is 'longitude', which has no budget: the script raises KeyError |
| Search.EliminateSelects | postcode_finder.py:91-113 | from the fresh table, elimination succeeds only with a destination, keeps exactly the outcodes within every budget, in order, each row holding exactly its travel times |
| Search.PreparedArea | postcode_finder.py:33-78 | a prepared search area comes from at least one destination, is not empty and lies inside every destination's frame |
| Search.ScriptSearchSelects | find_postcodes.py:50-87 | the script's result is exactly the outcodes inside the parameter box within every budget, in reference order, each row holding its travel times for exactly the destinations |
| Search.FinderSearchSelects | postcode_finder.py:23-113 | the finder's result is exactly the outcodes inside its non-empty search area within every budget, in reference order, the area nested in every frame, each row holding exactly its travel times |
| Script.DestinationCoordinates | find_postcodes.py:50-54 | the coordinate loop yields the lookup's result, KeyError at the first unknown destination |
| Script.FindPostcodes | find_postcodes.py:50-87 | the script computes exactly the search specified by ScriptSearch, its exception included |
| Script.FillColumn | find_postcodes.py:75-81 | the inner loop writes each row's travel time in column d in place, or stops with the first exception |
| Finder.PostcodeFinder.constructor | postcode_finder.py:23-38 | stores the budgets and the destinations in insertion order, with no coordinates, boundary or table yet |
| Finder.PostcodeFinder.Setup | postcode_finder.py:32-49 | __init__ raises what Prepare raises, otherwise stores the coordinates, the boundary and the box-filtered table |
| Finder.PostcodeFinder.FindCoordinates | postcode_finder.py:32-35 | the coordinate loop stores the lookup's map, or stops with KeyError |
| Finder.PostcodeFinder.SetBoundaries | postcode_finder.py:52-81 | fills m row by row, then stores the boundary or raises as SearchBoundary says, storing nothing on error |
| Finder.PostcodeFinder.RunSearch | postcode_finder.py:83-116 | main leaves in pc exactly what Eliminate computes from the table it started with, or raises its exception |
| Finder.PostcodeFinder.FillColumn | postcode_finder.py:98-105 | the inner loop writes each row's travel time in column d of pc, or stops with the first exception |
| Gui.Entered | postcode_finder.py:262-267 | the entries form a valid dict |
| Gui.EnteredKeys | postcode_finder.py:262-267 | the dict's keys are exactly the postcodes entered |
| Gui.EnteredLastRow | postcode_finder.py:262-267 | the last row entered with a postcode sets that postcode's value |
| Gui.EnteredThree | postcode_finder.py:262-267 | three rows entered one after the other build the dict of the three assignments |
| Gui.EnteredRows | postcode_finder.py:262-267 | a key of the dict is exactly a postcode entered, and its value is that of the last row with that postcode |
| Gui.InputDict | postcode_finder.py:262-270 | the input dict is valid and has no key '' |
| Gui.DropEmptyKey | postcode_finder.py:268-269 | input_dict[''] = '' then del input_dict[''] removes '' and leaves every other entry as it was |
| Gui.InputDictRows | postcode_finder.py:262-270 | the input dict holds exactly the non-empty stripped postcodes, each with the stripped distance of its last row |
| Gui.ParseValues | postcode_finder.py:277-282 | the conversion succeeds exactly when every value converts, and then maps exactly the keys to their converted values |
| Gui.ParseValuesFailurePersists | postcode_finder.py:277-282 | one value failing to convert fails the whole conversion |
| Gui.CheckInput | postcode_finder.py:271-285 | an accepted input gives a valid budgets dict with the same keys in the same order |
| Gui.CheckInputAccepts | postcode_finder.py:271-285 | the checks pass exactly when some postcode was entered, all are known, and every distance converts to a positive integer; the budgets are then the converted values |
| Gui.CheckFormAccepts | postcode_finder.py:258-285 | fp_main goes on to search exactly when the filename is acceptable and the entries pass those checks |
| Gui.FormGuardsFinder | postcode_finder.py:271-289 | for a compute_delta defined on every budget, a dict the form accepts never makes PostcodeFinder raise KeyError or ValueError; only an empty search area can stop it |
| Gui.Application.constructor | postcode_finder.py:192-254 | the frame starts with three empty destination rows, an empty file name, no message and no output |
| Gui.Application.ValidFilename | postcode_finder.py:322-330 | valid_filename is true exactly when the stripped name is empty or every character is a letter, a digit, '_', '-' or '.' |
| Gui.Application.ConvertDistances | postcode_finder.py:277-282 | the conversion loop yields the converted dict, or fails at the first value that does not convert |
| Gui.Application.ReadEntries | postcode_finder.py:262-270 | the three stripped rows, then the '' insertion and deletion, build exactly InputDict |
| Gui.Application.CheckEntries | postcode_finder.py:271-285 | the checks after the filename return the first failing check's message or the budgets, as CheckInput says |
| Gui.Application.ReadForm | postcode_finder.py:258-285 | the validation sequence returns the first failing message or the budgets, as CheckForm says |
| Gui.Application.FpMain | postcode_finder.py:256-299 | fp_main shows the first failing check's message, 'empty search area' for SearchAreaError, or the table Eliminate computes; any other exception escapes |

## Left out

- Fetching the routing page is not modelled. Selenium/Firefox, the URL
  template, `time.sleep` and the DOM lookup are replaced by an `Oracle`
  parameter that gives the text of the first `routing_summary` element, or
  none. The oracle is treated as deterministic.
- `compute_delta` and `compute_distance` are not modelled. They are
  floating-point trigonometry. `compute_delta` is a `DeltaFn` parameter with a
  non-negative result. Coordinates are exact reals.
- Gui.FormGuardsFinder: the math-domain ValueError of `compute_delta` is not
  modelled. `math.asin` raises it when its argument exceeds 1, which happens
  on the `lon` axis for very large budgets (at latitude 50.7, beyond about
  5,800 minutes). The form only rejects budgets that are not positive, so
  such a budget reaches `set_boundaries` and the ValueError escapes `fp_main`.
  In the model `DeltaFn` is total, so "no ValueError" holds only there.
  Geo.SearchBoundaryIsIntersection, Search.Prepare,
  Finder.PostcodeFinder.SetBoundaries and Gui.Application.FpMain share this
  gap: they list ValueError only for an empty destination dict.
- `PostcodeVisualiser.make_square` is not modelled. It is an unused stub.
- tkinter widget construction, `clear_error`/`clear_all`/`enter_sample` and the
  visualisation check box are not modelled. The entry fields are plain string
  fields of `Gui.Application`.
- Reading the CSV, the pickle dump, and every `print` are not modelled. They
  are I/O. The reference table is a parameter, and the saved file name is only
  validated.
- The `exec` of search_parameters.py is not modelled. The script's box and
  budgets are parameters.
- pandas `astype({d: int})` and dtypes are not modelled. Values are integers,
  and NaN is a missing key in a row's `times` map.
- pandas label indexing is modelled by position. `pc_raw.loc[x]` takes the first
  row indexed `x`, and row identity is positional. This is the same as pandas
  when outcodes are unique, as in the reference table.
- `get_pc_as_df` and `get_pc_as_str` are not modelled. They read `pc`
  directly: as a table, or as text that is not modelled.
- Python's `int()` is modelled on ASCII digits only. The model covers
  surrounding whitespace, a sign and single underscores. Other Unicode digits
  are not modelled, and neither are non-ASCII letters for `isalpha`/`isdigit`
  in `valid_filename`.
- Finder.PostcodeFinder.Setup: after an exception, the fields of the
  half-built object are not stated, because Python discards the object.
- Finder.PostcodeFinder.RunSearch: after an exception, the partly filled table is
  not stated. The exception escapes `fp_main`.
- Gui.Application.FpMain: the text of the output widget is modelled as the
  result table itself.
- Gui.Application.ConvertDistances: takes the conversion as a parameter, and
  `ReadForm` passes `ParseInt`, the model of `int()`. The input dict is
  replaced by a new dict rather than updated key by key. Both dicts have the
  same keys and order.
