/** Reading a travel time from the routing page (get_distance in both files).
    Fetching the page is the oracle; only the parse of its summary text is modelled. */
module Routing {
  import opened Wrappers
  import opened Seqs
  import opened Py
  import opened PyStr
  import opened Geo

  /** The routing page for (origin, destination): the text of its first
      element with id 'routing_summary', or None when it has none. */
  type Oracle = (Coord, Coord) -> Option<string>

  /** y.split(' ')[-1].rstrip('.').split(':') followed by int(z[0])*60 + int(z[1]).
      int(z[0]) is evaluated before z[1] is indexed, so a bad hour field
      raises ValueError even when the colon is missing. */
  function ParseSummary(text: string): Result<int, Exception> {
    ParseFields(TimeFields(text))
  }

  /** y.split(' ')[-1].rstrip('.').split(':') */
  function TimeFields(text: string): seq<string> {
    Split(RStrip(Last(Split(text, ' ')), '.'), ':')
  }

  /** int(z[0])*60 + int(z[1]) */
  function ParseFields(z: seq<string>): Result<int, Exception>
    requires |z| > 0
  {
    match ParseInt(z[0])
    case None => Failure(ValueError)
    case Some(hours) =>
      if |z| < 2 then Failure(IndexError)
      else
        match ParseInt(z[1])
        case None => Failure(ValueError)
        case Some(mins) => Success(hours * 60 + mins)
  }

  /** The travel time in minutes; -1 when the page has no routing summary. */
  function GetDistance(summary: Option<string>): Result<int, Exception> {
    match summary
    case None => Success(-1)
    case Some(text) => ParseSummary(text)
  }

  /** The travel time the oracle yields for one origin/destination pair. */
  function QueryTime(oracle: Oracle, origin: Coord, dest: Coord): Result<int, Exception> {
    GetDistance(oracle(origin, dest))
  }

  /** "h:mm" as the routing page writes a duration. */
  function FormatTime(minutes: nat): string {
    IntToStr(minutes / 60) + ":" + Pad2(minutes % 60)
  }

  // ---- Lemmas -----------------------------------------------------------

  lemma {:induction false} TrimEndAppend(s: string, tail: string, drop: char -> bool)
    requires s == [] || !drop(Last(s))
    requires forall i :: 0 <= i < |tail| ==> drop(tail[i])
    ensures TrimEnd(s + tail, drop) == s
    decreases |tail|
  {
    if tail == [] {
      assert s + tail == s;
    } else {
      var t := tail[..|tail| - 1];
      assert (s + tail)[..|s + tail| - 1] == s + t;
      TrimEndAppend(s, t, drop);
    }
  }

  /** The parse reads "h:mm" from the last space-separated token of the
      summary, ignoring trailing dots, as hours * 60 + minutes. */
  lemma ParseSummaryReadsToken(prefix: string, hs: string, ms: string, dots: string, h: int, mm: int)
    requires prefix == [] || Last(prefix) == ' '
    requires ' ' !in hs && ' ' !in ms && ':' !in hs && ':' !in ms
    requires ms != [] && Last(ms) != '.'
    requires forall i :: 0 <= i < |dots| ==> dots[i] == '.'
    requires ParseInt(hs) == Some(h) && ParseInt(ms) == Some(mm)
    ensures ParseSummary(prefix + (hs + ":" + ms) + dots) == Success(h * 60 + mm)
  {
    var text := prefix + (hs + ":" + ms) + dots;
    TimeTextShape(prefix, hs, ms, dots);
    FieldsOfTime(prefix, hs, ms, dots);
    ParseSummaryOfFields(text, [hs, ms]);
    ParseTwoFields(hs, ms, h, mm);
  }

  lemma ParseSummaryOfFields(text: string, z: seq<string>)
    requires |z| > 0 && TimeFields(text) == z
    ensures ParseSummary(text) == ParseFields(z)
  {
  }

  lemma ParseTwoFields(hs: string, ms: string, h: int, mm: int)
    requires ParseInt(hs) == Some(h) && ParseInt(ms) == Some(mm)
    ensures ParseFields([hs, ms]) == Success(h * 60 + mm)
  {
  }

  lemma TimeTextShape(prefix: string, hs: string, ms: string, dots: string)
    ensures prefix + (hs + ":" + ms) + dots == prefix + ((hs + ":" + ms) + dots)
  {
  }

  lemma FieldsOfTime(prefix: string, hs: string, ms: string, dots: string)
    requires prefix == [] || Last(prefix) == ' '
    requires ' ' !in hs && ' ' !in ms && ':' !in hs && ':' !in ms
    requires ms != [] && Last(ms) != '.'
    requires forall i :: 0 <= i < |dots| ==> dots[i] == '.'
    ensures TimeFields(prefix + ((hs + ":" + ms) + dots)) == [hs, ms]
  {
    var token := hs + ":" + ms;
    TokenFields(prefix, token, dots);
    assert Join([hs, ms], ':') == token;
    SplitJoin([hs, ms], ':');
  }

  /** The fields come from the last token with its trailing dots removed. */
  lemma TokenFields(prefix: string, token: string, dots: string)
    requires prefix == [] || Last(prefix) == ' '
    requires ' ' !in token && token != [] && Last(token) != '.'
    requires forall i :: 0 <= i < |dots| ==> dots[i] == '.'
    ensures TimeFields(prefix + (token + dots)) == Split(token, ':')
  {
    assert ' ' !in token + dots;
    LastPiece(prefix, token + dots, ' ');
    TrimEndAppend(token, dots, x => x == '.');
  }

  /** Round trip: whatever precedes it, a summary ending in " h:mm" with
      optional trailing dots parses to the duration it states. */
  lemma SummaryRoundTrip(prefix: string, minutes: nat, dots: string)
    requires prefix == [] || Last(prefix) == ' '
    requires forall i :: 0 <= i < |dots| ==> dots[i] == '.'
    ensures ParseSummary(prefix + FormatTime(minutes) + dots) == Success(minutes)
  {
    var h, mm := minutes / 60, minutes % 60;
    IntToStrIsToken(h);
    Pad2IsToken(mm);
    ParseSummaryReadsToken(prefix, IntToStr(h), Pad2(mm), dots, h, mm);
    assert h * 60 + mm == minutes;
  }

  lemma Pad2IsToken(n: nat)
    requires n < 100
    ensures ' ' !in Pad2(n) && ':' !in Pad2(n)
    ensures Pad2(n) != [] && Last(Pad2(n)) != '.'
    ensures ParseInt(Pad2(n)) == Some(n)
  {
    ParsePad2(n);
  }

  /** For any integers h and mm written with str(), the parse yields h*60+mm. */
  lemma ParseSummaryOfInts(prefix: string, h: int, mm: int, dots: string)
    requires prefix == [] || Last(prefix) == ' '
    requires forall i :: 0 <= i < |dots| ==> dots[i] == '.'
    ensures ParseSummary(prefix + (IntToStr(h) + ":" + IntToStr(mm)) + dots) == Success(h * 60 + mm)
  {
    IntToStrIsToken(h);
    IntToStrIsToken(mm);
    ParseSummaryReadsToken(prefix, IntToStr(h), IntToStr(mm), dots, h, mm);
  }

  /** str(n) is a single token with no colon or trailing dot, and int() reads it back. */
  lemma IntToStrIsToken(n: int)
    ensures ' ' !in IntToStr(n) && ':' !in IntToStr(n)
    ensures IntToStr(n) != [] && Last(IntToStr(n)) != '.'
    ensures ParseInt(IntToStr(n)) == Some(n)
  {
    ParseIntRoundTrip(n);
    if n < 0 {
      assert Last(IntToStr(n)) == Last(NatToStr(-n));
    }
  }

  /** A last token without a colon whose hours field is a number fails at z[1]. */
  lemma MissingColonRaisesIndexError(prefix: string, hs: string)
    requires prefix == [] || Last(prefix) == ' '
    requires ' ' !in hs && ':' !in hs
    requires hs != [] && Last(hs) != '.'
    requires ParseInt(hs).Some?
    ensures ParseSummary(prefix + hs) == Failure(IndexError)
  {
    TokenFields(prefix, hs, []);
    assert prefix + (hs + []) == prefix + hs;
    SplitWhole(hs, ':');
  }

  /** A page without a routing summary yields the sentinel -1. */
  lemma UnavailableIsSentinel(oracle: Oracle, origin: Coord, dest: Coord)
    requires oracle(origin, dest) == None
    ensures QueryTime(oracle, origin, dest) == Success(-1)
  {
  }
}
