/** The reference table, the candidate table and the two row filters applied to it. */
module Table {
  import opened Seqs
  import opened Geo

  /** A row of the reference table pc_raw: the postcode index with its latitude and longitude. */
  datatype Outcode = Outcode(id: string, coord: Coord)

  /** A row of the candidate table pc: its outcode, and the destination
      columns filled in so far (a destination absent from `times` is NaN). */
  datatype Row = Row(site: Outcode, times: map<string, int>)

  /** The index, latitude and longitude columns of a candidate table. */
  function Sites(rows: seq<Row>): seq<Outcode> {
    seq(|rows|, i requires 0 <= i < |rows| => rows[i].site)
  }

  /** reindex(columns=...): the destination columns are added, all NaN. */
  function Reindex(outcodes: seq<Outcode>): seq<Row> {
    seq(|outcodes|, i requires 0 <= i < |outcodes| => Row(outcodes[i], map[]))
  }

  predicate InBox(b: Box, o: Outcode) {
    Contains(b, o.coord)
  }

  /** The reference table restricted to the box, bounds inclusive on all four
      sides, with the destination columns added. */
  function WithinBox(reference: seq<Outcode>, b: Box): seq<Row> {
    Reindex(Filter(reference, o => InBox(b, o)))
  }

  /** pc[d].le(budget) for one row: NaN compares false. */
  predicate MeetsBudget(r: Row, d: string, budget: int) {
    d in r.times && r.times[d] <= budget
  }

  /** pc[pc[d].le(budget)]: the rows whose value in column d is at most the budget. */
  function WithinBudget(rows: seq<Row>, d: string, budget: int): seq<Row> {
    Filter(rows, r => MeetsBudget(r, d, budget))
  }

  // ---- Lemmas -----------------------------------------------------------

  /** The box filter keeps exactly the reference rows inside the box, in their
      original order, with no destination column filled. */
  lemma WithinBoxSelects(reference: seq<Outcode>, b: Box)
    ensures IsSubsequence(Sites(WithinBox(reference, b)), reference)
    ensures forall i :: 0 <= i < |reference| ==>
              (reference[i] in Sites(WithinBox(reference, b)) <==> Contains(b, reference[i].coord))
    ensures forall r :: r in WithinBox(reference, b) ==> Contains(b, r.site.coord) && r.times == map[]
  {
    var kept := Filter(reference, o => InBox(b, o));
    FilterIsSubsequence(reference, o => InBox(b, o));
    FilterMembers(reference, o => InBox(b, o));
    SitesOfReindex(kept);
    forall r | r in WithinBox(reference, b) ensures Contains(b, r.site.coord) && r.times == map[] {
      var j :| 0 <= j < |kept| && Reindex(kept)[j] == r;
      assert InBox(b, kept[j]);
    }
  }

  lemma SitesOfReindex(outcodes: seq<Outcode>)
    ensures Sites(Reindex(outcodes)) == outcodes
  {
  }

  /** A box whose minimum exceeds its maximum selects nothing. */
  lemma InvertedBoxSelectsNothing(reference: seq<Outcode>, b: Box)
    requires IsEmpty(b)
    ensures WithinBox(reference, b) == []
  {
    FilterKeepsNone(reference, o => InBox(b, o));
  }

  /** After the budget filter for d every remaining row has a value in column
      d within the budget; it keeps its order and drops exactly the rows over
      budget or NaN. */
  lemma WithinBudgetSelects(rows: seq<Row>, d: string, budget: int)
    ensures IsSubsequence(WithinBudget(rows, d, budget), rows)
    ensures forall r :: r in WithinBudget(rows, d, budget) ==> d in r.times && r.times[d] <= budget
    ensures forall i :: 0 <= i < |rows| ==>
              (rows[i] in WithinBudget(rows, d, budget) <==> d in rows[i].times && rows[i].times[d] <= budget)
  {
    FilterIsSubsequence(rows, r => MeetsBudget(r, d, budget));
    FilterMembers(rows, r => MeetsBudget(r, d, budget));
  }

  /** Filtering rows by a condition that depends only on their outcode is
      filtering the outcodes by that condition. */
  lemma {:induction false} SitesOfFilter(rows: seq<Row>, keep: Row -> bool, keepSite: Outcode -> bool)
    requires forall i :: 0 <= i < |rows| ==> keep(rows[i]) == keepSite(rows[i].site)
    ensures Sites(Filter(rows, keep)) == Filter(Sites(rows), keepSite)
    decreases |rows|
  {
    if rows != [] {
      var head := rows[0];
      var rest := Filter(rows[1..], keep);
      assert keep(head) == keepSite(head.site);
      SitesOfFilter(rows[1..], keep, keepSite);
      assert rows == [head] + rows[1..];
      SitesCons(head, rows[1..]);
      var sites := Sites(rows);
      assert sites[0] == head.site && sites[1..] == Sites(rows[1..]);
      if keep(head) {
        SitesCons(head, rest);
      }
    }
  }

  lemma SitesCons(r: Row, rows: seq<Row>)
    ensures Sites([r] + rows) == [r.site] + Sites(rows)
  {
  }
}
