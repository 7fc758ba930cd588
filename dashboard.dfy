/** The dashboard's key metrics, as read-only aggregations over the complaint
    rows: the number of complaints and the share of them that are RESOLVED.
    They are only shown when there is at least one complaint. */
module Dashboard {
  import opened Common
  import opened Complaints

  /** The number of rows whose status is RESOLVED. */
  function ResolvedCount(cs: seq<Complaint>): (n: nat)
    ensures n <= |cs|
  {
    if cs == [] then 0
    else ResolvedCount(cs[..|cs| - 1]) + (if cs[|cs| - 1].status == RESOLVED then 1 else 0)
  }

  /** Reference definition: the positions of the RESOLVED rows. */
  ghost function ResolvedIndices(cs: seq<Complaint>): set<int> {
    set i | 0 <= i < |cs| && cs[i].status == RESOLVED
  }

  /** The positions of the rows carrying a given id. */
  ghost function RowsWithId(cs: seq<Complaint>, id: int): set<int> {
    set i | 0 <= i < |cs| && cs[i].id == id
  }

  /** The count agrees with the reference definition. */
  lemma {:induction false} ResolvedCountIsCardinality(cs: seq<Complaint>)
    ensures ResolvedCount(cs) == |ResolvedIndices(cs)|
  {
    if cs != [] {
      var n := |cs| - 1;
      var front := cs[..n];
      ResolvedCountIsCardinality(front);
      assert forall i :: 0 <= i < n ==> front[i] == cs[i];
      if cs[n].status == RESOLVED {
        assert ResolvedIndices(cs) == ResolvedIndices(front) + {n};
      } else {
        assert ResolvedIndices(cs) == ResolvedIndices(front);
      }
    }
  }

  /** Every row is resolved exactly when the count reaches the total. */
  lemma {:induction false} AllResolvedIff(cs: seq<Complaint>)
    ensures ResolvedCount(cs) == |cs| <==> forall i :: 0 <= i < |cs| ==> cs[i].status == RESOLVED
  {
    if cs != [] {
      var n := |cs| - 1;
      var front := cs[..n];
      AllResolvedIff(front);
      assert forall i :: 0 <= i < n ==> front[i] == cs[i];
    }
  }

  /** No row is resolved exactly when the count is zero. */
  lemma {:induction false} NoneResolvedIff(cs: seq<Complaint>)
    ensures ResolvedCount(cs) == 0 <==> forall i :: 0 <= i < |cs| ==> cs[i].status != RESOLVED
  {
    if cs != [] {
      var n := |cs| - 1;
      var front := cs[..n];
      NoneResolvedIff(front);
      assert forall i :: 0 <= i < n ==> front[i] == cs[i];
    }
  }

  /** Adding a complaint (always OPEN) leaves the resolved count unchanged. */
  lemma AddingKeepsResolvedCount(cs: seq<Complaint>, c: Complaint)
    requires c.status == OPEN
    ensures ResolvedCount(cs + [c]) == ResolvedCount(cs)
  {
  }

  /** Resolving by id adds exactly the rows with that id to the resolved ones;
      with ids unique that is one row, or none for an unknown id. */
  lemma ResolvingMarksRowsWithId(cs: seq<Complaint>, id: int, now: Timestamp)
    ensures ResolvedIndices(UpdateStatus(cs, id, RESOLVED, now)) == ResolvedIndices(cs) + RowsWithId(cs, id)
  {
  }

  /** With ids strictly increasing, an id names at most one row. */
  lemma OnlyRowWithId(cs: seq<Complaint>, k: nat)
    requires forall i, j :: 0 <= i < j < |cs| ==> cs[i].id < cs[j].id
    requires k < |cs|
    ensures RowsWithId(cs, cs[k].id) == {k}
  {
  }

  /** Resolving a row that was not yet resolved raises the resolved count by one. */
  lemma ResolvingRaisesCount(cs: seq<Complaint>, id: int, now: Timestamp, k: nat)
    requires forall i, j :: 0 <= i < j < |cs| ==> cs[i].id < cs[j].id
    requires k < |cs| && cs[k].id == id && cs[k].status != RESOLVED
    ensures ResolvedCount(UpdateStatus(cs, id, RESOLVED, now)) == ResolvedCount(cs) + 1
  {
    var r := UpdateStatus(cs, id, RESOLVED, now);
    var before := ResolvedIndices(cs);
    ResolvingMarksRowsWithId(cs, id, now);
    OnlyRowWithId(cs, k);
    assert k !in before;
    ResolvedCountIsCardinality(cs);
    ResolvedCountIsCardinality(r);
    assert ResolvedIndices(r) == before + {k};
  }

  /** The key metrics panel. */
  datatype Metrics = Metrics(total: nat, resolved: nat, resolutionRate: real)

  /** Total complaints and the resolution rate, the mean of status == RESOLVED;
      no metrics at all for an empty table. */
  function KeyMetrics(cs: seq<Complaint>): (m: Option<Metrics>)
    ensures m.None? <==> cs == []
    ensures m.Some? ==> m.value.total == |cs| && m.value.resolved == ResolvedCount(cs)
    ensures m.Some? ==> 0.0 <= m.value.resolutionRate <= 1.0
    ensures m.Some? ==> m.value.resolutionRate * (|cs| as real) == ResolvedCount(cs) as real
  {
    if cs == [] then None
    else
      var resolved := ResolvedCount(cs);
      Some(Metrics(|cs|, resolved, resolved as real / |cs| as real))
  }

  /** A rate of 100% means every complaint is resolved, and 0% means none is. */
  lemma RateExtremes(cs: seq<Complaint>)
    requires cs != []
    ensures KeyMetrics(cs).value.resolutionRate == 1.0 <==> forall i :: 0 <= i < |cs| ==> cs[i].status == RESOLVED
    ensures KeyMetrics(cs).value.resolutionRate == 0.0 <==> forall i :: 0 <= i < |cs| ==> cs[i].status != RESOLVED
  {
    AllResolvedIff(cs);
    NoneResolvedIff(cs);
  }
}
