/** The complaint table and its status lifecycle. */
module Complaints {
  import opened Common

  const OPEN := "OPEN"
  const IN_PROGRESS := "IN_PROGRESS"
  const RESOLVED := "RESOLVED"

  /** A row of complaints; status is free text, resolvedAt is NULL until resolved. */
  datatype Complaint = Complaint(
    id: int,
    customerId: string,
    text: string,
    category: string,
    severity: int,
    sentimentScore: real,
    status: string,
    createdAt: Timestamp,
    resolvedAt: Option<Timestamp>)

  /** The row add_complaint inserts: status OPEN, resolved_at NULL. */
  function NewComplaint(id: int, customerId: string, text: string, category: string,
                        severity: int, sentimentScore: real, now: Timestamp): (c: Complaint)
    ensures c.status == OPEN && c.resolvedAt.None? && c.createdAt == now && c.id == id
    ensures c.customerId == customerId && c.text == text && c.category == category
    ensures c.severity == severity && c.sentimentScore == sentimentScore
  {
    Complaint(id, customerId, text, category, severity, sentimentScore, OPEN, now, None)
  }

  /** The SET part of the status UPDATE, for one row: the status is
      overwritten; resolved_at is stamped only for RESOLVED; nothing else moves. */
  function Restamp(c: Complaint, newStatus: string, now: Timestamp): (r: Complaint)
    ensures r.status == newStatus
    ensures newStatus == RESOLVED ==> r.resolvedAt == Some(now)
    ensures newStatus != RESOLVED ==> r.resolvedAt == c.resolvedAt
    ensures r.(status := c.status, resolvedAt := c.resolvedAt) == c
  {
    if newStatus == RESOLVED then c.(status := newStatus, resolvedAt := Some(now))
    else c.(status := newStatus)
  }

  /** UPDATE complaints SET ... WHERE id = ?: every row with that id is
      restamped, every other row is kept, and no row is added or removed. */
  function UpdateStatus(cs: seq<Complaint>, id: int, newStatus: string, now: Timestamp): (r: seq<Complaint>)
    ensures |r| == |cs|
    ensures forall i :: 0 <= i < |cs| && cs[i].id != id ==> r[i] == cs[i]
    ensures forall i :: 0 <= i < |cs| && cs[i].id == id ==> r[i] == Restamp(cs[i], newStatus, now)
    ensures forall i :: 0 <= i < |cs| ==> r[i].id == cs[i].id && r[i].createdAt == cs[i].createdAt
  {
    seq(|cs|, i requires 0 <= i < |cs| => if cs[i].id == id then Restamp(cs[i], newStatus, now) else cs[i])
  }

  /** An id that matches no row leaves the table as it was (not an error). */
  lemma UpdateUnknownIdIsNoop(cs: seq<Complaint>, id: int, newStatus: string, now: Timestamp)
    requires forall i :: 0 <= i < |cs| ==> cs[i].id != id
    ensures UpdateStatus(cs, id, newStatus, now) == cs
  {
  }

  /** The timestamps of a row are consistent with a clock reading: created no
      later than the clock, resolved between creation and the clock, and a
      RESOLVED row always carries its resolution time. */
  predicate WellStamped(c: Complaint, clock: Timestamp) {
    && c.createdAt <= clock
    && (c.status == RESOLVED ==> c.resolvedAt.Some?)
    && (c.resolvedAt.Some? ==> c.createdAt <= c.resolvedAt.value <= clock)
  }

  /** A status update keeps every row well stamped when the clock has not gone back. */
  lemma UpdateKeepsStamps(cs: seq<Complaint>, id: int, newStatus: string, clock: Timestamp, now: Timestamp)
    requires clock <= now
    requires forall i :: 0 <= i < |cs| ==> WellStamped(cs[i], clock)
    ensures forall i :: 0 <= i < |cs| ==> WellStamped(UpdateStatus(cs, id, newStatus, now)[i], now)
  {
  }

  /** A complaint resolved and then reopened keeps its resolution time: only
      RESOLVED writes resolved_at, and nothing ever clears it. */
  lemma ReopenKeepsResolvedAt(cs: seq<Complaint>, id: int, t1: Timestamp, t2: Timestamp, k: nat)
    requires k < |cs| && cs[k].id == id
    ensures var r := UpdateStatus(UpdateStatus(cs, id, RESOLVED, t1), id, OPEN, t2);
            r[k].status == OPEN && r[k].resolvedAt == Some(t1)
  {
  }

  /** The complaints database. One object stands for it for the whole session. */
  class ComplaintSystem {
    /** complaints, in insertion (and so id) order. */
    var complaints: seq<Complaint>
    /** The largest id the AUTOINCREMENT key has handed out. */
    var lastId: nat
    /** The latest clock reading the table has seen. */
    ghost var clock: Timestamp

    /** id is an increasing positive key; every row is well stamped. */
    ghost predicate Valid()
      reads this
    {
      && (forall i, j :: 0 <= i < j < |complaints| ==> complaints[i].id < complaints[j].id)
      && (forall i :: 0 <= i < |complaints| ==> 0 < complaints[i].id <= lastId)
      && (forall i :: 0 <= i < |complaints| ==> WellStamped(complaints[i], clock))
    }

    constructor()
      ensures Valid()
      ensures complaints == [] && lastId == 0 && clock == 0
    {
      complaints := [];
      lastId := 0;
      clock := 0;
    }

    /** Insert one row with the next id, status OPEN and no resolution time. */
    method AddComplaint(customerId: string, text: string, category: string,
                        severity: int, sentimentScore: real, now: Timestamp)
      requires Valid() && clock <= now
      modifies this
      ensures Valid() && clock == now
      ensures lastId == old(lastId) + 1
      ensures complaints == old(complaints) + [NewComplaint(lastId, customerId, text, category, severity, sentimentScore, now)]
      ensures forall i :: 0 <= i < |old(complaints)| ==> old(complaints)[i].id < lastId
    {
      lastId := lastId + 1;
      clock := now;
      complaints := complaints + [NewComplaint(lastId, customerId, text, category, severity, sentimentScore, now)];
    }

    /** Set the status of the complaint with the given id; stamp the
        resolution time only when the new status is RESOLVED. */
    method UpdateComplaintStatus(complaintId: int, newStatus: string, now: Timestamp)
      requires Valid() && clock <= now
      modifies this`complaints, this`clock
      ensures Valid() && clock == now
      ensures complaints == UpdateStatus(old(complaints), complaintId, newStatus, now)
      ensures (forall i :: 0 <= i < |old(complaints)| ==> old(complaints)[i].id != complaintId) ==>
                complaints == old(complaints)
      ensures forall i, j :: 0 <= i < j < |complaints| ==>
                complaints[i] == old(complaints)[i] || complaints[j] == old(complaints)[j]
    {
      UpdateKeepsStamps(complaints, complaintId, newStatus, clock, now);
      complaints := UpdateStatus(complaints, complaintId, newStatus, now);
      clock := now;
    }
  }
}
