/** The complaint form's submission path: required fields are checked, the
    sentiment score (from the external analyser) is turned into a severity,
    and the complaint is stored as a new OPEN row. */
module Intake {
  import opened Common
  import opened SeverityScorer
  import opened Complaints

  /** all([customer_id, complaint_text, category]): every field is non-empty. */
  predicate AllFieldsPresent(customerId: string, text: string, category: string) {
    |customerId| > 0 && |text| > 0 && |category| > 0
  }

  /** Submit a complaint. The analyser's compound score is a parameter. A
      missing field stores nothing; otherwise exactly one OPEN row is added,
      whose severity is derived from the score. */
  method SubmitComplaint(system: ComplaintSystem, customerId: string, text: string, category: string,
                         sentimentScore: real, now: Timestamp) returns (stored: bool)
    requires system.Valid() && system.clock <= now
    modifies system
    ensures system.Valid()
    ensures stored <==> AllFieldsPresent(customerId, text, category)
    ensures system.clock == if stored then now else old(system.clock)
    ensures !stored ==> system.complaints == old(system.complaints) && system.lastId == old(system.lastId)
    ensures stored ==>
              system.complaints == old(system.complaints) +
                [NewComplaint(system.lastId, customerId, text, category, Severity(sentimentScore), sentimentScore, now)]
    ensures stored ==> system.lastId == old(system.lastId) + 1
    ensures stored ==> forall i :: 0 <= i < |old(system.complaints)| ==> old(system.complaints)[i].id < system.lastId
    ensures forall i :: 0 <= i < |system.complaints| ==>
      |system.complaints[i].customerId| > 0 || system.complaints[i] in old(system.complaints)
  {
    stored := AllFieldsPresent(customerId, text, category);
    if stored {
      var severity := Severity(sentimentScore);
      system.AddComplaint(customerId, text, category, severity, sentimentScore, now);
    }
  }

  /** A complaint's life on a fresh database: it is filed, shows up OPEN, and
      once staff resolve it, it carries the resolution time. */
  method FileAndResolve(customerId: string, text: string, category: string,
                        sentimentScore: real, filedAt: Timestamp, resolvedAt: Timestamp)
    returns (system: ComplaintSystem)
    requires AllFieldsPresent(customerId, text, category) && filedAt <= resolvedAt
    ensures system.Valid() && |system.complaints| == 1
    ensures system.complaints[0].status == RESOLVED
    ensures system.complaints[0].resolvedAt == Some(resolvedAt)
    ensures system.complaints[0].createdAt == filedAt
    ensures system.complaints[0].severity == Severity(sentimentScore)
  {
    system := new ComplaintSystem();
    var stored := SubmitComplaint(system, customerId, text, category, sentimentScore, filedAt);
    system.UpdateComplaintStatus(system.lastId, RESOLVED, resolvedAt);
  }
}
