/**
 * `deviceAvailabilityEventGrid`: skip events without availability, otherwise
 * look up the subscribers of the event's model and build the recipient list
 * that the notification sink would receive.
 */
module AvailabilityEventGrid {
  import opened DeviceEvent
  import opened SubscriptionStore

  /** What the handler ends with; `Notify` is the "would notify subscribers" hand-off to the sink. */
  datatype Outcome =
    | Skipped
    | NoSubscribers
    | Notify(model: string, emails: seq<string>, correlationTimestamp: string)

  /** `resources.map((r) => r.email)` */
  function Emails(resources: seq<SubscriptionDoc>): seq<string> {
    seq(|resources|, i requires 0 <= i < |resources| => resources[i].email)
  }

  /**
   * Handles one event against the container. There is no `modifies` clause:
   * the handler only reads the store.
   */
  method DeviceAvailabilityEventGrid(container: SubscriptionContainer, data: DeviceAvailabilityEvent)
    returns (outcome: Outcome)
    requires container.Valid()
    ensures data.availableCount <= 0.0 ==> outcome == Skipped
    ensures data.availableCount > 0.0 && MatchingIds(container.docs, data.deviceModel) == {} ==>
      outcome == NoSubscribers
    ensures data.availableCount > 0.0 && MatchingIds(container.docs, data.deviceModel) != {} ==>
      outcome.Notify? && outcome.model == data.deviceModel && outcome.correlationTimestamp == data.timestamp
      && exists rs :: IsQueryResult(container.docs, data.deviceModel, rs) && outcome.emails == Emails(rs)
  {
    if data.availableCount <= 0.0 {
      return Skipped;
    }
    var resources := container.QueryByModel(data.deviceModel);
    QueryResultSize(container.docs, data.deviceModel, resources);
    if |resources| == 0 {
      return NoSubscribers;
    }
    var emails := Emails(resources);
    return Notify(data.deviceModel, emails, data.timestamp);
  }

  /**
   * The recipients of a query answer: one email per matching document, so as
   * many as there are matches, and exactly the emails of the matching documents.
   */
  lemma RecipientsAreSubscribers(docs: map<string, SubscriptionDoc>, model: string, rs: seq<SubscriptionDoc>)
    requires KeyedById(docs) && IsQueryResult(docs, model, rs)
    ensures |Emails(rs)| == |MatchingIds(docs, model)|
    ensures forall e :: e in Emails(rs) <==> exists id :: id in MatchingIds(docs, model) && docs[id].email == e
  {
    QueryResultSize(docs, model, rs);
    forall e | e in Emails(rs) ensures exists id :: id in MatchingIds(docs, model) && docs[id].email == e {
      var i :| 0 <= i < |rs| && Emails(rs)[i] == e;
      assert rs[i].id in MatchingIds(docs, model);
    }
    forall e | exists id :: id in MatchingIds(docs, model) && docs[id].email == e ensures e in Emails(rs) {
      var id :| id in MatchingIds(docs, model) && docs[id].email == e;
      var i :| 0 <= i < |rs| && rs[i] == docs[id];
      assert Emails(rs)[i] == e;
    }
  }
}
