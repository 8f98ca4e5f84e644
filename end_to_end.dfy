/** A subscription followed by an availability event, over one container. */
module EndToEnd {
  import opened Wrappers
  import opened Json
  import opened DeviceEvent
  import opened SubscriptionStore
  import opened SubscriptionHttp
  import opened AvailabilityEventGrid

  /**
   * After `a` and `b` subscribe to `model` in a store that had no subscriber
   * for it, every query answer for `model` names exactly `a` and `b`.
   */
  lemma {:induction false} TwoSubscribersAreNotified(
    docs: map<string, SubscriptionDoc>, model: string, a: string, b: string,
    t1: string, t2: string, rs: seq<SubscriptionDoc>)
    requires KeyedById(docs) && MatchingIds(docs, model) == {}
    requires var da := NewDocument(SubscriptionRequest(model, a), t1);
      var db := NewDocument(SubscriptionRequest(model, b), t2);
      IsQueryResult(docs[da.id := da][db.id := db], model, rs)
    ensures forall e :: e in Emails(rs) <==> e == a || e == b
    ensures |Emails(rs)| == if a == b then 1 else 2
  {
    var da := NewDocument(SubscriptionRequest(model, a), t1);
    var db := NewDocument(SubscriptionRequest(model, b), t2);
    var after := docs[da.id := da][db.id := db];
    IdInjectiveForModel(a, b, model);
    assert MatchingIds(after, model) == {da.id, db.id};
    RecipientsAreSubscribers(after, model, rs);
    assert after[da.id].email == a && after[db.id].email == b;
  }

  /** `{ model, email }` as a request body. */
  function SubscriptionBody(model: string, email: string): Json {
    JObject(map["model" := JString(model), "email" := JString(email)])
  }

  /**
   * Subscribe `a` and `b` to `model` through the HTTP handler, then deliver an
   * event with a positive count: `a` and `b` are the recipients.
   */
  method SubscribeThenNotify(model: string, a: string, b: string, t1: string, t2: string,
                             count: real, timestamp: string)
    returns (outcome: Outcome)
    requires count > 0.0
    ensures outcome.Notify? && outcome.model == model
    ensures forall e :: e in outcome.emails <==> e == a || e == b
    ensures |outcome.emails| == if a == b then 1 else 2
  {
    var container := new SubscriptionContainer();
    var r1 := CreateSubscription(container, Some(SubscriptionBody(model, a)), t1);
    var r2 := CreateSubscription(container, Some(SubscriptionBody(model, b)), t2);
    var da := NewDocument(SubscriptionRequest(model, a), t1);
    var db := NewDocument(SubscriptionRequest(model, b), t2);
    assert container.docs == map[][da.id := da][db.id := db];
    assert da.id in MatchingIds(container.docs, model);
    outcome := DeviceAvailabilityEventGrid(container, DeviceAvailabilityEvent(model, count, timestamp));
    ghost var rs :| IsQueryResult(container.docs, model, rs) && outcome.emails == Emails(rs);
    TwoSubscribersAreNotified(map[], model, a, b, t1, t2, rs);
  }
}
