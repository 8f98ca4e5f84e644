/**
 * `createSubscription`: checks the body's shape, derives the document and its
 * id from the (email, model) pair and upserts it into the container.
 */
module SubscriptionHttp {
  import opened Wrappers
  import opened Json
  import opened Http
  import opened SubscriptionStore

  datatype SubscriptionRequest = SubscriptionRequest(model: string, email: string)

  /**
   * The shape check: an object, not `null`, whose `model` and `email` are
   * strings. Only the type is checked; empty strings pass.
   */
  function ParseRequest(body: Json): (r: Option<SubscriptionRequest>)
    ensures r.Some? <==>
      body.JObject? && "model" in body.fields && body.fields["model"].JString?
      && "email" in body.fields && body.fields["email"].JString?
    ensures r.Some? ==>
      body.fields["model"] == JString(r.value.model) && body.fields["email"] == JString(r.value.email)
  {
    if TypeOf(Some(body)) != "object" || body.JNull?
       || TypeOf(Get(body, "model")) != "string" || TypeOf(Get(body, "email")) != "string"
    then None
    else Some(SubscriptionRequest(Get(body, "model").value.str, Get(body, "email").value.str))
  }

  /** The deduplication key `${email}-${model}`. */
  function SubscriptionId(email: string, model: string): string {
    email + "-" + model
  }

  /** The stored document; `createdAt` is the clock's `toISOString()` at the call. */
  function NewDocument(req: SubscriptionRequest, createdAt: string): SubscriptionDoc {
    SubscriptionDoc(SubscriptionId(req.email, req.model), req.model, req.email, createdAt)
  }

  /** Every stored document carries the id derived from its own email and model. */
  predicate IdsDerived(docs: map<string, SubscriptionDoc>) {
    forall id :: id in docs ==> docs[id].id == SubscriptionId(docs[id].email, docs[id].modelKey)
  }

  /**
   * `createSubscription` after `req.json()`: `body` is `None` when the request
   * body is not valid JSON, and `now` is the clock reading.
   */
  method CreateSubscription(container: SubscriptionContainer, body: Option<Json>, now: string)
    returns (response: Response)
    requires container.Valid()
    modifies container
    ensures container.Valid()
    ensures body.None? ==>
      response == Response(400, MessageBody("Invalid JSON body")) && container.docs == old(container.docs)
    ensures body.Some? && ParseRequest(body.value).None? ==>
      response == Response(400, MessageBody("model and email are required"))
      && container.docs == old(container.docs)
    ensures body.Some? && ParseRequest(body.value).Some? ==>
      var doc := NewDocument(ParseRequest(body.value).value, now);
      response == Response(201, MessageBody("Subscribed successfully"))
      && container.docs == old(container.docs)[doc.id := doc]
    ensures IdsDerived(old(container.docs)) ==> IdsDerived(container.docs)
  {
    if body.None? {
      return Response(400, MessageBody("Invalid JSON body"));
    }
    var data := ParseRequest(body.value);
    if data.None? {
      return Response(400, MessageBody("model and email are required"));
    }
    var doc := NewDocument(data.value, now);
    container.Upsert(doc);
    return Response(201, MessageBody("Subscribed successfully"));
  }

  // ---- The id as a function of the pair ----

  /** For a fixed model, different emails give different ids. */
  lemma IdInjectiveForModel(a: string, b: string, model: string)
    ensures SubscriptionId(a, model) == SubscriptionId(b, model) ==> a == b
  {
    if SubscriptionId(a, model) == SubscriptionId(b, model) {
      var s := SubscriptionId(a, model);
      assert |a| == |b|;
      assert a == s[..|a|] && b == s[..|b|];
    }
  }

  /** For a fixed email, different models give different ids. */
  lemma IdInjectiveForEmail(email: string, m1: string, m2: string)
    ensures SubscriptionId(email, m1) == SubscriptionId(email, m2) ==> m1 == m2
  {
    if SubscriptionId(email, m1) == SubscriptionId(email, m2) {
      var s := SubscriptionId(email, m1);
      assert m1 == s[|email| + 1..] && m2 == s[|email| + 1..];
    }
  }

  /** A "-" may move between the email and the model without changing the id. */
  lemma IdShiftsDash(email: string, x: string, model: string)
    ensures SubscriptionId(email + "-" + x, model) == SubscriptionId(email, x + "-" + model)
  {
  }

  /** So the id is not injective: ("a-b", "c") and ("a", "b-c") share the id "a-b-c". */
  lemma IdNotInjective()
    ensures SubscriptionRequest("c", "a-b") != SubscriptionRequest("b-c", "a")
    ensures SubscriptionId("a-b", "c") == SubscriptionId("a", "b-c") == "a-b-c"
  {
    IdShiftsDash("a", "b", "c");
  }

  /**
   * With the colliding pairs, the second subscription overwrites the first:
   * the store keeps only the second subscriber under the shared id.
   */
  lemma CollidingSubscriptionOverwrites(docs: map<string, SubscriptionDoc>, t1: string, t2: string)
    requires KeyedById(docs)
    ensures var first := NewDocument(SubscriptionRequest("c", "a-b"), t1);
      var second := NewDocument(SubscriptionRequest("b-c", "a"), t2);
      var after := docs[first.id := first][second.id := second];
      after.Keys == docs.Keys + {"a-b-c"} && after["a-b-c"] == second && first !in after.Values
  {
    IdNotInjective();
    var first := NewDocument(SubscriptionRequest("c", "a-b"), t1);
    var second := NewDocument(SubscriptionRequest("b-c", "a"), t2);
    var after := docs[first.id := first][second.id := second];
    assert first != second by { assert first.email != second.email; }
    forall v | v in after.Values ensures v != first {
      var k :| k in after && after[k] == v;
      if k != "a-b-c" {
        assert after[k] == docs[k] && docs[k].id == k;
      }
    }
  }

  // ---- Idempotence ----

  /**
   * Subscribing the same pair twice leaves the key set of subscribing once, one
   * record under the id, holding the later document; no other entry changes.
   */
  lemma SubscribeTwiceKeepsOneRecord(docs: map<string, SubscriptionDoc>, req: SubscriptionRequest, t1: string, t2: string)
    ensures var id := SubscriptionId(req.email, req.model);
      var once := docs[id := NewDocument(req, t1)];
      var twice := once[id := NewDocument(req, t2)];
      twice.Keys == once.Keys == docs.Keys + {id}
      && twice == docs[id := NewDocument(req, t2)]
      && (forall k :: k in docs && k != id ==> twice[k] == docs[k])
  {
  }

  /** Upserting the same document again changes nothing. */
  lemma UpsertIdempotent(docs: map<string, SubscriptionDoc>, doc: SubscriptionDoc)
    ensures docs[doc.id := doc][doc.id := doc] == docs[doc.id := doc]
  {
  }

  /** While ids are derived, at most one stored record exists for each (email, model) pair. */
  lemma AtMostOneRecordPerPair(docs: map<string, SubscriptionDoc>)
    requires KeyedById(docs) && IdsDerived(docs)
    ensures forall i, j ::
      (i in docs && j in docs && docs[i].email == docs[j].email && docs[i].modelKey == docs[j].modelKey) ==> i == j
  {
  }
}
