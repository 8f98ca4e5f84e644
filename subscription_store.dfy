/**
 * The "subscriptions" container of the "devices-db" database, as an in-memory
 * map from document id to document, with insert-or-replace by id and the
 * query `SELECT * FROM c WHERE c.modelKey = @model`.
 */
module SubscriptionStore {

  datatype SubscriptionDoc = SubscriptionDoc(id: string, modelKey: string, email: string, createdAt: string)

  /** Every document is stored under its own id. */
  predicate KeyedById(docs: map<string, SubscriptionDoc>) {
    forall id :: id in docs ==> docs[id].id == id
  }

  /** The ids of the stored documents whose `modelKey` is exactly `model`. */
  function MatchingIds(docs: map<string, SubscriptionDoc>, model: string): set<string> {
    set id | id in docs && docs[id].modelKey == model
  }

  /**
   * `resources` is an answer to the query for `model`: stored documents only,
   * each with that `modelKey`, no document twice, and every match present,
   * in whatever order the store chooses.
   */
  predicate IsQueryResult(docs: map<string, SubscriptionDoc>, model: string, resources: seq<SubscriptionDoc>) {
    (forall i :: 0 <= i < |resources| ==>
       resources[i].id in docs && docs[resources[i].id] == resources[i] && resources[i].modelKey == model)
    && (forall i, j :: 0 <= i < j < |resources| ==> resources[i].id != resources[j].id)
    && (forall id :: id in MatchingIds(docs, model) ==> docs[id] in resources)
  }

  class SubscriptionContainer {
    var docs: map<string, SubscriptionDoc>

    ghost predicate Valid()
      reads this
    {
      KeyedById(docs)
    }

    /** An empty container. */
    constructor ()
      ensures Valid() && docs == map[]
    {
      docs := map[];
    }

    /** `container.items.upsert(doc)`: insert, or replace the document with the same id. */
    method Upsert(doc: SubscriptionDoc)
      requires Valid()
      modifies this
      ensures Valid()
      ensures docs == old(docs)[doc.id := doc]
      ensures docs.Keys == old(docs).Keys + {doc.id}
    {
      docs := docs[doc.id := doc];
    }

    /** `container.items.query(query).fetchAll()` for `c.modelKey = @model`; reads the store only. */
    method QueryByModel(model: string) returns (resources: seq<SubscriptionDoc>)
      requires Valid()
      ensures IsQueryResult(docs, model, resources)
    {
      resources := [];
      var pending := docs.Keys;
      while pending != {}
        invariant pending <= docs.Keys
        invariant forall i :: 0 <= i < |resources| ==>
          resources[i].id in docs.Keys - pending && docs[resources[i].id] == resources[i] && resources[i].modelKey == model
        invariant forall i, j :: 0 <= i < j < |resources| ==> resources[i].id != resources[j].id
        invariant forall id :: id in docs.Keys - pending && docs[id].modelKey == model ==> docs[id] in resources
        decreases pending
      {
        var id :| id in pending;
        if docs[id].modelKey == model {
          resources := resources + [docs[id]];
        }
        pending := pending - {id};
      }
    }
  }

  /** The ids appearing in a list of documents. */
  function IdSet(rs: seq<SubscriptionDoc>): set<string> {
    set d | d in rs :: d.id
  }

  lemma {:induction false} DistinctIdsCount(rs: seq<SubscriptionDoc>)
    requires forall i, j :: 0 <= i < j < |rs| ==> rs[i].id != rs[j].id
    ensures |IdSet(rs)| == |rs|
  {
    if rs != [] {
      var tail := rs[1..];
      DistinctIdsCount(tail);
      assert IdSet(rs) == {rs[0].id} + IdSet(tail) by {
        forall d | d in rs ensures d == rs[0] || d in tail {
          var k :| 0 <= k < |rs| && rs[k] == d;
          if k > 0 { assert tail[k - 1] == d; }
        }
      }
      assert rs[0].id !in IdSet(tail) by {
        forall d | d in tail ensures d.id != rs[0].id {
          var k :| 0 <= k < |tail| && tail[k] == d;
          assert rs[k + 1] == d;
        }
      }
    }
  }

  /** A query answer has one document per matching id, so it is empty exactly when nothing matches. */
  lemma QueryResultSize(docs: map<string, SubscriptionDoc>, model: string, rs: seq<SubscriptionDoc>)
    requires KeyedById(docs) && IsQueryResult(docs, model, rs)
    ensures |rs| == |MatchingIds(docs, model)|
    ensures rs == [] <==> MatchingIds(docs, model) == {}
  {
    assert IdSet(rs) == MatchingIds(docs, model) by {
      forall id | id in MatchingIds(docs, model) ensures id in IdSet(rs) {
        assert docs[id] in rs && docs[id].id == id;
      }
    }
    DistinctIdsCount(rs);
  }
}
