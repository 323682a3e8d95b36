/** The topics model: listing all topics, and looking one up by its slug. */
module Topics {
  import opened Results
  import opened Schema
  import opened Failures
  import Seqs

  const TOPIC_NOT_FOUND: string := "topic with this slug does not exist"

  predicate HasSlug(t: Topic, slug: string)
  {
    t.slug == slug
  }

  /** `SELECT * FROM topics`: every row, in table order; an empty table gives
      an empty list, never a rejection. */
  function FetchTopics(db: Db): (r: Result<seq<Topic>, Err>)
    ensures r.Ok?
    ensures |r.value| == |db.topics|
    ensures forall i :: 0 <= i < |db.topics| ==> r.value[i] == db.topics[i]
  {
    Ok(db.topics)
  }

  /** `SELECT * FROM topics WHERE slug = $1 LIMIT 1`, rejecting with 404 when
      no row matches. */
  function FetchTopicBySlug(db: Db, slug: string): (r: Result<Topic, Err>)
    ensures r.Ok? <==> exists i :: 0 <= i < |db.topics| && db.topics[i].slug == slug
    ensures r.Ok? ==> r.value.slug == slug
    ensures r.Ok? ==> exists i :: 0 <= i < |db.topics| && db.topics[i] == r.value
                              && forall j :: 0 <= j < i ==> db.topics[j].slug != slug
    ensures r.Error? ==> r.error == Reject(404, TOPIC_NOT_FOUND)
  {
    match Seqs.FirstIndex(db.topics, (t: Topic) => HasSlug(t, slug))
    case None => Error(Reject(404, TOPIC_NOT_FOUND))
    case Some(i) => Ok(db.topics[i])
  }
}
