/** What the classifier makes of the failures the models produce: every
    rejection a model builds is answered with its own status and message,
    malformed ids become 400, and no model failure is left unanswered. */
module Responses {
  import opened Results
  import opened Schema
  import opened Failures
  import opened ErrorHandling
  import Topics
  import Comments
  import Articles

  /** A failure the models can produce is answered, or, for an id or vote
      count outside the INTEGER range, passed on to the fallback. */
  predicate AnsweredOrEscalated(err: Err)
  {
    match HandleCustomErrors(err)
    case Sent(r) => r.status in {400, 404}
    case Next(e) => e.code == Some(NUMERIC_VALUE_OUT_OF_RANGE)
    case Unanswered => false
  }

  /** Every listing failure is a typed rejection, answered as built:
      400 for a bad query, 404 for an unknown or empty topic. */
  lemma ListingFailuresAnswered(db: Db, topic: Option<string>, sortBy: Option<string>, order: Option<string>)
    requires Articles.FetchArticles(db, topic, sortBy, order).Error?
    ensures var e := Articles.FetchArticles(db, topic, sortBy, order).error;
            IsTyped(e) && HandleCustomErrors(e) == Sent(Response(e.status.value, e.msg.value))
            && e.status.value in {400, 404}
  {
  }

  /** The precedence of the listing's checks, as responses: a bad `sort_by`
      wins over a bad `order`. */
  lemma InvalidSortByWins(db: Db, topic: Option<string>, sortBy: Option<string>, order: Option<string>)
    requires Articles.Truthy(sortBy) && sortBy.value !in Articles.SORT_BY_ALLOW_LIST
    ensures var r := Articles.FetchArticles(db, topic, sortBy, order);
            r.Error? && HandleCustomErrors(r.error) == Sent(Response(400, Articles.INVALID_SORT_BY))
  {
  }

  /** Looking up an article: a malformed id is a 400, an unknown one a 404,
      an id beyond the INTEGER range escalates. */
  lemma ArticleLookupResponses(db: Db, articleId: IdArg)
    requires Articles.FetchArticleById(db, articleId).Error?
    ensures var e := Articles.FetchArticleById(db, articleId).error;
            AnsweredOrEscalated(e)
            && (articleId.NotAnInteger? ==> HandleCustomErrors(e) == Sent(Response(400, INVALID_ARTICLE_ID)))
            && (articleId.Integer? && InInt4(articleId.n)
                ==> HandleCustomErrors(e) == Sent(Response(404, Articles.ARTICLE_NOT_FOUND)))
  {
  }

  /** Every failure of the vote update is answered or escalated, never left
      unanswered. */
  lemma VoteUpdateResponses(db: Db, articleId: IdArg, incVotes: Option<int>)
    requires Articles.UpdatedArticleVotes(db, articleId, incVotes).result.Error?
    ensures AnsweredOrEscalated(Articles.UpdatedArticleVotes(db, articleId, incVotes).result.error)
  {
  }

  /** Every failure of the comments listing is answered or escalated. */
  lemma CommentListingResponses(db: Db, articleId: IdArg)
    requires Comments.FetchCommentsByArticle(db, articleId).Error?
    ensures AnsweredOrEscalated(Comments.FetchCommentsByArticle(db, articleId).error)
  {
  }

  /** The topic lookup's only failure is answered as a 404. */
  lemma TopicLookupResponses(db: Db, slug: string)
    requires Topics.FetchTopicBySlug(db, slug).Error?
    ensures HandleCustomErrors(Topics.FetchTopicBySlug(db, slug).error)
            == Sent(Response(404, Topics.TOPIC_NOT_FOUND))
  {
  }
}
