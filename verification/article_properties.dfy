/** Properties of the articles model that relate several calls or follow
    from its contracts: which rows a listing holds, their comment counts,
    the default order, and what the vote update preserves. */
module ArticleProperties {
  import opened Results
  import opened Schema
  import opened Failures
  import opened Ordering
  import Seqs
  import Comments
  import opened Articles

  /** The WHERE clause keeps exactly the articles on the topic. */
  lemma MatchingMembers(articles: seq<Article>, topic: Option<string>, a: Article)
    ensures a in Matching(articles, topic) <==> a in articles && (topic.None? || a.topic == topic.value)
  {
    if topic.Some? {
      Seqs.FilterMembers(articles, OnTopic(topic.value), a);
    }
  }

  lemma ListingRowOfMatching(db: Db, topic: Option<string>, row: ListedArticle)
    requires row in ListingRows(db, topic)
    ensures exists i :: 0 <= i < |db.articles|
                        && (topic.None? || db.articles[i].topic == topic.value)
                        && row == ListingRow(db.articles[i], db.comments)
  {
    var rows := ListingRows(db, topic);
    var m := Matching(db.articles, topic);
    var k :| 0 <= k < |rows| && rows[k] == row;
    MatchingMembers(db.articles, topic, m[k]);
    var i :| 0 <= i < |db.articles| && db.articles[i] == m[k];
    assert topic.None? || db.articles[i].topic == topic.value;
  }

  lemma MatchingArticleIsListed(db: Db, topic: Option<string>, i: int)
    requires 0 <= i < |db.articles|
    requires topic.None? || db.articles[i].topic == topic.value
    ensures ListingRow(db.articles[i], db.comments) in ListingRows(db, topic)
  {
    var rows := ListingRows(db, topic);
    var m := Matching(db.articles, topic);
    MatchingMembers(db.articles, topic, db.articles[i]);
    var k :| 0 <= k < |m| && m[k] == db.articles[i];
    assert rows[k] == ListingRow(db.articles[i], db.comments);
  }

  /** The unordered listing rows are those of the matching articles. */
  lemma ListingRowsMembers(db: Db, topic: Option<string>, row: ListedArticle)
    ensures row in ListingRows(db, topic) <==>
              exists i :: 0 <= i < |db.articles|
                          && (topic.None? || db.articles[i].topic == topic.value)
                          && row == ListingRow(db.articles[i], db.comments)
  {
    if row in ListingRows(db, topic) {
      ListingRowOfMatching(db, topic, row);
    }
    if exists i :: 0 <= i < |db.articles|
                   && (topic.None? || db.articles[i].topic == topic.value)
                   && row == ListingRow(db.articles[i], db.comments) {
      var i :| 0 <= i < |db.articles|
               && (topic.None? || db.articles[i].topic == topic.value)
               && row == ListingRow(db.articles[i], db.comments);
      MatchingArticleIsListed(db, topic, i);
    }
  }

  /** A listing holds exactly the rows of the articles whose topic matches
      (all articles when no topic is given). */
  lemma ListingMembership(
    db: Db, topic: Option<string>, sortBy: Option<string>, order: Option<string>, row: ListedArticle)
    requires FetchArticles(db, topic, sortBy, order).Ok?
    ensures row in FetchArticles(db, topic, sortBy, order).value <==>
              exists i :: 0 <= i < |db.articles|
                          && (topic.None? || db.articles[i].topic == topic.value)
                          && row == ListingRow(db.articles[i], db.comments)
  {
    var r := FetchArticles(db, topic, sortBy, order).value;
    Seqs.PermutationKeepsMembers(r, ListingRows(db, topic), row);
    ListingRowsMembers(db, topic, row);
  }

  /** Every listed `comment_count` is the number of comments on that
      article, and is 0 exactly when the article has none. */
  lemma ListingCommentCounts(db: Db, topic: Option<string>, sortBy: Option<string>, order: Option<string>, k: int)
    requires FetchArticles(db, topic, sortBy, order).Ok?
    requires 0 <= k < |FetchArticles(db, topic, sortBy, order).value|
    ensures var row := FetchArticles(db, topic, sortBy, order).value[k];
            row.commentCount == |Comments.Candidates(db.comments, Some(row.articleId))|
    ensures var row := FetchArticles(db, topic, sortBy, order).value[k];
            row.commentCount == 0 <==>
              forall j :: 0 <= j < |db.comments| ==> db.comments[j].articleId != row.articleId
  {
    var row := FetchArticles(db, topic, sortBy, order).value[k];
    ListingMembership(db, topic, sortBy, order, row);
    var i :| 0 <= i < |db.articles| && row == ListingRow(db.articles[i], db.comments);
    Comments.CommentCountIsCandidates(db.comments, row.articleId);
  }

  /** Without `sort_by` and `order` (or with empty ones) the listing is in
      descending order of creation time. */
  lemma DefaultListingOrder(db: Db, topic: Option<string>, sortBy: Option<string>, order: Option<string>)
    requires !Truthy(sortBy) && !Truthy(order)
    ensures FetchArticles(db, topic, sortBy, order).Ok? || Truthy(topic)
    ensures var r := FetchArticles(db, topic, sortBy, order);
            r.Ok? ==> forall i, j :: 0 <= i < j < |r.value| ==> r.value[i].createdAt >= r.value[j].createdAt
  {
    var q := ValidateListingQuery(sortBy, order);
    assert q == Ok(ListingQuery(CreatedAt, Desc));
    var r := FetchArticles(db, topic, sortBy, order);
    if r.Ok? {
      forall i, j | 0 <= i < j < |r.value|
        ensures r.value[i].createdAt >= r.value[j].createdAt
      {
        assert InOrder(ColumnKey(CreatedAt), Desc, r.value[i], r.value[j]);
      }
    }
  }

  /** A rejected query is decided before the store is read: the answer is
      the same whatever the store and the topic. */
  lemma ValidationPrecedesStoreAccess(
    db1: Db, db2: Db, topic1: Option<string>, topic2: Option<string>,
    sortBy: Option<string>, order: Option<string>)
    requires ValidateListingQuery(sortBy, order).Error?
    ensures FetchArticles(db1, topic1, sortBy, order) == FetchArticles(db2, topic2, sortBy, order)
    ensures FetchArticles(db1, topic1, sortBy, order).error.code.None?
  {
  }

  /** With no topic, or an empty one, a store without matching articles
      yields an empty listing, not a rejection. */
  lemma EmptyListingWithoutTopic(db: Db, topic: Option<string>, sortBy: Option<string>, order: Option<string>)
    requires ValidateListingQuery(sortBy, order).Ok?
    requires !Truthy(topic)
    requires forall i :: 0 <= i < |db.articles| ==> topic.Some? && db.articles[i].topic != topic.value
    ensures FetchArticles(db, topic, sortBy, order) == Ok([])
  {
    if topic.Some? {
      assert forall a :: multiset(Matching(db.articles, topic))[a] == 0 by {
        forall a
          ensures multiset(Matching(db.articles, topic))[a] == 0
        {
          if a.topic == topic.value {
            assert a !in db.articles;
          }
        }
      }
      assert multiset(Matching(db.articles, topic)) == multiset{};
    }
  }

  /** With unique article ids, an update never drives any vote count below
      zero. */
  lemma VotesStayNonNegative(db: Db, articleId: IdArg, incVotes: Option<int>)
    requires UniqueArticleIds(db.articles)
    requires VotesNonNegative(db.articles)
    ensures VotesNonNegative(UpdatedArticleVotes(db, articleId, incVotes).db.articles)
  {
    var u := UpdatedArticleVotes(db, articleId, incVotes);
    if u.result.Ok? && articleId.Integer? {
      var f := FetchArticleById(db, articleId).value;
      var k :| 0 <= k < |db.articles| && db.articles[k] == f;
      forall i | 0 <= i < |db.articles|
        ensures u.db.articles[i].votes >= 0
      {
        if db.articles[i].articleId == articleId.n {
          assert i == k;
        }
      }
    }
  }

  /** Raising and then lowering the votes of one id by the same amount
      gives back the table. */
  lemma BumpRoundTrip(articles: seq<Article>, id: int, k: int)
    ensures Bump(Bump(articles, id, k), id, -k) == articles
  {
    var twice := Bump(Bump(articles, id, k), id, -k);
    assert forall i :: 0 <= i < |articles| ==> twice[i] == articles[i];
  }

  /** The update does not move the first row with the id. */
  lemma BumpKeepsFirstRow(articles: seq<Article>, id: int, k: int)
    ensures FirstRow(Bump(articles, id, k), Some(id)) == FirstRow(articles, Some(id))
  {
    var b := Bump(articles, id, k);
    assert forall j :: 0 <= j < |articles| ==> b[j].articleId == articles[j].articleId;
    var x := FirstRow(b, Some(id));
    var y := FirstRow(articles, Some(id));
    if x.Some? && y.Some? {
      assert !(x.value < y.value) && !(y.value < x.value);
    }
  }

  /** When every guard passes, the update applies `Bump` and returns the
      fetched article with its votes raised. */
  lemma UpdateApplied(db: Db, id: int, k: int)
    requires FetchArticleById(db, Integer(id)).Ok?
    requires k + FetchArticleById(db, Integer(id)).value.votes >= 0
    requires InInt4(k) && BumpFits(db.articles, id, k)
    ensures var a := FetchArticleById(db, Integer(id)).value;
            UpdatedArticleVotes(db, Integer(id), Some(k))
              == VoteUpdate(db.(articles := Bump(db.articles, id, k)), Ok(Some(a.(votes := a.votes + k))))
  {
  }

  /** A successful update passed every guard. */
  lemma UpdateGuards(db: Db, id: int, k: int)
    requires UpdatedArticleVotes(db, Integer(id), Some(k)).result.Ok?
    ensures FetchArticleById(db, Integer(id)).Ok?
    ensures k + FetchArticleById(db, Integer(id)).value.votes >= 0
    ensures InInt4(k) && BumpFits(db.articles, id, k)
  {
  }

  /** After the update, the lookup finds the same article with its new
      vote count. */
  lemma FetchAfterBump(db: Db, id: int, k: int)
    requires FetchArticleById(db, Integer(id)).Ok?
    ensures var a := FetchArticleById(db, Integer(id)).value;
            FetchArticleById(db.(articles := Bump(db.articles, id, k)), Integer(id)) == Ok(a.(votes := a.votes + k))
  {
    BumpKeepsFirstRow(db.articles, id, k);
  }

  /** Lowering by `k` the votes that were just raised by `k` passes every
      guard of the update. */
  lemma UndoPassesGuards(db: Db, id: int, k: int)
    requires VotesInInt4(db.articles)
    requires FetchArticleById(db, Integer(id)).Ok?
    requires FetchArticleById(db, Integer(id)).value.votes >= 0
    requires k + FetchArticleById(db, Integer(id)).value.votes >= 0
    requires InInt4(k)
    ensures var db1 := db.(articles := Bump(db.articles, id, k));
            && FetchArticleById(db1, Integer(id)).Ok?
            && -k + FetchArticleById(db1, Integer(id)).value.votes >= 0
            && InInt4(-k) && BumpFits(db1.articles, id, -k)
  {
    FetchAfterBump(db, id, k);
    assert FetchArticleById(db, Integer(id)).value in db.articles;
  }

  lemma UndoResult(db: Db, db1: Db, id: int, k: int, a: Article)
    requires db1.(articles := Bump(db1.articles, id, -k)) == db
    requires FetchArticleById(db1, Integer(id)) == Ok(a.(votes := a.votes + k))
    requires -k + FetchArticleById(db1, Integer(id)).value.votes >= 0
    requires InInt4(-k) && BumpFits(db1.articles, id, -k)
    ensures UpdatedArticleVotes(db1, Integer(id), Some(-k)) == VoteUpdate(db, Ok(Some(a)))
  {
    UpdateApplied(db1, id, -k);
  }

  /** A successful raise by `k` leaves the store with `Bump` applied. */
  lemma RaiseApplied(db: Db, id: int, k: int)
    requires UpdatedArticleVotes(db, Integer(id), Some(k)).result.Ok?
    ensures UpdatedArticleVotes(db, Integer(id), Some(k)).db == db.(articles := Bump(db.articles, id, k))
    ensures FetchArticleById(db, Integer(id)).Ok?
    ensures k + FetchArticleById(db, Integer(id)).value.votes >= 0
    ensures InInt4(k)
  {
    UpdateGuards(db, id, k);
    UpdateApplied(db, id, k);
  }

  /** Lowering by `k` votes just raised by `k` restores the store and
      returns the original article. */
  lemma LowerApplied(db: Db, id: int, k: int)
    requires VotesInInt4(db.articles)
    requires FetchArticleById(db, Integer(id)).Ok?
    requires FetchArticleById(db, Integer(id)).value.votes >= 0
    requires k + FetchArticleById(db, Integer(id)).value.votes >= 0
    requires InInt4(k)
    ensures UpdatedArticleVotes(db.(articles := Bump(db.articles, id, k)), Integer(id), Some(-k))
              == VoteUpdate(db, Ok(Some(FetchArticleById(db, Integer(id)).value)))
  {
    var a := FetchArticleById(db, Integer(id)).value;
    var db1 := db.(articles := Bump(db.articles, id, k));
    assert -k + FetchArticleById(db1, Integer(id)).value.votes >= 0
           && InInt4(-k) && BumpFits(db1.articles, id, -k) by {
      UndoPassesGuards(db, id, k);
    }
    assert db1.(articles := Bump(db1.articles, id, -k)) == db by {
      BumpRoundTrip(db.articles, id, k);
    }
    assert FetchArticleById(db1, Integer(id)) == Ok(a.(votes := a.votes + k)) by {
      FetchAfterBump(db, id, k);
    }
    UndoResult(db, db1, id, k, a);
  }

  /** Adding `k` votes and then `-k` votes restores the store and returns
      the article as it was. */
  lemma VoteRoundTrip(db: Db, id: int, k: int)
    requires VotesInInt4(db.articles) && VotesNonNegative(db.articles)
    requires UpdatedArticleVotes(db, Integer(id), Some(k)).result.Ok?
    ensures var u1 := UpdatedArticleVotes(db, Integer(id), Some(k));
            var u2 := UpdatedArticleVotes(u1.db, Integer(id), Some(-k));
            u2.result == Ok(Some(FetchArticleById(db, Integer(id)).value)) && u2.db == db
  {
    RaiseApplied(db, id, k);
    assert FetchArticleById(db, Integer(id)).value in db.articles;
    LowerApplied(db, id, k);
  }

  /** `rows[0]` of `UPDATE ... RETURNING *` is the first row of the updated
      table with that id, which is what the update returns. */
  lemma ReturnedRowIsFirstUpdated(db: Db, id: int, incVotes: Option<int>)
    requires UpdatedArticleVotes(db, Integer(id), incVotes).result.Ok?
    ensures var u := UpdatedArticleVotes(db, Integer(id), incVotes);
            FirstRow(u.db.articles, Some(id)).Some?
            && u.result.value == Some(u.db.articles[FirstRow(u.db.articles, Some(id)).value])
  {
    var k := incVotes.value;
    RaiseApplied(db, id, k);
    BumpKeepsFirstRow(db.articles, id, k);
  }
}
