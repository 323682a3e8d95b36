/** Properties of the comments listing: which comments it returns, and its
    agreement with the `comment_count` of the article listing. */
module CommentProperties {
  import opened Results
  import opened Schema
  import opened Failures
  import Seqs
  import opened Comments

  /** For an article id, the listing returns exactly that article's
      comments. */
  lemma CommentsListingMembers(db: Db, id: int, c: Comment)
    requires FetchCommentsByArticle(db, Integer(id)).Ok?
    ensures c in FetchCommentsByArticle(db, Integer(id)).value <==> c in db.comments && c.articleId == id
  {
    var r := FetchCommentsByArticle(db, Integer(id)).value;
    Seqs.PermutationKeepsMembers(r, Candidates(db.comments, Some(id)), c);
    Seqs.FilterMembers(db.comments, OnArticle(id), c);
  }

  /** Without an article id, the listing is every comment, reordered. */
  lemma UndefinedIdListsAll(db: Db)
    ensures FetchCommentsByArticle(db, Undefined).Ok? <==> |db.comments| > 0
    ensures FetchCommentsByArticle(db, Undefined).Ok? ==>
              multiset(FetchCommentsByArticle(db, Undefined).value) == multiset(db.comments)
  {
  }

  /** The comments listing of an article fails exactly when the article
      listing would count 0 comments for it, and otherwise has as many
      comments as that count. */
  lemma CommentCountAgreesWithListing(db: Db, id: int)
    requires InInt4(id)
    ensures var r := FetchCommentsByArticle(db, Integer(id));
            (r.Error? <==> CommentCount(db.comments, id) == 0)
            && (r.Ok? ==> |r.value| == CommentCount(db.comments, id))
  {
    CommentCountIsCandidates(db.comments, id);
    var r := FetchCommentsByArticle(db, Integer(id));
    if r.Ok? {
      assert |multiset(r.value)| == |multiset(Candidates(db.comments, Some(id)))|;
    }
  }
}
