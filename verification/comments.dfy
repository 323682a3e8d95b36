/** The comments model: listing the comments of an article, newest first,
    and counting them (the `comment_count` of an article listing). */
module Comments {
  import opened Results
  import opened Schema
  import opened Failures
  import opened Ordering
  import Seqs

  const NO_COMMENTS_FOUND: string := "no comments found"

  /** The condition `comments.article_id = id`. */
  function OnArticle(id: int): Comment -> bool
  {
    (c: Comment) => c.articleId == id
  }

  /** The rows a comments query starts from: the whole table when no
      article id is given, otherwise those of that article. */
  function Candidates(comments: seq<Comment>, articleId: Option<int>): (r: seq<Comment>)
    ensures articleId.None? ==> r == comments
    ensures articleId.Some? ==> forall i :: 0 <= i < |r| ==> r[i].articleId == articleId.value
    ensures articleId.Some? ==> forall c :: multiset(r)[c] == if c.articleId == articleId.value then multiset(comments)[c] else 0
  {
    match articleId
    case None => comments
    case Some(id) => Seqs.Filter(comments, OnArticle(id))
  }

  /** The sort key of `ORDER BY created_at`. */
  const ByCreatedAt: Comment -> Key := (c: Comment) => Num(c.createdAt)

  /** `COUNT(comments.comment_id)` over `articles LEFT JOIN comments` for one
      article: the number of its comments, 0 when it has none. */
  function CommentCount(comments: seq<Comment>, id: int): (n: nat)
    ensures n <= |comments|
    ensures n == 0 <==> forall i :: 0 <= i < |comments| ==> comments[i].articleId != id
  {
    Seqs.Count(comments, OnArticle(id))
  }

  /** The count is the number of comments the comments listing of that
      article starts from. */
  lemma CommentCountIsCandidates(comments: seq<Comment>, id: int)
    ensures CommentCount(comments, id) == |Candidates(comments, Some(id))|
  {
    Seqs.CountIsFilterLength(comments, OnArticle(id));
  }

  /** `SELECT * FROM comments [WHERE article_id = $1] ORDER BY created_at DESC`;
      an empty result is a 404 rejection rather than an empty list. */
  function FetchCommentsByArticle(db: Db, articleId: IdArg): (r: Result<seq<Comment>, Err>)
    ensures BindId(articleId).Error? ==> r == Error(BindId(articleId).error)
    ensures r.Ok? ==> BindId(articleId).Ok?
    ensures r.Ok? ==> 0 < |r.value|
    ensures r.Ok? ==> multiset(r.value) == multiset(Candidates(db.comments, BindId(articleId).value))
    ensures r.Ok? ==> Sorted(r.value, ByCreatedAt, Desc)
    ensures r.Ok? && articleId.Integer? ==> forall i :: 0 <= i < |r.value| ==> r.value[i].articleId == articleId.n
    ensures BindId(articleId).Ok? ==>
              (r.Error? <==> |Candidates(db.comments, BindId(articleId).value)| == 0)
    ensures BindId(articleId).Ok? && r.Error? ==> r.error == Reject(404, NO_COMMENTS_FOUND)
  {
    match BindId(articleId)
    case Error(e) => Error(e)
    case Ok(key) =>
      var rows := Sort(Candidates(db.comments, key), ByCreatedAt, Desc);
      if |rows| == 0 then Error(Reject(404, NO_COMMENTS_FOUND)) else Ok(rows)
  }
}
