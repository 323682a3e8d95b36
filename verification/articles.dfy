/** The articles model: the validated, filtered and ordered article listing
    with comment counts, the lookup of one article by id, and the guarded
    vote update. */
module Articles {
  import opened Results
  import opened Schema
  import opened Failures
  import opened Ordering
  import Seqs
  import Topics
  import Comments

  const SORT_BY_ALLOW_LIST: seq<string> :=
    ["author", "title", "article_id", "topic", "created_at", "votes", "article_img_url"]
  const ORDER_ALLOW_LIST: seq<string> := ["asc", "desc"]

  const INVALID_SORT_BY: string := "Invalid sort_by query"
  const INVALID_ORDER: string := "Invalid order query"
  const NO_ARTICLES_FOR_TOPIC: string := "no articles for this topic found"
  const ARTICLE_NOT_FOUND: string := "article with this id does not exist"
  const INC_VOTES_NOT_A_NUMBER: string := "Bad request: inc_votes is required and must be a number"
  const NEGATIVE_VOTES: string := "article.votes can not be a negative number"

  /** JavaScript truthiness of an optional string: present and non-empty. */
  predicate Truthy(s: Option<string>)
  {
    s.Some? && s.value != ""
  }

  // ---------------------------------------------------------------------
  // Query validation
  // ---------------------------------------------------------------------

  /** The columns a listing may be ordered by. */
  datatype Column = Author | Title | ArticleId | TopicColumn | CreatedAt | Votes | ArticleImgUrl

  function ColumnName(c: Column): string
  {
    match c
    case Author => "author"
    case Title => "title"
    case ArticleId => "article_id"
    case TopicColumn => "topic"
    case CreatedAt => "created_at"
    case Votes => "votes"
    case ArticleImgUrl => "article_img_url"
  }

  /** Reads a `sort_by` value: exactly the allow-list is accepted, each
      entry as the column of that name. */
  function ParseColumn(s: string): (r: Option<Column>)
    ensures r.Some? <==> s in SORT_BY_ALLOW_LIST
    ensures r.Some? ==> ColumnName(r.value) == s
  {
    if s == "author" then Some(Author)
    else if s == "title" then Some(Title)
    else if s == "article_id" then Some(ArticleId)
    else if s == "topic" then Some(TopicColumn)
    else if s == "created_at" then Some(CreatedAt)
    else if s == "votes" then Some(Votes)
    else if s == "article_img_url" then Some(ArticleImgUrl)
    else None
  }

  /** Every column's name reads back as that column. */
  lemma ColumnNameRoundTrip(c: Column)
    ensures ParseColumn(ColumnName(c)) == Some(c)
  {
  }

  function DirectionName(d: Direction): string
  {
    match d
    case Asc => "asc"
    case Desc => "desc"
  }

  /** Reads an `order` value: exactly `asc` and `desc` are accepted. */
  function ParseDirection(s: string): (r: Option<Direction>)
    ensures r.Some? <==> s in ORDER_ALLOW_LIST
    ensures r.Some? ==> DirectionName(r.value) == s
  {
    if s == "asc" then Some(Asc) else if s == "desc" then Some(Desc) else None
  }

  lemma DirectionNameRoundTrip(d: Direction)
    ensures ParseDirection(DirectionName(d)) == Some(d)
  {
  }

  /** A validated `ORDER BY` clause. */
  datatype ListingQuery = ListingQuery(column: Column, direction: Direction)

  /** Checks `sort_by` and then `order`; a falsy value takes the default
      (`created_at`, `desc`), a truthy one must be on its allow-list. */
  function ValidateListingQuery(sortBy: Option<string>, order: Option<string>): (r: Result<ListingQuery, Err>)
    ensures Truthy(sortBy) && sortBy.value !in SORT_BY_ALLOW_LIST ==> r == Error(Reject(400, INVALID_SORT_BY))
    ensures (!Truthy(sortBy) || sortBy.value in SORT_BY_ALLOW_LIST)
            && Truthy(order) && order.value !in ORDER_ALLOW_LIST
            ==> r == Error(Reject(400, INVALID_ORDER))
    ensures r.Ok? <==> (!Truthy(sortBy) || sortBy.value in SORT_BY_ALLOW_LIST)
                       && (!Truthy(order) || order.value in ORDER_ALLOW_LIST)
    ensures r.Ok? ==> ColumnName(r.value.column) == if Truthy(sortBy) then sortBy.value else "created_at"
    ensures r.Ok? ==> DirectionName(r.value.direction) == if Truthy(order) then order.value else "desc"
  {
    var column :=
      if Truthy(sortBy) then ParseColumn(sortBy.value) else Some(CreatedAt);
    if column.None? then
      Error(Reject(400, INVALID_SORT_BY))
    else
      var direction :=
        if Truthy(order) then ParseDirection(order.value) else Some(Desc);
      if direction.None? then
        Error(Reject(400, INVALID_ORDER))
      else
        Ok(ListingQuery(column.value, direction.value))
  }

  // ---------------------------------------------------------------------
  // Listing
  // ---------------------------------------------------------------------

  /** A row of the listing: the article without its body, plus the number
      of its comments. */
  datatype ListedArticle = ListedArticle(
    author: string,
    title: string,
    articleId: int,
    topic: string,
    createdAt: int,
    votes: int,
    articleImgUrl: string,
    commentCount: nat)

  /** The value a listing row is ordered by. */
  function ColumnKey(c: Column): ListedArticle -> Key
  {
    (a: ListedArticle) =>
      match c
      case Author => Text(a.author)
      case Title => Text(a.title)
      case ArticleId => Num(a.articleId)
      case TopicColumn => Text(a.topic)
      case CreatedAt => Num(a.createdAt)
      case Votes => Num(a.votes)
      case ArticleImgUrl => Text(a.articleImgUrl)
  }

  /** The grouped row `articles LEFT JOIN comments ... GROUP BY article_id`
      produces for one article. */
  function ListingRow(a: Article, comments: seq<Comment>): ListedArticle
  {
    ListedArticle(a.author, a.title, a.articleId, a.topic, a.createdAt, a.votes,
                  a.articleImgUrl, Comments.CommentCount(comments, a.articleId))
  }

  /** The condition `topic = $1`. */
  function OnTopic(topic: string): Article -> bool
  {
    (a: Article) => a.topic == topic
  }

  /** The articles the WHERE clause keeps: all of them when `topic` is
      undefined (an empty string still filters). */
  function Matching(articles: seq<Article>, topic: Option<string>): seq<Article>
  {
    match topic
    case None => articles
    case Some(t) => Seqs.Filter(articles, OnTopic(t))
  }

  /** The rows of the listing query before ordering. */
  function ListingRows(db: Db, topic: Option<string>): (rows: seq<ListedArticle>)
    ensures |rows| == |Matching(db.articles, topic)|
    ensures forall i :: 0 <= i < |rows| ==> rows[i] == ListingRow(Matching(db.articles, topic)[i], db.comments)
  {
    var m := Matching(db.articles, topic);
    seq(|m|, i requires 0 <= i < |m| => ListingRow(m[i], db.comments))
  }

  /** `fetchArticles(topic, sort_by, order)`: validation first, then the
      listing query, then, for a truthy topic with no rows, the topic lookup
      that tells an unknown topic from a topic without articles. */
  function FetchArticles(db: Db, topic: Option<string>, sortBy: Option<string>, order: Option<string>)
    : (r: Result<seq<ListedArticle>, Err>)
    ensures var q := ValidateListingQuery(sortBy, order);
            q.Error? ==> r == Error(q.error)
    ensures var q := ValidateListingQuery(sortBy, order);
            r.Ok? ==> q.Ok?
                      && multiset(r.value) == multiset(ListingRows(db, topic))
                      && Sorted(r.value, ColumnKey(q.value.column), q.value.direction)
    ensures r.Ok? && Truthy(topic) ==> |r.value| > 0
    ensures ValidateListingQuery(sortBy, order).Ok?
            && (!Truthy(topic) || |Matching(db.articles, topic)| > 0)
            ==> r.Ok?
    ensures ValidateListingQuery(sortBy, order).Ok?
            && Truthy(topic) && |Matching(db.articles, topic)| == 0
            ==> r == Error(Reject(404,
                         if exists i :: 0 <= i < |db.topics| && db.topics[i].slug == topic.value
                         then NO_ARTICLES_FOR_TOPIC
                         else Topics.TOPIC_NOT_FOUND))
  {
    match ValidateListingQuery(sortBy, order)
    case Error(e) => Error(e)
    case Ok(q) =>
      var rows := Sort(ListingRows(db, topic), ColumnKey(q.column), q.direction);
      if Truthy(topic) && |rows| == 0 then
        match Topics.FetchTopicBySlug(db, topic.value)
        case Error(e) => Error(e)
        case Ok(_) => Error(Reject(404, NO_ARTICLES_FOR_TOPIC))
      else
        Ok(rows)
  }

  // ---------------------------------------------------------------------
  // Single article
  // ---------------------------------------------------------------------

  /** The condition `article_id = $1`. */
  function HasId(id: int): Article -> bool
  {
    (a: Article) => a.articleId == id
  }

  /** Position of `rows[0]` of `SELECT * FROM articles [WHERE article_id = $1]`. */
  function FirstRow(articles: seq<Article>, key: Option<int>): (r: Option<nat>)
    ensures r.Some? ==> r.value < |articles|
    ensures key.None? ==> (r.Some? <==> |articles| > 0) && (r.Some? ==> r.value == 0)
    ensures key.Some? ==> (r.Some? <==> exists i :: 0 <= i < |articles| && articles[i].articleId == key.value)
    ensures key.Some? && r.Some? ==> articles[r.value].articleId == key.value
    ensures key.Some? && r.Some? ==> forall j :: 0 <= j < r.value ==> articles[j].articleId != key.value
  {
    match key
    case None => if |articles| == 0 then None else Some(0)
    case Some(id) => Seqs.FirstIndex(articles, HasId(id))
  }

  /** `fetchArticleById(article_id)`: the first row with that id, 404 when
      there is none; an undefined id drops the WHERE clause. */
  function FetchArticleById(db: Db, articleId: IdArg): (r: Result<Article, Err>)
    ensures BindId(articleId).Error? ==> r == Error(BindId(articleId).error)
    ensures r.Ok? ==> r.value in db.articles
    ensures r.Ok? && articleId.Integer? ==> r.value.articleId == articleId.n
    ensures articleId.Integer? && InInt4(articleId.n) ==>
              (r.Ok? <==> exists i :: 0 <= i < |db.articles| && db.articles[i].articleId == articleId.n)
    ensures articleId.Undefined? ==> (r.Ok? <==> |db.articles| > 0)
    ensures articleId.Undefined? && r.Ok? ==> r.value == db.articles[0]
    ensures BindId(articleId).Ok? && r.Error? ==> r.error == Reject(404, ARTICLE_NOT_FOUND)
  {
    match BindId(articleId)
    case Error(e) => Error(e)
    case Ok(key) =>
      match FirstRow(db.articles, key)
      case None => Error(Reject(404, ARTICLE_NOT_FOUND))
      case Some(i) => Ok(db.articles[i])
  }

  // ---------------------------------------------------------------------
  // Vote update
  // ---------------------------------------------------------------------

  /** `SET votes = votes + inc WHERE article_id = id` on the whole table. */
  function Bump(articles: seq<Article>, id: int, inc: int): (r: seq<Article>)
    ensures |r| == |articles|
    ensures forall i :: 0 <= i < |r| ==>
              r[i] == if articles[i].articleId == id
                      then articles[i].(votes := articles[i].votes + inc)
                      else articles[i]
  {
    seq(|articles|, i requires 0 <= i < |articles| =>
      if articles[i].articleId == id then articles[i].(votes := articles[i].votes + inc) else articles[i])
  }

  /** The UPDATE stays within the INTEGER range on every row it touches. */
  predicate BumpFits(articles: seq<Article>, id: int, inc: int)
  {
    forall i :: 0 <= i < |articles| && articles[i].articleId == id ==> InInt4(articles[i].votes + inc)
  }

  /** The smallest integer JavaScript writes in exponent notation
      (`String(1e21)` is "1e+21"); node-postgres sends a number parameter as
      that text. */
  const EXPONENT_NOTATION_MIN: int := 1_000_000_000_000_000_000_000

  /** The store after a vote update, and what the update settles with:
      the updated row, or `None` when `rows[0]` is undefined. */
  datatype VoteUpdate = VoteUpdate(db: Db, result: Result<Option<Article>, Err>)

  /** `updatedArticleVotes(article_id, inc_votes)`: rejects a non-numeric
      increment before touching the store, propagates the lookup's
      rejection, refuses an increment that would make the votes negative,
      and otherwise increments the votes of the article in one UPDATE. */
  function UpdatedArticleVotes(db: Db, articleId: IdArg, incVotes: Option<int>): (u: VoteUpdate)
    ensures u.result.Error? ==> u.db == db
    ensures u.db.topics == db.topics && u.db.comments == db.comments
    ensures incVotes.None? ==> u.result == Error(Reject(400, INC_VOTES_NOT_A_NUMBER))
    ensures var f := FetchArticleById(db, articleId);
            incVotes.Some? && f.Error? ==> u.result == Error(f.error)
    ensures var f := FetchArticleById(db, articleId);
            incVotes.Some? && f.Ok? && incVotes.value + f.value.votes < 0
            ==> u.result == Error(Reject(404, NEGATIVE_VOTES))
    ensures var f := FetchArticleById(db, articleId);
            u.result.Ok? ==> incVotes.Some? && f.Ok? && incVotes.value + f.value.votes >= 0
    ensures var f := FetchArticleById(db, articleId);
            u.result.Ok? && articleId.Integer?
            ==> u.result.value == Some(f.value.(votes := f.value.votes + incVotes.value))
                && InInt4(f.value.votes + incVotes.value)
    ensures u.result.Ok? && !articleId.Integer? ==> u.result.value == None && u.db == db
    ensures u.result.Ok? && articleId.Integer? ==> u.db.articles == Bump(db.articles, articleId.n, incVotes.value)
    ensures var f := FetchArticleById(db, articleId);
            incVotes.Some? && f.Ok? && incVotes.value + f.value.votes >= 0
            && incVotes.value >= EXPONENT_NOTATION_MIN
            ==> u.result == Error(DbError(INVALID_TEXT_REPRESENTATION, None))
    ensures var f := FetchArticleById(db, articleId);
            incVotes.Some? && f.Ok? && incVotes.value + f.value.votes >= 0
            && incVotes.value < EXPONENT_NOTATION_MIN && !InInt4(incVotes.value)
            ==> u.result == Error(DbError(NUMERIC_VALUE_OUT_OF_RANGE, None))
    ensures var f := FetchArticleById(db, articleId);
            incVotes.Some? && f.Ok? && incVotes.value + f.value.votes >= 0 && InInt4(incVotes.value)
            && articleId.Integer?
            ==> (u.result.Ok? <==> BumpFits(db.articles, articleId.n, incVotes.value))
                && (u.result.Error? ==> u.result.error == DbError(NUMERIC_VALUE_OUT_OF_RANGE, None))
    ensures var f := FetchArticleById(db, articleId);
            incVotes.Some? && f.Ok? && incVotes.value + f.value.votes >= 0 && InInt4(incVotes.value)
            && !articleId.Integer?
            ==> u.result == Ok(None)
  {
    if incVotes.None? then
      VoteUpdate(db, Error(Reject(400, INC_VOTES_NOT_A_NUMBER)))
    else
      match FetchArticleById(db, articleId)
      case Error(e) => VoteUpdate(db, Error(e))
      case Ok(article) =>
        var inc := incVotes.value;
        if inc + article.votes < 0 then
          VoteUpdate(db, Error(Reject(404, NEGATIVE_VOTES)))
        else if inc >= EXPONENT_NOTATION_MIN then
          // The parameter is sent as text such as "1e+21", which is not an
          // INTEGER literal.
          VoteUpdate(db, Error(DbError(INVALID_TEXT_REPRESENTATION, None)))
        else if !InInt4(inc) then
          VoteUpdate(db, Error(DbError(NUMERIC_VALUE_OUT_OF_RANGE, None)))
        else
          match BindId(articleId).value
          case None =>
            // `article_id = NULL` matches no row, so `rows[0]` is undefined.
            VoteUpdate(db, Ok(None))
          case Some(id) =>
            if !BumpFits(db.articles, id, inc) then
              VoteUpdate(db, Error(DbError(NUMERIC_VALUE_OUT_OF_RANGE, None)))
            else
              // `rows[0]` of `RETURNING *` is the fetched row, updated
              // (see ReturnedRowIsFirstUpdated).
              VoteUpdate(db.(articles := Bump(db.articles, id, inc)),
                         Ok(Some(article.(votes := article.votes + inc))))
  }
}
