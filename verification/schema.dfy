/** The relational store, reduced to its contents: the rows of the `topics`,
    `articles` and `comments` tables, in table order. Timestamps are integers. */
module Schema {

  /** PostgreSQL's INTEGER (int4) type, the type of every id and vote column. */
  const INT4_MIN: int := -0x8000_0000
  const INT4_MAX: int := 0x7FFF_FFFF

  predicate InInt4(n: int)
  {
    INT4_MIN <= n <= INT4_MAX
  }

  /** A row of `topics`; `slug` is its primary key. */
  datatype Topic = Topic(slug: string, description: string)

  /** A row of `articles`; `articleId` is its primary key. */
  datatype Article = Article(
    articleId: int,
    author: string,
    title: string,
    body: string,
    topic: string,
    createdAt: int,
    votes: int,
    articleImgUrl: string)

  /** A row of `comments`; `articleId` references `articles`. */
  datatype Comment = Comment(
    commentId: int,
    articleId: int,
    author: string,
    body: string,
    createdAt: int,
    votes: int)

  datatype Db = Db(topics: seq<Topic>, articles: seq<Article>, comments: seq<Comment>)

  /** The primary-key constraint of `articles`. */
  predicate UniqueArticleIds(articles: seq<Article>)
  {
    forall i, j :: 0 <= i < j < |articles| ==> articles[i].articleId != articles[j].articleId
  }

  /** No article has a negative vote count. */
  predicate VotesNonNegative(articles: seq<Article>)
  {
    forall i :: 0 <= i < |articles| ==> articles[i].votes >= 0
  }

  /** Every vote count fits the INTEGER column that stores it. */
  predicate VotesInInt4(articles: seq<Article>)
  {
    forall i :: 0 <= i < |articles| ==> InInt4(articles[i].votes)
  }
}
