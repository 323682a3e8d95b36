# NC News API core, modelled in Dafny

This project models the decision logic of a small news API that serves
articles, comments and topics out of a PostgreSQL database. The database is
reduced to its contents: a `Db` holding the rows of the `topics`, `articles`
and `comments` tables as sequences, in table order. SQL is given its meaning
rather than its text:

- WHERE is a filter (`Seqs.Filter`);
- `LEFT JOIN comments ... COUNT(comment_id) ... GROUP BY article_id` is a count per article (`Comments.CommentCount`);
- ORDER BY is a sortedness predicate (`Ordering.Sorted`), and the model orders rows with an insertion sort proved to return a sorted permutation (`Ordering.Sort`);
- `LIMIT 1` and `rows[0]` mean the first matching row in table order.

Every model operation returns a `Result`: a value or the failure value the
JavaScript promise would be rejected with. A failure (`Failures.Err`) is
either a rejection the models build, `{status, msg}`, or an error raised by
PostgreSQL, `{code, constraint}`. Id parameters (`IdArg`) are absent,
malformed text, or an integer. PostgreSQL rejects malformed text with
SQLSTATE 22P02 and an integer outside the INTEGER (int4) range with 22003.

The modules are:

- `Articles` (models/articles_model.js) covers three operations.
  - `fetchArticles`: the allow-list checks on `sort_by` and `order`, their defaults and precedence, the optional topic filter, the comment counts, the ordering, and the follow-up topic lookup that tells "unknown topic" from "topic without articles".
  - `fetchArticleById`.
  - `updatedArticleVotes`: the guarded vote increment, returning the new store and the outcome.
- `Topics` (models/topics_model.js): `fetchTopics` and `fetchTopicBySlug`.
- `Comments` (models/comments_model.js): `fetchCommentsByArticle` and the per-article comment count.
- `ErrorHandling` (controllers/errorHandlingControllers.js): the 404 responder for unmatched paths, the classifier `handleCustomErrors` and the 500 responder. The classifier is a pure function from a failure to one of three outcomes: a response is sent, the request is left unanswered, or the failure goes to `next`.
- `ArticleProperties`, `CommentProperties` and `Responses` hold lemmas that relate several calls. `Responses` shows what the classifier does with each failure the models can produce.
- `Results`, `Seqs`, `Ordering`, `Schema` and `Failures` are supporting definitions.

Behaviour of the code that a reader of the API might not expect, modelled
as the code has it:

- `fetchArticleById` returns the stored row (`SELECT *`), without a `comment_count`.
- `fetchCommentsByArticle` does not check that the article exists. An empty result is rejected with 404 "no comments found" rather than returned as an empty list.
- The unknown-topic message is "topic with this slug does not exist". Several messages carry a "Bad request: " prefix.
- The route handler for the listing calls `fetchArticles()` with no arguments. The model describes `fetchArticles` itself, with all three parameters.

Further behaviour of the code as written, also modelled as it stands:

- A foreign-key violation (23503) on a constraint other than the two named ones gets no response and is not passed on (`Unanswered`), because the `switch` has no default.
- An undefined article id drops the WHERE clause from the lookup, so the first article is found. The following `UPDATE ... WHERE article_id = NULL` then matches no row, and the update settles with `rows[0]` undefined (`Ok(None)`) and an unchanged store.
- An `inc_votes` of 10^21 or more passes both checks, but JavaScript writes it as text in exponent notation ("1e+21"). PostgreSQL rejects that text as an INTEGER with 22P02, so it is answered 400 "Invalid article id". Smaller increments outside the INTEGER range are rejected with 22003 and passed on to `next`.
- The vote check looks only at the fetched row, so vote counts stay non-negative only because article ids are unique (`ArticleProperties.VotesStayNonNegative` assumes the primary key).

## Model

| member | source | states |
|---|---|---|
| Articles.ParseColumn | models/articles_model.js:20-34 | a `sort_by` value is accepted exactly when it is on the seven-column allow-list, and it then names that column |
| Articles.ParseDirection | models/articles_model.js:38-43 | an `order` value is accepted exactly when it is `asc` or `desc`, and it then names that direction |
| Articles.ValidateListingQuery | models/articles_model.js:19-43 | a truthy `sort_by` outside the allow-list gives 400 "Invalid sort_by query" whatever `order` is; otherwise a truthy `order` other than asc/desc gives 400 "Invalid order query"; falsy values default to `created_at` and `desc`; it succeeds exactly when both are falsy or allowed |
| Articles.FetchArticles | models/articles_model.js:5-61 | a query rejected by validation yields that rejection; a success is a permutation of the matching articles' rows, sorted by the chosen column and direction; a truthy topic never succeeds with an empty list; with no matching article and a truthy topic, the error is 404 "no articles for this topic found" if some topic has that slug and 404 "topic with this slug does not exist" otherwise; with a falsy topic it always succeeds |
| ArticleProperties.ListingMembership | models/articles_model.js:7-18 | a row is in the listing exactly when it is the row of an article in the store whose topic matches, or of any article when no topic is given |
| ArticleProperties.ListingCommentCounts | models/articles_model.js:7-12 | each listed `comment_count` equals the number of comments with that `article_id`, and is 0 exactly when there are none |
| ArticleProperties.DefaultListingOrder | models/articles_model.js:19-46 | with `sort_by` and `order` absent or empty, the listing is in non-increasing `created_at` order and succeeds unless the topic is truthy |
| ArticleProperties.ValidationPrecedesStoreAccess | models/articles_model.js:20-48 | a rejected query gets the same answer whatever the store and topic, so the store plays no part in it |
| ArticleProperties.EmptyListingWithoutTopic | models/articles_model.js:49-60 | with an undefined or empty-string topic and no matching article, the listing is an empty success |
| Comments.CommentCount | models/articles_model.js:8-12 | the count is 0 exactly when no comment has that article id, and never exceeds the number of comments |
| Comments.CommentCountIsCandidates | models/articles_model.js:11-12 | the count equals the number of comments whose `article_id` matches |
| Articles.FetchArticleById | models/articles_model.js:64-80 | a malformed or out-of-range id yields the database error; for a valid integer id it succeeds exactly when some article has that id, returning a stored article with that id; otherwise 404 "article with this id does not exist"; an undefined id succeeds exactly when the table is non-empty, with its first article |
| Articles.UpdatedArticleVotes | models/articles_model.js:83-109 | a non-numeric `inc_votes` gives 400 before any lookup; a lookup rejection propagates; `inc_votes + votes < 0` gives 404 "article.votes can not be a negative number"; once those checks pass: an increment of 10^21 or more is rejected with 22P02, any other increment outside the INTEGER range with 22003; for an integer id the update succeeds exactly when every new vote count of that id fits an INTEGER (22003 otherwise); for an undefined id it settles with no row; every rejection leaves the store unchanged; success returns the fetched article with `votes + inc_votes`, a count within the INTEGER range, the table with exactly that id's rows incremented, and topics and comments unchanged |
| ArticleProperties.VotesStayNonNegative | models/articles_model.js:90-96 | with unique ids and no negative vote count before, no vote count is negative after any update |
| ArticleProperties.VoteRoundTrip | models/articles_model.js:97-108 | adding `k` votes and then `-k` votes succeeds, restores the store exactly and returns the original article |
| ArticleProperties.ReturnedRowIsFirstUpdated | models/articles_model.js:97-108 | the returned article is the first row of the updated table with that id (`rows[0]` of `RETURNING *`) |
| Articles.Bump | models/articles_model.js:100-102 | the UPDATE changes the votes of exactly the rows with the id and leaves every other row as it was |
| Topics.FetchTopics | models/topics_model.js:3-7 | every topic is returned unchanged and in order, and an empty table gives an empty success |
| Topics.FetchTopicBySlug | models/topics_model.js:9-21 | succeeds exactly when some topic has the slug, returning the first such topic; otherwise 404 "topic with this slug does not exist" |
| Comments.Candidates | models/comments_model.js:4-10 | with no article id every comment is a candidate; with one, exactly the comments of that article are, with their multiplicities |
| Comments.FetchCommentsByArticle | models/comments_model.js:3-26 | a malformed or out-of-range id yields the database error; otherwise a success is a non-empty permutation of the candidates ordered newest first, and the result is 404 "no comments found" exactly when there are no candidates |
| CommentProperties.CommentsListingMembers | models/comments_model.js:7-10 | for an article id, a comment is listed exactly when it is in the store with that `article_id` |
| CommentProperties.UndefinedIdListsAll | models/comments_model.js:4-7 | with no article id the listing is every comment, and it fails only on an empty table |
| CommentProperties.CommentCountAgreesWithListing | models/comments_model.js:15-25 | an article's comments listing fails exactly when its `comment_count` is 0; otherwise it has that many comments |
| Ordering.Sort | models/articles_model.js:45-46 | the result is a permutation of the input, sorted in the given direction by the given key |
| Ordering.LexLeTransitive | models/articles_model.js:45-46 | the text order used for text columns is transitive |
| Ordering.LexLeTotal | models/articles_model.js:45-46 | any two strings are comparable in the text order |
| Ordering.TextOrderIsTotal | models/articles_model.js:45-46 | the text order is a total order: total, antisymmetric and transitive |
| ErrorHandling.HandleBadPath | controllers/errorHandlingControllers.js:1-3 | every unmatched path gets 404 "Path not found" |
| ErrorHandling.HandleCustomErrors | controllers/errorHandlingControllers.js:5-23 | a failure with a truthy status and msg is answered with exactly those; an untyped one is answered only with 400 or 404; an untyped one is answered 400 "Invalid article id" exactly when its code is 22P02; an untyped 23503 on `comments_article_id_fkey` gets 404 "Bad request: this article does not exist", and on `comments_author_fkey` 404 "Bad request: this user does not exist"; it goes to `next`, unchanged, exactly when it is untyped with a code other than 22P02 and 23503; it is left unanswered exactly when it is untyped with code 23503 and an unnamed constraint |
| ErrorHandling.TypedRejectionTakesPrecedence | controllers/errorHandlingControllers.js:6-7 | a typed rejection is answered the same whatever code and constraint it also carries |
| ErrorHandling.ForeignKeyViolations | controllers/errorHandlingControllers.js:10-19 | 23503 on `comments_article_id_fkey` gives 404 "Bad request: this article does not exist", on `comments_author_fkey` 404 "Bad request: this user does not exist", on any other constraint no response |
| ErrorHandling.UntypedDecidedByCode | controllers/errorHandlingControllers.js:8-22 | untyped failures with the same code and constraint are treated alike |
| ErrorHandling.HandleServerError | controllers/errorHandlingControllers.js:25-27 | the fallback always answers 500 "Something has gone wrong on the server" |
| Responses.ListingFailuresAnswered | controllers/errorHandlingControllers.js:6-7 | every listing failure is a typed 400 or 404 rejection and is answered as built |
| Responses.InvalidSortByWins | models/articles_model.js:20-43 | an invalid `sort_by` is answered 400 "Invalid sort_by query" whatever `order` is |
| Responses.ArticleLookupResponses | controllers/errorHandlingControllers.js:8-9 | a failed lookup is answered 400 "Invalid article id" for a malformed id and 404 for an unknown valid id; it is never left unanswered |
| Responses.VoteUpdateResponses | models/articles_model.js:84-96 | every vote-update failure is answered with 400 or 404 (a 22P02 from an exponent-notation increment among them), or escalated as an out-of-range error |
| Responses.CommentListingResponses | models/comments_model.js:15-19 | every comments-listing failure is answered with 400 or 404, or escalated as an out-of-range error |
| Responses.TopicLookupResponses | models/topics_model.js:13-18 | the topic lookup's failure is answered 404 "topic with this slug does not exist" |

## Left out

- The connection pool and `db.query`: the store is an immutable value passed to each operation. SQL strings are replaced by their meaning.
- The Express wiring in app.js and the controllers that only forward to the models (articles_controller.js, comments_controller.js). The endpoint-documentation controller (api_controller.js) is also left out, because it only reads a file.
- `addComments` and `deleteCommentById`: comments_controller.js imports them, but they are not defined in comments_model.js, so this model has nothing to describe. The `users` table is not modelled, since no modelled operation reads it.
- JavaScript `isNaN` coercion: `inc_votes` is an `Option<int>`, with `None` for a value `isNaN` rejects. `null`, which `isNaN` accepts as 0 and the UPDATE would turn into a NULL vote count, is not modelled. Numeric strings, which `isNaN` lets through and the comparison then concatenates ("5" + 3), are not modelled. Neither are non-integer numbers, which PostgreSQL would reject. Increments are exact integers, while a JavaScript number above 2^53 is rounded. This changes none of the outcomes, since every such value is outside the INTEGER range.
- Express's handling of `next(err)`: `handle500Error` takes three parameters, so Express does not call it for errors. The model stops at the `Next` outcome of the classifier and gives the 500 responder separately.
- The loose comparison `err.code == "23503"` is modelled on string codes only. A NaN status, which is falsy, is not modelled. Neither is Express's handling of a status that is not a valid HTTP code.
- Text ordering uses code-point order (the "C" collation), not a locale collation.
- Among rows with equal sort keys, SQL leaves the order unspecified. The contracts state only permutation and non-strict sortedness.
- Timestamps are integers.
- A `SELECT` without ORDER BY returns rows in table order, and `LIMIT 1` returns the first match.
- Concurrency: each operation is one atomic step on the store.
