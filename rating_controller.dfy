/**
 * The rating endpoints (backend-app/src/controllers/ratingController.ts): the guard chain of
 * `rateContent` choosing 401, 400, 200 or 500, and the two listing handlers. The handlers are
 * functions of the request and of the rating collection; a failure of the database is a
 * parameter (`dbError`), since the model has no database to fail.
 */
module RatingController {
  import opened Wrappers
  import opened JsValue
  import opened RatingService

  datatype Body =
    | Message(message: string)
    | RatedBody(message: string, rating: Rating)
    | List(ratings: seq<Rating>)

  datatype Response = Response(status: nat, body: Body)

  const NotAuthenticated: string := "User not authenticated"
  const BadRating: string := "Rating must be a number between 1 and 5"
  const RatedOk: string := "Content rated successfully"

  /** `!userId`: the authenticated user's id is absent or empty. */
  predicate NoUser(userId: Option<string>) {
    userId.None? || userId.value == ""
  }

  /** `!rating || typeof rating !== "number" || rating < 1 || rating > 5` */
  predicate RatingRejected(rating: Value) {
    !Truthy(rating) || !rating.Num? || rating.n < 1.0 || rating.n > 5.0
  }

  /** `rateContent`: the response, and the rating collection after the request. */
  function RateContent(userId: Option<string>, contentId: string, rating: Value,
                       ratings: seq<Rating>, dbError: Option<string>): (out: (Response, seq<Rating>))
    ensures out.0.status in {200, 400, 401, 500}
    ensures out.0.status != 200 ==> out.1 == ratings
  {
    if NoUser(userId) then (Response(401, Message(NotAuthenticated)), ratings)
    else if RatingRejected(rating) then (Response(400, Message(BadRating)), ratings)
    else match dbError
      case Some(e) => (Response(500, Message(e)), ratings)
      case None =>
        (Response(200, RatedBody(RatedOk, Rating(userId.value, contentId, rating.n))),
         Rated(ratings, userId.value, contentId, rating.n))
  }

  /** `getRatingsByContent`: 200 with the list, or 500 with the error's message. */
  function RatingsByContent(contentId: string, ratings: seq<Rating>, dbError: Option<string>): (resp: Response)
    ensures dbError.None? ==> (resp.status == 200 && resp.body.List?
      && (forall r :: r in resp.body.ratings <==> r in ratings && r.content == contentId))
    ensures dbError.Some? ==> resp == Response(500, Message(dbError.value))
  {
    match dbError
    case Some(e) => Response(500, Message(e))
    case None => Response(200, List(ByContent(ratings, contentId)))
  }

  /** `getRatingsByUser`: 200 with the list, or 500 with the error's message. */
  function RatingsByUser(userId: string, ratings: seq<Rating>, dbError: Option<string>): (resp: Response)
    ensures dbError.None? ==> (resp.status == 200 && resp.body.List?
      && (forall r :: r in resp.body.ratings <==> r in ratings && r.user == userId))
    ensures dbError.Some? ==> resp == Response(500, Message(dbError.value))
  {
    match dbError
    case Some(e) => Response(500, Message(e))
    case None => Response(200, List(ByUser(ratings, userId)))
  }

  /** The guard lets through exactly the numbers from 1 to 5, fractions included. */
  lemma GuardAcceptsExactlyRange(rating: Value)
    ensures !RatingRejected(rating) <==> rating.Num? && InRange(rating.n)
  {
  }

  /** Without a user id the answer is 401 and nothing is rated, whatever the rating. */
  lemma NoUserIs401(userId: Option<string>, contentId: string, rating: Value,
                    ratings: seq<Rating>, dbError: Option<string>)
    requires NoUser(userId)
    ensures RateContent(userId, contentId, rating, ratings, dbError)
      == (Response(401, Message(NotAuthenticated)), ratings)
  {
  }

  /** With a user, the answer is 400 exactly when the rating is not a number in [1, 5]. */
  lemma BadRatingIs400(userId: Option<string>, contentId: string, rating: Value,
                       ratings: seq<Rating>, dbError: Option<string>)
    requires !NoUser(userId)
    ensures RateContent(userId, contentId, rating, ratings, dbError).0.status == 400
      <==> !(rating.Num? && InRange(rating.n))
    ensures !(rating.Num? && InRange(rating.n)) ==>
      RateContent(userId, contentId, rating, ratings, dbError).0.body == Message(BadRating)
  {
    GuardAcceptsExactlyRange(rating);
  }

  /** An accepted rating is stored through the service and echoed back with 200. */
  lemma AcceptedIsRated(userId: Option<string>, contentId: string, rating: Value, ratings: seq<Rating>)
    requires !NoUser(userId) && rating.Num? && InRange(rating.n)
    ensures RateContent(userId, contentId, rating, ratings, None).0
      == Response(200, RatedBody(RatedOk, Rating(userId.value, contentId, rating.n)))
    ensures RateContent(userId, contentId, rating, ratings, None).1
      == Rated(ratings, userId.value, contentId, rating.n)
    ensures Rating(userId.value, contentId, rating.n) in RateContent(userId, contentId, rating, ratings, None).1
  {
    GuardAcceptsExactlyRange(rating);
    RatedHoldsValue(ratings, userId.value, contentId, rating.n);
  }

  /** A rating of 2.5 passes the guard: the check is on the range, not on whole numbers. */
  lemma HalfStarAccepted(userId: Option<string>, contentId: string, ratings: seq<Rating>)
    requires !NoUser(userId)
    ensures RateContent(userId, contentId, Num(2.5), ratings, None).0.status == 200
  {
  }

  /** A database failure after the guards answers 500 with its message. */
  lemma ServiceErrorIs500(userId: Option<string>, contentId: string, rating: Value,
                          ratings: seq<Rating>, e: string)
    requires !NoUser(userId) && rating.Num? && InRange(rating.n)
    ensures RateContent(userId, contentId, rating, ratings, Some(e)) == (Response(500, Message(e)), ratings)
  {
    GuardAcceptsExactlyRange(rating);
  }
}
