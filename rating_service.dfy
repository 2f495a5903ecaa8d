/**
 * Ratings (backend-app/src/services/ratingService.ts): one rating per (user, content) pair,
 * upserted by `rateContent`, and the two listing queries. The rating collection is a class
 * holding its records in insertion order; `findOne` is the first record of the pair.
 */
module RatingService {
  import opened Wrappers
  import opened Seqs

  /** A stored rating; ids are strings, the value is a JS number. */
  datatype Rating = Rating(user: string, content: string, rating: real)

  /** The rating schema's `min: 1, max: 5` (backend-app/src/models/ratingModel.ts:14). */
  predicate InRange(value: real) {
    1.0 <= value <= 5.0
  }

  predicate SamePair(r: Rating, user: string, content: string) {
    r.user == user && r.content == content
  }

  /** `Rating.findOne({user, content})`: the position of the first rating of the pair. */
  function FindRating(rs: seq<Rating>, user: string, content: string): (r: Option<nat>)
    ensures r.None? <==> forall i :: 0 <= i < |rs| ==> !SamePair(rs[i], user, content)
    ensures r.Some? ==> (r.value < |rs| && SamePair(rs[r.value], user, content)
      && forall i :: 0 <= i < r.value ==> !SamePair(rs[i], user, content))
  {
    if rs == [] then None
    else if SamePair(rs[0], user, content) then Some(0)
    else match FindRating(rs[1..], user, content)
      case None => None
      case Some(i) => Some(i + 1)
  }

  /** The collection after rating `content` as `user` with `value` (assumed in range). */
  function Rated(rs: seq<Rating>, user: string, content: string, value: real): seq<Rating>
  {
    match FindRating(rs, user, content)
    case Some(i) => rs[i := rs[i].(rating := value)]
    case None => rs + [Rating(user, content, value)]
  }

  /** At most one rating per (user, content) pair. */
  predicate UniquePairs(rs: seq<Rating>) {
    forall i, j :: 0 <= i < j < |rs| ==> !(rs[i].user == rs[j].user && rs[i].content == rs[j].content)
  }

  /** Every stored value passes the schema's `min: 1, max: 5`. */
  predicate AllInRange(rs: seq<Rating>) {
    forall i :: 0 <= i < |rs| ==> InRange(rs[i].rating)
  }

  function RatingsOfPair(rs: seq<Rating>, user: string, content: string): seq<Rating> {
    Filter(rs, (r: Rating) => SamePair(r, user, content))
  }

  /** `Rating.find({content})` */
  function ByContent(rs: seq<Rating>, content: string): (r: seq<Rating>)
    ensures forall x :: x in r <==> x in rs && x.content == content
    ensures IsSubsequence(r, rs)
  {
    FilterIsSubsequence(rs, (x: Rating) => x.content == content);
    Filter(rs, (x: Rating) => x.content == content)
  }

  /** `Rating.find({user})` */
  function ByUser(rs: seq<Rating>, user: string): (r: seq<Rating>)
    ensures forall x :: x in r <==> x in rs && x.user == user
    ensures IsSubsequence(r, rs)
  {
    FilterIsSubsequence(rs, (x: Rating) => x.user == user);
    Filter(rs, (x: Rating) => x.user == user)
  }

  /** The rating collection. */
  class RatingStore {
    var ratings: seq<Rating>

    /** The collection holds one rating per pair, each within the schema's range. */
    ghost predicate Valid()
      reads this
    {
      UniquePairs(ratings) && AllInRange(ratings)
    }

    constructor ()
      ensures Valid() && ratings == []
    {
      ratings := [];
    }

    /**
     * `rateContent`: overwrite the value of the pair's rating, or add one. The save runs
     * the schema's range check; a value out of range is refused and nothing is stored.
     */
    method RateContent(user: string, content: string, value: real) returns (r: Result<Rating, string>)
      requires Valid()
      modifies this
      ensures Valid()
      ensures InRange(value) ==> (r == Success(Rating(user, content, value))
        && ratings == Rated(old(ratings), user, content, value))
      ensures !InRange(value) ==> r.Failure? && ratings == old(ratings)
    {
      if !InRange(value) {
        return Failure("Validation failed: rating out of range");
      }
      RatedKeepsUnique(ratings, user, content, value);
      RatedKeepsRange(ratings, user, content, value);
      var found := FindRating(ratings, user, content);
      match found {
        case Some(i) =>
          ratings := ratings[i := ratings[i].(rating := value)];
          r := Success(ratings[i]);
        case None =>
          var added := Rating(user, content, value);
          ratings := ratings + [added];
          r := Success(added);
      }
    }

    /** `getRatingsByContent` */
    method RatingsByContent(content: string) returns (list: seq<Rating>)
      ensures list == ByContent(ratings, content)
    {
      list := ByContent(ratings, content);
    }

    /** `getRatingsByUser` */
    method RatingsByUser(user: string) returns (list: seq<Rating>)
      ensures list == ByUser(ratings, user)
    {
      list := ByUser(ratings, user);
    }
  }

  /** Rating with an in-range value keeps every stored value in range. */
  lemma RatedKeepsRange(rs: seq<Rating>, user: string, content: string, value: real)
    requires AllInRange(rs) && InRange(value)
    ensures AllInRange(Rated(rs, user, content, value))
  {
  }

  /** A pair already rated: the count stays, only that record's value changes. */
  lemma RatedOverwrites(rs: seq<Rating>, user: string, content: string, value: real, i: nat)
    requires i < |rs| && SamePair(rs[i], user, content) && UniquePairs(rs)
    ensures |Rated(rs, user, content, value)| == |rs|
    ensures Rated(rs, user, content, value)[i] == Rating(user, content, value)
    ensures forall j :: 0 <= j < |rs| && j != i ==> Rated(rs, user, content, value)[j] == rs[j]
  {
    var f := FindRating(rs, user, content);
    assert f == Some(i);
  }

  /** A pair not yet rated: exactly one new rating is appended. */
  lemma RatedAdds(rs: seq<Rating>, user: string, content: string, value: real)
    requires forall i :: 0 <= i < |rs| ==> !SamePair(rs[i], user, content)
    ensures Rated(rs, user, content, value) == rs + [Rating(user, content, value)]
  {
  }

  /** After rating, the collection holds the given value for the pair. */
  lemma RatedHoldsValue(rs: seq<Rating>, user: string, content: string, value: real)
    ensures Rating(user, content, value) in Rated(rs, user, content, value)
  {
    match FindRating(rs, user, content)
    case Some(i) =>
      assert Rated(rs, user, content, value)[i] == Rating(user, content, value);
    case None =>
      assert Rated(rs, user, content, value)[|rs|] == Rating(user, content, value);
  }

  /** Ratings of any other pair are left exactly as they were, in order. */
  lemma {:induction false} RatedLeavesOtherPairs(rs: seq<Rating>, user: string, content: string, value: real, u: string, c: string)
    requires u != user || c != content
    ensures RatingsOfPair(Rated(rs, user, content, value), u, c) == RatingsOfPair(rs, u, c)
  {
    match FindRating(rs, user, content)
    case Some(i) =>
      FilterUpdateOther(rs, i, rs[i].(rating := value), (r: Rating) => SamePair(r, u, c));
    case None =>
      FilterAppendRejected(rs, Rating(user, content, value), (r: Rating) => SamePair(r, u, c));
  }

  lemma {:induction false} FilterUpdateOther<T(!new)>(s: seq<T>, i: nat, x: T, p: T -> bool)
    requires i < |s| && !p(s[i]) && !p(x)
    ensures Filter(s[i := x], p) == Filter(s, p)
  {
    if i == 0 {
      assert s[i := x][1..] == s[1..];
    } else {
      assert s[i := x][1..] == s[1..][i - 1 := x];
      FilterUpdateOther(s[1..], i - 1, x, p);
    }
  }

  lemma {:induction false} FilterAppendRejected<T(!new)>(s: seq<T>, x: T, p: T -> bool)
    requires !p(x)
    ensures Filter(s + [x], p) == Filter(s, p)
  {
    if s == [] {
      assert Filter([x], p) == [] + Filter([x][1..], p);
    } else {
      assert (s + [x])[1..] == s[1..] + [x];
      FilterAppendRejected(s[1..], x, p);
    }
  }

  /** Rating keeps at most one record per pair. */
  lemma RatedKeepsUnique(rs: seq<Rating>, user: string, content: string, value: real)
    requires UniquePairs(rs)
    ensures UniquePairs(Rated(rs, user, content, value))
  {
    var out := Rated(rs, user, content, value);
    match FindRating(rs, user, content)
    case Some(i) =>
      assert forall j :: 0 <= j < |rs| ==> out[j].user == rs[j].user && out[j].content == rs[j].content;
    case None =>
      assert forall j :: 0 <= j < |rs| ==> out[j] == rs[j];
  }

  /** Rating twice with the same value stores the same collection as rating once. */
  lemma RatedIdempotent(rs: seq<Rating>, user: string, content: string, value: real)
    ensures Rated(Rated(rs, user, content, value), user, content, value) == Rated(rs, user, content, value)
  {
    var once := Rated(rs, user, content, value);
    match FindRating(rs, user, content)
    case Some(i) =>
      assert FindRating(once, user, content) == Some(i) by {
        assert forall j :: 0 <= j < i ==> once[j] == rs[j];
      }
      assert once[i := once[i].(rating := value)] == once;
    case None =>
      FindAppended(rs, Rating(user, content, value));
      assert once[|rs| := once[|rs|].(rating := value)] == once;
  }

  lemma {:induction false} FindAppended(rs: seq<Rating>, x: Rating)
    requires forall i :: 0 <= i < |rs| ==> !SamePair(rs[i], x.user, x.content)
    ensures FindRating(rs + [x], x.user, x.content) == Some(|rs|)
  {
    if rs != [] {
      assert (rs + [x])[1..] == rs[1..] + [x];
      FindAppended(rs[1..], x);
    }
  }
}
