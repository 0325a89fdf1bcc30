/** The Review document of backend1/models/Review.js: a rating in [1, 5], a required trimmed
    text of at most 500 characters, the order type it was bought under, creation time
    stamps, a unique (user, book) index, and the `post('save')` aggregation that writes the
    mean rating and the review count onto the book. */
module ReviewSchema {
  import opened Common
  import opened Text

  datatype Review = Review(
    id: Id,
    user: Id,
    book: Id,
    rating: int,
    text: string,
    orderType: string,
    createdAt: int)

  const MaxReviewLength: int := 500

  predicate RatingOk(rating: int) { 1 <= rating <= 5 }

  predicate OrderTypeOk(t: string) { t == "purchase" || t == "rent" }

  /** The schema's rules on a stored review. */
  predicate ValidReview(r: Review)
  {
    && RatingOk(r.rating)
    && r.text != "" && Trimmed(r.text) && |r.text| <= MaxReviewLength
    && OrderTypeOk(r.orderType)
  }

  /** The values handed to `Review.create` (or to an update) from the request body. */
  datatype ReviewInput = ReviewInput(rating: Option<int>, review: Option<string>, orderType: Option<string>)

  /** The `review` path fails when the trimmed text is empty or too long. */
  predicate TextFails(text: Option<string>)
  {
    text.None? || Blank(text.value) || |Trim(text.value)| > MaxReviewLength
  }

  predicate RatingFails(rating: Option<int>)
  {
    rating.None? || !RatingOk(rating.value)
  }

  predicate OrderTypeFails(t: Option<string>)
  {
    t.None? || !OrderTypeOk(t.value)
  }

  /** The failing paths of a new review, in schema order. */
  function ReviewErrors(input: ReviewInput): (errs: seq<string>)
    ensures errs == [] <==> !RatingFails(input.rating) && !TextFails(input.review) && !OrderTypeFails(input.orderType)
  {
    (if RatingFails(input.rating) then ["rating"] else [])
    + (if TextFails(input.review) then ["review"] else [])
    + (if OrderTypeFails(input.orderType) then ["orderType"] else [])
  }

  /** A trimmed text that is not blank and fits is a valid stored text. */
  lemma TrimmedTextValid(text: string)
    requires !Blank(text) && |Trim(text)| <= MaxReviewLength
    ensures Trim(text) != "" && Trim(Trim(text)) == Trim(text) && |Trim(text)| <= MaxReviewLength
  {
    TrimNonBlank(text);
  }

  /** `Review.create`: the `trim` setter, then validation; the document carries exactly the
      user, book, rating, text and order type it was given, stamped with the creation time. */
  function CreateReviewDoc(id: Id, user: Id, book: Id, input: ReviewInput, now: int): (r: Result<Review>)
    ensures r.Success? <==> !RatingFails(input.rating) && !TextFails(input.review) && !OrderTypeFails(input.orderType)
    ensures r.Failure? ==> r.error == SchemaError(ReviewErrors(input)) && r.error.paths != []
    ensures r.Success? ==> ValidReview(r.value)
    ensures r.Success? ==> r.value == Review(id, user, book, input.rating.value, Trim(input.review.value),
                                             input.orderType.value, now)
  {
    var errs := ReviewErrors(input);
    if errs != [] then Failure(SchemaError(errs))
    else
      TrimmedTextValid(input.review.value);
      Success(Review(id, user, book, input.rating.value, Trim(input.review.value), input.orderType.value, now))
  }

  // ---------------------------------------------------------------- aggregation

  /** The reviews of one book, in stored order (`$match: { book }`). */
  function ForBook(rs: seq<Review>, book: Id): (out: seq<Review>)
    ensures forall r :: r in out <==> r in rs && r.book == book
    ensures |out| <= |rs|
  {
    if rs == [] then []
    else
      var init := ForBook(rs[..|rs| - 1], book);
      var last := rs[|rs| - 1];
      assert forall r :: r in rs <==> r in rs[..|rs| - 1] || r == last;
      if last.book == book then init + [last] else init
  }

  /** `$sum: '$rating'` over a sequence of reviews. */
  function RatingSum(rs: seq<Review>): int
  {
    if rs == [] then 0 else RatingSum(rs[..|rs| - 1]) + rs[|rs| - 1].rating
  }

  /** Valid ratings sum to between one and five times their number. */
  lemma {:induction false} RatingSumBounds(rs: seq<Review>)
    requires forall i :: 0 <= i < |rs| ==> RatingOk(rs[i].rating)
    ensures |rs| <= RatingSum(rs) <= 5 * |rs|
  {
    if rs != [] {
      var init := rs[..|rs| - 1];
      assert forall i :: 0 <= i < |init| ==> init[i] == rs[i];
      RatingSumBounds(init);
    }
  }

  /** The `$group` stage's result for one book: its average rating and its review count. */
  datatype Stats = Stats(avgRating: real, totalRatings: nat)

  /** The row the aggregation yields for `book`, if any review matches it. */
  function BookStats(rs: seq<Review>, book: Id): (s: Option<Stats>)
    ensures s.None? <==> forall r :: r in rs ==> r.book != book
    ensures s.Some? ==> s.value.totalRatings == |ForBook(rs, book)| > 0
    ensures s.Some? ==> s.value.avgRating == RatingSum(ForBook(rs, book)) as real / |ForBook(rs, book)| as real
  {
    var mine := ForBook(rs, book);
    if mine == [] then None
    else
      Some(Stats(RatingSum(mine) as real / |mine| as real, |mine|))
  }

  /** A quotient of a sum bounded by one and five times a positive count lies in [1, 5]. */
  lemma QuotientInRange(sum: int, count: int)
    requires count > 0 && count <= sum <= 5 * count
    ensures 1.0 <= sum as real / count as real <= 5.0
  {
    var q, c := sum as real / count as real, count as real;
    assert q * c == sum as real;
    if q > 5.0 {
      assert (q - 5.0) * c > 0.0;
    }
  }

  /** When every review is valid, the average the hook writes is a valid book rating (it lies
      in [1, 5], inside the book schema's [0, 5]). */
  lemma AverageInRange(rs: seq<Review>, book: Id)
    requires forall i :: 0 <= i < |rs| ==> ValidReview(rs[i])
    requires BookStats(rs, book).Some?
    ensures 1.0 <= BookStats(rs, book).value.avgRating <= 5.0
  {
    var mine := ForBook(rs, book);
    assert forall i :: 0 <= i < |mine| ==> mine[i] in rs;
    RatingSumBounds(mine);
    QuotientInRange(RatingSum(mine), |mine|);
  }

  // ---------------------------------------------------------------- newest first

  /** `sort('-createdAt')`. */
  predicate NewestFirst(rs: seq<Review>)
  {
    forall i, j :: 0 <= i < j < |rs| ==> rs[i].createdAt >= rs[j].createdAt
  }

  /** Putting a review in front of reviews none of which is newer keeps the order. */
  lemma PrependNewest(x: Review, rest: seq<Review>)
    requires NewestFirst(rest)
    requires forall y :: y in rest ==> y.createdAt <= x.createdAt
    ensures NewestFirst([x] + rest)
  {
    var out := [x] + rest;
    forall i, j | 0 <= i < j < |out| ensures out[i].createdAt >= out[j].createdAt {
      assert out[j] == rest[j - 1];
      if i > 0 {
        assert out[i] == rest[i - 1];
      } else {
        assert out[j] in rest;
      }
    }
  }

  /** Insert `r` into a newest-first sequence, in front of the first review not newer than it. */
  function Insert(r: Review, rs: seq<Review>): (out: seq<Review>)
    requires NewestFirst(rs)
    ensures NewestFirst(out)
    ensures multiset(out) == multiset(rs) + multiset{r}
  {
    if rs == [] then [r]
    else if rs[0].createdAt <= r.createdAt then
      assert forall y :: y in rs ==> y.createdAt <= rs[0].createdAt;
      PrependNewest(r, rs);
      [r] + rs
    else
      var rest := Insert(r, rs[1..]);
      assert rs == [rs[0]] + rs[1..];
      forall x | x in rest ensures x.createdAt <= rs[0].createdAt {
        assert x in multiset(rest);
        if x != r {
          assert x in multiset(rs[1..]);
        }
      }
      PrependNewest(rs[0], rest);
      [rs[0]] + rest
  }

  /** Sort a sequence of reviews newest first (insertion sort). */
  function SortNewestFirst(rs: seq<Review>): (out: seq<Review>)
    ensures NewestFirst(out)
    ensures multiset(out) == multiset(rs)
  {
    if rs == [] then []
    else
      assert rs == [rs[0]] + rs[1..];
      Insert(rs[0], SortNewestFirst(rs[1..]))
  }

  /** `Review.find({ book }).sort('-createdAt')`: exactly this book's reviews, each as often as
      it is stored, newest first. */
  function BookReviews(rs: seq<Review>, book: Id): (out: seq<Review>)
    ensures NewestFirst(out)
    ensures multiset(out) == multiset(ForBook(rs, book))
    ensures forall r :: r in out <==> r in rs && r.book == book
  {
    var out := SortNewestFirst(ForBook(rs, book));
    assert forall r :: r in out <==> r in multiset(ForBook(rs, book));
    out
  }

  /** The unique index on (user, book). */
  predicate UniquePairs(rs: seq<Review>)
  {
    forall i, j :: 0 <= i < j < |rs| ==> (rs[i].user, rs[i].book) != (rs[j].user, rs[j].book)
  }

  /** Whether a review by `user` for `book` is already stored. */
  predicate HasPair(rs: seq<Review>, user: Id, book: Id)
  {
    exists i :: 0 <= i < |rs| && rs[i].user == user && rs[i].book == book
  }

  /** Appending a review whose pair is new keeps the index unique; this is the only way an
      insert succeeds. */
  lemma AppendKeepsUnique(rs: seq<Review>, r: Review)
    requires UniquePairs(rs) && !HasPair(rs, r.user, r.book)
    ensures UniquePairs(rs + [r])
  {
    var s := rs + [r];
    forall i, j | 0 <= i < j < |s| ensures (s[i].user, s[i].book) != (s[j].user, s[j].book) {
      if j == |rs| {
        assert s[i] == rs[i];
      } else {
        assert s[i] == rs[i] && s[j] == rs[j];
      }
    }
  }
}
