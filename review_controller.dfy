/** The reviews of backend1/controllers/reviewController.js: a buyer or renter of a delivered
    order reviews a book once, the schema's `post('save')` hook then writes the book's mean
    rating and review count; reviews are listed newest first, and their author may update or
    delete them. */
module ReviewController {
  import opened Common
  import opened Text
  import opened BookSchema
  import opened OrderSchema
  import opened ReviewSchema
  import opened Store

  // ---------------------------------------------------------------- creating a review

  /** The order `createReview` looks for: the user's, delivered, with an item for the book and,
      when an order type is given, an item of that type. The two conditions are on the items
      array as a whole, so they may be met by different items. An absent order type drops its
      condition from the query. */
  predicate QualifyingOrder(o: Order, user: Id, book: Id, orderType: Option<string>)
  {
    && o.user == user && o.status == Delivered
    && (exists i :: 0 <= i < |o.items| && o.items[i].book == book)
    && (orderType.Some? ==> exists i :: 0 <= i < |o.items| && o.items[i].kind == orderType.value)
  }

  /** Some stored order qualifies the user to review the book. */
  predicate MayReview(s: State, user: Id, book: Id, orderType: Option<string>)
  {
    exists k :: k in s.orders && QualifyingOrder(s.orders[k], user, book, orderType)
  }

  /** The book with the aggregation's row written onto it (`book.updateOne`). */
  function WithStats(b: Book, st: Stats): (r: Book)
    ensures r.rating == st.avgRating && r.totalRatings == st.totalRatings
    ensures r.(rating := b.rating, totalRatings := b.totalRatings) == b
  {
    b.(rating := st.avgRating, totalRatings := st.totalRatings)
  }

  /** The `post('save')` hook on the state `t` that already holds the new review: the book is
      looked up first and dereferenced only when the aggregation yields a row, so a missing
      book is a TypeError that fails the request while the review stays stored. */
  function PostSave(t: State, book: Id, saved: Review): (out: (Result<Review>, State))
    ensures out.1.reviews == t.reviews && out.1.nextId == t.nextId
    ensures book !in t.books && BookStats(t.reviews, book).Some? ==>
              out == (Failure(RuntimeError("Cannot read properties of null (reading 'updateOne')")), t)
    ensures BookStats(t.reviews, book).None? ==> out == (Success(saved), t)
    ensures out.0.Success? ==> out.0.value == saved
  {
    var stats := BookStats(t.reviews, book);
    if stats.None? then (Success(saved), t)
    else if book !in t.books then (Failure(RuntimeError("Cannot read properties of null (reading 'updateOne')")), t)
    else (Success(saved), t.(books := t.books[book := WithStats(t.books[book], stats.value)]))
  }

  /** What `createReview` responds and what the database holds afterwards: the order check,
      then `Review.create` (validation, then the unique (user, book) index), then the hook. */
  function CreateReviewSpec(s: State, user: Id, book: Id, input: ReviewInput, now: int): (out: (Result<Review>, State))
    ensures !MayReview(s, user, book, input.orderType) ==>
              out == (Failure(AppError(403, "You can only review books you have purchased or rented")), s)
    ensures MayReview(s, user, book, input.orderType) && CreateReviewDoc(s.nextId, user, book, input, now).Failure? ==>
              out == (CreateReviewDoc(s.nextId, user, book, input, now), s)
    ensures HasPair(s.reviews, user, book) ==> out.0.Failure? && out.1 == s
    ensures out.1 != s ==> && MayReview(s, user, book, input.orderType) && !HasPair(s.reviews, user, book)
                           && CreateReviewDoc(s.nextId, user, book, input, now).Success?
                           && out.1.reviews == s.reviews + [CreateReviewDoc(s.nextId, user, book, input, now).value]
                           && out.1.nextId == s.nextId + 1
    ensures out.0.Success? ==> out.0.value == CreateReviewDoc(s.nextId, user, book, input, now).value && out.1 != s
  {
    if !MayReview(s, user, book, input.orderType) then
      (Failure(AppError(403, "You can only review books you have purchased or rented")), s)
    else
      var made := CreateReviewDoc(s.nextId, user, book, input, now);
      if made.Failure? then (made, s)
      else if HasPair(s.reviews, user, book) then (Failure(DuplicateKey("user_1_book_1")), s)
      else
        var t := s.(reviews := s.reviews + [made.value], nextId := s.nextId + 1);
        assert t.nextId != s.nextId;
        PostSave(t, book, made.value)
  }

  /** Appending to the reviews appends to every book's share of them. */
  lemma ForBookAppend(rs: seq<Review>, r: Review, book: Id)
    ensures ForBook(rs + [r], book) == if r.book == book then ForBook(rs, book) + [r] else ForBook(rs, book)
  {
    assert (rs + [r])[..|rs + [r]| - 1] == rs;
  }

  /** After a successful review the book carries the mean of its reviews' ratings and their
      number, which is one more than before; every other book is as it was. */
  lemma StatsAfterCreate(s: State, user: Id, book: Id, input: ReviewInput, now: int)
    requires CreateReviewSpec(s, user, book, input, now).0.Success?
    ensures var t := CreateReviewSpec(s, user, book, input, now).1;
            && book in s.books && book in t.books
            && t.books[book].totalRatings == |ForBook(t.reviews, book)| == |ForBook(s.reviews, book)| + 1
            && t.books[book].rating == RatingSum(ForBook(t.reviews, book)) as real / |ForBook(t.reviews, book)| as real
            && forall k :: k != book ==> (k in t.books <==> k in s.books) && (k in s.books ==> t.books[k] == s.books[k])
  {
    var r := CreateReviewDoc(s.nextId, user, book, input, now).value;
    var t := CreateReviewSpec(s, user, book, input, now).1;
    ForBookAppend(s.reviews, r, book);
    assert r in ForBook(t.reviews, book);
  }

  /** A review of a book that is no longer stored fails the request, yet the review is kept. */
  lemma MissingBookStillSaves(s: State, user: Id, book: Id, input: ReviewInput, now: int)
    requires book !in s.books && MayReview(s, user, book, input.orderType) && !HasPair(s.reviews, user, book)
    requires CreateReviewDoc(s.nextId, user, book, input, now).Success?
    ensures var out := CreateReviewSpec(s, user, book, input, now);
            && out.0 == Failure(RuntimeError("Cannot read properties of null (reading 'updateOne')"))
            && out.1.reviews == s.reviews + [CreateReviewDoc(s.nextId, user, book, input, now).value]
  {
    var r := CreateReviewDoc(s.nextId, user, book, input, now).value;
    var t := s.(reviews := s.reviews + [r], nextId := s.nextId + 1);
    assert t.reviews[|s.reviews|] == r;
  }

  /** One review per user and book: once a review is stored, a second one for the same pair is
      refused, whatever it says, and changes nothing. */
  lemma SecondReviewRefused(s: State, user: Id, book: Id, first: ReviewInput, second: ReviewInput, now: int, later: int)
    requires CreateReviewSpec(s, user, book, first, now).1 != s
    ensures var t := CreateReviewSpec(s, user, book, first, now).1;
            CreateReviewSpec(t, user, book, second, later).0.Failure? && CreateReviewSpec(t, user, book, second, later).1 == t
  {
    var r := CreateReviewDoc(s.nextId, user, book, first, now).value;
    var t := CreateReviewSpec(s, user, book, first, now).1;
    assert t.reviews[|s.reviews|] == r;
    assert HasPair(t.reviews, user, book);
  }

  /** Writing a book's statistics onto it keeps it valid when the reviews are. */
  lemma WithStatsKeepsValid(s: State, book: Id)
    requires Valid(s) && book in s.books && BookStats(s.reviews, book).Some?
    ensures Valid(s.(books := s.books[book := WithStats(s.books[book], BookStats(s.reviews, book).value)]))
  {
    AverageInRange(s.reviews, book);
    StatsKeepBookValid(s.books[book], BookStats(s.reviews, book).value);
    assert BooksValid(s.books[book := WithStats(s.books[book], BookStats(s.reviews, book).value)]);
  }

  /** An average within [1, 5] is a rating the schema accepts. */
  lemma StatsKeepBookValid(b: Book, st: Stats)
    requires ValidBook(b) && 1.0 <= st.avgRating <= 5.0
    ensures ValidBook(WithStats(b, st)) && WithStats(b, st).id == b.id
  {
  }

  /** Storing a new valid review under the counter, for a pair without one, keeps the invariants. */
  lemma AppendReviewKeepsValid(s: State, r: Review)
    requires Valid(s) && ValidReview(r) && r.id == s.nextId && !HasPair(s.reviews, r.user, r.book)
    ensures Valid(s.(reviews := s.reviews + [r], nextId := s.nextId + 1))
  {
    var t := s.(reviews := s.reviews + [r], nextId := s.nextId + 1);
    AppendKeepsUnique(s.reviews, r);
    assert forall i :: 0 <= i < |s.reviews| ==> t.reviews[i] == s.reviews[i];
    assert ReviewsValid(t.reviews);
    assert IdsBelow(t);
  }

  lemma CreateReviewKeepsValid(s: State, user: Id, book: Id, input: ReviewInput, now: int)
    requires Valid(s)
    ensures Valid(CreateReviewSpec(s, user, book, input, now).1)
  {
    var out := CreateReviewSpec(s, user, book, input, now);
    if out.1 != s {
      var r := CreateReviewDoc(s.nextId, user, book, input, now).value;
      var t := s.(reviews := s.reviews + [r], nextId := s.nextId + 1);
      AppendReviewKeepsValid(s, r);
      if book in t.books && BookStats(t.reviews, book).Some? {
        WithStatsKeepsValid(t, book);
      }
    }
  }

  method CreateReview(db: Db, user: Id, book: Id, input: ReviewInput, now: int) returns (r: Result<Review>)
    modifies db
    ensures (r, db.Snapshot()) == CreateReviewSpec(old(db.Snapshot()), user, book, input, now)
  {
    var s := db.Snapshot();
    if !MayReview(s, user, book, input.orderType) {
      return Failure(AppError(403, "You can only review books you have purchased or rented"));
    }
    r := CreateReviewDoc(s.nextId, user, book, input, now);
    if r.Failure? {
      return;
    }
    if HasPair(s.reviews, user, book) {
      return Failure(DuplicateKey("user_1_book_1"));
    }
    db.reviews := s.reviews + [r.value];
    db.nextId := s.nextId + 1;
    ghost var t := db.Snapshot();
    assert t == s.(reviews := s.reviews + [r.value], nextId := s.nextId + 1);
    var stats := BookStats(db.reviews, book);
    if stats.Some? {
      if book !in db.books {
        return Failure(RuntimeError("Cannot read properties of null (reading 'updateOne')"));
      }
      db.books := db.books[book := WithStats(db.books[book], stats.value)];
    }
    assert (r, db.Snapshot()) == PostSave(t, book, r.value);
  }

  // ---------------------------------------------------------------- listing

  /** `getBookReviews`: the book's reviews, each as often as it is stored, newest first. */
  method GetBookReviews(db: Db, book: Id) returns (rs: seq<Review>)
    ensures NewestFirst(rs)
    ensures multiset(rs) == multiset(ForBook(db.reviews, book))
    ensures forall x :: x in rs <==> x in db.reviews && x.book == book
  {
    rs := BookReviews(db.reviews, book);
  }

  // ---------------------------------------------------------------- updating and deleting

  /** The first stored review with this id written by this user (`{ _id, user }`). */
  function FindReview(rs: seq<Review>, id: Id, user: Id): (r: Option<nat>)
    ensures r.Some? ==> r.value < |rs| && rs[r.value].id == id && rs[r.value].user == user
    ensures r.None? <==> forall j :: 0 <= j < |rs| ==> !(rs[j].id == id && rs[j].user == user)
  {
    if rs == [] then None
    else if rs[0].id == id && rs[0].user == user then Some(0)
    else
      var rest := FindReview(rs[1..], id, user);
      assert forall j :: 1 <= j < |rs| ==> rs[j] == rs[1..][j - 1];
      if rest.None? then None else Some(rest.value + 1)
  }

  /** The update validators (they run first, on the paths the update sets): the rating's
      bounds, and the trimmed text's `required` and `maxlength`. */
  function UpdateErrors(rating: Option<int>, text: Option<string>): (errs: seq<string>)
    ensures errs == [] <==> (rating.Some? ==> RatingOk(rating.value)) && (text.Some? ==> !TextFails(text))
    ensures errs != [] ==> errs[0] == "rating" || errs[0] == "review"
  {
    (if rating.Some? && !RatingOk(rating.value) then ["rating"] else [])
    + (if text.Some? && TextFails(text) then ["review"] else [])
  }

  /** `{ rating, review }` applied to a review: only the paths given are set, the text trimmed. */
  function Patch(r: Review, rating: Option<int>, text: Option<string>): (p: Review)
    ensures p.id == r.id && p.user == r.user && p.book == r.book && p.orderType == r.orderType
    ensures p.createdAt == r.createdAt
    ensures p.rating == (if rating.Some? then rating.value else r.rating)
    ensures p.text == (if text.Some? then Trim(text.value) else r.text)
  {
    r.(rating := if rating.Some? then rating.value else r.rating,
       text := if text.Some? then Trim(text.value) else r.text)
  }

  /** What `updateReview` responds and what the database holds afterwards. The hook is a save
      hook, so an update leaves the book's rating and count as they were. */
  function UpdateReviewSpec(s: State, id: Id, user: Id, rating: Option<int>, text: Option<string>): (out: (Result<Review>, State))
    ensures UpdateErrors(rating, text) != [] ==> out == (Failure(SchemaError(UpdateErrors(rating, text))), s)
    ensures UpdateErrors(rating, text) == [] && FindReview(s.reviews, id, user).None? ==>
              out == (Failure(AppError(404, "Review not found")), s)
    ensures out.0.Failure? ==> out.1 == s
    ensures out.0.Success? ==> && FindReview(s.reviews, id, user).Some?
                               && var i := FindReview(s.reviews, id, user).value;
                               && out.0.value == Patch(s.reviews[i], rating, text)
                               && out.1 == s.(reviews := s.reviews[i := out.0.value])
  {
    var errs := UpdateErrors(rating, text);
    if errs != [] then (Failure(SchemaError(errs)), s)
    else
      var found := FindReview(s.reviews, id, user);
      if found.None? then (Failure(AppError(404, "Review not found")), s)
      else
        var p := Patch(s.reviews[found.value], rating, text);
        (Success(p), s.(reviews := s.reviews[found.value := p]))
  }

  /** An update touches only the targeted review, and its user and book: no other review, no
      book (the average is not refreshed) and no other collection changes. */
  lemma UpdateOnlyTarget(s: State, id: Id, user: Id, rating: Option<int>, text: Option<string>)
    requires UpdateReviewSpec(s, id, user, rating, text).0.Success?
    ensures var out := UpdateReviewSpec(s, id, user, rating, text);
            && |out.1.reviews| == |s.reviews|
            && (forall j :: 0 <= j < |s.reviews| && s.reviews[j].id != id ==> out.1.reviews[j] == s.reviews[j])
            && out.0.value.id == id && out.0.value.user == user
            && out.1.books == s.books && out.1.orders == s.orders && out.1.carts == s.carts
  {
  }

  /** Updating with valid values keeps the schema's rules and the (user, book) index. */
  lemma UpdateReviewKeepsValid(s: State, id: Id, user: Id, rating: Option<int>, text: Option<string>)
    requires Valid(s)
    ensures Valid(UpdateReviewSpec(s, id, user, rating, text).1)
  {
    var out := UpdateReviewSpec(s, id, user, rating, text);
    if out.0.Success? {
      var i := FindReview(s.reviews, id, user).value;
      var p := out.0.value;
      if text.Some? {
        TrimNonBlank(text.value);
        TrimmedIffFixed(Trim(text.value));
      }
      assert ValidReview(p);
      var t := out.1.reviews;
      assert forall j :: 0 <= j < |t| ==> (t[j].user, t[j].book) == (s.reviews[j].user, s.reviews[j].book);
      assert UniquePairs(t);
      assert ReviewsValid(t);
      assert IdsBelow(out.1);
    }
  }

  method UpdateReview(db: Db, id: Id, user: Id, rating: Option<int>, text: Option<string>) returns (r: Result<Review>)
    modifies db
    ensures (r, db.Snapshot()) == UpdateReviewSpec(old(db.Snapshot()), id, user, rating, text)
  {
    var errs := UpdateErrors(rating, text);
    if errs != [] {
      return Failure(SchemaError(errs));
    }
    var found := FindReview(db.reviews, id, user);
    if found.None? {
      return Failure(AppError(404, "Review not found"));
    }
    var p := Patch(db.reviews[found.value], rating, text);
    db.reviews := db.reviews[found.value := p];
    r := Success(p);
  }

  /** The reviews without the one at index `i`. */
  function RemoveAt(rs: seq<Review>, i: nat): (out: seq<Review>)
    requires i < |rs|
    ensures |out| == |rs| - 1
    ensures multiset(out) + multiset{rs[i]} == multiset(rs)
    ensures forall j :: 0 <= j < i ==> out[j] == rs[j]
    ensures forall j :: i <= j < |out| ==> out[j] == rs[j + 1]
  {
    assert rs == rs[..i] + [rs[i]] + rs[i + 1..];
    rs[..i] + rs[i + 1..]
  }

  /** What `deleteReview` responds (the deleted review; the 204 response carries no body) and
      what the database holds afterwards. The book's average is not refreshed. */
  function DeleteReviewSpec(s: State, id: Id, user: Id): (out: (Result<Review>, State))
    ensures FindReview(s.reviews, id, user).None? <==> out == (Failure(AppError(404, "Review not found")), s)
    ensures out.0.Success? ==> && FindReview(s.reviews, id, user).Some?
                               && out.0.value == s.reviews[FindReview(s.reviews, id, user).value]
                               && out.1 == s.(reviews := RemoveAt(s.reviews, FindReview(s.reviews, id, user).value))
  {
    var found := FindReview(s.reviews, id, user);
    if found.None? then (Failure(AppError(404, "Review not found")), s)
    else (Success(s.reviews[found.value]), s.(reviews := RemoveAt(s.reviews, found.value)))
  }

  /** Removing a review keeps the others valid and their pairs unique, keeps every id below
      `n`, and leaves no other review with the removed one's pair. */
  lemma RemoveAtKeepsReviews(rs: seq<Review>, i: nat, n: nat)
    requires i < |rs| && ReviewsValid(rs)
    requires forall j :: 0 <= j < |rs| ==> rs[j].id < n
    ensures ReviewsValid(RemoveAt(rs, i))
    ensures forall j :: 0 <= j < |RemoveAt(rs, i)| ==> RemoveAt(rs, i)[j].id < n
    ensures !HasPair(RemoveAt(rs, i), rs[i].user, rs[i].book)
  {
    var t := RemoveAt(rs, i);
    assert forall j :: 0 <= j < |t| ==> t[j] == rs[if j < i then j else j + 1];
    forall a, b | 0 <= a < b < |t| ensures (t[a].user, t[a].book) != (t[b].user, t[b].book) {
      assert t[a] == rs[if a < i then a else a + 1];
      assert t[b] == rs[if b < i then b else b + 1];
    }
    forall j | 0 <= j < |t| ensures !(t[j].user == rs[i].user && t[j].book == rs[i].book) {
      assert t[j] == rs[if j < i then j else j + 1];
    }
  }

  /** Deleting keeps the invariants, and frees the pair: the user may review that book again. */
  lemma DeleteReviewKeepsValid(s: State, id: Id, user: Id)
    requires Valid(s)
    ensures Valid(DeleteReviewSpec(s, id, user).1)
    ensures DeleteReviewSpec(s, id, user).0.Success? ==>
              !HasPair(DeleteReviewSpec(s, id, user).1.reviews, user, DeleteReviewSpec(s, id, user).0.value.book)
  {
    var found := FindReview(s.reviews, id, user);
    if found.Some? {
      RemoveAtKeepsReviews(s.reviews, found.value, s.nextId);
      assert IdsBelow(s.(reviews := RemoveAt(s.reviews, found.value)));
    }
  }

  method DeleteReview(db: Db, id: Id, user: Id) returns (r: Result<Review>)
    modifies db
    ensures (r, db.Snapshot()) == DeleteReviewSpec(old(db.Snapshot()), id, user)
  {
    var found := FindReview(db.reviews, id, user);
    if found.None? {
      return Failure(AppError(404, "Review not found"));
    }
    r := Success(db.reviews[found.value]);
    db.reviews := RemoveAt(db.reviews, found.value);
  }
}
