/** The reader side of backend1/controllers/userController.js: signing up, updating one's own
    profile, and rating the seller of a delivered order. */
module UserController {
  import opened Common
  import opened Text
  import opened BookSchema
  import opened OrderSchema
  import opened Store
  import Validators

  // ---------------------------------------------------------------- signup

  /** `m` with `k` set to the string `v` when it is present. */
  function PutIf(m: map<string, JsValue>, k: string, v: Option<string>): (r: map<string, JsValue>)
    ensures v.Some? ==> r == m[k := Str(v.value)]
    ensures v.None? ==> r == m
  {
    if v.Some? then m[k := Str(v.value)] else m
  }

  /** The fields `User.create(req.body)` stores from a signup body (the User schema is not part
      of this model: every present field is kept as given). */
  function SignupFields(u: Validators.UserInput): (f: map<string, JsValue>)
    ensures u.email.Some? ==> "email" in f && f["email"] == Str(u.email.value)
    ensures u.phone.Some? ==> "phone" in f && f["phone"] == Str(u.phone.value)
  {
    var m := PutIf(PutIf(PutIf(PutIf(PutIf(PutIf(map[], "password", u.password), "confirmPassword", u.confirmPassword),
                                     "name", u.name), "address", u.address), "zipcode", u.zipcode), "phone", u.phone);
    PutIf(m, "email", u.email)
  }

  /** Which message the duplicate branch reports for the account the `$or` query found. */
  function DuplicateMessage(existing: Account, email: string): (m: string)
    ensures m == "Email already registered" <==> Holds(existing, "email", Str(email))
  {
    if Holds(existing, "email", Str(email)) then "Email already registered" else "Phone number already registered"
  }

  /** The duplicate check and the insert, once the body has passed validation. */
  function RegisterSpec(s: State, u: Validators.UserInput): (out: (Result<Account>, State))
    requires u.email.Some? && u.phone.Some?
    ensures out.0.Failure? ==> out.1 == s
    ensures out.0.Success? <==> forall j :: 0 <= j < |s.users| ==>
                                  !Holds(s.users[j], "email", Str(u.email.value)) && !Holds(s.users[j], "phone", Str(u.phone.value))
    ensures out.0.Success? ==> && out.0.value == Account(s.nextId, SignupFields(u))
                               && out.1 == s.(users := s.users + [out.0.value], nextId := s.nextId + 1)
  {
    var found := FindEither(s.users, "email", Str(u.email.value), "phone", Str(u.phone.value));
    if found.Some? then (Failure(AppError(400, DuplicateMessage(s.users[found.value], u.email.value))), s)
    else
      var acc := Account(s.nextId, SignupFields(u));
      (Success(acc), s.(users := s.users + [acc], nextId := s.nextId + 1))
  }

  /** What `signup` responds and what the database holds afterwards. */
  function SignupSpec(s: State, u: Validators.UserInput, phonePattern: string -> bool): (out: (Result<Account>, State))
    ensures !Validators.UserValidation(u, phonePattern).isValid ==>
              out == (Failure(AppError(400, Join(Validators.UserValidation(u, phonePattern).errors, ", "))), s)
    ensures out.0.Failure? ==> out.1 == s
    ensures out.0.Success? ==> && Validators.UserValidation(u, phonePattern).isValid
                               && u.email.Some? && u.phone.Some?
                               && (forall j :: 0 <= j < |s.users| ==>
                                     !Holds(s.users[j], "email", Str(u.email.value)) && !Holds(s.users[j], "phone", Str(u.phone.value)))
                               && out.0.value == Account(s.nextId, SignupFields(u))
                               && out.1 == s.(users := s.users + [out.0.value], nextId := s.nextId + 1)
  {
    var v := Validators.UserValidation(u, phonePattern);
    if !v.isValid then (Failure(AppError(400, Join(v.errors, ", "))), s)
    else
      PresentWhenValid(u, phonePattern);
      RegisterSpec(s, u)
  }

  /** A body that passes validation carries every required field. */
  lemma PresentWhenValid(u: Validators.UserInput, phonePattern: string -> bool)
    requires Validators.UserValidation(u, phonePattern).isValid
    ensures Validators.UserPresent(u)
  {
    if !Validators.UserPresent(u) {
      Validators.UserMissingOnlyRequired(u, phonePattern);
    }
  }

  /** Signup never registers an email or a phone number twice. */
  lemma SignupKeepsUnique(s: State, u: Validators.UserInput, phonePattern: string -> bool)
    requires UniqueField(s.users, "email") && UniqueField(s.users, "phone")
    ensures UniqueField(SignupSpec(s, u, phonePattern).1.users, "email")
    ensures UniqueField(SignupSpec(s, u, phonePattern).1.users, "phone")
  {
    var out := SignupSpec(s, u, phonePattern);
    if out.0.Success? {
      AppendKeepsUniqueField(s.users, out.0.value, "email");
      AppendKeepsUniqueField(s.users, out.0.value, "phone");
    }
  }

  /** The duplicate branch reports the email when the account found has it, and the phone
      number only when the account found has that instead. */
  lemma DuplicateReportsWhatMatched(s: State, u: Validators.UserInput, phonePattern: string -> bool)
    requires Validators.UserValidation(u, phonePattern).isValid
    requires SignupSpec(s, u, phonePattern).0 == Failure(AppError(400, "Phone number already registered"))
    ensures u.email.Some? && u.phone.Some?
    ensures exists j :: 0 <= j < |s.users| && Holds(s.users[j], "phone", Str(u.phone.value))
                                         && !Holds(s.users[j], "email", Str(u.email.value))
  {
    PresentWhenValid(u, phonePattern);
    assert SignupSpec(s, u, phonePattern) == RegisterSpec(s, u);
    var k := FindEither(s.users, "email", Str(u.email.value), "phone", Str(u.phone.value)).value;
    assert Holds(s.users[k], "phone", Str(u.phone.value));
  }

  method Signup(db: Db, u: Validators.UserInput, phonePattern: string -> bool) returns (r: Result<Account>)
    modifies db
    ensures (r, db.Snapshot()) == SignupSpec(old(db.Snapshot()), u, phonePattern)
  {
    var v := Validators.ValidateUserInput(u, phonePattern);
    if !v.isValid {
      return Failure(AppError(400, Join(v.errors, ", ")));
    }
    PresentWhenValid(u, phonePattern);
    r := Register(db, u);
  }

  method Register(db: Db, u: Validators.UserInput) returns (r: Result<Account>)
    requires u.email.Some? && u.phone.Some?
    modifies db
    ensures (r, db.Snapshot()) == RegisterSpec(old(db.Snapshot()), u)
  {
    var found := FindEither(db.users, "email", Str(u.email.value), "phone", Str(u.phone.value));
    if found.Some? {
      return Failure(AppError(400, DuplicateMessage(db.users[found.value], u.email.value)));
    }
    var acc := Account(db.nextId, SignupFields(u));
    db.users := db.users + [acc];
    db.nextId := db.nextId + 1;
    r := Success(acc);
  }

  // ---------------------------------------------------------------- profile

  const UserRestricted: set<string> := {"password", "role", "email"}

  /** A top-level value of a request body: a primitive, or an object such as the operand of an
      update operator. The members of an object are primitives. */
  datatype BodyValue = Plain(value: JsValue) | Object(members: map<string, JsValue>)

  /** `Object.keys(req.body).some(update => restrictedFields.includes(update))`. */
  predicate Restricted<V>(body: map<string, V>, restricted: set<string>)
  {
    exists k :: k in body && k in restricted
  }

  /** Mongoose reads a top-level key of an update that starts with `$` as an operator. */
  predicate IsOperator(k: string)
  {
    |k| > 0 && k[0] == '$'
  }

  /** The fields the `$set` operator names, when its operand is an object. */
  function SetOperand(body: map<string, BodyValue>): map<string, JsValue>
  {
    if "$set" in body && body["$set"].Object? then body["$set"].members else map[]
  }

  /** The top-level keys that are not operators, with primitive values. */
  function PlainUpdates(body: map<string, BodyValue>): (r: map<string, JsValue>)
    ensures forall k :: k in r <==> k in body && !IsOperator(k) && body[k].Plain?
    ensures forall k :: k in r ==> r[k] == body[k].value
  {
    map k | k in body && !IsOperator(k) && body[k].Plain? :: body[k].value
  }

  /** The fields `findByIdAndUpdate(id, req.body)` writes: Mongoose moves the plain keys into
      `$set`, where they win over an entry of the same name. */
  function CastUpdate(body: map<string, BodyValue>): (r: map<string, JsValue>)
    ensures forall k :: k in r <==> k in PlainUpdates(body) || k in SetOperand(body)
    ensures forall k :: k in PlainUpdates(body) ==> r[k] == body[k].value
    ensures forall k :: k in SetOperand(body) && k !in PlainUpdates(body) ==> r[k] == SetOperand(body)[k]
  {
    SetOperand(body) + PlainUpdates(body)
  }

  /** The account as returned with `select('-password')`. */
  function WithoutPassword(a: Account): (r: Account)
    ensures r.id == a.id && "password" !in r.fields
    ensures forall k :: k != "password" ==> (k in r.fields <==> k in a.fields)
    ensures forall k :: k in r.fields ==> r.fields[k] == a.fields[k]
  {
    a.(fields := a.fields - {"password"})
  }

  /** What the reader's `updateProfile` responds and what the database holds afterwards: the
      restricted keys are looked for among the top-level keys of the body only. */
  function UpdateProfileSpec(s: State, me: Id, body: map<string, BodyValue>): (out: (Result<Account>, State))
    ensures Restricted(body, UserRestricted) ==> out == (Failure(AppError(400, "Cannot update restricted fields")), s)
    ensures !Restricted(body, UserRestricted) && AccountIndex(s.users, me).None? ==>
              out == (Failure(AppError(404, "User not found")), s)
    ensures out.0.Failure? ==> out.1 == s
    ensures out.0.Success? ==> && !Restricted(body, UserRestricted)
                               && AccountIndex(s.users, me).Some?
                               && var k := AccountIndex(s.users, me).value;
                               && var updated := s.users[k].(fields := s.users[k].fields + CastUpdate(body));
                               && out.1 == s.(users := s.users[k := updated])
                               && out.0.value == WithoutPassword(updated)
  {
    if Restricted(body, UserRestricted) then (Failure(AppError(400, "Cannot update restricted fields")), s)
    else
      var found := AccountIndex(s.users, me);
      if found.None? then (Failure(AppError(404, "User not found")), s)
      else
        var k := found.value;
        var updated := s.users[k].(fields := s.users[k].fields + CastUpdate(body));
        (Success(WithoutPassword(updated)), s.(users := s.users[k := updated]))
  }

  /** What a successful profile update does to a restricted field: `$set` writes it, and
      otherwise it is left as it was; every other account is left as it was. */
  lemma ProfileRestrictedFields(s: State, me: Id, body: map<string, BodyValue>, key: string)
    requires key in UserRestricted
    requires UpdateProfileSpec(s, me, body).0.Success?
    ensures var k := AccountIndex(s.users, me).value;
            var t := UpdateProfileSpec(s, me, body).1;
            && |t.users| == |s.users|
            && (key in SetOperand(body) ==> key in t.users[k].fields && t.users[k].fields[key] == SetOperand(body)[key])
            && (key !in SetOperand(body) ==> (key in t.users[k].fields <==> key in s.users[k].fields))
            && (key !in SetOperand(body) && key in s.users[k].fields ==> t.users[k].fields[key] == s.users[k].fields[key])
            && (forall j :: 0 <= j < |s.users| && j != k ==> t.users[j] == s.users[j])
  {
    assert key !in body;
    assert key !in PlainUpdates(body);
  }

  /** One reader, with the role "reader". */
  function Reader(): Account
  {
    Account(7, map["role" := Str("reader")])
  }

  /** A body that names the role only inside `$set`. */
  function RoleThroughSet(): map<string, BodyValue>
  {
    map["$set" := Object(map["role" := Str("admin")])]
  }

  /** The check as written lets `{"$set": {"role": "admin"}}` through, and the reader's role
      becomes "admin". */
  lemma SetBypassesRestriction()
    ensures !Restricted(RoleThroughSet(), UserRestricted)
    ensures var out := UpdateProfileSpec(State(map[], map[], map[], [], [Reader()], [], 8), 7, RoleThroughSet());
            out.0.Success? && Holds(out.1.users[0], "role", Str("admin"))
  {
    var body := RoleThroughSet();
    assert "role" in SetOperand(body);
    assert forall k :: k in body ==> k == "$set";
    assert "$set" !in UserRestricted;
  }

  /** The check the source means: no restricted field among the top-level keys of the body nor
      among the fields the update writes. */
  function CorrectedUpdateProfileSpec(s: State, me: Id, body: map<string, BodyValue>): (out: (Result<Account>, State))
    ensures Restricted(body, UserRestricted) || Restricted(CastUpdate(body), UserRestricted) ==>
              out == (Failure(AppError(400, "Cannot update restricted fields")), s)
    ensures !Restricted(body, UserRestricted) && !Restricted(CastUpdate(body), UserRestricted) ==>
              out == UpdateProfileSpec(s, me, body)
  {
    if Restricted(body, UserRestricted) || Restricted(CastUpdate(body), UserRestricted) then
      (Failure(AppError(400, "Cannot update restricted fields")), s)
    else UpdateProfileSpec(s, me, body)
  }

  /** With the corrected check, a profile update never touches the password, role or email, nor
      any other account. */
  lemma CorrectedKeepsRestricted(s: State, me: Id, body: map<string, BodyValue>, key: string)
    requires key in UserRestricted
    requires CorrectedUpdateProfileSpec(s, me, body).0.Success?
    ensures var k := AccountIndex(s.users, me).value;
            var t := CorrectedUpdateProfileSpec(s, me, body).1;
            && |t.users| == |s.users|
            && (key in t.users[k].fields <==> key in s.users[k].fields)
            && (key in s.users[k].fields ==> t.users[k].fields[key] == s.users[k].fields[key])
            && (forall j :: 0 <= j < |s.users| && j != k ==> t.users[j] == s.users[j])
  {
    assert key !in CastUpdate(body);
    ProfileRestrictedFields(s, me, body, key);
  }

  method UpdateProfile(db: Db, me: Id, body: map<string, BodyValue>) returns (r: Result<Account>)
    modifies db
    ensures (r, db.Snapshot()) == UpdateProfileSpec(old(db.Snapshot()), me, body)
  {
    if Restricted(body, UserRestricted) {
      return Failure(AppError(400, "Cannot update restricted fields"));
    }
    var found := AccountIndex(db.users, me);
    if found.None? {
      return Failure(AppError(404, "User not found"));
    }
    var k := found.value;
    var updated := db.users[k].(fields := db.users[k].fields + CastUpdate(body));
    db.users := db.users[k := updated];
    r := Success(WithoutPassword(updated));
  }

  // ---------------------------------------------------------------- seller rating

  /** `Math.round`: the nearest integer, halves rounded up. */
  function Round(x: real): (r: int)
    ensures r as real - 0.5 <= x < r as real + 0.5
  {
    (x + 0.5).Floor
  }

  /** The integer running average: the old score weighted by the old count, plus the new rating. */
  function NewScore(score: int, count: nat, rating: int): (r: int)
    ensures var mean := (score * count + rating) as real / (count + 1) as real;
            r as real - 0.5 <= mean < r as real + 0.5
  {
    Round((score * count + rating) as real / (count + 1) as real)
  }

  /** A quotient of a number in [0, 100 d] by a positive d lies in [0, 100]. */
  lemma QuotientBounds(n: int, d: int)
    requires d > 0 && 0 <= n <= 100 * d
    ensures 0.0 <= n as real / d as real <= 100.0
  {
    var q := n as real / d as real;
    assert q * d as real == n as real;
    if q > 100.0 {
      assert (q - 100.0) * d as real > 0.0;
    }
  }

  /** A score and a rating within [0, 100] give a score within [0, 100]. */
  lemma ScoreInRange(score: int, count: nat, rating: int)
    requires 0 <= score <= 100 && 0 <= rating <= 100
    ensures 0 <= NewScore(score, count, rating) <= 100
  {
    assert 0 <= score * count <= 100 * count by {
      MulBounds(score, count);
    }
    QuotientBounds(score * count + rating, count + 1);
  }

  lemma MulBounds(a: int, b: nat)
    requires 0 <= a <= 100
    ensures 0 <= a * b <= 100 * b
  {
  }

  /** Rating a seller with the score they already have leaves the score as it is. */
  lemma SameRatingKeepsScore(score: int, count: nat)
    ensures NewScore(score, count, score) == score
  {
    var n, d := score * count + score, count + 1;
    assert n == score * d;
    assert n as real / d as real == score as real;
  }

  /** `seller.readersScore || 0`: a stored number, else 0. */
  function StoredScore(a: Account): int
  {
    if "readersScore" in a.fields && a.fields["readersScore"].Num? then a.fields["readersScore"].n else 0
  }

  /** `seller.totalRatings || 0`: a stored count, else 0. */
  function StoredCount(a: Account): nat
  {
    if "totalRatings" in a.fields && a.fields["totalRatings"].Num? && a.fields["totalRatings"].n >= 0
    then a.fields["totalRatings"].n else 0
  }

  /** The order `findOne({ _id, user, status: 'delivered', hasRated: false })` finds. */
  predicate RatableOrder(s: State, me: Id, orderId: Id)
  {
    orderId in s.orders && s.orders[orderId].user == me && s.orders[orderId].status == Delivered
    && !s.orders[orderId].hasRated
  }

  /** Some line of the order is a book the seller uploaded. */
  predicate SoldBy(s: State, o: Order, seller: Id)
  {
    exists i :: 0 <= i < |o.items| && o.items[i].book in s.books && s.books[o.items[i].book].uploader == seller
  }

  /** The checks `rateUser` makes before writing: the index of the seller's account. */
  function RateGate(s: State, me: Id, seller: Id, rating: Option<int>, orderId: Option<Id>): (r: Result<nat>)
    ensures !NonZero(rating) || orderId.None? ==> r == Failure(AppError(400, "Rating and orderId are required"))
    ensures NonZero(rating) && orderId.Some? && !RatableOrder(s, me, orderId.value) ==>
              r == Failure(AppError(400, "Invalid order or already rated"))
    ensures NonZero(rating) && orderId.Some? && RatableOrder(s, me, orderId.value) && !SoldBy(s, s.orders[orderId.value], seller) ==>
              r == Failure(AppError(400, "Uploader not found in this order"))
    ensures && NonZero(rating) && orderId.Some? && RatableOrder(s, me, orderId.value)
            && SoldBy(s, s.orders[orderId.value], seller) && AccountIndex(s.users, seller).None? ==>
              r == Failure(AppError(404, "Seller not found"))
    ensures r.Success? <==> && NonZero(rating) && orderId.Some? && RatableOrder(s, me, orderId.value)
                            && SoldBy(s, s.orders[orderId.value], seller)
                            && AccountIndex(s.users, seller).Some?
    ensures r.Success? ==> r == Success(AccountIndex(s.users, seller).value)
    ensures r.Failure? ==> r.error.AppError?
  {
    if !NonZero(rating) || orderId.None? then Failure(AppError(400, "Rating and orderId are required"))
    else if !RatableOrder(s, me, orderId.value) then Failure(AppError(400, "Invalid order or already rated"))
    else if !SoldBy(s, s.orders[orderId.value], seller) then Failure(AppError(400, "Uploader not found in this order"))
    else
      var k := AccountIndex(s.users, seller);
      if k.None? then Failure(AppError(404, "Seller not found")) else Success(k.value)
  }

  /** The seller's account after the rating: the new score and one more rating. */
  function Rated(a: Account, rating: int): (r: Account)
    ensures r.id == a.id
    ensures r.fields == a.fields["readersScore" := Num(NewScore(StoredScore(a), StoredCount(a), rating))]
                                ["totalRatings" := Num(StoredCount(a) + 1)]
    ensures StoredCount(r) == StoredCount(a) + 1
  {
    a.(fields := a.fields["readersScore" := Num(NewScore(StoredScore(a), StoredCount(a), rating))]
                         ["totalRatings" := Num(StoredCount(a) + 1)])
  }

  /** What `rateUser` responds and what the database holds afterwards. */
  function RateSpec(s: State, me: Id, seller: Id, rating: Option<int>, orderId: Option<Id>): (out: (Result<string>, State))
    ensures RateGate(s, me, seller, rating, orderId).Failure? ==>
              out == (Failure(RateGate(s, me, seller, rating, orderId).error), s)
    ensures RateGate(s, me, seller, rating, orderId).Success? ==> out.0.Success?
    ensures out.0.Success? ==> && RateGate(s, me, seller, rating, orderId).Success?
                               && out.0.value == "Rating submitted successfully"
                               && var k := RateGate(s, me, seller, rating, orderId).value;
                               && var o := s.orders[orderId.value];
                               && out.1 == s.(users := s.users[k := Rated(s.users[k], rating.value)],
                                              orders := s.orders[o.id := o.(hasRated := true, rating := rating)])
  {
    var gate := RateGate(s, me, seller, rating, orderId);
    if gate.Failure? then (Failure(gate.error), s)
    else
      var k := gate.value;
      var o := s.orders[orderId.value];
      (Success("Rating submitted successfully"),
       s.(users := s.users[k := Rated(s.users[k], rating.value)],
          orders := s.orders[o.id := o.(hasRated := true, rating := rating)]))
  }

  /** Rating a seller of a delivered order: a falsy rating (0 included) is refused outright. */
  lemma ZeroRatingRefused(s: State, me: Id, seller: Id, orderId: Option<Id>)
    ensures RateSpec(s, me, seller, Some(0), orderId) == (Failure(AppError(400, "Rating and orderId are required")), s)
  {
  }

  /** An order can be rated once: after a successful rating, the same order is refused. */
  lemma RateOnce(s: State, me: Id, seller: Id, rating: Option<int>, orderId: Option<Id>, seller2: Id, rating2: Option<int>)
    requires Valid(s)
    requires RateSpec(s, me, seller, rating, orderId).0.Success?
    requires NonZero(rating2)
    ensures var t := RateSpec(s, me, seller, rating, orderId).1;
            RateSpec(t, me, seller2, rating2, orderId) == (Failure(AppError(400, "Invalid order or already rated")), t)
  {
    var t := RateSpec(s, me, seller, rating, orderId).1;
    assert s.orders[orderId.value].id == orderId.value;
    assert !RatableOrder(t, me, orderId.value);
  }

  /** Rating keeps the store's invariants (the order's items are untouched). */
  lemma RateKeepsValid(s: State, me: Id, seller: Id, rating: Option<int>, orderId: Option<Id>)
    requires Valid(s)
    ensures Valid(RateSpec(s, me, seller, rating, orderId).1)
  {
    var out := RateSpec(s, me, seller, rating, orderId);
    if out.0.Success? {
      var o := s.orders[orderId.value];
      var k := RateGate(s, me, seller, rating, orderId).value;
      assert o.id == orderId.value;
      ReplaceOrderKeepsValid(s, o.(hasRated := true, rating := rating));
      var t := s.(orders := s.orders[o.id := o.(hasRated := true, rating := rating)]);
      AccountsKeepValid(t, s.users[k := Rated(s.users[k], rating.value)], s.publishers);
    }
  }

  /** A seller whose score is within [0, 100], rated within [0, 100], stays within [0, 100] and
      has one more rating. */
  lemma RatedSellerInRange(a: Account, rating: int)
    requires 0 <= StoredScore(a) <= 100 && 0 <= rating <= 100
    ensures 0 <= StoredScore(Rated(a, rating)) <= 100
    ensures StoredCount(Rated(a, rating)) == StoredCount(a) + 1
  {
    ScoreInRange(StoredScore(a), StoredCount(a), rating);
  }

  method RateUser(db: Db, me: Id, seller: Id, rating: Option<int>, orderId: Option<Id>) returns (r: Result<string>)
    modifies db
    ensures (r, db.Snapshot()) == RateSpec(old(db.Snapshot()), me, seller, rating, orderId)
  {
    var gate := RateGate(db.Snapshot(), me, seller, rating, orderId);
    if gate.Failure? {
      return Failure(gate.error);
    }
    var k := gate.value;
    var o := db.orders[orderId.value];
    db.users := db.users[k := Rated(db.users[k], rating.value)];
    db.orders := db.orders[o.id := o.(hasRated := true, rating := rating)];
    r := Success("Rating submitted successfully");
  }
}
