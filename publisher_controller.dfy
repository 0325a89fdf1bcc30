/** The publisher side of backend1/controllers/publisherController.js: signing up, with the
    duplicate check against the Publisher schema's unique email and publisher name
    (backend1/models/Publisher.js), and updating one's own profile through a whitelist. */
module PublisherController {
  import opened Common
  import opened Text
  import opened Store
  import Validators

  // ---------------------------------------------------------------- signup

  /** What the `lowercase` and `trim` setters make of an email, in a document and in a query
      filter alike (ASCII case mapping). */
  function CastEmail(email: string): (r: string)
    ensures |r| <= |email|
  {
    ToLower(Trim(email))
  }

  /** The document `Publisher.create(req.body)` stores: the schema's paths after their setters,
      the password replaced by its hash (bcrypt is a parameter), `confirmPassword` dropped. */
  function PublisherDoc(id: Id, p: Validators.PublisherInput, hash: string -> string, now: int): (a: Account)
    requires Validators.PublisherPresent(p)
    ensures a.id == id
    ensures Holds(a, "email", Str(CastEmail(p.email.value)))
    ensures Holds(a, "publisherName", Str(Trim(p.publisherName.value)))
    ensures Holds(a, "password", Str(hash(p.password.value))) && "confirmPassword" !in a.fields
  {
    var rest := map[
      "publicationAddress" := Str(Trim(p.publicationAddress.value)),
      "officeContact" := Str(Trim(p.officeContact.value)),
      "zipcode" := Str(Trim(p.zipcode.value)),
      "createdAt" := Num(now)];
    assert "confirmPassword" !in rest by {
      assert |"confirmPassword"| == 15;
    }
    Account(id, rest["password" := Str(hash(p.password.value))]
                    ["publisherName" := Str(Trim(p.publisherName.value))]
                    ["email" := Str(CastEmail(p.email.value))])
  }

  /** A body that passes validation carries every required field. */
  lemma PresentWhenValid(p: Validators.PublisherInput, phonePattern: string -> bool)
    requires Validators.PublisherValidation(p, phonePattern).isValid
    ensures Validators.PublisherPresent(p)
  {
    var f := Validators.PublisherRequired(p);
    Validators.RequiredErrorsEmptyIff(f);
    assert f[0].1 && f[1].1 && f[2].1 && f[3].1 && f[4].1 && f[5].1 && f[6].1;
  }

  /** The message as the source computes it, and as signup and register answer: the stored
      email, which the setters have cast, against the email exactly as it came in the request. */
  function DuplicateMessageAsWritten(existing: Account, email: string): (m: string)
    ensures m == "Email already registered" <==> Holds(existing, "email", Str(email))
    ensures m != "Email already registered" ==> m == "Publisher name already exists"
  {
    if Holds(existing, "email", Str(email)) then "Email already registered" else "Publisher name already exists"
  }

  /** The message the branch means to give: the stored email against the email as the query
      matched it. The operations below keep the comparison as written. */
  function DuplicateMessage(existing: Account, email: string): (m: string)
    ensures m == "Email already registered" <==> Holds(existing, "email", Str(CastEmail(email)))
  {
    if Holds(existing, "email", Str(CastEmail(email))) then "Email already registered" else "Publisher name already exists"
  }

  /** What the query for existing publishers finds: the first publisher holding the cast email
      or the trimmed name. */
  function FindDuplicate(s: State, email: string, name: string): Option<nat>
  {
    FindEither(s.publishers, "email", Str(CastEmail(email)), "publisherName", Str(Trim(name)))
  }

  /** With the corrected comparison, the name is blamed only when it is the name that matched. */
  lemma NameBlamedOnlyWhenNameMatches(s: State, email: string, name: string)
    requires FindDuplicate(s, email, name).Some?
    ensures var e := s.publishers[FindDuplicate(s, email, name).value];
            DuplicateMessage(e, email) == "Publisher name already exists" ==>
              Holds(e, "publisherName", Str(Trim(name))) && !Holds(e, "email", Str(CastEmail(email)))
  {
  }

  lemma CastEmailExample()
    ensures CastEmail("A@b.co") == "a@b.co"
  {
    TrimFixesTrimmed("A@b.co");
    var l := ToLower("A@b.co");
    assert |l| == 6;
    assert l[0] == 'a' && l[1] == '@' && l[2] == 'b' && l[3] == '.' && l[4] == 'c' && l[5] == 'o';
  }

  /** The publisher already registered as "a@b.co" under the name "Acme". */
  function Registered(): Account
  {
    Account(0, map["email" := Str("a@b.co"), "publisherName" := Str("Acme")])
  }

  lemma RegisteredFoundByCastEmail()
    ensures FindDuplicate(State(map[], map[], map[], [], [], [Registered()], 1), "A@b.co", "Other") == Some(0)
  {
    CastEmailExample();
    assert Holds(Registered(), "email", Str(CastEmail("A@b.co")));
  }

  lemma OtherIsTrimmed()
    ensures Trim("Other") == "Other"
  {
    assert !IsWhitespace("Other"[0]) && !IsWhitespace("Other"[4]);
    TrimFixesTrimmed("Other");
  }

  lemma AsWrittenMissesTheEmail()
    ensures DuplicateMessageAsWritten(Registered(), "A@b.co") == "Publisher name already exists"
  {
    assert "A@b.co"[0] != "a@b.co"[0];
    assert !Holds(Registered(), "email", Str("A@b.co"));
  }

  /** The source blames the name when only the email matched: a publisher registered as
      "a@b.co" signing up again as "A@b.co" under a new name is told the name exists. */
  lemma NameBlamedForCaseOfEmail()
    ensures FindDuplicate(State(map[], map[], map[], [], [], [Registered()], 1), "A@b.co", "Other") == Some(0)
    ensures DuplicateMessageAsWritten(Registered(), "A@b.co") == "Publisher name already exists"
    ensures !Holds(Registered(), "publisherName", Str(Trim("Other")))
  {
    RegisteredFoundByCastEmail();
    AsWrittenMissesTheEmail();
    OtherIsTrimmed();
    assert "Other"[0] != "Acme"[0];
  }

  /** The duplicate check and the insert, once the body has passed validation. */
  function RegisterSpec(s: State, p: Validators.PublisherInput, hash: string -> string, now: int): (out: (Result<Account>, State))
    requires Validators.PublisherPresent(p)
    ensures out.0.Failure? ==> out.1 == s
    ensures out.0.Success? <==> FindDuplicate(s, p.email.value, p.publisherName.value).None?
    ensures out.0.Failure? ==>
              out.0 == Failure(AppError(400, DuplicateMessageAsWritten(s.publishers[FindDuplicate(s, p.email.value, p.publisherName.value).value], p.email.value)))
    ensures out.0.Success? ==> && out.0.value == PublisherDoc(s.nextId, p, hash, now)
                               && out.1 == s.(publishers := s.publishers + [out.0.value], nextId := s.nextId + 1)
  {
    var found := FindDuplicate(s, p.email.value, p.publisherName.value);
    if found.Some? then (Failure(AppError(400, DuplicateMessageAsWritten(s.publishers[found.value], p.email.value))), s)
    else
      var acc := PublisherDoc(s.nextId, p, hash, now);
      (Success(acc), s.(publishers := s.publishers + [acc], nextId := s.nextId + 1))
  }

  /** What the publisher `signup` responds and what the database holds afterwards. */
  function SignupSpec(s: State, p: Validators.PublisherInput, phonePattern: string -> bool, hash: string -> string, now: int): (out: (Result<Account>, State))
    ensures !Validators.PublisherValidation(p, phonePattern).isValid ==>
              out == (Failure(AppError(400, Join(Validators.PublisherValidation(p, phonePattern).errors, ", "))), s)
    ensures out.0.Failure? ==> out.1 == s
    ensures Validators.PublisherValidation(p, phonePattern).isValid ==>
              && Validators.PublisherPresent(p)
              && var found := FindDuplicate(s, p.email.value, p.publisherName.value);
              && (found.Some? ==>
                    out.0 == Failure(AppError(400, DuplicateMessageAsWritten(s.publishers[found.value], p.email.value))))
              && (found.None? ==> out.0.Success?)
    ensures out.0.Success? ==> && Validators.PublisherValidation(p, phonePattern).isValid
                               && Validators.PublisherPresent(p)
                               && FindDuplicate(s, p.email.value, p.publisherName.value).None?
                               && out.0.value == PublisherDoc(s.nextId, p, hash, now)
                               && out.1 == s.(publishers := s.publishers + [out.0.value], nextId := s.nextId + 1)
  {
    var v := Validators.PublisherValidation(p, phonePattern);
    if !v.isValid then (Failure(AppError(400, Join(v.errors, ", "))), s)
    else
      PresentWhenValid(p, phonePattern);
      RegisterSpec(s, p, hash, now)
  }

  /** The duplicate check keeps both unique indexes: the insert that follows it never fails. */
  lemma SignupKeepsUnique(s: State, p: Validators.PublisherInput, phonePattern: string -> bool, hash: string -> string, now: int)
    requires UniqueField(s.publishers, "email") && UniqueField(s.publishers, "publisherName")
    ensures UniqueField(SignupSpec(s, p, phonePattern, hash, now).1.publishers, "email")
    ensures UniqueField(SignupSpec(s, p, phonePattern, hash, now).1.publishers, "publisherName")
  {
    var out := SignupSpec(s, p, phonePattern, hash, now);
    if out.0.Success? {
      AppendKeepsUniqueField(s.publishers, out.0.value, "email");
      AppendKeepsUniqueField(s.publishers, out.0.value, "publisherName");
    }
  }

  method Signup(db: Db, p: Validators.PublisherInput, phonePattern: string -> bool, hash: string -> string, now: int)
    returns (r: Result<Account>)
    modifies db
    ensures (r, db.Snapshot()) == SignupSpec(old(db.Snapshot()), p, phonePattern, hash, now)
  {
    var v := Validators.ValidatePublisherInput(p, phonePattern);
    if !v.isValid {
      return Failure(AppError(400, Join(v.errors, ", ")));
    }
    PresentWhenValid(p, phonePattern);
    r := Register(db, p, hash, now);
  }

  method Register(db: Db, p: Validators.PublisherInput, hash: string -> string, now: int) returns (r: Result<Account>)
    requires Validators.PublisherPresent(p)
    modifies db
    ensures (r, db.Snapshot()) == RegisterSpec(old(db.Snapshot()), p, hash, now)
  {
    var s := db.Snapshot();
    var found := FindDuplicate(s, p.email.value, p.publisherName.value);
    if found.Some? {
      return Failure(AppError(400, DuplicateMessageAsWritten(s.publishers[found.value], p.email.value)));
    }
    var acc := PublisherDoc(s.nextId, p, hash, now);
    db.publishers := s.publishers + [acc];
    db.nextId := s.nextId + 1;
    r := Success(acc);
    assert db.Snapshot() == s.(publishers := s.publishers + [acc], nextId := s.nextId + 1);
  }

  // ---------------------------------------------------------------- profile

  const PublisherRestricted: set<string> := {"email", "publisherName", "password", "role"}

  /** The keys of `allowedUpdates`, in the order it lists them. */
  const AllowedKeys: seq<string> := ["companyName", "address", "phone", "description", "website"]

  /** The update `updateProfile` sends: the whitelisted keys the body defines, with their values. */
  function Allowed(body: map<string, JsValue>): (m: map<string, JsValue>)
    ensures forall k :: k in m <==> k in AllowedKeys && k in body && body[k] != Undefined
    ensures forall k :: k in m ==> m[k] == body[k]
  {
    map k | k in AllowedKeys && k in body && body[k] != Undefined :: body[k]
  }

  /** `body[k]` as a JavaScript property read: `undefined` when the key is absent. */
  function Get(body: map<string, JsValue>, k: string): JsValue
  {
    if k in body then body[k] else Undefined
  }

  /** `m` after the deletions of the first `i` whitelisted keys: those keys stay only when the
      body defines them, the later ones all stay, each with the body's value. */
  ghost predicate DeletedUpTo(body: map<string, JsValue>, m: map<string, JsValue>, i: nat)
    requires i <= |AllowedKeys|
  {
    && (forall k :: k in m <==> k in AllowedKeys && (k in AllowedKeys[..i] ==> Get(body, k) != Undefined))
    && (forall k :: k in m ==> m[k] == Get(body, k))
  }

  /** One deletion step: drop the next key when its value is `undefined`. */
  lemma DeleteStep(body: map<string, JsValue>, m: map<string, JsValue>, i: nat)
    requires i < |AllowedKeys| && DeletedUpTo(body, m, i)
    ensures AllowedKeys[i] in m
    ensures DeletedUpTo(body, if m[AllowedKeys[i]] == Undefined then m - {AllowedKeys[i]} else m, i + 1)
  {
    assert AllowedKeys[..i + 1] == AllowedKeys[..i] + [AllowedKeys[i]];
  }

  /** Build `allowedUpdates` from the five whitelisted reads, then delete the keys whose value
      is `undefined`, one after the other. */
  method AllowedUpdates(body: map<string, JsValue>) returns (m: map<string, JsValue>)
    ensures m == Allowed(body)
  {
    m := map k | k in AllowedKeys :: Get(body, k);
    var i := 0;
    while i < |AllowedKeys|
      invariant 0 <= i <= |AllowedKeys|
      invariant DeletedUpTo(body, m, i)
    {
      var key := AllowedKeys[i];
      DeleteStep(body, m, i);
      if m[key] == Undefined {
        m := m - {key};
      }
      i := i + 1;
    }
    assert AllowedKeys[..i] == AllowedKeys;
  }

  /** The fields the response shows (`id` aside). */
  const ProfileKeys: set<string> :=
    {"email", "publisherName", "companyName", "address", "phone", "description", "website", "updatedAt"}

  function Profile(a: Account): (r: Account)
    ensures r.id == a.id && "password" !in r.fields
    ensures forall k :: k in r.fields <==> k in ProfileKeys && k in a.fields
  {
    Account(a.id, map k | k in ProfileKeys && k in a.fields :: a.fields[k])
  }

  /** What the publisher `updateProfile` responds and what the database holds afterwards. */
  function UpdateProfileSpec(s: State, me: Id, body: map<string, JsValue>): (out: (Result<Account>, State))
    ensures (exists k :: k in body && k in PublisherRestricted) ==>
              out == (Failure(AppError(400, "Cannot update restricted fields (email, publisherName, password, role)")), s)
    ensures (forall k :: k in body ==> k !in PublisherRestricted) && AccountIndex(s.publishers, me).None? ==>
              out == (Failure(AppError(404, "Publisher not found")), s)
    ensures out.0.Failure? ==> out.1 == s
    ensures out.0.Success? ==> && AccountIndex(s.publishers, me).Some?
                               && var k := AccountIndex(s.publishers, me).value;
                               && var updated := s.publishers[k].(fields := s.publishers[k].fields + Allowed(body));
                               && out.1 == s.(publishers := s.publishers[k := updated])
                               && out.0.value == Profile(updated)
  {
    if exists k :: k in body && k in PublisherRestricted then
      (Failure(AppError(400, "Cannot update restricted fields (email, publisherName, password, role)")), s)
    else
      var found := AccountIndex(s.publishers, me);
      if found.None? then (Failure(AppError(404, "Publisher not found")), s)
      else
        var k := found.value;
        var updated := s.publishers[k].(fields := s.publishers[k].fields + Allowed(body));
        (Success(Profile(updated)), s.(publishers := s.publishers[k := updated]))
  }

  /** A profile update changes only whitelisted fields the body defines, and only the caller's
      own profile. */
  lemma ProfileChangesOnlyAllowed(s: State, me: Id, body: map<string, JsValue>, key: string)
    requires UpdateProfileSpec(s, me, body).0.Success?
    requires key !in AllowedKeys || key !in body || body[key] == Undefined
    ensures var k := AccountIndex(s.publishers, me).value;
            var t := UpdateProfileSpec(s, me, body).1;
            && |t.publishers| == |s.publishers|
            && (key in t.publishers[k].fields <==> key in s.publishers[k].fields)
            && (key in s.publishers[k].fields ==> t.publishers[k].fields[key] == s.publishers[k].fields[key])
            && (forall j :: 0 <= j < |s.publishers| && j != k ==> t.publishers[j] == s.publishers[j])
  {
  }

  /** A whitelisted field the body defines is written. */
  lemma ProfileWritesAllowed(s: State, me: Id, body: map<string, JsValue>, key: string)
    requires UpdateProfileSpec(s, me, body).0.Success?
    requires key in AllowedKeys && key in body && body[key] != Undefined
    ensures var k := AccountIndex(s.publishers, me).value;
            Holds(UpdateProfileSpec(s, me, body).1.publishers[k], key, body[key])
  {
  }

  method UpdateProfile(db: Db, me: Id, body: map<string, JsValue>) returns (r: Result<Account>)
    modifies db
    ensures (r, db.Snapshot()) == UpdateProfileSpec(old(db.Snapshot()), me, body)
  {
    if exists k :: k in body && k in PublisherRestricted {
      return Failure(AppError(400, "Cannot update restricted fields (email, publisherName, password, role)"));
    }
    var allowed := AllowedUpdates(body);
    var found := AccountIndex(db.publishers, me);
    if found.None? {
      return Failure(AppError(404, "Publisher not found"));
    }
    var k := found.value;
    var updated := db.publishers[k].(fields := db.publishers[k].fields + allowed);
    db.publishers := db.publishers[k := updated];
    r := Success(Profile(updated));
  }
}
