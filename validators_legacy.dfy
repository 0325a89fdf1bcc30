/** The book validators of backend/utils/validators.js, the earlier backend. Its email,
    password, name, address, zipcode, phone, ISBN, author, genre and description checks and its
    user and publisher validators are the ones of `Validators` (they differ only in logging).
    What differs: lease prices are per day, `condition` is not checked, the listing type,
    price and lease terms are checked before the field checks, and the price check runs
    whether or not a price was sent. */
module LegacyValidators {
  import opened Common
  import opened Text
  import BookSchema
  import opened Validators

  /** Whether `priceValidator(price, listingType)` throws: `price.sale` is read for sale
      listings, `price.lease` and then `price.lease.maxDuration` for lease listings. */
  predicate PriceThrows(price: Option<PriceInput>, listingType: Option<string>)
  {
    || ((SaleType(listingType) || LeaseType(listingType)) && price.None?)
    || (LeaseType(listingType) && price.Some? && price.value.lease.None?)
  }

  function LegacyPriceValidator(price: Option<PriceInput>, listingType: Option<string>): (r: Result<Check>)
    ensures r.Failure? <==> PriceThrows(price, listingType)
    ensures r.Failure? && price.Some? ==>
              r.error == RuntimeError("Cannot read properties of undefined (reading 'maxDuration')")
    ensures !SaleType(listingType) && !LeaseType(listingType) ==> r == Success(Ok)
    ensures r.Success? && price.Some? ==> (r.value.isValid <==>
      && (SaleType(listingType) ==> !NotPositive(price.value.sale))
      && (LeaseType(listingType) ==>
            !NotPositive(price.value.lease.value.perDay) && DurationFailures(price.value.lease.value, "day") == []))
  {
    if PriceThrows(price, listingType) then
      if price.Some? then Failure(RuntimeError("Cannot read properties of undefined (reading 'maxDuration')"))
      else if SaleType(listingType) then Failure(RuntimeError("Cannot read properties of undefined (reading 'sale')"))
      else Failure(RuntimeError("Cannot read properties of undefined (reading 'lease')"))
    else if !SaleType(listingType) && !LeaseType(listingType) then Success(Ok)
    else
      var p := price.value;
      var errs :=
        (if SaleType(listingType) && NotPositive(p.sale) then ["Sale price must be greater than 0"] else [])
        + (if LeaseType(listingType) then
             (if NotPositive(p.lease.value.perDay) then ["Lease price per day must be greater than 0"] else [])
             + DurationFailures(p.lease.value, "day")
           else []);
      Success(Check(errs == [], Join(errs, ", ")))
  }

  /** A lease price of 0 per day is rejected: the check is on truthiness and sign. */
  lemma ZeroPerDayRejected(p: PriceInput)
    requires p.lease.Some? && p.lease.value.perDay == Some(0)
    ensures !LegacyPriceValidator(Some(p), Some("lease")).value.isValid
  {
  }

  function LegacyRequired(b: BookData): seq<(string, bool)>
  {
    [("isbn", Filled(b.isbn)), ("title", Filled(b.title)), ("author", Filled(b.author)),
     ("genre", GenreTruthy(b.genre)), ("description", Filled(b.description)),
     ("listingType", Filled(b.listingType))]
  }

  predicate LegacyPresent(b: BookData)
  {
    Filled(b.isbn) && Filled(b.title) && Filled(b.author) && GenreTruthy(b.genre)
    && Filled(b.description) && Filled(b.listingType)
  }

  /** `validGenres.includes(genre)`: an array is never one of the names. */
  function LegacyGenre(g: GenreValue): Option<string>
  {
    if g.GenreText? then Some(g.text) else None
  }

  /** The `validations` array: ISBN, title, author, genre, description. */
  function LegacyFieldChecks(b: BookData, isbnPattern: string -> bool): seq<Check>
    requires LegacyPresent(b)
  {
    [IsbnValidator(b.isbn.value, isbnPattern), NameValidator(b.title, "Title"), AuthorValidator(b.author),
     GenreValidator(LegacyGenre(b.genre.value)), DescriptionValidator(b.description)]
  }

  predicate ListingTypeOk(l: Option<string>)
  {
    l.Some? && l.value in ["sale", "lease", "both"]
  }

  /** The messages pushed before the field checks: listing type, price, lease terms. */
  function OfferErrors(b: BookData): Result<seq<string>>
  {
    var listing := if ListingTypeOk(b.listingType) then [] else ["Invalid listing type. Must be sale, lease, or both"];
    var price := LegacyPriceValidator(b.price, b.listingType);
    if price.Failure? then Failure(price.error)
    else
      var terms := if LeaseType(b.listingType) && TooShort(b.leaseTerms, 10)
                   then ["Lease terms must be at least 10 characters long"] else [];
      Success(listing + (if price.value.isValid then [] else [price.value.message]) + terms)
  }

  /** What the earlier `validateBookInput` returns (or the TypeError it throws). */
  function LegacyBookValidation(b: BookData, isbnPattern: string -> bool): Result<Validation>
  {
    var req := RequiredErrors(LegacyRequired(b));
    if req != [] then Success(Validation(false, req))
    else
      RequiredErrorsEmptyIff(LegacyRequired(b));
      assert LegacyPresent(b) by {
        var f := LegacyRequired(b);
        assert f[0].1 && f[1].1 && f[2].1 && f[3].1 && f[4].1 && f[5].1;
      }
      var offer := OfferErrors(b);
      if offer.Failure? then Failure(offer.error)
      else
        var errs := offer.value + Failures(LegacyFieldChecks(b, isbnPattern));
        Success(Validation(errs == [], errs))
  }

  method LegacyValidateBookInput(b: BookData, isbnPattern: string -> bool) returns (r: Result<Validation>)
    ensures r == LegacyBookValidation(b, isbnPattern)
  {
    var errors := CollectRequired(LegacyRequired(b));
    if |errors| > 0 {
      return Success(Validation(false, errors));
    }
    RequiredErrorsEmptyIff(LegacyRequired(b));
    var f := LegacyRequired(b);
    assert f[0].1 && f[1].1 && f[2].1 && f[3].1 && f[4].1 && f[5].1;
    var offer := OfferErrors(b);
    if offer.Failure? {
      return Failure(offer.error);
    }
    errors := offer.value;
    var more := CollectFailures(LegacyFieldChecks(b, isbnPattern));
    errors := errors + more;
    return Success(Validation(|errors| == 0, errors));
  }

  /** A book with every required field passes the required-field stage. */
  lemma LegacyRequiredPasses(b: BookData)
    requires LegacyPresent(b)
    ensures RequiredErrors(LegacyRequired(b)) == []
  {
    var f := LegacyRequired(b);
    forall i | 0 <= i < |f| ensures f[i].1 {
      if i == 0 {} else if i == 1 {} else if i == 2 {} else if i == 3 {} else if i == 4 {} else {}
    }
    RequiredErrorsEmptyIff(f);
  }

  /** A book without a price throws for every listing type the validator accepts. */
  lemma MissingPriceThrows(b: BookData, isbnPattern: string -> bool)
    requires LegacyPresent(b) && ListingTypeOk(b.listingType) && b.price.None?
    ensures LegacyBookValidation(b, isbnPattern).Failure?
  {
    LegacyRequiredPasses(b);
  }

  /** An array genre never passes here, whatever it holds. */
  lemma ArrayGenreRejected(b: BookData, isbnPattern: string -> bool)
    requires LegacyPresent(b) && b.genre.value.GenreList?
    requires LegacyBookValidation(b, isbnPattern).Success?
    ensures !LegacyBookValidation(b, isbnPattern).value.isValid
  {
    LegacyRequiredPasses(b);
    var cs := LegacyFieldChecks(b, isbnPattern);
    FailuresEmptyIff(cs);
    assert !cs[3].isValid;
  }

  lemma LegacyFieldChecksIff(b: BookData, isbnPattern: string -> bool)
    requires LegacyPresent(b)
    ensures Failures(LegacyFieldChecks(b, isbnPattern)) == [] <==>
      && isbnPattern(b.isbn.value) && |Trim(b.title.value)| >= 2 && |Trim(b.author.value)| >= 2
      && b.genre.value.GenreText? && b.genre.value.text in BookSchema.GenreNames
      && |Trim(b.description.value)| >= 10
  {
    var cs := LegacyFieldChecks(b, isbnPattern);
    FailuresEmptyIff(cs);
    assert (forall i :: 0 <= i < |cs| ==> cs[i].isValid) <==>
      cs[0].isValid && cs[1].isValid && cs[2].isValid && cs[3].isValid && cs[4].isValid;
  }

  lemma OfferErrorsIff(b: BookData)
    requires OfferErrors(b).Success?
    ensures OfferErrors(b).value == [] <==>
      && ListingTypeOk(b.listingType)
      && LegacyPriceValidator(b.price, b.listingType).value.isValid
      && (LeaseType(b.listingType) ==> Filled(b.leaseTerms) && |Trim(b.leaseTerms.value)| >= 10)
  {
  }

  /** The listing-type message comes first, before the price, lease-terms and field messages. */
  lemma InvalidListingReportedFirst(b: BookData, isbnPattern: string -> bool)
    requires LegacyPresent(b) && !ListingTypeOk(b.listingType)
    requires LegacyBookValidation(b, isbnPattern).Success?
    ensures var errs := LegacyBookValidation(b, isbnPattern).value.errors;
            errs != [] && errs[0] == "Invalid listing type. Must be sale, lease, or both"
  {
    LegacyRequiredPasses(b);
  }

  /** A complete book validates exactly when its listing type, price, lease terms and fields
      all pass. */
  lemma LegacyBookValidIff(b: BookData, isbnPattern: string -> bool)
    requires LegacyPresent(b) && LegacyBookValidation(b, isbnPattern).Success?
    ensures LegacyBookValidation(b, isbnPattern).value.isValid <==>
      && OfferErrors(b).Success? && OfferErrors(b).value == []
      && Failures(LegacyFieldChecks(b, isbnPattern)) == []
  {
    LegacyRequiredPasses(b);
    var offer, fails := OfferErrors(b).value, Failures(LegacyFieldChecks(b, isbnPattern));
    assert LegacyBookValidation(b, isbnPattern) == Success(Validation(offer + fails == [], offer + fails));
    assert |offer + fails| == |offer| + |fails|;
  }

  /** The outcome of the earlier `validateBookInput` on each book. */
  function LegacyPerBook(books: seq<BookData>, isbnPattern: string -> bool): (vs: seq<Result<Validation>>)
    ensures |vs| == |books|
  {
    seq(|books|, i requires 0 <= i < |books| => LegacyBookValidation(books[i], isbnPattern))
  }

  function LegacyBulkValidation(books: Option<seq<BookData>>, isbnPattern: string -> bool): Result<Validation>
  {
    if books.None? || books.value == [] then Success(Validation(false, [EmptyBulkMessage]))
    else
      var errs := BulkErrors(LegacyPerBook(books.value, isbnPattern));
      if errs.Failure? then Failure(errs.error) else Success(Validation(errs.value == [], errs.value))
  }

  method LegacyValidateBulkBooksInput(books: Option<seq<BookData>>, isbnPattern: string -> bool) returns (r: Result<Validation>)
    ensures r == LegacyBulkValidation(books, isbnPattern)
  {
    if books.None? || |books.value| == 0 {
      return Success(Validation(false, [EmptyBulkMessage]));
    }
    var bs := books.value;
    ghost var vs := LegacyPerBook(bs, isbnPattern);
    var errors: seq<string> := [];
    var i := 0;
    while i < |bs|
      invariant 0 <= i <= |bs|
      invariant BulkErrors(vs[..i]) == Success(errors)
    {
      var v := LegacyValidateBookInput(bs[i], isbnPattern);
      assert v == vs[i];
      if v.Failure? {
        BulkStepFails(vs, i);
        return Failure(v.error);
      }
      BulkStep(vs, i);
      errors := errors + Report(i, v.value);
      i := i + 1;
    }
    assert vs[..i] == vs;
    return Success(Validation(|errors| == 0, errors));
  }
}
