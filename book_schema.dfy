/** The Book document of backend/models/Book.js: its enumerations, defaults, ranges and
    the fields that are required only for some listing types. `CreateBook` plays the role of
    Mongoose's cast-default-validate step on `Book.create`. */
module BookSchema {
  import opened Common
  import opened Text

  datatype Genre =
    | Fiction | NonFiction | ScienceFiction | Fantasy | Mystery | Thriller | Romance | Horror
    | Biography | History | Science | Technology | SelfHelp | Children | Other

  /** The 15 genre names, in the order the schema lists them. */
  const GenreNames: seq<string> :=
    ["Fiction", "Non-Fiction", "Science Fiction", "Fantasy", "Mystery", "Thriller", "Romance",
     "Horror", "Biography", "History", "Science", "Technology", "Self-Help", "Children", "Other"]

  function GenreName(g: Genre): string
  {
    match g
    case Fiction => "Fiction"
    case NonFiction => "Non-Fiction"
    case ScienceFiction => "Science Fiction"
    case Fantasy => "Fantasy"
    case Mystery => "Mystery"
    case Thriller => "Thriller"
    case Romance => "Romance"
    case Horror => "Horror"
    case Biography => "Biography"
    case History => "History"
    case Science => "Science"
    case Technology => "Technology"
    case SelfHelp => "Self-Help"
    case Children => "Children"
    case Other => "Other"
  }

  /** The genre enumeration check: exactly the 15 listed names are accepted. */
  function ParseGenre(s: string): (g: Option<Genre>)
    ensures g.Some? <==> s in GenreNames
    ensures g.Some? ==> GenreName(g.value) == s
  {
    if s == "Fiction" then Some(Fiction)
    else if s == "Non-Fiction" then Some(NonFiction)
    else if s == "Science Fiction" then Some(ScienceFiction)
    else if s == "Fantasy" then Some(Fantasy)
    else if s == "Mystery" then Some(Mystery)
    else if s == "Thriller" then Some(Thriller)
    else if s == "Romance" then Some(Romance)
    else if s == "Horror" then Some(Horror)
    else if s == "Biography" then Some(Biography)
    else if s == "History" then Some(History)
    else if s == "Science" then Some(Science)
    else if s == "Technology" then Some(Technology)
    else if s == "Self-Help" then Some(SelfHelp)
    else if s == "Children" then Some(Children)
    else if s == "Other" then Some(Other)
    else None
  }

  lemma GenreNameParses(g: Genre)
    ensures GenreName(g) in GenreNames && ParseGenre(GenreName(g)) == Some(g)
  {
  }

  datatype UploaderType = UserUploader | PublisherUploader

  function UploaderTypeName(u: UploaderType): string
  {
    match u
    case UserUploader => "User"
    case PublisherUploader => "Publisher"
  }

  function ParseUploaderType(s: string): (u: Option<UploaderType>)
    ensures u.Some? <==> s == "User" || s == "Publisher"
    ensures u.Some? ==> UploaderTypeName(u.value) == s
  {
    if s == "User" then Some(UserUploader) else if s == "Publisher" then Some(PublisherUploader) else None
  }

  datatype BookStatus = Available | Rented | Sold

  function ParseStatus(s: string): (st: Option<BookStatus>)
    ensures st.Some? <==> s == "available" || s == "rented" || s == "sold"
    ensures st == Some(Available) <==> s == "available"
  {
    if s == "available" then Some(Available)
    else if s == "rented" then Some(Rented)
    else if s == "sold" then Some(Sold)
    else None
  }

  function StatusName(st: BookStatus): string
  {
    match st
    case Available => "available"
    case Rented => "rented"
    case Sold => "sold"
  }

  datatype ListingType = Sale | Lease | Both

  function ListingTypeName(l: ListingType): string
  {
    match l
    case Sale => "sale"
    case Lease => "lease"
    case Both => "both"
  }

  function ParseListingType(s: string): (l: Option<ListingType>)
    ensures l.Some? <==> s == "sale" || s == "lease" || s == "both"
    ensures l.Some? ==> ListingTypeName(l.value) == s
  {
    if s == "sale" then Some(Sale) else if s == "lease" then Some(Lease) else if s == "both" then Some(Both) else None
  }

  /** `listingType` is "sale" or "both". */
  predicate OffersSale(l: ListingType) { l == Sale || l == Both }

  /** `listingType` is "lease" or "both". */
  predicate OffersLease(l: ListingType) { l == Lease || l == Both }

  /** The same two tests on the raw listing-type string. */
  predicate SaleListing(s: Option<string>) { s == Some("sale") || s == Some("both") }

  predicate LeaseListing(s: Option<string>) { s == Some("lease") || s == Some("both") }

  datatype LeasePrice = LeasePrice(perDay: Option<int>, minDuration: int, maxDuration: Option<int>)

  datatype BookPrice = BookPrice(sale: Option<int>, lease: LeasePrice)

  /** Written on the book when it is rented out (see the order controller). */
  datatype RentalInfo = RentalInfo(rentedTo: Id, startDate: int, endDate: int)

  datatype Book = Book(
    id: Id,
    isbn: string,
    title: string,
    author: string,
    genre: Genre,
    publisher: Option<Id>,
    uploader: Id,
    uploaderType: UploaderType,
    description: string,
    rating: real,
    totalRatings: int,
    status: BookStatus,
    listingType: ListingType,
    price: BookPrice,
    leaseTerms: Option<string>,
    createdAt: int,
    currentTransaction: Option<Id>,
    rentalInfo: Option<RentalInfo>)

  /** The schema's invariant on a stored book: required strings present (and trimmed where the
      schema trims), rating within [0, 5], and the price and lease-term fields that the listing
      type makes required. */
  predicate ValidBook(b: Book)
  {
    ValidText(b) && ValidOffer(b)
  }

  predicate ValidText(b: Book)
  {
    && b.isbn != "" && Trimmed(b.isbn)
    && b.title != "" && Trimmed(b.title)
    && b.author != "" && Trimmed(b.author)
    && b.description != ""
  }

  predicate ValidOffer(b: Book)
  {
    && 0.0 <= b.rating <= 5.0
    && (OffersSale(b.listingType) ==> b.price.sale.Some?)
    && (OffersLease(b.listingType) ==> b.price.lease.perDay.Some?)
    && (OffersLease(b.listingType) ==> b.leaseTerms.Some? && b.leaseTerms.value != "")
  }

  /** The plain object handed to `Book.create`: every path may be missing. */
  datatype BookInput = BookInput(
    isbn: Option<string>,
    title: Option<string>,
    author: Option<string>,
    genre: Option<string>,
    publisher: Option<Id>,
    uploader: Option<Id>,
    uploaderType: Option<string>,
    description: Option<string>,
    rating: Option<real>,
    totalRatings: Option<int>,
    status: Option<string>,
    listingType: Option<string>,
    salePrice: Option<int>,
    perDay: Option<int>,
    minDuration: Option<int>,
    maxDuration: Option<int>,
    leaseTerms: Option<string>,
    createdAt: Option<int>)

  /** Mongoose's `required` on a String path: present and non-empty (after the `trim` setter, if
      any; a string trims to empty exactly when it is blank, see `Text.TrimEmptyIffBlank`). */
  predicate RequiredString(s: Option<string>, trimmed: bool)
  {
    s.Some? && (if trimmed then !Blank(s.value) else s.value != "")
  }

  /** `required: function () { return this.uploaderType === 'publisher' }`: the lower-case literal. */
  predicate PublisherRequired(uploaderType: Option<string>)
  {
    uploaderType == Some("publisher")
  }

  /** The validated paths of the Book schema, in declaration order. */
  datatype BookPath =
    | IsbnPath | TitlePath | AuthorPath | GenrePath | PublisherPath | UploaderPath | UploaderTypePath
    | DescriptionPath | RatingPath | StatusPath | ListingTypePath | SalePricePath | PerDayPath | LeaseTermsPath

  const BookPaths: seq<BookPath> :=
    [IsbnPath, TitlePath, AuthorPath, GenrePath, PublisherPath, UploaderPath, UploaderTypePath,
     DescriptionPath, RatingPath, StatusPath, ListingTypePath, SalePricePath, PerDayPath, LeaseTermsPath]

  function BookPathName(p: BookPath): string
  {
    match p
    case IsbnPath => "isbn"
    case TitlePath => "title"
    case AuthorPath => "author"
    case GenrePath => "genre"
    case PublisherPath => "publisher"
    case UploaderPath => "uploader"
    case UploaderTypePath => "uploaderType"
    case DescriptionPath => "description"
    case RatingPath => "rating"
    case StatusPath => "status"
    case ListingTypePath => "listingType"
    case SalePricePath => "price.sale"
    case PerDayPath => "price.lease.perDay"
    case LeaseTermsPath => "leaseTerms"
  }

  /** Whether one path of the input fails its `required`, `enum`, `min` or `max` rule. */
  predicate PathFails(input: BookInput, p: BookPath)
  {
    match p
    case IsbnPath => !RequiredString(input.isbn, true)
    case TitlePath => !RequiredString(input.title, true)
    case AuthorPath => !RequiredString(input.author, true)
    case GenrePath => input.genre.None? || ParseGenre(input.genre.value).None?
    case PublisherPath => PublisherRequired(input.uploaderType) && input.publisher.None?
    case UploaderPath => input.uploader.None?
    case UploaderTypePath => input.uploaderType.None? || ParseUploaderType(input.uploaderType.value).None?
    case DescriptionPath => !RequiredString(input.description, false)
    case RatingPath => input.rating.Some? && !(0.0 <= input.rating.value <= 5.0)
    case StatusPath => input.status.Some? && ParseStatus(input.status.value).None?
    case ListingTypePath => input.listingType.None? || ParseListingType(input.listingType.value).None?
    case SalePricePath => SaleListing(input.listingType) && input.salePrice.None?
    case PerDayPath => LeaseListing(input.listingType) && input.perDay.None?
    case LeaseTermsPath => LeaseListing(input.listingType) && !RequiredString(input.leaseTerms, false)
  }

  /** The failing paths among `ps`, in order. */
  function FailingPaths(input: BookInput, ps: seq<BookPath>): (errs: seq<BookPath>)
    ensures forall p :: p in errs <==> p in ps && PathFails(input, p)
  {
    if ps == [] then []
    else (if PathFails(input, ps[0]) then [ps[0]] else []) + FailingPaths(input, ps[1..])
  }

  /** The paths of the input that fail validation, in schema order. */
  function BookDocErrors(input: BookInput): (errs: seq<BookPath>)
    ensures forall p :: p in errs <==> PathFails(input, p)
  {
    AllPathsListed();
    FailingPaths(input, BookPaths)
  }

  lemma AllPathsListed()
    ensures forall p: BookPath :: p in BookPaths
  {
    forall p: BookPath ensures p in BookPaths {
      match p
      case IsbnPath => case TitlePath => case AuthorPath => case GenrePath =>
      case PublisherPath => case UploaderPath => case UploaderTypePath =>
      case DescriptionPath => case RatingPath => case StatusPath => case ListingTypePath =>
      case SalePricePath => case PerDayPath => case LeaseTermsPath =>
    }
  }

  function PathNames(ps: seq<BookPath>): seq<string>
  {
    seq(|ps|, i requires 0 <= i < |ps| => BookPathName(ps[i]))
  }

  /** `publisher` can never be required: every value that passes the `uploaderType` enum differs
      from the lower-case literal the condition compares with. */
  lemma PublisherNeverRequired(input: BookInput)
    ensures PathFails(input, PublisherPath) ==> PathFails(input, UploaderTypePath)
  {
  }

  /** Every path of the input passes. */
  predicate Passes(input: BookInput)
  {
    && !PathFails(input, IsbnPath) && !PathFails(input, TitlePath) && !PathFails(input, AuthorPath)
    && !PathFails(input, GenrePath) && !PathFails(input, PublisherPath) && !PathFails(input, UploaderPath)
    && !PathFails(input, UploaderTypePath) && !PathFails(input, DescriptionPath)
    && !PathFails(input, RatingPath) && !PathFails(input, StatusPath) && !PathFails(input, ListingTypePath)
    && !PathFails(input, SalePricePath) && !PathFails(input, PerDayPath) && !PathFails(input, LeaseTermsPath)
  }

  lemma PassesEveryPath(input: BookInput)
    ensures Passes(input) <==> forall p :: !PathFails(input, p)
  {
    if Passes(input) {
      forall p ensures !PathFails(input, p) {
        match p
        case IsbnPath => case TitlePath => case AuthorPath => case GenrePath =>
        case PublisherPath => case UploaderPath => case UploaderTypePath =>
        case DescriptionPath => case RatingPath => case StatusPath => case ListingTypePath =>
        case SalePricePath => case PerDayPath => case LeaseTermsPath =>
      }
    }
  }

  /** `Book.create`: apply the `trim` setters and the defaults (status available, rating 0,
      totalRatings 0, minDuration 1, createdAt now), then validate; a document with any failing
      path is not created and the error lists every failing path. */
  function CreateBook(id: Id, input: BookInput, now: int): (r: Result<Book>)
    ensures r.Success? <==> forall p :: !PathFails(input, p)
    ensures r.Failure? ==> r.error == SchemaError(PathNames(BookDocErrors(input)))
  {
    var errs := BookDocErrors(input);
    if errs != [] then
      assert PathFails(input, errs[0]);
      Failure(SchemaError(PathNames(errs)))
    else
      assert forall p :: p !in errs;
      PassesEveryPath(input);
      PassesUnfolded(input);
      Success(Cast(id, input, now))
  }

  /** A created book is valid, carries the given id and no rental, takes the defaults for what
      the input leaves out, and keeps the uploader and publisher it was given. */
  lemma CreatedBook(id: Id, input: BookInput, now: int)
    requires CreateBook(id, input, now).Success?
    ensures var b := CreateBook(id, input, now).value;
            && ValidBook(b) && b.id == id && b.rentalInfo.None?
            && (input.status.None? ==> b.status == Available)
            && (input.rating.None? ==> b.rating == 0.0)
            && (input.minDuration.None? ==> b.price.lease.minDuration == 1)
            && (input.createdAt.None? ==> b.createdAt == now)
            && input.uploader == Some(b.uploader) && b.publisher == input.publisher
            && input.uploaderType == Some(UploaderTypeName(b.uploaderType))
  {
    var errs := BookDocErrors(input);
    assert errs == [];
    assert forall p :: p !in errs;
    PassesEveryPath(input);
    PassesUnfolded(input);
    CastValid(id, input, now);
  }

  /** What casting needs: the required paths are present and the enumerations parse. */
  predicate Castable(input: BookInput)
  {
    && input.isbn.Some? && input.title.Some? && input.author.Some? && input.description.Some?
    && input.genre.Some? && ParseGenre(input.genre.value).Some?
    && input.uploader.Some? && input.uploaderType.Some? && ParseUploaderType(input.uploaderType.value).Some?
    && input.listingType.Some? && ParseListingType(input.listingType.value).Some?
    && (input.status.Some? ==> ParseStatus(input.status.value).Some?)
  }

  /** The document built from the input by the setters and defaults. */
  function Cast(id: Id, input: BookInput, now: int): Book
    requires Castable(input)
  {
    Book(
      id := id,
      isbn := Trim(input.isbn.value),
      title := Trim(input.title.value),
      author := Trim(input.author.value),
      genre := ParseGenre(input.genre.value).value,
      publisher := input.publisher,
      uploader := input.uploader.value,
      uploaderType := ParseUploaderType(input.uploaderType.value).value,
      description := input.description.value,
      rating := if input.rating.None? then 0.0 else input.rating.value,
      totalRatings := OrZero(input.totalRatings),
      status := if input.status.None? then Available else ParseStatus(input.status.value).value,
      listingType := ParseListingType(input.listingType.value).value,
      price := BookPrice(
        input.salePrice,
        LeasePrice(input.perDay, if input.minDuration.None? then 1 else input.minDuration.value, input.maxDuration)),
      leaseTerms := input.leaseTerms,
      createdAt := if input.createdAt.None? then now else input.createdAt.value,
      currentTransaction := None,
      rentalInfo := None)
  }

  /** The value rules of the schema, one fact per path, for an input that passes. */
  lemma PassesUnfolded(input: BookInput)
    requires Passes(input)
    ensures Castable(input)
    ensures !Blank(input.isbn.value) && !Blank(input.title.value) && !Blank(input.author.value)
    ensures input.description.value != ""
    ensures input.rating.Some? ==> 0.0 <= input.rating.value <= 5.0
    ensures SaleListing(input.listingType) ==> input.salePrice.Some?
    ensures LeaseListing(input.listingType) ==> input.perDay.Some? && Filled(input.leaseTerms)
  {
  }

  /** An input that passes every path casts to a valid book. */
  lemma CastValid(id: Id, input: BookInput, now: int)
    requires Castable(input)
    requires !Blank(input.isbn.value) && !Blank(input.title.value) && !Blank(input.author.value)
    requires input.description.value != ""
    requires input.rating.Some? ==> 0.0 <= input.rating.value <= 5.0
    requires SaleListing(input.listingType) ==> input.salePrice.Some?
    requires LeaseListing(input.listingType) ==> input.perDay.Some? && Filled(input.leaseTerms)
    ensures ValidBook(Cast(id, input, now))
  {
    CastValidText(id, input, now);
    CastValidOffer(id, input, now);
  }

  lemma CastValidText(id: Id, input: BookInput, now: int)
    requires Castable(input)
    requires !Blank(input.isbn.value) && !Blank(input.title.value) && !Blank(input.author.value)
    requires input.description.value != ""
    ensures ValidText(Cast(id, input, now))
  {
    TrimNonBlank(input.isbn.value);
    TrimNonBlank(input.title.value);
    TrimNonBlank(input.author.value);
  }

  lemma CastValidOffer(id: Id, input: BookInput, now: int)
    requires Castable(input)
    requires input.rating.Some? ==> 0.0 <= input.rating.value <= 5.0
    requires SaleListing(input.listingType) ==> input.salePrice.Some?
    requires LeaseListing(input.listingType) ==> input.perDay.Some? && Filled(input.leaseTerms)
    ensures ValidOffer(Cast(id, input, now))
  {
    var l := ParseListingType(input.listingType.value).value;
    assert OffersSale(l) <==> SaleListing(input.listingType);
    assert OffersLease(l) <==> LeaseListing(input.listingType);
  }

  /** The input that writes back every field of a stored book. */
  function ToInput(b: Book): BookInput
  {
    BookInput(
      Some(b.isbn), Some(b.title), Some(b.author), Some(GenreName(b.genre)), b.publisher,
      Some(b.uploader), Some(UploaderTypeName(b.uploaderType)), Some(b.description),
      Some(b.rating), Some(b.totalRatings), Some(StatusName(b.status)),
      Some(ListingTypeName(b.listingType)), b.price.sale, b.price.lease.perDay,
      Some(b.price.lease.minDuration), b.price.lease.maxDuration, b.leaseTerms, Some(b.createdAt))
  }

  /** The names a stored book writes back parse to its own enumeration values. */
  lemma NamesParse(b: Book)
    ensures ParseGenre(GenreName(b.genre)) == Some(b.genre)
    ensures ParseUploaderType(UploaderTypeName(b.uploaderType)) == Some(b.uploaderType)
    ensures ParseStatus(StatusName(b.status)) == Some(b.status)
    ensures ParseListingType(ListingTypeName(b.listingType)) == Some(b.listingType)
  {
    GenreNameParses(b.genre);
    match b.uploaderType
    case UserUploader =>
    case PublisherUploader =>
    match b.status
    case Available =>
    case Rented =>
    case Sold =>
    match b.listingType
    case Sale =>
    case Lease =>
    case Both =>
  }

  /** Every path of a valid book's own fields passes. */
  lemma ToInputPasses(b: Book)
    requires ValidBook(b)
    ensures forall p :: !PathFails(ToInput(b), p)
  {
    var input := ToInput(b);
    TrimEmptyIffBlank(b.isbn);
    TrimEmptyIffBlank(b.title);
    TrimEmptyIffBlank(b.author);
    NamesParse(b);
    assert SaleListing(input.listingType) <==> OffersSale(b.listingType);
    assert LeaseListing(input.listingType) <==> OffersLease(b.listingType);
    forall p ensures !PathFails(input, p) { }
  }

  /** Casting a valid book's own fields rebuilds the book. */
  lemma ToInputCasts(b: Book, now: int)
    requires ValidText(b) && b.currentTransaction.None? && b.rentalInfo.None?
    ensures Castable(ToInput(b)) && Cast(b.id, ToInput(b), now) == b
  {
    NamesParse(b);
  }

  /** Every valid book (not yet part of a transaction) is exactly what `Book.create` builds from
      its own fields: the schema's validation and defaults accept it and change nothing. */
  lemma CreateBookRoundTrip(b: Book, now: int)
    requires ValidBook(b) && b.currentTransaction.None? && b.rentalInfo.None?
    ensures CreateBook(b.id, ToInput(b), now) == Success(b)
  {
    ToInputPasses(b);
    ToInputCasts(b, now);
  }
}
