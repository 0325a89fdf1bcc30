/** The catalogue side of backend1/controllers/bookController.js: adding one book or a batch
    (stamped with the caller as uploader), and the filter and sort that `getAllBooks` builds
    from the query string. The unique index on `isbn` (backend/models/Book.js) decides which
    inserts the database refuses. */
module BookController {
  import opened Common
  import opened Text
  import opened BookSchema
  import opened Store

  /** The authenticated caller. */
  datatype Caller = Caller(id: Id, role: string)

  predicate IsPublisher(c: Caller) { c.role == "publisher" }

  // ---------------------------------------------------------------- adding books

  /** `{ ...bookData, uploader, uploaderType, publisher }`: the caller becomes the uploader;
      a publisher is also the publisher, anyone else keeps the publisher the body names. */
  function Stamp(input: BookInput, c: Caller): (r: BookInput)
    ensures r.uploader == Some(c.id)
    ensures r.uploaderType == Some(if IsPublisher(c) then "Publisher" else "User")
    ensures r.publisher == (if IsPublisher(c) then Some(c.id) else input.publisher)
    ensures r.isbn == input.isbn && r.title == input.title && r.listingType == input.listingType
  {
    var kind := if IsPublisher(c) then "Publisher" else "User";
    input.(uploader := Some(c.id), uploaderType := Some(kind),
           publisher := if kind == "Publisher" then Some(c.id) else input.publisher)
  }

  /** Some stored book already has this isbn. */
  predicate IsbnTaken(books: map<Id, Book>, isbn: string)
  {
    isbn in Isbns(books)
  }

  function Isbns(books: map<Id, Book>): (r: set<string>)
    ensures forall k :: k in books ==> books[k].isbn in r
  {
    set k | k in books :: books[k].isbn
  }

  /** The unique index on `isbn`. */
  predicate IsbnsUnique(books: map<Id, Book>)
  {
    forall j, k :: j in books && k in books && j != k ==> books[j].isbn != books[k].isbn
  }

  /** What `addBook` responds and what the database holds afterwards. `body` is `None` when
      `bookData` is not valid JSON. `Book.create` validates first; the insert is then refused
      when the isbn is taken. */
  function AddBookSpec(s: State, body: Option<BookInput>, c: Caller, now: int): (out: (Result<Book>, State))
    ensures body.None? ==> out == (Failure(AppError(400, "Invalid book data format")), s)
    ensures out.0.Failure? ==> out.1 == s
    ensures body.Some? ==>
              var made := CreateBook(s.nextId, Stamp(body.value, c), now);
              && (made.Failure? ==> out.0 == made)
              && (made.Success? && IsbnTaken(s.books, made.value.isbn) ==> out.0 == Failure(DuplicateKey("isbn")))
              && (out.0.Success? <==> made.Success? && !IsbnTaken(s.books, made.value.isbn))
    ensures out.0.Success? ==> && out.0.value.id == s.nextId
                               && out.1 == s.(books := s.books[s.nextId := out.0.value], nextId := s.nextId + 1)
  {
    if body.None? then (Failure(AppError(400, "Invalid book data format")), s)
    else
      var made := CreateBook(s.nextId, Stamp(body.value, c), now);
      if made.Failure? then (made, s)
      else if IsbnTaken(s.books, made.value.isbn) then (Failure(DuplicateKey("isbn")), s)
      else (made, s.(books := s.books[s.nextId := made.value], nextId := s.nextId + 1))
  }

  /** The stored book names the caller as uploader, is a Publisher upload exactly when the caller
      is a publisher (whatever the body says), and names the caller as publisher in that case,
      otherwise the body's publisher. */
  lemma AddBookStamps(s: State, body: Option<BookInput>, c: Caller, now: int)
    requires AddBookSpec(s, body, c, now).0.Success?
    ensures var b := AddBookSpec(s, body, c, now).0.value;
            && b.uploader == c.id
            && (b.uploaderType == PublisherUploader <==> IsPublisher(c))
            && b.publisher == (if IsPublisher(c) then Some(c.id) else body.value.publisher)
            && AddBookSpec(s, body, c, now).1.books[b.id] == b
  {
    var b := AddBookSpec(s, body, c, now).0.value;
    CreatedBook(s.nextId, Stamp(body.value, c), now);
    assert Some(UploaderTypeName(b.uploaderType)) == Stamp(body.value, c).uploaderType;
  }

  /** Adding a book keeps the store's invariants and the isbn index unique. */
  lemma AddBookKeepsValid(s: State, body: Option<BookInput>, c: Caller, now: int)
    requires Valid(s) && IsbnsUnique(s.books)
    ensures Valid(AddBookSpec(s, body, c, now).1) && IsbnsUnique(AddBookSpec(s, body, c, now).1.books)
  {
    var out := AddBookSpec(s, body, c, now);
    if out.0.Success? {
      CreatedBook(s.nextId, Stamp(body.value, c), now);
      InsertFreshKeepsValid(s, out.0.value);
    }
  }

  /** Storing a valid book under the counter, with an isbn no stored book has, keeps the
      invariants and the isbn index unique. */
  lemma InsertFreshKeepsValid(s: State, b: Book)
    requires Valid(s) && IsbnsUnique(s.books)
    requires b.id == s.nextId && ValidBook(b) && !IsbnTaken(s.books, b.isbn)
    ensures var t := s.(books := s.books[s.nextId := b], nextId := s.nextId + 1);
            Valid(t) && IsbnsUnique(t.books)
  {
    var t := s.(books := s.books[s.nextId := b], nextId := s.nextId + 1);
    assert BooksValid(t.books);
    assert IdsBelow(t);
    forall j, k | j in t.books && k in t.books && j != k
      ensures t.books[j].isbn != t.books[k].isbn
    {
      if j != b.id && k != b.id {
        assert t.books[j] == s.books[j] && t.books[k] == s.books[k];
      } else if j == b.id {
        assert s.books[k].isbn != b.isbn;
      } else {
        assert s.books[j].isbn != b.isbn;
      }
    }
  }

  method AddBook(db: Db, body: Option<BookInput>, c: Caller, now: int) returns (r: Result<Book>)
    modifies db
    ensures (r, db.Snapshot()) == AddBookSpec(old(db.Snapshot()), body, c, now)
  {
    var s := db.Snapshot();
    if body.None? {
      r := Failure(AppError(400, "Invalid book data format"));
      assert AddBookSpec(s, body, c, now) == (r, s);
      return;
    }
    r := CreateBook(s.nextId, Stamp(body.value, c), now);
    if r.Failure? {
      assert AddBookSpec(s, body, c, now) == (r, s);
      return;
    }
    if IsbnTaken(s.books, r.value.isbn) {
      r := Failure(DuplicateKey("isbn"));
      assert AddBookSpec(s, body, c, now) == (r, s);
      return;
    }
    ghost var t := s.(books := s.books[s.nextId := r.value], nextId := s.nextId + 1);
    ghost var out := AddBookSpec(s, body, c, now);
    assert out.0.Success?;
    assert out.1 == t;
    db.books := s.books[s.nextId := r.value];
    db.nextId := s.nextId + 1;
    assert db.Snapshot() == t;
  }

  // ---------------------------------------------------------------- bulk upload

  /** The documents `insertMany` casts and validates, the i-th taking id `first + i`. */
  function BulkDocs(inputs: seq<BookInput>, c: Caller, first: nat, now: int): (rs: seq<Result<Book>>)
    ensures |rs| == |inputs|
    ensures forall i :: 0 <= i < |inputs| ==> rs[i] == BulkDoc(inputs[i], c, first + i, now)
  {
    Numbered(inputs, first, (input, id) => BulkDoc(input, c, id, now))
  }

  /** `xs.map((x, i) => f(x, first + i))`. */
  function Numbered<T, U>(xs: seq<T>, first: nat, f: (T, nat) -> U): (rs: seq<U>)
    ensures |rs| == |xs|
    ensures forall i :: 0 <= i < |xs| ==> rs[i] == f(xs[i], first + i)
  {
    seq(|xs|, i requires 0 <= i < |xs| => f(xs[i], first + i))
  }

  /** One document of the batch: the input stamped with the caller, validated under `id`. */
  function BulkDoc(input: BookInput, c: Caller, id: Id, now: int): Result<Book>
  {
    CreateBook(id, Stamp(input, c), now)
  }

  /** `insertMany` of validated documents, in order: each is inserted unless its isbn is taken,
      and the first refusal stops the batch; what was inserted before it stays. */
  function InsertOrdered(books: map<Id, Book>, docs: seq<Book>): (out: (Option<Error>, map<Id, Book>))
    ensures out.0.Some? ==> out.0.value == DuplicateKey("isbn")
    decreases |docs|
  {
    if docs == [] then (None, books)
    else if IsbnTaken(books, docs[0].isbn) then (Some(DuplicateKey("isbn")), books)
    else InsertOrdered(books[docs[0].id := docs[0]], docs[1..])
  }

  /** The documents carry distinct ids, none of them already stored. */
  predicate FreshIds(books: map<Id, Book>, docs: seq<Book>)
  {
    && (forall i :: 0 <= i < |docs| ==> docs[i].id !in books)
    && (forall i, j :: 0 <= i < j < |docs| ==> docs[i].id != docs[j].id)
  }

  /** Inserting a document whose isbn is not taken keeps the isbn index unique. */
  lemma InsertOneKeepsIsbns(books: map<Id, Book>, d: Book)
    requires IsbnsUnique(books) && !IsbnTaken(books, d.isbn)
    ensures IsbnsUnique(books[d.id := d])
  {
    var next := books[d.id := d];
    forall j, k | j in next && k in next && j != k ensures next[j].isbn != next[k].isbn {
      if j == d.id {
        assert next[k] == books[k];
      } else if k == d.id {
        assert next[j] == books[j];
      }
    }
  }

  /** Once the first document is stored, the rest still carry fresh, distinct ids. */
  lemma FreshIdsTail(books: map<Id, Book>, docs: seq<Book>)
    requires docs != [] && FreshIds(books, docs)
    ensures FreshIds(books[docs[0].id := docs[0]], docs[1..])
  {
    var next := books[docs[0].id := docs[0]];
    forall i | 0 <= i < |docs[1..]| ensures docs[1..][i].id !in next {
      assert docs[1..][i] == docs[i + 1];
    }
    forall i, j | 0 <= i < j < |docs[1..]| ensures docs[1..][i].id != docs[1..][j].id {
      assert docs[1..][i] == docs[i + 1] && docs[1..][j] == docs[j + 1];
    }
  }

  /** An ordered insert keeps every stored book, adds only documents of the batch, all of them
      when it succeeds, and keeps the isbn index unique. */
  lemma {:induction false} InsertOrderedSpec(books: map<Id, Book>, docs: seq<Book>)
    requires IsbnsUnique(books) && FreshIds(books, docs)
    ensures var out := InsertOrdered(books, docs);
            && IsbnsUnique(out.1)
            && (forall k :: k in books ==> k in out.1 && out.1[k] == books[k])
            && (forall k :: k in out.1 && k !in books ==> exists i :: 0 <= i < |docs| && docs[i] == out.1[k] && docs[i].id == k)
            && (out.0.None? ==> forall i :: 0 <= i < |docs| ==> docs[i].id in out.1 && out.1[docs[i].id] == docs[i])
    decreases |docs|
  {
    if docs != [] && !IsbnTaken(books, docs[0].isbn) {
      var d := docs[0];
      var next := books[d.id := d];
      InsertOneKeepsIsbns(books, d);
      FreshIdsTail(books, docs);
      InsertOrderedSpec(next, docs[1..]);
      var out := InsertOrdered(books, docs);
      assert out == InsertOrdered(next, docs[1..]);
      forall k | k in out.1 && k !in books
        ensures exists i :: 0 <= i < |docs| && docs[i] == out.1[k] && docs[i].id == k
      {
        if k == d.id {
          assert docs[0] == out.1[k];
        } else {
          var i :| 0 <= i < |docs[1..]| && docs[1..][i] == out.1[k] && docs[1..][i].id == k;
          assert docs[i + 1] == docs[1..][i];
        }
      }
      if out.0.None? {
        forall i | 0 <= i < |docs| ensures docs[i].id in out.1 && out.1[docs[i].id] == docs[i] {
          if i > 0 {
            assert docs[i] == docs[1..][i - 1];
          }
        }
      }
    }
  }

  /** `out` holds the stored books and exactly the first `i` documents of the batch, each under
      its own id, and none of the documents after them. */
  predicate StoppedAt(books: map<Id, Book>, out: map<Id, Book>, docs: seq<Book>, i: int)
  {
    && 0 <= i <= |docs|
    && (forall k :: k in books ==> k in out && out[k] == books[k])
    && (forall j :: 0 <= j < i ==> docs[j].id in out && out[docs[j].id] == docs[j])
    && (forall j :: i <= j < |docs| ==> docs[j].id !in out)
    && (forall k :: k in out ==> k in books || exists j :: 0 <= j < i && docs[j].id == k)
  }

  /** Before the first document, the stored books are all there is. */
  lemma StoppedAtStart(books: map<Id, Book>, docs: seq<Book>)
    requires FreshIds(books, docs)
    ensures StoppedAt(books, books, docs, 0)
  {
  }

  /** Storing the first document and then the first `i` of the rest stores the first `i + 1`. */
  lemma StoppedAtStep(books: map<Id, Book>, docs: seq<Book>, out: map<Id, Book>, i: int)
    requires docs != [] && docs[0].id !in books
    requires StoppedAt(books[docs[0].id := docs[0]], out, docs[1..], i)
    ensures StoppedAt(books, out, docs, i + 1)
  {
    var next := books[docs[0].id := docs[0]];
    forall j | 0 <= j < i + 1 ensures docs[j].id in out && out[docs[j].id] == docs[j] {
      if j > 0 {
        assert docs[j] == docs[1..][j - 1];
      }
    }
    forall j | i + 1 <= j < |docs| ensures docs[j].id !in out {
      assert docs[j] == docs[1..][j - 1];
    }
    forall k | k in out ensures k in books || exists j :: 0 <= j < i + 1 && docs[j].id == k {
      if k !in next {
        var j' :| 0 <= j' < i && docs[1..][j'].id == k;
        assert docs[j' + 1] == docs[1..][j'];
      } else if k == docs[0].id {
        assert docs[0].id == k;
      }
    }
  }

  /** The ordered insert `out` ended after the first `i` documents: it stored exactly those,
      was refused exactly when `i` falls short of the end, and then because document `i`'s isbn
      is among the books stored by then. */
  predicate StopsAt(books: map<Id, Book>, docs: seq<Book>, out: (Option<Error>, map<Id, Book>), i: int)
  {
    && StoppedAt(books, out.1, docs, i)
    && (out.0.None? <==> i == |docs|)
    && (i < |docs| ==> IsbnTaken(out.1, docs[i].isbn))
  }

  /** Stopping after `i` documents of the rest is stopping after `i + 1` of the whole batch. */
  lemma StopsAtStep(books: map<Id, Book>, docs: seq<Book>, out: (Option<Error>, map<Id, Book>), i: int)
    requires docs != [] && docs[0].id !in books
    requires StopsAt(books[docs[0].id := docs[0]], docs[1..], out, i)
    ensures StopsAt(books, docs, out, i + 1)
  {
    StoppedAtStep(books, docs, out.1, i);
    if i + 1 < |docs| {
      assert docs[i + 1] == docs[1..][i];
    }
  }

  /** An ordered insert stops at the first document whose isbn the books stored so far (the
      earlier ones and the documents before it) already hold, and keeps what it inserted before;
      it is refused exactly when it stops short of the end. */
  lemma {:induction false} InsertOrderedStops(books: map<Id, Book>, docs: seq<Book>)
    requires FreshIds(books, docs)
    ensures exists i :: StopsAt(books, docs, InsertOrdered(books, docs), i)
    decreases |docs|
  {
    var out := InsertOrdered(books, docs);
    if docs == [] || IsbnTaken(books, docs[0].isbn) {
      StoppedAtStart(books, docs);
      assert StopsAt(books, docs, out, 0);
    } else {
      var next := books[docs[0].id := docs[0]];
      FreshIdsTail(books, docs);
      InsertOrderedStops(next, docs[1..]);
      assert out == InsertOrdered(next, docs[1..]);
      var i :| StopsAt(next, docs[1..], out, i);
      StopsAtStep(books, docs, out, i);
    }
  }

  /** What `bulkAddBooks` responds and what the database holds afterwards. `books` is `None`
      when the body has no `books` array. Every document is validated before any is inserted. */
  function BulkAddSpec(s: State, c: Caller, books: Option<seq<BookInput>>, now: int): (out: (Result<seq<Book>>, State))
    ensures !IsPublisher(c) ==> out == (Failure(AppError(403, "Only publishers can use bulk upload")), s)
    ensures IsPublisher(c) && books.None? ==>
              out == (Failure(RuntimeError("Cannot read properties of undefined (reading 'map')")), s)
    ensures IsPublisher(c) && books.Some? && AllOf(BulkDocs(books.value, c, s.nextId, now)).Failure? ==>
              out == (Failure(AllOf(BulkDocs(books.value, c, s.nextId, now)).error), s)
    ensures out.1 != s ==> && IsPublisher(c) && books.Some?
                           && AllOf(BulkDocs(books.value, c, s.nextId, now)).Success?
    ensures out.0.Success? ==> |out.0.value| == |books.value|
  {
    if !IsPublisher(c) then (Failure(AppError(403, "Only publishers can use bulk upload")), s)
    else if books.None? then (Failure(RuntimeError("Cannot read properties of undefined (reading 'map')")), s)
    else
      var all := AllOf(BulkDocs(books.value, c, s.nextId, now));
      if all.Failure? then (Failure(all.error), s)
      else
        var ins := InsertOrdered(s.books, all.value);
        var t := s.(books := ins.1, nextId := s.nextId + |all.value|);
        if ins.0.Some? then (Failure(ins.0.value), t) else (Success(all.value), t)
  }

  /** A successful batch stores every book of it, each stamped with the publisher as uploader and
      publisher, under consecutive new ids, leaving the stored books as they were. */
  lemma BulkAddStamps(s: State, c: Caller, books: Option<seq<BookInput>>, now: int)
    requires IsbnsUnique(s.books) && IdsBelow(s)
    requires BulkAddSpec(s, c, books, now).0.Success?
    ensures var out := BulkAddSpec(s, c, books, now);
            && (forall i :: 0 <= i < |out.0.value| ==>
                  && out.0.value[i].id == s.nextId + i
                  && out.0.value[i].uploader == c.id && out.0.value[i].uploaderType == PublisherUploader
                  && out.0.value[i].publisher == Some(c.id)
                  && out.0.value[i].id in out.1.books && out.1.books[out.0.value[i].id] == out.0.value[i])
            && (forall k :: k in s.books ==> k in out.1.books && out.1.books[k] == s.books[k])
  {
    var rs := BulkDocs(books.value, c, s.nextId, now);
    var docs := AllOf(rs).value;
    forall i | 0 <= i < |docs|
      ensures && docs[i].id == s.nextId + i && docs[i].uploader == c.id
              && docs[i].uploaderType == PublisherUploader && docs[i].publisher == Some(c.id)
    {
      assert rs[i] == Success(docs[i]);
      CreatedBook(s.nextId + i, Stamp(books.value[i], c), now);
      assert Some(UploaderTypeName(docs[i].uploaderType)) == Stamp(books.value[i], c).uploaderType;
    }
    InsertBatchStoresAll(s, docs);
  }

  /** A batch the ordered insert takes whole is stored under its ids, next to the books that
      were there. */
  lemma InsertBatchStoresAll(s: State, docs: seq<Book>)
    requires IsbnsUnique(s.books) && IdsBelow(s)
    requires forall i :: 0 <= i < |docs| ==> docs[i].id == s.nextId + i
    requires InsertOrdered(s.books, docs).0.None?
    ensures var stored := InsertOrdered(s.books, docs).1;
            && (forall i :: 0 <= i < |docs| ==> docs[i].id in stored && stored[docs[i].id] == docs[i])
            && (forall k :: k in s.books ==> k in stored && stored[k] == s.books[k])
  {
    BulkIdsFresh(s, docs);
    InsertOrderedSpec(s.books, docs);
  }

  /** Documents numbered from the counter have fresh ids. */
  lemma BulkIdsFresh(s: State, docs: seq<Book>)
    requires IdsBelow(s)
    requires forall i :: 0 <= i < |docs| ==> docs[i].id == s.nextId + i
    ensures FreshIds(s.books, docs)
  {
  }

  /** A validated batch moves the counter past all of it and stores the books as the ordered
      insert leaves them: the documents before the first taken isbn, and none from it on. The
      response is the duplicate-key error exactly when it stopped short. */
  lemma BulkAddPartial(s: State, c: Caller, books: Option<seq<BookInput>>, now: int)
    requires IdsBelow(s)
    requires IsPublisher(c) && books.Some? && AllOf(BulkDocs(books.value, c, s.nextId, now)).Success?
    ensures var docs := AllOf(BulkDocs(books.value, c, s.nextId, now)).value;
            var out := BulkAddSpec(s, c, books, now);
            && out.1 == s.(books := out.1.books, nextId := s.nextId + |docs|)
            && exists i :: && StoppedAt(s.books, out.1.books, docs, i)
                           && (out.0.Success? <==> i == |docs|)
                           && (i < |docs| ==> out.0 == Failure(DuplicateKey("isbn")) && IsbnTaken(out.1.books, docs[i].isbn))
  {
    var docs := AllOf(BulkDocs(books.value, c, s.nextId, now)).value;
    BulkDocsNumbered(s, c, books.value, now);
    BulkIdsFresh(s, docs);
    InsertOrderedStops(s.books, docs);
    BulkAddInserts(s, c, books, now);
  }

  /** Past the checks, the batch's outcome is the ordered insert's. */
  lemma BulkAddInserts(s: State, c: Caller, books: Option<seq<BookInput>>, now: int)
    requires IsPublisher(c) && books.Some? && AllOf(BulkDocs(books.value, c, s.nextId, now)).Success?
    ensures var docs := AllOf(BulkDocs(books.value, c, s.nextId, now)).value;
            var ins := InsertOrdered(s.books, docs);
            var out := BulkAddSpec(s, c, books, now);
            && out.1 == s.(books := ins.1, nextId := s.nextId + |docs|)
            && (ins.0.Some? ==> out.0 == Failure(ins.0.value))
            && (ins.0.None? ==> out.0 == Success(docs))
  {
  }

  /** The documents of a validated batch are numbered from the counter. */
  lemma BulkDocsNumbered(s: State, c: Caller, books: seq<BookInput>, now: int)
    requires AllOf(BulkDocs(books, c, s.nextId, now)).Success?
    ensures var docs := AllOf(BulkDocs(books, c, s.nextId, now)).value;
            forall i :: 0 <= i < |docs| ==> docs[i].id == s.nextId + i
  {
    var rs := BulkDocs(books, c, s.nextId, now);
    var docs := AllOf(rs).value;
    forall i | 0 <= i < |docs| ensures docs[i].id == s.nextId + i {
      assert rs[i] == Success(docs[i]);
      CreatedBook(s.nextId + i, Stamp(books[i], c), now);
    }
  }

  /** A batch keeps the store's invariants and the isbn index unique, whether it is inserted
      whole, in part (a taken isbn stops it) or not at all. */
  lemma BulkAddKeepsValid(s: State, c: Caller, books: Option<seq<BookInput>>, now: int)
    requires Valid(s) && IsbnsUnique(s.books)
    ensures Valid(BulkAddSpec(s, c, books, now).1) && IsbnsUnique(BulkAddSpec(s, c, books, now).1.books)
  {
    var out := BulkAddSpec(s, c, books, now);
    if out.1 != s {
      var rs := BulkDocs(books.value, c, s.nextId, now);
      var docs := AllOf(rs).value;
      forall i | 0 <= i < |docs| ensures docs[i].id == s.nextId + i && ValidBook(docs[i]) {
        assert rs[i] == Success(docs[i]);
        CreatedBook(s.nextId + i, Stamp(books.value[i], c), now);
      }
      InsertBatchKeepsValid(s, docs);
    }
  }

  /** Inserting validated documents numbered from the counter keeps the invariants and the
      isbn index unique, however far the ordered insert gets. */
  lemma InsertBatchKeepsValid(s: State, docs: seq<Book>)
    requires Valid(s) && IsbnsUnique(s.books)
    requires forall i :: 0 <= i < |docs| ==> docs[i].id == s.nextId + i && ValidBook(docs[i])
    ensures var t := s.(books := InsertOrdered(s.books, docs).1, nextId := s.nextId + |docs|);
            Valid(t) && IsbnsUnique(t.books)
  {
    BulkIdsFresh(s, docs);
    InsertOrderedSpec(s.books, docs);
    var t := s.(books := InsertOrdered(s.books, docs).1, nextId := s.nextId + |docs|);
    forall k | k in t.books ensures t.books[k].id == k && ValidBook(t.books[k]) && k < t.nextId {
      if k !in s.books {
        var i :| 0 <= i < |docs| && docs[i] == t.books[k] && docs[i].id == k;
      }
    }
    assert BooksValid(t.books);
    assert IdsBelow(t);
  }

  method BulkAddBooks(db: Db, c: Caller, books: Option<seq<BookInput>>, now: int) returns (r: Result<seq<Book>>)
    modifies db
    ensures (r, db.Snapshot()) == BulkAddSpec(old(db.Snapshot()), c, books, now)
  {
    var s := db.Snapshot();
    ghost var out := BulkAddSpec(s, c, books, now);
    if !IsPublisher(c) {
      return Failure(AppError(403, "Only publishers can use bulk upload"));
    }
    if books.None? {
      return Failure(RuntimeError("Cannot read properties of undefined (reading 'map')"));
    }
    var all := AllOf(BulkDocs(books.value, c, s.nextId, now));
    if all.Failure? {
      return Failure(all.error);
    }
    var ins := InsertOrdered(s.books, all.value);
    ghost var t := s.(books := ins.1, nextId := s.nextId + |all.value|);
    assert out.1 == t;
    r := if ins.0.Some? then Failure(ins.0.value) else Success(all.value);
    assert out.0 == r;
    db.books := ins.1;
    db.nextId := s.nextId + |all.value|;
    assert db.Snapshot() == t;
  }

  // ---------------------------------------------------------------- catalogue query

  /** The query-string parameters `getAllBooks` reads (`None` when absent). */
  datatype CatalogQuery = CatalogQuery(
    search: Option<string>, genre: Option<string>, listingType: Option<string>, sortBy: Option<string>)

  /** One condition of the `$and` the filter builds up. */
  datatype Cond =
    | StatusAvailable
    | AnyFieldContains(term: string)
    | GenreIs(name: string)
    | ListingIn(kinds: set<ListingType>)

  /** `$regex` with option `i`, the term taken literally: a case-insensitive substring. */
  predicate ContainsIgnoringCase(field: string, term: string)
  {
    Contains(ToLower(field), ToLower(term))
  }

  predicate Satisfies(b: Book, c: Cond)
  {
    match c
    case StatusAvailable => b.status == Available
    case AnyFieldContains(term) =>
      || ContainsIgnoringCase(b.title, term) || ContainsIgnoringCase(b.author, term)
      || ContainsIgnoringCase(b.isbn, term) || ContainsIgnoringCase(b.description, term)
    case GenreIs(name) => GenreName(b.genre) == name
    case ListingIn(kinds) => b.listingType in kinds
  }

  /** A book matches a filter when it satisfies every condition of it. */
  predicate MatchesAll(b: Book, f: seq<Cond>)
  {
    forall i :: 0 <= i < |f| ==> Satisfies(b, f[i])
  }

  /** A parameter as the query reads it: `if (p) { const v = p.trim(); if (v) ... }`. */
  function Param(p: Option<string>): (r: Option<string>)
    ensures r.Some? ==> r.value != "" && Trim(r.value) == r.value
    ensures r.None? <==> p.None? || Blank(p.value)
  {
    if p.Some? && p.value != "" && Trim(p.value) != "" then
      TrimIdempotent(p.value);
      TrimEmptyIffBlank(p.value);
      Some(Trim(p.value))
    else if p.Some? then
      TrimEmptyIffBlank(p.value);
      None
    else None
  }

  /** A genre or listing-type parameter that filters: present, not blank and not `all`. */
  function Narrowing(p: Option<string>): Option<string>
  {
    if Param(p).Some? && Param(p).value != "all" then Param(p) else None
  }

  /** The listing types a listing-type parameter stands for: `sale` and `lease` include `both`,
      any other word means exactly `both`. */
  function ListingKinds(word: string): (kinds: set<ListingType>)
    ensures Both in kinds
    ensures word == "sale" ==> forall l :: l in kinds <==> OffersSale(l)
    ensures word == "lease" ==> forall l :: l in kinds <==> OffersLease(l)
    ensures word != "sale" && word != "lease" ==> kinds == {Both}
  {
    if word == "sale" then {Sale, Both} else if word == "lease" then {Lease, Both} else {Both}
  }

  /** Which books the catalogue shows for a query, condition by condition. */
  predicate Wanted(q: CatalogQuery, b: Book)
  {
    b.status == Available && SearchWanted(q, b) && GenreWanted(q, b) && ListingWanted(q, b)
  }

  predicate SearchWanted(q: CatalogQuery, b: Book)
  {
    Param(q.search).Some? ==>
      exists field :: field in [b.title, b.author, b.isbn, b.description] && ContainsIgnoringCase(field, Param(q.search).value)
  }

  predicate GenreWanted(q: CatalogQuery, b: Book)
  {
    Narrowing(q.genre).Some? ==> GenreName(b.genre) == Narrowing(q.genre).value
  }

  predicate ListingWanted(q: CatalogQuery, b: Book)
  {
    Narrowing(q.listingType).Some? ==>
      var word := Narrowing(q.listingType).value;
      if word == "sale" then OffersSale(b.listingType)
      else if word == "lease" then OffersLease(b.listingType)
      else b.listingType == Both
  }

  /** The condition each step of the filter adds, if any. */
  function SearchStep(q: CatalogQuery): seq<Cond>
  {
    if Param(q.search).Some? then [AnyFieldContains(Param(q.search).value)] else []
  }

  function GenreStep(q: CatalogQuery): seq<Cond>
  {
    if Narrowing(q.genre).Some? then [GenreIs(Narrowing(q.genre).value)] else []
  }

  function ListingStep(q: CatalogQuery): seq<Cond>
  {
    if Narrowing(q.listingType).Some? then [ListingIn(ListingKinds(Narrowing(q.listingType).value))] else []
  }

  lemma MatchesConcat(b: Book, f: seq<Cond>, g: seq<Cond>)
    ensures MatchesAll(b, f + g) <==> MatchesAll(b, f) && MatchesAll(b, g)
  {
    if MatchesAll(b, f) && MatchesAll(b, g) {
      forall i | 0 <= i < |f + g| ensures Satisfies(b, (f + g)[i]) {
        if i >= |f| { assert (f + g)[i] == g[i - |f|]; }
      }
    }
    if MatchesAll(b, f + g) {
      forall i | 0 <= i < |g| ensures Satisfies(b, g[i]) {
        assert (f + g)[i + |f|] == g[i];
      }
      forall i | 0 <= i < |f| ensures Satisfies(b, f[i]) {
        assert (f + g)[i] == f[i];
      }
    }
  }

  lemma MatchesOne(b: Book, c: Cond)
    ensures MatchesAll(b, [c]) <==> Satisfies(b, c)
  {
    assert [c][0] == c;
  }

  /** The search condition holds exactly when one of the four fields contains the term. */
  lemma SearchHit(b: Book, t: string)
    ensures Satisfies(b, AnyFieldContains(t)) <==>
            exists field :: field in [b.title, b.author, b.isbn, b.description] && ContainsIgnoringCase(field, t)
  {
    var fields := [b.title, b.author, b.isbn, b.description];
    if Satisfies(b, AnyFieldContains(t)) {
      if ContainsIgnoringCase(b.title, t) { assert fields[0] in fields; }
      else if ContainsIgnoringCase(b.author, t) { assert fields[1] in fields; }
      else if ContainsIgnoringCase(b.isbn, t) { assert fields[2] in fields; }
      else { assert fields[3] in fields; }
    }
  }

  lemma SearchStepMatches(q: CatalogQuery, b: Book)
    ensures MatchesAll(b, SearchStep(q)) <==> SearchWanted(q, b)
  {
    if Param(q.search).Some? {
      MatchesOne(b, AnyFieldContains(Param(q.search).value));
      SearchHit(b, Param(q.search).value);
    }
  }

  lemma GenreStepMatches(q: CatalogQuery, b: Book)
    ensures MatchesAll(b, GenreStep(q)) <==> GenreWanted(q, b)
  {
    if Narrowing(q.genre).Some? {
      MatchesOne(b, GenreIs(Narrowing(q.genre).value));
    }
  }

  lemma ListingStepMatches(q: CatalogQuery, b: Book)
    ensures MatchesAll(b, ListingStep(q)) <==> ListingWanted(q, b)
  {
    if Narrowing(q.listingType).Some? {
      MatchesOne(b, ListingIn(ListingKinds(Narrowing(q.listingType).value)));
    }
  }

  /** Build the filter step by step, as `getAllBooks` reassigns `queryObj`. */
  method BuildFilter(q: CatalogQuery) returns (f: seq<Cond>)
    ensures forall b :: MatchesAll(b, f) <==> Wanted(q, b)
    ensures 1 <= |f| <= 4 && f[0] == StatusAvailable
  {
    f := [StatusAvailable];
    if q.search.Some? && q.search.value != "" {
      var term := Trim(q.search.value);
      if term != "" {
        f := f + [AnyFieldContains(term)];
      }
    }
    assert f == [StatusAvailable] + SearchStep(q);
    var f1 := f;
    if q.genre.Some? && q.genre.value != "" {
      var genre := Trim(q.genre.value);
      if genre != "" && genre != "all" {
        f := f + [GenreIs(genre)];
      }
    }
    assert f == f1 + GenreStep(q);
    var f2 := f;
    if q.listingType.Some? && q.listingType.value != "" {
      var listingType := Trim(q.listingType.value);
      if listingType != "" && listingType != "all" {
        f := f + [ListingIn(ListingKinds(listingType))];
      }
    }
    assert f == f2 + ListingStep(q);
    forall b ensures MatchesAll(b, f) <==> Wanted(q, b) {
      FilterMeaning(q, b);
    }
  }

  /** The filter built step by step holds of a book exactly when the book is wanted. */
  lemma FilterMeaning(q: CatalogQuery, b: Book)
    ensures MatchesAll(b, [StatusAvailable] + SearchStep(q) + GenreStep(q) + ListingStep(q)) <==> Wanted(q, b)
  {
    var f1 := [StatusAvailable] + SearchStep(q);
    var f2 := f1 + GenreStep(q);
    MatchesOne(b, StatusAvailable);
    SearchStepMatches(q, b);
    GenreStepMatches(q, b);
    ListingStepMatches(q, b);
    MatchesConcat(b, [StatusAvailable], SearchStep(q));
    MatchesConcat(b, f1, GenreStep(q));
    MatchesConcat(b, f2, ListingStep(q));
  }

  /** The ids of the books the catalogue shows. */
  function Catalog(books: map<Id, Book>, q: CatalogQuery): set<Id>
  {
    set k | k in books && Wanted(q, books[k])
  }

  /** `q2` asks for at least as much as `q1`: each parameter of `q1` that filters is also a
      parameter of `q2`, with the same value. */
  predicate Refines(q2: CatalogQuery, q1: CatalogQuery)
  {
    && (Param(q1.search).Some? ==> Param(q2.search) == Param(q1.search))
    && (Narrowing(q1.genre).Some? ==> Narrowing(q2.genre) == Narrowing(q1.genre))
    && (Narrowing(q1.listingType).Some? ==> Narrowing(q2.listingType) == Narrowing(q1.listingType))
  }

  /** The conditions are conjoined: adding a parameter never shows more books. */
  lemma MoreParametersFewerBooks(books: map<Id, Book>, q1: CatalogQuery, q2: CatalogQuery)
    requires Refines(q2, q1)
    ensures Catalog(books, q2) <= Catalog(books, q1)
  {
  }

  /** A blank parameter, and `all` for genre and listing type, filters nothing. */
  lemma AllFiltersNothing(books: map<Id, Book>, q: CatalogQuery)
    requires q.genre.Some? && Trim(q.genre.value) == "all"
    requires q.listingType.Some? && Trim(q.listingType.value) == "all"
    requires q.search.Some? && Blank(q.search.value)
    ensures Catalog(books, q) == set k | k in books && books[k].status == Available
  {
  }

  /** The catalogue shows only available books. */
  lemma CatalogOnlyAvailable(books: map<Id, Book>, q: CatalogQuery, k: Id)
    requires k in Catalog(books, q)
    ensures k in books && books[k].status == Available
  {
  }

  /** `getAllBooks`' filter: the stored books that match the filter it builds. */
  method GetAllBooks(db: Db, q: CatalogQuery) returns (ids: set<Id>, keys: seq<SortKey>)
    ensures ids == Catalog(db.books, q)
    ensures keys == SortSpec(q)
  {
    var f := BuildFilter(q);
    ids := set k | k in db.books && MatchesAll(db.books[k], f);
    keys := BuildSort(q);
  }

  // ---------------------------------------------------------------- sort

  /** One entry of the sort object: a path and 1 (ascending) or -1 (descending). */
  datatype SortKey = SortKey(path: string, direction: int)

  /** `req.query.sortBy?.trim() || 'date_desc'`. */
  function SortToken(q: CatalogQuery): (t: string)
    ensures t != ""
  {
    if q.sortBy.Some? && Trim(q.sortBy.value) != "" then Trim(q.sortBy.value) else "date_desc"
  }

  /** `const [field, order] = sortBy.split('_')`. */
  function SortField(q: CatalogQuery): string
  {
    Split(SortToken(q), '_')[0]
  }

  function SortOrder(q: CatalogQuery): Option<string>
  {
    var parts := Split(SortToken(q), '_');
    if |parts| > 1 then Some(parts[1]) else None
  }

  /** The sort object of `getAllBooks`. */
  function SortSpec(q: CatalogQuery): (keys: seq<SortKey>)
    ensures 1 <= |keys| <= 2
    ensures forall i :: 0 <= i < |keys| ==> keys[i].direction == keys[0].direction
    ensures keys[0].direction == 1 || keys[0].direction == -1
  {
    var dir := if SortOrder(q) == Some("desc") then -1 else 1;
    var field := SortField(q);
    if field == "date" && SortOrder(q) == Some("desc") then [SortKey("createdAt", -1)]
    else if field == "price" then
      [SortKey(if q.listingType == Some("lease") then "price.lease.perMonth" else "price.sale", dir)]
    else if field == "rating" then [SortKey("rating", dir), SortKey("totalRatings", dir)]
    else if field == "popularity" then [SortKey("totalRatings", dir), SortKey("rating", dir)]
    else [SortKey("createdAt", -1)]
  }

  /** Every field but price, rating and popularity sorts newest first, `date_asc` included. */
  lemma OtherFieldsNewestFirst(q: CatalogQuery)
    requires SortField(q) != "price" && SortField(q) != "rating" && SortField(q) != "popularity"
    ensures SortSpec(q) == [SortKey("createdAt", -1)]
  {
  }

  /** With no sort parameter (or a blank one) the newest books come first. */
  lemma DefaultNewestFirst(q: CatalogQuery)
    requires q.sortBy.None? || Trim(q.sortBy.value) == ""
    ensures SortSpec(q) == [SortKey("createdAt", -1)]
  {
    DateDescSplits();
  }

  lemma DateDescSplits()
    ensures Split("date_desc", '_') == ["date", "desc"]
  {
    assert "date_desc" == "date" + ['_'] + "desc";
    SplitAtFirst("date", "desc", '_');
    SplitNoSeparator("desc", '_');
    assert ["date"] + ["desc"] == ["date", "desc"];
  }

  /** For price, rating and popularity the keys descend exactly when the order token is `desc`. */
  lemma DirectionOnlyFromDesc(q: CatalogQuery)
    requires SortField(q) in {"price", "rating", "popularity"}
    ensures forall key :: key in SortSpec(q) ==> (key.direction == -1 <==> SortOrder(q) == Some("desc"))
  {
  }

  /** The price key reads the raw, untrimmed listing-type parameter, unlike the filter. */
  lemma PriceKeyFromRawListingType(q: CatalogQuery)
    requires SortField(q) == "price"
    ensures SortSpec(q)[0].path == "price.lease.perMonth" <==> q.listingType == Some("lease")
  {
  }

  /** Build the sort object as `getAllBooks` does: the default, then the `switch` on the field. */
  method BuildSort(q: CatalogQuery) returns (keys: seq<SortKey>)
    ensures keys == SortSpec(q)
  {
    var sortBy := if q.sortBy.Some? && Trim(q.sortBy.value) != "" then Trim(q.sortBy.value) else "date_desc";
    var parts := Split(sortBy, '_');
    var field := parts[0];
    var order := if |parts| > 1 then Some(parts[1]) else None;
    var sortOrder := if order == Some("desc") then -1 else 1;
    keys := [SortKey("createdAt", -1)];
    if field != "date" || order != Some("desc") {
      if field == "price" {
        keys := if q.listingType == Some("lease") then [SortKey("price.lease.perMonth", sortOrder)]
                else [SortKey("price.sale", sortOrder)];
      } else if field == "rating" {
        keys := [SortKey("rating", sortOrder), SortKey("totalRatings", sortOrder)];
      } else if field == "popularity" {
        keys := [SortKey("totalRatings", sortOrder), SortKey("rating", sortOrder)];
      }
    }
  }
}
