/** The book store's REST controller: the id-format check, the choice of
    status code for each handler, the pagination arithmetic of the listing,
    and the effect of create, update and delete on the collection. The
    database is a map from object id to book; the filtering and sorting the
    database performs for a listing is a parameter (the matching books in
    the requested order). */
module BookController {
  import opened Common

  /** A stored document. The creation and update timestamps are not modelled. */
  datatype Book = Book(id: string, title: string, author: string, description: string, year: int)

  /** The JSON answer: status code, `success`, `message` and, for the
      handlers that return one, the book in `data`. */
  datatype BookReply = BookReply(status: int, success: bool, message: string, data: Option<Book>)

  // ---------------------------------------------------------------------
  // Object ids
  // ---------------------------------------------------------------------

  predicate IsHexDigit(c: char) {
    '0' <= c <= '9' || 'a' <= c <= 'f' || 'A' <= c <= 'F'
  }

  /** The route's test `/^[0-9a-fA-F]{24}$/`: exactly 24 hexadecimal digits. */
  predicate IsObjectIdFormat(id: string) {
    |id| == 24 && forall i :: 0 <= i < |id| ==> IsHexDigit(id[i])
  }

  function LowerHex(c: char): (d: char)
    ensures IsHexDigit(c) <==> IsHexDigit(d)
    ensures !('A' <= d <= 'F')
  {
    if 'A' <= c <= 'F' then (c as int + 32) as char else c
  }

  /** Two characters are equal up to the case of a hexadecimal letter. */
  predicate SameHexLetterIgnoringCase(c: char, d: char) {
    || c == d
    || ('A' <= c <= 'F' && d as int == c as int + 32)
    || ('A' <= d <= 'F' && c as int == d as int + 32)
  }

  /** Two strings differ at most in the case of their hexadecimal letters. */
  predicate SameIgnoringHexCase(a: string, b: string) {
    |a| == |b| && forall i :: 0 <= i < |a| ==> SameHexLetterIgnoringCase(a[i], b[i])
  }

  /** The text of the object id a well-formed id string stands for: an
      object id is 12 bytes, printed in lower-case hexadecimal, so two
      strings that differ only in the case of their letters name the same
      document. */
  function Canonical(id: string): (k: string)
    ensures SameIgnoringHexCase(id, k)
    ensures forall i :: 0 <= i < |k| ==> !('A' <= k[i] <= 'F')
    ensures IsObjectIdFormat(k) <==> IsObjectIdFormat(id)
  {
    seq(|id|, i requires 0 <= i < |id| => LowerHex(id[i]))
  }

  /** Two id strings name the same object id exactly when they differ only
      in the case of their hexadecimal letters. */
  lemma CanonicalIdentifies(a: string, b: string)
    ensures Canonical(a) == Canonical(b) <==> SameIgnoringHexCase(a, b)
  {
    if Canonical(a) == Canonical(b) {
      forall i | 0 <= i < |a| ensures SameHexLetterIgnoringCase(a[i], b[i]) {
        assert LowerHex(a[i]) == Canonical(a)[i] == Canonical(b)[i] == LowerHex(b[i]);
      }
    }
    if SameIgnoringHexCase(a, b) {
      forall i | 0 <= i < |a| ensures Canonical(a)[i] == Canonical(b)[i] {
        assert SameHexLetterIgnoringCase(a[i], b[i]);
      }
    }
  }

  /** A canonical id passes the route's test exactly when the original does,
      and canonicalising again changes nothing. */
  lemma CanonicalFacts(id: string)
    ensures IsObjectIdFormat(Canonical(id)) <==> IsObjectIdFormat(id)
    ensures Canonical(Canonical(id)) == Canonical(id)
  {
    var k := Canonical(id);
    if IsObjectIdFormat(k) {
      forall i | 0 <= i < |id| ensures IsHexDigit(id[i]) {
        assert IsHexDigit(k[i]);
      }
    }
    assert forall i :: 0 <= i < |k| ==> LowerHex(k[i]) == k[i];
  }

  /** The stored document an id string names, if any. */
  function FindById(books: map<string, Book>, id: string): (r: Option<Book>)
    ensures r.Some? <==> Canonical(id) in books
    ensures r.Some? ==> r.value == books[Canonical(id)]
  {
    var key := Canonical(id);
    if key in books then Some(books[key]) else None
  }

  /** An id as the database generates it: 24 lower-case hexadecimal digits. */
  predicate IsStoredId(k: string) {
    IsObjectIdFormat(k) && Canonical(k) == k
  }

  /** Every document sits under its own id, which the database generated. */
  ghost predicate KeyedById(books: map<string, Book>) {
    forall k :: k in books ==> books[k].id == k && IsStoredId(k)
  }

  // ---------------------------------------------------------------------
  // Request bodies and the effect of each handler
  // ---------------------------------------------------------------------

  /** The body of a creation request. A missing author, description or year
      is None. */
  datatype CreateRequest = CreateRequest(title: string, author: Option<string>,
                                         description: Option<string>, year: Option<int>)

  /** The body of an update request; only the fields it carries are set. */
  datatype UpdateRequest = UpdateRequest(title: Option<string>, author: Option<string>,
                                         description: Option<string>, year: Option<int>)

  /** A string field passes the schema's `required` validator: present and
      not the empty string. */
  predicate RequiredString(f: Option<string>) {
    f.Some? && f.value != ""
  }

  /** Some stored book already has this title. */
  predicate TitleTaken(books: map<string, Book>, title: string) {
    exists k :: k in books && books[k].title == title
  }

  /** `title`, `author`, `description` and `year` are all falsy: absent, the
      empty string, or the number 0. */
  predicate NothingToUpdate(req: UpdateRequest) {
    (req.title.None? || req.title.value == "")
    && (req.author.None? || req.author.value == "")
    && (req.description.None? || req.description.value == "")
    && (req.year.None? || req.year.value == 0)
  }

  /** An update the validators reject: a provided string field is empty. A
      year of 0 passes `required`, which only refuses a missing number. */
  predicate UpdateBreaksSchema(req: UpdateRequest) {
    (req.title.Some? && req.title.value == "")
    || (req.author.Some? && req.author.value == "")
    || (req.description.Some? && req.description.value == "")
  }

  /** `$set` of the provided fields. */
  function ApplyUpdate(b: Book, req: UpdateRequest): Book
  {
    Book(b.id,
         if req.title.Some? then req.title.value else b.title,
         if req.author.Some? then req.author.value else b.author,
         if req.description.Some? then req.description.value else b.description,
         if req.year.Some? then req.year.value else b.year)
  }

  /** Every field the update provides already holds that value in `b`. */
  predicate AlreadyApplied(b: Book, req: UpdateRequest) {
    && (req.title.None? || req.title.value == b.title)
    && (req.author.None? || req.author.value == b.author)
    && (req.description.None? || req.description.value == b.description)
    && (req.year.None? || req.year.value == b.year)
  }

  /** `$set` keeps the id, leaves the provided fields holding the provided
      values, is idempotent, and changes a book exactly when some provided
      field differs from what the book holds. */
  lemma ApplyUpdateFacts(b: Book, req: UpdateRequest)
    ensures ApplyUpdate(b, req).id == b.id
    ensures AlreadyApplied(ApplyUpdate(b, req), req)
    ensures ApplyUpdate(ApplyUpdate(b, req), req) == ApplyUpdate(b, req)
    ensures ApplyUpdate(b, req) == b <==> AlreadyApplied(b, req)
  {
  }

  function InvalidId(): BookReply { BookReply(400, false, "Invalid book ID format.", None) }
  function NotFound(): BookReply { BookReply(404, false, "Book not found.", None) }

  /** getBookById. */
  function GetOutcome(books: map<string, Book>, id: string): (r: BookReply)
    ensures r.status == 400 <==> !IsObjectIdFormat(id)
    ensures r.status == 404 <==> IsObjectIdFormat(id) && Canonical(id) !in books
    ensures r.status == 200 <==> IsObjectIdFormat(id) && Canonical(id) in books
    ensures r.success <==> r.status == 200
    ensures r.data.Some? <==> r.status == 200
    ensures r.status == 200 ==> r.data == Some(books[Canonical(id)])
  {
    if !IsObjectIdFormat(id) then InvalidId()
    else match FindById(books, id)
      case None => NotFound()
      case Some(b) => BookReply(200, true, "Book retrieved successfully.", Some(b))
  }

  /** createBook: the reply and the collection afterwards. `freshId` is the
      object id the database assigns to the new document. */
  function CreateOutcome(books: map<string, Book>, req: CreateRequest, freshId: string): (r: (BookReply, map<string, Book>))
    ensures r.0.status == 409 <==> TitleTaken(books, req.title)
    ensures r.0.status == 201 <==>
              && !TitleTaken(books, req.title)
              && req.title != "" && RequiredString(req.author) && RequiredString(req.description)
              && req.year.Some? && freshId !in books
    ensures r.0.status in {201, 409, 500}
    ensures r.0.status != 201 ==> r.1 == books
    ensures r.0.status == 201 ==>
              && r.1 == books[freshId := Book(freshId, req.title, req.author.value, req.description.value, req.year.value)]
              && r.0.data == Some(r.1[freshId])
  {
    if TitleTaken(books, req.title) then
      (BookReply(409, false, "A book with this title already exists.", None), books)
    else if req.title == "" || !RequiredString(req.author) || !RequiredString(req.description)
            || req.year.None? || freshId in books then
      (BookReply(500, false, "An error occurred while creating the book.", None), books)
    else
      var book := Book(freshId, req.title, req.author.value, req.description.value, req.year.value);
      (BookReply(201, true, "Book created successfully.", Some(book)), books[freshId := book])
  }

  /** updateBook: the reply and the collection afterwards. */
  function UpdateOutcome(books: map<string, Book>, id: string, req: UpdateRequest): (r: (BookReply, map<string, Book>))
    ensures r.0.status == 400 <==> !IsObjectIdFormat(id) || (Canonical(id) in books && NothingToUpdate(req))
    ensures r.0.status == 404 <==> IsObjectIdFormat(id) && Canonical(id) !in books
    ensures r.0.status == 500 <==>
              IsObjectIdFormat(id) && Canonical(id) in books && !NothingToUpdate(req) && UpdateBreaksSchema(req)
    ensures r.0.status == 200 <==>
              IsObjectIdFormat(id) && Canonical(id) in books && !NothingToUpdate(req) && !UpdateBreaksSchema(req)
    ensures r.0.status != 200 ==> r.1 == books
    ensures r.0.status == 200 ==>
              && r.1 == books[Canonical(id) := ApplyUpdate(books[Canonical(id)], req)]
              && r.0.data == Some(r.1[Canonical(id)])
  {
    if !IsObjectIdFormat(id) then (InvalidId(), books)
    else match FindById(books, id)
      case None => (NotFound(), books)
      case Some(b) =>
        if NothingToUpdate(req) then
          (BookReply(400, false, "No fields provided to update.", None), books)
        else if UpdateBreaksSchema(req) then
          (BookReply(500, false, "An error occurred while updating the book.", None), books)
        else
          var updated := ApplyUpdate(b, req);
          (BookReply(200, true, "Book updated successfully.", Some(updated)), books[Canonical(id) := updated])
  }

  /** deleteBook: the reply and the collection afterwards. */
  function DeleteOutcome(books: map<string, Book>, id: string): (r: (BookReply, map<string, Book>))
    ensures r.0.status == 400 <==> !IsObjectIdFormat(id)
    ensures r.0.status == 404 <==> IsObjectIdFormat(id) && Canonical(id) !in books
    ensures r.0.status == 200 <==> IsObjectIdFormat(id) && Canonical(id) in books
    ensures r.0.status != 200 ==> r.1 == books
    ensures r.0.status == 200 ==> r.1 == books - {Canonical(id)}
    ensures r.0.data == None
  {
    if !IsObjectIdFormat(id) then (InvalidId(), books)
    else if Canonical(id) !in books then (NotFound(), books)
    else (BookReply(200, true, "Book deleted successfully.", None), books - {Canonical(id)})
  }

  /** The collection behind the controller. */
  class BookStore {
    var books: map<string, Book>

    ghost predicate Valid()
      reads this
    {
      KeyedById(books)
    }

    constructor ()
      ensures Valid() && books == map[]
    {
      books := map[];
    }

    method GetBookById(id: string) returns (reply: BookReply)
      requires Valid()
      ensures reply == GetOutcome(books, id)
      ensures reply.status == 200 ==> reply.data.value.id == Canonical(id)
    {
      if !IsObjectIdFormat(id) {
        return InvalidId();
      }
      var book := FindById(books, id);
      if book.None? {
        return NotFound();
      }
      reply := BookReply(200, true, "Book retrieved successfully.", Some(book.value));
    }

    method CreateBook(req: CreateRequest, freshId: string) returns (reply: BookReply)
      requires Valid() && IsStoredId(freshId)
      modifies this
      ensures Valid()
      ensures (reply, books) == CreateOutcome(old(books), req, freshId)
    {
      if TitleTaken(books, req.title) {
        return BookReply(409, false, "A book with this title already exists.", None);
      }
      if req.title == "" || !RequiredString(req.author) || !RequiredString(req.description)
         || req.year.None? || freshId in books {
        return BookReply(500, false, "An error occurred while creating the book.", None);
      }
      var newBook := Book(freshId, req.title, req.author.value, req.description.value, req.year.value);
      books := books[freshId := newBook];
      reply := BookReply(201, true, "Book created successfully.", Some(newBook));
    }

    method UpdateBook(id: string, req: UpdateRequest) returns (reply: BookReply)
      requires Valid()
      modifies this
      ensures Valid()
      ensures (reply, books) == UpdateOutcome(old(books), id, req)
    {
      if !IsObjectIdFormat(id) {
        return InvalidId();
      }
      var book := FindById(books, id);
      if book.None? {
        return NotFound();
      }
      if NothingToUpdate(req) {
        return BookReply(400, false, "No fields provided to update.", None);
      }
      if UpdateBreaksSchema(req) {
        return BookReply(500, false, "An error occurred while updating the book.", None);
      }
      var updatedBook := ApplyUpdate(book.value, req);
      books := books[Canonical(id) := updatedBook];
      reply := BookReply(200, true, "Book updated successfully.", Some(updatedBook));
    }

    method DeleteBook(id: string) returns (reply: BookReply)
      requires Valid()
      modifies this
      ensures Valid()
      ensures (reply, books) == DeleteOutcome(old(books), id)
    {
      if !IsObjectIdFormat(id) {
        return InvalidId();
      }
      var book := FindById(books, id);
      if book.None? {
        return NotFound();
      }
      books := books - {Canonical(id)};
      reply := BookReply(200, true, "Book deleted successfully.", None);
    }
  }

  // ---------------------------------------------------------------------
  // Properties of the handlers
  // ---------------------------------------------------------------------

  /** Ids that differ only in the case of their letters get the same answer. */
  lemma GetIgnoresCase(books: map<string, Book>, id1: string, id2: string)
    requires Canonical(id1) == Canonical(id2)
    ensures GetOutcome(books, id1) == GetOutcome(books, id2)
  {
    CanonicalFacts(id1);
    CanonicalFacts(id2);
  }

  /** The handlers keep every document under its own id. */
  lemma HandlersKeepKeyedById(books: map<string, Book>, id: string, cr: CreateRequest, freshId: string, ur: UpdateRequest)
    requires KeyedById(books) && IsStoredId(freshId)
    ensures KeyedById(CreateOutcome(books, cr, freshId).1)
    ensures KeyedById(UpdateOutcome(books, id, ur).1)
    ensures KeyedById(DeleteOutcome(books, id).1)
  {
  }

  /** Every stored book is found by its own id, in any letter case. */
  lemma StoredBooksReachable(books: map<string, Book>, k: string, id: string)
    requires KeyedById(books) && k in books
    requires SameIgnoringHexCase(id, books[k].id)
    ensures GetOutcome(books, id) == BookReply(200, true, "Book retrieved successfully.", Some(books[k]))
  {
    CanonicalIdentifies(id, k);
    CanonicalFacts(id);
  }

  /** A created book can be read back under its id, and no other document
      changed. */
  lemma CreateThenGet(books: map<string, Book>, req: CreateRequest, freshId: string)
    requires IsStoredId(freshId)
    requires CreateOutcome(books, req, freshId).0.status == 201
    ensures var after := CreateOutcome(books, req, freshId).1;
            && GetOutcome(after, freshId).status == 200
            && GetOutcome(after, freshId).data == CreateOutcome(books, req, freshId).0.data
            && forall k :: k in books ==> k in after && after[k] == books[k]
  {
  }

  /** Creation keeps titles unique: a second book with a taken title is
      refused with 409, and the collection is unchanged. */
  lemma CreateTwiceConflicts(books: map<string, Book>, req: CreateRequest, id1: string, id2: string)
    requires CreateOutcome(books, req, id1).0.status == 201
    ensures var after := CreateOutcome(books, req, id1).1;
            CreateOutcome(after, req, id2) == (BookReply(409, false, "A book with this title already exists.", None), after)
  {
    var after := CreateOutcome(books, req, id1).1;
    assert after[id1].title == req.title;
  }

  /** A deleted book is gone: reading or deleting it again answers 404. */
  lemma DeleteThenGet(books: map<string, Book>, id: string)
    requires DeleteOutcome(books, id).0.status == 200
    ensures GetOutcome(DeleteOutcome(books, id).1, id).status == 404
    ensures DeleteOutcome(DeleteOutcome(books, id).1, id).0.status == 404
  {
  }

  /** Deleting removes exactly one document. */
  lemma DeleteRemovesOne(books: map<string, Book>, id: string)
    requires DeleteOutcome(books, id).0.status == 200
    ensures |DeleteOutcome(books, id).1| == |books| - 1
    ensures forall k :: k in books && k != Canonical(id) ==> k in DeleteOutcome(books, id).1
  {
  }

  /** An accepted update is seen by a later read, keeps the id, and applying
      the same body twice gives the same document as once. */
  lemma UpdateThenGet(books: map<string, Book>, id: string, req: UpdateRequest)
    requires UpdateOutcome(books, id, req).0.status == 200
    ensures var after := UpdateOutcome(books, id, req).1;
            && GetOutcome(after, id).data == UpdateOutcome(books, id, req).0.data
            && after.Keys == books.Keys
            && UpdateOutcome(after, id, req).1 == after
  {
    var key := Canonical(id);
    var after := UpdateOutcome(books, id, req).1;
    var b := ApplyUpdate(books[key], req);
    assert ApplyUpdate(b, req) == b;
  }

  /** Updates do not check titles: an update can give a book the title of
      another, which creation would have refused. */
  lemma UpdateCanDuplicateTitle()
    ensures var a := Book("aaaaaaaaaaaaaaaaaaaaaaaa", "Dune", "Herbert", "sf", 1965);
            var b := Book("bbbbbbbbbbbbbbbbbbbbbbbb", "Emma", "Austen", "novel", 1815);
            var books := map[a.id := a, b.id := b];
            var req := UpdateRequest(Some("Dune"), None, None, None);
            var r := UpdateOutcome(books, b.id, req);
            && r.0.status == 200
            && r.1[a.id].title == r.1[b.id].title
  {
    var id := "bbbbbbbbbbbbbbbbbbbbbbbb";
    assert IsObjectIdFormat(id);
    assert Canonical(id) == id;
  }

  // ---------------------------------------------------------------------
  // getAllBooks
  // ---------------------------------------------------------------------

  /** The query string, its values already read as numbers. An absent
      parameter is None. */
  datatype ListQuery = ListQuery(page: Option<int>, limit: Option<int>, sortBy: Option<string>, order: Option<string>)

  datatype Pagination = Pagination(totalBooks: nat, currentPage: int, totalPages: Option<int>)

  datatype ListReply = ListReply(status: int, success: bool, message: string, data: seq<Book>, pagination: Option<Pagination>)

  function PageOf(q: ListQuery): int { if q.page.Some? then q.page.value else 1 }
  function LimitOf(q: ListQuery): int { if q.limit.Some? then q.limit.value else 10 }

  /** The sort direction: ascending exactly when `order` is "asc", which is
      also the default. */
  function SortDirection(q: ListQuery): (d: int)
    ensures d == 1 || d == -1
    ensures d == 1 <==> q.order.None? || q.order.value == "asc"
  {
    var order := if q.order.Some? then q.order.value else "asc";
    if order == "asc" then 1 else -1
  }

  /** The number of documents skipped: `(page - 1) * limit`. */
  function Skip(q: ListQuery): int {
    (PageOf(q) - 1) * LimitOf(q)
  }

  /** `Math.ceil(totalBooks / limit)`. A limit of 0 divides by zero, giving
      Infinity or NaN, which JSON writes as null (None). */
  function TotalPages(total: nat, limit: int): (r: Option<int>)
    ensures r.None? <==> limit == 0
    ensures limit > 0 ==> r.value >= 0 && (r.value - 1) * limit < total <= r.value * limit
    ensures limit < 0 ==> r.value <= 0 && r.value * limit <= total < (r.value - 1) * limit
  {
    if limit == 0 then None
    else if limit > 0 then Some((total + limit - 1) / limit)
    else Some(-(total / -limit))
  }

  /** The documents the cursor returns after skipping: a limit of 0 means
      no limit and a negative limit is taken by its absolute value. */
  function Window(ordered: seq<Book>, skip: nat, limit: int): (r: seq<Book>)
    ensures skip >= |ordered| ==> r == []
    ensures skip < |ordered| ==> skip + |r| <= |ordered|
    ensures skip < |ordered| ==> r == ordered[skip..skip + |r|]
    ensures limit != 0 ==> |r| <= if limit > 0 then limit else -limit
    ensures limit == 0 ==> |r| == if skip < |ordered| then |ordered| - skip else 0
    ensures skip < |ordered| && limit != 0 ==>
              var n := if limit > 0 then limit else -limit;
              |r| == if n < |ordered| - skip then n else |ordered| - skip
  {
    if skip >= |ordered| then []
    else
      var rest := ordered[skip..];
      var n := if limit > 0 then limit else -limit;
      if limit == 0 || n >= |rest| then rest else rest[..n]
  }

  /** getAllBooks, given the documents that match the filter in the order
      the sort option gives. A negative skip makes the database refuse the
      query, which the handler answers with 500. */
  function ListOutcome(q: ListQuery, ordered: seq<Book>): (r: ListReply)
    ensures r.status in {200, 404, 500}
    ensures r.status == 500 <==> Skip(q) < 0
    ensures r.status == 404 <==> Skip(q) >= 0 && Window(ordered, Skip(q), LimitOf(q)) == []
    ensures r.status == 200 ==>
              && r.data == Window(ordered, Skip(q), LimitOf(q))
              && Skip(q) + |r.data| <= |ordered|
              && r.data == ordered[Skip(q)..Skip(q) + |r.data|]
              && r.pagination == Some(Pagination(|ordered|, PageOf(q), TotalPages(|ordered|, LimitOf(q))))
    ensures r.success <==> r.status == 200
  {
    var skip := Skip(q);
    if skip < 0 then
      ListReply(500, false, "An error occurred while retrieving books.", [], None)
    else
      var books := Window(ordered, skip, LimitOf(q));
      if books == [] then ListReply(404, false, "No books found.", [], None)
      else
        ListReply(200, true, "Books retrieved successfully.", books,
                  Some(Pagination(|ordered|, PageOf(q), TotalPages(|ordered|, LimitOf(q)))))
  }

  lemma MulMonotone(a: int, b: int, n: int)
    requires n > 0 && a <= b
    ensures a * n <= b * n
  {
    assert b * n - a * n == (b - a) * n;
  }

  /** With a positive limit, a page that answers 200 is numbered between 1
      and the reported number of pages. */
  lemma AnsweredPageInRange(q: ListQuery, ordered: seq<Book>)
    requires LimitOf(q) > 0
    requires ListOutcome(q, ordered).status == 200
    ensures 1 <= PageOf(q) <= TotalPages(|ordered|, LimitOf(q)).value
  {
    var limit := LimitOf(q);
    var page := PageOf(q);
    var tp := TotalPages(|ordered|, limit).value;
    assert 0 <= (page - 1) * limit < |ordered| <= tp * limit;
    if page < 1 {
      MulMonotone(page - 1, -1, limit);
    }
    if page > tp {
      MulMonotone(tp, page - 1, limit);
    }
  }

  /** With a positive limit, the document at position i is on page
      i / limit + 1, at offset i % limit. */
  lemma EveryBookOnItsPage(ordered: seq<Book>, limit: int, i: int, sortBy: Option<string>, order: Option<string>)
    requires limit > 0 && 0 <= i < |ordered|
    ensures var q := ListQuery(Some(i / limit + 1), Some(limit), sortBy, order);
            var r := ListOutcome(q, ordered);
            r.status == 200 && i % limit < |r.data| && r.data[i % limit] == ordered[i]
  {
    var q := ListQuery(Some(i / limit + 1), Some(limit), sortBy, order);
    assert Skip(q) == (i / limit) * limit;
    assert Skip(q) + i % limit == i;
    var w := Window(ordered, Skip(q), limit);
    assert |w| > i % limit;
  }

  /** The defaults: the first ten matching documents. */
  lemma DefaultListing(ordered: seq<Book>)
    requires |ordered| > 0
    ensures var r := ListOutcome(ListQuery(None, None, None, None), ordered);
            && r.status == 200
            && r.data == (if |ordered| <= 10 then ordered else ordered[..10])
            && r.pagination.value.currentPage == 1
  {
  }
}
