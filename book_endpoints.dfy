/**
 * The book routes of the REST namespace `bookshelf/v1`: the query built for
 * the list route, and the get, create, update and delete handlers over the
 * host's post store.
 */
module BookEndpoints {
  import opened Wrappers
  import opened Strings
  import opened Php
  import opened Host
  import opened Helpers

  // ---------------------------------------------------------------------------
  // GET /books: the query description
  // ---------------------------------------------------------------------------

  /** The list route's parameters after sanitising; None when not sent. */
  datatype ListParams = ListParams(
    perPage: Option<int>,
    page: Option<int>,
    genre: Option<string>,
    author: Option<string>,
    year: Option<int>,
    search: Option<string>,
    orderby: Option<string>,
    order: Option<string>)

  datatype QueryValue = TextValue(s: string) | IntValue(n: int)

  datatype TaxClause = TaxClause(taxonomy: string, field: string, terms: string)

  datatype MetaClause = MetaClause(key: string, value: QueryValue, compare: string)

  /** The arguments handed to the host's query engine. */
  datatype QueryArgs = QueryArgs(
    postType: string,
    postStatus: string,
    postsPerPage: int,
    paged: int,
    order: string,
    orderby: string,
    metaKey: Option<string>,
    taxQuery: Option<seq<TaxClause>>,
    metaQuery: Option<seq<MetaClause>>,
    search: Option<string>)

  /** `$x ?: $default` for a text parameter. */
  function TextOr(o: Option<string>, default: string): (r: string)
    ensures OptTruthy(o) ==> r == o.value
    ensures !OptTruthy(o) ==> r == default
  {
    if OptTruthy(o) then o.value else default
  }

  /** `$x ?: $default` for an integer parameter. */
  function IntOr(o: Option<int>, default: int): (r: int)
    ensures OptIntTruthy(o) ==> r == o.value
    ensures !OptIntTruthy(o) ==> r == default
  {
    if OptIntTruthy(o) then o.value else default
  }

  /**
   * The bounds the route's schema declares: per_page within [1, 100], page
   * at least 1, orderby and order from their enumerations. The host checks
   * them only for an argument without a `sanitize_callback`; every list
   * argument has one, so nothing enforces them (see SchemaNotEnforced).
   */
  predicate ListSchemaAccepts(p: ListParams) {
    && (p.perPage.Some? ==> 1 <= p.perPage.value <= 100)
    && (p.page.Some? ==> 1 <= p.page.value)
    && (p.orderby.Some? ==> p.orderby.value in {"date", "title", "author", "year"})
    && (p.order.Some? ==> p.order.value in {"ASC", "DESC"})
  }

  /** The clause the author filter adds. */
  function AuthorClause(author: string): MetaClause {
    MetaClause("author", TextValue(author), "LIKE")
  }

  /** The clause the year filter adds. */
  function YearClause(year: int): MetaClause {
    MetaClause("published_year", IntValue(year), "=")
  }

  /** The `switch ($orderby)`: the query's orderby and, when sorting by a meta field, its key. */
  function SortOrder(orderby: string): (r: (string, Option<string>))
    ensures orderby == "title" ==> r == ("title", None)
    ensures orderby == "author" ==> r == ("meta_value", Some("author"))
    ensures orderby == "year" ==> r == ("meta_value_num", Some("published_year"))
    ensures orderby !in {"title", "author", "year"} ==> r == ("date", None)
  {
    if orderby == "title" then ("title", None)
    else if orderby == "author" then ("meta_value", Some("author"))
    else if orderby == "year" then ("meta_value_num", Some("published_year"))
    else ("date", None)
  }

  /** The meta query clauses: the author filter first, then the year filter, each only when truthy. */
  function MetaFilters(author: Option<string>, year: Option<int>): (q: seq<MetaClause>)
    ensures |q| == (if OptTruthy(author) then 1 else 0) + (if OptIntTruthy(year) then 1 else 0)
    ensures OptTruthy(author) ==> q[0] == AuthorClause(author.value)
    ensures OptIntTruthy(year) ==> q[|q| - 1] == YearClause(year.value)
  {
    (if OptTruthy(author) then [AuthorClause(author.value)] else [])
    + (if OptIntTruthy(year) then [YearClause(year.value)] else [])
  }

  /** The query `bookshelf_get_books` builds from its parameters, field by field. */
  method BuildQueryArgs(p: ListParams) returns (args: QueryArgs)
    ensures args.postType == "book" && args.postStatus == "publish"
    ensures args.postsPerPage == IntOr(p.perPage, 10) && args.paged == IntOr(p.page, 1)
    ensures args.order == TextOr(p.order, "DESC")
    ensures (args.orderby, args.metaKey) == SortOrder(TextOr(p.orderby, "date"))
    ensures args.taxQuery.Some? <==> OptTruthy(p.genre)
    ensures args.taxQuery.Some? ==> args.taxQuery.value == [TaxClause("genre", "slug", p.genre.value)]
    ensures args.metaQuery.Some? <==> OptTruthy(p.author) || OptIntTruthy(p.year)
    ensures args.metaQuery.Some? ==> args.metaQuery.value == MetaFilters(p.author, p.year)
    ensures args.search.Some? <==> OptTruthy(p.search)
    ensures args.search.Some? ==> args.search.value == p.search.value
  {
    var perPage := IntOr(p.perPage, 10);
    var page := IntOr(p.page, 1);
    var order := TextOr(p.order, "DESC");
    var (orderby, metaKey) := SortOrder(TextOr(p.orderby, "date"));

    args := QueryArgs("book", "publish", perPage, page, order, orderby, metaKey, None, None, None);

    if OptTruthy(p.genre) {
      args := args.(taxQuery := Some([TaxClause("genre", "slug", p.genre.value)]));
    }

    var metaQuery := MetaFilters(p.author, p.year);
    if metaQuery != [] {
      args := args.(metaQuery := Some(metaQuery));
    }

    if OptTruthy(p.search) {
      args := args.(search := Some(p.search.value));
    }
  }

  /**
   * Were the declared bounds enforced, the query would ask for a page of 1
   * to 100 books, a page number of at least 1, and one of the four supported
   * orders.
   */
  lemma SchemaBoundsQuery(p: ListParams, args: QueryArgs)
    requires ListSchemaAccepts(p)
    requires args.postsPerPage == IntOr(p.perPage, 10) && args.paged == IntOr(p.page, 1)
    requires args.order == TextOr(p.order, "DESC")
    requires (args.orderby, args.metaKey) == SortOrder(TextOr(p.orderby, "date"))
    ensures 1 <= args.postsPerPage <= 100 && 1 <= args.paged
    ensures args.order in {"ASC", "DESC"}
    ensures args.orderby in {"date", "title", "meta_value", "meta_value_num"}
  {
  }

  /**
   * As registered, the declared bounds are not checked: any non-zero page
   * size reaches the query as it is (500 included), and so does any truthy
   * order, "foo" included.
   */
  lemma SchemaNotEnforced(p: ListParams, args: QueryArgs)
    requires args.postsPerPage == IntOr(p.perPage, 10) && args.paged == IntOr(p.page, 1)
    requires args.order == TextOr(p.order, "DESC")
    ensures p.perPage.Some? && p.perPage.value != 0 ==> args.postsPerPage == p.perPage.value
    ensures p.perPage == Some(500) ==> args.postsPerPage == 500 && !ListSchemaAccepts(p)
    ensures OptTruthy(p.order) ==> args.order == p.order.value
    ensures p.order == Some("foo") ==> args.order == "foo" && !ListSchemaAccepts(p)
  {
  }

  // ---------------------------------------------------------------------------
  // Responses
  // ---------------------------------------------------------------------------

  /** A `WP_Error`: machine-readable code, message and HTTP status. */
  datatype ErrorInfo = ErrorInfo(code: string, message: string, status: int)

  const BookNotFound := ErrorInfo("book_not_found", "Libro no encontrado", 404)
  const CreationFailed := ErrorInfo("book_creation_failed", "Error al crear el libro", 500)
  const UpdateFailed := ErrorInfo("book_update_failed", "Error al actualizar el libro", 500)
  const DeleteFailed := ErrorInfo("book_delete_failed", "Error al eliminar el libro", 500)

  /**
   * A handler's reply. NullPostResponse is what `bookshelf_format_book`
   * makes of a null post: an object whose fields are all null or false.
   */
  datatype Response =
    | BookResponse(book: FormattedBook)
    | DeletedResponse(deleted: bool, id: PostId)
    | NullPostResponse
    | ErrorResponse(error: ErrorInfo)

  /** The HTTP status of a reply: the error's status, otherwise 200. */
  function Status(r: Response): int {
    if r.ErrorResponse? then r.error.status else 200
  }

  predicate IsBookIn(posts: map<PostId, Post>, id: PostId) {
    id in posts && posts[id].postType == "book"
  }

  // ---------------------------------------------------------------------------
  // GET /books/{id}
  // ---------------------------------------------------------------------------

  /** `bookshelf_get_book`: the formatted book, or not-found for a missing or non-book post. */
  function GetBook(posts: map<PostId, Post>, terms: map<TermId, Term>, id: PostId): (r: Response)
    ensures r.BookResponse? || r.ErrorResponse?
    ensures r.ErrorResponse? <==> !IsBookIn(posts, id)
    ensures r.ErrorResponse? ==> r.error == BookNotFound && r.error.status == 404
    ensures r.BookResponse? ==> r.book.id == id && r.book == FormatBook(id, posts[id], TheTerms(posts[id], terms))
  {
    if !IsBookIn(posts, id) then ErrorResponse(BookNotFound)
    else BookResponse(FormatBook(id, posts[id], TheTerms(posts[id], terms)))
  }

  // ---------------------------------------------------------------------------
  // POST /books
  // ---------------------------------------------------------------------------

  /** The create route's parameters after sanitising; title and author are required by the route. */
  datatype CreateParams = CreateParams(
    title: string,
    content: Option<string>,
    author: string,
    publishedYear: Option<nat>,
    isbn: Option<string>,
    pages: Option<nat>,
    genres: Option<seq<TermId>>)

  /** The post `wp_insert_post` stores, before any meta is written. */
  function InsertedPost(p: CreateParams, userId: nat, now: string): Post {
    Post("book", "publish", p.title, TextOr(p.content, ""), "", userId, now, now, map[], [], None)
  }

  /** A text field as written by create: only when truthy. */
  function TruthyText(o: Option<string>): Option<string> {
    if OptTruthy(o) then o else None
  }

  /** An integer field as written by create: only when truthy, as decimal text. */
  function TruthyInt(o: Option<nat>): Option<string> {
    if OptIntTruthy(o) then Some(IntMeta(o.value)) else None
  }

  /** An integer field as written by update: whenever supplied, as decimal text. */
  function IntText(v: Option<nat>): Option<string> {
    if v.Some? then Some(IntMeta(v.value)) else None
  }

  /** The meta a created book ends up with: author always, the others only when truthy. */
  function CreatedMeta(p: CreateParams): map<string, string> {
    var m := map["author" := p.author];
    PutIfPresent(PutIfPresent(PutIfPresent(m,
      "published_year", TruthyInt(p.publishedYear)), "isbn", TruthyText(p.isbn)), "pages", TruthyInt(p.pages))
  }

  /** Genres are assigned only from a non-empty list, each id once. */
  function CreatedGenres(p: CreateParams): seq<TermId> {
    if p.genres.Some? && p.genres.value != [] then Unique(p.genres.value) else []
  }

  /** The stored book after a successful create. */
  function NewBook(p: CreateParams, userId: nat, now: string): Post {
    InsertedPost(p, userId, now).(meta := CreatedMeta(p), genres := CreatedGenres(p))
  }

  /**
   * What a created book reads back as: its title, the content or '' when the
   * content was falsy, the author always, and year, ISBN and pages only when
   * they were truthy (empty otherwise).
   */
  lemma NewBookReadsBack(p: CreateParams, userId: nat, now: string)
    ensures var b := NewBook(p, userId, now);
      && b.postType == "book" && b.status == "publish" && b.title == p.title && b.authorId == userId
      && b.content == (if OptTruthy(p.content) then p.content.value else "")
      && PostMeta(b, "author") == p.author
      && PostMeta(b, "published_year") == (if OptIntTruthy(p.publishedYear) then IntMeta(p.publishedYear.value) else "")
      && PostMeta(b, "isbn") == (if OptTruthy(p.isbn) then p.isbn.value else "")
      && PostMeta(b, "pages") == (if OptIntTruthy(p.pages) then IntMeta(p.pages.value) else "")
      && b.meta.Keys <= {"author", "published_year", "isbn", "pages"}
      && (b.genres != [] <==> p.genres.Some? && p.genres.value != [])
      && (p.genres.Some? ==> forall t :: t in b.genres <==> t in p.genres.value)
  {
    if p.genres.Some? && p.genres.value != [] {
      assert p.genres.value[0] in NewBook(p, userId, now).genres;
    }
  }

  /** The writes of a successful create: the post, its meta fields, then its genres. */
  method StoreNewBook(site: Site, p: CreateParams, userId: nat, now: string, newId: PostId)
    requires newId !in site.posts
    modifies site
    ensures site.terms == old(site.terms)
    ensures site.posts == old(site.posts)[newId := NewBook(p, userId, now)]
  {
    ghost var before := site.posts;
    site.InsertPost(newId, InsertedPost(p, userId, now));
    ghost var post := InsertedPost(p, userId, now);
    WriteMetaIfPresent(site, newId, "author", Some(p.author), before, post);
    post := post.(meta := post.meta["author" := p.author]);
    WriteMetaIfPresent(site, newId, "published_year", TruthyInt(p.publishedYear), before, post);
    post := post.(meta := PutIfPresent(post.meta, "published_year", TruthyInt(p.publishedYear)));
    WriteMetaIfPresent(site, newId, "isbn", TruthyText(p.isbn), before, post);
    post := post.(meta := PutIfPresent(post.meta, "isbn", TruthyText(p.isbn)));
    WriteMetaIfPresent(site, newId, "pages", TruthyInt(p.pages), before, post);
    post := post.(meta := PutIfPresent(post.meta, "pages", TruthyInt(p.pages)));
    if p.genres.Some? && p.genres.value != [] {
      WriteGenres(site, newId, p.genres.value, before, post);
      post := post.(genres := Unique(p.genres.value));
    }
    assert post == NewBook(p, userId, now);
  }

  /**
   * `bookshelf_create_book` as its error check intends it (with `$wp_error`
   * set, so that a failed insert is reported). The host picks the fresh id,
   * the current user and time, and whether the insert fails. On failure
   * nothing is stored and the reply is creation-failed with status 500; on
   * success exactly the new book is added, and the response is what a get of
   * the new id returns.
   */
  method CreateBook(site: Site, p: CreateParams, userId: nat, now: string, newId: PostId, insertFails: bool)
    returns (r: Response)
    requires newId !in site.posts
    modifies site
    ensures site.terms == old(site.terms)
    ensures insertFails ==> r == ErrorResponse(CreationFailed) && Status(r) == 500 && site.posts == old(site.posts)
    ensures !insertFails ==> site.posts == old(site.posts)[newId := NewBook(p, userId, now)]
    ensures !insertFails ==> r.BookResponse? && r == GetBook(site.posts, site.terms, newId)
  {
    if insertFails {
      return ErrorResponse(CreationFailed);
    }
    StoreNewBook(site, p, userId, now, newId);
    r := GetBook(site.posts, site.terms, newId);
  }

  /**
   * `bookshelf_create_book` as written. Called without `$wp_error`,
   * `wp_insert_post` returns 0 on failure, which `is_wp_error` does not
   * catch: the meta writes and the term assignment go to post 0, which the
   * host refuses, and the reply is the formatted null post with status 200.
   */
  method CreateBookAsWritten(site: Site, p: CreateParams, userId: nat, now: string, newId: PostId,
                             insertFails: bool)
    returns (r: Response)
    requires newId !in site.posts
    modifies site
    ensures site.terms == old(site.terms)
    ensures insertFails ==> r == NullPostResponse && Status(r) == 200 && site.posts == old(site.posts)
    ensures !insertFails ==> site.posts == old(site.posts)[newId := NewBook(p, userId, now)]
    ensures !insertFails ==> r.BookResponse? && r == GetBook(site.posts, site.terms, newId)
  {
    if insertFails {
      r := NullPostResponse;
    } else {
      StoreNewBook(site, p, userId, now, newId);
      r := GetBook(site.posts, site.terms, newId);
    }
  }

  // ---------------------------------------------------------------------------
  // PUT /books/{id}
  // ---------------------------------------------------------------------------

  /** The update route's parameters; None when the request does not carry the field. */
  datatype UpdateParams = UpdateParams(
    title: Option<string>,
    content: Option<string>,
    author: Option<string>,
    publishedYear: Option<nat>,
    isbn: Option<string>,
    pages: Option<nat>,
    genres: Option<seq<TermId>>)

  /** The meta writes of an update: each supplied field, in order. */
  function UpdatedMeta(meta: map<string, string>, p: UpdateParams): map<string, string> {
    PutIfPresent(PutIfPresent(PutIfPresent(PutIfPresent(meta,
      "author", p.author), "published_year", IntText(p.publishedYear)), "isbn", p.isbn), "pages", IntText(p.pages))
  }

  /** A post after the update's meta writes and genre assignment. */
  function WithUpdatedFields(b: Post, p: UpdateParams): Post {
    b.(meta := UpdatedMeta(b.meta, p),
       genres := if p.genres.Some? then Unique(p.genres.value) else b.genres)
  }

  /** The stored book after a successful partial update. */
  function UpdatedBook(b: Post, p: UpdateParams, now: string): Post {
    WithUpdatedFields(b.(title := p.title.GetOr(b.title), content := p.content.GetOr(b.content), modified := now), p)
  }

  /**
   * A partial update changes only the fields the request carries: each
   * supplied field reads back as supplied, every other field and every other
   * meta key keeps its old value.
   */
  lemma UpdateChangesOnlySupplied(b: Post, p: UpdateParams, now: string, key: string)
    ensures var u := UpdatedBook(b, p, now);
      && u.postType == b.postType && u.status == b.status && u.excerpt == b.excerpt
      && u.authorId == b.authorId && u.date == b.date && u.thumbnailUrl == b.thumbnailUrl
      && u.modified == now
      && u.title == (if p.title.Some? then p.title.value else b.title)
      && u.content == (if p.content.Some? then p.content.value else b.content)
      && u.genres == (if p.genres.Some? then Unique(p.genres.value) else b.genres)
      && PostMeta(u, "author") == (if p.author.Some? then p.author.value else PostMeta(b, "author"))
      && PostMeta(u, "published_year") ==
           (if p.publishedYear.Some? then IntMeta(p.publishedYear.value) else PostMeta(b, "published_year"))
      && PostMeta(u, "isbn") == (if p.isbn.Some? then p.isbn.value else PostMeta(b, "isbn"))
      && PostMeta(u, "pages") == (if p.pages.Some? then IntMeta(p.pages.value) else PostMeta(b, "pages"))
      && (key !in {"author", "published_year", "isbn", "pages"} ==>
            (key in u.meta <==> key in b.meta) && PostMeta(u, key) == PostMeta(b, key))
  {
  }

  /** Repeating the same update (at the same time) changes nothing more. */
  lemma UpdateIdempotent(b: Post, p: UpdateParams, now: string)
    ensures UpdatedBook(UpdatedBook(b, p, now), p, now) == UpdatedBook(b, p, now)
  {
    var u := UpdatedBook(b, p, now);
    assert u.meta == UpdatedMeta(b.meta, p);
    var m1 := PutIfPresent(u.meta, "author", p.author);
    assert m1 == u.meta by {
      if p.author.Some? {
        assert u.meta["author"] == p.author.value;
      }
    }
  }

  /**
   * The meta writes and the genre assignment of an update, applied to the
   * stored post `cur`.
   */
  method WriteUpdatedFields(site: Site, id: PostId, p: UpdateParams, ghost before: map<PostId, Post>, ghost cur: Post)
    requires site.posts == before[id := cur]
    modifies site
    ensures site.posts == before[id := WithUpdatedFields(cur, p)]
    ensures site.terms == old(site.terms)
  {
    ghost var post := cur;
    WriteMetaIfPresent(site, id, "author", p.author, before, post);
    post := post.(meta := PutIfPresent(post.meta, "author", p.author));
    WriteMetaIfPresent(site, id, "published_year", IntText(p.publishedYear), before, post);
    post := post.(meta := PutIfPresent(post.meta, "published_year", IntText(p.publishedYear)));
    WriteMetaIfPresent(site, id, "isbn", p.isbn, before, post);
    post := post.(meta := PutIfPresent(post.meta, "isbn", p.isbn));
    WriteMetaIfPresent(site, id, "pages", IntText(p.pages), before, post);
    post := post.(meta := PutIfPresent(post.meta, "pages", IntText(p.pages)));
    if p.genres.Some? {
      WriteGenres(site, id, p.genres.value, before, post);
      post := post.(genres := Unique(p.genres.value));
    }
    assert post == WithUpdatedFields(cur, p);
  }

  /**
   * `bookshelf_update_book` as its error check intends it (with `$wp_error`
   * set, so that a failed post update is reported). The host decides whether
   * `wp_update_post` fails. A missing or non-book id gives not-found and a
   * failed post update gives update-failed, both before anything is written;
   * otherwise only the book's supplied fields change and the response is
   * what a get returns.
   */
  method UpdateBook(site: Site, id: PostId, p: UpdateParams, now: string, updateFails: bool)
    returns (r: Response)
    modifies site
    ensures site.terms == old(site.terms)
    ensures !IsBookIn(old(site.posts), id) ==> r == ErrorResponse(BookNotFound) && site.posts == old(site.posts)
    ensures IsBookIn(old(site.posts), id) && updateFails ==>
              r == ErrorResponse(UpdateFailed) && Status(r) == 500 && site.posts == old(site.posts)
    ensures IsBookIn(old(site.posts), id) && !updateFails ==>
              && site.posts == old(site.posts)[id := UpdatedBook(old(site.posts)[id], p, now)]
              && r.BookResponse? && r == GetBook(site.posts, site.terms, id)
  {
    if !IsBookIn(site.posts, id) {
      return ErrorResponse(BookNotFound);
    }
    var post := site.posts[id];
    var postData := post.(modified := now);
    if p.title.Some? {
      postData := postData.(title := p.title.value);
    }
    if p.content.Some? {
      postData := postData.(content := p.content.value);
    }
    if updateFails {
      return ErrorResponse(UpdateFailed);
    }
    ghost var before := site.posts;
    site.ReplacePost(id, postData);
    WriteUpdatedFields(site, id, p, before, postData);
    r := GetBook(site.posts, site.terms, id);
  }

  /**
   * `bookshelf_update_book` as written. Called without `$wp_error`,
   * `wp_update_post` returns 0 on failure, which `is_wp_error` does not
   * catch: the title and content stay as they were, but every supplied meta
   * field and the genres are still written, and the reply is the book with
   * status 200.
   */
  method UpdateBookAsWritten(site: Site, id: PostId, p: UpdateParams, now: string, updateFails: bool)
    returns (r: Response)
    modifies site
    ensures site.terms == old(site.terms)
    ensures !IsBookIn(old(site.posts), id) ==> r == ErrorResponse(BookNotFound) && site.posts == old(site.posts)
    ensures IsBookIn(old(site.posts), id) && updateFails ==>
              && site.posts == old(site.posts)[id := WithUpdatedFields(old(site.posts)[id], p)]
              && r.BookResponse? && Status(r) == 200 && r == GetBook(site.posts, site.terms, id)
    ensures IsBookIn(old(site.posts), id) && !updateFails ==>
              && site.posts == old(site.posts)[id := UpdatedBook(old(site.posts)[id], p, now)]
              && r.BookResponse? && r == GetBook(site.posts, site.terms, id)
  {
    if !IsBookIn(site.posts, id) {
      return ErrorResponse(BookNotFound);
    }
    var post := site.posts[id];
    var postData := post.(modified := now);
    if p.title.Some? {
      postData := postData.(title := p.title.value);
    }
    if p.content.Some? {
      postData := postData.(content := p.content.value);
    }
    ghost var before := site.posts;
    if !updateFails {
      site.ReplacePost(id, postData);
    } else {
      postData := post;
    }
    assert site.posts == before[id := postData];
    WriteUpdatedFields(site, id, p, before, postData);
    r := GetBook(site.posts, site.terms, id);
  }

  /**
   * After a failed post update the handler as written still changes the
   * book: a supplied author that differs from the stored one is written,
   * while title, content and modification time keep their old values.
   */
  lemma FailedUpdateStillWrites(b: Post, p: UpdateParams)
    requires p.author.Some? && p.author.value != PostMeta(b, "author")
    ensures var w := WithUpdatedFields(b, p);
      && w != b && PostMeta(w, "author") == p.author.value
      && w.title == b.title && w.content == b.content && w.modified == b.modified
  {
    var w := WithUpdatedFields(b, p);
    var m1 := PutIfPresent(b.meta, "author", p.author);
    LookupPutIfPresent(b.meta, "author", p.author, "author");
    LookupPutIfPresent(m1, "published_year", IntText(p.publishedYear), "author");
    var m2 := PutIfPresent(m1, "published_year", IntText(p.publishedYear));
    LookupPutIfPresent(m2, "isbn", p.isbn, "author");
    var m3 := PutIfPresent(m2, "isbn", p.isbn);
    LookupPutIfPresent(m3, "pages", IntText(p.pages), "author");
    assert Lookup(w.meta, "author") == Some(p.author.value);
  }

  // ---------------------------------------------------------------------------
  // DELETE /books/{id}
  // ---------------------------------------------------------------------------

  /**
   * `bookshelf_delete_book`. The host decides whether `wp_delete_post`
   * fails. On success the book is gone and a later get gives not-found.
   */
  method DeleteBook(site: Site, id: PostId, deleteFails: bool) returns (r: Response)
    modifies site
    ensures site.terms == old(site.terms)
    ensures !IsBookIn(old(site.posts), id) ==> r == ErrorResponse(BookNotFound) && site.posts == old(site.posts)
    ensures IsBookIn(old(site.posts), id) && deleteFails ==>
              r == ErrorResponse(DeleteFailed) && site.posts == old(site.posts)
    ensures IsBookIn(old(site.posts), id) && !deleteFails ==>
              && r == DeletedResponse(true, id)
              && site.posts == old(site.posts) - {id}
              && GetBook(site.posts, site.terms, id) == ErrorResponse(BookNotFound)
  {
    if !IsBookIn(site.posts, id) {
      return ErrorResponse(BookNotFound);
    }
    if deleteFails {
      return ErrorResponse(DeleteFailed);
    }
    site.DeletePost(id);
    r := DeletedResponse(true, id);
  }

  /** Creating a book and reading it back gives the sanitised input. */
  lemma CreateThenGet(posts: map<PostId, Post>, terms: map<TermId, Term>, p: CreateParams,
                      userId: nat, now: string, newId: PostId)
    ensures var r := GetBook(posts[newId := NewBook(p, userId, now)], terms, newId);
      && r.BookResponse?
      && r.book.id == newId && r.book.title == p.title && r.book.author == p.author
      && r.book.content == (if OptTruthy(p.content) then p.content.value else "")
      && r.book.publishedYear == (if OptIntTruthy(p.publishedYear) then IntMeta(p.publishedYear.value) else "")
      && r.book.isbn == (if OptTruthy(p.isbn) then p.isbn.value else "")
      && r.book.pages == (if OptIntTruthy(p.pages) then IntMeta(p.pages.value) else "")
  {
    NewBookReadsBack(p, userId, now);
  }

  /** A year stored by create or update reads back as the same number. */
  lemma StoredYearReadsBack(p: CreateParams, userId: nat, now: string)
    requires OptIntTruthy(p.publishedYear)
    ensures IntCast(PostMeta(NewBook(p, userId, now), "published_year")) == p.publishedYear.value
  {
    NewBookReadsBack(p, userId, now);
    IntCastOfDecimal(p.publishedYear.value);
  }
}
