/**
 * The bookshelf front end's state logic: the component state and its
 * transitions (filters, pagination, the book form and the delete dialog),
 * the list request's parameters, the genre checkbox toggle, the author and
 * year filter options and the submit decision. Rendering and the network are
 * not modelled: a transition that starts a request returns what it would
 * send, and the request's outcome is a separate transition.
 */
module App {
  import opened Wrappers
  import opened Strings
  import opened Php
  import opened Sorting
  import opened Host
  import opened Helpers
  import PhpArray
  import BookEndpoints

  // ---------------------------------------------------------------------------
  // JavaScript string helpers
  // ---------------------------------------------------------------------------

  /** The characters `String.prototype.trim` strips: white space and line terminators. */
  predicate IsJsSpace(c: char) {
    || c == '\t' || c == '\n' || c == '\U{B}' || c == '\U{C}' || c == '\r' || c == ' '
    || c == '\U{A0}' || c == '\U{1680}' || ('\U{2000}' <= c <= '\U{200A}')
    || c == '\U{2028}' || c == '\U{2029}' || c == '\U{202F}' || c == '\U{205F}'
    || c == '\U{3000}' || c == '\U{FEFF}'
  }

  function JsTrim(s: string): string {
    TrimBy(s, IsJsSpace)
  }

  /** `String(n)` for an integer. */
  function JsIntText(n: int): (s: string)
    ensures n >= 0 ==> s == NatToDecimal(n)
    ensures n < 0 ==> s == "-" + NatToDecimal(-n)
  {
    if n < 0 then "-" + NatToDecimal(-n) else NatToDecimal(n)
  }

  /** The server's `(int)` cast reads back the integer the client wrote. */
  lemma IntCastOfJsInt(n: int)
    ensures IntCast(JsIntText(n)) == n
  {
    if n < 0 {
      var d := NatToDecimal(-n);
      var s := "-" + d;
      assert !IsNumericSpace(s[0]);
      assert DropLeading(s, IsNumericSpace) == s;
      assert s[1..] == d;
      DigitPrefixOfDigits(d);
      DecimalRoundTrip(-n);
    } else {
      IntCastOfDecimal(n);
    }
  }

  // ---------------------------------------------------------------------------
  // State
  // ---------------------------------------------------------------------------

  /** The list filters and sort order the user picks. */
  datatype Filters = Filters(
    searchTerm: string,
    selectedGenre: string,
    selectedAuthor: string,
    selectedYear: string,
    orderBy: string,
    order: string)

  /** The book form's fields. Years and page counts are kept as the text shown. */
  datatype FormData = FormData(
    title: string,
    content: string,
    author: string,
    publishedYear: string,
    isbn: string,
    pages: string,
    genres: seq<TermId>)

  function EmptyForm(): FormData {
    FormData("", "", "", "", "", "", [])
  }

  /** The whole component state at one moment. */
  datatype View = View(
    books: seq<FormattedBook>,
    loading: bool,
    error: string,
    success: string,
    currentPage: int,
    totalPages: int,
    totalBooks: int,
    filters: Filters,
    showModal: bool,
    showDeleteModal: bool,
    bookToDelete: Option<FormattedBook>,
    editingBook: Option<FormattedBook>,
    formData: FormData)

  /** A request the component sends. */
  datatype ApiRequest = ApiRequest(verb: string, path: string, data: Option<FormData>)

  const BooksPath := "/bookshelf/v1/books"

  const RequiredFieldsError := "El título y el autor son obligatorios"
  const UpdatedMessage := "Libro actualizado correctamente"
  const CreatedMessage := "Libro creado correctamente"
  const DeletedMessage := "Libro eliminado correctamente"
  const SaveErrorPrefix := "Error al guardar: "
  const DeleteErrorPrefix := "Error al eliminar: "
  const LoadErrorPrefix := "Error al cargar los libros: "

  // ---------------------------------------------------------------------------
  // The list request's parameters
  // ---------------------------------------------------------------------------

  type Params = seq<(string, string)>

  /** The value of the first parameter named k. */
  function Param(ps: Params, k: string): (r: Option<string>)
    ensures r.None? <==> forall i :: 0 <= i < |ps| ==> ps[i].0 != k
  {
    if ps == [] then None else if ps[0].0 == k then Some(ps[0].1) else Param(ps[1..], k)
  }

  /** `params.append(k, v)` when v is non-empty, as the one parameter appended. */
  function IfSet(k: string, v: string): Params {
    if v != "" then [(k, v)] else []
  }

  /** The filters `loadBooks` appends when non-empty: search, genre, author and year, in that order. */
  function FilterParams(f: Filters): Params {
    IfSet("search", f.searchTerm) + (IfSet("genre", f.selectedGenre)
      + (IfSet("author", f.selectedAuthor) + IfSet("year", f.selectedYear)))
  }

  /**
   * The `URLSearchParams` `loadBooks` builds: per_page, page, orderby and
   * order always, then the filters that are set.
   */
  function ListParams(perPage: int, currentPage: int, f: Filters): Params {
    [("per_page", JsIntText(perPage))] + ([("page", JsIntText(currentPage))]
      + ([("orderby", f.orderBy)] + ([("order", f.order)] + FilterParams(f))))
  }

  /** The names of the parameters, in order. */
  function ParamNames(ps: Params): seq<string> {
    if ps == [] then [] else [ps[0].0] + ParamNames(ps[1..])
  }

  lemma {:induction false} ParamNamesAppend(ps: Params, q: Params)
    ensures ParamNames(ps + q) == ParamNames(ps) + ParamNames(q)
  {
    if ps == [] {
      assert ps + q == q;
    } else {
      assert (ps + q)[1..] == ps[1..] + q;
      ParamNamesAppend(ps[1..], q);
    }
  }

  /** The name of an optional parameter, when it is set. */
  function NameIfSet(k: string, v: string): seq<string> {
    if v != "" then [k] else []
  }

  lemma ParamNamesIfSet(k: string, v: string)
    ensures ParamNames(IfSet(k, v)) == NameIfSet(k, v)
  {
  }

  /**
   * The parameters are the four fixed ones followed by exactly the non-empty
   * filters, in the order search, genre, author, year.
   */
  lemma ListParamsNames(perPage: int, currentPage: int, f: Filters)
    ensures ParamNames(ListParams(perPage, currentPage, f)) ==
              ["per_page", "page", "orderby", "order"]
              + (NameIfSet("search", f.searchTerm) + (NameIfSet("genre", f.selectedGenre)
              + (NameIfSet("author", f.selectedAuthor) + NameIfSet("year", f.selectedYear))))
  {
    var s := IfSet("search", f.searchTerm);
    var g := IfSet("genre", f.selectedGenre);
    var a := IfSet("author", f.selectedAuthor);
    var y := IfSet("year", f.selectedYear);
    var optional := NameIfSet("search", f.searchTerm) + (NameIfSet("genre", f.selectedGenre)
                    + (NameIfSet("author", f.selectedAuthor) + NameIfSet("year", f.selectedYear)));
    assert ParamNames(FilterParams(f)) == optional by {
      ParamNamesIfSet("search", f.searchTerm);
      ParamNamesIfSet("genre", f.selectedGenre);
      ParamNamesIfSet("author", f.selectedAuthor);
      ParamNamesIfSet("year", f.selectedYear);
      ParamNamesAppend(a, y);
      ParamNamesAppend(g, a + y);
      ParamNamesAppend(s, g + (a + y));
    }
    var p4 := [("order", f.order)] + FilterParams(f);
    var p3 := [("orderby", f.orderBy)] + p4;
    var p2 := [("page", JsIntText(currentPage))] + p3;
    ParamNamesAppend([("order", f.order)], FilterParams(f));
    ParamNamesAppend([("orderby", f.orderBy)], p4);
    ParamNamesAppend([("page", JsIntText(currentPage))], p3);
    ParamNamesAppend([("per_page", JsIntText(perPage))], p2);
  }

  lemma ParamAppend(ps: Params, q: Params, k: string)
    ensures Param(ps + q, k) == if Param(ps, k).Some? then Param(ps, k) else Param(q, k)
  {
    if ps == [] {
      assert ps + q == q;
    } else {
      assert (ps + q)[0] == ps[0];
      assert (ps + q)[1..] == ps[1..] + q;
      ParamAppend(ps[1..], q, k);
    }
  }

  lemma ParamIfSet(k: string, v: string, key: string)
    ensures Param(IfSet(k, v), key) == if key == k && v != "" then Some(v) else None
  {
  }

  /** Each optional filter is found under its own name exactly when it is set. */
  lemma FilterParam(f: Filters, k: string)
    ensures Param(FilterParams(f), k) ==
      if k == "search" && f.searchTerm != "" then Some(f.searchTerm)
      else if k == "genre" && f.selectedGenre != "" then Some(f.selectedGenre)
      else if k == "author" && f.selectedAuthor != "" then Some(f.selectedAuthor)
      else if k == "year" && f.selectedYear != "" then Some(f.selectedYear)
      else None
  {
    var s := IfSet("search", f.searchTerm);
    var g := IfSet("genre", f.selectedGenre);
    var a := IfSet("author", f.selectedAuthor);
    var y := IfSet("year", f.selectedYear);
    ParamIfSet("search", f.searchTerm, k);
    ParamIfSet("genre", f.selectedGenre, k);
    ParamIfSet("author", f.selectedAuthor, k);
    ParamIfSet("year", f.selectedYear, k);
    ParamAppend(a, y, k);
    ParamAppend(g, a + y, k);
    ParamAppend(s, g + (a + y), k);
  }

  /** The value the list request carries under each name. */
  lemma ListParam(perPage: int, currentPage: int, f: Filters, k: string)
    ensures Param(ListParams(perPage, currentPage, f), k) ==
      if k == "per_page" then Some(JsIntText(perPage))
      else if k == "page" then Some(JsIntText(currentPage))
      else if k == "orderby" then Some(f.orderBy)
      else if k == "order" then Some(f.order)
      else Param(FilterParams(f), k)
  {
    var p4 := [("order", f.order)] + FilterParams(f);
    var p3 := [("orderby", f.orderBy)] + p4;
    var p2 := [("page", JsIntText(currentPage))] + p3;
    var p1 := [("per_page", JsIntText(perPage))] + p2;
    assert p1[1..] == p2 && p2[1..] == p3 && p3[1..] == p4 && p4[1..] == FilterParams(f);
    assert Param(p1, k) == if k == "per_page" then Some(JsIntText(perPage)) else Param(p2, k);
    assert Param(p2, k) == if k == "page" then Some(JsIntText(currentPage)) else Param(p3, k);
    assert Param(p3, k) == if k == "orderby" then Some(f.orderBy) else Param(p4, k);
    assert Param(p4, k) == if k == "order" then Some(f.order) else Param(FilterParams(f), k);
  }

  /** `if (v) params.append(k, v)`. */
  method AppendIfSet(ps: Params, k: string, v: string) returns (r: Params)
    ensures r == ps + IfSet(k, v)
  {
    r := ps;
    if v != "" {
      r := r + [(k, v)];
    }
  }

  /**
   * The list route's parameters as the server reads them back from the
   * client's query string: the integer ones through their `absint`
   * sanitiser, the text ones as sent (before the host's text sanitiser).
   */
  function ServerView(ps: Params): BookEndpoints.ListParams {
    BookEndpoints.ListParams(
      IntParam(ps, "per_page"), IntParam(ps, "page"),
      Param(ps, "genre"), Param(ps, "author"), IntParam(ps, "year"),
      Param(ps, "search"), Param(ps, "orderby"), Param(ps, "order"))
  }

  /** An integer parameter as the route's `absint` sanitiser reads it. */
  function IntParam(ps: Params, k: string): (r: Option<int>)
    ensures r.Some? <==> Param(ps, k).Some?
    ensures r.Some? ==> r.value == Absint(IntCast(Param(ps, k).value)) >= 0
  {
    var o := Param(ps, k);
    if o.Some? then Some(Absint(IntCast(o.value))) else None
  }

  /**
   * What the server receives from `loadBooks`: the page size and page number
   * the client holds (as their absolute values), its sort order, and each
   * filter exactly when it is non-empty (the year read as an integer).
   */
  lemma ServerReadsListParams(perPage: int, currentPage: int, f: Filters)
    ensures var v := ServerView(ListParams(perPage, currentPage, f));
      && v.perPage == Some(Absint(perPage)) && v.page == Some(Absint(currentPage))
      && v.orderby == Some(f.orderBy) && v.order == Some(f.order)
      && v.search == (if f.searchTerm != "" then Some(f.searchTerm) else None)
      && v.genre == (if f.selectedGenre != "" then Some(f.selectedGenre) else None)
      && v.author == (if f.selectedAuthor != "" then Some(f.selectedAuthor) else None)
      && v.year == (if f.selectedYear != "" then Some(Absint(IntCast(f.selectedYear))) else None)
  {
    ListParam(perPage, currentPage, f, "per_page");
    ListParam(perPage, currentPage, f, "page");
    ListParam(perPage, currentPage, f, "orderby");
    ListParam(perPage, currentPage, f, "order");
    ListParam(perPage, currentPage, f, "search");
    ListParam(perPage, currentPage, f, "genre");
    ListParam(perPage, currentPage, f, "author");
    ListParam(perPage, currentPage, f, "year");
    FilterParam(f, "search");
    FilterParam(f, "genre");
    FilterParam(f, "author");
    FilterParam(f, "year");
    IntCastOfJsInt(perPage);
    IntCastOfJsInt(currentPage);
  }

  // ---------------------------------------------------------------------------
  // Genre checkboxes
  // ---------------------------------------------------------------------------

  /** `genres.filter(x => x !== id)`. */
  function RemoveAll(s: seq<TermId>, id: TermId): seq<TermId> {
    if s == [] then [] else (if s[0] == id then [] else [s[0]]) + RemoveAll(s[1..], id)
  }

  /** s is s' with some elements taken out, the rest in their order. */
  predicate IsSubsequence<T(==)>(s: seq<T>, t: seq<T>)
    decreases |t|
  {
    if s == [] then true
    else if t == [] then false
    else if s[0] == t[0] then IsSubsequence(s[1..], t[1..])
    else IsSubsequence(s, t[1..])
  }

  /**
   * Removing an id drops every occurrence of it, keeps every other id as
   * often as before, and keeps their relative order.
   */
  lemma {:induction false} RemoveAllMeaning(s: seq<TermId>, id: TermId)
    ensures id !in RemoveAll(s, id)
    ensures forall x :: x != id ==> multiset(RemoveAll(s, id))[x] == multiset(s)[x]
    ensures IsSubsequence(RemoveAll(s, id), s)
  {
    if s != [] {
      RemoveAllMeaning(s[1..], id);
      var rest := RemoveAll(s[1..], id);
      assert s == [s[0]] + s[1..];
      if s[0] == id {
        assert RemoveAll(s, id) == rest;
        SubsequenceOfTail(rest, s);
      } else {
        assert RemoveAll(s, id) == [s[0]] + rest;
        assert ([s[0]] + rest)[1..] == rest;
      }
    }
  }

  /** A subsequence of a list's tail is a subsequence of the list. */
  lemma {:induction false} SubsequenceOfTail<T>(s: seq<T>, t: seq<T>)
    requires t != [] && IsSubsequence(s, t[1..])
    ensures IsSubsequence(s, t)
    decreases |t|, 0
  {
    if s != [] && s[0] == t[0] {
      DropHeadSubsequence(s, t[1..]);
    }
  }

  /** Dropping the first element of a subsequence leaves a subsequence. */
  lemma {:induction false} DropHeadSubsequence<T>(s: seq<T>, t: seq<T>)
    requires s != [] && IsSubsequence(s, t)
    ensures IsSubsequence(s[1..], t)
    decreases |t|, 1
  {
    if s[0] == t[0] {
      SubsequenceOfTail(s[1..], t);
    } else {
      DropHeadSubsequence(s, t[1..]);
      SubsequenceOfTail(s[1..], t);
    }
  }

  /** The checkbox handler: checking appends the id, unchecking removes every occurrence of it. */
  function ToggleGenre(genres: seq<TermId>, id: TermId, checked: bool): (r: seq<TermId>)
    ensures checked ==> r == genres + [id]
    ensures !checked ==> r == RemoveAll(genres, id)
  {
    if checked then genres + [id] else RemoveAll(genres, id)
  }

  /**
   * Checking a box that was unchecked and unchecking it again restores the
   * list; checking twice records the id twice, and one uncheck removes both.
   */
  lemma {:induction false} ToggleOnOff(genres: seq<TermId>, id: TermId)
    ensures RemoveAll(ToggleGenre(genres, id, true), id) == RemoveAll(genres, id)
    ensures id !in genres ==> ToggleGenre(ToggleGenre(genres, id, true), id, false) == genres
  {
    RemoveAllAppend(genres, [id], id);
    assert RemoveAll([id], id) == [];
    if id !in genres {
      RemoveAllAbsent(genres, id);
    }
  }

  lemma {:induction false} RemoveAllAppend(s: seq<TermId>, t: seq<TermId>, id: TermId)
    ensures RemoveAll(s + t, id) == RemoveAll(s, id) + RemoveAll(t, id)
  {
    if s != [] {
      assert (s + t)[1..] == s[1..] + t;
      RemoveAllAppend(s[1..], t, id);
    } else {
      assert s + t == t;
    }
  }

  lemma {:induction false} RemoveAllAbsent(s: seq<TermId>, id: TermId)
    requires id !in s
    ensures RemoveAll(s, id) == s
  {
    if s != [] {
      RemoveAllAbsent(s[1..], id);
      assert s == [s[0]] + s[1..];
    }
  }

  // ---------------------------------------------------------------------------
  // Author and year filter options
  // ---------------------------------------------------------------------------

  /** `[...new Set(s)]`: each value once, in the order it first appears. */
  function Dedup(s: seq<string>): seq<string> {
    if s == [] then []
    else
      var d := Dedup(s[..|s| - 1]);
      if s[|s| - 1] in d then d else d + [s[|s| - 1]]
  }

  /** The index of the first occurrence of x in s. */
  function FirstIndex(s: seq<string>, x: string): (i: nat)
    requires x in s
    ensures i < |s| && s[i] == x && forall j :: 0 <= j < i ==> s[j] != x
  {
    if s[0] == x then 0 else 1 + FirstIndex(s[1..], x)
  }

  /** Each value occurs at most once. */
  ghost predicate NoDuplicates(s: seq<string>) {
    forall x :: multiset(s)[x] <= 1
  }

  lemma FirstIndexPrefix(s: seq<string>, k: nat, x: string)
    requires k <= |s| && x in s[..k]
    ensures FirstIndex(s, x) == FirstIndex(s[..k], x)
  {
    var i := FirstIndex(s[..k], x);
    assert s[i] == x;
  }

  /** Two values of a prefix first appear in the same order in the whole list. */
  lemma FirstIndexPrefixOrder(s: seq<string>, k: nat, x: string, y: string)
    requires k <= |s| && x in s[..k] && y in s[..k]
    requires FirstIndex(s[..k], x) < FirstIndex(s[..k], y)
    ensures FirstIndex(s, x) < FirstIndex(s, y)
  {
    FirstIndexPrefix(s, k, x);
    FirstIndexPrefix(s, k, y);
  }

  /** Deduplication keeps exactly the values of the list. */
  lemma {:induction false} DedupMembers(s: seq<string>)
    ensures forall x :: x in Dedup(s) <==> x in s
  {
    if s != [] {
      DedupMembers(s[..|s| - 1]);
      assert s == s[..|s| - 1] + [s[|s| - 1]];
    }
  }

  /** Deduplication keeps each value once. */
  lemma {:induction false} DedupNoDuplicates(s: seq<string>)
    ensures NoDuplicates(Dedup(s))
  {
    if s != [] {
      var last := s[|s| - 1];
      DedupNoDuplicates(s[..|s| - 1]);
      var d := Dedup(s[..|s| - 1]);
      if last !in d {
        forall x
          ensures multiset(d + [last])[x] <= 1
        {
          assert multiset(d + [last])[x] == multiset(d)[x] + (if x == last then 1 else 0);
        }
      }
    }
  }

  /** Deduplication keeps the values in the order of their first appearance. */
  lemma DedupOrder(s: seq<string>)
    ensures forall x :: x in Dedup(s) ==> x in s
    ensures forall i, j :: 0 <= i < j < |Dedup(s)| ==> FirstIndex(s, Dedup(s)[i]) < FirstIndex(s, Dedup(s)[j])
  {
    DedupMembers(s);
    forall i, j | 0 <= i < j < |Dedup(s)|
      ensures FirstIndex(s, Dedup(s)[i]) < FirstIndex(s, Dedup(s)[j])
    {
      DedupOrderPair(s, i, j);
    }
  }

  /** Of two kept values, the earlier one first appears earlier in the list. */
  lemma {:induction false} DedupOrderPair(s: seq<string>, i: nat, j: nat)
    requires i < j < |Dedup(s)|
    ensures Dedup(s)[i] in s && Dedup(s)[j] in s
    ensures FirstIndex(s, Dedup(s)[i]) < FirstIndex(s, Dedup(s)[j])
  {
    DedupElement(s, i);
    DedupElement(s, j);
    assert s != [];
    var init := s[..|s| - 1];
    var last := s[|s| - 1];
    var d := Dedup(init);
    DedupElement(init, i);
    var a := d[i];
    if j < |d| {
      var b := d[j];
      assert Dedup(s)[i] == a && Dedup(s)[j] == b;
      DedupOrderPair(init, i, j);
      FirstIndexPrefixOrder(s, |s| - 1, a, b);
    } else {
      assert last !in d && Dedup(s)[i] == a && Dedup(s)[j] == last;
      DedupLastIsNew(s);
      FirstIndexPrefix(s, |s| - 1, a);
      assert FirstIndex(s, a) < FirstIndex(s, last);
    }
  }

  /** Every kept value comes from the list. */
  lemma DedupElement(s: seq<string>, k: nat)
    requires k < |Dedup(s)|
    ensures Dedup(s)[k] in s
  {
    DedupMembers(s);
  }

  /** A value that Dedup adds at the end first occurs at the end of the list. */
  lemma DedupLastIsNew(s: seq<string>)
    requires s != [] && s[|s| - 1] !in Dedup(s[..|s| - 1])
    ensures FirstIndex(s, s[|s| - 1]) == |s| - 1
  {
    var init := s[..|s| - 1];
    DedupMembers(init);
    assert forall j :: 0 <= j < |init| ==> init[j] != s[|s| - 1];
  }

  /**
   * Deduplication keeps exactly the values of the list, each once, in order
   * of first appearance.
   */
  lemma DedupMeaning(s: seq<string>)
    ensures forall x :: x in Dedup(s) <==> x in s
    ensures NoDuplicates(Dedup(s))
    ensures forall i, j :: 0 <= i < j < |Dedup(s)| ==> FirstIndex(s, Dedup(s)[i]) < FirstIndex(s, Dedup(s)[j])
  {
    DedupMembers(s);
    DedupNoDuplicates(s);
    DedupOrder(s);
  }

  /** The non-empty strings of a list, in order: `.filter(Boolean)`. */
  function NonEmpty(s: seq<string>): (r: seq<string>)
    ensures forall x :: x in r <==> x in s && x != ""
  {
    if s == [] then [] else (if s[0] != "" then [s[0]] else []) + NonEmpty(s[1..])
  }

  function Authors(books: seq<FormattedBook>): (r: seq<string>)
    ensures |r| == |books| && forall i :: 0 <= i < |books| ==> r[i] == books[i].author
  {
    if books == [] then [] else [books[0].author] + Authors(books[1..])
  }

  function Years(books: seq<FormattedBook>): (r: seq<string>)
    ensures |r| == |books| && forall i :: 0 <= i < |books| ==> r[i] == books[i].publishedYear
  {
    if books == [] then [] else [books[0].publishedYear] + Years(books[1..])
  }

  /** `uniqueAuthors`. */
  function UniqueAuthors(books: seq<FormattedBook>): seq<string> {
    Dedup(NonEmpty(Authors(books)))
  }

  /**
   * The author options are the non-empty authors of the listed books, each
   * once, in the order they first appear.
   */
  lemma UniqueAuthorsMeaning(books: seq<FormattedBook>)
    ensures NoDuplicates(UniqueAuthors(books))
    ensures forall a :: a in UniqueAuthors(books) <==> a != "" && exists i :: 0 <= i < |books| && books[i].author == a
    ensures forall a :: a in UniqueAuthors(books) ==> a in NonEmpty(Authors(books))
    ensures var listed := NonEmpty(Authors(books));
      var r := UniqueAuthors(books);
      forall i, j :: 0 <= i < j < |r| ==> FirstIndex(listed, r[i]) < FirstIndex(listed, r[j])
  {
    DedupMeaning(NonEmpty(Authors(books)));
    var authors := Authors(books);
    forall a | a != "" && a in authors
      ensures exists i :: 0 <= i < |books| && books[i].author == a
    {
      var i :| 0 <= i < |authors| && authors[i] == a;
      assert books[i].author == a;
    }
    forall a | exists i :: 0 <= i < |books| && books[i].author == a
      ensures a in authors
    {
      var i :| 0 <= i < |books| && books[i].author == a;
      assert authors[i] == a;
    }
  }

  /** The number JavaScript's subtraction reads from a year string; stored years are digit strings. */
  function YearNumber(y: string): int {
    if AllDigits(y) then DecimalValue(y) else 0
  }

  /** `uniqueYears`: the distinct non-empty years, largest first. */
  function UniqueYears(books: seq<FormattedBook>): seq<string> {
    SortDesc(Dedup(NonEmpty(Years(books))), YearNumber)
  }

  /** The year options are the non-empty years of the listed books, each once, largest first. */
  lemma UniqueYearsMeaning(books: seq<FormattedBook>)
    ensures NoDuplicates(UniqueYears(books))
    ensures forall y :: y in UniqueYears(books) <==> y != "" && exists i :: 0 <= i < |books| && books[i].publishedYear == y
    ensures SortedDesc(UniqueYears(books), YearNumber)
  {
    var d := Dedup(NonEmpty(Years(books)));
    DedupMeaning(NonEmpty(Years(books)));
    var years := Years(books);
    forall y
      ensures y in UniqueYears(books) <==> y in d
    {
      SortDescMembers(d, YearNumber, y);
    }
    forall y | y != "" && y in years
      ensures exists i :: 0 <= i < |books| && books[i].publishedYear == y
    {
      var i :| 0 <= i < |years| && years[i] == y;
      assert books[i].publishedYear == y;
    }
    forall y | exists i :: 0 <= i < |books| && books[i].publishedYear == y
      ensures y in years
    {
      var i :| 0 <= i < |books| && books[i].publishedYear == y;
      assert years[i] == y;
    }
  }

  // ---------------------------------------------------------------------------
  // Pagination
  // ---------------------------------------------------------------------------

  /** `renderPagination` draws the bar only when there is more than one page. */
  predicate PaginationRendered(totalPages: int) {
    totalPages > 1
  }

  /** Previous, as `renderPagination` draws it: present and not `disabled={currentPage === 1}`. */
  predicate PreviousEnabled(currentPage: int, totalPages: int) {
    PaginationRendered(totalPages) && currentPage != 1
  }

  /** Next, as `renderPagination` draws it: present and not `disabled={currentPage === totalPages}`. */
  predicate NextEnabled(currentPage: int, totalPages: int) {
    PaginationRendered(totalPages) && currentPage != totalPages
  }

  /**
   * The results area calls `renderPagination` only under the book grid,
   * that is, when the list is not loading and holds at least one book.
   */
  predicate PaginationShown(loading: bool, bookCount: nat, totalPages: int) {
    !loading && bookCount > 0 && PaginationRendered(totalPages)
  }

  /** Previous can be clicked: the bar is on screen and the button enabled. */
  predicate PreviousClickable(loading: bool, bookCount: nat, currentPage: int, totalPages: int) {
    PaginationShown(loading, bookCount, totalPages) && PreviousEnabled(currentPage, totalPages)
  }

  /** Next can be clicked: the bar is on screen and the button enabled. */
  predicate NextClickable(loading: bool, bookCount: nat, currentPage: int, totalPages: int) {
    PaginationShown(loading, bookCount, totalPages) && NextEnabled(currentPage, totalPages)
  }

  /**
   * Within the page range, the enabled buttons never leave it: Previous is
   * enabled only above page 1 and Next only below the last page.
   */
  lemma PaginationStaysInRange(currentPage: int, totalPages: int)
    requires 1 <= currentPage <= totalPages
    ensures PreviousEnabled(currentPage, totalPages) ==> 1 <= currentPage - 1 <= totalPages
    ensures NextEnabled(currentPage, totalPages) ==> 1 <= currentPage + 1 <= totalPages
  {
  }

  /**
   * A fact about the two `disabled` tests alone: they compare with
   * equality, so on a page beyond the last one (the genre, author and year
   * selectors do not reset the page) neither button is disabled. Whether
   * the bar is on screen there depends on the list: see
   * NoButtonsWhileLoadingOrEmpty.
   */
  lemma NextEnabledBeyondLastPage(currentPage: int, totalPages: int)
    requires 1 < totalPages < currentPage
    ensures NextEnabled(currentPage, totalPages) && PreviousEnabled(currentPage, totalPages)
  {
  }

  /**
   * While the list loads, and when it is empty (a page beyond the last one
   * lists no books), the results area shows a spinner or the no-books
   * message instead of the grid, so neither button can be clicked; with
   * books listed and more than one page, the bar is there.
   */
  lemma NoButtonsWhileLoadingOrEmpty(loading: bool, bookCount: nat, currentPage: int, totalPages: int)
    ensures (loading || bookCount == 0) ==>
              !PreviousClickable(loading, bookCount, currentPage, totalPages)
              && !NextClickable(loading, bookCount, currentPage, totalPages)
    ensures !loading && bookCount > 0 && totalPages > 1 ==>
              (PreviousClickable(loading, bookCount, currentPage, totalPages) <==> currentPage != 1)
              && (NextClickable(loading, bookCount, currentPage, totalPages) <==> currentPage != totalPages)
  {
  }

  // ---------------------------------------------------------------------------
  // The book form
  // ---------------------------------------------------------------------------

  /** `openModal(book)`: the form filled from a listed book, genres by id. */
  function EditForm(book: FormattedBook): (f: FormData)
    ensures f.title == book.title && f.content == book.content && f.author == book.author
    ensures f.publishedYear == book.publishedYear && f.isbn == book.isbn && f.pages == book.pages
    ensures f.genres == GenreIds(book.genres)
  {
    FormData(book.title, book.content, book.author, book.publishedYear, book.isbn, book.pages, GenreIds(book.genres))
  }

  /**
   * Opening the form on a book the server formatted shows the stored title,
   * content and meta fields, and ticks exactly the book's genres in order.
   */
  lemma EditFormOfStoredBook(id: PostId, p: Post, terms: map<TermId, Term>)
    ensures var f := EditForm(FormatBook(id, p, TheTerms(p, terms)));
      && f.title == p.title && f.content == p.content
      && f.author == PostMeta(p, "author") && f.publishedYear == PostMeta(p, "published_year")
      && f.isbn == PostMeta(p, "isbn") && f.pages == PostMeta(p, "pages")
      && f.genres == PhpArray.Keys(AssignedGenres(p.genres, terms))
  {
  }

  /** The path of one book: the collection path and the decimal id. */
  function BookPath(id: PostId): string {
    BooksPath + "/" + NatToDecimal(id)
  }

  /** The server reads back the id the client put in a book's path. */
  lemma BookPathId(id: PostId)
    ensures |BookPath(id)| > |BooksPath| + 1
    ensures BookPath(id)[..|BooksPath| + 1] == BooksPath + "/"
    ensures DecimalValue(BookPath(id)[|BooksPath| + 1..]) == id
  {
    assert BookPath(id)[|BooksPath| + 1..] == NatToDecimal(id);
    DecimalRoundTrip(id);
  }

  /**
   * `handleSubmit`'s decision: no request when the trimmed title or author is
   * empty; otherwise PUT to the book's path when editing, POST to the
   * collection when creating, with the form as the body.
   */
  function SubmitRequest(form: FormData, editing: Option<FormattedBook>): (r: Option<ApiRequest>)
    ensures r.None? <==> JsTrim(form.title) == "" || JsTrim(form.author) == ""
    ensures r.Some? && editing.Some? ==> r.value == ApiRequest("PUT", BookPath(editing.value.id), Some(form))
    ensures r.Some? && editing.None? ==> r.value == ApiRequest("POST", BooksPath, Some(form))
  {
    if JsTrim(form.title) == "" || JsTrim(form.author) == "" then None
    else if editing.Some? then Some(ApiRequest("PUT", BookPath(editing.value.id), Some(form)))
    else Some(ApiRequest("POST", BooksPath, Some(form)))
  }

  /** The client refuses a title exactly when it is nothing but JavaScript white space. */
  lemma SubmitRefusesBlank(form: FormData, editing: Option<FormattedBook>)
    ensures SubmitRequest(form, editing).None? <==>
              (forall i :: 0 <= i < |form.title| ==> IsJsSpace(form.title[i]))
              || (forall i :: 0 <= i < |form.author| ==> IsJsSpace(form.author[i]))
  {
    TrimEmptyIffAllSpace(form.title, IsJsSpace);
    TrimEmptyIffAllSpace(form.author, IsJsSpace);
  }

  /**
   * The client's check and the server's validator disagree on a title "0":
   * the client sends it and the server refuses it (PHP's `empty`).
   */
  lemma ZeroTitleSentThenRefused()
    ensures JsTrim("0") != "" && !ValidateTitle("0")
  {
    TrimEmptyIffAllSpace("0", IsJsSpace);
    ZeroIsBlank("", "");
    assert "" + "0" + "" == "0";
  }

  /**
   * A title of one NUL character is sent by the client and refused by the
   * server: PHP's `trim` strips NUL, JavaScript's does not.
   */
  lemma NulTitleSentThenRefused()
    ensures JsTrim("\U{0}") != "" && !ValidateTitle("\U{0}")
  {
    TrimEmptyIffAllSpace("\U{0}", IsJsSpace);
    assert IsTrimSpace("\U{0}"[0]);
  }

  /**
   * A title of one no-break space is refused by the client, whose `trim`
   * strips it, but would pass the server's validator.
   */
  lemma NoBreakSpaceTitleRefusedByClientOnly()
    ensures JsTrim("\U{A0}") == "" && ValidateTitle("\U{A0}")
  {
    TrimEmptyIffAllSpace("\U{A0}", IsJsSpace);
    var t := Trim("\U{A0}");
    assert !IsTrimSpace("\U{A0}"[0]);
    assert t != "0" by {
      var a, b :| TrimmedAt("\U{A0}", IsTrimSpace, t, a, b);
    }
  }

  /** A request is a PUT exactly when a book was being edited when it was built. */
  lemma SubmitVerbRecordsEditing(form: FormData, editing: Option<FormattedBook>)
    requires SubmitRequest(form, editing).Some?
    ensures SubmitRequest(form, editing).value.verb == "PUT" <==> editing.Some?
  {
  }

  /**
   * A form without a year carries published_year "" (the form's empty
   * value, also what editing a book stored without a year shows). The
   * client sends it, and the server's year check refuses it, so such a book
   * can be neither created nor saved from the form.
   */
  lemma BlankYearSentThenRefused(form: FormData, editing: Option<FormattedBook>, currentYear: nat)
    requires form.publishedYear == "" && JsTrim(form.title) != "" && JsTrim(form.author) != ""
    ensures var req := SubmitRequest(form, editing);
      && req.Some? && req.value.data == Some(form)
      && !ValidateYear(JsonText(req.value.data.value.publishedYear), currentYear)
  {
    BlankYearRefused(currentYear);
  }

  /** With the optional year check the same request is accepted. */
  lemma BlankYearSentThenAccepted(form: FormData, editing: Option<FormattedBook>, currentYear: nat)
    requires form.publishedYear == "" && JsTrim(form.title) != "" && JsTrim(form.author) != ""
    ensures var req := SubmitRequest(form, editing);
      && req.Some? && req.value.data == Some(form)
      && ValidateOptionalYear(JsonText(req.value.data.value.publishedYear), currentYear)
  {
  }

  // ---------------------------------------------------------------------------
  // The component
  // ---------------------------------------------------------------------------

  /** The component's state hooks and the handlers that update them. */
  class Bookshelf {
    var books: seq<FormattedBook>
    var loading: bool
    var error: string
    var success: string
    var currentPage: int
    var totalPages: int
    var totalBooks: int
    const perPage: int
    var filters: Filters
    var showModal: bool
    var showDeleteModal: bool
    var bookToDelete: Option<FormattedBook>
    var editingBook: Option<FormattedBook>
    var formData: FormData

    /** The state as one value. */
    function State(): View
      reads this
    {
      View(books, loading, error, success, currentPage, totalPages, totalBooks, filters,
           showModal, showDeleteModal, bookToDelete, editingBook, formData)
    }

    /** The initial values of the state hooks. */
    constructor ()
      ensures State() == View([], true, "", "", 1, 1, 0, Filters("", "", "", "", "date", "DESC"),
                              false, false, None, None, EmptyForm())
      ensures perPage == 10
    {
      books := [];
      loading := true;
      error := "";
      success := "";
      currentPage := 1;
      totalPages := 1;
      totalBooks := 0;
      perPage := 10;
      filters := Filters("", "", "", "", "date", "DESC");
      showModal := false;
      showDeleteModal := false;
      bookToDelete := None;
      editingBook := None;
      formData := EmptyForm();
    }

    /** `resetForm`: an empty form, not editing any book. */
    method ResetForm()
      modifies this
      ensures State() == old(State()).(formData := EmptyForm(), editingBook := None)
    {
      formData := EmptyForm();
      editingBook := None;
    }

    /**
     * `openModal(book)`: the form filled from the book (or reset when there
     * is none), messages cleared and the modal shown.
     */
    method OpenModal(book: Option<FormattedBook>)
      modifies this
      ensures book.Some? ==> State() == old(State()).(editingBook := book, formData := EditForm(book.value),
                                                      error := "", success := "", showModal := true)
      ensures book.None? ==> State() == old(State()).(editingBook := None, formData := EmptyForm(),
                                                      error := "", success := "", showModal := true)
    {
      if book.Some? {
        editingBook := book;
        formData := EditForm(book.value);
      } else {
        ResetForm();
      }
      error := "";
      success := "";
      showModal := true;
    }

    /** `closeModal`: hides the modal, then resets the form. */
    method CloseModal()
      modifies this
      ensures State() == old(State()).(showModal := false, formData := EmptyForm(), editingBook := None)
    {
      showModal := false;
      ResetForm();
    }

    /** `openDeleteModal(book)`. */
    method OpenDeleteModal(book: FormattedBook)
      modifies this
      ensures State() == old(State()).(bookToDelete := Some(book), showDeleteModal := true)
    {
      bookToDelete := Some(book);
      showDeleteModal := true;
    }

    /** `closeDeleteModal`. */
    method CloseDeleteModal()
      modifies this
      ensures State() == old(State()).(showDeleteModal := false, bookToDelete := None)
    {
      showDeleteModal := false;
      bookToDelete := None;
    }

    /**
     * `handleSubmit` up to the request: with a blank title or author only the
     * error message changes and nothing is sent; otherwise loading starts and
     * the request is returned.
     */
    method HandleSubmit() returns (req: Option<ApiRequest>)
      modifies this
      ensures req == SubmitRequest(old(formData), old(editingBook))
      ensures req.None? ==> State() == old(State()).(error := RequiredFieldsError)
      ensures req.Some? ==> State() == old(State()).(loading := true)
    {
      if JsTrim(formData.title) == "" || JsTrim(formData.author) == "" {
        error := RequiredFieldsError;
        return None;
      }
      loading := true;
      var verb := if editingBook.Some? then "PUT" else "POST";
      var path := if editingBook.Some? then BookPath(editingBook.value.id) else BooksPath;
      req := Some(ApiRequest(verb, path, Some(formData)));
    }

    /**
     * The save request `sent` succeeded: the success message, the modal
     * closed, loading over. The message follows the editing state captured
     * when the request was sent, which its verb records: the modal may have
     * been closed in the meantime.
     */
    method SubmitSucceeded(sent: ApiRequest)
      modifies this
      ensures State() == old(State()).(success := if sent.verb == "PUT" then UpdatedMessage else CreatedMessage,
                                       showModal := false, formData := EmptyForm(), editingBook := None,
                                       loading := false)
    {
      success := if sent.verb == "PUT" then UpdatedMessage else CreatedMessage;
      CloseModal();
      loading := false;
    }

    /** The save request failed: the error message; the form stays as it was. */
    method SubmitFailed(message: string)
      modifies this
      ensures State() == old(State()).(error := SaveErrorPrefix + message, loading := false)
    {
      error := SaveErrorPrefix + message;
      loading := false;
    }

    /** `handleDelete` up to the request: nothing happens when no book is marked for deletion. */
    method HandleDelete() returns (req: Option<ApiRequest>)
      modifies this
      ensures old(bookToDelete).None? ==> req.None? && State() == old(State())
      ensures old(bookToDelete).Some? ==>
                && req == Some(ApiRequest("DELETE", BookPath(old(bookToDelete).value.id), None))
                && State() == old(State()).(loading := true)
    {
      if bookToDelete.None? {
        return None;
      }
      loading := true;
      req := Some(ApiRequest("DELETE", BookPath(bookToDelete.value.id), None));
    }

    /** The delete request succeeded. */
    method DeleteSucceeded()
      modifies this
      ensures State() == old(State()).(success := DeletedMessage, showDeleteModal := false, bookToDelete := None,
                                       loading := false)
    {
      success := DeletedMessage;
      CloseDeleteModal();
      loading := false;
    }

    /** The delete request failed. */
    method DeleteFailed(message: string)
      modifies this
      ensures State() == old(State()).(error := DeleteErrorPrefix + message, loading := false)
    {
      error := DeleteErrorPrefix + message;
      loading := false;
    }

    /** `clearFilters`: the four filters emptied and the first page; the sort order stays. */
    method ClearFilters()
      modifies this
      ensures State() == old(State()).(filters := old(filters).(searchTerm := "", selectedGenre := "",
                                                                selectedAuthor := "", selectedYear := ""),
                                       currentPage := 1)
    {
      filters := filters.(searchTerm := "");
      filters := filters.(selectedGenre := "");
      filters := filters.(selectedAuthor := "");
      filters := filters.(selectedYear := "");
      currentPage := 1;
    }

    /** `handleSearch`: the search term and the first page. */
    method HandleSearch(value: string)
      modifies this
      ensures State() == old(State()).(filters := old(filters).(searchTerm := value), currentPage := 1)
    {
      filters := filters.(searchTerm := value);
      currentPage := 1;
    }

    /** The genre selector; unlike the search box it keeps the current page. */
    method SelectGenre(value: string)
      modifies this
      ensures State() == old(State()).(filters := old(filters).(selectedGenre := value))
    {
      filters := filters.(selectedGenre := value);
    }

    /** The author selector; it keeps the current page. */
    method SelectAuthor(value: string)
      modifies this
      ensures State() == old(State()).(filters := old(filters).(selectedAuthor := value))
    {
      filters := filters.(selectedAuthor := value);
    }

    /** The year selector; it keeps the current page. */
    method SelectYear(value: string)
      modifies this
      ensures State() == old(State()).(filters := old(filters).(selectedYear := value))
    {
      filters := filters.(selectedYear := value);
    }

    /** The sort field selector. */
    method SelectOrderBy(value: string)
      modifies this
      ensures State() == old(State()).(filters := old(filters).(orderBy := value))
    {
      filters := filters.(orderBy := value);
    }

    /** The sort direction selector. */
    method SelectOrder(value: string)
      modifies this
      ensures State() == old(State()).(filters := old(filters).(order := value))
    {
      filters := filters.(order := value);
    }

    /** A genre checkbox of the form changed to `checked`. */
    method ToggleFormGenre(id: TermId, checked: bool)
      modifies this
      ensures State() == old(State()).(formData := old(formData).(genres := ToggleGenre(old(formData).genres, id, checked)))
    {
      formData := formData.(genres := ToggleGenre(formData.genres, id, checked));
    }

    /**
     * The Previous button: one page back, when the bar is on screen (not
     * loading, some books listed, more than one page) and the button enabled.
     */
    method ClickPrevious()
      modifies this
      ensures PreviousClickable(old(loading), |old(books)|, old(currentPage), old(totalPages)) ==>
                State() == old(State()).(currentPage := old(currentPage) - 1)
      ensures !PreviousClickable(old(loading), |old(books)|, old(currentPage), old(totalPages)) ==>
                State() == old(State())
    {
      if PreviousClickable(loading, |books|, currentPage, totalPages) {
        currentPage := currentPage - 1;
      }
    }

    /**
     * The Next button: one page on, when the bar is on screen (not loading,
     * some books listed, more than one page) and the button enabled.
     */
    method ClickNext()
      modifies this
      ensures NextClickable(old(loading), |old(books)|, old(currentPage), old(totalPages)) ==>
                State() == old(State()).(currentPage := old(currentPage) + 1)
      ensures !NextClickable(old(loading), |old(books)|, old(currentPage), old(totalPages)) ==>
                State() == old(State())
    {
      if NextClickable(loading, |books|, currentPage, totalPages) {
        currentPage := currentPage + 1;
      }
    }

    /** `loadBooks` up to the request: loading starts and the list parameters are returned. */
    method LoadBooks() returns (ps: Params)
      modifies this
      ensures ps == ListParams(perPage, old(currentPage), old(filters))
      ensures State() == old(State()).(loading := true)
    {
      loading := true;
      ps := [("per_page", JsIntText(perPage)), ("page", JsIntText(currentPage)),
             ("orderby", filters.orderBy), ("order", filters.order)];
      ghost var fixed := ps;
      ps := AppendIfSet(ps, "search", filters.searchTerm);
      ps := AppendIfSet(ps, "genre", filters.selectedGenre);
      ps := AppendIfSet(ps, "author", filters.selectedAuthor);
      ps := AppendIfSet(ps, "year", filters.selectedYear);
      ghost var s, g, a, y := IfSet("search", filters.searchTerm), IfSet("genre", filters.selectedGenre),
                              IfSet("author", filters.selectedAuthor), IfSet("year", filters.selectedYear);
      assert ps == fixed + s + g + a + y;
      assert fixed + s + g + a + y == fixed + (s + (g + (a + y)));
    }

    /**
     * The list response arrived: the books and the two totals, 0 books and
     * 1 page when a header is missing.
     */
    method BooksLoaded(data: seq<FormattedBook>, totalHeader: Option<int>, totalPagesHeader: Option<int>)
      modifies this
      ensures State() == old(State()).(books := data, totalBooks := totalHeader.GetOr(0),
                                       totalPages := totalPagesHeader.GetOr(1), loading := false)
    {
      books := data;
      totalBooks := totalHeader.GetOr(0);
      totalPages := totalPagesHeader.GetOr(1);
      loading := false;
    }

    /** The list request failed. */
    method LoadFailed(message: string)
      modifies this
      ensures State() == old(State()).(error := LoadErrorPrefix + message, loading := false)
    {
      error := LoadErrorPrefix + message;
      loading := false;
    }
  }
}
