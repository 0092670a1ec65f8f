/**
 * The admin side of the `book` post type: the details meta box's save hook
 * and the extra columns of the book list table.
 */
module CptBook {
  import opened Wrappers
  import opened Strings
  import opened Php
  import opened PhpArray
  import opened Host

  /** The form field that carries the meta box's nonce. */
  const NonceField := "bookshelf_book_details_nonce"

  /**
   * The three guards of `bookshelf_save_book_details`: a nonce that is posted
   * and verifies, not an autosave, and a user allowed to edit the post.
   */
  predicate MaySave(form: map<string, string>, verifyNonce: string -> bool, doingAutosave: bool, canEditPost: bool) {
    && NonceField in form && verifyNonce(form[NonceField])
    && !doingAutosave
    && canEditPost
  }

  /** A posted numeric field as stored after `absint`, or None when the field is not posted. */
  function PostedAbsint(form: map<string, string>, field: string): (r: Option<string>)
    ensures r.Some? <==> field in form
    ensures r.Some? ==> r.value == AbsintText(form[field])
  {
    if field in form then Some(AbsintText(form[field])) else None
  }

  /** The post's meta after the four conditional writes. */
  function SavedDetails(meta: map<string, string>, form: map<string, string>, sanitizeText: string -> string)
    : map<string, string>
  {
    var m1 := PutIfPresent(meta, "author", Posted(form, "book_author", sanitizeText));
    var m2 := PutIfPresent(m1, "published_year", PostedAbsint(form, "book_published_year"));
    var m3 := PutIfPresent(m2, "isbn", Posted(form, "book_isbn", sanitizeText));
    PutIfPresent(m3, "pages", PostedAbsint(form, "book_pages"))
  }

  /**
   * `bookshelf_save_book_details` on the `save_post` hook. The host supplies
   * the posted form, the nonce check, the autosave flag, the capability check
   * and `sanitize_text_field`. When a guard fails nothing is written;
   * otherwise only the post's own meta changes.
   */
  method SaveBookDetails(site: Site, postId: PostId, form: map<string, string>,
                         verifyNonce: string -> bool, doingAutosave: bool, canEditPost: bool,
                         sanitizeText: string -> string)
    requires postId in site.posts
    modifies site
    ensures site.terms == old(site.terms)
    ensures !MaySave(form, verifyNonce, doingAutosave, canEditPost) ==> site.posts == old(site.posts)
    ensures MaySave(form, verifyNonce, doingAutosave, canEditPost) ==>
              site.posts == old(site.posts)[postId :=
                old(site.posts)[postId].(meta := SavedDetails(old(site.posts)[postId].meta, form, sanitizeText))]
  {
    if !(NonceField in form && verifyNonce(form[NonceField])) {
      return;
    }
    if doingAutosave {
      return;
    }
    if !canEditPost {
      return;
    }

    ghost var before := site.posts;
    ghost var cur := site.posts[postId];
    assert site.posts == before[postId := cur];
    WriteMetaIfPresent(site, postId, "author", Posted(form, "book_author", sanitizeText), before, cur);
    cur := cur.(meta := PutIfPresent(cur.meta, "author", Posted(form, "book_author", sanitizeText)));
    WriteMetaIfPresent(site, postId, "published_year", PostedAbsint(form, "book_published_year"), before, cur);
    cur := cur.(meta := PutIfPresent(cur.meta, "published_year", PostedAbsint(form, "book_published_year")));
    WriteMetaIfPresent(site, postId, "isbn", Posted(form, "book_isbn", sanitizeText), before, cur);
    cur := cur.(meta := PutIfPresent(cur.meta, "isbn", Posted(form, "book_isbn", sanitizeText)));
    WriteMetaIfPresent(site, postId, "pages", PostedAbsint(form, "book_pages"), before, cur);
  }

  /**
   * Each of the four fields is written exactly when it is posted (author and
   * ISBN through the text sanitiser, year and pages through `absint`); every
   * other meta key, and every field not posted, keeps its value.
   */
  lemma SavedDetailsFields(meta: map<string, string>, form: map<string, string>,
                           sanitizeText: string -> string, key: string)
    ensures Lookup(SavedDetails(meta, form, sanitizeText), key) ==
      if key == "author" && "book_author" in form then Some(sanitizeText(form["book_author"]))
      else if key == "published_year" && "book_published_year" in form then Some(AbsintText(form["book_published_year"]))
      else if key == "isbn" && "book_isbn" in form then Some(sanitizeText(form["book_isbn"]))
      else if key == "pages" && "book_pages" in form then Some(AbsintText(form["book_pages"]))
      else Lookup(meta, key)
  {
    var m1 := PutIfPresent(meta, "author", Posted(form, "book_author", sanitizeText));
    var m2 := PutIfPresent(m1, "published_year", PostedAbsint(form, "book_published_year"));
    var m3 := PutIfPresent(m2, "isbn", Posted(form, "book_isbn", sanitizeText));
    LookupPutIfPresent(meta, "author", Posted(form, "book_author", sanitizeText), key);
    LookupPutIfPresent(m1, "published_year", PostedAbsint(form, "book_published_year"), key);
    LookupPutIfPresent(m2, "isbn", Posted(form, "book_isbn", sanitizeText), key);
    LookupPutIfPresent(m3, "pages", PostedAbsint(form, "book_pages"), key);
  }

  /**
   * A posted year or page count is stored as decimal digits whose value is
   * the non-negative `absint` of what was posted, and which the same
   * sanitiser would leave unchanged on a second save.
   */
  lemma SavedNumbers(meta: map<string, string>, form: map<string, string>, sanitizeText: string -> string,
                     key: string, field: string)
    requires (key, field) == ("published_year", "book_published_year") || (key, field) == ("pages", "book_pages")
    requires field in form
    ensures var m := SavedDetails(meta, form, sanitizeText);
      && key in m && AllDigits(m[key])
      && IntCast(m[key]) == Absint(IntCast(form[field])) >= 0
      && AbsintText(m[key]) == m[key]
  {
    SavedDetailsFields(meta, form, sanitizeText, key);
    AbsintTextIdempotent(form[field]);
  }

  /**
   * `bookshelf_book_columns`: a fresh column list with exactly the keys cb,
   * title, author, published_year, genre and date. The cb, title and date
   * labels are copied from the incoming list (null when it has none).
   */
  function BookColumns(columns: Assoc<string, string>): (r: Assoc<string, Option<string>>)
    ensures Keys(r) == ["cb", "title", "author", "published_year", "genre", "date"]
    ensures DistinctKeys(r)
  {
    var r := [ ("cb", Get(columns, "cb")),
               ("title", Get(columns, "title")),
               ("author", Some("Autor")),
               ("published_year", Some("Año")),
               ("genre", Some("Género")),
               ("date", Get(columns, "date")) ];
    assert |r[0].0| == 2 && |r[2].0| == 6 && |r[3].0| == 14 && |r[5].0| == 4;
    assert |r[1].0| == |r[4].0| == 5 && r[1].0[0] != r[4].0[0];
    r
  }

  /**
   * The incoming labels of cb, title and date survive, the three book columns
   * carry their fixed labels, and every other incoming column is dropped.
   */
  lemma BookColumnsLabels(columns: Assoc<string, string>, k: string)
    ensures k in {"cb", "title", "date"} ==> Get(BookColumns(columns), k) == Some(Get(columns, k))
    ensures Get(BookColumns(columns), "author") == Some(Some("Autor"))
    ensures Get(BookColumns(columns), "published_year") == Some(Some("Año"))
    ensures Get(BookColumns(columns), "genre") == Some(Some("Género"))
    ensures k !in {"cb", "title", "author", "published_year", "genre", "date"} ==> Get(BookColumns(columns), k).None?
  {
    var r := BookColumns(columns);
    GetAt(r, 0);
    GetAt(r, 1);
    GetAt(r, 2);
    GetAt(r, 3);
    GetAt(r, 4);
    GetAt(r, 5);
  }

  /** The names of a term list, in order. */
  function TermNames(items: seq<(TermId, Term)>): (names: seq<string>)
    ensures |names| == |items| && forall i :: 0 <= i < |items| ==> names[i] == items[i].1.name
  {
    if items == [] then [] else [items[0].1.name] + TermNames(items[1..])
  }

  /** `get_the_terms` for a post id: false when there is no such post. */
  function PostTerms(posts: map<PostId, Post>, terms: map<TermId, Term>, postId: PostId): TermsResult {
    if postId in posts then TheTerms(posts[postId], terms) else NoTerms
  }

  /** `get_post_meta($post_id, $key, true)` for a post id: empty when there is no such post. */
  function MetaOf(posts: map<PostId, Post>, postId: PostId, key: string): string {
    if postId in posts then PostMeta(posts[postId], key) else ""
  }

  /**
   * `bookshelf_book_custom_column`: the text echoed into a cell. Author and
   * year cells show the escaped meta value; the genre cell shows the escaped
   * term names joined by ", ", or nothing when the lookup gave no terms or an
   * error; any other column shows nothing.
   */
  function BookCustomColumn(column: string, postId: PostId, posts: map<PostId, Post>, terms: map<TermId, Term>,
                            escHtml: string -> string): (out: string)
    ensures column == "author" ==> out == escHtml(MetaOf(posts, postId, "author"))
    ensures column == "published_year" ==> out == escHtml(MetaOf(posts, postId, "published_year"))
    ensures column == "genre" && PostTerms(posts, terms, postId).Terms? ==>
              out == escHtml(Join(TermNames(PostTerms(posts, terms, postId).items), ", "))
    ensures column == "genre" && !PostTerms(posts, terms, postId).Terms? ==> out == ""
    ensures column !in {"author", "published_year", "genre"} ==> out == ""
  {
    if column == "author" then escHtml(MetaOf(posts, postId, "author"))
    else if column == "published_year" then escHtml(MetaOf(posts, postId, "published_year"))
    else if column == "genre" then
      var t := PostTerms(posts, terms, postId);
      if t.Terms? && t.items != [] then escHtml(Join(TermNames(t.items), ", ")) else ""
    else ""
  }

  /** Before escaping, the genre cell's text contains the name of every genre of the book. */
  lemma GenreCellNamesEveryGenre(posts: map<PostId, Post>, terms: map<TermId, Term>, postId: PostId, k: nat)
    requires PostTerms(posts, terms, postId).Terms? && k < |PostTerms(posts, terms, postId).items|
    ensures var items := PostTerms(posts, terms, postId).items;
      exists off :: OccursAt(Join(TermNames(items), ", "), items[k].1.name, off)
  {
    var items := PostTerms(posts, terms, postId).items;
    JoinContainsParts(TermNames(items), ", ", k);
  }
}
