/**
 * The REST layer's helpers: the book response shape, the title / author /
 * year validators, the genre-list sanitiser and the argument schema shared by
 * the create and update routes.
 */
module Helpers {
  import opened Wrappers
  import opened Strings
  import opened Php
  import opened PhpArray
  import opened Host

  /** One entry of a book's `genres` list in a response. */
  datatype GenreEntry = GenreEntry(id: TermId, name: string, slug: string, color: string)

  /** The JSON object a book is rendered as. */
  datatype FormattedBook = FormattedBook(
    id: PostId,
    title: string,
    content: string,
    excerpt: string,
    author: string,
    publishedYear: string,
    isbn: string,
    pages: string,
    genres: seq<GenreEntry>,
    dateCreated: string,
    dateModified: string,
    featuredImage: Option<string>)

  /** One genre entry per term, in term order, with the term's stored colour. */
  function GenreData(items: seq<(TermId, Term)>): (r: seq<GenreEntry>)
    ensures |r| == |items|
    ensures forall i :: 0 <= i < |items| ==>
              && r[i].id == items[i].0
              && r[i].name == items[i].1.name
              && r[i].slug == items[i].1.slug
              && r[i].color == TermMeta(items[i].1, "genre_color")
  {
    if items == [] then []
    else
      [GenreEntry(items[0].0, items[0].1.name, items[0].1.slug, TermMeta(items[0].1, "genre_color"))]
      + GenreData(items[1..])
  }

  /** The ids of a response's genre entries. */
  function GenreIds(gs: seq<GenreEntry>): (ids: seq<TermId>)
    ensures |ids| == |gs| && forall i :: 0 <= i < |gs| ==> ids[i] == gs[i].id
  {
    if gs == [] then [] else [gs[0].id] + GenreIds(gs[1..])
  }

  /**
   * `bookshelf_format_book`: the post's columns copied as they are, its four
   * meta fields as stored (empty when missing), and one genre entry per
   * assigned term; no genre entries when the term lookup gave false or an error.
   */
  function FormatBook(id: PostId, p: Post, terms: TermsResult): (r: FormattedBook)
    ensures r.id == id && r.title == p.title && r.content == p.content && r.excerpt == p.excerpt
    ensures r.dateCreated == p.date && r.dateModified == p.modified
    ensures r.author == PostMeta(p, "author") && r.publishedYear == PostMeta(p, "published_year")
    ensures r.isbn == PostMeta(p, "isbn") && r.pages == PostMeta(p, "pages")
    ensures r.featuredImage == p.thumbnailUrl
    ensures !terms.Terms? ==> r.genres == []
    ensures terms.Terms? ==> r.genres == GenreData(terms.items) && GenreIds(r.genres) == Keys(terms.items)
  {
    var genreData := if terms.Terms? then GenreData(terms.items) else [];
    FormattedBook(
      id, p.title, p.content, p.excerpt,
      PostMeta(p, "author"), PostMeta(p, "published_year"), PostMeta(p, "isbn"), PostMeta(p, "pages"),
      genreData, p.date, p.modified, p.thumbnailUrl)
  }

  /** `!empty(trim($param))`: used for both the title and the author. */
  function NonBlank(param: string): (r: bool)
    ensures r <==> (exists i :: 0 <= i < |param| && !IsTrimSpace(param[i])) && Trim(param) != "0"
  {
    TrimEmptyIffAllSpace(param, IsTrimSpace);
    Truthy(Trim(param))
  }

  /** `bookshelf_validate_title`. */
  function ValidateTitle(param: string): (r: bool)
    ensures r == NonBlank(param)
  {
    NonBlank(param)
  }

  /** `bookshelf_validate_author`. */
  function ValidateAuthor(param: string): (r: bool)
    ensures r == NonBlank(param)
  {
    NonBlank(param)
  }

  /**
   * PHP's `empty` treats "0" as empty, so a title or author that is "0",
   * with or without surrounding white space, is refused.
   */
  lemma ZeroIsBlank(pre: string, post: string)
    requires forall i :: 0 <= i < |pre| ==> IsTrimSpace(pre[i])
    requires forall i :: 0 <= i < |post| ==> IsTrimSpace(post[i])
    ensures !ValidateTitle(pre + "0" + post) && !ValidateAuthor(pre + "0" + post)
  {
    var s := pre + "0" + post;
    var r := Trim(s);
    var a, b :| && 0 <= a <= b <= |s| && r == s[a..b]
                && (forall i :: 0 <= i < a ==> IsTrimSpace(s[i]))
                && (forall i :: b <= i < |s| ==> IsTrimSpace(s[i]));
    assert s[|pre|] == '0';
    assert forall i :: 0 <= i < |s| && i != |pre| ==> IsTrimSpace(s[i]);
    assert a <= |pre| < b;
    assert r == s[|pre|..|pre| + 1] == "0";
  }

  /**
   * `bookshelf_validate_year`: `$param >= 1000 && $param <= date('Y')` on the
   * value as the request carries it, before the `absint` sanitiser runs. The
   * current year is numeric text, so both comparisons follow PHP 8's rules
   * for comparing with a number: by value for an integer or a numeric
   * string, and as strings for any other string.
   */
  function ValidateYear(param: JsonValue, currentYear: nat): (r: bool)
    ensures param.JsonInt? ==> (r <==> 1000 <= param.n <= currentYear)
    ensures param.JsonText? && IsNumericText(param.s) ==> (r <==> 1000 <= IntCast(param.s) <= currentYear)
  {
    match param
    case JsonInt(n) => n >= 1000 && n <= currentYear
    case JsonText(s) => CompareTextNat(s, 1000) >= 0 && CompareTextNat(s, currentYear) <= 0
  }

  /** A year given as decimal text is judged exactly as the same year given as a number. */
  lemma DecimalYearText(n: nat, currentYear: nat)
    ensures ValidateYear(JsonText(NatToDecimal(n)), currentYear) == ValidateYear(JsonInt(n), currentYear)
  {
    DecimalIsNumeric(n);
    IntCastOfDecimal(n);
  }

  /** A blank year is refused: "" is not numeric and sorts before "1000". */
  lemma BlankYearRefused(currentYear: nat)
    ensures !ValidateYear(JsonText(""), currentYear)
  {
  }

  /** A numeric year that was valid stays valid in later years. */
  lemma ValidYearStaysValid(param: JsonValue, currentYear: nat, laterYear: nat)
    requires param.JsonInt? || IsNumericText(param.s)
    requires currentYear <= laterYear && ValidateYear(param, currentYear)
    ensures ValidateYear(param, laterYear)
  {
  }

  /** The leading digit of a four-digit number. */
  lemma LeadingDigit(n: nat)
    requires 1000 <= n <= 9999
    ensures NatToDecimal(n)[0] == DigitChar(n / 1000)
  {
    var a := n / 10;
    var b := a / 10;
    var c := b / 10;
    assert c == n / 1000 && c < 10;
    assert NatToDecimal(b) == NatToDecimal(c) + [DigitChar(b % 10)];
    assert NatToDecimal(a) == NatToDecimal(b) + [DigitChar(a % 10)];
    assert NatToDecimal(n) == NatToDecimal(a) + [DigitChar(n % 10)];
  }

  /** "1a" is not a numeric string, and its integer value is 1. */
  lemma OneANotNumeric()
    ensures !IsNumericText("1a") && IntCast("1a") == 1
  {
    var s := "1a";
    assert DropLeading(s, IsNumericSpace) == s by { assert !IsNumericSpace(s[0]); }
    assert DigitPrefix(s[1..]) == [] by { assert s[1..] == "a"; }
    assert DigitPrefix(s) == "1";
    assert Unsigned(s) == s && s[1..] == "a";
    assert !AllNumericSpace(s[1..]);
    assert IntCast(s) == DecimalValue("1");
  }

  /** As strings, "1a" sorts after "1000" and before any year from 2000 to 9999. */
  lemma OneASortsBetween(currentYear: nat)
    requires 2000 <= currentYear <= 9999
    ensures StrCmp("1a", NatToDecimal(1000)) == 1
    ensures StrCmp("1a", NatToDecimal(currentYear)) == -1
  {
    LeadingDigit(1000);
    LeadingDigit(currentYear);
    var t := NatToDecimal(1000);
    assert |t| >= 2 by { assert NatToDecimal(1000) == NatToDecimal(100) + [DigitChar(0)]; }
    assert t[1] == '0' by {
      assert NatToDecimal(100) == NatToDecimal(10) + [DigitChar(0)];
      assert NatToDecimal(10) == NatToDecimal(1) + [DigitChar(0)];
      assert NatToDecimal(1000) == NatToDecimal(100) + [DigitChar(0)];
    }
    assert StrCmp("1a"[1..], t[1..]) == 1;
  }

  /**
   * A string that only starts with a digit is compared as a string, so
   * "1a" passes the year check in any year from 2000 to 9999, and the
   * `absint` sanitiser then turns it into the year 1.
   */
  lemma JunkYearPassesAsOne(currentYear: nat)
    requires 2000 <= currentYear <= 9999
    ensures ValidateYear(JsonText("1a"), currentYear)
    ensures Absint(Intval(JsonText("1a"))) == 1
  {
    OneANotNumeric();
    OneASortsBetween(currentYear);
  }

  /**
   * The year check the create and update routes evidently intend: the field
   * is optional and only written when truthy, so a blank year is allowed;
   * any other value must be a whole number from 1000 up to the current year.
   */
  function ValidateOptionalYear(param: JsonValue, currentYear: nat): (r: bool)
    ensures param == JsonText("") ==> r
    ensures r && param != JsonText("") ==> 1000 <= Absint(Intval(param)) == Intval(param) <= currentYear
    ensures param != JsonText("") && (param.JsonInt? || IsNumericText(param.s)) ==>
              (r <==> ValidateYear(param, currentYear))
  {
    match param
    case JsonInt(n) => 1000 <= n <= currentYear
    case JsonText(s) => s == "" || (IsNumericText(s) && 1000 <= IntCast(s) <= currentYear)
  }

  /** What a `genres` parameter can hold before the `(array)` cast. */
  datatype GenresInput = GenresNull | GenresScalar(v: int) | GenresList(items: seq<int>)

  /** `(array) $genres`: null is the empty array, a scalar a one-element array. */
  function ToArray(g: GenresInput): (r: seq<int>)
    ensures g.GenresNull? ==> r == []
    ensures g.GenresScalar? ==> r == [g.v]
    ensures g.GenresList? ==> r == g.items
  {
    match g
    case GenresNull => []
    case GenresScalar(v) => [v]
    case GenresList(items) => items
  }

  /** `array_map('absint', ...)`. */
  function AbsintAll(xs: seq<int>): (r: seq<nat>)
    ensures |r| == |xs| && forall i :: 0 <= i < |xs| ==> r[i] == Absint(xs[i])
  {
    if xs == [] then [] else [Absint(xs[0])] + AbsintAll(xs[1..])
  }

  /** `bookshelf_sanitize_genres`: one non-negative id per element of the cast input. */
  function SanitizeGenres(g: GenresInput): (r: seq<nat>)
    ensures |r| == |ToArray(g)|
    ensures forall i :: 0 <= i < |r| ==> r[i] == Absint(ToArray(g)[i])
  {
    AbsintAll(ToArray(g))
  }

  /** Sanitising an already sanitised list changes nothing. */
  lemma SanitizeGenresIdempotent(g: GenresInput)
    ensures SanitizeGenres(GenresList(SanitizeGenres(g))) == SanitizeGenres(g)
  {
    var r := SanitizeGenres(g);
    var r2 := SanitizeGenres(GenresList(r));
    assert |r2| == |r|;
    forall i | 0 <= i < |r|
      ensures r2[i] == r[i]
    {
      assert ToArray(GenresList(r))[i] == r[i];
    }
  }

  /** The sanitise callbacks the argument schema names. */
  datatype Sanitizer = SanitizeTextField | KsesPost | AbsintCallback | SanitizeGenresCallback

  /** The validate callbacks the argument schema names. */
  datatype Validator = ValidateTitleCallback | ValidateAuthorCallback | ValidateYearCallback

  /** One route argument's schema. */
  datatype ArgSchema = ArgSchema(
    argType: string,
    itemsType: Option<string>,
    sanitize: Sanitizer,
    validate: Option<Validator>,
    required: bool)

  /** `bookshelf_get_common_book_args`. */
  function CommonBookArgs(): (r: Assoc<string, ArgSchema>)
    ensures Keys(r) == ["title", "content", "author", "published_year", "isbn", "pages", "genres"]
    ensures DistinctKeys(r)
    ensures forall i :: 0 <= i < |r| ==> !r[i].1.required
  {
    var r :=
    [ ("title", ArgSchema("string", None, SanitizeTextField, Some(ValidateTitleCallback), false)),
      ("content", ArgSchema("string", None, KsesPost, None, false)),
      ("author", ArgSchema("string", None, SanitizeTextField, Some(ValidateAuthorCallback), false)),
      ("published_year", ArgSchema("integer", None, AbsintCallback, Some(ValidateYearCallback), false)),
      ("isbn", ArgSchema("string", None, SanitizeTextField, None, false)),
      ("pages", ArgSchema("integer", None, AbsintCallback, None, false)),
      ("genres", ArgSchema("array", Some("integer"), SanitizeGenresCallback, None, false)) ];
    // Keys of equal length differ in their first letter.
    assert |r[0].0| == |r[5].0| == 5 && r[0].0[0] != r[5].0[0];
    assert |r[2].0| == |r[6].0| == 6 && r[2].0[0] != r[6].0[0];
    assert |r[1].0| == 7 && |r[3].0| == 14 && |r[4].0| == 4;
    r
  }

  /** The callbacks the shared schema attaches to each field. */
  lemma CommonBookArgsCallbacks()
    ensures Get(CommonBookArgs(), "title").Some?
            && Get(CommonBookArgs(), "title").value.validate == Some(ValidateTitleCallback)
    ensures Get(CommonBookArgs(), "author").Some?
            && Get(CommonBookArgs(), "author").value.validate == Some(ValidateAuthorCallback)
    ensures Get(CommonBookArgs(), "published_year").Some?
            && Get(CommonBookArgs(), "published_year").value.validate == Some(ValidateYearCallback)
            && Get(CommonBookArgs(), "published_year").value.sanitize == AbsintCallback
    ensures Get(CommonBookArgs(), "pages").Some?
            && Get(CommonBookArgs(), "pages").value.sanitize == AbsintCallback
    ensures Get(CommonBookArgs(), "genres").Some?
            && Get(CommonBookArgs(), "genres").value.sanitize == SanitizeGenresCallback
  {
    var r := CommonBookArgs();
    GetAt(r, 0);
    GetAt(r, 2);
    GetAt(r, 3);
    GetAt(r, 5);
    GetAt(r, 6);
  }

  /**
   * The create route's schema: the shared schema with title and author
   * marked required (`array_merge` keeps each key's position).
   */
  function CreateBookArgs(): Assoc<string, ArgSchema> {
    var common := CommonBookArgs();
    var title := Get(common, "title").GetOr(ArgSchema("string", None, SanitizeTextField, None, false));
    var author := Get(common, "author").GetOr(ArgSchema("string", None, SanitizeTextField, None, false));
    Put(Put(common, "title", title.(required := true)), "author", author.(required := true))
  }

  /** The create route requires exactly title and author and otherwise uses the shared schema. */
  lemma CreateBookArgsRequired(k: string)
    ensures Keys(CreateBookArgs()) == Keys(CommonBookArgs())
    ensures Get(CreateBookArgs(), k).Some? <==> Get(CommonBookArgs(), k).Some?
    ensures Get(CreateBookArgs(), k).Some? ==>
              (Get(CreateBookArgs(), k).value.required <==> k == "title" || k == "author")
    ensures k != "title" && k != "author" ==> Get(CreateBookArgs(), k) == Get(CommonBookArgs(), k)
    ensures k == "title" || k == "author" ==>
              Get(CreateBookArgs(), k).Some?
              && Get(CreateBookArgs(), k).value == Get(CommonBookArgs(), k).value.(required := true)
  {
    var common := CommonBookArgs();
    CommonBookArgsCallbacks();
    var title := Get(common, "title").value;
    var author := Get(common, "author").value;
    var step := Put(common, "title", title.(required := true));
    GetPut(common, "title", title.(required := true), k);
    GetPut(common, "title", title.(required := true), "author");
    GetPut(step, "author", author.(required := true), k);
    if Get(common, k).Some? && k != "title" && k != "author" {
      var i :| 0 <= i < |common| && common[i] == (k, Get(common, k).value);
      assert !common[i].1.required;
    }
  }

  /** A numeric year that passes validation is left unchanged by the `absint` sanitiser. */
  lemma ValidatedYearSurvivesSanitize(param: JsonValue, currentYear: nat)
    requires param.JsonInt? || IsNumericText(param.s)
    requires ValidateYear(param, currentYear)
    ensures 1000 <= Absint(Intval(param)) == Intval(param) <= currentYear
    ensures IntMeta(Absint(Intval(param))) == NatToDecimal(Intval(param))
  {
  }
}
