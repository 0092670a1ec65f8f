/**
 * The admin side of the `genre` taxonomy: the save hook for the colour and
 * extended-description fields, the colour column of the term list, and the
 * colour shown by the edit form.
 */
module TaxonomyGenre {
  import opened Wrappers
  import opened Php
  import opened PhpArray
  import opened Host

  /** The term's meta after the two conditional writes. */
  function SavedGenreFields(meta: map<string, string>, form: map<string, string>,
                            sanitizeHex: string -> string, sanitizeTextarea: string -> string): map<string, string>
  {
    var m1 := PutIfPresent(meta, "genre_color", Posted(form, "genre_color", sanitizeHex));
    PutIfPresent(m1, "genre_description_extended", Posted(form, "genre_description_extended", sanitizeTextarea))
  }

  /** The third argument a term hook hands on: a taxonomy name or an array of arguments. */
  datatype HookArg = TextArg(s: string) | ArrayArg(entries: map<string, string>)

  /**
   * `bookshelf_save_genre_fields($term_id, $tt_id, $taxonomy)`. The host
   * supplies the posted form and the two sanitisers (`sanitize_hex_color`,
   * `sanitize_textarea_field`). Unless the third argument is the string
   * 'genre' (`!==` is strict) nothing is written; otherwise only the term's
   * own meta changes.
   */
  method SaveGenreFields(site: Site, termId: TermId, ttId: nat, taxonomy: HookArg, form: map<string, string>,
                         sanitizeHex: string -> string, sanitizeTextarea: string -> string)
    requires termId in site.terms
    modifies site
    ensures site.posts == old(site.posts)
    ensures taxonomy != TextArg("genre") ==> site.terms == old(site.terms)
    ensures taxonomy == TextArg("genre") ==>
              site.terms == old(site.terms)[termId :=
                old(site.terms)[termId].(meta := SavedGenreFields(old(site.terms)[termId].meta, form,
                                                                  sanitizeHex, sanitizeTextarea))]
  {
    if taxonomy != TextArg("genre") {
      return;
    }
    ghost var before := site.terms;
    ghost var cur := site.terms[termId];
    assert site.terms == before[termId := cur];
    WriteTermMetaIfPresent(site, termId, "genre_color", Posted(form, "genre_color", sanitizeHex), before, cur);
    cur := cur.(meta := PutIfPresent(cur.meta, "genre_color", Posted(form, "genre_color", sanitizeHex)));
    WriteTermMetaIfPresent(site, termId, "genre_description_extended",
                           Posted(form, "genre_description_extended", sanitizeTextarea), before, cur);
  }

  /**
   * The hooks the function is registered on, as written: `created_genre` and
   * `edited_genre` pass `($term_id, $tt_id, $args)`, the third an array of
   * the term's arguments, so the strict comparison with 'genre' never holds
   * and nothing is ever saved.
   */
  method OnGenreTermSaved(site: Site, termId: TermId, ttId: nat, args: map<string, string>,
                          form: map<string, string>, sanitizeHex: string -> string,
                          sanitizeTextarea: string -> string)
    requires termId in site.terms
    modifies site
    ensures site.posts == old(site.posts) && site.terms == old(site.terms)
  {
    SaveGenreFields(site, termId, ttId, ArrayArg(args), form, sanitizeHex, sanitizeTextarea);
  }

  /**
   * The registration the function's signature evidently intends: the
   * `created_term` and `edited_term` hooks pass `($term_id, $tt_id,
   * $taxonomy)`, so a genre term's posted fields are saved and terms of any
   * other taxonomy are left alone.
   */
  method OnTermSaved(site: Site, termId: TermId, ttId: nat, taxonomy: string,
                     form: map<string, string>, sanitizeHex: string -> string,
                     sanitizeTextarea: string -> string)
    requires termId in site.terms
    modifies site
    ensures site.posts == old(site.posts)
    ensures taxonomy != "genre" ==> site.terms == old(site.terms)
    ensures taxonomy == "genre" ==>
              site.terms == old(site.terms)[termId :=
                old(site.terms)[termId].(meta := SavedGenreFields(old(site.terms)[termId].meta, form,
                                                                  sanitizeHex, sanitizeTextarea))]
  {
    SaveGenreFields(site, termId, ttId, TextArg(taxonomy), form, sanitizeHex, sanitizeTextarea);
  }

  /**
   * The colour and the extended description are each written exactly when
   * posted, independently of each other; every other meta key is untouched.
   */
  lemma SavedGenreFieldsIndependent(meta: map<string, string>, form: map<string, string>,
                                    sanitizeHex: string -> string, sanitizeTextarea: string -> string, key: string)
    ensures Lookup(SavedGenreFields(meta, form, sanitizeHex, sanitizeTextarea), key) ==
      if key == "genre_color" && "genre_color" in form then Some(sanitizeHex(form["genre_color"]))
      else if key == "genre_description_extended" && "genre_description_extended" in form
      then Some(sanitizeTextarea(form["genre_description_extended"]))
      else Lookup(meta, key)
  {
    var m1 := PutIfPresent(meta, "genre_color", Posted(form, "genre_color", sanitizeHex));
    LookupPutIfPresent(meta, "genre_color", Posted(form, "genre_color", sanitizeHex), key);
    LookupPutIfPresent(m1, "genre_description_extended",
                       Posted(form, "genre_description_extended", sanitizeTextarea), key);
  }

  /**
   * `bookshelf_add_genre_columns`: adds the colour column labelled 'Color'
   * and keeps every existing column and its label.
   */
  function AddGenreColumns(columns: Assoc<string, string>): (r: Assoc<string, string>)
    ensures Get(r, "genre_color") == Some("Color")
    ensures forall k :: k != "genre_color" ==> Get(r, k) == Get(columns, k)
    ensures Get(columns, "genre_color").None? ==> Keys(r) == Keys(columns) + ["genre_color"]
    ensures Get(columns, "genre_color").Some? ==> Keys(r) == Keys(columns)
  {
    var r := Put(columns, "genre_color", "Color");
    forall k
      ensures Get(r, k) == if k == "genre_color" then Some("Color") else Get(columns, k)
    {
      GetPut(columns, "genre_color", "Color", k);
    }
    r
  }

  /** The colour swatch shown in the colour column, around an already escaped colour. */
  function Swatch(escapedColor: string): string {
    "<span style=\"display: inline-block; width: 20px; height: 20px; background-color: "
    + escapedColor + "; border: 1px solid #ccc; border-radius: 3px;\"></span>"
  }

  /** `get_term_meta($term_id, $key, true)` for a term id: empty when there is no such term. */
  function TermMetaOf(terms: map<TermId, Term>, termId: TermId, key: string): string {
    if termId in terms then TermMeta(terms[termId], key) else ""
  }

  /**
   * `bookshelf_genre_column_content`: the colour column of a term with a
   * stored colour shows a swatch of that colour; everything else is passed
   * through unchanged.
   */
  function GenreColumnContent(content: string, columnName: string, termId: TermId, terms: map<TermId, Term>,
                              escAttr: string -> string): (r: string)
    ensures columnName != "genre_color" ==> r == content
    ensures columnName == "genre_color" && !Truthy(TermMetaOf(terms, termId, "genre_color")) ==> r == content
    ensures columnName == "genre_color" && Truthy(TermMetaOf(terms, termId, "genre_color")) ==>
              r == Swatch(escAttr(TermMetaOf(terms, termId, "genre_color")))
  {
    if columnName == "genre_color" then
      var color := TermMetaOf(terms, termId, "genre_color");
      if Truthy(color) then Swatch(escAttr(color)) else content
    else content
  }

  /** The colour the edit form shows (before `esc_attr`): the stored one, or black when none is stored. */
  function EditFormColor(color: string): (shown: string)
    ensures Truthy(color) ==> shown == color
    ensures !Truthy(color) ==> shown == "#000000"
  {
    if Truthy(color) then color else "#000000"
  }

  /**
   * Once a colour is saved (by the save function receiving the taxonomy
   * name, as OnTermSaved passes it), the edit form shows the sanitised
   * colour, unless the sanitiser rejected it.
   */
  lemma SavedColorIsShown(t: Term, form: map<string, string>, sanitizeHex: string -> string,
                          sanitizeTextarea: string -> string)
    requires "genre_color" in form
    ensures var saved := t.(meta := SavedGenreFields(t.meta, form, sanitizeHex, sanitizeTextarea));
      var hex := sanitizeHex(form["genre_color"]);
      EditFormColor(TermMeta(saved, "genre_color")) == if Truthy(hex) then hex else "#000000"
  {
    SavedGenreFieldsIndependent(t.meta, form, sanitizeHex, sanitizeTextarea, "genre_color");
  }

  /**
   * Once a colour is saved (as OnTermSaved saves it), the term list's colour
   * column shows a swatch of it, unless the sanitiser rejected it; then the
   * cell keeps its incoming content.
   */
  lemma SavedColorShownInColumn(terms: map<TermId, Term>, termId: TermId, form: map<string, string>,
                                sanitizeHex: string -> string, sanitizeTextarea: string -> string,
                                content: string, escAttr: string -> string)
    requires termId in terms && "genre_color" in form
    ensures var t := terms[termId];
      var saved := terms[termId := t.(meta := SavedGenreFields(t.meta, form, sanitizeHex, sanitizeTextarea))];
      var hex := sanitizeHex(form["genre_color"]);
      GenreColumnContent(content, "genre_color", termId, saved, escAttr) ==
        if Truthy(hex) then Swatch(escAttr(hex)) else content
  {
    var t := terms[termId];
    SavedGenreFieldsIndependent(t.meta, form, sanitizeHex, sanitizeTextarea, "genre_color");
  }
}
