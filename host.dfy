/**
 * The host platform's content store, reduced to what the plugin reads and
 * writes: posts (with their meta fields and genre assignment) and taxonomy
 * terms (with their meta fields). Meta values are text, as the host stores
 * them; a missing single meta value reads as the empty string.
 */
module Host {
  import opened Wrappers

  type PostId = nat
  type TermId = nat

  /** A stored post: the columns the plugin uses, its meta table and its genre terms. */
  datatype Post = Post(
    postType: string,
    status: string,
    title: string,
    content: string,
    excerpt: string,
    authorId: nat,
    date: string,
    modified: string,
    meta: map<string, string>,
    genres: seq<TermId>,
    thumbnailUrl: Option<string>)

  /** A stored taxonomy term and its meta table. */
  datatype Term = Term(taxonomy: string, name: string, slug: string, meta: map<string, string>)

  /** `get_post_meta($id, $key, true)`. */
  function PostMeta(p: Post, key: string): (v: string)
    ensures key !in p.meta ==> v == ""
    ensures key in p.meta ==> v == p.meta[key]
  {
    if key in p.meta then p.meta[key] else ""
  }

  /** `get_term_meta($id, $key, true)`. */
  function TermMeta(t: Term, key: string): (v: string)
    ensures key !in t.meta ==> v == ""
    ensures key in t.meta ==> v == t.meta[key]
  {
    if key in t.meta then t.meta[key] else ""
  }

  /**
   * `array_unique` on term ids: each id once, where it first occurs. A list
   * that repeats no id is kept as it is.
   */
  function Unique(ids: seq<TermId>): (r: seq<TermId>)
    ensures forall t :: t in r <==> t in ids
    ensures forall i, j :: 0 <= i < j < |r| ==> r[i] != r[j]
    ensures (forall i, j :: 0 <= i < j < |ids| ==> ids[i] != ids[j]) ==> r == ids
  {
    if ids == [] then []
    else
      var init := ids[..|ids| - 1];
      var last := ids[|ids| - 1];
      assert ids == init + [last];
      var u := Unique(init);
      if last in u then u else u + [last]
  }

  /** The outcome of `get_the_terms`: false, an error object, or a non-empty list. */
  datatype TermsResult = NoTerms | TermsError | Terms(items: seq<(TermId, Term)>)

  /** The genre terms of a post that exist in the term store, in assignment order. */
  function AssignedGenres(ids: seq<TermId>, terms: map<TermId, Term>): (r: seq<(TermId, Term)>)
    ensures |r| <= |ids|
    ensures forall i :: 0 <= i < |r| ==>
              r[i].0 in ids && r[i].0 in terms && terms[r[i].0] == r[i].1 && r[i].1.taxonomy == "genre"
    ensures forall t :: t in ids && t in terms && terms[t].taxonomy == "genre" ==>
              exists i :: 0 <= i < |r| && r[i].0 == t
  {
    if ids == [] then []
    else
      var rest := AssignedGenres(ids[1..], terms);
      var t := ids[0];
      if t in terms && terms[t].taxonomy == "genre" then
        var r := [(t, terms[t])] + rest;
        assert forall u :: u in ids && u != t ==> u in ids[1..];
        assert forall i :: 0 <= i < |rest| ==> r[i + 1] == rest[i];
        assert r[0].0 == t;
        r
      else
        assert forall u :: u in ids && u != t ==> u in ids[1..];
        rest
  }

  /** `get_the_terms($post_id, 'genre')`: false when the post has no genre term. */
  function TheTerms(p: Post, terms: map<TermId, Term>): (r: TermsResult)
    ensures !r.TermsError?
    ensures r.Terms? ==> r.items != [] && r.items == AssignedGenres(p.genres, terms)
    ensures r.NoTerms? <==> AssignedGenres(p.genres, terms) == []
  {
    var items := AssignedGenres(p.genres, terms);
    if items == [] then NoTerms else Terms(items)
  }

  /** The host's post and term tables, updated in place by the plugin's handlers and hooks. */
  class Site {
    var posts: map<PostId, Post>
    var terms: map<TermId, Term>

    constructor (posts0: map<PostId, Post>, terms0: map<TermId, Term>)
      ensures posts == posts0 && terms == terms0
    {
      posts := posts0;
      terms := terms0;
    }

    /** `update_post_meta($id, $key, $value)` on an existing post. */
    method UpdatePostMeta(id: PostId, key: string, value: string)
      requires id in posts
      modifies this
      ensures posts == old(posts)[id := old(posts)[id].(meta := old(posts)[id].meta[key := value])]
      ensures terms == old(terms)
    {
      var p := posts[id];
      posts := posts[id := p.(meta := p.meta[key := value])];
    }

    /**
     * `wp_set_post_terms($id, $genres, 'genre')`: replaces the post's genre
     * assignment. For a hierarchical taxonomy such as genre the host keeps
     * each id once.
     */
    method SetPostGenres(id: PostId, genres: seq<TermId>)
      requires id in posts
      modifies this
      ensures posts == old(posts)[id := old(posts)[id].(genres := Unique(genres))]
      ensures terms == old(terms)
    {
      var p := posts[id];
      posts := posts[id := p.(genres := Unique(genres))];
    }

    /** `wp_insert_post`: stores a new post under a fresh id. */
    method InsertPost(id: PostId, p: Post)
      requires id !in posts
      modifies this
      ensures posts == old(posts)[id := p]
      ensures terms == old(terms)
    {
      posts := posts[id := p];
    }

    /** `wp_update_post` on an existing post: replaces its columns. */
    method ReplacePost(id: PostId, p: Post)
      requires id in posts
      modifies this
      ensures posts == old(posts)[id := p]
      ensures terms == old(terms)
    {
      posts := posts[id := p];
    }

    /** `wp_delete_post($id, true)`: removes the post with its meta and term relationships. */
    method DeletePost(id: PostId)
      modifies this
      ensures posts == old(posts) - {id}
      ensures terms == old(terms)
    {
      posts := posts - {id};
    }

    /** `update_term_meta($id, $key, $value)` on an existing term. */
    method UpdateTermMeta(id: TermId, key: string, value: string)
      requires id in terms
      modifies this
      ensures terms == old(terms)[id := old(terms)[id].(meta := old(terms)[id].meta[key := value])]
      ensures posts == old(posts)
    {
      var t := terms[id];
      terms := terms[id := t.(meta := t.meta[key := value])];
    }
  }

  /** Writes key := value when there is a value to write. */
  function PutIfPresent(m: map<string, string>, key: string, v: Option<string>): map<string, string> {
    if v.Some? then m[key := v.value] else m
  }

  /** The value under key k, or None. */
  function Lookup(m: map<string, string>, k: string): (r: Option<string>)
    ensures r.Some? <==> k in m
    ensures r.Some? ==> r.value == m[k]
  {
    if k in m then Some(m[k]) else None
  }

  /**
   * `isset($_POST[$field]) ? $sanitize($_POST[$field])`: a posted form field
   * passed through its sanitiser, or None when the field is not posted.
   */
  function Posted(form: map<string, string>, field: string, sanitize: string -> string): (r: Option<string>)
    ensures r.Some? <==> field in form
    ensures r.Some? ==> r.value == sanitize(form[field])
  {
    if field in form then Some(sanitize(form[field])) else None
  }

  /** After a conditional write, the written key holds the new value when there was one; other keys are untouched. */
  lemma LookupPutIfPresent(m: map<string, string>, key: string, v: Option<string>, k: string)
    ensures Lookup(PutIfPresent(m, key, v), k) == if k == key && v.Some? then v else Lookup(m, k)
  {
  }

  /**
   * `if (...) update_post_meta($id, $key, $value)`: writes only when there is
   * a value. The ghost parameters name the store as it was before the
   * handler's first write and the handler's post so far.
   */
  method WriteMetaIfPresent(site: Site, id: PostId, key: string, v: Option<string>,
                            ghost before: map<PostId, Post>, ghost cur: Post)
    requires site.posts == before[id := cur]
    modifies site
    ensures site.posts == before[id := cur.(meta := PutIfPresent(cur.meta, key, v))]
    ensures site.terms == old(site.terms)
  {
    if v.Some? {
      site.UpdatePostMeta(id, key, v.value);
    }
  }

  /** `wp_set_post_terms` inside a hook or handler, in the same form as WriteMetaIfPresent. */
  method WriteGenres(site: Site, id: PostId, genres: seq<TermId>, ghost before: map<PostId, Post>, ghost cur: Post)
    requires site.posts == before[id := cur]
    modifies site
    ensures site.posts == before[id := cur.(genres := Unique(genres))]
    ensures site.terms == old(site.terms)
  {
    site.SetPostGenres(id, genres);
  }

  /** `if (...) update_term_meta($id, $key, $value)`, in the same form as WriteMetaIfPresent. */
  method WriteTermMetaIfPresent(site: Site, id: TermId, key: string, v: Option<string>,
                                ghost before: map<TermId, Term>, ghost cur: Term)
    requires site.terms == before[id := cur]
    modifies site
    ensures site.terms == before[id := cur.(meta := PutIfPresent(cur.meta, key, v))]
    ensures site.posts == old(site.posts)
  {
    if v.Some? {
      site.UpdateTermMeta(id, key, v.value);
    }
  }
}
