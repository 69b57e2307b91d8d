/** The comments collection's `revalidateComment` (after change) and
    `revalidateCommentDelete` (after delete) hooks: find the slug of the
    post a comment belongs to and revalidate that post's page. The post
    lookup (`payload.findByID` on `posts`) is a parameter. */
module RevalidateComment {
  import opened Wrappers
  import opened Json

  /** Looks a post up by its numeric id. */
  type PostLookup = real -> Option<Json>

  const PostsPrefix := "/posts/"

  /** `post?.slug || null` for a post record: a non-empty string slug. */
  function SlugOf(post: Option<Json>): (r: Option<string>)
    ensures r.Some? ==> r.value != "" && post.Some? && Get(post.value, "slug") == Some(JStr(r.value))
    ensures post.Some? && Get(post.value, "slug") == Some(JStr("")) ==> r.None?
    ensures post.Some? && Get(post.value, "slug").Some? && Get(post.value, "slug").value.JStr? ==>
      var slug := Get(post.value, "slug").value.s;
      slug != "" ==> r == Some(slug)
  {
    if post.None? then None
    else
      match Get(post.value, "slug")
      case Some(JStr(s)) => if s != "" then Some(s) else None
      case _ => None
  }

  /** The slug of the comment's `post` field: a numeric post is looked up,
      an object post carries its own slug, anything else has none. */
  function PostSlug(post: Option<Json>, lookup: PostLookup): (r: Option<string>)
    ensures post.Some? && post.value.JNum? ==> r == SlugOf(lookup(post.value.n))
    ensures post.Some? && post.value.JObj? ==> r == SlugOf(post)
    ensures post.None? || !(post.value.JNum? || post.value.JObj?) ==> r.None?
  {
    match post
    case Some(JNum(id)) => SlugOf(lookup(id))
    case Some(JObj(_)) => SlugOf(post)
    case _ => None
  }

  /** The page path of a post. */
  function PostPath(slug: string): (path: string)
    ensures |path| == |PostsPrefix| + |slug| && path[..|PostsPrefix|] == PostsPrefix
  {
    PostsPrefix + slug
  }

  /** The slug back from a post's page path. */
  function SlugOfPath(path: string): (slug: string)
    requires |path| >= |PostsPrefix|
  {
    path[|PostsPrefix|..]
  }

  lemma PostPathRoundTrip(slug: string)
    ensures SlugOfPath(PostPath(slug)) == slug
  {
  }

  /** What a hook does: the path it revalidates, if any, and the document
      it hands back. */
  datatype Outcome = Outcome(revalidated: Option<string>, doc: Option<Json>)

  /** The decision both hooks share. */
  function Decide(doc: Option<Json>, disableRevalidate: Option<Json>, lookup: PostLookup): (r: Option<string>)
    ensures TruthyOpt(disableRevalidate) ==> r.None?
    ensures r.Some? <==> !TruthyOpt(disableRevalidate) && doc.Some?
                         && PostSlug(Get(doc.value, "post"), lookup).Some?
    ensures r.Some? ==> r == Some(PostPath(PostSlug(Get(doc.value, "post"), lookup).value))
  {
    if TruthyOpt(disableRevalidate) || doc.None? then None
    else
      match PostSlug(Get(doc.value, "post"), lookup)
      case Some(slug) => Some(PostPath(slug))
      case None => None
  }

  /** `revalidateComment`, after a comment is created or changed. */
  function AfterChange(doc: Json, disableRevalidate: Option<Json>, lookup: PostLookup): (r: Outcome)
    ensures r.doc == Some(doc)
    ensures r.revalidated.Some? ==> !TruthyOpt(disableRevalidate)
    ensures r.revalidated.Some? ==> |r.revalidated.value| > |PostsPrefix|
                                    && r.revalidated.value[..|PostsPrefix|] == PostsPrefix
  {
    Outcome(Decide(Some(doc), disableRevalidate, lookup), Some(doc))
  }

  /** `revalidateCommentDelete`, after a comment is deleted; `doc` may be
      missing. */
  function AfterDelete(doc: Option<Json>, disableRevalidate: Option<Json>, lookup: PostLookup): (r: Outcome)
    ensures r.doc == doc
    ensures doc.None? ==> r.revalidated.None?
    ensures r.revalidated.Some? ==> !TruthyOpt(disableRevalidate)
  {
    Outcome(Decide(doc, disableRevalidate, lookup), doc)
  }

  /** The two hooks revalidate the same page for the same comment. */
  lemma HooksAgree(doc: Json, disableRevalidate: Option<Json>, lookup: PostLookup)
    ensures AfterDelete(Some(doc), disableRevalidate, lookup).revalidated
         == AfterChange(doc, disableRevalidate, lookup).revalidated
  {
  }

  /** A comment on post 7 whose slug is "hello" revalidates "/posts/hello";
      the same comment with revalidation disabled revalidates nothing. */
  lemma NumericPostExample(lookup: PostLookup)
    requires lookup(7.0) == Some(JObj([Field("slug", JStr("hello"))]))
    ensures AfterChange(JObj([Field("post", JNum(7.0))]), None, lookup).revalidated == Some("/posts/hello")
    ensures AfterChange(JObj([Field("post", JNum(7.0))]), Some(JBool(true)), lookup).revalidated == None
  {
    GetOfLiteral([Field("post", JNum(7.0))], 0);
    GetOfLiteral([Field("slug", JStr("hello"))], 0);
    assert PostPath("hello") == "/posts/hello";
  }
}
