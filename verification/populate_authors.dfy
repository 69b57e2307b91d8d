/** The `populateAuthors` after-read hook of the posts collection: every
    entry of `authors` that names a user who can be looked up becomes an
    `{id, name}` entry of `populatedAuthors`, in input order. The user
    lookup (`payload.findByID` on `users`) is a parameter; a lookup that
    throws or finds nothing is `None`, which the hook treats alike. */
module PopulateAuthors {
  import opened Wrappers
  import opened Json

  /** A user record as the lookup returns it. */
  datatype User = User(id: Json, name: Option<string>)

  /** One entry of `populatedAuthors`. */
  datatype AuthorSummary = AuthorSummary(id: Json, name: Option<string>)

  /** The fields of a post the hook reads and writes. `authors` is `None`
      when the property is missing. */
  datatype Post = Post(authors: Option<Json>, populatedAuthors: Option<seq<AuthorSummary>>)

  type Lookup = Json -> Option<User>

  /** The id an `authors` entry names, or None when the entry is skipped:
      a falsy entry, or a falsy id. An entry of type "object" names its
      `id`; for an array that is `undefined`, so an array entry is skipped.
      A string, number or boolean entry is the id itself. */
  function AuthorId(author: Json): (r: Option<Json>)
    ensures r.Some? ==> Truthy(r.value)
    ensures !Truthy(author) || author.JArr? ==> r.None?
    ensures Truthy(author) && !author.JObj? && !author.JArr? ==> r == Some(author)
    ensures author.JObj? ==> (r.Some? <==> TruthyOpt(Get(author, "id")))
    ensures author.JObj? && r.Some? ==> r == Get(author, "id")
  {
    if !Truthy(author) then None
    else
      var id := if author.JObj? then Get(author, "id") else if author.JArr? then None else Some(author);
      if TruthyOpt(id) then id else None
  }

  /** What one entry resolves to: the looked-up user of a truthy id, and
      nothing for a skipped entry. */
  function Resolve(lookup: Lookup, author: Json): (r: Option<User>)
    ensures !Truthy(author) || author.JArr? ==> r.None?
    ensures author.JObj? ==>
      r == (if TruthyOpt(Get(author, "id")) then lookup(Get(author, "id").value) else None)
    ensures Truthy(author) && !author.JObj? && !author.JArr? ==> r == lookup(author)
  {
    match AuthorId(author)
    case None => None
    case Some(id) => lookup(id)
  }

  /** The users of the entries that resolve, in input order. */
  function Resolved(lookup: Lookup, authors: seq<Json>): (r: seq<User>)
    ensures |r| <= |authors|
  {
    if |authors| == 0 then []
    else
      match Resolve(lookup, authors[0])
      case Some(u) => [u] + Resolved(lookup, authors[1..])
      case None => Resolved(lookup, authors[1..])
  }

  function Summary(u: User): AuthorSummary {
    AuthorSummary(u.id, u.name)
  }

  /** A post whose `authors` the hook leaves alone. */
  predicate NothingToPopulate(post: Post) {
    post.authors.None? || !Truthy(post.authors.value) || !post.authors.value.JArr?
    || |post.authors.value.items| == 0
  }

  /** The hook on a post. */
  method Populate(post: Post, lookup: Lookup) returns (r: Post)
    ensures NothingToPopulate(post) ==> r == post
    ensures !NothingToPopulate(post) ==>
      var authors := post.authors.value.items;
      r.authors == post.authors
      && r.populatedAuthors.Some?
      && |r.populatedAuthors.value| == |Resolved(lookup, authors)| <= |authors|
      && forall j :: 0 <= j < |r.populatedAuthors.value| ==>
           r.populatedAuthors.value[j] == Summary(Resolved(lookup, authors)[j])
  {
    if NothingToPopulate(post) {
      return post;
    }
    var authors := post.authors.value.items;
    var results := seq(|authors|, i requires 0 <= i < |authors| => Resolve(lookup, authors[i]));
    var authorDocs: seq<User> := [];
    var i := 0;
    while i < |results|
      invariant 0 <= i <= |results|
      invariant authorDocs == Resolved(lookup, authors[..i])
    {
      ResolvedAppend(lookup, authors[..i], authors[i]);
      assert authors[..i + 1] == authors[..i] + [authors[i]];
      if results[i].Some? {
        authorDocs := authorDocs + [results[i].value];
      }
      i := i + 1;
    }
    assert authors[..|authors|] == authors;
    var summaries := seq(|authorDocs|, j requires 0 <= j < |authorDocs| => Summary(authorDocs[j]));
    if |authorDocs| > 0 {
      r := post.(populatedAuthors := Some(summaries));
    } else {
      r := post.(populatedAuthors := Some([]));
    }
  }

  lemma ResolvedAppend(lookup: Lookup, authors: seq<Json>, a: Json)
    ensures Resolved(lookup, authors + [a])
         == Resolved(lookup, authors) + (match Resolve(lookup, a) case Some(u) => [u] case None => [])
  {
    if |authors| > 0 {
      assert (authors + [a])[1..] == authors[1..] + [a];
      ResolvedAppend(lookup, authors[1..], a);
    } else {
      assert authors + [a] == [a];
    }
  }

  /** The first entry's contribution followed by the rest's. */
  lemma ResolvedCons(lookup: Lookup, authors: seq<Json>)
    requires |authors| > 0
    ensures Resolve(lookup, authors[0]).Some? ==>
      Resolved(lookup, authors) == [Resolve(lookup, authors[0]).value] + Resolved(lookup, authors[1..])
    ensures Resolve(lookup, authors[0]).None? ==>
      Resolved(lookup, authors) == Resolved(lookup, authors[1..])
  {
  }

  /** Whether an entry resolves, as a predicate over positions. */
  predicate Resolves(lookup: Lookup, authors: seq<Json>, i: int) {
    0 <= i < |authors| && Resolve(lookup, authors[i]).Some?
  }

  /** `users[j]` is what the entry at position `idx[j]` resolves to, and the
      positions increase. */
  predicate PicksInOrder(lookup: Lookup, authors: seq<Json>, idx: seq<nat>, users: seq<User>) {
    |idx| == |users|
    && (forall j :: 0 <= j < |idx| ==> idx[j] < |authors| && Resolve(lookup, authors[idx[j]]) == Some(users[j]))
    && (forall j, j' :: 0 <= j < j' < |idx| ==> idx[j] < idx[j'])
  }

  /** Every position whose entry resolves is among `idx`. */
  predicate Covers(lookup: Lookup, authors: seq<Json>, idx: seq<nat>) {
    forall i :: 0 <= i < |authors| && Resolves(lookup, authors, i) ==> i in idx
  }

  function Shifted(idx: seq<nat>): (r: seq<nat>)
    ensures |r| == |idx| && forall j :: 0 <= j < |r| ==> r[j] == idx[j] + 1
  {
    seq(|idx|, j requires 0 <= j < |idx| => idx[j] + 1)
  }

  /** Positions in the tail, shifted by one, are positions in the whole. */
  lemma ShiftPicks(lookup: Lookup, authors: seq<Json>, idx: seq<nat>, users: seq<User>)
    requires |authors| > 0 && PicksInOrder(lookup, authors[1..], idx, users)
    ensures PicksInOrder(lookup, authors, Shifted(idx), users)
  {
    var sh := Shifted(idx);
    forall j | 0 <= j < |sh|
      ensures sh[j] < |authors| && authors[sh[j]] == authors[1..][idx[j]]
    {
    }
  }

  lemma ShiftCovers(lookup: Lookup, authors: seq<Json>, idx: seq<nat>)
    requires |authors| > 0 && Covers(lookup, authors[1..], idx)
    ensures forall i :: Resolves(lookup, authors, i) && i > 0 ==> i in Shifted(idx)
  {
    var sh := Shifted(idx);
    forall i | Resolves(lookup, authors, i) && i > 0
      ensures i in sh
    {
      assert authors[i] == authors[1..][i - 1];
      assert Resolves(lookup, authors[1..], i - 1);
      var j :| 0 <= j < |idx| && idx[j] == i - 1;
      assert sh[j] == i;
    }
  }

  /** A resolving first entry goes in front. */
  lemma PrependFirst(lookup: Lookup, authors: seq<Json>, sh: seq<nat>, users: seq<User>, u: User)
    requires |authors| > 0 && Resolve(lookup, authors[0]) == Some(u)
    requires PicksInOrder(lookup, authors, sh, users)
    requires forall j :: 0 <= j < |sh| ==> sh[j] > 0
    ensures PicksInOrder(lookup, authors, [0] + sh, [u] + users)
  {
    var idx := [0] + sh;
    forall j | 0 < j < |idx|
      ensures idx[j] == sh[j - 1] && ([u] + users)[j] == users[j - 1]
    {
    }
  }

  /** `Resolved` picks out, in increasing input positions, exactly the
      entries that resolve: the j-th user comes from position `idx[j]`, and
      every resolving position is one of the `idx`. */
  lemma {:induction false} ResolvedMeaning(lookup: Lookup, authors: seq<Json>) returns (idx: seq<nat>)
    ensures PicksInOrder(lookup, authors, idx, Resolved(lookup, authors))
    ensures Covers(lookup, authors, idx)
  {
    if |authors| == 0 {
      return [];
    }
    var rest := ResolvedMeaning(lookup, authors[1..]);
    var rr := Resolved(lookup, authors[1..]);
    var sh := Shifted(rest);
    ResolvedCons(lookup, authors);
    ShiftPicks(lookup, authors, rest, rr);
    ShiftCovers(lookup, authors, rest);
    match Resolve(lookup, authors[0])
    case Some(u) =>
      PrependFirst(lookup, authors, sh, rr, u);
      idx := [0] + sh;
    case None =>
      idx := sh;
  }

  /** When no entry resolves, `populatedAuthors` is set to the empty list. */
  lemma {:induction false} NoneResolve(lookup: Lookup, authors: seq<Json>)
    requires forall i :: 0 <= i < |authors| ==> Resolve(lookup, authors[i]).None?
    ensures Resolved(lookup, authors) == []
  {
    if |authors| > 0 {
      assert forall i :: 0 <= i < |authors| - 1 ==> authors[1..][i] == authors[i + 1];
      NoneResolve(lookup, authors[1..]);
    }
  }

  /** Entries that are `null`, `0`, `""`, arrays, or objects whose `id` is
      missing or falsy are never looked up. */
  lemma SkippedEntries(lookup: Lookup, fields: seq<Field>, items: seq<Json>)
    requires !TruthyOpt(Get(JObj(fields), "id"))
    ensures Resolve(lookup, JArr(items)).None?
    ensures Resolve(lookup, JNull).None?
    ensures Resolve(lookup, JNum(0.0)).None?
    ensures Resolve(lookup, JStr("")).None?
    ensures Resolve(lookup, JObj(fields)).None?
  {
  }
}
