/** Collection access rules. Each rule gets the request's user (absent when
    nobody is logged in) and answers allow, deny, or a where-query that
    restricts which documents the user may touch. The role test `checkRole`
    is not part of this model: it is the parameter `hasRole`. */
module Access {
  import opened Wrappers

  datatype User = User(id: int, roles: seq<string>)

  /** `checkRole(roles, user)`. */
  type RoleCheck = (seq<string>, User) -> bool

  datatype Value = IdValue(id: int) | BoolValue(b: bool)

  /** `{ field: { equals: value } }` and `{ field: { contains: value } }`. */
  datatype Query = Equals(field: string, value: Value) | Contains(field: string, value: Value)

  datatype AccessResult = Allow | Deny | Where(query: Query)

  /** `admin`: only admins, and never a query. */
  function Admin(user: Option<User>, hasRole: RoleCheck): (r: AccessResult)
    ensures user.None? ==> r == Deny
    ensures user.Some? ==> (r == Allow <==> hasRole(["admin"], user.value))
    ensures !r.Where?
  {
    if user.Some? && hasRole(["admin"], user.value) then Allow else Deny
  }

  /** `user`: admins and authors see every user, anyone else only their own
      record, and nobody logged in nothing. */
  function UserRule(user: Option<User>, hasRole: RoleCheck): (r: AccessResult)
    ensures user.None? <==> r == Deny
    ensures user.Some? && hasRole(["admin", "author"], user.value) ==> r == Allow
    ensures user.Some? && !hasRole(["admin", "author"], user.value) ==>
      r == Where(Equals("id", IdValue(user.value.id)))
  {
    match user
    case None => Deny
    case Some(u) => if hasRole(["admin", "author"], u) then Allow else Where(Equals("id", IdValue(u.id)))
  }

  /** `authorCreate`: admins and authors may create posts. */
  function AuthorCreate(user: Option<User>, hasRole: RoleCheck): (r: AccessResult)
    ensures !r.Where?
    ensures r == Allow <==> user.Some? && hasRole(["admin", "author"], user.value)
  {
    if user.Some? && hasRole(["admin", "author"], user.value) then Allow else Deny
  }

  /** `authorUpdate`: admins may change any post, authors only posts that
      list them among the authors. */
  function AuthorUpdate(user: Option<User>, hasRole: RoleCheck): (r: AccessResult)
    ensures user.None? ==> r == Deny
    ensures r == Allow <==> user.Some? && hasRole(["admin"], user.value)
    ensures r.Where? <==> user.Some? && !hasRole(["admin"], user.value) && hasRole(["author"], user.value)
    ensures r.Where? ==> r.query == Contains("authors", IdValue(user.value.id))
  {
    match user
    case None => Deny
    case Some(u) =>
      if hasRole(["admin"], u) then Allow
      else if hasRole(["author"], u) then Where(Contains("authors", IdValue(u.id)))
      else Deny
  }

  /** The default export of the author rules, used for creation. */
  function Author(user: Option<User>, hasRole: RoleCheck): (r: AccessResult)
    ensures r == AuthorCreate(user, hasRole)
  {
    AuthorCreate(user, hasRole)
  }

  /** `authenticatedOrApproved`: logged-in users see everything, visitors
      only approved documents. */
  function AuthenticatedOrApproved(user: Option<User>): (r: AccessResult)
    ensures r != Deny
    ensures r == Allow <==> user.Some?
    ensures user.None? ==> r == Where(Equals("isApproved", BoolValue(true)))
  {
    if user.Some? then Allow else Where(Equals("isApproved", BoolValue(true)))
  }

  /* ---------------- What a result permits ---------------- */

  /** The fields of a document the queries above refer to. */
  datatype Doc = Doc(id: int, authors: seq<int>, isApproved: bool)

  /** Whether a result lets the user touch a given document. */
  predicate Permits(r: AccessResult, d: Doc) {
    match r
    case Allow => true
    case Deny => false
    case Where(Equals("id", IdValue(x))) => d.id == x
    case Where(Equals("isApproved", BoolValue(b))) => d.isApproved == b
    case Where(Contains("authors", IdValue(x))) => x in d.authors
    case Where(_) => false
  }

  /** Without a role a user may read exactly their own user record. */
  lemma UserSeesOwnRecord(u: User, hasRole: RoleCheck, d: Doc)
    requires !hasRole(["admin", "author"], u)
    ensures Permits(UserRule(Some(u), hasRole), d) <==> d.id == u.id
  {
  }

  /** A non-admin author may update exactly the posts listing them. */
  lemma AuthorUpdatesOwnPosts(u: User, hasRole: RoleCheck, d: Doc)
    requires !hasRole(["admin"], u) && hasRole(["author"], u)
    ensures Permits(AuthorUpdate(Some(u), hasRole), d) <==> u.id in d.authors
  {
  }

  /** Visitors see exactly the approved documents; users see all. */
  lemma ApprovedForVisitors(user: Option<User>, d: Doc)
    ensures Permits(AuthenticatedOrApproved(user), d) <==> user.Some? || d.isApproved
  {
  }

  /** The rules agree with each other for every role check: whoever passes
      `admin` may update every post, and `user` grants everything to
      exactly those `authorCreate` admits. */
  lemma RulesAgree(user: Option<User>, hasRole: RoleCheck, d: Doc)
    ensures Admin(user, hasRole) == Allow ==> Permits(AuthorUpdate(user, hasRole), d)
    ensures UserRule(user, hasRole) == Allow <==> AuthorCreate(user, hasRole) == Allow
    ensures Permits(AuthorUpdate(user, hasRole), d) ==> user.Some?
  {
  }

  /* ---------------- With checkRole as role-list intersection ---------------- */

  /** The assumed meaning of `checkRole`: the user holds one of the roles. */
  predicate Intersects(roles: seq<string>, u: User) {
    exists i :: 0 <= i < |roles| && roles[i] in u.roles
  }

  /** Under that assumption, anyone who may update some post may create
      posts, and authors and admins are exactly the creators. */
  lemma UpdateNeedsCreate(user: Option<User>, hasRole: RoleCheck, d: Doc)
    requires forall roles, u :: hasRole(roles, u) == Intersects(roles, u)
    ensures Permits(AuthorUpdate(user, hasRole), d) ==> AuthorCreate(user, hasRole) == Allow
    ensures AuthorCreate(user, hasRole) == Allow <==>
      user.Some? && ("admin" in user.value.roles || "author" in user.value.roles)
  {
    if user.Some? {
      var u := user.value;
      assert Intersects(["admin"], u) <==> "admin" in u.roles by {
        assert ["admin"][0] == "admin";
      }
      assert Intersects(["author"], u) <==> "author" in u.roles by {
        assert ["author"][0] == "author";
      }
      assert Intersects(["admin", "author"], u) <==> "admin" in u.roles || "author" in u.roles by {
        assert ["admin", "author"][0] == "admin" && ["admin", "author"][1] == "author";
      }
    }
  }
}
