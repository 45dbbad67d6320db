/**
 * The decision logic of the access-control table (index.js): validation of
 * registrations, the first-match lookup of a request path, and the
 * authorization decision, as pure functions over the table's contents.
 * The class in table.dfy runs the same steps imperatively and is proved
 * equal to these functions.
 */
module Acl {
  import opened Wrappers
  import opened Paths

  /** The fixed list of accepted HTTP methods (index.js:4-10). */
  const ValidMethods: seq<string> := ["GET", "POST", "PATCH", "DELETE", "PUT"]

  /**
   * The `methods` value of a permission as the caller supplied it: an array
   * of strings, a bare string, or any other value. Only an array passes
   * validation, but registration is not atomic, so a stored permission may
   * hold either of the others.
   */
  datatype Methods = List(items: seq<string>) | Text(text: string) | Other

  /** One `{role, methods}` object of a registration. */
  datatype Permission = Permission(role: string, methods: Methods)

  /** One `{resource, permissions}` object pushed onto the table (index.js:30-33). */
  datatype Entry = Entry(resource: string, permissions: seq<Permission>)

  /** The argument of `setRoles`: an array of role names or anything else. */
  datatype RolesArg = RoleArray(roles: seq<string>) | NotArray

  /** The errors thrown by the setup calls (index.js:17, 23, 27, 43). */
  datatype AclError = RolesNotArray | InvalidRole | MethodsNotArray | InvalidMethod(name: string)

  /** The authenticated principal attached to a request, if any. */
  datatype User = User(role: string)

  /** The parts of an HTTP request the decision reads (index.js:48-73). */
  datatype Request = Request(path: string, httpMethod: string, user: Option<User>)

  /**
   * The outcome of `authorize`: continue to the next handler, the
   * "not authenticated" reply, or one of the three intended 403 replies
   * (the JavaScript sends only two of them; see `Decide`).
   */
  datatype Decision = Allow | Unauthenticated | NoPolicyForResource | RoleHasNoPolicy | MethodNotPermitted

  // ---------------------------------------------------------------- methods

  /** `toUpperCase` on one character, for the ASCII letters. */
  function UpperChar(c: char): (u: char)
  {
    if 'a' <= c <= 'z' then (c as int - 32) as char else c
  }

  /** `toUpperCase` on a string, character by character. */
  function ToUpper(s: string): (r: string)
  {
    seq(|s|, k requires 0 <= k < |s| => UpperChar(s[k]))
  }

  /** Equal up to the case of ASCII letters. */
  predicate EqualIgnoringCase(a: string, b: string)
  {
    |a| == |b| && forall k :: 0 <= k < |a| ==> UpperChar(a[k]) == UpperChar(b[k])
  }

  /** A method passes validation when its upper-case form is in the list (index.js:22). */
  predicate MethodAccepted(m: string)
  {
    ToUpper(m) in ValidMethods
  }

  /** Every accepted method name is already upper case. */
  lemma ValidMethodsAreUpper(v: string)
    requires v in ValidMethods
    ensures ToUpper(v) == v
  {
    assert v == "GET" || v == "POST" || v == "PATCH" || v == "DELETE" || v == "PUT";
  }

  /**
   * Method validation is case-insensitive: a method is accepted exactly
   * when it spells one of GET, POST, PATCH, DELETE, PUT in any mix of case.
   */
  lemma MethodAcceptedIff(m: string)
    ensures MethodAccepted(m) <==> exists v :: v in ValidMethods && EqualIgnoringCase(m, v)
  {
    if MethodAccepted(m) {
      var v := ToUpper(m);
      ValidMethodsAreUpper(v);
      assert forall k :: 0 <= k < |m| ==> UpperChar(v[k]) == v[k];
      assert EqualIgnoringCase(m, v);
    }
    if v :| v in ValidMethods && EqualIgnoringCase(m, v) {
      ValidMethodsAreUpper(v);
      assert ToUpper(m) == ToUpper(v);
    }
  }

  /** Two spellings that differ only in case are accepted or refused together. */
  lemma MethodCaseInsensitive(a: string, b: string)
    requires EqualIgnoringCase(a, b)
    ensures MethodAccepted(a) == MethodAccepted(b)
  {
    assert ToUpper(a) == ToUpper(b);
  }

  /**
   * Index of the first method that fails validation, or None when all
   * pass (the inner loop of index.js:21-25).
   */
  function FirstRejected(ms: seq<string>): (r: Option<nat>)
    ensures r.None? <==> forall k :: 0 <= k < |ms| ==> MethodAccepted(ms[k])
    ensures r.Some? ==> r.value < |ms| && !MethodAccepted(ms[r.value])
                        && forall k :: 0 <= k < r.value ==> MethodAccepted(ms[k])
  {
    if |ms| == 0 then None
    else if !MethodAccepted(ms[0]) then Some(0)
    else match FirstRejected(ms[1..])
      case None => None
      case Some(i) => Some(i + 1)
  }

  // ------------------------------------------------------------ registration

  /**
   * The check one permission undergoes (index.js:16-28): its role must be
   * registered, its methods an array, and every method accepted. None when
   * it passes, otherwise the error thrown.
   */
  function CheckPermission(validRoles: seq<string>, p: Permission): (r: Option<AclError>)
    ensures r.None? <==> p.role in validRoles && p.methods.List?
                         && forall k :: 0 <= k < |p.methods.items| ==> MethodAccepted(p.methods.items[k])
    ensures p.role !in validRoles ==> r == Some(InvalidRole)
    ensures p.role in validRoles && !p.methods.List? ==> r == Some(MethodsNotArray)
    ensures p.role in validRoles && p.methods.List? && r.Some? ==>
              exists i :: 0 <= i < |p.methods.items| && r == Some(InvalidMethod(p.methods.items[i]))
                          && !MethodAccepted(p.methods.items[i])
                          && forall k :: 0 <= k < i ==> MethodAccepted(p.methods.items[k])
  {
    if p.role !in validRoles then Some(InvalidRole)
    else match p.methods
      case List(ms) =>
        (match FirstRejected(ms)
           case None => None
           case Some(i) => Some(InvalidMethod(ms[i])))
      case _ => Some(MethodsNotArray)
  }

  /**
   * How many permissions, counted from the front, pass their check before
   * the first one that fails: the number of loop iterations of index.js:15
   * that complete.
   */
  function PassingPrefix(validRoles: seq<string>, perms: seq<Permission>): (n: nat)
    ensures n <= |perms|
    ensures forall k :: 0 <= k < n ==> CheckPermission(validRoles, perms[k]).None?
    ensures n < |perms| ==> CheckPermission(validRoles, perms[n]).Some?
  {
    if |perms| == 0 || CheckPermission(validRoles, perms[0]).Some? then 0
    else 1 + PassingPrefix(validRoles, perms[1..])
  }

  /** n copies of an entry. */
  function Repeat(e: Entry, n: nat): (r: seq<Entry>)
    ensures |r| == n
    ensures forall k :: 0 <= k < n ==> r[k] == e
  {
    if n == 0 then [] else Repeat(e, n - 1) + [e]
  }

  /**
   * `addResource(resource, permissions)` on a table (index.js:14-37): each
   * permission that passes its check pushes the pair (resource, the whole
   * permission list); the first one that fails throws, and what was pushed
   * before it stays. Returns the new table and the outcome.
   */
  function Register(validRoles: seq<string>, table: seq<Entry>, resource: string,
                    perms: seq<Permission>): (r: (seq<Entry>, Outcome<AclError>))
    ensures r.1.Pass? <==> forall k :: 0 <= k < |perms| ==> CheckPermission(validRoles, perms[k]).None?
    ensures r.1.Fail? ==> exists k :: 0 <= k < |perms| && CheckPermission(validRoles, perms[k]) == Some(r.1.error)
    ensures |table| <= |r.0| && r.0[..|table|] == table
    ensures forall k :: |table| <= k < |r.0| ==> r.0[k] == Entry(resource, perms)
    ensures r.1.Pass? ==> |r.0| == |table| + |perms|
    ensures |r.0| > |table| ==> |perms| > 0
  {
    var n := PassingPrefix(validRoles, perms);
    var pushed := table + Repeat(Entry(resource, perms), n);
    assert pushed[..|table|] == table;
    if n == |perms| then (pushed, Pass)
    else (pushed, Fail(CheckPermission(validRoles, perms[n]).value))
  }

  /**
   * A failed registration still leaves one entry for every permission that
   * was checked before the failing one: registration is not atomic.
   */
  lemma {:induction false} RegisterFailureKeepsPrefix(validRoles: seq<string>, table: seq<Entry>,
                                                      resource: string, perms: seq<Permission>, i: nat)
    requires i < |perms|
    requires forall k :: 0 <= k < i ==> CheckPermission(validRoles, perms[k]).None?
    requires CheckPermission(validRoles, perms[i]).Some?
    ensures Register(validRoles, table, resource, perms)
            == (table + Repeat(Entry(resource, perms), i), Fail(CheckPermission(validRoles, perms[i]).value))
  {
  }

  // ------------------------------------------------------------------ lookup

  /** Whether a stored entry's pattern matches the split request path. */
  predicate EntryMatches(e: Entry, pathParts: seq<string>)
  {
    Matches(Split(e.resource), pathParts)
  }

  /**
   * `getAclResource` (index.js:85-116): the first entry of the table whose
   * pattern matches the split path, or None (`null`) when none does.
   */
  function Lookup(table: seq<Entry>, pathParts: seq<string>): (r: Option<Entry>)
    ensures r.None? <==> forall k :: 0 <= k < |table| ==> !EntryMatches(table[k], pathParts)
    ensures r.Some? ==> r.value in table
    ensures r.Some? ==> |Split(r.value.resource)| == |pathParts|
    ensures r.Some? ==> forall k :: 0 <= k < |pathParts| ==>
              var pat := Split(r.value.resource)[k];
              pat == "" || pat in Wildcards || pat == pathParts[k]
  {
    if |table| == 0 then None
    else if EntryMatches(table[0], pathParts) then Some(table[0])
    else Lookup(table[1..], pathParts)
  }

  /**
   * First match wins: when entry i matches and no earlier one does, the
   * lookup returns entry i, whatever the later entries are.
   */
  lemma {:induction false} LookupFirstMatch(table: seq<Entry>, pathParts: seq<string>, i: nat)
    requires i < |table| && EntryMatches(table[i], pathParts)
    requires forall k :: 0 <= k < i ==> !EntryMatches(table[k], pathParts)
    ensures Lookup(table, pathParts) == Some(table[i])
  {
    if i > 0 {
      LookupFirstMatch(table[1..], pathParts, i - 1);
    }
  }

  /** The entry the lookup returns is the matching one of lowest index. */
  lemma {:induction false} LookupReturnsFirst(table: seq<Entry>, pathParts: seq<string>)
    requires Lookup(table, pathParts).Some?
    ensures exists i :: 0 <= i < |table| && table[i] == Lookup(table, pathParts).value
                        && EntryMatches(table[i], pathParts)
                        && forall k :: 0 <= k < i ==> !EntryMatches(table[k], pathParts)
  {
    if EntryMatches(table[0], pathParts) {
      assert table[0] == Lookup(table, pathParts).value;
    } else {
      LookupReturnsFirst(table[1..], pathParts);
      var i :| 0 <= i < |table[1..]| && table[1..][i] == Lookup(table[1..], pathParts).value
               && EntryMatches(table[1..][i], pathParts)
               && forall k :: 0 <= k < i ==> !EntryMatches(table[1..][k], pathParts);
      assert table[i + 1] == Lookup(table, pathParts).value;
      assert forall k :: 1 <= k < i + 1 ==> !EntryMatches(table[k], pathParts) by {
        forall k | 1 <= k < i + 1 ensures !EntryMatches(table[k], pathParts) {
          assert table[k] == table[1..][k - 1];
        }
      }
    }
  }

  /** Appending entries never changes what an already matching path finds. */
  lemma {:induction false} LookupStableUnderAppend(table: seq<Entry>, more: seq<Entry>, pathParts: seq<string>)
    requires Lookup(table, pathParts).Some?
    ensures Lookup(table + more, pathParts) == Lookup(table, pathParts)
  {
    if !EntryMatches(table[0], pathParts) {
      assert (table + more)[1..] == table[1..] + more;
      LookupStableUnderAppend(table[1..], more, pathParts);
    }
  }

  // ---------------------------------------------------------------- decision

  /** `hay.includes(needle)` for strings: `needle` occurs in `hay`. */
  predicate IsSubstring(needle: string, hay: string)
  {
    exists k :: 0 <= k <= |hay| && needle <= hay[k..]
  }

  /** Every string includes itself. */
  lemma SubstringOfItself(s: string)
    ensures IsSubstring(s, s)
  {
    assert s <= s[0..];
  }

  /**
   * `found.methods.includes(m)` (index.js:73): array membership for
   * an array, substring search for a string. Any other value has no
   * `includes`, the call throws and nothing is allowed.
   */
  predicate Includes(methods: Methods, m: string)
  {
    match methods
    case List(ms) => m in ms
    case Text(t) => IsSubstring(m, t)
    case Other => false
  }

  /**
   * The permission scan of index.js:60-65: the first permission whose role
   * equals the given role, or None.
   */
  function FindPerm(perms: seq<Permission>, role: string): (r: Option<Permission>)
    ensures r.None? <==> forall k :: 0 <= k < |perms| ==> perms[k].role != role
    ensures r.Some? ==> r.value in perms && r.value.role == role
  {
    if |perms| == 0 then None
    else if perms[0].role == role then Some(perms[0])
    else FindPerm(perms[1..], role)
  }

  /** The permission found is the first one with that role. */
  lemma {:induction false} FindPermFirst(perms: seq<Permission>, role: string, i: nat)
    requires i < |perms| && perms[i].role == role
    requires forall k :: 0 <= k < i ==> perms[k].role != role
    ensures FindPerm(perms, role) == Some(perms[i])
  {
    if i > 0 {
      FindPermFirst(perms[1..], role, i - 1);
    }
  }

  /**
   * `authorize` (index.js:47-83) as a decision. For a missing resource the
   * JavaScript replies 403 but does not return (index.js:52-56), and the
   * next line throws a TypeError on `null`. When no permission has the
   * role, `found` is still `undefined` (index.js:58), `undefined === null`
   * is false, so the 403 of index.js:67-71 is never sent and index.js:73
   * throws a TypeError on `undefined`. At both places the model returns
   * the decision those branches intend.
   */
  function Decide(table: seq<Entry>, req: Request): (d: Decision)
  {
    match req.user
    case None => Unauthenticated
    case Some(user) =>
      match Lookup(table, Split(req.path))
      case None => NoPolicyForResource
      case Some(entry) =>
        match FindPerm(entry.permissions, user.role)
        case None => RoleHasNoPolicy
        case Some(found) =>
          if Includes(found.methods, req.httpMethod) && IsSubstring(user.role, found.role)
          then Allow else MethodNotPermitted
  }

  /**
   * The request is allowed exactly when there is a user, some entry
   * matches the path, the matched entry has a permission for the user's
   * role, and the first such permission lists the request's method.
   */
  lemma DecideAllowIff(table: seq<Entry>, req: Request)
    ensures Decide(table, req) == Allow <==>
              req.user.Some?
              && Lookup(table, Split(req.path)).Some?
              && FindPerm(Lookup(table, Split(req.path)).value.permissions, req.user.value.role).Some?
              && Includes(FindPerm(Lookup(table, Split(req.path)).value.permissions, req.user.value.role).value.methods,
                          req.httpMethod)
  {
    if req.user.Some? {
      SubstringOfItself(req.user.value.role);
    }
  }

  /** Each denial reason, as the step of the decision at which it stops. */
  lemma DecideDenials(table: seq<Entry>, req: Request)
    ensures Decide(table, req) == Unauthenticated <==> req.user.None?
    ensures Decide(table, req) == NoPolicyForResource <==>
              req.user.Some? && forall k :: 0 <= k < |table| ==> !EntryMatches(table[k], Split(req.path))
    ensures Decide(table, req) == RoleHasNoPolicy <==>
              req.user.Some? && Lookup(table, Split(req.path)).Some?
              && forall k :: 0 <= k < |Lookup(table, Split(req.path)).value.permissions| ==>
                   Lookup(table, Split(req.path)).value.permissions[k].role != req.user.value.role
    ensures Decide(table, req) == MethodNotPermitted <==>
              req.user.Some? && Lookup(table, Split(req.path)).Some?
              && FindPerm(Lookup(table, Split(req.path)).value.permissions, req.user.value.role).Some?
              && !Includes(FindPerm(Lookup(table, Split(req.path)).value.permissions, req.user.value.role).value.methods,
                           req.httpMethod)
  {
    if req.user.Some? {
      SubstringOfItself(req.user.value.role);
    }
  }

  /**
   * A path whose segment count differs from every pattern in the table is
   * never matched, whatever the wildcards.
   */
  lemma SegmentCountMismatch(table: seq<Entry>, req: Request)
    requires req.user.Some?
    requires forall k :: 0 <= k < |table| ==> |Split(table[k].resource)| != |Split(req.path)|
    ensures Decide(table, req) == NoPolicyForResource
  {
  }
}
