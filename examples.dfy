/**
 * Concrete scenarios for the access-control table: wildcard and
 * empty-segment matching, registration order and non-atomicity, and the
 * decisions for one registered resource.
 */
module Scenarios {
  import opened Wrappers
  import opened Paths
  import opened Acl
  import opened Table

  /** A rooted path with one slash-free segment splits into an empty segment and that one. */
  lemma SplitRooted1(a: string)
    requires '/' !in a
    ensures Split("/" + a) == ["", a]
  {
    assert "/" + a == "" + "/" + a;
    SplitAfterSegment("", a);
    SplitSegment(a);
  }

  /** The same for a rooted path of two slash-free segments. */
  lemma SplitRooted2(a: string, b: string)
    requires '/' !in a && '/' !in b
    ensures Split("/" + a + "/" + b) == ["", a, b]
  {
    assert "/" + a + "/" + b == "" + "/" + (a + "/" + b);
    SplitAfterSegment("", a + "/" + b);
    SplitAfterSegment(a, b);
    SplitSegment(b);
  }

  /** The same for a rooted path of three slash-free segments. */
  lemma SplitRooted3(a: string, b: string, c: string)
    requires '/' !in a && '/' !in b && '/' !in c
    ensures Split("/" + a + "/" + b + "/" + c) == ["", a, b, c]
  {
    RegroupRooted3(a, b, c);
    var tail := b + "/" + c;
    var rest := a + "/" + tail;
    SplitAfterSegment(b, c);
    SplitSegment(c);
    SplitAfterSegment(a, tail);
    SplitAfterSegment("", rest);
    assert "" + "/" + rest == "/" + rest;
  }

  /** Regrouping the concatenation of a three-segment rooted path to the right. */
  lemma RegroupRooted3(a: string, b: string, c: string)
    ensures "/" + a + "/" + b + "/" + c == "/" + (a + "/" + (b + "/" + c))
  {
  }

  /** The split of the pattern `/users/:param`. */
  lemma SplitParamPattern()
    ensures Split("/users/:param") == ["", "users", ":param"]
  {
    SplitRooted2("users", ":param");
    assert "/" + "users" + "/" + ":param" == "/users/:param";
  }

  /** The split of `/users/<x>` for a slash-free x. */
  lemma SplitUserPath(x: string)
    requires '/' !in x
    ensures Split("/users/" + x) == ["", "users", x]
  {
    SplitRooted2("users", x);
    assert "/" + "users" + "/" + x == "/users/" + x;
  }

  /** The segment counts of `/users/42/extra` and `/users`. */
  lemma SplitLongerAndShorter()
    ensures |Split("/users/42/extra")| == 4 && |Split("/users")| == 2
  {
    SplitRooted3("users", "42", "extra");
    assert "/" + "users" + "/" + "42" + "/" + "extra" == "/users/42/extra";
    SplitRooted1("users");
    assert "/" + "users" == "/users";
  }

  /** The segments of `/users/:param` match those of `/users/<x>`. */
  lemma ParamSegmentsMatch(x: string)
    ensures Matches(["", "users", ":param"], ["", "users", x])
  {
  }

  /** `/users/:param` matches `/users/<x>` for every slash-free segment x. */
  lemma ParamPatternMatchesAnySegment(x: string)
    requires '/' !in x
    ensures Matches(Split("/users/:param"), Split("/users/" + x))
  {
    SplitParamPattern();
    SplitUserPath(x);
    ParamSegmentsMatch(x);
  }

  /** `/users/:param` matches neither a longer nor a shorter path. */
  lemma ParamPatternNeedsSameLength()
    ensures !Matches(Split("/users/:param"), Split("/users/42/extra"))
    ensures !Matches(Split("/users/:param"), Split("/users"))
  {
    SplitParamPattern();
    SplitLongerAndShorter();
  }

  /** An empty pattern segment, from a double slash, matches any segment at its place. */
  lemma EmptySegmentExample(middle: string)
    requires '/' !in middle
    ensures Matches(Split("/users//profile"), Split("/users/" + middle + "/profile"))
  {
    SplitDoubleSlash();
    SplitProfilePath(middle);
    EmptySegmentMatches(middle);
  }

  /** The segments of `/users//profile` match those of `/users/<middle>/profile`. */
  lemma EmptySegmentMatches(middle: string)
    ensures Matches(["", "users", "", "profile"], ["", "users", middle, "profile"])
  {
  }

  /** The split of the pattern `/users//profile`, with its empty third segment. */
  lemma SplitDoubleSlash()
    ensures Split("/users//profile") == ["", "users", "", "profile"]
  {
    SplitRooted3("users", "", "profile");
    assert "/" + "users" + "/" + "" + "/" + "profile" == "/users//profile";
  }

  /** The split of `/users/<middle>/profile` for a slash-free middle. */
  lemma SplitProfilePath(middle: string)
    requires '/' !in middle
    ensures Split("/users/" + middle + "/profile") == ["", "users", middle, "profile"]
  {
    SplitRooted3("users", middle, "profile");
    assert "/" + "users" + "/" + middle + "/" + "profile" == "/users/" + middle + "/profile";
  }

  /** Validation accepts the method names in any case and nothing else. */
  lemma MethodSpellings()
    ensures MethodAccepted("GET") && MethodAccepted("get") && MethodAccepted("Get")
    ensures MethodAccepted("POST") && MethodAccepted("post")
    ensures !MethodAccepted("HEAD") && !MethodAccepted("options")
  {
    ValidMethodsAreUpper("GET");
    ValidMethodsAreUpper("POST");
    assert EqualIgnoringCase("get", "GET") && EqualIgnoringCase("Get", "GET");
    assert EqualIgnoringCase("post", "POST");
    MethodAcceptedIff("get");
    MethodAcceptedIff("Get");
    MethodAcceptedIff("post");
    assert ToUpper("HEAD")[0] == 'H';
    assert ToUpper("options")[0] == 'O' && |ToUpper("options")| == 7;
  }

  /** A specific pattern registered before a general one wins, and vice versa. */
  lemma FirstRegisteredWins(p: seq<Permission>, q: seq<Permission>)
    ensures Lookup([Entry("/users/42", p), Entry("/users/:param", q)], Split("/users/42"))
            == Some(Entry("/users/42", p))
    ensures Lookup([Entry("/users/:param", q), Entry("/users/42", p)], Split("/users/42"))
            == Some(Entry("/users/:param", q))
  {
    ParamPatternMatchesAnySegment("42");
    assert "/users/" + "42" == "/users/42";
    assert Matches(Split("/users/42"), Split("/users/42"));
    LookupFirstMatch([Entry("/users/42", p), Entry("/users/:param", q)], Split("/users/42"), 0);
    LookupFirstMatch([Entry("/users/:param", q), Entry("/users/42", p)], Split("/users/42"), 0);
  }

  /** A registration with two valid permissions pushes two identical entries. */
  lemma OneEntryPerPermission()
    ensures var perms := [Permission("admin", List(["GET"])), Permission("guest", List(["get"]))];
            Register(["admin", "guest"], [], "/a", perms)
            == ([Entry("/a", perms), Entry("/a", perms)], Pass)
  {
    var perms := [Permission("admin", List(["GET"])), Permission("guest", List(["get"]))];
    MethodSpellings();
    assert CheckPermission(["admin", "guest"], perms[0]).None?;
    assert CheckPermission(["admin", "guest"], perms[1]).None?;
    assert PassingPrefix(["admin", "guest"], perms) == 2;
    assert Repeat(Entry("/a", perms), 2) == [Entry("/a", perms), Entry("/a", perms)];
  }

  /**
   * A failing permission after a valid one leaves the valid one's entry
   * in the table; a failing one in front leaves the table as it was.
   */
  lemma RegistrationNotAtomic()
    ensures var good := Permission("admin", List(["GET"]));
            var bad := Permission("root", List(["GET"]));
            Register(["admin"], [], "/x", [good, bad]) == ([Entry("/x", [good, bad])], Fail(InvalidRole))
            && Register(["admin"], [], "/x", [bad, good]) == ([], Fail(InvalidRole))
  {
    var good := Permission("admin", List(["GET"]));
    var bad := Permission("root", List(["GET"]));
    MethodSpellings();
    RegisterFailureKeepsPrefix(["admin"], [], "/x", [good, bad], 1);
    RegisterFailureKeepsPrefix(["admin"], [], "/x", [bad, good], 0);
  }

  /** The splits of "/a" and "/b". */
  lemma SplitShortPaths()
    ensures Split("/a") == ["", "a"] && Split("/b") == ["", "b"]
  {
    SplitRooted1("a");
    SplitRooted1("b");
  }

  /** `admin` may GET and POST. */
  const AdminPerm := Permission("admin", List(["GET", "POST"]))

  /** Registering that permission on `/a` stores the one entry. */
  lemma AdminRegistration()
    ensures Register(["admin"], [], "/a", [AdminPerm]) == ([Entry("/a", [AdminPerm])], Pass)
  {
    MethodSpellings();
    assert CheckPermission(["admin"], AdminPerm).None?;
  }

  /** In that table "/a" finds the entry and "/b" finds nothing. */
  lemma AdminLookups()
    ensures Lookup([Entry("/a", [AdminPerm])], Split("/a")) == Some(Entry("/a", [AdminPerm]))
    ensures Lookup([Entry("/a", [AdminPerm])], Split("/b")) == None
  {
    SplitShortPaths();
    assert !SegMatch(Split("/a")[1], Split("/b")[1]);
  }

  /** The five outcomes of the decision for that table. */
  lemma DecisionTable()
    ensures Decide([Entry("/a", [AdminPerm])], Request("/a", "GET", Some(User("admin")))) == Allow
    ensures Decide([Entry("/a", [AdminPerm])], Request("/a", "DELETE", Some(User("admin")))) == MethodNotPermitted
    ensures Decide([Entry("/a", [AdminPerm])], Request("/a", "GET", Some(User("guest")))) == RoleHasNoPolicy
    ensures Decide([Entry("/a", [AdminPerm])], Request("/b", "GET", Some(User("admin")))) == NoPolicyForResource
    ensures Decide([Entry("/a", [AdminPerm])], Request("/a", "GET", None)) == Unauthenticated
  {
    AdminLookups();
    SubstringOfItself("admin");
  }

  /** `admin` may "get", spelled in lower case. */
  const LowerPerm := Permission("admin", List(["get"]))

  /** Validation lets the lower-case spelling through and stores it as given. */
  lemma LowerCaseRegistration()
    ensures Register(["admin"], [], "/a", [LowerPerm]) == ([Entry("/a", [LowerPerm])], Pass)
  {
    MethodSpellings();
    assert CheckPermission(["admin"], LowerPerm).None?;
  }

  /**
   * Stored methods keep the case they were registered in, and the
   * decision compares them exactly: methods registered as "get" let a
   * "get" request through but refuse "GET".
   */
  lemma StoredMethodsAreCaseSensitive()
    ensures Decide([Entry("/a", [LowerPerm])], Request("/a", "GET", Some(User("admin")))) == MethodNotPermitted
    ensures Decide([Entry("/a", [LowerPerm])], Request("/a", "get", Some(User("admin")))) == Allow
  {
    SplitShortPaths();
    SubstringOfItself("admin");
  }

  /**
   * Setup followed by requests, run against the class: what the methods'
   * contracts let a caller conclude.
   */
  method SetupThenAuthorize()
  {
    var acl := new AclTable();
    var rolesSet := acl.SetRoles(RoleArray(["admin"]));
    assert rolesSet == Pass && acl.validRoles == ["admin"];
    var added := acl.AddResource("/a", [AdminPerm]);
    AdminRegistration();
    assert added == Pass && acl.resources == [Entry("/a", [AdminPerm])];
    DecisionTable();
    var d := acl.Authorize(Request("/a", "GET", Some(User("admin"))));
    assert d == Allow;
    d := acl.Authorize(Request("/a", "DELETE", Some(User("admin"))));
    assert d == MethodNotPermitted;
    d := acl.Authorize(Request("/b", "GET", Some(User("admin"))));
    assert d == NoPolicyForResource;
    var rejected := acl.SetRoles(NotArray);
    assert rejected == Fail(RolesNotArray) && acl.validRoles == ["admin"];
  }
}
