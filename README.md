# Access-control table for HTTP requests — Dafny model

This project models the decision logic of `index.js`, a small access-control
middleware for an Express application. The module keeps two arrays: the
registered role names (`validRoles`) and a table of resources (`resources`).
Each table entry pairs a path pattern with a list of `{role, methods}`
permissions.

- `setRoles` replaces the role list wholesale.
- `addResource` checks every permission and pushes entries onto the table.
  A permission's role must be registered. Its `methods` must be an array.
  Every method, upper-cased, must be one of GET, POST, PATCH, DELETE or PUT.
- `getAclResource` splits the request path on `/` and returns the first entry
  whose pattern has the same number of segments and matches segment by
  segment. An empty pattern segment and the wildcards `*`, `:param` and
  `:user` match any segment.
- `authorize` checks four things in order: is there a user, is there a
  matching entry, is there a permission for the user's role, and does that
  permission list the request method.

Layout:

- `wrappers.dfy`: `Option` and `Outcome`.
- `paths.dfy` (module `Paths`): JavaScript's `split('/')`, its inverse `Join`
  and the segment matcher.
- `acl.dfy` (module `Acl`): the entities, the validation, the registration
  step `Register`, the lookup `Lookup`, the permission scan `FindPerm` and the
  decision `Decide`. All of these are pure functions, and the lemmas about
  them are here too.
- `table.dfy` (module `Table`): class `AclTable`. It holds the two arrays as
  the fields `resources` and `validRoles`. Its methods follow the loops of the
  source and are proved equal to the functions of `Acl`.
- `examples.dfy` (module `Scenarios`): concrete cases. They cover wildcard and
  empty-segment matching, registration order, non-atomic registration, the
  decision for one registered resource, and a client that drives the class.

Behaviour of the code that the model keeps as it is:

- A call with N valid permissions pushes N identical entries, because
  index.js:30-33 sits inside the loop of index.js:15.
- Registration is not atomic. Permissions checked before a failing one have
  already been pushed. Only a failure in the first permission leaves the
  table unchanged.
- Methods are upper-cased only for validation and are stored as given. The
  decision compares them exactly (index.js:73). So `"get"` passes validation
  like `"GET"`, but a permission registered with `"get"` refuses a `GET`
  request.
- An empty `methods` array passes validation, and a permission with it
  allows no method.

## Model

| member | source | states |
|---|---|---|
| Paths.SegMatch | index.js:97-107 | definition of one segment test: an empty pattern segment or a wildcard matches anything, any other segment only itself; used by `Lookup`'s ensures and the scenarios |
| Paths.Matches | index.js:95-110 | definition of a pattern match: equal segment counts and every segment matches; `Lookup`, `SegmentCountMismatch` and the scenarios characterise it |
| Paths.Split | index.js:88 | `split('/')` yields at least one segment and no segment contains `/` |
| Paths.SplitCount | index.js:88 | a string with k slashes splits into k + 1 segments |
| Paths.JoinSplit | index.js:88 | joining the split segments with `/` gives back the original string |
| Paths.SplitJoin | index.js:91 | splitting slash-free segments joined with `/` gives back those segments |
| Acl.MethodAccepted | index.js:22 | definition of method validation: the upper-cased method is in the list; characterised by `MethodAcceptedIff` and `MethodCaseInsensitive` |
| Acl.MethodAcceptedIff | index.js:4-10 | a method is accepted iff it spells GET, POST, PATCH, DELETE or PUT up to ASCII case |
| Acl.MethodCaseInsensitive | index.js:22 | two spellings that differ only in case are accepted or refused together |
| Acl.FirstRejected | index.js:21-25 | None iff every method is accepted; otherwise the index of the first refused method, with all methods before it accepted |
| Acl.CheckPermission | index.js:16-28 | a permission passes iff its role is registered, its methods are an array and every method is accepted. Otherwise: InvalidRole when the role is not registered; else MethodsNotArray when the methods are not an array; else InvalidMethod naming the first refused method, the one the inner loop throws on |
| Acl.PassingPrefix | index.js:15-34 | the number of permissions that pass before the first one that fails |
| Acl.Register | index.js:14-37 | succeeds iff every permission passes; otherwise fails with the error of some failing permission. The old table is kept as a prefix, every appended entry is `(resource, permissions)`, success appends exactly one entry per permission, and nothing is appended for an empty permission list |
| Acl.RegisterFailureKeepsPrefix | index.js:15-34 | when permission i is the first to fail, the table gains exactly i copies of the entry and the error is that permission's error |
| Acl.EntryMatches | index.js:91-112 | definition: the entry's split pattern matches the split path; `Lookup`, `LookupFirstMatch` and `LookupReturnsFirst` characterise the scan over it |
| Acl.Lookup | index.js:85-116 | None iff no entry matches the split path. A returned entry is in the table, has the path's segment count, and each of its pattern segments is empty, a wildcard or equal to the path segment |
| Acl.LookupFirstMatch | index.js:90-113 | when entry i matches and no earlier entry does, the lookup returns entry i |
| Acl.LookupReturnsFirst | index.js:90-115 | a returned entry is the matching entry of lowest index |
| Acl.LookupStableUnderAppend | index.js:30-33 | appending entries never changes the result for a path that already matches an entry |
| Acl.FindPerm | index.js:58-65 | None iff no permission has the role; otherwise a listed permission with that role |
| Acl.FindPermFirst | index.js:60-65 | the permission found is the first one with the role |
| Acl.SubstringOfItself | index.js:73 | `role.includes(role)` holds, so the second conjunct of the allow test is implied by the role equality |
| Acl.Includes | index.js:73 | definition of `found.methods.includes(method)`: membership for an array, substring search for a string, false for any other value; used by `DecideAllowIff` and `DecideDenials` |
| Acl.Decide | index.js:47-83 | definition of the decision with early exit at each denial; characterised by `DecideAllowIff` and `DecideDenials`, and `Table.AclTable.Authorize` is proved equal to it |
| Acl.DecideAllowIff | index.js:47-83 | allow iff there is a user, an entry matches the path, it has a permission for the user's role, and the first such permission includes the request method |
| Acl.DecideDenials | index.js:47-83 | each denial happens exactly at its step: no user; no matching entry; no permission for the role; the method is not included |
| Acl.SegmentCountMismatch | index.js:95 | a path whose segment count differs from every pattern gets "no policy for resource" |
| Table.AclTable.constructor | index.js:3 | both arrays start empty |
| Table.AclTable.SetRoles | index.js:39-45 | an array replaces the roles exactly; anything else fails with RolesNotArray and leaves the roles unchanged; the table is untouched |
| Table.AclTable.AddResource | index.js:14-37 | the new table and the outcome are those of `Register` on the old table; the roles are unchanged |
| Table.AclTable.GetAclResource | index.js:85-116 | the nested scan returns exactly `Lookup` of the split path |
| Table.AclTable.Authorize | index.js:47-83 | the method's decision is exactly `Decide` on the current table |
| Scenarios.MethodSpellings | index.js:22 | "GET", "get" and "Get" are accepted, as are "POST" and "post"; "HEAD" and "options" are refused |
| Scenarios.ParamPatternMatchesAnySegment | index.js:97-107 | `/users/:param` matches `/users/<x>` for every slash-free x |
| Scenarios.ParamPatternNeedsSameLength | index.js:95 | `/users/:param` matches neither `/users/42/extra` nor `/users` |
| Scenarios.EmptySegmentExample | index.js:98 | `/users//profile` matches `/users/<x>/profile` for every slash-free x |
| Scenarios.FirstRegisteredWins | index.js:90-113 | of two patterns that both match, the one registered first is returned |
| Scenarios.OneEntryPerPermission | index.js:30-33 | two valid permissions in one call push two identical entries |
| Scenarios.RegistrationNotAtomic | index.js:15-34 | `[good, bad]` leaves one entry and fails; `[bad, good]` leaves the table empty and fails |
| Scenarios.AdminRegistration | index.js:14-37 | registering admin with GET and POST on `/a` stores exactly that entry |
| Scenarios.AdminLookups | index.js:85-116 | in that table `/a` finds the entry and `/b` finds nothing |
| Scenarios.DecisionTable | index.js:47-83 | for that table: admin GET is allowed; admin DELETE is refused for the method; guest GET has no policy for the role; `/b` has no policy; no user is unauthenticated |
| Scenarios.LowerCaseRegistration | index.js:22 | methods registered as "get" pass validation and are stored as "get" |
| Scenarios.StoredMethodsAreCaseSensitive | index.js:73 | with "get" stored, a "GET" request is refused and a "get" request is allowed |

## Left out

- The Express plumbing is not modelled: `res.status(...).send(...)`, `next()` and the reply texts (index.js:53-55, 68-70, 74-78, 81). The decision is returned as a `Decision` value instead.
- `console.log(JSON.stringify(resources))` (index.js:36) is logging output and is not modelled.
- The texts of the thrown strings (index.js:17, 23, 27, 43) are not modelled. They become `AclError` variants. `InvalidRole` carries no payload because the message only prints `[object Object]`.
- Decide: the model returns the intended decision at each denial; the JavaScript does not. index.js:52-56 replies 403 and carries on, and the next line dereferences `null`. index.js:67-71 never replies, because `found` is `undefined` (index.js:58) and `undefined === null` is false; index.js:73 then dereferences `undefined`. So `RoleHasNoPolicy` is a reply the program means to send but never sends. Both paths end in a TypeError that the model does not represent.
- Includes: a stored `methods` value that is neither an array nor a string has no `includes`, so the JavaScript throws a TypeError at index.js:73. The model treats that case as `MethodNotPermitted`. Such a permission can only be stored by a registration that failed part-way.
- MethodAccepted: `toUpperCase` is modelled for ASCII letters only. Full Unicode case mapping is not modelled. For example, JavaScript maps U+017F to `S`, so it accepts "poſt" where the model refuses it.
- Dynamic typing beyond "is an array" is not modelled. Roles, methods and paths are strings in the model. A non-string method (whose `toUpperCase` would throw) and a non-object user are not represented. `req.user` is present or absent.
- Aliasing is not modelled. `setRoles` keeps the caller's array and `addResource` stores the caller's `permissions` array, so later changes by the caller show through in JavaScript. The model holds values.
- Concurrency around the module-level state is not modelled. Setup and requests are sequential calls on one object.
