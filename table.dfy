/**
 * The module-level state of index.js as an object: the registered roles
 * and the table of resources, with the four exported operations run step
 * by step as in the source and proved equal to the functions of module Acl.
 */
module Table {
  import opened Wrappers
  import opened Paths
  import opened Acl

  class AclTable {
    /** The entries pushed by `addResource`, in insertion order (index.js:3). */
    var resources: seq<Entry>
    /** The roles set by `setRoles` (index.js:3). */
    var validRoles: seq<string>

    /** Both arrays start empty (index.js:3). */
    constructor ()
      ensures resources == [] && validRoles == []
    {
      resources := [];
      validRoles := [];
    }

    /**
     * `setRoles` (index.js:39-45): an array replaces the registered roles
     * wholesale; anything else throws and changes nothing.
     */
    method SetRoles(roles: RolesArg) returns (outcome: Outcome<AclError>)
      modifies this
      ensures resources == old(resources)
      ensures roles.RoleArray? ==> validRoles == roles.roles && outcome == Pass
      ensures roles.NotArray? ==> validRoles == old(validRoles) && outcome == Fail(RolesNotArray)
    {
      if roles.RoleArray? {
        validRoles := roles.roles;
        outcome := Pass;
      } else {
        outcome := Fail(RolesNotArray);
      }
    }

    /**
     * `addResource` (index.js:14-37): checks the permissions in order and
     * pushes `(resource, permissions)` once per permission that passes; the
     * first failure throws, keeping what was already pushed.
     */
    method AddResource(resource: string, permissions: seq<Permission>) returns (outcome: Outcome<AclError>)
      modifies this
      ensures validRoles == old(validRoles)
      ensures (resources, outcome) == Register(validRoles, old(resources), resource, permissions)
    {
      var i := 0;
      while i < |permissions|
        invariant i <= |permissions|
        invariant validRoles == old(validRoles)
        invariant forall k :: 0 <= k < i ==> CheckPermission(validRoles, permissions[k]).None?
        invariant resources == old(resources) + Repeat(Entry(resource, permissions), i)
      {
        var permission := permissions[i];
        if permission.role !in validRoles {
          RegisterFailureKeepsPrefix(validRoles, old(resources), resource, permissions, i);
          return Fail(InvalidRole);
        }
        match permission.methods {
          case List(ms) =>
            for j := 0 to |ms|
              invariant forall k :: 0 <= k < j ==> MethodAccepted(ms[k])
            {
              if ToUpper(ms[j]) !in ValidMethods {
                assert FirstRejected(ms) == Some(j);
                RegisterFailureKeepsPrefix(validRoles, old(resources), resource, permissions, i);
                return Fail(InvalidMethod(ms[j]));
              }
            }
          case _ =>
            RegisterFailureKeepsPrefix(validRoles, old(resources), resource, permissions, i);
            return Fail(MethodsNotArray);
        }
        resources := resources + [Entry(resource, permissions)];
        i := i + 1;
      }
      outcome := Pass;
    }

    /**
     * `getAclResource` (index.js:85-116): scans the entries in order and
     * returns the first whose pattern has as many segments as the path and
     * matches it segment by segment.
     */
    method GetAclResource(path: string) returns (r: Option<Entry>)
      ensures r == Lookup(resources, Split(path))
    {
      var pathParts := Split(path);
      for n := 0 to |resources|
        invariant forall k :: 0 <= k < n ==> !EntryMatches(resources[k], pathParts)
      {
        var value := resources[n];
        var matchParts := Split(value.resource);
        var pathMatch := true;
        if |pathParts| == |matchParts| {
          for i := 0 to |matchParts|
            invariant pathMatch
            invariant forall k :: 0 <= k < i ==> SegMatch(matchParts[k], pathParts[k])
          {
            if matchParts[i] == "" { continue; }
            if matchParts[i] in Wildcards { continue; }
            if matchParts[i] != pathParts[i] {
              pathMatch := false;
              break;
            }
          }
        } else {
          pathMatch := false;
        }
        assert pathMatch == EntryMatches(value, pathParts);
        if pathMatch {
          LookupFirstMatch(resources, pathParts, n);
          return Some(value);
        }
      }
      r := None;
    }

    /**
     * The decision part of `authorize` (index.js:47-83). index.js:52-56
     * replies 403 and carries on; index.js:67-71 never replies, because
     * `found` is `undefined` rather than `null`, and the next line throws.
     * In both places this method returns the intended decision.
     */
    method Authorize(req: Request) returns (d: Decision)
      ensures d == Decide(resources, req)
    {
      if req.user.None? {
        return Unauthenticated;
      }
      var user := req.user.value;
      var resource := GetAclResource(req.path);
      if resource.None? {
        return NoPolicyForResource;
      }
      var permissions := resource.value.permissions;
      var found: Option<Permission> := None;
      for k := 0 to |permissions|
        invariant found.None?
        invariant forall j :: 0 <= j < k ==> permissions[j].role != user.role
      {
        if permissions[k].role == user.role {
          FindPermFirst(permissions, user.role, k);
          found := Some(permissions[k]);
          break;
        }
      }
      if found.None? {
        return RoleHasNoPolicy;
      }
      if Includes(found.value.methods, req.httpMethod) && IsSubstring(user.role, found.value.role) {
        d := Allow;
      } else {
        d := MethodNotPermitted;
      }
    }
  }
}
