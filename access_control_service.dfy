/** The access-control service: a constant table of roles and the permissions each grants,
    the role and permission checks over a decoded user, and the route guard that turns an
    `Authorization` header into a 401, a 403 or a pass. Verifying the token is a parameter. */
module AccessControlService {
  import opened JsValues

  // ----- the roles table -----

  /** The permissions each named role grants. */
  function Roles(): (t: map<string, seq<string>>) {
    map["admin" := ["read", "write", "delete", "manage"],
        "editor" := ["read", "write", "delete"],
        "viewer" := ["read"]]
  }

  /** The property names every plain object inherits from `Object.prototype`. Reading one
      of them from the table gives a function or an object, which has no `includes`. */
  predicate Inherited(k: string) {
    k in {"constructor", "hasOwnProperty", "isPrototypeOf", "propertyIsEnumerable",
          "toString", "toLocaleString", "valueOf", "__proto__", "__defineGetter__",
          "__defineSetter__", "__lookupGetter__", "__lookupSetter__"}
  }

  /** Only `admin` manages, `editor` does all but manage, and `viewer` only reads. */
  lemma RolesTable()
    ensures forall r :: r in Roles() && "manage" in Roles()[r] ==> r == "admin"
    ensures "manage" !in Roles()["editor"]
    ensures forall a :: a in Roles()["viewer"] <==> a == "read"
    ensures forall a :: a in Roles()["editor"] ==> a in Roles()["admin"]
    ensures forall r :: r in Roles() ==> !Inherited(r)
  {
    assert Roles().Keys == {"admin", "editor", "viewer"};
    assert forall r :: r in Roles() ==> r == "admin" || r == "editor" || r == "viewer";
  }

  /** `s.includes(t)` on strings: `t` occurs in `s`. */
  predicate Contains(s: string, t: string) {
    (|t| <= |s| && s[..|t|] == t) || (s != [] && Contains(s[1..], t))
  }

  /** `roles.includes(role)` answers true: membership in an array, a substring of a string. */
  predicate Includes(roles: Value, role: string) {
    (roles.Arr? && Str(role) in roles.elems) || (roles.Str? && Contains(roles.s, role))
  }

  // ----- hasRole -----

  /** `user.roles && user.roles.includes(role)`: a falsy `roles` is returned as it is, an
      array answers by membership, a string by substring, and anything else throws, as
      does a `null` or `undefined` user. */
  function HasRole(user: Value, role: string): (r: Completion<Value>)
    ensures Nullish(user) ==> r == Threw(TypeError)
    ensures !Nullish(user) && GetProp(user, "roles").Arr? ==>
              r == Normal(Bool(Str(role) in GetProp(user, "roles").elems))
    ensures !Nullish(user) && !Truthy(GetProp(user, "roles")) ==> r == Normal(GetProp(user, "roles"))
    ensures !Nullish(user) && GetProp(user, "roles").Str? && Truthy(GetProp(user, "roles")) ==>
              r == Normal(Bool(Contains(GetProp(user, "roles").s, role)))
    ensures !Nullish(user) && Truthy(GetProp(user, "roles")) && !(GetProp(user, "roles").Arr? || GetProp(user, "roles").Str?) ==>
              r == Threw(TypeError)
    ensures r.Normal? ==>
              (Truthy(r.value) <==> Truthy(GetProp(user, "roles")) && Includes(GetProp(user, "roles"), role))
  {
    if Nullish(user) then Threw(TypeError)
    else
      var roles := GetProp(user, "roles");
      if !Truthy(roles) then Normal(roles)
      else if roles.Arr? then Normal(Bool(Str(role) in roles.elems))
      else if roles.Str? then Normal(Bool(Contains(roles.s, role)))
      else Threw(TypeError)
  }

  // ----- hasPermission -----

  /** The property key a role value names when it indexes the table: a string is itself,
      a one-element array is its element's key; `None` for values whose key is no table entry
      and no inherited name (numbers, booleans, `null`, objects, longer arrays). */
  function RoleKey(v: Value): (r: Option<string>)
    ensures v.Str? ==> r == Some(v.s)
    ensures !(v.Str? || v.Arr?) ==> r.None?
    ensures v.Arr? && |v.elems| != 1 ==> r.None?
    ensures v.Arr? && |v.elems| == 1 && v.elems[0].Str? ==> r == Some(v.elems[0].s)
  {
    match v
    case Str(s) => Some(s)
    case Arr(vs) => if |vs| == 1 && (vs[0].Str? || vs[0].Arr?) then RoleKey(vs[0]) else None
    case _ => None
  }

  /** What `roles[role] && roles[role].includes(action)` does for one role of the user. */
  function Grants(role: Value, action: string): (r: Completion<bool>)
    ensures r == Threw(TypeError) <==> RoleKey(role).Some? && Inherited(RoleKey(role).value)
    ensures r == Normal(true) <==> RoleKey(role).Some? && RoleKey(role).value in Roles() &&
                                   action in Roles()[RoleKey(role).value]
  {
    match RoleKey(role)
    case None => Normal(false)
    case Some(k) =>
      if k in Roles() then Normal(action in Roles()[k])
      else if Inherited(k) then Threw(TypeError)
      else Normal(false)
  }

  /** `roles.some(...)`: stops at the first role that grants the action or throws. */
  function AnyGrants(roles: seq<Value>, action: string): (r: Completion<bool>)
    ensures !r.NullReturn?
    ensures r.Threw? ==> r.error == TypeError
    ensures r == Normal(true) ==> exists i :: 0 <= i < |roles| && Grants(roles[i], action) == Normal(true)
  {
    if roles == [] then Normal(false)
    else
      var g := Grants(roles[0], action);
      if g == Normal(false) then AnyGrants(roles[1..], action) else g
  }

  /** The permission check: false without a user or roles, a TypeError for roles that are
      no array, and otherwise the verdict of the user's roles in order. */
  function HasPermission(user: Value, action: string): (r: Completion<bool>)
    ensures !Truthy(user) ==> r == Normal(false)
    ensures Truthy(user) && !Truthy(GetProp(user, "roles")) ==> r == Normal(false)
    ensures Truthy(user) && Truthy(GetProp(user, "roles")) && !GetProp(user, "roles").Arr? ==>
              r == Threw(TypeError)
  {
    if !Truthy(user) then Normal(false)
    else
      var roles := GetProp(user, "roles");
      if !Truthy(roles) then Normal(false)
      else if !roles.Arr? then Threw(TypeError)
      else AnyGrants(roles.elems, action)
  }

  /** A role the table lists and that lists the action. */
  predicate Permits(role: Value, action: string) {
    RoleKey(role).Some? && RoleKey(role).value in Roles() && action in Roles()[RoleKey(role).value]
  }

  /** When no role names an inherited property, some role grants the action exactly when
      one of them is in the table and lists it; unknown roles grant nothing. */
  lemma {:induction false} AnyGrantsIff(roles: seq<Value>, action: string)
    requires forall i :: 0 <= i < |roles| ==> !(RoleKey(roles[i]).Some? && Inherited(RoleKey(roles[i]).value))
    ensures AnyGrants(roles, action) == Normal(exists i :: 0 <= i < |roles| && Permits(roles[i], action))
  {
    if roles != [] {
      AnyGrantsIff(roles[1..], action);
      if !Permits(roles[0], action) {
        assert forall i :: 1 <= i < |roles| ==> (Permits(roles[i], action) <==> Permits(roles[1..][i - 1], action));
        if exists i :: 0 <= i < |roles| && Permits(roles[i], action) {
          var i :| 0 <= i < |roles| && Permits(roles[i], action);
          assert Permits(roles[1..][i - 1], action);
        }
      }
    }
  }

  /** A role that names an inherited property before any granting role makes the check throw. */
  lemma {:induction false} AnyGrantsThrows(roles: seq<Value>, action: string, j: nat)
    requires j < |roles| && RoleKey(roles[j]).Some? && Inherited(RoleKey(roles[j]).value)
    requires forall i :: 0 <= i < j ==> !Permits(roles[i], action)
    ensures AnyGrants(roles, action) == Threw(TypeError)
  {
    if j > 0 {
      AnyGrantsThrows(roles[1..], action, j - 1);
    }
  }

  /** `hasPermission` for a user with an array of roles, none of them an inherited name. */
  lemma HasPermissionIff(user: Value, action: string)
    requires Truthy(user) && GetProp(user, "roles").Arr?
    requires forall i :: 0 <= i < |GetProp(user, "roles").elems| ==>
               !(RoleKey(GetProp(user, "roles").elems[i]).Some? &&
                 Inherited(RoleKey(GetProp(user, "roles").elems[i]).value))
    ensures HasPermission(user, action) ==
              Normal(exists i :: 0 <= i < |GetProp(user, "roles").elems| &&
                                 Permits(GetProp(user, "roles").elems[i], action))
  {
    AnyGrantsIff(GetProp(user, "roles").elems, action);
  }

  // ----- protectRoute -----

  /** `s.split(c)` */
  function Split(s: string, c: char): (parts: seq<string>)
    ensures |parts| >= 1
    decreases |s|
  {
    var p := IndexOfChar(s, c);
    if p == |s| then [s] else [s[..p]] + Split(s[p + 1..], c)
  }

  /** `parts.join(c)` */
  function Join(parts: seq<string>, c: char): (s: string) {
    if parts == [] then ""
    else if |parts| == 1 then parts[0]
    else parts[0] + [c] + Join(parts[1..], c)
  }

  /** Splitting loses nothing: the parts hold no separator and join back to the string. */
  lemma {:induction false} SplitJoin(s: string, c: char)
    ensures Join(Split(s, c), c) == s
    ensures forall i :: 0 <= i < |Split(s, c)| ==> c !in Split(s, c)[i]
    decreases |s|
  {
    var p := IndexOfChar(s, c);
    if p < |s| {
      SplitJoin(s[p + 1..], c);
      assert s == s[..p] + [c] + s[p + 1..];
    }
  }

  /** `header && header.split(' ')[1]`: the second space-separated word, `Undefined` when the
      header is missing or has no space, and the header itself when it is empty. */
  function Token(header: Option<string>): (t: Value)
    ensures t.Str? || t.Undefined?
    ensures header.Some? && |Split(header.value, ' ')| >= 2 ==> t == Str(Split(header.value, ' ')[1])
    ensures header.Some? && header.value != "" && |Split(header.value, ' ')| < 2 ==> t == Undefined
    ensures header.None? ==> t == Undefined
    ensures Truthy(t) ==> header.Some? && |Split(header.value, ' ')| >= 2 &&
                          t == Str(Split(header.value, ' ')[1]) && ' ' !in t.s
  {
    match header
    case None => Undefined
    case Some(h) =>
      if h == "" then Str(h)
      else
        var parts := Split(h, ' ');
        SplitJoin(h, ' ');
        if |parts| >= 2 then Str(parts[1]) else Undefined
  }

  /** The outcome of the guard: a 401 for a missing or rejected token, a 403, the call of
      `next` with the user attached, or an error thrown on the way. */
  datatype Decision = NoToken | InvalidToken | Forbidden | Pass(user: Value) | Failed(error: Error) {
    function Status(): Option<nat> {
      match this
      case NoToken => Some(401)
      case InvalidToken => Some(401)
      case Forbidden => Some(403)
      case _ => None
    }
  }

  /** The middleware `protectRoute(action)` applied to a request with the given
      `Authorization` header; `authenticate` verifies a token and gives the decoded user
      or `null`. The checks come in order and the first that fails decides. */
  function ProtectRoute(action: string, header: Option<string>, authenticate: string -> Value): (d: Decision)
    ensures d == NoToken <==> !Truthy(Token(header))
    ensures d == InvalidToken <==> Truthy(Token(header)) && !Truthy(authenticate(Token(header).s))
    ensures d.Pass? <==> Truthy(Token(header)) && Truthy(authenticate(Token(header).s)) &&
                         HasPermission(authenticate(Token(header).s), action) == Normal(true)
    ensures d.Pass? ==> d.user == authenticate(Token(header).s)
    ensures d == Forbidden <==> Truthy(Token(header)) && Truthy(authenticate(Token(header).s)) &&
                                HasPermission(authenticate(Token(header).s), action) == Normal(false)
  {
    var token := Token(header);
    if !Truthy(token) then NoToken
    else
      var user := authenticate(token.s);
      if !Truthy(user) then InvalidToken
      else
        match HasPermission(user, action)
        case Normal(true) => Pass(user)
        case Normal(false) => Forbidden
        case Threw(e) => Failed(e)
        case NullReturn => Failed(TypeError)
  }

  /** A request passes only with a bearer token whose user holds a role granting the action. */
  lemma PassNeedsGrantingRole(action: string, header: Option<string>, authenticate: string -> Value)
    requires ProtectRoute(action, header, authenticate).Pass?
    ensures header.Some? && |Split(header.value, ' ')| >= 2
    ensures var user := authenticate(Split(header.value, ' ')[1]);
            GetProp(user, "roles").Arr? &&
            exists i :: 0 <= i < |GetProp(user, "roles").elems| && Permits(GetProp(user, "roles").elems[i], action)
  {
    var user := authenticate(Token(header).s);
    PassFromGrants(GetProp(user, "roles").elems, action);
  }

  lemma {:induction false} PassFromGrants(roles: seq<Value>, action: string)
    requires AnyGrants(roles, action) == Normal(true)
    ensures exists i :: 0 <= i < |roles| && Permits(roles[i], action)
  {
    if Grants(roles[0], action) != Normal(true) {
      PassFromGrants(roles[1..], action);
      var i :| 0 <= i < |roles| - 1 && Permits(roles[1..][i], action);
      assert Permits(roles[i + 1], action);
    }
  }
}
