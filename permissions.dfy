/**
 * Row-level (object-level) permissions: access-control lists evaluated
 * against the principals a user holds, first matching entry wins.
 *
 * The Python original discovers the shape of users, resources and
 * permission fields by reflection; here each shape is an explicit
 * datatype variant.
 */
module Permissions {

  datatype Option<+T> = None | Some(value: T)

  /** An identity tag a user can hold. */
  type Principal = string

  /** Held by every user, logged in or not. */
  const Everyone: Principal := "system:everyone"
  /** Held by every user that has at least one principal of their own. */
  const Authenticated: Principal := "system:authenticated"

  /** How the All sentinel prints itself, and so its key in a listing. */
  const AllPermissionsText: string := "permissions:*"

  datatype Action = Allow | Deny

  /**
   * A permission as the source passes it around: a permission name, or the
   * All sentinel object, which contains every permission.
   */
  datatype Permission = Name(name: string) | All

  /**
   * The permissions field of an ACL entry: a single value (a string or the
   * All sentinel, neither of which is iterated), or a collection of
   * permissions (a list, tuple or set).
   */
  datatype PermissionField = Single(permission: Permission) | Collection(members: set<Permission>)

  /** One `(action, principal, permissions)` triple of an access-control list. */
  datatype Entry = Entry(action: Action, principal: Principal, permissions: PermissionField)

  /** Entry order matters: it is never sorted or deduplicated. */
  type Acl = seq<Entry>

  /** Shorthand entry that denies everything to everyone. */
  const DenyAll: Entry := Entry(Deny, Everyone, Single(All))
  /** Shorthand entry that allows everything to everyone (ALOW_ALL in the source). */
  const AllowAll: Entry := Entry(Allow, Everyone, Single(All))

  /**
   * An attribute that is either a plain value or a zero-argument callable
   * producing the value; the callable is invoked on every read.
   */
  datatype Attribute<T> = Given(value: T) | Computed(produce: () -> T)

  function Evaluate<T>(attribute: Attribute<T>): T
  {
    match attribute
    case Given(v) => v
    case Computed(f) => f()
  }

  /**
   * A user with an optional `principals` attribute. None stands for a
   * missing attribute and for a falsy non-collection value such as None.
   */
  datatype User = User(principals: Option<Attribute<seq<Principal>>>)

  /** What a resource is, apart from its `__acl__` attribute. */
  datatype Shape =
    | Text(text: string)     // a string: iterable, but never taken as an ACL
    | Iterable(entries: Acl) // any other iterable, taken as the ACL itself
    | NotIterable

  /** A resource with an optional `__acl__` attribute (None: missing or None). */
  datatype Resource = Resource(acl: Option<Attribute<Acl>>, shape: Shape)

  /** A plain list of entries passed where a resource is expected. */
  function AclResource(acl: Acl): Resource
  {
    Resource(None, Iterable(acl))
  }

  // ---------------------------------------------------------------------
  // Principal normalization

  /** The user's own principals; a missing attribute reads as the empty list. */
  function UserPrincipals(user: User): seq<Principal>
  {
    match user.principals
    case None => []
    case Some(attribute) => Evaluate(attribute)
  }

  lemma SystemPrincipalsDiffer()
    ensures Everyone != Authenticated
  {
    assert Everyone[7] != Authenticated[7];
  }

  /**
   * All principals of a user: an anonymous user (no principals, or an empty
   * collection) holds exactly Everyone; any other user holds Everyone,
   * Authenticated and their own principals, and nothing else.
   */
  function NormalizePrincipals(user: User): (principals: set<Principal>)
    ensures Everyone in principals
    ensures Authenticated in principals <==> |UserPrincipals(user)| > 0
    ensures |UserPrincipals(user)| == 0 ==> principals == {Everyone}
    ensures forall p :: p in UserPrincipals(user) ==> p in principals
    ensures forall p :: p in principals ==>
              p == Everyone || p == Authenticated || p in UserPrincipals(user)
  {
    SystemPrincipalsDiffer();
    var given := UserPrincipals(user);
    if |given| == 0 then {Everyone}
    else {Everyone, Authenticated} + set p | p in given
  }

  // ---------------------------------------------------------------------
  // ACL normalization

  /** Iterable but not a string: only such a resource is taken as its own ACL. */
  predicate IsLikeList(shape: Shape): (likeList: bool)
    ensures shape.Text? ==> !likeList
    ensures likeList <==> shape.Iterable?
  {
    shape.Iterable?
  }

  /**
   * The ACL of a resource, by priority: the `__acl__` attribute (called when
   * it is callable, even when the resource is itself iterable), then the
   * resource itself when it is a non-string iterable, then the empty list.
   * The chosen sequence is returned as it is.
   */
  function NormalizeAcl(resource: Resource): (acl: Acl)
    ensures resource.acl.Some? ==> acl == Evaluate(resource.acl.value)
    ensures resource.acl.None? && IsLikeList(resource.shape) ==> acl == resource.shape.entries
    ensures resource.acl.None? && !IsLikeList(resource.shape) ==> acl == []
  {
    match resource.acl
    case Some(attribute) => Evaluate(attribute)
    case None => if IsLikeList(resource.shape) then resource.shape.entries else []
  }

  /** A plain list normalizes to itself, entry for entry. */
  lemma NormalizeAclOfList(acl: Acl)
    ensures NormalizeAcl(AclResource(acl)) == acl
  {
  }

  // ---------------------------------------------------------------------
  // Decision

  /**
   * The permissions of a field one by one, as `list_permissions` expands
   * them: a string or the All sentinel is not like a list and stands for
   * itself; a collection is iterated.
   */
  function Expand(field: PermissionField): (permissions: set<Permission>)
    ensures field.Single? ==> permissions == {field.permission}
    ensures field.Collection? ==> permissions == field.members
  {
    match field
    case Single(p) => {p}
    case Collection(ps) => ps
  }

  /**
   * Whether `requested` is in the field: a string stands for the one-element
   * set holding it, and the All sentinel contains every permission.
   */
  function Contains(field: PermissionField, requested: Permission): (r: bool)
    ensures field == Single(All) ==> r
    ensures field != Single(All) ==> (r <==> requested in Expand(field))
  {
    match field
    case Single(All) => true
    case Single(Name(n)) => requested == Name(n)
    case Collection(ps) => requested in ps
  }

  /**
   * An entry matches when its principal is held and its permissions contain
   * the request; an entry for All matches whenever its principal is held.
   */
  predicate Matches(entry: Entry, principals: set<Principal>, requested: Permission): (matches: bool)
    ensures matches ==> entry.principal in principals
    ensures entry.permissions == Single(All) ==> (matches <==> entry.principal in principals)
    ensures entry.permissions != Single(All) ==>
              (matches <==> requested in Expand(entry.permissions) && entry.principal in principals)
  {
    Contains(entry.permissions, requested) && entry.principal in principals
  }

  /** Entry `i` is the earliest entry of `acl` that matches. */
  predicate FirstMatchAt(principals: set<Principal>, requested: Permission, acl: Acl, i: int)
  {
    && 0 <= i < |acl|
    && Matches(acl[i], principals, requested)
    && forall j :: 0 <= j < i ==> !Matches(acl[j], principals, requested)
  }

  /**
   * The decision: the action of the first matching entry, deny when no entry
   * matches.
   */
  function Decide(principals: set<Principal>, requested: Permission, acl: Acl): (granted: bool)
    ensures forall i :: FirstMatchAt(principals, requested, acl, i) ==>
              (granted <==> acl[i].action == Allow)
    ensures (forall i :: 0 <= i < |acl| ==> !Matches(acl[i], principals, requested)) ==> !granted
  {
    if acl == [] then false
    else if Matches(acl[0], principals, requested) then acl[0].action == Allow
    else
      var rest := Decide(principals, requested, acl[1..]);
      assert forall i :: FirstMatchAt(principals, requested, acl, i) ==>
               FirstMatchAt(principals, requested, acl[1..], i - 1);
      rest
  }

  /** The decision on the entries from `i` on: entry `i` decides, or is skipped. */
  lemma DecideFrom(principals: set<Principal>, requested: Permission, acl: Acl, i: nat)
    requires i < |acl|
    ensures Decide(principals, requested, acl[i..]) ==
            if Matches(acl[i], principals, requested) then acl[i].action == Allow
            else Decide(principals, requested, acl[i + 1..])
  {
    assert acl[i..][0] == acl[i] && acl[i..][1..] == acl[i + 1..];
  }

  /**
   * `has_permission`: scans the normalized ACL in order and returns on the
   * first entry whose permissions contain the request and whose principal
   * the user holds.
   */
  method HasPermission(user: User, requested: Permission, resource: Resource) returns (granted: bool)
    ensures granted == Decide(NormalizePrincipals(user), requested, NormalizeAcl(resource))
  {
    var principals := NormalizePrincipals(user);
    var acl := NormalizeAcl(resource);
    var i := 0;
    while i < |acl|
      invariant 0 <= i <= |acl|
      invariant Decide(principals, requested, acl[i..]) == Decide(principals, requested, acl)
    {
      var entry := acl[i];
      DecideFrom(principals, requested, acl, i);
      if Contains(entry.permissions, requested) {
        if entry.principal in principals {
          return entry.action == Allow;
        }
      }
      i := i + 1;
    }
    return false;
  }

  // ---------------------------------------------------------------------
  // Listing

  /** Every permission named by some entry, expanded one by one. */
  function AvailablePermissions(acl: Acl): (available: set<Permission>)
    ensures forall p :: p in available <==>
              exists i :: 0 <= i < |acl| && p in Expand(acl[i].permissions)
  {
    if acl == [] then {}
    else
      var rest := AvailablePermissions(acl[1..]);
      assert forall i :: 0 < i < |acl| ==> acl[1..][i - 1] == acl[i];
      Expand(acl[0].permissions) + rest
  }

  /**
   * `str()` of a permission: its name, or the text of the All sentinel. Two
   * permissions display alike only when one is All and the other the literal
   * name "permissions:*".
   */
  function Display(p: Permission): (text: string)
    ensures p.Name? ==> text == p.name
    ensures text == AllPermissionsText <==> p == All || p == Name(AllPermissionsText)
  {
    match p
    case Name(n) => n
    case All => AllPermissionsText
  }

  /**
   * The permission shown under `key`. Only the literal name
   * "permissions:*" and the All sentinel display the same; then the name is
   * taken.
   */
  function Shown(available: set<Permission>, key: string): (shown: Permission)
    ensures (exists p :: p in available && Display(p) == key) ==> shown in available && Display(shown) == key
    ensures Name(key) in available ==> shown == Name(key)
  {
    if Name(key) in available then Name(key) else All
  }

  /**
   * The listing over normalized principals and ACL: one key per distinct
   * displayed permission, each mapped to the decision for that permission.
   */
  function Listing(principals: set<Principal>, acl: Acl): (listing: map<string, bool>)
    ensures forall k :: k in listing <==>
              exists p :: p in AvailablePermissions(acl) && Display(p) == k
    ensures forall n :: Name(n) in AvailablePermissions(acl) ==>
              n in listing && listing[n] == Decide(principals, Name(n), acl)
    ensures All in AvailablePermissions(acl) && Name(AllPermissionsText) !in AvailablePermissions(acl) ==>
              AllPermissionsText in listing && listing[AllPermissionsText] == Decide(principals, All, acl)
  {
    var available := AvailablePermissions(acl);
    var keys := set p | p in available :: Display(p);
    map k | k in keys :: Decide(principals, Shown(available, k), acl)
  }

  /**
   * `list_permissions`: every permission occurring in the resource's ACL,
   * keyed by its string form, mapped to whether the user holds it.
   */
  function ListPermissions(user: User, resource: Resource): (listing: map<string, bool>)
    ensures forall k :: k in listing <==>
              exists i :: 0 <= i < |NormalizeAcl(resource)| &&
                exists p :: p in Expand(NormalizeAcl(resource)[i].permissions) && Display(p) == k
    ensures forall n :: Name(n) in AvailablePermissions(NormalizeAcl(resource)) ==>
              n in listing &&
              listing[n] == Decide(NormalizePrincipals(user), Name(n), NormalizeAcl(resource))
    ensures All in AvailablePermissions(NormalizeAcl(resource)) &&
            Name(AllPermissionsText) !in AvailablePermissions(NormalizeAcl(resource)) ==>
              AllPermissionsText in listing &&
              listing[AllPermissionsText] == Decide(NormalizePrincipals(user), All, NormalizeAcl(resource))
  {
    Listing(NormalizePrincipals(user), NormalizeAcl(resource))
  }

  // ---------------------------------------------------------------------
  // The dependency a route declares

  datatype Grant = Grant(user: User, resource: Resource)

  datatype Verdict = Permit(grant: Grant) | PermissionDenied

  /**
   * The per-request check: a grant pairing user and resource when the user
   * holds the permission, the denial otherwise.
   */
  method Authorize(user: User, permission: Permission, resource: Resource) returns (verdict: Verdict)
    ensures verdict.Permit? <==> Decide(NormalizePrincipals(user), permission, NormalizeAcl(resource))
    ensures verdict.Permit? ==> verdict.grant.user == user && verdict.grant.resource == resource
  {
    var granted := HasPermission(user, permission, resource);
    if granted {
      verdict := Permit(Grant(user, resource));
    } else {
      verdict := PermissionDenied;
    }
  }
}
