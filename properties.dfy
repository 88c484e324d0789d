/**
 * Properties of the permission decision: first match wins, implicit deny,
 * the All shorthands, exact matching of string permissions, and agreement
 * between the listing and the single check.
 */
module PermissionProperties {

  import opened Permissions

  // ---------------------------------------------------------------------
  // Principals

  /**
   * An anonymous user holds Everyone and nothing else: no principals
   * attribute, or one that is, or produces, an empty collection.
   */
  lemma AnonymousHoldsOnlyEveryone(user: User)
    requires |UserPrincipals(user)| == 0
    ensures NormalizePrincipals(user) == {Everyone}
  {
  }

  /** A user with the single principal "role:admin". */
  lemma AdminPrincipals()
    ensures NormalizePrincipals(User(Some(Given(["role:admin"])))) ==
            {Everyone, Authenticated, "role:admin"}
  {
  }

  // ---------------------------------------------------------------------
  // First match wins

  /** The first matching entry decides, whatever follows it. */
  lemma FirstMatchDecides(principals: set<Principal>, requested: Permission, before: Acl, entry: Entry, after: Acl)
    requires forall j :: 0 <= j < |before| ==> !Matches(before[j], principals, requested)
    requires Matches(entry, principals, requested)
    ensures Decide(principals, requested, before + [entry] + after) <==> entry.action == Allow
  {
    var acl := before + [entry] + after;
    assert acl[|before|] == entry;
    assert forall j :: 0 <= j < |before| ==> acl[j] == before[j];
    assert FirstMatchAt(principals, requested, acl, |before|);
  }

  /** Once some entry of `acl` matches, appending entries changes nothing. */
  lemma {:induction false} LaterEntriesIgnored(principals: set<Principal>, requested: Permission, acl: Acl, rest: Acl)
    requires exists i :: 0 <= i < |acl| && Matches(acl[i], principals, requested)
    ensures Decide(principals, requested, acl + rest) == Decide(principals, requested, acl)
  {
    assert (acl + rest)[0] == acl[0];
    if !Matches(acl[0], principals, requested) {
      var i :| 0 <= i < |acl| && Matches(acl[i], principals, requested);
      assert acl[1..][i - 1] == acl[i];
      LaterEntriesIgnored(principals, requested, acl[1..], rest);
      assert (acl + rest)[1..] == acl[1..] + rest;
    }
  }

  /** Entries that do not match are skipped: the decision is the rest's. */
  lemma {:induction false} UnmatchedPrefixSkipped(principals: set<Principal>, requested: Permission, prefix: Acl, rest: Acl)
    requires forall j :: 0 <= j < |prefix| ==> !Matches(prefix[j], principals, requested)
    ensures Decide(principals, requested, prefix + rest) == Decide(principals, requested, rest)
  {
    if prefix != [] {
      assert (prefix + rest)[0] == prefix[0];
      assert (prefix + rest)[1..] == prefix[1..] + rest;
      assert forall j :: 0 <= j < |prefix| - 1 ==> prefix[1..][j] == prefix[j + 1];
      UnmatchedPrefixSkipped(principals, requested, prefix[1..], rest);
    } else {
      assert prefix + rest == rest;
    }
  }

  /** A Deny for a principal the user holds, placed before an Allow, denies. */
  lemma DenyBeforeAllowDenies(user: User, name: string, denied: Principal, allowed: Principal, rest: Acl)
    requires denied in NormalizePrincipals(user)
    ensures !Decide(NormalizePrincipals(user), Name(name),
                    [Entry(Deny, denied, Single(Name(name))), Entry(Allow, allowed, Single(Name(name)))] + rest)
  {

  }

  /** An administrator is still denied "view" when a Deny for Everyone comes first. */
  lemma OrderSensitivityExample()
    ensures !Decide(NormalizePrincipals(User(Some(Given(["role:admin"])))), Name("view"),
                    [Entry(Deny, Everyone, Single(Name("view"))), Entry(Allow, "role:admin", Single(Name("view")))])
  {

  }

  /**
   * An editor allowed "view" and "edit" before a blanket Deny of "edit" to
   * Everyone keeps both.
   */
  lemma EditorScenario()
    ensures var acl := [Entry(Allow, "role:editor", Collection({Name("view"), Name("edit")})),
                        Entry(Deny, Everyone, Single(Name("edit")))];
            var editor := NormalizePrincipals(User(Some(Given(["role:editor"]))));
            Decide(editor, Name("view"), acl) && Decide(editor, Name("edit"), acl)
  {

  }

  // ---------------------------------------------------------------------
  // Implicit deny

  /** A resource with no `__acl__` that is not a non-string iterable denies everything. */
  lemma OpaqueResourceDeniesEverything(user: User, requested: Permission, resource: Resource)
    requires resource.acl.None? && !IsLikeList(resource.shape)
    ensures NormalizeAcl(resource) == []
    ensures !Decide(NormalizePrincipals(user), requested, NormalizeAcl(resource))
  {
  }

  /** A string resource is not taken as an ACL. */
  lemma TextResourceHasEmptyAcl(text: string)
    ensures NormalizeAcl(Resource(None, Text(text))) == []
  {
  }

  /** A plain list of entries passed as the resource is used as the ACL. */
  lemma ShorthandListResource(user: User)
    ensures Decide(NormalizePrincipals(user), Name("view"),
                   NormalizeAcl(AclResource([Entry(Allow, Everyone, Single(Name("view")))])))
  {

  }

  /** An `__acl__` attribute takes priority, even over an iterable resource. */
  lemma AclAttributeWins(attribute: Attribute<Acl>, shape: Shape)
    ensures NormalizeAcl(Resource(Some(attribute), shape)) == Evaluate(attribute)
  {
  }

  // ---------------------------------------------------------------------
  // Matching permissions

  /** A string permission field matches only that exact name. */
  lemma SingleNameMatchesExactly(name: string, requested: Permission)
    ensures Contains(Single(Name(name)), requested) <==> requested == Name(name)
  {
  }

  /** "view" in an entry does not grant "vie". */
  lemma NoSubstringMatch(principals: set<Principal>)
    ensures !Decide(principals, Name("vie"), [Entry(Allow, Everyone, Single(Name("view")))])
  {

  }

  /** ALOW_ALL as the first entry grants any permission to any user. */
  lemma AllowAllFirstGrants(user: User, requested: Permission, rest: Acl)
    ensures Decide(NormalizePrincipals(user), requested, [AllowAll] + rest)
  {

  }

  /** DENY_ALL as the first entry denies any permission to any user. */
  lemma DenyAllFirstDenies(user: User, requested: Permission, rest: Acl)
    ensures !Decide(NormalizePrincipals(user), requested, [DenyAll] + rest)
  {

  }

  // ---------------------------------------------------------------------
  // Listing

  /**
   * Each listed name carries what `has_permission(user, name, acl)` returns
   * on the normalized ACL passed back in as the resource.
   */
  lemma ListingAgreesWithCheck(user: User, resource: Resource, name: string)
    requires Name(name) in AvailablePermissions(NormalizeAcl(resource))
    ensures name in ListPermissions(user, resource)
    ensures ListPermissions(user, resource)[name] ==
            Decide(NormalizePrincipals(user), Name(name), NormalizeAcl(AclResource(NormalizeAcl(resource))))
  {

  }

  /**
   * A name that no entry mentions is not a key of the listing. The one
   * exception is "permissions:*", which is a key whenever All occurs.
   */
  lemma UnmentionedNameAbsent(user: User, resource: Resource, name: string)
    requires name != AllPermissionsText || All !in AvailablePermissions(NormalizeAcl(resource))
    requires forall i :: 0 <= i < |NormalizeAcl(resource)| ==>
               Name(name) !in Expand(NormalizeAcl(resource)[i].permissions)
    ensures name !in ListPermissions(user, resource)
  {
  }

  /**
   * An ACL holding only ALOW_ALL lists the single key "permissions:*",
   * granted, rather than every permission the application knows.
   */
  lemma AllowAllListsOneKey(user: User)
    ensures ListPermissions(user, AclResource([AllowAll])) == map[AllPermissionsText := true]
  {

  }
}
