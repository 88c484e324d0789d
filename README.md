# fastapi-permissions: the access-control decision core in Dafny

This project models the row-level permission core of `fastapi_permissions`.
A resource carries an access-control list (ACL): an ordered list of
`(action, principal, permissions)` entries. A user holds a set of principals
(identity tags). A request for a permission on a resource is decided by the
first ACL entry whose permissions contain the request and whose principal the
user holds. If no entry matches, the request is denied.

The Python code finds out what users, resources and permission fields are by
reflection. The model makes each shape an explicit datatype variant:

- `Permission = Name(name) | All`: a permission name, or the `All` sentinel
  object, which contains every permission and prints as `permissions:*`.
- `PermissionField = Single(permission) | Collection(members)`: a string or
  `All` (both used as one value), or a list, tuple or set of permissions.
- `Attribute<T> = Given(value) | Computed(produce)`: an attribute that is a
  value, or a zero-argument callable that is called on every read.
- `User(principals)`: an optional `principals` attribute.
- `Resource(acl, shape)`: an optional `__acl__` attribute, plus what the
  object is otherwise: a string, another iterable (taken as the ACL itself),
  or neither.

Files:

- `permissions.dfy` (module `Permissions`): the constants (`Everyone`,
  `Authenticated`, `DenyAll`, `AllowAll`), principal and ACL normalization,
  the decision (`Decide`, the specification, and `HasPermission`, the loop
  with early return that the source runs), the listing, and the per-request
  authorization step.
- `properties.dfy` (module `PermissionProperties`): lemmas for first match
  wins, implicit deny, the `All` shorthands, exact matching of string
  permissions, and the agreement between the listing and the single check.

`HasPermission`'s result is fixed by a function of its inputs. So repeated
checks on unchanged inputs give the same answer.

## Model

| member | source | states |
|---|---|---|
| `Permissions.NormalizePrincipals` | fastapi_permissions/__init__.py:192-207 | Everyone is always held. Authenticated is held iff the user's own principals are non-empty. An anonymous user holds exactly {Everyone}. Every own principal is kept, and nothing else is added. |
| `Permissions.NormalizeAcl` | fastapi_permissions/__init__.py:210-224 | Shapes are tried in priority order. An `__acl__` value, or the result of calling it, comes first. Then a non-string iterable resource is used as the ACL. Otherwise the ACL is `[]`. The chosen sequence is returned unchanged. |
| `Permissions.IsLikeList` | fastapi_permissions/__init__.py:227-231 | A string is never like a list. Exactly the other iterables are. |
| `Permissions.Expand` | fastapi_permissions/__init__.py:181 | A string or `All` is not like a list and expands to itself alone. A collection expands to its members. |
| `Permissions.Matches` | fastapi_permissions/__init__.py:161-164 | An entry matches iff the user holds its principal and its permissions contain the request. An entry for `All` matches whenever its principal is held. |
| `Permissions.Contains` | fastapi_permissions/__init__.py:161-163 | The `All` sentinel contains every permission (its `__contains__` at lines 57-59). Any other field contains exactly the permissions that `list_permissions` expands it into, so a string field contains only that string. |
| `Permissions.Decide` | fastapi_permissions/__init__.py:160-166 | If entry i is the first matching entry, the result is true iff its action is Allow. If no entry matches, the result is false. |
| `Permissions.HasPermission` | fastapi_permissions/__init__.py:146-166 | The in-order scan with early return gives the first-match decision `Decide` on the normalized principals and the normalized ACL. |
| `Permissions.AvailablePermissions` | fastapi_permissions/__init__.py:180-182 | A permission is available iff some entry's field expands to it. A string or `All` expands to itself; a collection expands to its members. |
| `Permissions.Display` | fastapi_permissions/__init__.py:61-63 | `str()` of a name is the name itself. Exactly two permissions print as `permissions:*`: the `All` sentinel and the literal name "permissions:*". |
| `Permissions.Shown` | fastapi_permissions/__init__.py:184-186 | For a key that some available permission prints as, the chosen permission is available and prints as that key. The literal name is chosen whenever it is available. |
| `Permissions.Listing` | fastapi_permissions/__init__.py:184-186 | The keys are exactly the printed forms of the available permissions. Each available name maps to the decision for that name. When only `All` prints as `permissions:*`, that key maps to the decision for `All`. |
| `Permissions.ListPermissions` | fastapi_permissions/__init__.py:169-186 | A key is present iff some entry of the resource's ACL holds a permission that prints as that key. Each available name maps to whether the user holds it on the resource. When only `All` prints as `permissions:*`, that key maps to the decision for `All`. |
| `Permissions.Authorize` | fastapi_permissions/__init__.py:138-141 | The result is a Grant iff the decision allows. The Grant pairs the same user and resource. |
| `Permissions.NormalizeAclOfList` | fastapi_permissions/__init__.py:222-223 | A plain list of entries, passed as the resource, normalizes to itself. |
| `PermissionProperties.AnonymousHoldsOnlyEveryone` | fastapi_permissions/__init__.py:202-206 | A user whose principals attribute is missing, empty, or produces an empty collection normalizes to {Everyone}. |
| `PermissionProperties.AdminPrincipals` | fastapi_permissions/__init__.py:205-207 | The principals ["role:admin"] normalize to {Everyone, Authenticated, "role:admin"}. |
| `PermissionProperties.FirstMatchDecides` | fastapi_permissions/__init__.py:160-165 | If no earlier entry matches, a matching entry decides by its action, whatever entries follow it. |
| `PermissionProperties.LaterEntriesIgnored` | fastapi_permissions/__init__.py:163-165 | Once some entry matches, appending entries to the ACL does not change the decision. |
| `PermissionProperties.UnmatchedPrefixSkipped` | fastapi_permissions/__init__.py:160-166 | Entries that do not match are skipped: the decision is that of the entries after them. |
| `PermissionProperties.DenyBeforeAllowDenies` | fastapi_permissions/__init__.py:160-165 | A Deny for a principal the user holds, before an Allow for the same permission, denies. |
| `PermissionProperties.OrderSensitivityExample` | fastapi_permissions/__init__.py:160-165 | An admin is denied "view" when `(Deny, Everyone, "view")` comes before `(Allow, "role:admin", "view")`. |
| `PermissionProperties.EditorScenario` | fastapi_permissions/__init__.py:160-165 | An editor allowed {"view", "edit"} before a Deny of "edit" to Everyone is granted both. |
| `PermissionProperties.OpaqueResourceDeniesEverything` | fastapi_permissions/__init__.py:222-224 | A resource with no `__acl__` that is not a non-string iterable has the empty ACL, so every permission is denied. |
| `PermissionProperties.TextResourceHasEmptyAcl` | fastapi_permissions/__init__.py:227-231 | A string resource is not like a list, so its ACL is empty. |
| `PermissionProperties.ShorthandListResource` | fastapi_permissions/__init__.py:222-223 | The list `[(Allow, Everyone, "view")]` passed as the resource grants "view" to any user. |
| `PermissionProperties.AclAttributeWins` | fastapi_permissions/__init__.py:217-221 | An `__acl__` attribute is used even when the resource is itself iterable. |
| `PermissionProperties.SingleNameMatchesExactly` | fastapi_permissions/__init__.py:161-163 | A string permission field contains a request iff the request is exactly that name. |
| `PermissionProperties.NoSubstringMatch` | fastapi_permissions/__init__.py:161-163 | An entry for "view" does not grant "vie", whatever principals the user holds. |
| `PermissionProperties.AllowAllFirstGrants` | fastapi_permissions/__init__.py:70 | `ALOW_ALL` (the constant `AllowAll`, `(Allow, Everyone, All)`) as the first entry grants any permission to any user. |
| `PermissionProperties.DenyAllFirstDenies` | fastapi_permissions/__init__.py:69 | `DENY_ALL` (the constant `DenyAll`, `(Deny, Everyone, All)`) as the first entry denies any permission to any user. |
| `PermissionProperties.ListingAgreesWithCheck` | fastapi_permissions/__init__.py:184-186 | Each listed name maps to what `has_permission(user, name, acl)` returns, with the normalized ACL passed back in as the resource. |
| `PermissionProperties.UnmentionedNameAbsent` | fastapi_permissions/__init__.py:180-186 | A name that no entry mentions is not a key of the listing. The exception is "permissions:*", which is a key whenever `All` occurs in the ACL. |
| `PermissionProperties.AllowAllListsOneKey` | fastapi_permissions/__init__.py:61-63 | An ACL holding only `ALOW_ALL` lists exactly {"permissions:*": true}, not every permission the application knows. |

## Left out

- `configure_permissions` and the FastAPI dependency wiring (`Depends`, `functools.partial`, the configurable grant class and exception): framework glue. `Authorize` keeps only the decision the generated dependency makes.
- The default HTTP 403 exception, its detail text and its `WWW-Authenticate` header: library objects. The model returns `PermissionDenied` instead of raising.
- Resolving the current user and resource (possibly asynchronously) is external. The model takes both as already resolved values.
- Reflection on arbitrary Python objects (`getattr`, `callable`, `hasattr(__iter__)`, equality and hashing of arbitrary objects) is replaced by datatype variants. Principals and permission names are strings.
- Action values other than "Allow" and "Deny": in Python any other action string denies when its entry matches. The model has only Allow and Deny.
- A `principals` value that is a non-empty string is iterated character by character by the set union. The model takes principals as a list of strings.
- A callable `principals` or `__acl__` that returns None or a non-list: the model's producers always return a list.
- ACL items that are not `(action, principal, permissions)` triples, which make Python raise while unpacking.
- `__acl__` producers that return a one-shot iterator (a generator). `list_permissions` would exhaust it before `has_permission` reads it again. The model treats every ACL as a re-readable list.
- ListPermissions: when an ACL mentions both the `All` sentinel and the literal name "permissions:*", both print as the same key. Python's set iteration order then decides which verdict the key gets. The model and `Listing`'s contract both give the key the literal name's verdict, so they fix one of the two values Python may return.
