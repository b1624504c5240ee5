# Prijzencheck maintenance core, modelled in Dafny

Prijzencheck is a React Router web application. Shop staff use it to look up product prices, and administrators use it to maintain users and roles. This project models the parts of it that make decisions:

- **Authentication and permission gates** (`requireAuth`, `requirePermission`, `requirePermissions`). They grant the session user or produce the redirect the loader throws.
- **The login session** as a key-value map: login writes four keys, later requests read them back, and logout destroys the session.
- **The product cache.** The server keeps three module-level variables: a shared timestamp, a cached count and a cached product list. The model keeps them in a class and decides when to fetch again.
- **The role and user services.**
  - Form validation, blank-to-null defaults and comma-separated permission parsing.
  - Hand-built JSON Patch bodies (section 4.3 of RFC 6902, `replace`), which end every operation with a comma. They are rendered as the exact text the code produces, and a decoder proves what that text contains.
  - The mapping from backend answers to `{code, message, fields}`.
- **The route loaders and actions** for user details, new user, role details, new role and the two delete routes, and the maintenance layout's menu filter.
- **The client-side state of the pages and components:**
  - the per-field feedback list;
  - the duplicate-free pick lists of roles and permissions;
  - the in-place sort of the selected permissions on the role page;
  - the users and roles tables: search filter, permission preview, confirmation modal;
  - the product lookup card;
  - the navigation bar's menus and theme toggle.

Everything that crosses the network is an input value: a `Response<T>` (OK body, HTTP error with its JSON payload, or thrown exception), a `ServiceResult`, or a map standing for the backend's table (users by id, roles by id, statistics by username). So are the clock (`now`) and `validator.isEmail`'s verdict. React state that handlers update in place becomes a class with `modifies` clauses. The rendering-time sort stays an in-place sort on an `array`. Pure derivations are functions.

Module layout: one module per source file:
- `Auth`, `Session`, `ProductService`, `RolesService`, `UserService`;
- `Root`, `MaintenanceLayout`;
- `UserDetails`, `NewUser`, `RoleDetails`, `NewRole`, `DeleteUser`, `DeleteRole`;
- `UsersTable`, `RolesTable`, `LookupCard`, `NavBar`.

Shared modules:
- `Types`: the records of `app/components/Types.tsx`, the backend outcomes and `ActionData`;
- `Strings`: `trim`, `split`, `join`, `includes`, an ASCII `toLowerCase`;
- `Seqs`: `filter` and order-preserving sub-lists;
- `JsonPatch`, `Url`;
- `Feedback`: the feedback list shared by four route pages;
- `Selection`: the pick lists;
- `Sorting`;
- `Wrappers`.

## Model

| member | source | states |
|---|---|---|
| Auth.RequireAuth | app/services/auth.server.ts:13-27 | a session user is returned unchanged; without one, any path but `/login` is redirected to the login URL remembering the explicit target or the path; on `/login` itself no user is returned and nothing is thrown |
| Auth.LoginRedirect | app/services/auth.server.ts:17-22 | the redirect is `/login?redirectTo=` followed by the URL-encoded target, and the encoded value holds none of `& = # ? /`, so it cannot add a parameter or change the path |
| Auth.RequirePermission | app/services/auth.server.ts:36-59 | granted exactly when there is a session user whose fetched permissions include the required name, and then the user is returned; otherwise it redirects to the login URL, or to `redirectTo` or `/login` (on the login page), or to `redirectTo` or `/` (for a logged-in user lacking the permission) |
| Auth.RequirePermissions | app/services/auth.server.ts:68-90 | granted exactly when there is a session user and every required name is among the fetched permissions; a logged-in user lacking one is redirected to `redirectTo` or `/` |
| Auth.NoRequirementsGrantsLoggedIn | app/services/auth.server.ts:81-84 | an empty requirement list lets every logged-in user through |
| Auth.SingleRequirementAgrees | app/services/auth.server.ts:49-51 | requiring `[p]` decides exactly as requiring `p`, redirects included |
| Auth.GrantedHasUser | app/services/auth.server.ts:43-45 | a granted gate always has a session user, so the loaders' later `if (!user)` checks never fire |
| Url.FormEncode | app/services/auth.server.ts:18-19 | the `URLSearchParams` serialization of a value uses only `%`, `+` and unreserved characters |
| Url.FormEncodeUnreserved | app/services/auth.server.ts:18-19 | a value made only of unreserved characters is serialized unchanged |
| Url.SerializedValueIsInert | app/services/auth.server.ts:18-22 | no serialized value contains a query or path delimiter |
| Session.WithUser | app/services/session.server.ts:77-80 | login writes exactly the keys userId, userUsername, userName, userEmail from the user and leaves every other key as it was |
| Session.SessionStore.constructor | app/services/session.server.ts:76 | the session object starts with the data the cookie held |
| Session.CreateUserSession | app/services/session.server.ts:65-97 | the session map becomes the map with the user's four keys written; the redirect goes to `redirectUrl` or `/`, with a committed cookie of the remember-me lifetime |
| Session.SessionStore.Set | app/services/session.server.ts:77-80 | `session.set` updates exactly that key |
| Session.CookieMaxAge | app/services/session.server.ts:93 | 604800 seconds with remember-me, 3600 without |
| Session.GetUserId | app/services/session.server.ts:42-46 | an id exactly when the session holds userId, and then the stored value |
| Session.GetUserFromSession | app/services/session.server.ts:48-63 | no user unless a non-empty id is stored; otherwise the id and the stored username, name and email |
| Session.Logout | app/services/session.server.ts:27-40 | logout always redirects to `/login` and destroys the session |
| Session.LoginRoundTrip | app/services/session.server.ts:55-60 | after a login the session reads back the user's id, username, name and email, whatever it held before; roles and permissions are not stored |
| Session.EmptyIdIsNoUser | app/services/session.server.ts:52-53 | a login with an empty id yields no user on the next request |
| ProductService.CountStep | app/services/productService.server.ts:14-44 | `getProductCount` fetches exactly when no count is cached or the shared timestamp is more than an hour old. A hit changes nothing and serves the cached count. A successful fetch stores the new count and `now` and keeps the product list. A failed fetch changes nothing and serves the cached count or -1 |
| ProductService.ProductsStep | app/services/productService.server.ts:51-74 | the same rules for the product list, serving `[]` when nothing is cached; a cached empty list counts as cached |
| ProductService.ProductCache.constructor | app/services/productService.server.ts:5-7 | the server starts with no cached count, no cached list and a zero timestamp |
| ProductService.ProductCache.GetProductCount | app/services/productService.server.ts:14-44 | the value served, whether a fetch happened, and the new cache variables are those of `CountStep` applied to the old ones |
| ProductService.ProductCache.GetProducts | app/services/productService.server.ts:51-74 | the same for `ProductsStep` |
| ProductService.CountFreshAtLimit | app/services/productService.server.ts:4-20 | exactly one hour after the last fetch the cached count is still served, with no fetch |
| ProductService.CountExpiresAfterLimit | app/services/productService.server.ts:4-20 | one millisecond later it is fetched again |
| ProductService.ProductsRefreshKeepsCountFresh | app/services/productService.server.ts:63-65 | refreshing the product list at t keeps a cached count fresh until t + one hour, because the timestamp is shared |
| ProductService.CountRefreshKeepsProductsFresh | app/services/productService.server.ts:33-35 | refreshing the count at t keeps a cached product list fresh until t + one hour |
| ProductService.CallsWithinWindowAreHits | app/services/productService.server.ts:17-43 | any run of calls within the hour after the last fetch makes no fetch, leaves the cache unchanged and serves the cached count every time |
| ProductService.NoFallbackAfterFetch | app/services/productService.server.ts:24-40 | once a real count is cached, no later call answers -1 unless the backend itself sent -1 |
| ProductService.StatisticsHeader | app/services/productService.server.ts:91 | the `statistics` header is `prijzencheck,` followed by the username, or nothing |
| ProductService.HeaderSplitsIntoAppAndUser | app/services/productService.server.ts:91 | for a username without a comma the header splits into exactly the application name and the username |
| ProductService.ProductResult | app/services/productService.server.ts:82-107 | `getProduct` yields the product exactly on an OK response, null otherwise |
| RolesService.Description | app/services/rolesService.server.ts:107-109 | a missing or whitespace-only description is sent as null, any other one as it is |
| RolesService.ParsePermissions | app/services/rolesService.server.ts:111-117 | a blank or missing value gives no names; otherwise one trimmed name per comma-separated piece, in order, so n commas give n + 1 names |
| RolesService.JoinParseRoundTrip | app/routes/maintenance/roles/newRole.tsx:285-289 | the names a pick list joins with commas parse back to the same list, the empty list included, when no name is empty or holds a comma or edge whitespace |
| RolesService.CreateRoleJsonTrimsName | app/services/rolesService.server.ts:125-129 | the create body does not depend on the name's edge whitespace, and the name the backend reads from it is the trimmed name, with no edge whitespace |
| RolesService.CreateRoleJsonDecodes | app/services/rolesService.server.ts:125-129 | round trip of the create body, whatever characters its strings hold: the backend reads back the trimmed name, the description or null, and the permission names in order |
| RolesService.CreateRoleRequestContents | app/services/rolesService.server.ts:95-129 | for any form with a name, createRole sends a request from which the backend reads the trimmed, non-empty name, the description with blank turned to null, and one name per comma-separated piece, trimmed |
| RolesService.FailureResult | app/services/rolesService.server.ts:132-147 | an error body with status 409 becomes 409 "Role with this name already exists" on field name; any other error keeps the HTTP status with the body's message or the default, and its fields or an empty list |
| RolesService.MapResponse | app/services/rolesService.server.ts:132-154 | OK gives the success result, a thrown exception gives 500 "Internal server error", an HTTP error is mapped as above |
| RolesService.CreateRole | app/services/rolesService.server.ts:95-155 | a missing or blank name gives 400 "Role name is required" on field name and no request; otherwise the request is the create body of the trimmed name, the defaulted description and the parsed names (what the backend reads from it is RolesService.CreateRoleRequestContents), and a success is 201 |
| RolesService.UpdateRole | app/services/rolesService.server.ts:157-228 | the same validation; the patch holds the untrimmed name, then the description (a string or null), then the permissions only when there are any; success is 200 |
| RolesService.UpdateRolePatchContents | app/services/rolesService.server.ts:182-193 | when the name and description hold nothing to escape (they are interpolated as they are) the patch text decodes to exactly the name, description and permission operations in that order; the permission names may hold anything |
| RolesService.DeleteRole | app/services/rolesService.server.ts:66-93 | success is 204; an HTTP error keeps its status with the body's message or "Failed to delete role"; an exception is 500 |
| RolesService.MissingNameSendsNothing | app/services/rolesService.server.ts:103-105 | with a missing or blank name both calls answer the same error, whatever the backend would have said |
| JsonPatch.Render | app/services/rolesService.server.ts:182-193 | the patch text starts with `[` and ends with `]`, is `[]` exactly for no operations, and otherwise starts with `[{` and ends with `},]` |
| JsonPatch.JsonQuote | app/services/rolesService.server.ts:189-191 | `JSON.stringify` of a string is quoted, contains no raw control character, and a JSON reader reads it back as the string |
| JsonPatch.ReadJsonQuotedOf | app/services/rolesService.server.ts:189-191 | round trip for every string: `JSON.stringify` of it, followed by anything, reads back as the string and leaves what follows |
| JsonPatch.JsonQuoteSafe | app/services/rolesService.server.ts:189-191 | a string with nothing to escape is only put between quotes |
| JsonPatch.NameListJson | app/services/rolesService.server.ts:189-191 | the permission list is a JSON array, `[]` exactly for no names |
| JsonPatch.DecodeRender | app/services/userService.server.ts:26-37 | round trip: the text built from safe operations decodes to the same operations in order, trailing commas notwithstanding |
| UserService.SettingsOps | app/services/userService.server.ts:26-37 | the patch is an ordered sub-list of displayName, email and profileImage replaces; each is present exactly when its field is non-empty, or when an image is present |
| UserService.UpdateUserSettings | app/services/userService.server.ts:5-59 | a non-empty new e-mail differing from its confirmation gives 400 "New email and confirmation do not match." and no request; otherwise the request is the rendered patch |
| UserService.MapResponse | app/services/userService.server.ts:48-58 | OK gives 204; an HTTP error keeps its status and status text; an exception gives 500 with the error text |
| UserService.EmptyEmailSkipsCheck | app/services/userService.server.ts:14 | an empty or missing new e-mail is never checked against the confirmation |
| UserService.NothingToChange | app/services/userService.server.ts:26-37 | with nothing filled in the patch is exactly `[]` |
| UserService.SettingsPatchDecodes | app/services/userService.server.ts:26-37 | for safe values the patch decodes to exactly the chosen replaces, in order |
| UserService.EmptyFileReplacesImage | app/services/userService.server.ts:34-36 | an empty file input still adds a profileImage replace with an empty name |
| UserService.IntendedSettingsOps | app/routes/maintenance/users/userDetails.tsx:71-76 | with the test the page itself applies, an image replace is sent exactly for a non-empty file |
| UserService.IntendedAgreesWithoutEmptyFile | app/services/userService.server.ts:34-36 | without an empty file the intended patch is the one sent |
| Root.ClassNames | app/root.tsx:23-27 | the truthy arguments joined by spaces: the result holds nothing but spaces and characters of truthy arguments |
| Root.ClassNamesIgnoresFalsy | app/root.tsx:23-27 | falsy arguments contribute nothing |
| Root.AllFalsyIsEmpty | app/root.tsx:23-27 | only falsy arguments give `""` |
| Root.SingleString | app/root.tsx:23-27 | a single string is returned as it is |
| Root.SplitRecoversKept | app/root.tsx:23-27 | the kept class names survive in order, separated by exactly one space |
| Root.PageTitle | app/root.tsx:74-79 | the title is the last match's data title, else its handle title, else "Failed to retrieve page title" |
| Root.PageTitleOfLastMatch | app/root.tsx:74-79 | only the last match decides the title, and there always is one |
| Root.ErrorBoundary | app/root.tsx:122-153 | a 404 route error shows "404" and "The requested page could not be found."; another route error shows "Error" and its status text or the default; script errors show their message and stack only in development |
| Root.ProductionViewHasDetails | app/root.tsx:122-137 | in production the boundary never shows an empty explanation or a stack trace |
| MaintenanceLayout.Visible | app/routes/layouts/maintenance.tsx:53-61 | the menu is an order-preserving sub-list of the items; an item is kept exactly when it needs no permission or the refreshed list holds its permission |
| MaintenanceLayout.NoPermissionsNoNavigation | app/routes/layouts/maintenance.tsx:26-59 | without a permission list every fixed item is dropped |
| MaintenanceLayout.UnprotectedItemShown | app/routes/layouts/maintenance.tsx:55 | an item without a permission is always shown |
| MaintenanceLayout.FullPermissionsFullMenu | app/routes/layouts/maintenance.tsx:26-59 | holding all four permissions shows Statistics, Products, Users, Roles in that order |
| MaintenanceLayout.Loader | app/routes/layouts/maintenance.tsx:18-64 | the menu is served exactly when the maintenance permission gate grants, otherwise the gate's redirect |
| Feedback.FeedbackList.Validate | app/routes/maintenance/users/newUser.tsx:100-113 | the list becomes the old one without the field's entries, plus the error when the value is invalid |
| Feedback.FeedbackList.constructor | app/routes/maintenance/users/newUser.tsx:81-88 | the page starts with no feedback |
| Feedback.FeedbackList.ValidateEmail | app/routes/maintenance/users/userDetails.tsx:154-172 | the same, invalid meaning non-empty and not an e-mail, with "Invalid email format." |
| Feedback.FeedbackList.ValidatePassword | app/routes/maintenance/users/newUser.tsx:116-139 | the same, invalid meaning too short, with "Password must be at least 4 characters." |
| Feedback.FeedbackList.ShowActionResult | app/routes/maintenance/users/userDetails.tsx:174-190 | after a result with a truthy code the list is exactly that result; otherwise it is empty |
| Feedback.ValidatedForTarget | app/routes/maintenance/users/newUser.tsx:100-113 | after validating a field it has exactly one entry, the error, when invalid and none otherwise |
| Feedback.ValidatedKeepsOthers | app/routes/maintenance/users/newUser.tsx:122-138 | entries about other fields keep their contents and order |
| Feedback.ShownMessage | app/routes/maintenance/users/userDetails.tsx:304-312 | the message under a field is that of the first entry whose fields include it, and nothing when no entry does |
| Feedback.ValidationMessageShown | app/routes/maintenance/users/userDetails.tsx:304-312 | the message under the field is the error exactly when the value was invalid |
| Feedback.Utf16Length | app/routes/maintenance/users/newUser.tsx:122 | `length` counts UTF-16 code units: between one and two per character, one each below U+10000 |
| Feedback.PasswordTooShortIff | app/routes/maintenance/users/newUser.tsx:122 | a password is flagged exactly when it is not blank and shorter than four code units, so four characters always pass |
| Feedback.ResultMessage | app/routes/maintenance/users/userDetails.tsx:362-375 | the result line appears exactly when some entry without fields carries the form's action name, and then shows the message of the first entry without fields |
| Feedback.ActionResultShown | app/routes/maintenance/users/userDetails.tsx:362-375 | after a result without field errors its message is shown exactly when it carries the form's action name |
| Selection.Added | app/routes/maintenance/users/newUser.tsx:418-424 | a non-empty, not yet chosen name is appended, anything else changes nothing, and a list without duplicates or empty names stays so |
| Selection.Removed | app/routes/maintenance/users/newUser.tsx:386-389 | the name is gone, every other name stays, the order is kept and the list stays well formed |
| Selection.Offered | app/routes/maintenance/users/newUser.tsx:427-431 | the dropdown offers exactly the existing entries whose names are not chosen, in their original order |
| Selection.PickList.Add | app/routes/maintenance/roles/newRole.tsx:220-232 | the state becomes `Added` of the old state |
| Selection.PickList.constructor | app/routes/maintenance/roles/newRole.tsx:73 | the page starts with nothing chosen |
| Selection.PickList.Remove | app/routes/maintenance/roles/newRole.tsx:185-188 | the state becomes `Removed` of the old state |
| Selection.RemoveUndoesAdd | app/routes/maintenance/users/newUser.tsx:386-424 | removing a name just added restores the list |
| Selection.AddOffered | app/routes/maintenance/users/newUser.tsx:418-431 | choosing an offered entry appends exactly its name and it is no longer offered |
| Selection.SubmittedSplitsBack | app/routes/maintenance/users/newUser.tsx:475 | the joined hidden value splits back into the chosen names; it is empty exactly for no names |
| Selection.PicksKeepWellFormed | app/routes/maintenance/users/newUser.tsx:386-424 | whatever is picked and removed, the list never has a duplicate or an empty name |
| Sorting.SortedSeq | app/routes/maintenance/roles/roleDetails.tsx:210-211 | the sorted order of the names: sorted, and the same names with the same multiplicities |
| Sorting.Sort | app/routes/maintenance/roles/roleDetails.tsx:210-211 | sorting in place leaves the array sorted, a permutation of the old contents, and equal to the unique sorted order |
| Sorting.SortedUnique | app/routes/maintenance/roles/roleDetails.tsx:210-211 | two sorted arrangements of the same names are equal |
| UserDetails.Loader | app/routes/maintenance/users/userDetails.tsx:29-50 | the permission gate, then a thrown 404 "User not found" and a thrown 404 "Statistics not found"; when both are found the page gets exactly that user and their statistics |
| UserDetails.UserId | app/routes/maintenance/users/userDetails.tsx:56 | the id the action works on is the path's last segment and never holds a slash |
| UserDetails.LoaderNeedsPermission | app/routes/maintenance/users/userDetails.tsx:30-33 | the page is served only to a logged-in user holding the users permission |
| UserDetails.UserIdOfPath | app/routes/maintenance/users/userDetails.tsx:56-59 | the action works on the last path segment; a trailing slash leaves it without one |
| UserDetails.Action | app/routes/maintenance/users/userDetails.tsx:52-111 | the guard chain: 400 "User ID is required.", 404 "User not found.", then "updateUserSettings" (400 "No changes detected." for an unchanged form, otherwise the service's answer tagged), "updateUserPassword" (the service's answer tagged), or 400 "Invalid action." echoing the action |
| UserDetails.GuardsCallNoService | app/routes/maintenance/users/userDetails.tsx:56-83 | every guard answers before any service call, whatever the services would say |
| UserDetails.NewEmailIsSent | app/routes/maintenance/users/userDetails.tsx:71-92 | a new, confirmed e-mail always reaches the service, and its patch holds the e-mail replace |
| NewUser.Loader | app/routes/maintenance/users/newUser.tsx:36-44 | the roles are served exactly when the create permission gate grants |
| NewUser.Action | app/routes/maintenance/users/newUser.tsx:46-65 | "createUser" with 201 redirects to the users list; any other result keeps its code, message and fields, tagged "updateUserSettings"; another action gives 400 "Invalid action." |
| Types.Tagged | app/routes/maintenance/users/userDetails.tsx:88-91 | an action's answer carries the service result's code, message and fields and the action's name |
| NewUser.FailedCreateIsNotShown | app/routes/maintenance/users/newUser.tsx:56-61 | a failed create without field errors never reaches the result line |
| NewUser.IntendedAction | app/routes/maintenance/users/newUser.tsx:46-65 | the redirect on 201; a failed creation handed back with its code, message and fields under "createUser"; another `_action` refused with 400; in every case the outcome of the action as written with only the name changed |
| NewUser.IntendedFailedCreateIsShown | app/routes/maintenance/users/newUser.tsx:459-470 | with that tag, every failed create without field errors shows its message |
| NewUser.OfferedRoles | app/routes/maintenance/users/newUser.tsx:427-431 | the dropdown offers exactly the roles not yet chosen, in the loader's order |
| RoleDetails.Loader | app/routes/maintenance/roles/roleDetails.tsx:27-40 | the page is served exactly when the roles gate grants; an unknown role is handed over as null; the 401 is never thrown |
| RoleDetails.RoleId | app/routes/maintenance/roles/roleDetails.tsx:45 | the id the action works on is the path's last segment and never holds a slash |
| RoleDetails.StoredPermissions | app/routes/maintenance/roles/roleDetails.tsx:62 | the stored names joined with commas in stored order, absent without a list |
| RoleDetails.Action | app/routes/maintenance/roles/roleDetails.tsx:42-82 | 400 "Role ID is required.", 404 "Role not found.", 400 "No changes detected." for an unchanged form, the update's answer, or 400 "Invalid action.", always tagged "updateRole" |
| RoleDetails.AcceptedUpdateIsGreen | app/routes/maintenance/roles/roleDetails.tsx:71-78 | a named, changed role the backend accepts is answered 200 and the result line is green |
| RoleDetails.InitialPermissions | app/routes/maintenance/roles/roleDetails.tsx:126-130 | the selection starts as the role's permission names when it has any, empty otherwise |
| RoleDetails.OfferedNames | app/routes/maintenance/roles/roleDetails.tsx:270-279 | the dropdown lists exactly the existing permissions not chosen, sorted by name, each as often as it is offered (a permutation of the offered names) |
| RoleDetails.PermissionEditor.constructor | app/routes/maintenance/roles/roleDetails.tsx:126-130 | the state array holds the initial permissions |
| RoleDetails.PermissionEditor.Add | app/routes/maintenance/roles/roleDetails.tsx:255-266 | the state becomes `Added` of the old state |
| RoleDetails.PermissionEditor.Remove | app/routes/maintenance/roles/roleDetails.tsx:220-223 | the state becomes `Removed` of the old state |
| RoleDetails.PermissionEditor.Render | app/routes/maintenance/roles/roleDetails.tsx:209-211 | rendering sorts the state array in place into the sorted order of its old contents, and the hidden field is the sorted names joined |
| RoleDetails.UnsortedRoleIsNeverUnchanged | app/routes/maintenance/roles/roleDetails.tsx:58-63 | a role stored out of order is never recognised as unchanged when its form is submitted untouched |
| RoleDetails.IntendedDetectsUntouchedForm | app/routes/maintenance/roles/roleDetails.tsx:58-69 | comparing with the sorted names recognises every untouched form, whatever the stored order |
| RoleDetails.IntendedAgreesOnSortedRoles | app/routes/maintenance/roles/roleDetails.tsx:58-63 | for a role stored in sorted order both tests agree |
| NewRole.Loader | app/routes/maintenance/roles/newRole.tsx:27-39 | the permissions are served exactly when the create gate grants; the 401 is never thrown |
| NewRole.Action | app/routes/maintenance/roles/newRole.tsx:41-60 | "createRole" with 201 redirects to the roles list; any other result keeps its code, message and fields, tagged "createRole"; another action gives 400 "Invalid action." |
| NewRole.AcceptedRoleRedirects | app/routes/maintenance/roles/newRole.tsx:44-49 | a named role the backend accepts leads back to the roles list |
| NewRole.MissingNameShownAtField | app/routes/maintenance/roles/newRole.tsx:51-56 | a missing name comes back as "Role name is required" under the name field |
| NewRole.OfferedPermissions | app/routes/maintenance/roles/newRole.tsx:235-241 | the dropdown offers exactly the permissions not chosen, in the loader's order |
| NewRole.PickedPermissionsAreSent | app/routes/maintenance/roles/newRole.tsx:285-289 | the chosen permissions reach the create request as the same names in the same order |
| DeleteUser.Loader | app/routes/maintenance/users/deleteUser.tsx:17-41 | the delete gate, then a missing id redirects without deleting, the user's own id gives 400 "You cannot delete your own user account." without deleting, 204 redirects to the users list, and any other result is reported with the id |
| DeleteUser.NoSelfDelete | app/routes/maintenance/users/deleteUser.tsx:27-33 | nobody deletes their own account, whatever the backend would answer |
| DeleteRole.Loader | app/routes/maintenance/roles/deleteRole.tsx:17-33 | the delete gate, then a missing id redirects without deleting, 204 redirects to the roles list, and any other result is reported with the id |
| DeleteRole.DeleteOutcome | app/routes/maintenance/roles/deleteRole.tsx:27-32 | a delete request goes out for the id; the loader redirects exactly on success; an exception is reported as 500 |
| UsersTable.FilteredCount | app/components/UsersTable.tsx:29-43 | the search keeps every occurrence of a matching user, duplicates included, and no other user |
| UsersTable.Filtered | app/components/UsersTable.tsx:29-43 | no rows without data; otherwise an order-preserving sub-list holding exactly the users whose lowered username, name, e-mail or a role name contains the term |
| UsersTable.EmptyTermKeepsAll | app/components/UsersTable.tsx:37-42 | an empty search keeps every user in order |
| UsersTable.TypedUsernameFindsUser | app/components/UsersTable.tsx:29-43 | text found in a username finds that user in whatever case it was typed |
| UsersTable.LongerTermShowsFewer | app/components/UsersTable.tsx:37-42 | a user shown for a longer term is shown for every part of it |
| UsersTable.NoRolesMatchesOnOwnFields | app/components/UsersTable.tsx:33-35 | a user without roles is matched only on username, name and e-mail |
| UsersTable.RowClick | app/components/UsersTable.tsx:45-64 | a row click navigates to the user's page unless the id is empty or the click is on an a, svg or path element |
| UsersTable.Table.constructor | app/components/UsersTable.tsx:66-71 | the table starts with an empty search, a closed modal and no pending request |
| UsersTable.Table.Search | app/components/UsersTable.tsx:126 | the search term is stored lowered |
| UsersTable.Table.RequestDelete | app/components/UsersTable.tsx:183-186 | the user to delete is recorded and the modal opens |
| UsersTable.Table.RequestToggle | app/components/UsersTable.tsx:193-196 | the request carries the user's id and the opposite of their enabled flag, and the modal opens |
| UsersTable.Table.CloseModal | app/components/UsersTable.tsx:96 | closing the modal changes nothing else |
| UsersTable.Table.ConfirmDelete | app/components/UsersTable.tsx:73-80 | with a user id it navigates to `/maintenance/users/<id>/delete`; without one it only closes the modal |
| UsersTable.Table.ConfirmToggle | app/components/UsersTable.tsx:82-89 | with a request it navigates to `/maintenance/users/<id>/toggleEnabled`; without one it only closes the modal |
| RolesTable.FilteredCount | app/components/RolesTable.tsx:22-34 | the search keeps every occurrence of a matching role, duplicates included, and no other role |
| RolesTable.Filtered | app/components/RolesTable.tsx:22-34 | no rows without data; otherwise an order-preserving sub-list holding exactly the roles whose lowered name, description (empty when absent) or a permission name contains the term |
| RolesTable.EmptyTermKeepsAll | app/components/RolesTable.tsx:29-33 | an empty search keeps every role in order |
| RolesTable.LongerTermShowsFewer | app/components/RolesTable.tsx:29-33 | a role shown for a longer term is shown for every part of it |
| RolesTable.FoundByPermission | app/components/RolesTable.tsx:22-34 | text found in a permission name finds the role in whatever case it was typed |
| RolesTable.Preview | app/components/RolesTable.tsx:163-181 | "No permissions" for none; otherwise the first three names, with "more..." exactly when there are more than three |
| RolesTable.SmallRoleShownInFull | app/components/RolesTable.tsx:163-177 | a role with at most three permissions shows every one and no "more..." |
| RolesTable.RowClick | app/components/RolesTable.tsx:36-55 | a row click navigates to the role's page unless the id is missing or empty, or the click is on an a, svg or path element |
| RolesTable.Table.constructor | app/components/RolesTable.tsx:57-60 | the table starts with an empty search, a closed modal and no role to delete |
| RolesTable.Table.Search | app/components/RolesTable.tsx:95 | the search term is stored lowered |
| RolesTable.Table.RequestDelete | app/components/RolesTable.tsx:149-152 | the role's id (possibly none) is recorded and the modal opens |
| RolesTable.Table.CloseModal | app/components/RolesTable.tsx:77 | closing the modal changes nothing else |
| RolesTable.Table.ConfirmDelete | app/components/RolesTable.tsx:62-70 | with a role id it navigates to `/maintenance/roles/<id>/delete`; without one it only closes the modal |
| LookupCard.LookupUrl | app/components/LookupCard.tsx:22-38 | blank input opens `/product`; otherwise the trimmed input is looked up under `/product/ean/` for the EAN card and `/product/` for the other |
| LookupCard.LookupUrlEndsWithCode | app/components/LookupCard.tsx:31-34 | the looked-up code is the last path segment of the target |
| LookupCard.AfterSubmit | app/components/LookupCard.tsx:22-48 | a lookup empties the visible field but keeps the stored text; a blank submit changes nothing |
| LookupCard.Typed | app/components/LookupCard.tsx:82 | after typing, the field and the state hold the same text |
| LookupCard.Card.constructor | app/components/LookupCard.tsx:17-20 | the card starts empty, with the kind it was given |
| LookupCard.Card.Type | app/components/LookupCard.tsx:82 | typing puts the same text in the field and in the state |
| LookupCard.Card.HandleSubmit | app/components/LookupCard.tsx:22-48 | navigates to `LookupUrl` of the stored text and leaves the card as `AfterSubmit` describes |
| LookupCard.StaleInputRepeatsLookup | app/components/LookupCard.tsx:24-47 | after a lookup the field is empty, yet submitting it again repeats the same lookup instead of opening `/product` |
| LookupCard.IntendedAfterSubmit | app/components/LookupCard.tsx:40-48 | a reset that also clears the state keeps field and state in step |
| LookupCard.IntendedSubmitLooksUpWhatIsShown | app/components/LookupCard.tsx:22-48 | with that reset every submit looks up what the field shows, and the empty field after a lookup opens `/product` |
| NavBar.Navigation | app/components/NavBar.tsx:26-45 | Home and Products first, in that order, then Maintenance exactly when the permission list holds the maintenance permission |
| NavBar.UserNavigation | app/components/NavBar.tsx:47-55 | Settings and Sign out for a logged-in user, only Sign in otherwise |
| NavBar.RootNavigation | app/root.tsx:38-47 | the menu built from the root loader's session user is always just Home and Products |
| NavBar.MaintenanceNeverListed | app/components/NavBar.tsx:40-44 | a user who logs in with the maintenance permission passes the maintenance gate but is never offered its link |
| NavBar.IntendedNavigation | app/components/NavBar.tsx:40-44 | with the permissions fetched for the session user, Maintenance is listed exactly for a logged-in holder of the permission |
| NavBar.IntendedLinkMatchesGate | app/routes/layouts/maintenance.tsx:18-22 | with the permissions fetched, the link is listed exactly for the users the maintenance gate lets in |
| NavBar.Toggled | app/components/NavBar.tsx:57-62 | "light" becomes "dark", anything else becomes "light" |
| NavBar.ToggleTwice | app/components/NavBar.tsx:57-58 | two toggles restore a light or dark theme |
| NavBar.InitialTheme | app/components/NavBar.tsx:64-68 | the stored theme when there is a non-empty one, "light" otherwise |
| NavBar.ReloadKeepsToggledTheme | app/components/NavBar.tsx:57-68 | the toggled theme is stored, so the next load starts with it |
| NavBar.Theme.constructor | app/components/NavBar.tsx:64-68 | after mounting, the theme is the initial theme and the document is dark exactly for "dark" |
| NavBar.Theme.Toggle | app/components/NavBar.tsx:57-62 | the theme flips, the document class follows it, and the new theme is stored |

## Left out

- Rendering, styling, icons, modals and the pages that only render are not modelled. The same goes for the `fetch` calls themselves, for `getRoles`, `getRole`, `getAllPermissions`, `getPermissions`, `createUser`, `deleteUser`, `updateUserPassword` and the statistics service, whose answers are inputs, and for the thin list loaders.
- Cookie signing and serialisation by the session storage library: the session is the map it hands out.
- The clock: `Date.now()` is the `now` parameter. The avatar lookup and its timestamp in the root loader, and the revalidation timer, are not modelled.
- The e-mail validator: its verdict is a boolean input.
- Sorting.LessEq: `localeCompare` is replaced by code-point order, shorter prefix first. Locale collation is not modelled.
- Strings.Lower: `toLowerCase` is modelled for ASCII letters only. Other case mappings are not modelled.
- JsonPatch.DecodeRender: the round trip is proved only for quoted values with nothing to escape. The source puts the updateRole name and description and the updateUserSettings display name, e-mail and image name between quotes without escaping, so other values produce text that is not the intended JSON; permission lists go through `JSON.stringify` and may hold anything.
- JsonPatch.Unescape: a `\u` escape naming a UTF-16 surrogate (U+D800 to U+DFFF) is refused rather than paired, since strings here are sequences of scalar values; `JSON.stringify` never writes one for such strings.
- RolesService.FailureResult: an error body that is valid JSON but not an object is treated as an unparsable body.
- Types.UserRole: a description that is `null` and one that is `undefined` are both `None`.
- Concurrent requests interleaving on the product cache are not modelled: each call is one atomic step.
- Floating-point product prices are carried as opaque values and never computed with.
- UsersTable.RowClick: the element's tag name is an input. Browsers report HTML tag names in upper case, so the `"a"` test is taken literally, as written.

## Findings

| source | as written | input that shows it | evidently intended | confidence | as-written member | corrected member |
|---|---|---|---|---|---|---|
| app/routes/maintenance/roles/roleDetails.tsx:58-63, 210-211 | rendering sorts the chosen permissions in place, so the hidden field sends them sorted, while the no-change test compares with the stored order | a role stored with permissions `b,a`, submitted untouched: `_permissions` is `a,b`, and an update is sent | an untouched form is answered "No changes detected." | medium, not executed | RoleDetails.UnsortedRoleIsNeverUnchanged | RoleDetails.IntendedDetectsUntouchedForm |
| app/components/NavBar.tsx:40-44 with app/root.tsx:38-47 | the menu reads `user.permissions`, but the root loader's user is rebuilt from the session, which stores no permissions | any logged-in user holding `prijzencheck.pages.maintenance` | the Maintenance link is shown to users who may enter the section | high, not executed | NavBar.MaintenanceNeverListed | NavBar.IntendedLinkMatchesGate |
| app/services/userService.server.ts:34-36 | any `profileImage` entry adds an image replace, and a form with an empty file input still sends an empty file | settings submitted with a new display name and no file chosen: the patch also replaces `/profileImage` with `""` | an image replace only for a chosen, non-empty file, as the page's own no-change test assumes (app/routes/maintenance/users/userDetails.tsx:76) | medium, not executed | UserService.EmptyFileReplacesImage | UserService.IntendedSettingsOps |
| app/routes/maintenance/users/newUser.tsx:56-61 | a failed create is tagged "updateUserSettings", but the page shows results tagged "createUser" | `_action` "createUser" answered 500 "Internal server error" with no fields: nothing is shown | the failure message appears under the create button | high, not executed | NewUser.FailedCreateIsNotShown | NewUser.IntendedFailedCreateIsShown |
| app/components/LookupCard.tsx:37-47 | after a lookup `resetInput` empties the input element but not the `lookupInput` state, and the card stays mounted in the product layout | type `123`, submit (to `/product/123`), then submit the now empty field: it goes to `/product/123` again | the empty field opens `/product` | medium, not executed | LookupCard.StaleInputRepeatsLookup | LookupCard.IntendedSubmitLooksUpWhatIsShown |
