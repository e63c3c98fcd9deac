# Super-admin console: session lifecycle and dashboard helpers, in Dafny

This project is a Dafny model of the super-admin console of a multi-tenant
SaaS product. The console is a browser application. The model covers three
parts of it.

- **The session core.**
  - The auth slice: the in-memory auth record, its reducers, and the two
    `localStorage` keys `SuperAdminToken` and `SuperAdminUser`.
  - The four auth operations: login, token refresh, logout and
    initialisation.
  - The axios request interceptor, which attaches the bearer token.
  - The response interceptor's single-flight refresh coordinator. It queues
    concurrent 401s behind one refresh call, then releases them in order or
    rejects them.
  - The `ProtectedRoute` guard: the local expiry check, the mount-time
    hydration and the admit/deny decision.
- **The dashboard pages' pure logic.** This covers the tenant form's plan
  list, validation and payload, and the filters, sorts, toggles,
  de-duplications, counts and totals of the billing, plan, project, user,
  company and tenant pages.
- **The page states.** Each page's state is an immutable record, and each
  handler is a pure function from one state to the next.

The model replaces the program's environment with values:

- Server answers are outcome values (`LoginOk`/`LoginFail`, `RefreshOk`/`RefreshFail`, `Loaded`/`Failed`).
- Asynchronous interleaving becomes a sequential trace of events (`HttpClient.Event`).
- `jwtDecode` is a function parameter from token to expiry, and the clock is an integer parameter.
- `JSON.stringify`/`JSON.parse` of the stored user is the identity on its serialised text.
- Dates are integers.

Layout, one module per source file:

| file | module | models |
|---|---|---|
| wrappers.dfy | `Wrappers` | `Option`, `Result` |
| text.dfy | `Text` | JS truthiness, `trim`, ASCII `toLowerCase`/`toUpperCase`, `includes`, `replace(/\D/g, '')`, number printing |
| seqs.dfy | `Seqs` | `filter`, `map`, stable `sort` (ES2019), de-duplication, sums, and lemmas about them |
| auth_slice.dfy | `AuthSlice` | src/store/slice/authSlice.js |
| http_client.dfy | `HttpClient` | src/api/axios.js |
| route_guard.dfy | `RouteGuard` | src/pages/login/ProtectedRoute.jsx |
| tenant_form.dfy | `TenantForm` | src/pages/dashboard/TenantForm.jsx |
| billing_list.dfy | `BillingList` | src/pages/dashboard/BillingList.jsx |
| admin_project_list.dfy | `AdminProjectList` | src/pages/dashboard/AdminProjectList.jsx |
| plan_page.dfy | `PlanPage` | src/pages/dashboard/Plan.jsx |
| admin_billing_console.dfy | `AdminBillingConsole` | src/pages/dashboard/AdminBillingConsole.jsx |
| company_user_management.dfy | `CompanyUserManagement` | src/pages/dashboard/CompanyUserManagement.jsx |
| company_dashboard.dfy | `CompanyDashboard` | src/pages/dashboard/Dashboard.jsx |
| tenant_create.dfy | `TenantCreate` | src/pages/dashboard/TenantCreate.jsx |
| tenant_user_manager.dfy | `TenantUserManager` | src/pages/dashboard/TenantUserManager.jsx |

Four behaviours of the code are easy to misread, and the model states
them as the code has them:

- **What `isAuthenticated` requires.** The initial record sets the flag
  from the stored token alone (authSlice.js:10). The stored user plays no
  part, and nothing in the slice looks at the token's expiry.
  - `AuthSlice.InitialAuthIgnoresUser` shows that the stored user never
    changes the initial flag.
  - The invariant the model proves is `TokenBacked`: an authenticated
    record holds a token.
- **When `_retry` is set.** Only the request that starts a refresh gets
  `_retry = true` (axios.js:70). A request queued behind a refresh in
  flight (axios.js:60-67) keeps `retried = false`.
- **Who hydrates from storage.** `initializeAuth` (authSlice.js:78-102)
  only refreshes; it never copies storage into the record. The guard does
  that, by dispatching `setAuthFromStorage` (ProtectedRoute.jsx:40) before
  it dispatches `initializeAuth` (ProtectedRoute.jsx:44).
- **What a failed initialisation leaves in `error`.** The rejected
  reducer of `initializeAuth` (authSlice.js:192-197) does not touch
  `error`. After a failed refresh inside the thunk, `error` therefore holds
  the refresh's message, set by `refreshToken.rejected`
  (authSlice.js:159-164).

## Model

| member | source | states |
|---|---|---|
| AuthSlice.Read | src/store/slice/authSlice.js:6-7 | a storage read is present exactly when the key is present with a non-empty value (`getItem(..) \|\| null`), and then it is that value |
| AuthSlice.StoredUser | src/store/slice/authSlice.js:6 | the stored profile is present exactly when the user key reads as present, and is its value |
| AuthSlice.ClearCredentials | src/store/slice/authSlice.js:47-48 | both credential keys are gone; every other key is kept, with its value |
| AuthSlice.InitialState | src/store/slice/authSlice.js:5-11 | the initial record takes the stored token and user, is authenticated exactly when a token is stored, and is idle without error |
| AuthSlice.InitialAuthIgnoresUser | src/store/slice/authSlice.js:10 | adding or removing the stored user never changes the initial `isAuthenticated` |
| AuthSlice.ErrorMessage | src/store/slice/authSlice.js:149 | the reported message is the payload's message or the fallback, and is never empty when the fallback is not |
| AuthSlice.Reduce | src/store/slice/authSlice.js:104-199 | only `resetAuthState` touches storage, and it yields the logged-out record with both keys removed; only login, refresh, initialise and `setAuthFromStorage` can switch the flag on |
| AuthSlice.ReducePreservesTokenBacked | src/store/slice/authSlice.js:133-197 | no reducer, and not the initial state, produces an authenticated record without a token |
| AuthSlice.SetAuthFromStorageEffect | src/store/slice/authSlice.js:122-131 | with both keys stored the record takes them and becomes authenticated, status and error untouched; with either missing nothing changes |
| AuthSlice.Login | src/store/slice/authSlice.js:13-31 | success persists both keys and gives (user, token, succeeded, no error, authenticated); failure keeps storage, user and token and sets failed, unauthenticated and the message |
| AuthSlice.LoginFailureMessage | src/store/slice/authSlice.js:147-151 | a failed login reports the server's message when there is one and "Login failed" otherwise |
| AuthSlice.Refresh | src/store/slice/authSlice.js:33-54 | success overwrites only the token (storage and record) and sets authenticated with no error, user untouched; failure removes both keys and drops user and token |
| AuthSlice.Logout | src/store/slice/authSlice.js:56-75 | the thunk's own steps: whatever the backend answer, storage loses both keys (others kept) and the record is logged out; a 401 on the logout call itself is `HttpClient.LogoutUnauthorizedRestoresToken` |
| AuthSlice.LogoutIgnoresBackend | src/store/slice/authSlice.js:60-63 | within the thunk's own steps, a failed backend call ends in exactly the same session as a successful one |
| AuthSlice.LogoutRejectedIsLoggedOut | src/store/slice/authSlice.js:167-182 | the fulfilled and the rejected logout reducers both produce the logged-out record |
| AuthSlice.InitializeAuth | src/store/slice/authSlice.js:78-102 | without both keys it rejects without a refresh and only resets the record; with both, success takes the stored user and new token, failure clears storage and logs out (status idle) |
| AuthSlice.InitializeWithoutCredentialsSkipsRefresh | src/store/slice/authSlice.js:84-86 | without both keys the server's answer cannot affect the result, since no refresh is made |
| AuthSlice.OperationsPreserveTokenBacked | src/store/slice/authSlice.js:140-197 | login, refresh, logout and initialisation never leave an authenticated record without a token |
| HttpClient.BearerToken | src/api/axios.js:22 | a header value reads back as a token exactly when it starts with "Bearer ", and then the header is the bearer form of that token |
| HttpClient.BearerRoundTrip | src/api/axios.js:22 | building a bearer header and reading it back gives the token |
| HttpClient.ChooseToken | src/api/axios.js:17-19 | the in-memory token wins when truthy, the stored token is the fallback, and nothing is chosen only when neither exists |
| HttpClient.AttachToken | src/api/axios.js:15-30 | a request with an Authorization header, or with no token available, passes unchanged; otherwise only its header changes, to the bearer form of the chosen token |
| HttpClient.AttachTokenIdempotent | src/api/axios.js:21 | running the interceptor twice is the same as running it once |
| HttpClient.AuthEndpointsNotEligible | src/api/axios.js:53-58 | a 401 from any URL containing "/login" or "/refresh-token-superadmin" anywhere never starts the refresh protocol, and a 401 on a fresh request whose URL contains neither always does |
| HttpClient.Eligible | src/api/axios.js:53-58 | the refresh protocol's entry test: a 401 on a request without `_retry` whose URL contains neither "/login" nor "/refresh-token-superadmin" (its consequences are `AuthEndpointsNotEligible` and `LogoutEligible`) |
| HttpClient.LogoutEligible | src/api/axios.js:53-58 | a 401 on the logout call "/superadmin/logout" is eligible for the refresh protocol |
| HttpClient.RefreshRejection | src/store/slice/authSlice.js:49-51 | the error every waiter receives is the server's error body, or `{ message: "Token refresh failed" }` |
| HttpClient.Drain | src/api/axios.js:36-47 | every queued request is settled, in enqueue order: all resolved with the token, or all rejected with the error |
| HttpClient.ProcessQueue | src/api/axios.js:36-47 | the `forEach` loop settles each entry in order exactly as `Drain` describes, and leaves the queue empty |
| HttpClient.Start | src/api/axios.js:33-34 | the coordinator at load time (not refreshing, empty queue) satisfies the single-flight invariant |
| HttpClient.Step | src/api/axios.js:49-107 | one event keeps the invariant, starts at most one refresh and only when none is in flight, only appends settlements, rejects ineligible failures unchanged, queues eligible ones during a refresh, and ends a refresh with the flag down and the queue empty |
| HttpClient.RunPreservesInv | src/api/axios.js:59-102 | over any trace the invariant holds and the interceptor's refresh calls exceed its settled refreshes by at most one: never two coordinator refreshes outstanding |
| HttpClient.RunAppend | src/api/axios.js:49-107 | running two traces one after the other is running their concatenation |
| HttpClient.Unauthorized | src/api/axios.js:54 | the trace of 401 answers for the given requests, one per request, in order |
| HttpClient.QueueWhileRefreshing | src/api/axios.js:59-68 | while a refresh is in flight, 401s only join the queue in arrival order and start no refresh |
| HttpClient.Started | src/api/axios.js:59-71 | after concurrent 401s with no refresh in flight, the first request has started the one refresh (marked retried) and the rest wait in order |
| HttpClient.ConcurrentUnauthorizedThenSuccess | src/api/axios.js:73-88 | concurrent 401s then a successful refresh: one refresh call, the session is the refreshed one, the default header becomes the new bearer, all waiters resolve with the same token in failure order, and the first request is replayed with it |
| HttpClient.RefreshSuccessStep | src/api/axios.js:75-88 | a successful refresh settles the call count, lowers the flag, empties the queue, refreshes the session (new token stored, authenticated), sets the default header, resolves every waiter in order and replays the starter; the redirect is untouched |
| HttpClient.Outgoing | src/api/axios.js:15-30 | a request leaves with its own header, else with the instance default once one is set, else through the interceptor; id, URL and retry mark are kept |
| HttpClient.DefaultHeaderShadowsSession | src/api/axios.js:79-81 | after a successful refresh every later request without its own header carries the refreshed bearer, whatever the session has become |
| HttpClient.LogoutUnauthorizedRestoresToken | src/store/slice/authSlice.js:56-75 | a 401 on the logout call followed by a successful refresh leaves the record logged out with the new token stored and no user stored, so a reload starts with `isAuthenticated` set (the guard then denies it, `RouteGuard.TokenWithoutUserDenied`) |
| HttpClient.RefreshFailureStep | src/api/axios.js:89-102 | a failed refresh rejects every waiter and then the starting request with the refresh error, logs out with both keys removed, and redirects to the login page unless the path contains "/login" |
| HttpClient.ConcurrentUnauthorizedThenFailure | src/api/axios.js:89-99 | concurrent 401s then a failed refresh: one refresh call, every one of the requests rejected with the refresh error, logged out and redirected |
| RouteGuard.ExpValidMeaning | src/pages/login/ProtectedRoute.jsx:11-19 | a token is valid exactly when its expiry in milliseconds lies more than 30000 ms beyond now; an undecodable token is invalid, and so is one exactly at the buffer |
| RouteGuard.ExpValidMonotone | src/pages/login/ProtectedRoute.jsx:15 | a token valid at some instant was valid at every earlier instant |
| RouteGuard.Mount | src/pages/login/ProtectedRoute.jsx:30-58 | the effect, up to the server check: the loading flag is always cleared (by the re-run the hydration triggers); a check is pending exactly when the hydrate condition held, and then the record holds the stored user and token and is authenticated; otherwise the session is untouched |
| RouteGuard.CheckSettled | src/pages/login/ProtectedRoute.jsx:43-53 | the pending check settles: success keeps the stored user with the new token, stored and authenticated; failure removes both keys and logs out; without stored credentials the record is reset; nothing happens when no check is pending |
| RouteGuard.HydratedAdmitsBeforeCheck | src/pages/login/ProtectedRoute.jsx:38-58 | when the hydrate condition holds, the guard admits while the server check is still pending |
| RouteGuard.FailedCheckRedirects | src/pages/login/ProtectedRoute.jsx:43-89 | a failed check turns that admission into a redirect to the login page, with both keys removed |
| RouteGuard.Decide | src/pages/login/ProtectedRoute.jsx:69-89 | admission holds exactly when a valid token (record or storage) and a user (record or storage) exist; admission leaves storage alone; denial redirects to the login path with the location and removes only the two keys |
| RouteGuard.Render | src/pages/login/ProtectedRoute.jsx:60-67 | while initialising only the placeholder is shown and storage is untouched; afterwards the view is a decision |
| RouteGuard.DecisionIgnoresFlag | src/pages/login/ProtectedRoute.jsx:70-79 | changing `isAuthenticated` alone never changes the decision |
| RouteGuard.DenialIsStable | src/pages/login/ProtectedRoute.jsx:79-86 | deciding again on the purged storage denies again with the same storage |
| RouteGuard.ReloadDecision | src/pages/login/ProtectedRoute.jsx:34-38 | after a reload the record comes from storage, so the guard never hydrates or starts a check, and admits exactly when the stored token is valid and a user is stored |
| RouteGuard.TokenWithoutUserDenied | src/pages/login/ProtectedRoute.jsx:69-89 | a reload with a stored token and no stored user starts with `isAuthenticated` set, yet the guard redirects to the login page and removes the token |
| TenantForm.PlansArray | src/pages/dashboard/TenantForm.jsx:24-35 | the envelope's array, the bare array, or [] for anything else |
| TenantForm.Names | src/pages/dashboard/TenantForm.jsx:42-47 | the names of the plans, position by position |
| TenantForm.FirstNewestUnique | src/pages/dashboard/TenantForm.jsx:52-53 | a group has only one first-of-the-newest plan |
| TenantForm.FirstNewestCons | src/pages/dashboard/TenantForm.jsx:52 | where the first-of-the-newest of a group lands when a plan is put in front of it |
| TenantForm.SortHeadIsFirstNewest | src/pages/dashboard/TenantForm.jsx:52-53 | the head of a group sorted newest first (stable sort) is the earliest of its plans with the largest `createdAt` |
| TenantForm.GroupNonEmpty | src/pages/dashboard/TenantForm.jsx:42-47 | a name that occurs has a non-empty group |
| TenantForm.GroupHeads | src/pages/dashboard/TenantForm.jsx:50-54 | for each name, a plan of that name that is the first of the newest in its group |
| TenantForm.FilteredPlans | src/pages/dashboard/TenantForm.jsx:37-57 | for plans with own names, one plan per distinct name, in order of first appearance, each the first of the newest of its name; never longer than the input |
| TenantForm.OfferedPlans | src/pages/dashboard/TenantForm.jsx:37-57 | the dialog's plan list throws exactly when some plan is named after an inherited `Object` property; otherwise it is one-newest-per-name of the plans |
| TenantForm.PrototypeNameBreaksDialog | src/pages/dashboard/TenantForm.jsx:43-46 | a single plan named "constructor" makes the list throw, and a single own-named plan is offered as it is |
| TenantForm.NewestPerNameUnique | src/pages/dashboard/TenantForm.jsx:37-57 | that description determines the list: two lists meeting it are equal |
| TenantForm.FilteredPlansFromInput | src/pages/dashboard/TenantForm.jsx:37-57 | every offered plan is an input plan and no name is offered twice |
| TenantForm.PhoneCheckMeaning | src/pages/dashboard/TenantForm.jsx:117-122 | the phone passes exactly when its digits number 1 to 16 and the first digit is not 0 |
| TenantForm.EmailOkIffPattern | src/pages/dashboard/TenantForm.jsx:124-129 | the scanning check accepts exactly the strings matching `^[^\s@]+@[^\s@]+\.[^\s@]+$` |
| TenantForm.FirstFailureMeaning | src/pages/dashboard/TenantForm.jsx:95-143 | no failure is reported exactly when every check passes; otherwise the reported message is that of a failing check with every earlier one passing |
| TenantForm.ValidateForm | src/pages/dashboard/TenantForm.jsx:95-143 | the form is accepted exactly when every field check passes (and, when creating, the password has at least 8 UTF-16 code units) |
| TenantForm.ReportIsFirstFailure | src/pages/dashboard/TenantForm.jsx:95-143 | the nested tests report the message of the first failing check in the fixed order company, plan, admin name, email, phone, phone format, email format, password, password length |
| TenantForm.Report | src/pages/dashboard/TenantForm.jsx:95-143 | the nested tests of `validateForm` over the check outcomes (their meaning is `ReportIsFirstFailure`) |
| TenantForm.EditingIgnoresPassword | src/pages/dashboard/TenantForm.jsx:131-140 | when editing, the password never changes the outcome |
| TenantForm.CreatingNeedsPassword | src/pages/dashboard/TenantForm.jsx:131-140 | when creating, a form whose other fields pass is accepted exactly when the password's UTF-16 length is at least 8; empty and short passwords get their own messages |
| TenantForm.BlankCompanyReportedFirst | src/pages/dashboard/TenantForm.jsx:96-99 | a blank company name is the error reported, whatever else is wrong |
| TenantForm.BuildPayload | src/pages/dashboard/TenantForm.jsx:154-175 | the payload copies the form; the password key is absent exactly on an update with an empty password |
| TenantForm.CreatedPayloadHasPassword | src/pages/dashboard/TenantForm.jsx:131-164 | an accepted new-tenant form sends its password, whose UTF-16 length is at least 8 |
| TenantForm.AstralPasswordLongEnough | src/pages/dashboard/TenantForm.jsx:137 | four emoji (eight UTF-16 units) pass the length check, and any password of eight characters does |
| TenantForm.HandleChange | src/pages/dashboard/TenantForm.jsx:85-89 | the named field takes the value, every other field keeps its value, and the banner is cleared |
| TenantForm.HandleChangeSameValue | src/pages/dashboard/TenantForm.jsx:85-89 | writing a field's own value back changes nothing but the banner |
| TenantForm.HandleSelectChange | src/pages/dashboard/TenantForm.jsx:91-93 | the plan picker acts like a change of `planId` except that the banner is kept |
| TenantForm.Prefill | src/pages/dashboard/TenantForm.jsx:59-83 | an open dialog is filled from the edited record (missing as "", password empty) or reset to blank; a closed one keeps its form; the banner is cleared |
| TenantForm.PrefillThenSubmit | src/pages/dashboard/TenantForm.jsx:59-83 | a reset dialog is refused with the company message; an untouched edit sends no password |
| Text.TrimEmptyIffBlank | src/pages/dashboard/TenantForm.jsx:96 | `trim()` gives "" exactly when every character is white space |
| Text.Utf16Length | src/pages/dashboard/TenantForm.jsx:137 | `.length` counts UTF-16 code units: at least one and at most two per character, exactly one for every character of the Basic Multilingual Plane |
| BillingList.PlansArray | src/pages/dashboard/BillingList.jsx:51-54 | one entry per tenant, that tenant's plan or its absence, in tenant order |
| BillingList.Place | src/pages/dashboard/BillingList.jsx:58-64 | one fold step grows the map by at most one entry, and a plan named after an inherited `Object` property leaves it unchanged |
| BillingList.PlaceNew | src/pages/dashboard/BillingList.jsx:59 | an unseen own name is appended at the end; an inherited name is dropped |
| BillingList.PlaceExisting | src/pages/dashboard/BillingList.jsx:60-63 | a seen name's entry is replaced only by a strictly newer plan; nothing else moves |
| BillingList.PlanMap | src/pages/dashboard/BillingList.jsx:56-67 | the fold over the plans never holds more plans than it visited (its meaning is `PlanMapNewestPerName`) |
| BillingList.PlaceStep | src/pages/dashboard/BillingList.jsx:58-64 | each step keeps the map equal to one-newest-per-name of the own-named plans seen so far |
| BillingList.PlanMapNewestPerName | src/pages/dashboard/BillingList.jsx:56-67 | the whole fold gives, over the own-named plans, one plan per distinct name, in first-appearance order, each the first of the newest of its name |
| BillingList.PrototypeNamesDropped | src/pages/dashboard/BillingList.jsx:59-63 | no plan named after an inherited `Object` property ever reaches the drop-down |
| BillingList.FilteredPlans | src/pages/dashboard/BillingList.jsx:56-67 | the drop-down fails (throws) exactly when some tenant has no plan; otherwise its plans are one-newest-per-name of the own-named plans |
| BillingList.SameAsTenantForm | src/pages/dashboard/BillingList.jsx:56-67 | the strictly-newer fold and the tenant form's stable sort-and-take-first pick the same plans from the own-named ones, and exactly the dialog's list whenever the dialog does not throw |
| BillingList.TieKeepsFirst | src/pages/dashboard/BillingList.jsx:61 | of two same-name plans with equal dates the first seen is kept (none when the name is inherited) |
| BillingList.FilteredTenants | src/pages/dashboard/BillingList.jsx:70-74 | the `filteredTenants` expression alone throws exactly when some tenant lacks a name, or lacks a plan under a plan filter; otherwise every kept tenant passes the search and plan tests |
| BillingList.FilteredTenantsMeaning | src/pages/dashboard/BillingList.jsx:70-74 | when the `filteredTenants` expression evaluates, a tenant is kept exactly when its name contains the search ignoring case and the filter is "all" or its plan's name, order kept; with all names present the expression evaluates under "all" |
| BillingList.NoFilterListsAll | src/pages/dashboard/BillingList.jsx:70-74 | with every name present, the `filteredTenants` expression keeps every tenant for an empty search and "all" |
| BillingList.Page | src/pages/dashboard/BillingList.jsx:56-147 | the page renders exactly when every tenant has a name and a plan, whatever the filter; it then shows the drop-down's plans and the kept tenants |
| BillingList.NullPlanBreaksPage | src/pages/dashboard/BillingList.jsx:59 | one tenant without a plan breaks the page under "all", although the `filteredTenants` expression alone evaluates |
| AdminProjectList.FilterProjects | src/pages/dashboard/AdminProjectList.jsx:122-152 | the staged filter never adds a project |
| AdminProjectList.PipelineIsConjunction | src/pages/dashboard/AdminProjectList.jsx:122-152 | the four guarded stages equal one filter by the conjunction of the enabled tests |
| AdminProjectList.FilterProjectsMeaning | src/pages/dashboard/AdminProjectList.jsx:122-152 | a project is shown exactly when (empty search or name/client contains it) and each set company/status/type filter matches exactly; order is kept |
| AdminProjectList.NoFilterShowsAll | src/pages/dashboard/AdminProjectList.jsx:122-152 | with no search and no filters every project is shown |
| AdminProjectList.TimelineIgnored | src/pages/dashboard/AdminProjectList.jsx:122-152 | the timeline filter never changes the result |
| AdminProjectList.FlagProject | src/pages/dashboard/AdminProjectList.jsx:181-189 | only projects with that id change, and only their `flagged`, which is negated |
| AdminProjectList.FlagTwiceRestores | src/pages/dashboard/AdminProjectList.jsx:181-189 | flagging twice restores the list |
| AdminProjectList.Options | src/pages/dashboard/AdminProjectList.jsx:213-215 | the option list has no repeats and holds exactly the values present in the projects |
| AdminProjectList.CountsBounded | src/pages/dashboard/AdminProjectList.jsx:240-279 | each summary count is at most the total, and On Track plus Delayed is too |
| AdminProjectList.OnTrackCount | src/pages/dashboard/AdminProjectList.jsx:253 | the "On Track" card is at most the number of projects, and 0 exactly when no project is "On Track" |
| AdminProjectList.DelayedCount | src/pages/dashboard/AdminProjectList.jsx:266 | the "Delayed" card is at most the number of projects, and 0 exactly when no project is "Delayed" |
| AdminProjectList.FlaggedCount | src/pages/dashboard/AdminProjectList.jsx:279 | the "Flagged" card is at most the number of projects, and 0 exactly when no project is flagged |
| AdminProjectList.FlaggedCountMeaning | src/pages/dashboard/AdminProjectList.jsx:279 | the flagged count counts exactly the flagged projects |
| PlanPage.FetchPlans | src/pages/dashboard/Plan.jsx:68-83 | a loaded body gives its `plans` (or the bare array) as a cheapest-first permutation; a failure gives the server message or the fallback |
| PlanPage.ToggleSort | src/pages/dashboard/Plan.jsx:160-165 | the flag flips; the list is a permutation sorted dearest first if the old flag was set and cheapest first otherwise |
| PlanPage.LoadedAgrees | src/pages/dashboard/Plan.jsx:46-76 | a freshly loaded list agrees with the initial ascending flag |
| PlanPage.ToggleMakesFlagAgree | src/pages/dashboard/Plan.jsx:160-165 | after each toggle the flag describes the list's order |
| PlanPage.DeletePlan | src/pages/dashboard/Plan.jsx:89 | no remaining plan has the deleted id |
| PlanPage.DeletePlanMeaning | src/pages/dashboard/Plan.jsx:85-94 | exactly the plans with that id go, the rest keep their order, and a cheapest-first list stays so |
| PlanPage.FilterKeepsSorted | src/pages/dashboard/Plan.jsx:89 | filtering keeps a cheapest-first list cheapest first |
| PlanPage.FilteredPlans | src/pages/dashboard/Plan.jsx:168-175 | every shown plan passes the search (name or Razorpay id) and status tests |
| PlanPage.FilteredPlansMeaning | src/pages/dashboard/Plan.jsx:168-175 | a plan is shown exactly when its name or Razorpay id contains the search and the status is "all", "active" with an active plan, or "inactive" with an inactive one; order is kept |
| PlanPage.StatusViewsPartition | src/pages/dashboard/Plan.jsx:171-173 | the active and inactive views split the "all" view between them |
| PlanPage.FilteredPlansAsWritten | src/pages/dashboard/Plan.jsx:168-175 | the code as written throws exactly when some plan's name misses the search and it has no Razorpay id |
| PlanPage.AsWrittenAgrees | src/pages/dashboard/Plan.jsx:168-175 | whenever the code as written does not throw it shows the corrected list, and when every plan has a Razorpay id it never throws |
| PlanPage.MissingRazorpayIdThrows | src/pages/dashboard/Plan.jsx:169-170 | a concrete plan without a Razorpay id makes the filter throw |
| PlanPage.HandleEdit | src/pages/dashboard/Plan.jsx:96-111 | the form holds the plan's fields with INR, monthly and "" for missing ones, `isActive` true unless it is `false`; the dialog opens with no error |
| PlanPage.EditKeepsPresentFields | src/pages/dashboard/Plan.jsx:104-107 | a plan with every optional field present has them reproduced |
| PlanPage.HandleInputChange | src/pages/dashboard/Plan.jsx:130-137 | only the named entry changes, to the checkbox state or the typed text, and the error is cleared |
| PlanPage.HandleFormClose | src/pages/dashboard/Plan.jsx:113-128 | the dialog closes with the default form, nothing being edited and no error |
| PlanPage.CloseForgetsEdits | src/pages/dashboard/Plan.jsx:113-137 | closing after an edit and input changes is the same as closing at once |
| AdminBillingConsole.FormatTenants | src/pages/dashboard/AdminBillingConsole.jsx:40-43 | one formatted tenant per item, in order, with the item's tenant fields and admin; no data gives [] |
| AdminBillingConsole.FormatKeepsRecords | src/pages/dashboard/AdminBillingConsole.jsx:40-43 | the tenant records come back out of the formatted list unchanged and in order |
| AdminBillingConsole.FilteredTenants | src/pages/dashboard/AdminBillingConsole.jsx:63-71 | every listed tenant has a name |
| AdminBillingConsole.FilteredTenantsMeaning | src/pages/dashboard/AdminBillingConsole.jsx:63-71 | a tenant is listed exactly when it has a name containing the search and "all", "Active" with an active subscription, or another value with an inactive one; order is kept |
| AdminBillingConsole.StatusViewsPartition | src/pages/dashboard/AdminBillingConsole.jsx:66-70 | the "Active" and any other non-"all" view split the "all" view between them |
| AdminBillingConsole.TenantPayments | src/pages/dashboard/AdminBillingConsole.jsx:73-75 | every returned payment has that tenant id |
| AdminBillingConsole.TenantPaymentsMeaning | src/pages/dashboard/AdminBillingConsole.jsx:73-75 | exactly the payments of that tenant, in their original order |
| AdminBillingConsole.SuccessfulPayments | src/pages/dashboard/AdminBillingConsole.jsx:158-160 | every kept payment has status "success", and there are no more of them than payments |
| AdminBillingConsole.SuccessfulMeaning | src/pages/dashboard/AdminBillingConsole.jsx:158-209 | a payment is counted as successful exactly when its status is "success"; the successful count is at most the total |
| AdminBillingConsole.DialogRows | src/pages/dashboard/AdminBillingConsole.jsx:267-268 | the tenant's payments, newest first, as a permutation |
| AdminBillingConsole.TotalIsSumOfContributions | src/pages/dashboard/AdminBillingConsole.jsx:318-321 | summing the successful amounts (missing as 0) of the tenant's payments is adding each payment's amount if it is the tenant's and succeeded, and nothing otherwise |
| AdminBillingConsole.Total | src/pages/dashboard/AdminBillingConsole.jsx:318-321 | the footer total is the sum over all payments of each one's contribution: its amount if it is the tenant's and succeeded, 0 otherwise |
| AdminBillingConsole.TotalBounded | src/pages/dashboard/AdminBillingConsole.jsx:318-321 | with non-negative amounts the total is between 0 and the sum over all the tenant's payments |
| AdminBillingConsole.NonNegativeSum | src/pages/dashboard/AdminBillingConsole.jsx:320 | a sum of non-negative amounts is non-negative |
| CompanyUserManagement.Capitalize | src/pages/dashboard/CompanyUserManagement.jsx:38 | a missing or empty role gives "Admin"; otherwise the first letter is upper-cased and the rest kept |
| CompanyUserManagement.CapitalizeIdempotent | src/pages/dashboard/CompanyUserManagement.jsx:38 | capitalising a capitalised role changes nothing |
| CompanyUserManagement.ToUser | src/pages/dashboard/CompanyUserManagement.jsx:33-42 | a row copies the admin's id, name, email, phone and last login, with the defaulted role, status and device |
| CompanyUserManagement.MapUsers | src/pages/dashboard/CompanyUserManagement.jsx:33-42 | one row per tenant, in order |
| CompanyUserManagement.LoadUsers | src/pages/dashboard/CompanyUserManagement.jsx:27-53 | with every tenant's admin present the rows are the mapped admins, in order; one missing admin throws inside the `try` and leaves the list empty |
| CompanyUserManagement.LoadedAsMapped | src/pages/dashboard/CompanyUserManagement.jsx:33-45 | loading present admins is mapping them, and removing any one admin empties the list |
| CompanyUserManagement.MappedFieldsPresent | src/pages/dashboard/CompanyUserManagement.jsx:38-41 | no row has an empty role, status or device, and a present status or device is shown as sent |
| CompanyUserManagement.FilteredUsers | src/pages/dashboard/CompanyUserManagement.jsx:55-62 | every listed user passes the three tests |
| CompanyUserManagement.FilteredUsersMeaning | src/pages/dashboard/CompanyUserManagement.jsx:55-62 | a user is listed exactly when the role filter is "All" or equal, the status filter is "All" or equal, and name or email contains the search; order is kept |
| CompanyUserManagement.ToggleUserStatus | src/pages/dashboard/CompanyUserManagement.jsx:64-75 | only the users with that id change, and only their status: "Active" becomes "Suspended", anything else "Active" |
| CompanyUserManagement.ToggleTwice | src/pages/dashboard/CompanyUserManagement.jsx:68-74 | two toggles restore "Active"/"Suspended" rows, and leave any other status as "Suspended" |
| CompanyDashboard.HandleSearch | src/pages/dashboard/Dashboard.jsx:64-71 | the companies are untouched and every shown company matches |
| CompanyDashboard.HandleSearchMeaning | src/pages/dashboard/Dashboard.jsx:64-71 | a company is shown exactly when its name or owner email contains the search; order is kept |
| CompanyDashboard.NextStatus | src/pages/dashboard/Dashboard.jsx:74-75 | "Active" becomes "Suspended"; every other status, "Trial" included, becomes "Active" |
| CompanyDashboard.ToggleStatus | src/pages/dashboard/Dashboard.jsx:73-86 | both lists receive the same per-row update |
| CompanyDashboard.ToggleTouchesOnlyStatus | src/pages/dashboard/Dashboard.jsx:76-80 | only the status of the rows with that id changes |
| CompanyDashboard.FilterMapCommute | src/pages/dashboard/Dashboard.jsx:76-85 | searching after the toggle equals toggling the search result |
| CompanyDashboard.ToggleKeepsSearch | src/pages/dashboard/Dashboard.jsx:73-86 | a shown list that was a search result stays that search's result after a toggle |
| CompanyDashboard.HandleDelete | src/pages/dashboard/Dashboard.jsx:88-91 | the companies are untouched, no shown row has the chosen id, and the dialog closes |
| CompanyDashboard.DeleteOnlyHides | src/pages/dashboard/Dashboard.jsx:88-91 | exactly the rows with the chosen id are hidden, and a later search brings them back |
| CompanyDashboard.DaysLeft | src/pages/dashboard/Dashboard.jsx:93-98 | "Expired" exactly for a negative difference, "<n> days" otherwise |
| CompanyDashboard.DaysLeftRoundTrip | src/pages/dashboard/Dashboard.jsx:97 | the digits before " days" read back as the difference |
| TenantCreate.FilteredTenants | src/pages/dashboard/TenantCreate.jsx:79-88 | every listed item matches the search |
| TenantCreate.FilteredTenantsMeaning | src/pages/dashboard/TenantCreate.jsx:79-88 | an item is listed exactly when the tenant name, admin name or admin email (missing as "") contains the search; order is kept; an empty search lists all |
| TenantCreate.DeleteTenant | src/pages/dashboard/TenantCreate.jsx:55 | no remaining item has the deleted tenant id |
| TenantCreate.DeleteTenantMeaning | src/pages/dashboard/TenantCreate.jsx:55 | exactly the items with that tenant id go; the rest keep their order |
| TenantCreate.UsagePercent | src/pages/dashboard/TenantCreate.jsx:207-212 | 0 without a (non-zero) limit; otherwise the integer within one half of `100 * used / max` |
| TenantCreate.UsagePercentMonotone | src/pages/dashboard/TenantCreate.jsx:207-212 | a larger count never shows a smaller percentage |
| TenantCreate.UsageAtLimit | src/pages/dashboard/TenantCreate.jsx:207-212 | a count at the limit shows 100, and a count at or over it at least 100 |
| TenantCreate.BarWidth | src/pages/dashboard/TenantCreate.jsx:235 | the width is the percentage capped at 100 |
| TenantCreate.ClassFor | src/pages/dashboard/TenantCreate.jsx:231-234 | destructive exactly from 90, amber exactly from 75 below 90, primary exactly below 75 |
| TenantCreate.ClassMonotone | src/pages/dashboard/TenantCreate.jsx:231-234 | a higher percentage never shows a calmer colour |
| TenantCreate.UsageBar | src/pages/dashboard/TenantCreate.jsx:227-238 | a bar exists exactly under a non-zero limit, is at most 100 wide, and is full and destructive at or over the limit |
| TenantCreate.LoadError | src/pages/dashboard/TenantCreate.jsx:40-42 | the authentication message exactly for a 401, the generic one for every other failure |
| TenantUserManager.FilteredUsers | src/pages/dashboard/TenantUserManager.jsx:62-66 | every listed user matches the search |
| TenantUserManager.FilteredUsersMeaning | src/pages/dashboard/TenantUserManager.jsx:62-66 | a user is listed exactly when full name or email contains the search ignoring case; order is kept; an empty search lists everyone |
| TenantUserManager.Select | src/pages/dashboard/TenantUserManager.jsx:126 | "View / Edit" opens the panel on that user and changes nothing else |
| TenantUserManager.Close | src/pages/dashboard/TenantUserManager.jsx:148 | the close button empties the panel and changes nothing else |
| TenantUserManager.ChangeRole | src/pages/dashboard/TenantUserManager.jsx:178-180 | the role takes the new value and nothing else about the user changes |
| TenantUserManager.SetPermission | src/pages/dashboard/TenantUserManager.jsx:198-205 | that permission takes the box's state; the other permissions and every other field are kept |
| TenantUserManager.PermissionToggleTwice | src/pages/dashboard/TenantUserManager.jsx:192-205 | clicking a shown box twice gives the user back |
| TenantUserManager.EditRole | src/pages/dashboard/TenantUserManager.jsx:176-180 | a role edit changes only the selected copy, never the table |
| TenantUserManager.EditPermission | src/pages/dashboard/TenantUserManager.jsx:198-205 | a permission edit changes only the selected copy, never the table |
| TenantUserManager.EditsLeaveTable | src/pages/dashboard/TenantUserManager.jsx:176-205 | after panel edits the table lists the same rows, and the panel still shows the same user |
| TenantUserManager.StatusTone | src/pages/dashboard/TenantUserManager.jsx:113-118 | green exactly for "Active", red exactly for "Suspended", yellow otherwise |
| TenantUserManager.AccountAction | src/pages/dashboard/TenantUserManager.jsx:241-243 | the button offers activation exactly for a suspended user |

## Left out

- Network transport: the model leaves out the HTTP calls, the axios instance configuration, cookies and the actual replay of requests. Each server answer is an input outcome. A replay is recorded as a `Replayed` settlement.
- Promises and real interleaving are left out. The coordinator is a sequential state machine over events. An outcome that arrives when no refresh is in flight is ignored.
- `window.location` and react-router navigation are left out. Only the redirect target is recorded.
- `jwtDecode`, `Date.now`, `moment` and JS `Date` are not modelled. They become a decoder parameter, an integer clock, and integer dates and day differences.
- Periodic proactive refresh: the timer in the authenticated shell lives in the layout and app files, which are not part of this model.
- `handleSubmit` in Plan.jsx and TenantForm.jsx is modelled only through its parts. The parts are the payload, `fetchPlans` and `handleFormClose`; the POST/PUT itself is network.
- TenantCreate.jsx's `handleEdit`, `handleFormClose` and `handleFormSuccess` are left out because they only toggle dialog visibility and refetch.
- `exportData`, `formatCurrency` (`Intl`), `getStatusColor` and `getProgressColor` in AdminProjectList.jsx are left out because they are presentational. So are the role colour tables and the permission-label capitalisation in TenantUserManager.jsx.
- The recent-logins list in TenantUserManager.jsx is left out because it is presentational.
- Text.Matches: `toLowerCase` is modelled on ASCII letters only, without Unicode case mapping.
- TenantCreate.UsagePercent: exact rational rounding is used for `Math.round(used / max * 100)`. The source rounds a floating-point product, which can differ at exact halves. For example, 29/200 gives 14 in doubles where exact arithmetic gives 15. Usage counts and limits are non-negative integers, and a missing `createdUsers` (a `NaN` percentage) is not modelled.
- CompanyDashboard.DaysLeft: the model takes the whole-day difference as given, without computing it from two dates.
- CompanyDashboard.HandleDelete: the model receives the selected company. The source throws when nothing is selected, which its confirm dialog prevents.
- BillingList.PlanMap: object key order is modelled as insertion order. JS puts integer-like keys first, so a plan named like an array index would be listed earlier. Names of inherited `Object` properties are modelled (they are dropped); other prototype changes are not.
- TenantForm.FilteredPlans: the same key-order simplification for `Object.keys(planGroups)`. The throw on an inherited name is stated by `TenantForm.OfferedPlans`, not by this member.
- BillingList.PlansArray: a tenants list that is `null` or not an array (the guard at BillingList.jsx:52) is not modelled; the list is always a sequence.
- CompanyUserManagement.Capitalize: upper-casing is modelled on ASCII letters only. JS `toUpperCase` also maps other scripts and can lengthen a string ("ß" becomes "SS"), and `charAt(0)` takes one UTF-16 unit, so it splits a character outside the Basic Multilingual Plane.
- HttpClient.RunPreservesInv: the bound counts only the interceptor's refreshes. The refresh that `initializeAuth` dispatches (authSlice.js:89-90) does not look at `isRefreshing`, so it can overlap one started by the interceptor; the model does not bound that pair.
- AuthSlice.Logout: states the thunk's own steps. The backend call is a request like any other; its 401 path through the refresh protocol is `HttpClient.LogoutUnauthorizedRestoresToken`, at the granularity of whole events.
- AdminBillingConsole.FilteredTenants: `isSubscriptionActive` is modelled by its truthiness only.
- PlanPage.FetchPlans: a refetch leaves `sortAsc` as it was, so after a toggle the flag can disagree with a freshly loaded list. The model states agreement only for the initial flag (`LoadedAgrees`).
- Storage failures (an unavailable `localStorage`) are not modelled. Storage is a total map.
- PlanPage.FetchPlans: prices are integers. The source sorts by `a.price - b.price` (Plan.jsx:74) on JS numbers, so fractional prices, and non-numeric ones whose difference is `NaN`, are not modelled.
- AdminBillingConsole.TotalIsSumOfContributions: amounts are integers. The source adds `payment.amount || 0` in floating point (AdminBillingConsole.jsx:320), so fractional amounts with their rounding, and non-numeric amounts (which `+` would concatenate), are not modelled.

## Findings

| source | as written | input that shows it | evidently intended | confidence | as-written member | corrected member |
|---|---|---|---|---|---|---|
| src/pages/dashboard/Plan.jsx:169-170 | `plan.razorpayPlanId.toLowerCase()` is evaluated whenever the name does not match the search, even when the plan has no Razorpay id, so the filter throws and the page's render fails | a plan named "Basic" with no `razorpayPlanId`, searched for "pro" | a missing Razorpay id reads as "" (as `handleEdit` already does at line 106), so that plan is simply not shown | low, not executed | PlanPage.MissingRazorpayIdThrows | PlanPage.FilteredPlans |
