/** Company user management: one user row per tenant, built from the
    tenant's administrator with defaults for missing fields, the role,
    status and search filters, and the status toggle. */
module CompanyUserManagement {
  import opened Wrappers
  import opened Text
  import opened Seqs

  /** A tenant's administrator as the server sends it; every field may be
      missing. */
  datatype Admin = Admin(
    id: string, name: Option<string>, email: Option<string>, phone: Option<string>,
    role: Option<string>, status: Option<string>, lastLogin: Option<int>, device: Option<string>)

  /** A row of the user table. */
  datatype User = User(
    id: string, fullName: Option<string>, email: Option<string>, phone: Option<string>,
    role: string, status: string, lastLogin: Option<int>, device: string)

  const DefaultRole: string := "Admin"
  const DefaultStatus: string := "Active"
  const DefaultDevice: string := "N/A"

  /** `role?.charAt(0).toUpperCase() + role?.slice(1) || "Admin"`: a missing
      role concatenates two `undefined`s into a falsy `NaN`, and an empty
      role gives "", so both fall back to "Admin"; otherwise the first
      letter is upper-cased and the rest kept. */
  function Capitalize(role: Option<string>): (r: string)
    ensures role.None? || role.value == "" ==> r == DefaultRole
    ensures role.Some? && role.value != "" ==>
      |r| == |role.value| && r[0] == UpperChar(role.value[0]) && r[1..] == role.value[1..]
  {
    if role.None? || role.value == "" then DefaultRole
    else [UpperChar(role.value[0])] + role.value[1..]
  }

  /** Capitalising an already capitalised role changes nothing. */
  lemma CapitalizeIdempotent(role: Option<string>)
    ensures Capitalize(Some(Capitalize(role))) == Capitalize(role)
  {
  }

  /** One administrator as a user row. */
  function ToUser(a: Admin): (u: User)
    ensures u.id == a.id && u.fullName == a.name && u.email == a.email && u.phone == a.phone
    ensures u.lastLogin == a.lastLogin
    ensures u.role == Capitalize(a.role)
    ensures u.status == OrElse(a.status, DefaultStatus) && u.device == OrElse(a.device, DefaultDevice)
  {
    User(a.id, a.name, a.email, a.phone, Capitalize(a.role), OrElse(a.status, DefaultStatus),
         a.lastLogin, OrElse(a.device, DefaultDevice))
  }

  /** The mapping: one row per tenant, in order. */
  function MapUsers(admins: seq<Admin>): (r: seq<User>)
    ensures |r| == |admins|
    ensures forall i | 0 <= i < |admins| :: r[i] == ToUser(admins[i])
  {
    Map(admins, ToUser)
  }

  /** The fetch: `tenantsData.map` reads `item.admin._id` first, so an
      item without an administrator throws; the catch only logs, and
      `users` keeps its initial empty list. Otherwise one row per tenant,
      in order. */
  function LoadUsers(admins: seq<Option<Admin>>): (r: seq<User>)
    ensures (forall i | 0 <= i < |admins| :: admins[i].Some?) ==>
      |r| == |admins| && forall i | 0 <= i < |admins| :: r[i] == ToUser(admins[i].value)
    ensures (exists i | 0 <= i < |admins| :: admins[i].None?) ==> r == []
  {
    match AllPresent(admins)
    case Some(a) => MapUsers(a)
    case None => []
  }

  /** With every administrator present the fetch is the mapping; one
      missing administrator hides every row. */
  lemma LoadedAsMapped(items: seq<Option<Admin>>, admins: seq<Admin>, i: int)
    requires |items| == |admins| && forall k | 0 <= k < |items| :: items[k] == Some(admins[k])
    requires 0 <= i < |items|
    ensures LoadUsers(items) == MapUsers(admins)
    ensures LoadUsers(items[i := None]) == []
  {
    AllPresentOfValues(items, admins);
    assert items[i := None][i].None?;
  }

  /** The defaults leave no row with an empty role, status or device, and
      a present, non-empty status or device is shown as sent. */
  lemma MappedFieldsPresent(admins: seq<Admin>, i: int)
    requires 0 <= i < |admins|
    ensures var u := MapUsers(admins)[i];
      u.role != "" && u.status != "" && u.device != ""
    ensures var a := admins[i]; a.status.Some? && a.status.value != "" ==> MapUsers(admins)[i].status == a.status.value
    ensures var a := admins[i]; a.device.Some? && a.device.value != "" ==> MapUsers(admins)[i].device == a.device.value
  {
  }

  /** The three row tests: role and status filters ("All" or equal), and
      name or email containing the search, ignoring case (a missing field
      never matches). */
  predicate Keep(u: User, role: string, status: string, search: string) {
    && (role == "All" || u.role == role)
    && (status == "All" || u.status == status)
    && ((u.fullName.Some? && Matches(u.fullName.value, search))
        || (u.email.Some? && Matches(u.email.value, search)))
  }

  /** `filteredUsers`. */
  function FilteredUsers(users: seq<User>, role: string, status: string, search: string): (r: seq<User>)
    ensures |r| <= |users|
    ensures forall i | 0 <= i < |r| :: Keep(r[i], role, status, search)
  {
    Filter(users, (u: User) => Keep(u, role, status, search))
  }

  /** A user is listed exactly when all three tests pass; order is kept. */
  lemma FilteredUsersMeaning(users: seq<User>, role: string, status: string, search: string, u: User)
    ensures u in FilteredUsers(users, role, status, search) <==>
      && u in users
      && (role == "All" || u.role == role)
      && (status == "All" || u.status == status)
      && ((u.fullName.Some? && Matches(u.fullName.value, search))
          || (u.email.Some? && Matches(u.email.value, search)))
    ensures IsSubseq(FilteredUsers(users, role, status, search), users)
  {
    FilterMember(users, (x: User) => Keep(x, role, status, search), u);
    FilterIsSubseq(users, (x: User) => Keep(x, role, status, search));
  }

  /** The status after a toggle: "Active" becomes "Suspended", anything
      else becomes "Active". */
  function Toggled(status: string): string {
    if status == "Active" then "Suspended" else "Active"
  }

  /** `toggleUserStatus(id)`: only the rows with that id change, and only
      their status. */
  function ToggleUserStatus(users: seq<User>, id: string): (r: seq<User>)
    ensures |r| == |users|
    ensures forall i | 0 <= i < |users| && users[i].id != id :: r[i] == users[i]
    ensures forall i | 0 <= i < |users| && users[i].id == id ::
      r[i].(status := users[i].status) == users[i]
      && (r[i].status == "Suspended" <==> users[i].status == "Active")
      && (r[i].status == "Active" <==> users[i].status != "Active")
  {
    Map(users, (u: User) => if u.id == id then u.(status := Toggled(u.status)) else u)
  }

  /** Two toggles restore a list whose toggled rows were "Active" or
      "Suspended"; a row in any other state ends "Suspended". */
  lemma ToggleTwice(users: seq<User>, id: string)
    ensures var r := ToggleUserStatus(ToggleUserStatus(users, id), id);
      forall i | 0 <= i < |users| ::
        r[i] == if users[i].id == id && users[i].status != "Active" && users[i].status != "Suspended"
                then users[i].(status := "Suspended") else users[i]
  {
  }
}
