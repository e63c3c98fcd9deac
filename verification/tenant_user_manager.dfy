/** The tenant user manager: the name-or-email search over the user table,
    and the detail panel, whose role and permission controls edit the
    selected user only (the table itself is never written back). */
module TenantUserManager {
  import opened Wrappers
  import opened Text
  import opened Seqs

  /** A user row; `permissions` maps a module name to whether it is granted. */
  datatype User = User(
    id: string, tenant: string, fullName: string, email: string, role: string,
    lastLogin: string, status: string, phone: string, permissions: map<string, bool>)

  /** The page: the table's users, the search box and the open panel. */
  datatype Manager = Manager(users: seq<User>, search: string, selected: Option<User>)

  /** The row test: full name or email contains the search, ignoring case. */
  predicate Hit(u: User, search: string) {
    Matches(u.fullName, search) || Matches(u.email, search)
  }

  /** `filteredUsers`. */
  function FilteredUsers(users: seq<User>, search: string): (r: seq<User>)
    ensures |r| <= |users|
    ensures forall i | 0 <= i < |r| :: Hit(r[i], search)
  {
    Filter(users, (u: User) => Hit(u, search))
  }

  /** A user is listed exactly when its name or email matches; order is
      kept; an empty search lists everyone. */
  lemma FilteredUsersMeaning(users: seq<User>, search: string, u: User)
    ensures u in FilteredUsers(users, search) <==>
      u in users && (Matches(u.fullName, search) || Matches(u.email, search))
    ensures IsSubseq(FilteredUsers(users, search), users)
    ensures FilteredUsers(users, "") == users
  {
    FilterMember(users, (x: User) => Hit(x, search), u);
    FilterIsSubseq(users, (x: User) => Hit(x, search));
    forall i | 0 <= i < |users| ensures Hit(users[i], "") {
      MatchesEmpty(users[i].fullName);
    }
    FilterKeepsAll(users, (x: User) => Hit(x, ""));
  }

  /** "View / Edit" opens the panel on a copy of the row. */
  function Select(m: Manager, u: User): (r: Manager)
    ensures r.selected == Some(u) && r.users == m.users && r.search == m.search
  {
    m.(selected := Some(u))
  }

  /** The close button empties the panel. */
  function Close(m: Manager): (r: Manager)
    ensures r.selected.None? && r.users == m.users && r.search == m.search
  {
    m.(selected := None)
  }

  /** The role drop-down: the new role replaces the old one and nothing
      else about the user changes. */
  function ChangeRole(u: User, role: string): (r: User)
    ensures r.role == role
    ensures r.(role := u.role) == u
  {
    u.(role := role)
  }

  /** A permission checkbox: that key takes the box's new state; the other
      keys and every other field are kept. */
  function SetPermission(u: User, key: string, checked: bool): (r: User)
    ensures key in r.permissions && r.permissions[key] == checked
    ensures r.permissions.Keys == u.permissions.Keys + {key}
    ensures forall k | k in u.permissions && k != key :: r.permissions[k] == u.permissions[k]
    ensures r.(permissions := u.permissions) == u
  {
    u.(permissions := u.permissions[key := checked])
  }

  /** Clicking a shown box twice gives the user back: the boxes are the
      user's own keys, and each click flips the state. */
  lemma PermissionToggleTwice(u: User, key: string)
    requires key in u.permissions
    ensures var v := u.permissions[key];
      SetPermission(SetPermission(u, key, !v), key, v) == u
  {
    var v := u.permissions[key];
    assert SetPermission(SetPermission(u, key, !v), key, v).permissions == u.permissions;
  }

  /** The panel's edits apply to the selected user; the panel exists, and
      so do its controls, only while a user is selected. */
  function EditRole(m: Manager, role: string): (r: Manager)
    requires m.selected.Some?
    ensures r.users == m.users && r.search == m.search
    ensures r.selected == Some(ChangeRole(m.selected.value, role))
  {
    m.(selected := Some(ChangeRole(m.selected.value, role)))
  }

  function EditPermission(m: Manager, key: string, checked: bool): (r: Manager)
    requires m.selected.Some?
    ensures r.users == m.users && r.search == m.search
    ensures r.selected == Some(SetPermission(m.selected.value, key, checked))
  {
    m.(selected := Some(SetPermission(m.selected.value, key, checked)))
  }

  /** Panel edits never reach the table: after any role and permission
      edits the listed rows are the ones listed before. */
  lemma EditsLeaveTable(m: Manager, role: string, key: string, checked: bool)
    requires m.selected.Some?
    ensures FilteredUsers(EditPermission(EditRole(m, role), key, checked).users, m.search)
         == FilteredUsers(m.users, m.search)
    ensures EditPermission(EditRole(m, role), key, checked).selected.value.id == m.selected.value.id
  {
  }

  /** The status colour: green for "Active", red for "Suspended", yellow
      for anything else. */
  datatype Tone = Green | Red | Yellow

  function StatusTone(status: string): (r: Tone)
    ensures r == Green <==> status == "Active"
    ensures r == Red <==> status == "Suspended"
    ensures r == Yellow <==> status != "Active" && status != "Suspended"
  {
    if status == "Active" then Green else if status == "Suspended" then Red else Yellow
  }

  const Activate: string := "Activate Account"
  const Suspend: string := "Suspend Account"

  /** The account button offers to activate a suspended user and to suspend
      any other. */
  function AccountAction(status: string): (r: string)
    ensures r == Activate <==> status == "Suspended"
    ensures r == Suspend <==> status != "Suspended"
  {
    if status == "Suspended" then Activate else Suspend
  }
}
