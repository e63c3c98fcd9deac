/** The tenant list page: its search, the removal of a deleted tenant,
    the usage bars (percentage, width and colour) and the load error
    message. Usage counts and plan limits are non-negative integers. */
module TenantCreate {
  import opened Wrappers
  import opened Text
  import opened Seqs

  /** The limits of a tenant's populated plan; a missing limit is absent. */
  datatype PlanLimits = PlanLimits(maxUsers: Option<nat>, maxProjects: Option<nat>)

  datatype Tenant = Tenant(id: string, name: Option<string>, createdUsers: nat, createdProjects: nat,
                           plan: Option<PlanLimits>)

  datatype Admin = Admin(name: Option<string>, email: Option<string>)

  /** One element of the list: `{ tenant, admin }`. */
  datatype Item = Item(tenant: Tenant, admin: Option<Admin>)

  // ---- Search ----

  /** `String(x ?? "")`: a missing text is searched as "". */
  function TextOf(x: Option<string>): string {
    x.GetOr("")
  }

  function AdminName(item: Item): string {
    if item.admin.Some? then TextOf(item.admin.value.name) else ""
  }

  function AdminEmail(item: Item): string {
    if item.admin.Some? then TextOf(item.admin.value.email) else ""
  }

  /** The row test: tenant name, admin name or admin email contains the
      search, ignoring case. */
  predicate Hit(item: Item, search: string) {
    Matches(TextOf(item.tenant.name), search) || Matches(AdminName(item), search) || Matches(AdminEmail(item), search)
  }

  /** `filteredTenants`. */
  function FilteredTenants(items: seq<Item>, search: string): (r: seq<Item>)
    ensures |r| <= |items|
    ensures forall i | 0 <= i < |r| :: Hit(r[i], search)
  {
    Filter(items, (item: Item) => Hit(item, search))
  }

  /** An item is listed exactly when one of its three texts matches; order
      is kept; an empty search lists everything. */
  lemma FilteredTenantsMeaning(items: seq<Item>, search: string, item: Item)
    ensures item in FilteredTenants(items, search) <==>
      && item in items
      && (|| Matches(item.tenant.name.GetOr(""), search)
          || (item.admin.Some? && Matches(item.admin.value.name.GetOr(""), search))
          || (item.admin.Some? && Matches(item.admin.value.email.GetOr(""), search))
          || (item.admin.None? && Matches("", search)))
    ensures IsSubseq(FilteredTenants(items, search), items)
    ensures FilteredTenants(items, "") == items
  {
    FilterMember(items, (x: Item) => Hit(x, search), item);
    FilterIsSubseq(items, (x: Item) => Hit(x, search));
    forall i | 0 <= i < |items| ensures Hit(items[i], "") {
      MatchesEmpty(TextOf(items[i].tenant.name));
    }
    FilterKeepsAll(items, (x: Item) => Hit(x, ""));
  }

  // ---- Deletion ----

  /** After a successful delete: the items whose tenant has that id go. */
  function DeleteTenant(items: seq<Item>, id: string): (r: seq<Item>)
    ensures forall i | 0 <= i < |r| :: r[i].tenant.id != id
  {
    Filter(items, (item: Item) => item.tenant.id != id)
  }

  /** Exactly the items with that tenant id go; the rest keep their order. */
  lemma DeleteTenantMeaning(items: seq<Item>, id: string, item: Item)
    ensures item in DeleteTenant(items, id) <==> item in items && item.tenant.id != id
    ensures IsSubseq(DeleteTenant(items, id), items)
  {
    FilterMember(items, (x: Item) => x.tenant.id != id, item);
    FilterIsSubseq(items, (x: Item) => x.tenant.id != id);
  }

  // ---- Usage bars ----

  /** A limit in a boolean position: missing and 0 are falsy. */
  predicate HasLimit(max: Option<nat>) {
    max.Some? && max.value != 0
  }

  /** `max ? Math.round(used / max * 100) : 0`, in exact arithmetic: the
      integer nearest to the percentage, halves rounded up; 0 without a
      limit, which keeps the division away from a zero limit. */
  function UsagePercent(used: nat, max: Option<nat>): (r: nat)
    ensures !HasLimit(max) ==> r == 0
    ensures HasLimit(max) ==> (2 * r - 1) * max.value <= 200 * used < (2 * r + 1) * max.value
  {
    if !HasLimit(max) then 0
    else
      var m := max.value;
      var r := (200 * used + m) / (2 * m);
      assert 2 * m * r <= 200 * used + m < 2 * m * (r + 1);
      r
  }

  /** Cancelling a positive factor from a strict inequality. */
  lemma CancelLt(x: int, y: int, m: int)
    requires m > 0 && x * m < y * m
    ensures x < y
  {
  }

  /** Cancelling a positive factor from a weak inequality. */
  lemma CancelLe(x: int, y: int, m: int)
    requires m > 0 && x * m <= y * m
    ensures x <= y
  {
  }

  /** A bigger count never shows a smaller percentage. */
  lemma UsagePercentMonotone(a: nat, b: nat, max: Option<nat>)
    requires a <= b
    ensures UsagePercent(a, max) <= UsagePercent(b, max)
  {
    if HasLimit(max) {
      var ra, rb := UsagePercent(a, max), UsagePercent(b, max);
      CancelLt(2 * (ra as int) - 1, 2 * rb + 1, max.value);
    }
  }

  /** A count at the limit shows 100, and a count at or over it at least
      100. */
  lemma UsageAtLimit(used: nat, max: Option<nat>)
    requires HasLimit(max) && used >= max.value
    ensures UsagePercent(used, max) >= 100
    ensures used == max.value ==> UsagePercent(used, max) == 100
  {
    var m := max.value;
    var r := UsagePercent(used, max);
    assert 200 * m <= 200 * used;
    CancelLt(200, 2 * r + 1, m);
    if used == m {
      CancelLe(2 * (r as int) - 1, 200, m);
    }
  }

  /** `Math.min(percent, 100)`: the bar never overflows its track. */
  function BarWidth(percent: nat): (r: nat)
    ensures r <= 100 && r <= percent
    ensures r == percent || r == 100
  {
    if percent < 100 then percent else 100
  }

  /** The bar colours, from calm to alarming. */
  datatype BarClass = Primary | Amber | Destructive

  function Rank(c: BarClass): nat {
    match c
    case Primary => 0
    case Amber => 1
    case Destructive => 2
  }

  /** Destructive at 90 and above, amber from 75, primary below. */
  function ClassFor(percent: int): (r: BarClass)
    ensures r == Destructive <==> percent >= 90
    ensures r == Amber <==> 75 <= percent < 90
    ensures r == Primary <==> percent < 75
  {
    if percent >= 90 then Destructive else if percent >= 75 then Amber else Primary
  }

  /** A higher percentage never shows a calmer colour. */
  lemma ClassMonotone(p: int, q: int)
    requires p <= q
    ensures Rank(ClassFor(p)) <= Rank(ClassFor(q))
  {
  }

  /** The bar is drawn only under a limit. */
  datatype Bar = Bar(width: nat, colour: BarClass)

  /** The usage cell's bar: none without a limit; with one, the width and
      colour of the usage percentage. */
  function UsageBar(used: nat, max: Option<nat>): (r: Option<Bar>)
    ensures r.Some? <==> HasLimit(max)
    ensures r.Some? ==> r.value.width <= 100
    ensures r.Some? && used >= max.value ==> r.value == Bar(100, Destructive)
  {
    if !HasLimit(max) then None
    else
      var p := UsagePercent(used, max);
      var bar := Bar(BarWidth(p), ClassFor(p));
      if used >= max.value then UsageAtLimit(used, max); Some(bar) else Some(bar)
  }

  // ---- Load error ----

  const AuthFailed: string := "Authentication failed. Please check your credentials."
  const LoadFailed: string := "Failed to load data. Please try again later."

  /** The error banner after a failed load: the authentication message for
      a 401 response, the generic one for every other failure (including
      one without a response). */
  function LoadError(status: Option<int>): (r: string)
    ensures r == AuthFailed <==> status == Some(401)
    ensures r == LoadFailed <==> status != Some(401)
  {
    if status == Some(401) then AuthFailed else LoadFailed
  }
}
