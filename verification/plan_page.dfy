/** The subscription-plan page: loading and price-sorting the plans, the
    sort toggle, deletion, the search and status filter, and the edit form
    (its defaults, its change handler and its reset). Prices are integers. */
module PlanPage {
  import opened Wrappers
  import opened Text
  import opened Seqs

  /** A plan as the server returns it; optional fields may be missing. */
  datatype PlanItem = PlanItem(
    id: string, name: string, maxUsers: int, maxProjects: int, maxStorageMB: int, price: int,
    currency: Option<string>, billingCycle: Option<string>, razorpayPlanId: Option<string>,
    isActive: Option<bool>)

  /** `isActive` in a boolean position: only a present `true` is truthy. */
  predicate Active(p: PlanItem) {
    p.isActive == Some(true)
  }

  // ---- Loading and sorting ----

  /** The body of the list response: an object with a `plans` array, a
      bare array, or something else. */
  datatype PlansData = WithPlans(plans: seq<PlanItem>) | Bare(items: seq<PlanItem>) | Other

  /** The list request's outcome: a body, or a failure carrying the
      server's message when there is one. */
  datatype FetchOutcome = Loaded(data: PlansData) | Failed(message: Option<string>)

  const LoadFailed: string := "Failed to load plans. Please try again."

  function Price(p: PlanItem): int {
    p.price
  }

  function NegPrice(p: PlanItem): int {
    -p.price
  }

  /** Cheapest first. */
  predicate Ascending(s: seq<PlanItem>) {
    forall i, j | 0 <= i < j < |s| :: s[i].price <= s[j].price
  }

  /** Dearest first. */
  predicate Descending(s: seq<PlanItem>) {
    forall i, j | 0 <= i < j < |s| :: s[i].price >= s[j].price
  }

  /** `fetchPlans`: the `plans` array (or the bare array) sorted by price,
      cheapest first; a body of another shape makes `sort` throw, and every
      failure ends in the server's message or the fixed fallback. */
  function FetchPlans(outcome: FetchOutcome): (r: Result<seq<PlanItem>, string>)
    ensures r.Ok? <==> outcome.Loaded? && !outcome.data.Other?
    ensures r.Ok? ==> Ascending(r.value)
    ensures r.Ok? && outcome.data.WithPlans? ==> multiset(r.value) == multiset(outcome.data.plans)
    ensures r.Ok? && outcome.data.Bare? ==> multiset(r.value) == multiset(outcome.data.items)
    ensures outcome.Failed? ==> r == Err(OrElse(outcome.message, LoadFailed))
    ensures outcome.Loaded? && outcome.data.Other? ==> r == Err(LoadFailed)
  {
    match outcome
    case Failed(message) => Err(OrElse(message, LoadFailed))
    case Loaded(data) =>
      match data
      case WithPlans(plans) => Ok(SortBy(plans, Price))
      case Bare(items) => Ok(SortBy(items, Price))
      case Other => Err(LoadFailed)
  }

  /** The list and the direction flag. */
  datatype Listing = Listing(plans: seq<PlanItem>, sortAsc: bool)

  /** `toggleSort`: sorts dearest first when the flag was set and cheapest
      first otherwise (reading the flag before the flip), then flips it. */
  function ToggleSort(l: Listing): (r: Listing)
    ensures r.sortAsc == !l.sortAsc
    ensures multiset(r.plans) == multiset(l.plans)
    ensures l.sortAsc ==> Descending(r.plans)
    ensures !l.sortAsc ==> Ascending(r.plans)
  {
    var sorted := if l.sortAsc then SortBy(l.plans, NegPrice) else SortBy(l.plans, Price);
    Listing(sorted, !l.sortAsc)
  }

  /** The flag says the list is cheapest first; cleared, dearest first. */
  predicate FlagAgrees(l: Listing) {
    if l.sortAsc then Ascending(l.plans) else Descending(l.plans)
  }

  /** A freshly loaded list agrees with the initial flag. */
  lemma LoadedAgrees(outcome: FetchOutcome)
    requires FetchPlans(outcome).Ok?
    ensures FlagAgrees(Listing(FetchPlans(outcome).value, true))
  {
  }

  /** Toggling sorts against the flag it reads, so after the flip the flag
      names the order the list is in, whatever the list was before. */
  lemma ToggleMakesFlagAgree(l: Listing)
    ensures FlagAgrees(ToggleSort(l))
    ensures FlagAgrees(ToggleSort(ToggleSort(l)))
  {
  }

  // ---- Deletion ----

  /** `handleDelete` after the server call succeeds: drops the plans with
      that id. */
  function DeletePlan(plans: seq<PlanItem>, id: string): (r: seq<PlanItem>)
    ensures forall i | 0 <= i < |r| :: r[i].id != id
  {
    Filter(plans, (p: PlanItem) => p.id != id)
  }

  /** Exactly the plans with that id go, the rest keep their order, and a
      sorted list stays sorted. */
  lemma DeletePlanMeaning(plans: seq<PlanItem>, id: string, p: PlanItem)
    ensures p in DeletePlan(plans, id) <==> p in plans && p.id != id
    ensures IsSubseq(DeletePlan(plans, id), plans)
    ensures Ascending(plans) ==> Ascending(DeletePlan(plans, id))
  {
    FilterMember(plans, (q: PlanItem) => q.id != id, p);
    FilterIsSubseq(plans, (q: PlanItem) => q.id != id);
    if Ascending(plans) {
      FilterKeepsSorted(plans, (q: PlanItem) => q.id != id);
    }
  }

  /** Filtering keeps a cheapest-first list cheapest first. */
  lemma {:induction false} FilterKeepsSorted(s: seq<PlanItem>, p: PlanItem -> bool)
    requires Ascending(s)
    ensures Ascending(Filter(s, p))
  {
    if s != [] {
      FilterKeepsSorted(s[1..], p);
      var rest := Filter(s[1..], p);
      forall q | q in rest ensures s[0].price <= q.price {
        FilterMember(s[1..], p, q);
      }
    }
  }

  // ---- Search and status filter ----

  /** The status drop-down: "all", "active" with a truthy `isActive`, or
      "inactive" with a falsy one; any other value keeps nothing. */
  predicate StatusHit(p: PlanItem, status: string) {
    status == "all" || (status == "active" && Active(p)) || (status == "inactive" && !Active(p))
  }

  /** The search test, with a missing Razorpay id read as "". */
  predicate SearchHit(p: PlanItem, search: string) {
    Matches(p.name, search) || Matches(p.razorpayPlanId.GetOr(""), search)
  }

  /** `filteredPlans` as the page evidently means it: name or Razorpay id
      contains the search, ignoring case, and the status test passes. */
  function FilteredPlans(plans: seq<PlanItem>, search: string, status: string): (r: seq<PlanItem>)
    ensures forall i | 0 <= i < |r| :: SearchHit(r[i], search) && StatusHit(r[i], status)
  {
    Filter(plans, (p: PlanItem) => SearchHit(p, search) && StatusHit(p, status))
  }

  /** A plan is shown exactly when it passes both tests; order is kept. */
  lemma FilteredPlansMeaning(plans: seq<PlanItem>, search: string, status: string, p: PlanItem)
    ensures p in FilteredPlans(plans, search, status) <==>
      && p in plans
      && (Matches(p.name, search) || Matches(p.razorpayPlanId.GetOr(""), search))
      && (status == "all" || (status == "active" && Active(p)) || (status == "inactive" && !Active(p)))
    ensures IsSubseq(FilteredPlans(plans, search, status), plans)
  {
    FilterMember(plans, (q: PlanItem) => SearchHit(q, search) && StatusHit(q, status), p);
    FilterIsSubseq(plans, (q: PlanItem) => SearchHit(q, search) && StatusHit(q, status));
  }

  /** The active and inactive views split the "all" view between them. */
  lemma {:induction false} StatusViewsPartition(plans: seq<PlanItem>, search: string)
    ensures |FilteredPlans(plans, search, "active")| + |FilteredPlans(plans, search, "inactive")|
         == |FilteredPlans(plans, search, "all")|
  {
    if plans != [] {
      StatusViewsPartition(plans[1..], search);
    }
  }

  /** `filteredPlans` as written: `razorpayPlanId.toLowerCase()` is read
      whenever the name does not match, so a plan without the field throws
      and the page fails to render (`Err` carries that plan's id). */
  function FilteredPlansAsWritten(plans: seq<PlanItem>, search: string, status: string): (r: Result<seq<PlanItem>, string>)
    ensures r.Err? <==> exists i | 0 <= i < |plans| :: !Matches(plans[i].name, search) && plans[i].razorpayPlanId.None?
  {
    if plans == [] then Ok([])
    else
      var p := plans[0];
      var rest := FilteredPlansAsWritten(plans[1..], search, status);
      assert forall i | 1 <= i < |plans| :: plans[i] == plans[1..][i - 1];
      if !Matches(p.name, search) && p.razorpayPlanId.None? then Err(p.id)
      else if rest.Err? then rest
      else if SearchHit(p, search) && StatusHit(p, status) then Ok([p] + rest.value)
      else rest
  }

  /** Whenever the page as written does not throw, it shows the same list
      as the corrected filter; and where every plan has a Razorpay id it
      never throws. */
  lemma {:induction false} AsWrittenAgrees(plans: seq<PlanItem>, search: string, status: string)
    ensures FilteredPlansAsWritten(plans, search, status).Ok? ==>
      FilteredPlansAsWritten(plans, search, status).value == FilteredPlans(plans, search, status)
    ensures (forall i | 0 <= i < |plans| :: plans[i].razorpayPlanId.Some?) ==>
      FilteredPlansAsWritten(plans, search, status) == Ok(FilteredPlans(plans, search, status))
  {
    if plans != [] {
      AsWrittenAgrees(plans[1..], search, status);
    }
  }

  /** A plan without a Razorpay id whose name misses the search makes the
      page as written throw, while the corrected filter simply leaves the
      plan out. */
  lemma MissingRazorpayIdThrows()
    ensures var p := PlanItem("p1", "Basic", 5, 5, 100, 999, None, None, None, Some(true));
      && FilteredPlansAsWritten([p], "pro", "all") == Err("p1")
      && FilteredPlans([p], "pro", "all") == []
  {
    var p := PlanItem("p1", "Basic", 5, 5, 100, 999, None, None, None, Some(true));
    assert !Matches("Basic", "pro") by {
      assert ToLower("Basic") == "basic" && ToLower("pro") == "pro";
      forall i | 0 <= i <= 2 ensures !OccursAt("basic", "pro", i) {
        assert "basic"[i] != 'p';
      }
    }
  }

  // ---- The edit form ----

  /** A form value: text typed into an input, a number copied from a plan,
      or a checkbox state. */
  datatype Value = Text(s: string) | Num(n: int) | Flag(b: bool)

  /** The form, keyed by input name (`[name]: value` can add any key). */
  type Form = map<string, Value>

  /** The empty form the dialog opens with. */
  const DefaultForm: Form := map[
    "name" := Text(""), "maxUsers" := Text(""), "maxProjects" := Text(""),
    "maxStorageMB" := Text(""), "price" := Text(""), "currency" := Text("INR"),
    "billingCycle" := Text("monthly"), "razorpayPlanId" := Text(""), "isActive" := Flag(true)]

  /** The dialog's state. */
  datatype Dialog = Dialog(showForm: bool, editing: Option<PlanItem>, form: Form, formError: string)

  /** `handleEdit`: the plan's fields, with INR, monthly and "" standing in
      for a missing (or empty) currency, billing cycle and Razorpay id, and
      `true` only for a missing `isActive` (an explicit `false` is kept). */
  function HandleEdit(d: Dialog, plan: PlanItem): (r: Dialog)
    ensures r.showForm && r.editing == Some(plan) && r.formError == ""
    ensures r.form.Keys == DefaultForm.Keys
    ensures r.form["name"] == Text(plan.name) && r.form["price"] == Num(plan.price)
    ensures r.form["maxUsers"] == Num(plan.maxUsers) && r.form["maxProjects"] == Num(plan.maxProjects)
    ensures r.form["maxStorageMB"] == Num(plan.maxStorageMB)
    ensures r.form["currency"] == Text(if plan.currency.Some? && plan.currency.value != "" then plan.currency.value else "INR")
    ensures r.form["billingCycle"] == Text(if plan.billingCycle.Some? && plan.billingCycle.value != "" then plan.billingCycle.value else "monthly")
    ensures r.form["razorpayPlanId"] == Text(if plan.razorpayPlanId.Some? then plan.razorpayPlanId.value else "")
    ensures r.form["isActive"] == Flag(plan.isActive != Some(false))
  {
    var form := map[
      "name" := Text(plan.name), "maxUsers" := Num(plan.maxUsers), "maxProjects" := Num(plan.maxProjects),
      "maxStorageMB" := Num(plan.maxStorageMB), "price" := Num(plan.price),
      "currency" := Text(OrElse(plan.currency, "INR")),
      "billingCycle" := Text(OrElse(plan.billingCycle, "monthly")),
      "razorpayPlanId" := Text(OrElse(plan.razorpayPlanId, "")),
      "isActive" := Flag(plan.isActive.GetOr(true))];
    Dialog(true, Some(plan), form, "")
  }

  /** `handleInputChange`: the named entry takes the checkbox state or the
      typed text; nothing else changes, and the form error is cleared. */
  function HandleInputChange(d: Dialog, name: string, value: string, inputType: string, checked: bool): (r: Dialog)
    ensures name in r.form && r.form.Keys == d.form.Keys + {name}
    ensures r.form[name] == (if inputType == "checkbox" then Flag(checked) else Text(value))
    ensures forall k | k in d.form && k != name :: r.form[k] == d.form[k]
    ensures r.formError == ""
    ensures r.showForm == d.showForm && r.editing == d.editing
  {
    var v := if inputType == "checkbox" then Flag(checked) else Text(value);
    d.(form := d.form[name := v], formError := "")
  }

  /** `handleFormClose`: the dialog is hidden, nothing is being edited, and
      the form and its error are back to the defaults. */
  function HandleFormClose(d: Dialog): (r: Dialog)
    ensures !r.showForm && r.editing.None? && r.form == DefaultForm && r.formError == ""
  {
    Dialog(false, None, DefaultForm, "")
  }

  /** Closing after any edits gives the same dialog as closing at once. */
  lemma CloseForgetsEdits(d: Dialog, plan: PlanItem, name: string, value: string, inputType: string, checked: bool)
    ensures HandleFormClose(HandleInputChange(HandleEdit(d, plan), name, value, inputType, checked))
         == HandleFormClose(d)
  {
  }

  /** Editing a plan that has every optional field reproduces those fields. */
  lemma EditKeepsPresentFields(d: Dialog, plan: PlanItem)
    requires plan.currency.Some? && plan.currency.value != ""
    requires plan.billingCycle.Some? && plan.billingCycle.value != ""
    requires plan.razorpayPlanId.Some? && plan.isActive.Some?
    ensures HandleEdit(d, plan).form["currency"] == Text(plan.currency.value)
    ensures HandleEdit(d, plan).form["billingCycle"] == Text(plan.billingCycle.value)
    ensures HandleEdit(d, plan).form["razorpayPlanId"] == Text(plan.razorpayPlanId.value)
    ensures HandleEdit(d, plan).form["isActive"] == Flag(plan.isActive.value)
  {
  }
}
