/** The billing list: the plan drop-down, built by folding the tenants'
    plans into a name-keyed object that a later plan overwrites only when
    it is strictly newer, and the tenant table filtered by company name and
    plan. A missing name or plan makes the code that reads it throw, and
    the render with it. Dates are integers (milliseconds). */
module BillingList {
  import opened Wrappers
  import opened Text
  import opened Seqs
  import TenantForm

  type Plan = TenantForm.Plan

  /** One row of the tenant list; `plan` is the tenant's populated
      `planId`, null when the plan was not found. */
  datatype Tenant = Tenant(id: string, name: Option<string>, plan: Option<Plan>)

  /** `plansArray`: each tenant's plan, null ones included, one per tenant,
      in tenant order. */
  function PlansArray(tenants: seq<Tenant>): (r: seq<Option<Plan>>)
    ensures |r| == |tenants|
    ensures forall i | 0 <= i < |tenants| :: r[i] == tenants[i].plan
  {
    if tenants == [] then [] else [tenants[0].plan] + PlansArray(tenants[1..])
  }

  /** The plans whose names are the object's own keys once stored. */
  function OwnNamed(plans: seq<Plan>): seq<Plan> {
    Filter(plans, (p: Plan) => !TenantForm.InheritedName(p))
  }

  // ---- The plan map ----

  /** One `forEach` step on `planMap`, kept as its values in key-insertion
      order. A name inherited from `Object.prototype` already reads as
      truthy, and the date of the inherited value is no date, so such a
      plan is dropped; otherwise an unseen name is appended and a seen name
      is overwritten in its place only by a strictly newer plan. */
  function Place(m: seq<Plan>, p: Plan): (r: seq<Plan>)
    ensures |r| == |m| || |r| == |m| + 1
    ensures TenantForm.InheritedName(p) ==> r == m
  {
    if TenantForm.InheritedName(p) then m
    else if m == [] then [p]
    else if m[0].name == p.name then
      (if p.createdAt > m[0].createdAt then [p] + m[1..] else m)
    else [m[0]] + Place(m[1..], p)
  }

  /** A plan with an unseen name goes to the end, unless its name is
      inherited. */
  lemma {:induction false} PlaceNew(m: seq<Plan>, p: Plan)
    requires forall j | 0 <= j < |m| :: m[j].name != p.name
    ensures Place(m, p) == if TenantForm.InheritedName(p) then m else m + [p]
  {
    if m != [] && !TenantForm.InheritedName(p) {
      PlaceNew(m[1..], p);
      assert m == [m[0]] + m[1..];
    }
  }

  /** A plan with a seen name takes that entry's place when it is strictly
      newer, and leaves the map alone otherwise. */
  lemma {:induction false} PlaceExisting(m: seq<Plan>, p: Plan, i: nat)
    requires i < |m| && m[i].name == p.name
    requires forall j | 0 <= j < i :: m[j].name != p.name
    ensures Place(m, p) ==
      if TenantForm.InheritedName(p) then m
      else m[i := if p.createdAt > m[i].createdAt then p else m[i]]
  {
    if i > 0 && !TenantForm.InheritedName(p) {
      PlaceExisting(m[1..], p, i - 1);
    }
  }

  /** The map after visiting every plan in order; it never holds more
      plans than were visited. */
  function PlanMap(plans: seq<Plan>): (r: seq<Plan>)
    ensures |r| <= |plans|
  {
    if plans == [] then [] else Place(PlanMap(plans[..|plans| - 1]), plans[|plans| - 1])
  }

  /** The names of a sequence with one more plan. */
  lemma NamesSnoc(s: seq<Plan>, p: Plan)
    ensures TenantForm.Names(s + [p]) == TenantForm.Names(s) + [p.name]
  {
  }

  /** A plan of the input has its name among the input's names. */
  lemma NameOccurs(s: seq<Plan>, q: Plan)
    requires q in s
    ensures q.name in TenantForm.Names(s)
  {
    var i :| 0 <= i < |s| && s[i] == q;
    assert TenantForm.Names(s)[i] == q.name;
  }

  /** One group of a sequence with one more plan. */
  lemma GroupSnoc(s: seq<Plan>, p: Plan, name: string)
    ensures TenantForm.Group(s + [p], name)
         == TenantForm.Group(s, name) + (if p.name == name then [p] else [])
  {
    FilterAppend(s, [p], (q: Plan) => q.name == name);
  }

  /** The first of the newest after one more plan: the new plan when it is
      strictly newer, the old one otherwise. */
  lemma FirstNewestSnoc(g: seq<Plan>, m: Plan, p: Plan)
    requires TenantForm.IsFirstNewest(g, m)
    ensures TenantForm.IsFirstNewest(g + [p], if p.createdAt > m.createdAt then p else m)
  {
    var k :| 0 <= k < |g| && TenantForm.IsFirstNewestAt(g, k) && g[k] == m;
    var g' := g + [p];
    if p.createdAt > m.createdAt {
      assert TenantForm.IsFirstNewestAt(g', |g|);
    } else {
      assert TenantForm.IsFirstNewestAt(g', k);
    }
  }

  /** The distinct names after one more plan. */
  lemma DistinctNamesSnoc(s: seq<Plan>, p: Plan)
    ensures var names := Distinct(TenantForm.Names(s));
      Distinct(TenantForm.Names(s + [p])) == if p.name in names then names else names + [p.name]
  {
    NamesSnoc(s, p);
    var ns' := TenantForm.Names(s + [p]);
    assert ns'[..|ns'| - 1] == TenantForm.Names(s);
  }

  /** A name not seen so far has an empty group. */
  lemma UnseenGroupEmpty(s: seq<Plan>, name: string)
    requires name !in Distinct(TenantForm.Names(s))
    ensures TenantForm.Group(s, name) == []
  {
    var g := TenantForm.Group(s, name);
    if g != [] {
      FilterMember(s, (q: Plan) => q.name == name, g[0]);
      NameOccurs(s, g[0]);
    }
  }

  /** The fold step for an unseen, own name. */
  lemma PlaceStepNew(s: seq<Plan>, m: seq<Plan>, p: Plan)
    requires TenantForm.NewestPerName(s, m)
    requires !TenantForm.InheritedName(p)
    requires p.name !in Distinct(TenantForm.Names(s))
    ensures TenantForm.NewestPerName(s + [p], Place(m, p))
  {
    var names := Distinct(TenantForm.Names(s));
    var s' := s + [p];
    DistinctNamesSnoc(s, p);
    var names' := names + [p.name];
    PlaceNew(m, p);
    var r := m + [p];
    forall i | 0 <= i < |r|
      ensures r[i].name == names'[i] && TenantForm.IsFirstNewest(TenantForm.Group(s', names'[i]), r[i])
    {
      GroupSnoc(s, p, names'[i]);
      if i == |m| {
        UnseenGroupEmpty(s, p.name);
        assert TenantForm.Group(s', p.name) == [p];
        assert TenantForm.IsFirstNewestAt([p], 0);
      } else {
        assert r[i] == m[i] && names'[i] == names[i] && names[i] != p.name;
        assert TenantForm.Group(s', names[i]) == TenantForm.Group(s, names[i]);
        assert m[i].name == names[i] && TenantForm.IsFirstNewest(TenantForm.Group(s, names[i]), m[i]);
      }
    }
  }

  /** The fold step for a seen, own name. */
  lemma PlaceStepExisting(s: seq<Plan>, m: seq<Plan>, p: Plan, i0: nat)
    requires TenantForm.NewestPerName(s, m)
    requires !TenantForm.InheritedName(p)
    requires i0 < |Distinct(TenantForm.Names(s))| && Distinct(TenantForm.Names(s))[i0] == p.name
    ensures TenantForm.NewestPerName(s + [p], Place(m, p))
  {
    var names := Distinct(TenantForm.Names(s));
    var s' := s + [p];
    DistinctNamesSnoc(s, p);
    PlaceExisting(m, p, i0);
    var r := Place(m, p);
    forall i | 0 <= i < |r|
      ensures r[i].name == names[i] && TenantForm.IsFirstNewest(TenantForm.Group(s', names[i]), r[i])
    {
      GroupSnoc(s, p, names[i]);
      assert m[i].name == names[i] && TenantForm.IsFirstNewest(TenantForm.Group(s, names[i]), m[i]);
      if i == i0 {
        FirstNewestSnoc(TenantForm.Group(s, p.name), m[i0], p);
      } else {
        assert NoDuplicates(names) && names[i] != p.name;
        assert r[i] == m[i];
        assert TenantForm.Group(s', names[i]) == TenantForm.Group(s, names[i]);
      }
    }
  }

  /** One fold step keeps the newest-per-name description of the plans
      with own names seen so far. */
  lemma PlaceStep(s: seq<Plan>, m: seq<Plan>, p: Plan)
    requires TenantForm.NewestPerName(s, m)
    ensures TenantForm.NewestPerName(s + (if TenantForm.InheritedName(p) then [] else [p]), Place(m, p))
  {
    var names := Distinct(TenantForm.Names(s));
    if TenantForm.InheritedName(p) {
      assert s + [] == s;
    } else if p.name in names {
      var i0 :| 0 <= i0 < |names| && names[i0] == p.name;
      PlaceStepExisting(s, m, p, i0);
    } else {
      PlaceStepNew(s, m, p);
    }
  }

  /** The fold yields exactly the newest-per-name list of the plans with
      own names. */
  lemma {:induction false} PlanMapNewestPerName(plans: seq<Plan>)
    ensures TenantForm.NewestPerName(OwnNamed(plans), PlanMap(plans))
  {
    if plans != [] {
      var s, p := plans[..|plans| - 1], plans[|plans| - 1];
      PlanMapNewestPerName(s);
      PlaceStep(OwnNamed(s), PlanMap(s), p);
      assert s + [p] == plans;
      FilterAppend(s, [p], (q: Plan) => !TenantForm.InheritedName(q));
      assert Filter([p], (q: Plan) => !TenantForm.InheritedName(q))
          == if TenantForm.InheritedName(p) then [] else [p];
    }
  }

  /** No plan named after an `Object.prototype` member reaches the
      drop-down. */
  lemma PrototypeNamesDropped(plans: seq<Plan>)
    ensures forall q | q in PlanMap(plans) :: !TenantForm.InheritedName(q)
  {
    PlanMapNewestPerName(plans);
    var own := OwnNamed(plans);
    var r := PlanMap(plans);
    var names := Distinct(TenantForm.Names(own));
    forall q | q in r ensures !TenantForm.InheritedName(q) {
      var i :| 0 <= i < |r| && r[i] == q;
      assert names[i] in TenantForm.Names(own);
      var j :| 0 <= j < |own| && TenantForm.Names(own)[j] == names[i];
      assert own[j].name == q.name;
    }
  }

  /** `filteredPlans`: the object's values. A null plan makes `plan.name`
      throw; otherwise one plan per distinct own name, in order of first
      appearance, each the first of the newest of its name. */
  function FilteredPlans(entries: seq<Option<Plan>>): (r: Option<seq<Plan>>)
    ensures r.None? <==> exists i | 0 <= i < |entries| :: entries[i].None?
    ensures r.Some? ==>
      AllPresent(entries).Some? && TenantForm.NewestPerName(OwnNamed(AllPresent(entries).value), r.value)
  {
    match AllPresent(entries)
    case None => None
    case Some(plans) =>
      PlanMapNewestPerName(plans);
      Some(PlanMap(plans))
  }

  /** The object with strict replacement and the dialog's stable
      newest-first sort per group produce the same plan list; where the
      dialog does not throw, it offers exactly the drop-down's plans. */
  lemma SameAsTenantForm(plans: seq<Plan>)
    ensures PlanMap(plans) == TenantForm.FilteredPlans(OwnNamed(plans))
    ensures TenantForm.OfferedPlans(plans).Some? ==> PlanMap(plans) == TenantForm.OfferedPlans(plans).value
  {
    PlanMapNewestPerName(plans);
    TenantForm.NewestPerNameUnique(OwnNamed(plans), PlanMap(plans), TenantForm.FilteredPlans(OwnNamed(plans)));
    if TenantForm.OfferedPlans(plans).Some? {
      FilterKeepsAll(plans, (p: Plan) => !TenantForm.InheritedName(p));
    }
  }

  /** Two plans with one name and one date: the first seen is kept, unless
      the name is inherited, when neither is. */
  lemma TieKeepsFirst(a: Plan, b: Plan)
    requires a.name == b.name && a.createdAt == b.createdAt
    ensures FilteredPlans([Some(a), Some(b)]) == Some(if TenantForm.InheritedName(a) then [] else [a])
  {
    AllPresentOfValues([Some(a), Some(b)], [a, b]);
    assert [a, b][..1] == [a] && [a][..0] == [];
    assert PlanMap([]) == [];
    var m := PlanMap([a]);
    assert m == Place(PlanMap([]), a);
    assert PlanMap([a, b]) == Place(m, b);
    if !TenantForm.InheritedName(a) {
      assert m == [a];
      assert Place(m, b) == [a];
    }
  }

  // ---- The tenant table ----

  /** Within the `filteredTenants` expression, `tenant.name.toLowerCase()`
      runs for every tenant, and `tenant.planId.name` for every tenant
      under a plan filter: a missing name, or a null plan under a filter,
      throws. */
  predicate TableThrows(tenants: seq<Tenant>, planFilter: string) {
    || (exists i | 0 <= i < |tenants| :: tenants[i].name.None?)
    || (planFilter != "all" && exists i | 0 <= i < |tenants| :: tenants[i].plan.None?)
  }

  /** The row test: the company name contains the search, ignoring case,
      and the plan filter is "all" or names the tenant's plan. */
  predicate KeepTenant(t: Tenant, search: string, planFilter: string) {
    && t.name.Some? && Matches(t.name.value, search)
    && (planFilter == "all" || (t.plan.Some? && t.plan.value.name == planFilter))
  }

  /** The `filteredTenants` expression on its own; the rest of the render
      is `Page`. */
  function FilteredTenants(tenants: seq<Tenant>, search: string, planFilter: string): (r: Option<seq<Tenant>>)
    ensures r.None? <==> TableThrows(tenants, planFilter)
    ensures r.Some? ==> |r.value| <= |tenants|
    ensures r.Some? ==> forall i | 0 <= i < |r.value| :: KeepTenant(r.value[i], search, planFilter)
  {
    if TableThrows(tenants, planFilter) then None
    else Some(Filter(tenants, (t: Tenant) => KeepTenant(t, search, planFilter)))
  }

  /** When the expression evaluates, a tenant is kept exactly when it is in
      the input and passes both tests, and the kept tenants keep their
      order; with every name present, the "all" filter always evaluates. */
  lemma FilteredTenantsMeaning(tenants: seq<Tenant>, search: string, planFilter: string, t: Tenant)
    ensures FilteredTenants(tenants, search, planFilter).Some? ==>
      var r := FilteredTenants(tenants, search, planFilter).value;
      && (t in r <==> t in tenants && t.name.Some? && Matches(t.name.value, search)
                      && (planFilter == "all" || (t.plan.Some? && t.plan.value.name == planFilter)))
      && IsSubseq(r, tenants)
    ensures (forall i | 0 <= i < |tenants| :: tenants[i].name.Some?) ==>
      FilteredTenants(tenants, search, "all").Some?
  {
    FilterMember(tenants, (t: Tenant) => KeepTenant(t, search, planFilter), t);
    FilterIsSubseq(tenants, (t: Tenant) => KeepTenant(t, search, planFilter));
  }

  /** With no search and the "all" filter, every tenant is listed when all
      have names. */
  lemma NoFilterListsAll(tenants: seq<Tenant>)
    requires forall i | 0 <= i < |tenants| :: tenants[i].name.Some?
    ensures FilteredTenants(tenants, "", "all") == Some(tenants)
  {
    forall i | 0 <= i < |tenants| ensures KeepTenant(tenants[i], "", "all") {
      MatchesEmpty(tenants[i].name.value);
    }
    FilterKeepsAll(tenants, (t: Tenant) => KeepTenant(t, "", "all"));
  }

  // ---- The page ----

  /** One render of the page: the drop-down's plans and the table's rows.
      The drop-down's fold reads the name of every tenant's plan, and each
      listed row reads its plan's name and price, so the render fails as
      soon as one plan is null, whatever the filter, or one name is
      missing. */
  function Page(tenants: seq<Tenant>, search: string, planFilter: string): (r: Option<(seq<Plan>, seq<Tenant>)>)
    ensures r.Some? <==> forall i | 0 <= i < |tenants| :: tenants[i].name.Some? && tenants[i].plan.Some?
    ensures r.Some? ==>
      && FilteredPlans(PlansArray(tenants)) == Some(r.value.0)
      && FilteredTenants(tenants, search, planFilter) == Some(r.value.1)
  {
    match (FilteredPlans(PlansArray(tenants)), FilteredTenants(tenants, search, planFilter))
    case (Some(plans), Some(rows)) => Some((plans, rows))
    case _ => None
  }

  /** A tenant without a plan breaks the page even under the "all" filter,
      where the `filteredTenants` expression alone evaluates. */
  lemma NullPlanBreaksPage(id: string, name: string, search: string)
    ensures var ts := [Tenant(id, Some(name), None)];
      && FilteredTenants(ts, search, "all").Some?
      && Page(ts, search, "all").None?
  {
    var ts := [Tenant(id, Some(name), None)];
    assert PlansArray(ts)[0].None?;
  }
}
