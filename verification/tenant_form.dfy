/** The create/edit tenant dialog: the plan list it offers (one plan per
    name, the newest), the ordered field validation, the submitted payload
    and the change handler. Dates are integers (milliseconds). */
module TenantForm {
  import opened Wrappers
  import opened Text
  import opened Seqs

  /** A subscription plan as the dialog reads it. */
  datatype Plan = Plan(id: string, name: string, createdAt: int)

  /** The `plans` property: absent (or otherwise falsy), a bare array, an
      object whose `plans` field is an array (`None` when that field is
      missing or not an array), or any other value. */
  datatype PlansProp = Absent | Listing(items: seq<Plan>) | Envelope(plans: Option<seq<Plan>>) | Unexpected

  /** `plansArray`: the array inside the envelope, the bare array, or []. */
  function PlansArray(p: PlansProp): (r: seq<Plan>)
    ensures p.Listing? ==> r == p.items
    ensures p.Envelope? && p.plans.Some? ==> r == p.plans.value
    ensures !(p.Listing? || (p.Envelope? && p.plans.Some?)) ==> r == []
  {
    match p
    case Absent => []
    case Listing(items) => items
    case Envelope(plans) => if plans.Some? then plans.value else []
    case Unexpected => []
  }

  /** The plans' names, in order. */
  function Names(plans: seq<Plan>): (r: seq<string>)
    ensures |r| == |plans|
    ensures forall i | 0 <= i < |plans| :: r[i] == plans[i].name
  {
    if plans == [] then [] else [plans[0].name] + Names(plans[1..])
  }

  /** The plans named `name`, in order: one bucket of `planGroups`. */
  function Group(plans: seq<Plan>, name: string): seq<Plan> {
    Filter(plans, (p: Plan) => p.name == name)
  }

  /** `s[i]` has the largest `createdAt` of `s`, and every element before it
      is strictly older: it is the first of the newest. */
  predicate IsFirstNewestAt(s: seq<Plan>, i: int) {
    && 0 <= i < |s|
    && (forall j | 0 <= j < |s| :: s[j].createdAt <= s[i].createdAt)
    && (forall j | 0 <= j < i :: s[j].createdAt < s[i].createdAt)
  }

  /** `m` is the first of the newest plans of `s`. */
  predicate IsFirstNewest(s: seq<Plan>, m: Plan) {
    exists i | 0 <= i < |s| :: IsFirstNewestAt(s, i) && s[i] == m
  }

  /** There is only one first-newest plan. */
  lemma FirstNewestUnique(s: seq<Plan>, m1: Plan, m2: Plan)
    requires IsFirstNewest(s, m1) && IsFirstNewest(s, m2)
    ensures m1 == m2
  {
    var i1 :| 0 <= i1 < |s| && IsFirstNewestAt(s, i1) && s[i1] == m1;
    var i2 :| 0 <= i2 < |s| && IsFirstNewestAt(s, i2) && s[i2] == m2;
    assert s[i1].createdAt == s[i2].createdAt;
    assert !(i1 < i2) && !(i2 < i1);
  }

  /** The comparator `(a, b) => b.createdAt - a.createdAt` sorts ascending
      by the negated date. */
  function NewerFirst(p: Plan): int {
    -p.createdAt
  }

  /** Prepending a plan to a sequence whose first-newest is at `k`: the
      new plan is the first-newest when it is at least as new, otherwise
      the old one is, one place further on. */
  lemma FirstNewestCons(x: Plan, t: seq<Plan>, k: int)
    requires IsFirstNewestAt(t, k)
    ensures x.createdAt >= t[k].createdAt ==> IsFirstNewestAt([x] + t, 0)
    ensures x.createdAt < t[k].createdAt ==> IsFirstNewestAt([x] + t, k + 1)
  {
    var g := [x] + t;
    assert forall j | 1 <= j < |g| :: g[j] == t[j - 1];
  }

  /** The head of the stable newest-first sort is the first of the newest. */
  lemma {:induction false} SortHeadIsFirstNewest(g: seq<Plan>)
    requires g != []
    ensures IsFirstNewest(g, SortBy(g, NewerFirst)[0])
  {
    var x, t := g[0], g[1..];
    assert g == [x] + t;
    if t == [] {
      assert IsFirstNewestAt(g, 0);
    } else {
      SortHeadIsFirstNewest(t);
      var st := SortBy(t, NewerFirst);
      var k :| 0 <= k < |t| && IsFirstNewestAt(t, k) && t[k] == st[0];
      InsertHead(x, st, NewerFirst);
      FirstNewestCons(x, t, k);
      if x.createdAt >= t[k].createdAt {
        assert IsFirstNewestAt(g, 0) && g[0] == SortBy(g, NewerFirst)[0];
      } else {
        assert IsFirstNewestAt(g, k + 1) && g[k + 1] == SortBy(g, NewerFirst)[0];
      }
    }
  }

  /** A name that occurs has a non-empty group. */
  lemma GroupNonEmpty(plans: seq<Plan>, name: string)
    requires name in Names(plans)
    ensures Group(plans, name) != []
  {
    var i :| 0 <= i < |plans| && Names(plans)[i] == name;
    FilterMember(plans, (p: Plan) => p.name == name, plans[i]);
  }

  /** For each name of `names`, the head of its group sorted newest first. */
  function GroupHeads(plans: seq<Plan>, names: seq<string>): (r: seq<Plan>)
    requires forall i | 0 <= i < |names| :: names[i] in Names(plans)
    ensures |r| == |names|
    ensures forall i | 0 <= i < |names| :: r[i].name == names[i] && IsFirstNewest(Group(plans, names[i]), r[i])
  {
    if names == [] then []
    else
      GroupNonEmpty(plans, names[0]);
      var g := Group(plans, names[0]);
      SortHeadIsFirstNewest(g);
      var h := SortBy(g, NewerFirst)[0];
      assert h in multiset(g);
      assert h.name == names[0];
      [h] + GroupHeads(plans, names[1..])
  }

  /** The plan list the dialog offers, one plan per distinct name. */
  predicate NewestPerName(plans: seq<Plan>, r: seq<Plan>) {
    var names := Distinct(Names(plans));
    && |r| == |names|
    && forall i | 0 <= i < |r| :: r[i].name == names[i] && IsFirstNewest(Group(plans, names[i]), r[i])
  }

  /** `filteredPlans`: group by name (groups in order of first appearance),
      sort each group newest first, keep each group's head. */
  function FilteredPlans(plans: seq<Plan>): (r: seq<Plan>)
    ensures NewestPerName(plans, r)
    ensures |r| <= |plans|
  {
    var names := Distinct(Names(plans));
    assert forall i | 0 <= i < |names| :: names[i] in Names(plans);
    GroupHeads(plans, names)
  }

  /** Two plan lists that both satisfy the newest-per-name description are
      equal: the description determines the list. */
  lemma NewestPerNameUnique(plans: seq<Plan>, r1: seq<Plan>, r2: seq<Plan>)
    requires NewestPerName(plans, r1) && NewestPerName(plans, r2)
    ensures r1 == r2
  {
    var names := Distinct(Names(plans));
    forall i | 0 <= i < |r1| ensures r1[i] == r2[i] {
      FirstNewestUnique(Group(plans, names[i]), r1[i], r2[i]);
    }
  }

  /** Every offered plan is one of the input plans, and no name is offered
      twice. */
  lemma FilteredPlansFromInput(plans: seq<Plan>)
    ensures forall p | p in FilteredPlans(plans) :: p in plans
    ensures NoDuplicates(Names(FilteredPlans(plans)))
  {
    var r := FilteredPlans(plans);
    var names := Distinct(Names(plans));
    forall p | p in r ensures p in plans {
      var i :| 0 <= i < |r| && r[i] == p;
      var g := Group(plans, names[i]);
      var k :| IsFirstNewestAt(g, k) && g[k] == p;
      FilterMember(plans, (q: Plan) => q.name == names[i], p);
    }
    assert Names(r) == names;
  }

  /** A name that `planGroups[name]` finds before any plan is grouped. */
  predicate InheritedName(p: Plan) {
    p.name in InheritedKeys
  }

  /** The dialog's `filteredPlans` memo as it runs. A plan named after an
      `Object.prototype` member finds a truthy non-array in `planGroups`,
      and its `push` throws, so the render fails; otherwise the dialog
      offers the newest plan per name. */
  function OfferedPlans(plans: seq<Plan>): (r: Option<seq<Plan>>)
    ensures r.None? <==> exists i | 0 <= i < |plans| :: InheritedName(plans[i])
    ensures r.Some? ==> NewestPerName(plans, r.value)
  {
    if exists i | 0 <= i < |plans| :: InheritedName(plans[i]) then None
    else Some(FilteredPlans(plans))
  }

  /** A single plan named "constructor" breaks the dialog, while any other
      single plan is offered as it is. */
  lemma PrototypeNameBreaksDialog(p: Plan)
    ensures OfferedPlans([p.(name := "constructor")]).None?
    ensures p.name !in InheritedKeys ==> OfferedPlans([p]) == Some([p])
  {
    assert InheritedName([p.(name := "constructor")][0]);
    if p.name !in InheritedKeys {
      assert forall i | 0 <= i < |[p]| :: !InheritedName([p][i]);
      SingleFiltered(p);
    }
  }

  /** A single plan is offered as it is. */
  lemma SingleFiltered(p: Plan)
    ensures FilteredPlans([p]) == [p]
  {
    var r := FilteredPlans([p]);
    assert Names([p]) == [p.name];
    assert Distinct(Names([p])) == [p.name];
    assert Group([p], p.name) == [p];
    assert IsFirstNewestAt([p], 0);
    FirstNewestUnique([p], r[0], p);
  }

  // ---- Validation ----

  /** The dialog's fields. */
  datatype FormData = FormData(
    tenantName: string, location: string, planId: string,
    adminName: string, adminEmail: string, adminPhone: string, adminPassword: string)

  /** `^[\+]?[1-9][\d]{0,15}$`: an optional plus, a non-zero digit, and at
      most fifteen more digits. */
  predicate PhonePattern(s: string) {
    var t := if s != [] && s[0] == '+' then s[1..] else s;
    && 1 <= |t| <= 16
    && '1' <= t[0] <= '9'
    && forall i | 1 <= i < |t| :: IsDigit(t[i])
  }

  /** The phone check on the digits of the input: between 1 and 16 digits,
      the first not zero. */
  lemma PhoneCheckMeaning(phone: string)
    ensures PhonePattern(DigitsOnly(phone)) <==>
      var d := DigitsOnly(phone);
      1 <= |d| <= 16 && d[0] != '0'
  {
    var d := DigitsOnly(phone);
    if d != [] {
      assert IsDigit(d[0]);
    }
  }

  /** A character allowed by `[^\s@]`. */
  predicate Plain(c: char) {
    c != '@' && !IsWhitespace(c)
  }

  predicate AllPlain(s: string) {
    forall i | 0 <= i < |s| :: Plain(s[i])
  }

  /** `^[^\s@]+@[^\s@]+\.[^\s@]+$`, with the two separators at `i` and `k`. */
  predicate EmailSplit(s: string, i: int, k: int) {
    && 0 < i && i + 1 < k && k + 1 < |s|
    && s[i] == '@' && s[k] == '.'
    && AllPlain(s[..i]) && AllPlain(s[i + 1..k]) && AllPlain(s[k + 1..])
  }

  /** The address matches the email pattern. */
  predicate EmailPattern(s: string) {
    exists i, k | 0 <= i < |s| && 0 <= k < |s| :: EmailSplit(s, i, k)
  }

  /** The email check as a scan: exactly one `@`, not first, no white
      space, and a `.` after the `@` with a character on each side. */
  predicate EmailOk(s: string) {
    && (forall j | 0 <= j < |s| :: !IsWhitespace(s[j]))
    && exists i | 0 < i < |s| :: s[i] == '@' && OnlyAt(s, i) && DotInside(s, i)
  }

  /** `i` is the only position of an `@`. */
  predicate OnlyAt(s: string, i: int) {
    forall j | 0 <= j < |s| && j != i :: s[j] != '@'
  }

  /** A `.` between the position after `i + 1` and the last character. */
  predicate DotInside(s: string, i: int) {
    exists k | 0 <= i + 1 < k < |s| - 1 :: s[k] == '.'
  }

  /** The scan accepts exactly the addresses the pattern matches. */
  lemma EmailOkIffPattern(s: string)
    ensures EmailOk(s) <==> EmailPattern(s)
  {
    if EmailOk(s) {
      var i :| 0 < i < |s| && s[i] == '@' && OnlyAt(s, i) && DotInside(s, i);
      var k :| i + 1 < k < |s| - 1 && s[k] == '.';
      assert AllPlain(s[..i]) && AllPlain(s[i + 1..k]) && AllPlain(s[k + 1..]);
      assert EmailSplit(s, i, k);
    }
    if EmailPattern(s) {
      var i, k :| 0 <= i < |s| && 0 <= k < |s| && EmailSplit(s, i, k);
      assert AllPlain(s[..i]) && AllPlain(s[i + 1..k]) && AllPlain(s[k + 1..]);
      forall j | 0 <= j < |s| ensures !IsWhitespace(s[j]) && (j != i ==> s[j] != '@') {
        if j < i {
          assert s[..i][j] == s[j];
        } else if i < j < k {
          assert s[i + 1..k][j - (i + 1)] == s[j];
        } else if k < j {
          assert s[k + 1..][j - (k + 1)] == s[j];
        }
      }
      assert OnlyAt(s, i) && DotInside(s, i);
    }
  }

  /** The checks of `validateForm`, in order, each with its message. */
  const CompanyRequired: string := "Company name is required"
  const PlanRequired: string := "Please select a plan"
  const AdminNameRequired: string := "Admin name is required"
  const AdminEmailRequired: string := "Admin email is required"
  const AdminPhoneRequired: string := "Admin phone is required"
  const PhoneInvalid: string := "Please enter a valid phone number"
  const EmailInvalid: string := "Please enter a valid email address"
  const PasswordRequired: string := "Password is required for new tenants"
  const PasswordTooShort: string := "Password must be at least 8 characters long"

  /** The outcome of each test `validateForm` makes, in its order. */
  datatype Outcomes = Outcomes(
    companyGiven: bool, planGiven: bool, adminNameGiven: bool, adminEmailGiven: bool,
    adminPhoneGiven: bool, phoneValid: bool, emailValid: bool,
    passwordGiven: bool, passwordLong: bool)

  /** The tests on the form's fields. */
  function Evaluate(f: FormData): Outcomes {
    Outcomes(
      Trim(f.tenantName) != "", f.planId != "", Trim(f.adminName) != "",
      Trim(f.adminEmail) != "", Trim(f.adminPhone) != "",
      PhonePattern(DigitsOnly(f.adminPhone)), EmailOk(f.adminEmail),
      f.adminPassword != "", Utf16Length(f.adminPassword) >= 8)
  }

  /** Each check as (passes, message), in the order the dialog runs them.
      `editing` says whether a tenant is being edited; the password checks
      apply only when creating. */
  function Checks(o: Outcomes, editing: bool): seq<(bool, string)> {
    [ (o.companyGiven, CompanyRequired),
      (o.planGiven, PlanRequired),
      (o.adminNameGiven, AdminNameRequired),
      (o.adminEmailGiven, AdminEmailRequired),
      (o.adminPhoneGiven, AdminPhoneRequired),
      (o.phoneValid, PhoneInvalid),
      (o.emailValid, EmailInvalid),
      (editing || o.passwordGiven, PasswordRequired),
      (editing || !o.passwordGiven || o.passwordLong, PasswordTooShort) ]
  }

  /** The message of the first failing check at or after `from`, if any. */
  function FirstFailure(checks: seq<(bool, string)>, from: nat): Option<string>
    decreases |checks| - from
  {
    if from >= |checks| then None
    else if !checks[from].0 then Some(checks[from].1)
    else FirstFailure(checks, from + 1)
  }

  /** `FirstFailure` reports nothing exactly when every check from `from`
      on passes, and otherwise the message of a failing check all of whose
      predecessors from `from` on pass. */
  lemma {:induction false} FirstFailureMeaning(checks: seq<(bool, string)>, from: nat)
    ensures FirstFailure(checks, from).None? <==> forall i | from <= i < |checks| :: checks[i].0
    ensures FirstFailure(checks, from).Some? ==> exists i | from <= i < |checks| ::
      && !checks[i].0 && FirstFailure(checks, from).value == checks[i].1
      && forall j | from <= j < i :: checks[j].0
    decreases |checks| - from
  {
    if from < |checks| && checks[from].0 {
      FirstFailureMeaning(checks, from + 1);
    }
  }

  /** The nested tests of `validateForm`, on the outcomes. */
  function Report(o: Outcomes, editing: bool): Option<string> {
    if !o.companyGiven then Some(CompanyRequired)
    else if !o.planGiven then Some(PlanRequired)
    else if !o.adminNameGiven then Some(AdminNameRequired)
    else if !o.adminEmailGiven then Some(AdminEmailRequired)
    else if !o.adminPhoneGiven then Some(AdminPhoneRequired)
    else if !o.phoneValid then Some(PhoneInvalid)
    else if !o.emailValid then Some(EmailInvalid)
    else if !editing && !o.passwordGiven then Some(PasswordRequired)
    else if !editing && o.passwordGiven && !o.passwordLong then Some(PasswordTooShort)
    else None
  }

  /** `validateForm`: `None` when the form passes, otherwise the message of
      the first check that fails. */
  function ValidateForm(f: FormData, editing: bool): (r: Option<string>)
    ensures r.None? <==> FormValid(f, editing)
  {
    Report(Evaluate(f), editing)
  }

  /** Every check passes. */
  predicate FormValid(f: FormData, editing: bool) {
    && Trim(f.tenantName) != "" && f.planId != ""
    && Trim(f.adminName) != "" && Trim(f.adminEmail) != "" && Trim(f.adminPhone) != ""
    && PhonePattern(DigitsOnly(f.adminPhone)) && EmailOk(f.adminEmail)
    && (editing || Utf16Length(f.adminPassword) >= 8)
  }

  /** The nested tests of `validateForm` report the first failing check. */
  lemma ReportIsFirstFailure(o: Outcomes, editing: bool)
    ensures Report(o, editing) == FirstFailure(Checks(o, editing), 0)
  {
    var cs := Checks(o, editing);
    assert FirstFailure(cs, 9) == None;
    assert FirstFailure(cs, 8) == if !cs[8].0 then Some(cs[8].1) else None;
    assert FirstFailure(cs, 7) == if !cs[7].0 then Some(cs[7].1) else FirstFailure(cs, 8);
    assert FirstFailure(cs, 6) == if !cs[6].0 then Some(cs[6].1) else FirstFailure(cs, 7);
    assert FirstFailure(cs, 5) == if !cs[5].0 then Some(cs[5].1) else FirstFailure(cs, 6);
    assert FirstFailure(cs, 4) == if !cs[4].0 then Some(cs[4].1) else FirstFailure(cs, 5);
    assert FirstFailure(cs, 3) == if !cs[3].0 then Some(cs[3].1) else FirstFailure(cs, 4);
    assert FirstFailure(cs, 2) == if !cs[2].0 then Some(cs[2].1) else FirstFailure(cs, 3);
    assert FirstFailure(cs, 1) == if !cs[1].0 then Some(cs[1].1) else FirstFailure(cs, 2);
  }

  /** When editing, the password never matters. */
  lemma EditingIgnoresPassword(f: FormData, password: string)
    ensures ValidateForm(f.(adminPassword := password), true) == ValidateForm(f, true)
  {
    var o, o' := Evaluate(f), Evaluate(f.(adminPassword := password));
    assert o'.(passwordGiven := o.passwordGiven, passwordLong := o.passwordLong) == o;
  }

  /** When creating, a form whose other fields pass is accepted exactly
      when the password has at least eight UTF-16 code units. */
  lemma CreatingNeedsPassword(f: FormData)
    requires ValidateForm(f.(adminPassword := "12345678"), false).None?
    ensures ValidateForm(f, false).None? <==> Utf16Length(f.adminPassword) >= 8
    ensures f.adminPassword == "" ==> ValidateForm(f, false) == Some(PasswordRequired)
    ensures f.adminPassword != "" && Utf16Length(f.adminPassword) < 8 ==>
      ValidateForm(f, false) == Some(PasswordTooShort)
  {
  }

  /** A blank company name is reported whatever else is wrong. */
  lemma BlankCompanyReportedFirst(f: FormData, editing: bool)
    requires forall i | 0 <= i < |f.tenantName| :: IsWhitespace(f.tenantName[i])
    ensures ValidateForm(f, editing) == Some(CompanyRequired)
  {
    TrimEmptyIffBlank(f.tenantName);
  }

  // ---- Payload and change handler ----

  /** The admin part of the payload; `password` is absent when deleted. */
  datatype AdminUserData = AdminUserData(name: string, email: string, phone: string, password: Option<string>)

  datatype Payload = Payload(tenantName: string, location: string, planId: string, adminUserData: AdminUserData)

  /** The submitted payload. It copies the form; on an update with an empty
      password the password key is deleted. */
  function BuildPayload(f: FormData, editing: bool): (r: Payload)
    ensures r.tenantName == f.tenantName && r.location == f.location && r.planId == f.planId
    ensures r.adminUserData.name == f.adminName && r.adminUserData.email == f.adminEmail
    ensures r.adminUserData.phone == f.adminPhone
    ensures r.adminUserData.password.None? <==> editing && f.adminPassword == ""
    ensures r.adminUserData.password.Some? ==> r.adminUserData.password.value == f.adminPassword
  {
    var admin := AdminUserData(f.adminName, f.adminEmail, f.adminPhone, Some(f.adminPassword));
    var payload := Payload(f.tenantName, f.location, f.planId, admin);
    if editing && f.adminPassword == "" then
      payload.(adminUserData := admin.(password := None))
    else
      payload
  }

  /** A created tenant always carries the password it was validated with. */
  lemma CreatedPayloadHasPassword(f: FormData)
    requires ValidateForm(f, false).None?
    ensures BuildPayload(f, false).adminUserData.password == Some(f.adminPassword)
    ensures Utf16Length(f.adminPassword) >= 8
  {
  }

  /** The length test counts code units, not characters: four characters
      from outside the Basic Multilingual Plane are long enough, and so is
      any password of eight or more characters. */
  lemma AstralPasswordLongEnough(f: FormData)
    requires ValidateForm(f.(adminPassword := "12345678"), false).None?
    ensures ValidateForm(f.(adminPassword := "\U{1F600}\U{1F600}\U{1F600}\U{1F600}"), false).None?
    ensures |f.adminPassword| >= 8 ==> ValidateForm(f, false).None?
  {
    var pw := "\U{1F600}\U{1F600}\U{1F600}\U{1F600}";
    assert |pw| == 4 && pw[1..] == "\U{1F600}\U{1F600}\U{1F600}";
    assert Utf16Length(pw) == 8;
    CreatingNeedsPassword(f.(adminPassword := pw));
    CreatingNeedsPassword(f);
  }

  /** The input fields by name. */
  datatype Field = TenantName | Location | PlanId | AdminName | AdminEmail | AdminPhone | AdminPassword

  function Get(f: FormData, field: Field): string {
    match field
    case TenantName => f.tenantName
    case Location => f.location
    case PlanId => f.planId
    case AdminName => f.adminName
    case AdminEmail => f.adminEmail
    case AdminPhone => f.adminPhone
    case AdminPassword => f.adminPassword
  }

  /** The dialog's state: the form and the error banner. */
  datatype DialogState = DialogState(form: FormData, error: string)

  /** `handleChange`: the named field takes the value, every other field
      keeps its value, and the error banner is cleared. */
  function HandleChange(s: DialogState, field: Field, value: string): (r: DialogState)
    ensures Get(r.form, field) == value
    ensures forall g | g != field :: Get(r.form, g) == Get(s.form, g)
    ensures r.error == ""
  {
    var f := s.form;
    var form := match field
      case TenantName => f.(tenantName := value)
      case Location => f.(location := value)
      case PlanId => f.(planId := value)
      case AdminName => f.(adminName := value)
      case AdminEmail => f.(adminEmail := value)
      case AdminPhone => f.(adminPhone := value)
      case AdminPassword => f.(adminPassword := value);
    DialogState(form, "")
  }

  /** Writing back a field's own value changes nothing but the banner. */
  lemma HandleChangeSameValue(s: DialogState, field: Field)
    ensures HandleChange(s, field, Get(s.form, field)) == s.(error := "")
  {
  }


  /** `handleSelectChange`: the plan picker sets `planId` and, unlike the
      text inputs, leaves the error banner alone. */
  function HandleSelectChange(s: DialogState, value: string): (r: DialogState)
    ensures r.form.planId == value && r.error == s.error
    ensures r == HandleChange(s, PlanId, value).(error := s.error)
  {
    s.(form := s.form.(planId := value))
  }

  /** The record being edited, as the dialog reads it: every field may be
      missing (`planId` is the populated plan's `_id`). */
  datatype EditTarget = EditTarget(
    name: Option<string>, location: Option<string>, planId: Option<string>,
    adminName: Option<string>, adminEmail: Option<string>, adminPhone: Option<string>)

  /** The empty form. */
  const Blank: FormData := FormData("", "", "", "", "", "", "")

  /** The effect run when `tenant` or `open` changes: an open dialog is
      filled from the edited record (each missing or empty field as "", the
      password always empty) or reset for a new tenant; a closed one keeps
      its form. The banner is cleared either way. */
  function Prefill(s: DialogState, tenant: Option<EditTarget>, open: bool): (r: DialogState)
    ensures r.error == ""
    ensures !open ==> r.form == s.form
    ensures open && tenant.None? ==> r.form == Blank
    ensures open && tenant.Some? ==> var t := tenant.value;
      && r.form.adminPassword == ""
      && r.form.tenantName == OrElse(t.name, "") && r.form.location == OrElse(t.location, "")
      && r.form.planId == OrElse(t.planId, "")
      && r.form.adminName == OrElse(t.adminName, "") && r.form.adminEmail == OrElse(t.adminEmail, "")
      && r.form.adminPhone == OrElse(t.adminPhone, "")
  {
    if open && tenant.Some? then
      var t := tenant.value;
      DialogState(FormData(OrElse(t.name, ""), OrElse(t.location, ""), OrElse(t.planId, ""),
                           OrElse(t.adminName, ""), OrElse(t.adminEmail, ""), OrElse(t.adminPhone, ""), ""), "")
    else if open then DialogState(Blank, "")
    else s.(error := "")
  }

  /** A freshly reset dialog is refused with the company message, and an
      edit submitted without touching the password sends no password. */
  lemma PrefillThenSubmit(s: DialogState, t: EditTarget)
    ensures ValidateForm(Prefill(s, None, true).form, false) == Some(CompanyRequired)
    ensures BuildPayload(Prefill(s, Some(t), true).form, true).adminUserData.password.None?
  {
    BlankCompanyReportedFirst(Blank, false);
  }
}
