/** The billing console: the tenant list flattened from the server's
    records, filtered by name and subscription state, and each tenant's
    payment history with its successful subset, its date order and its
    total. Dates and amounts are integers. */
module AdminBillingConsole {
  import opened Wrappers
  import opened Text
  import opened Seqs

  /** The tenant's administrator, as sent beside the tenant. */
  datatype Admin = Admin(email: string, phone: Option<string>)

  /** A tenant record; `isSubscriptionActive` stands for the field's
      truthiness. */
  datatype TenantRecord = TenantRecord(id: string, name: Option<string>, isSubscriptionActive: bool)

  /** One element of the list response: `{ tenant, admin }`. */
  datatype Item = Item(tenant: TenantRecord, admin: Option<Admin>)

  /** A formatted tenant: the tenant's own fields plus `admin`. */
  datatype ConsoleTenant = ConsoleTenant(id: string, name: Option<string>, isSubscriptionActive: bool, admin: Option<Admin>)

  /** `(res.data || []).map(item => ({ ...item.tenant, admin: item.admin }))`:
      one formatted tenant per item, in order, each carrying its item's
      tenant fields and administrator. */
  function FormatTenants(data: Option<seq<Item>>): (r: seq<ConsoleTenant>)
    ensures data.None? ==> r == []
    ensures data.Some? ==> |r| == |data.value|
    ensures data.Some? ==> forall i | 0 <= i < |r| ::
      var t := data.value[i].tenant;
      r[i] == ConsoleTenant(t.id, t.name, t.isSubscriptionActive, data.value[i].admin)
  {
    Map(data.GetOr([]), (item: Item) =>
      ConsoleTenant(item.tenant.id, item.tenant.name, item.tenant.isSubscriptionActive, item.admin))
  }

  /** The record part of a formatted tenant. */
  function Record(t: ConsoleTenant): TenantRecord {
    TenantRecord(t.id, t.name, t.isSubscriptionActive)
  }

  /** Formatting loses nothing: the records come back out in order. */
  lemma FormatKeepsRecords(items: seq<Item>)
    ensures Map(FormatTenants(Some(items)), Record) == Map(items, (item: Item) => item.tenant)
  {
  }

  /** The status drop-down: "all" keeps every tenant, "Active" the active
      ones, any other value the inactive ones. */
  predicate StatusHit(t: ConsoleTenant, status: string) {
    if status == "all" then true
    else if status == "Active" then t.isSubscriptionActive
    else !t.isSubscriptionActive
  }

  /** `t?.name?.toLowerCase().includes(...)`: a missing name is falsy. */
  predicate NameHit(t: ConsoleTenant, search: string) {
    t.name.Some? && Matches(t.name.value, search)
  }

  /** `filteredTenants`. */
  function FilteredTenants(tenants: seq<ConsoleTenant>, search: string, status: string): (r: seq<ConsoleTenant>)
    ensures forall i | 0 <= i < |r| :: r[i].name.Some?
  {
    Filter(tenants, (t: ConsoleTenant) => NameHit(t, search) && StatusHit(t, status))
  }

  /** A tenant is listed exactly when it has a name containing the search
      (ignoring case) and passes the status test; order is kept. */
  lemma FilteredTenantsMeaning(tenants: seq<ConsoleTenant>, search: string, status: string, t: ConsoleTenant)
    ensures t in FilteredTenants(tenants, search, status) <==>
      && t in tenants && t.name.Some? && Matches(t.name.value, search)
      && (status == "all" || (status == "Active" && t.isSubscriptionActive)
          || (status != "Active" && !t.isSubscriptionActive))
    ensures IsSubseq(FilteredTenants(tenants, search, status), tenants)
  {
    FilterMember(tenants, (x: ConsoleTenant) => NameHit(x, search) && StatusHit(x, status), t);
    FilterIsSubseq(tenants, (x: ConsoleTenant) => NameHit(x, search) && StatusHit(x, status));
  }

  /** "Active" and "Inactive" split the "all" view between them. */
  lemma {:induction false} StatusViewsPartition(tenants: seq<ConsoleTenant>, search: string)
    ensures |FilteredTenants(tenants, search, "Active")| + |FilteredTenants(tenants, search, "Inactive")|
         == |FilteredTenants(tenants, search, "all")|
  {
    if tenants != [] {
      StatusViewsPartition(tenants[1..], search);
    }
  }

  /** A payment record; `tenantId` is the populated tenant's `_id`, absent
      when the payment has no tenant; `amount` may be missing. */
  datatype Payment = Payment(id: string, tenantId: Option<string>, paymentStatus: string,
                             amount: Option<int>, transactionDate: int)

  /** `getTenantPayments(tenantId)`: the payments whose tenant id is
      strictly equal to the argument (an absent argument matches the
      payments without a tenant, as `undefined === undefined`). */
  function TenantPayments(payments: seq<Payment>, tenantId: Option<string>): (r: seq<Payment>)
    ensures forall i | 0 <= i < |r| :: r[i].tenantId == tenantId
    ensures |r| <= |payments|
  {
    Filter(payments, (p: Payment) => p.tenantId == tenantId)
  }

  /** Exactly the tenant's payments, in their original order. */
  lemma TenantPaymentsMeaning(payments: seq<Payment>, id: string, p: Payment)
    ensures p in TenantPayments(payments, Some(id)) <==> p in payments && p.tenantId == Some(id)
    ensures IsSubseq(TenantPayments(payments, Some(id)), payments)
  {
    FilterMember(payments, (q: Payment) => q.tenantId == Some(id), p);
    FilterIsSubseq(payments, (q: Payment) => q.tenantId == Some(id));
  }

  predicate Successful(p: Payment) {
    p.paymentStatus == "success"
  }

  /** The "successful" column: the payments whose status is "success". */
  function SuccessfulPayments(payments: seq<Payment>): (r: seq<Payment>)
    ensures |r| <= |payments|
    ensures forall i | 0 <= i < |r| :: r[i].paymentStatus == "success"
  {
    Filter(payments, Successful)
  }

  /** The successful count never exceeds the total, and a payment counts
      exactly when it is one of the tenant's and succeeded. */
  lemma SuccessfulMeaning(payments: seq<Payment>, p: Payment)
    ensures p in SuccessfulPayments(payments) <==> p in payments && p.paymentStatus == "success"
    ensures |SuccessfulPayments(payments)| <= |payments|
  {
    FilterMember(payments, Successful, p);
  }

  function NegDate(p: Payment): int {
    -p.transactionDate
  }

  /** The dialog's rows: the tenant's payments, newest first. */
  function DialogRows(payments: seq<Payment>, tenantId: Option<string>): (r: seq<Payment>)
    ensures forall i, j | 0 <= i < j < |r| :: r[i].transactionDate >= r[j].transactionDate
    ensures multiset(r) == multiset(TenantPayments(payments, tenantId))
  {
    var rows := SortBy(TenantPayments(payments, tenantId), NegDate);
    assert forall i, j | 0 <= i < j < |rows| :: NegDate(rows[i]) <= NegDate(rows[j]);
    rows
  }

  /** `payment.amount || 0`. */
  function Amount(p: Payment): int {
    p.amount.GetOr(0)
  }

  /** The footer total: the amounts of the tenant's successful payments
      only, which is the sum of every payment's contribution. */
  function Total(payments: seq<Payment>, tenantId: Option<string>): (r: int)
    ensures r == SumBy(payments, (p: Payment) => Contribution(p, tenantId))
  {
    TotalIsSumOfContributions(payments, tenantId);
    SumBy(SuccessfulPayments(TenantPayments(payments, tenantId)), Amount)
  }

  /** What a payment contributes to the total: its amount if it belongs to
      the tenant and succeeded, nothing otherwise. */
  function Contribution(p: Payment, tenantId: Option<string>): int {
    if p.tenantId == tenantId && p.paymentStatus == "success" then Amount(p) else 0
  }

  /** Summing the successful amounts of the tenant's payments adds up each
      payment's contribution. */
  lemma {:induction false} TotalIsSumOfContributions(payments: seq<Payment>, tenantId: Option<string>)
    ensures SumBy(SuccessfulPayments(TenantPayments(payments, tenantId)), Amount)
         == SumBy(payments, (p: Payment) => Contribution(p, tenantId))
  {
    if payments != [] {
      TotalIsSumOfContributions(payments[1..], tenantId);
    }
  }

  /** With non-negative amounts, the total is at most the sum over all the
      tenant's payments, and failed payments add nothing. */
  lemma TotalBounded(payments: seq<Payment>, tenantId: Option<string>)
    requires forall p | p in payments :: Amount(p) >= 0
    ensures 0 <= Total(payments, tenantId) <= SumBy(TenantPayments(payments, tenantId), Amount)
  {
    var mine := TenantPayments(payments, tenantId);
    var failed := Filter(mine, (p: Payment) => !Successful(p));
    SumSplit(mine, Amount, Successful, (p: Payment) => !Successful(p));
    forall p | p in mine ensures p in payments {
      FilterMember(payments, (q: Payment) => q.tenantId == tenantId, p);
    }
    forall p | p in failed ensures Amount(p) >= 0 {
      FilterMember(mine, (q: Payment) => !Successful(q), p);
    }
    forall p | p in SuccessfulPayments(mine) ensures Amount(p) >= 0 {
      FilterMember(mine, Successful, p);
    }
    NonNegativeSum(failed);
    NonNegativeSum(SuccessfulPayments(mine));
  }

  /** A sum of non-negative amounts is non-negative. */
  lemma {:induction false} NonNegativeSum(s: seq<Payment>)
    requires forall p | p in s :: Amount(p) >= 0
    ensures SumBy(s, Amount) >= 0
  {
    if s != [] {
      NonNegativeSum(s[1..]);
    }
  }
}
