/** The company management screen: the search that fills the shown list,
    the status toggle applied to both the full and the shown list, the
    delete that only hides a row, and the days-left label. */
module CompanyDashboard {
  import opened Text
  import opened Seqs

  /** A company row. */
  datatype Company = Company(id: string, name: string, ownerName: string, ownerEmail: string,
                             plan: string, status: string)

  /** The screen's lists: every company, and the ones shown. */
  datatype Screen = Screen(companies: seq<Company>, filtered: seq<Company>, showConfirm: bool)

  /** The search test: name or owner email contains the search, ignoring
      case. */
  predicate Hit(c: Company, search: string) {
    Matches(c.name, search) || Matches(c.ownerEmail, search)
  }

  /** `handleSearch`: the shown list becomes the matching companies. */
  function HandleSearch(s: Screen, search: string): (r: Screen)
    ensures r.companies == s.companies && r.showConfirm == s.showConfirm
    ensures forall i | 0 <= i < |r.filtered| :: Hit(r.filtered[i], search)
  {
    s.(filtered := Filter(s.companies, (c: Company) => Hit(c, search)))
  }

  /** A company is shown after a search exactly when it matches; order is
      kept. */
  lemma HandleSearchMeaning(s: Screen, search: string, c: Company)
    ensures c in HandleSearch(s, search).filtered <==>
      c in s.companies && (Matches(c.name, search) || Matches(c.ownerEmail, search))
    ensures IsSubseq(HandleSearch(s, search).filtered, s.companies)
  {
    FilterMember(s.companies, (x: Company) => Hit(x, search), c);
    FilterIsSubseq(s.companies, (x: Company) => Hit(x, search));
  }

  /** "Active" becomes "Suspended"; every other status, "Trial" included,
      becomes "Active". */
  function NextStatus(status: string): (r: string)
    ensures r == "Suspended" <==> status == "Active"
    ensures r == "Active" <==> status != "Active"
  {
    if status == "Active" then "Suspended" else "Active"
  }

  /** The update both lists receive. */
  function Toggle(c: Company, id: string): Company {
    if c.id == id then c.(status := NextStatus(c.status)) else c
  }

  /** `toggleStatus(id)`: the same update on both lists. */
  function ToggleStatus(s: Screen, id: string): (r: Screen)
    ensures |r.companies| == |s.companies| && |r.filtered| == |s.filtered|
    ensures forall i | 0 <= i < |s.companies| :: r.companies[i] == Toggle(s.companies[i], id)
    ensures forall i | 0 <= i < |s.filtered| :: r.filtered[i] == Toggle(s.filtered[i], id)
    ensures r.showConfirm == s.showConfirm
  {
    Screen(Map(s.companies, (c: Company) => Toggle(c, id)),
           Map(s.filtered, (c: Company) => Toggle(c, id)), s.showConfirm)
  }

  /** Only the status of the rows with that id changes. */
  lemma ToggleTouchesOnlyStatus(s: Screen, id: string, i: int)
    requires 0 <= i < |s.companies|
    ensures var before, after := s.companies[i], ToggleStatus(s, id).companies[i];
      && after.(status := before.status) == before
      && (before.id != id ==> after == before)
  {
  }

  /** The shown list is the search result for `search`. */
  predicate ShowsSearch(s: Screen, search: string) {
    s.filtered == Filter(s.companies, (c: Company) => Hit(c, search))
  }

  /** A filter commutes with an update that does not change the test. */
  lemma {:induction false} FilterMapCommute(s: seq<Company>, id: string, search: string)
    ensures Filter(Map(s, (c: Company) => Toggle(c, id)), (c: Company) => Hit(c, search))
         == Map(Filter(s, (c: Company) => Hit(c, search)), (c: Company) => Toggle(c, id))
  {
    if s != [] {
      FilterMapCommute(s[1..], id, search);
      assert Map(s, (c: Company) => Toggle(c, id))[1..] == Map(s[1..], (c: Company) => Toggle(c, id));
    }
  }

  /** Because both lists get the same update, a shown list that was the
      search result stays the search result. */
  lemma ToggleKeepsSearch(s: Screen, search: string, id: string)
    requires ShowsSearch(s, search)
    ensures ShowsSearch(ToggleStatus(s, id), search)
  {
    FilterMapCommute(s.companies, id, search);
  }

  /** `handleDelete` for the company chosen in the confirm dialog: the row
      leaves the shown list only, and the dialog closes. */
  function HandleDelete(s: Screen, selected: Company): (r: Screen)
    ensures r.companies == s.companies && !r.showConfirm
    ensures forall i | 0 <= i < |r.filtered| :: r.filtered[i].id != selected.id
  {
    Screen(s.companies, Filter(s.filtered, (c: Company) => c.id != selected.id), false)
  }

  /** Deletion hides exactly the rows with the chosen id, and a later
      search brings them back: nothing is removed from the companies. */
  lemma DeleteOnlyHides(s: Screen, selected: Company, search: string, c: Company)
    ensures c in HandleDelete(s, selected).filtered <==> c in s.filtered && c.id != selected.id
    ensures HandleSearch(HandleDelete(s, selected), search).filtered == HandleSearch(s, search).filtered
  {
    FilterMember(s.filtered, (x: Company) => x.id != selected.id, c);
  }

  const DaysSuffix: string := " days"
  const Expired: string := "Expired"

  /** `calculateDaysLeft`, on the whole-day difference between the end date
      and now (truncated as `moment.diff(..., "days")` does). */
  function DaysLeft(diff: int): (r: string)
    ensures diff < 0 <==> r == Expired
    ensures diff >= 0 ==> r == NatToString(diff) + DaysSuffix
  {
    if diff >= 0 then
      var r := NatToString(diff) + DaysSuffix;
      assert r[|r| - 1] == 's' != Expired[|Expired| - 1];
      r
    else Expired
  }

  /** The label gives the difference back: reading the digits before
      " days" yields the day count. */
  lemma DaysLeftRoundTrip(diff: int)
    requires diff >= 0
    ensures var r := DaysLeft(diff);
      |r| > |DaysSuffix| && r[|r| - |DaysSuffix|..] == DaysSuffix
      && DigitsValue(r[..|r| - |DaysSuffix|]) == diff
  {
    var r := DaysLeft(diff);
    assert r[..|r| - |DaysSuffix|] == NatToString(diff);
    NatToStringRoundTrip(diff);
  }
}
