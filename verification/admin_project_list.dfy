/** The global project monitor: the staged search and filter pipeline,
    the flag toggle, the option lists of the filter drop-downs and the
    summary counts. */
module AdminProjectList {
  import opened Text
  import opened Seqs

  /** A project, with the fields the page's logic reads. */
  datatype Project = Project(
    id: int, name: string, company: string, client: string,
    projectType: string, status: string, flagged: bool)

  /** The drop-down filters; the empty string means "any". `timeline` is
      part of the state but no stage reads it. */
  datatype Filters = Filters(company: string, status: string, projectType: string, timeline: string)

  /** The filters the page starts with. */
  const NoFilters: Filters := Filters("", "", "", "")

  /** A stage that runs only when its switch is on. */
  function Stage(s: seq<Project>, on: bool, p: Project -> bool): (r: seq<Project>)
    ensures !on ==> r == s
  {
    if on then Filter(s, p) else s
  }

  /** The search stage's test: name or client contains the search,
      ignoring case. */
  predicate SearchHit(p: Project, search: string) {
    Matches(p.name, search) || Matches(p.client, search)
  }

  /** The list the table shows: the search stage, then the company, status
      and type stages, each run only when its input is non-empty. */
  function FilterProjects(projects: seq<Project>, search: string, f: Filters): (r: seq<Project>)
    ensures |r| <= |projects|
  {
    var bySearch := Stage(projects, Truthy(search), (p: Project) => SearchHit(p, search));
    var byCompany := Stage(bySearch, Truthy(f.company), (p: Project) => p.company == f.company);
    var byStatus := Stage(byCompany, Truthy(f.status), (p: Project) => p.status == f.status);
    Stage(byStatus, Truthy(f.projectType), (p: Project) => p.projectType == f.projectType)
  }

  /** All four stages as one test. */
  predicate Keep(p: Project, search: string, f: Filters) {
    && (search == "" || SearchHit(p, search))
    && (f.company == "" || p.company == f.company)
    && (f.status == "" || p.status == f.status)
    && (f.projectType == "" || p.projectType == f.projectType)
  }

  /** A stage after a filter is one filter by the conjunction. */
  lemma {:induction false} StageAfterFilter(s: seq<Project>, a: Project -> bool, on: bool,
                                           p: Project -> bool, ap: Project -> bool)
    requires forall x :: ap(x) == (a(x) && (!on || p(x)))
    ensures Stage(Filter(s, a), on, p) == Filter(s, ap)
  {
    if s != [] {
      StageAfterFilter(s[1..], a, on, p, ap);
    }
  }

  /** The first stage as a filter. */
  lemma {:induction false} FirstStage(s: seq<Project>, on: bool, p: Project -> bool, t: Project -> bool)
    requires forall x :: t(x) == (!on || p(x))
    ensures Stage(s, on, p) == Filter(s, t)
  {
    if s != [] {
      FirstStage(s[1..], on, p, t);
    }
  }

  /** The staged pipeline is one filter by the conjunction of the stages. */
  lemma PipelineIsConjunction(projects: seq<Project>, search: string, f: Filters)
    ensures FilterProjects(projects, search, f) == Filter(projects, (p: Project) => Keep(p, search, f))
  {
    var t1 := (p: Project) => search == "" || SearchHit(p, search);
    var t12 := (p: Project) => t1(p) && (f.company == "" || p.company == f.company);
    var t123 := (p: Project) => t12(p) && (f.status == "" || p.status == f.status);
    FirstStage(projects, Truthy(search), (p: Project) => SearchHit(p, search), t1);
    StageAfterFilter(projects, t1, Truthy(f.company), (p: Project) => p.company == f.company, t12);
    StageAfterFilter(projects, t12, Truthy(f.status), (p: Project) => p.status == f.status, t123);
    StageAfterFilter(projects, t123, Truthy(f.projectType), (p: Project) => p.projectType == f.projectType,
                     (p: Project) => Keep(p, search, f));
  }

  /** A project is shown exactly when it passes every set filter, and the
      shown projects keep their order. */
  lemma FilterProjectsMeaning(projects: seq<Project>, search: string, f: Filters, p: Project)
    ensures p in FilterProjects(projects, search, f) <==>
      && p in projects
      && (search == "" || Matches(p.name, search) || Matches(p.client, search))
      && (f.company == "" || p.company == f.company)
      && (f.status == "" || p.status == f.status)
      && (f.projectType == "" || p.projectType == f.projectType)
    ensures IsSubseq(FilterProjects(projects, search, f), projects)
  {
    PipelineIsConjunction(projects, search, f);
    FilterMember(projects, (q: Project) => Keep(q, search, f), p);
    FilterIsSubseq(projects, (q: Project) => Keep(q, search, f));
  }

  /** With nothing typed and nothing selected, every project is shown. */
  lemma NoFilterShowsAll(projects: seq<Project>)
    ensures FilterProjects(projects, "", NoFilters) == projects
  {
  }

  /** The timeline filter changes nothing. */
  lemma TimelineIgnored(projects: seq<Project>, search: string, f: Filters, timeline: string)
    ensures FilterProjects(projects, search, f.(timeline := timeline)) == FilterProjects(projects, search, f)
  {
  }

  /** `handleFlagProject(id)`: the projects with that id have `flagged`
      negated; every other project, and every other field, is unchanged. */
  function FlagProject(projects: seq<Project>, id: int): (r: seq<Project>)
    ensures |r| == |projects|
    ensures forall i | 0 <= i < |projects| && projects[i].id != id :: r[i] == projects[i]
    ensures forall i | 0 <= i < |projects| && projects[i].id == id ::
      r[i].flagged == !projects[i].flagged && r[i].(flagged := projects[i].flagged) == projects[i]
  {
    Map(projects, (p: Project) => if p.id == id then p.(flagged := !p.flagged) else p)
  }

  /** Flagging twice restores the list. */
  lemma FlagTwiceRestores(projects: seq<Project>, id: int)
    ensures FlagProject(FlagProject(projects, id), id) == projects
  {
    var r := FlagProject(FlagProject(projects, id), id);
    assert forall i | 0 <= i < |projects| :: r[i] == projects[i];
  }

  /** The distinct values of one column, in order of first appearance:
      `[...new Set(projects.map(column))]`. */
  function Options(projects: seq<Project>, column: Project -> string): (r: seq<string>)
    ensures NoDuplicates(r)
    ensures forall v :: v in r <==> exists i | 0 <= i < |projects| :: column(projects[i]) == v
  {
    var values := Map(projects, column);
    assert forall v :: v in values <==> exists i | 0 <= i < |projects| :: column(projects[i]) == v by {
      forall v | v in values ensures exists i | 0 <= i < |projects| :: column(projects[i]) == v {
        var i :| 0 <= i < |values| && values[i] == v;
      }
    }
    Distinct(values)
  }

  /** The company, status and type drop-downs. */
  function Companies(projects: seq<Project>): seq<string> {
    Options(projects, (p: Project) => p.company)
  }

  function Statuses(projects: seq<Project>): seq<string> {
    Options(projects, (p: Project) => p.status)
  }

  function ProjectTypes(projects: seq<Project>): seq<string> {
    Options(projects, (p: Project) => p.projectType)
  }

  /** The summary cards. Each card counts the projects that pass its test,
      and shows 0 exactly when none does. */
  function OnTrackCount(projects: seq<Project>): (n: nat)
    ensures n <= |projects|
    ensures n == 0 <==> forall i | 0 <= i < |projects| :: projects[i].status != "On Track"
  {
    FilterEmptyIff(projects, (p: Project) => p.status == "On Track");
    |Filter(projects, (p: Project) => p.status == "On Track")|
  }

  function DelayedCount(projects: seq<Project>): (n: nat)
    ensures n <= |projects|
    ensures n == 0 <==> forall i | 0 <= i < |projects| :: projects[i].status != "Delayed"
  {
    FilterEmptyIff(projects, (p: Project) => p.status == "Delayed");
    |Filter(projects, (p: Project) => p.status == "Delayed")|
  }

  function FlaggedCount(projects: seq<Project>): (n: nat)
    ensures n <= |projects|
    ensures n == 0 <==> forall i | 0 <= i < |projects| :: !projects[i].flagged
  {
    FilterEmptyIff(projects, (p: Project) => p.flagged);
    |Filter(projects, (p: Project) => p.flagged)|
  }

  /** Every count is at most the total, and the on-track and delayed
      projects together are at most the total. */
  lemma CountsBounded(projects: seq<Project>)
    ensures OnTrackCount(projects) <= |projects|
    ensures DelayedCount(projects) <= |projects|
    ensures FlaggedCount(projects) <= |projects|
    ensures OnTrackCount(projects) + DelayedCount(projects) <= |projects|
  {
    CountDisjoint(projects, (p: Project) => p.status == "On Track", (p: Project) => p.status == "Delayed");
  }

  /** A project counts as flagged exactly when its flag is set. */
  lemma FlaggedCountMeaning(projects: seq<Project>, p: Project)
    ensures p in Filter(projects, (q: Project) => q.flagged) <==> p in projects && p.flagged
  {
    FilterMember(projects, (q: Project) => q.flagged, p);
  }
}
