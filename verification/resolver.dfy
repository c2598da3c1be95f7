/** The section-visibility resolver of the portfolio page: five presence flags
    derived from the configuration, and the ordered list of section ids that
    the side navigation shows.
 */
module Resolver {
  import opened Config

  /** The sections the page can have. */
  datatype SectionId = Intro | Projects | Experience | Education | Stats | Connect

  /** The `id` attribute the page gives each section. */
  function Name(id: SectionId): string {
    match id
    case Intro => "intro"
    case Projects => "projects"
    case Experience => "experience"
    case Education => "education"
    case Stats => "stats"
    case Connect => "connect"
  }

  /** The slot of each section in the page's array of section elements,
      which is also its position in page order. */
  function Slot(id: SectionId): nat {
    match id
    case Intro => 0
    case Projects => 1
    case Experience => 2
    case Education => 3
    case Stats => 4
    case Connect => 5
  }

  /** Every section, in page order. */
  const Canonical: seq<SectionId> := [Intro, Projects, Experience, Education, Stats, Connect]

  datatype Flags = Flags(
    hasExperience: bool,
    hasProjects: bool,
    hasEducation: bool,
    hasGithubStats: bool,
    hasLeetcodeStats: bool)

  /** `list && list.length > 0`: an absent list counts as an empty one. */
  function HasEntries<T>(xs: Option<seq<T>>): bool {
    match xs
    case None => false
    case Some(s) => |s| > 0
  }

  /** `count > 0` in JavaScript: an undefined count compares false. */
  function IsPositive(n: Option<int>): bool {
    match n
    case None => false
    case Some(k) => k > 0
  }

  function HasGithubStats(g: Option<GithubStats>): bool {
    match g
    case None => false
    case Some(s) => IsPositive(s.totalRepos)
  }

  function HasLeetcodeStats(l: Option<LeetcodeStats>): bool {
    match l
    case None => false
    case Some(s) => IsPositive(s.totalSolved)
  }

  /** The presence flags; `c.sections` is deliberately not consulted. A list
      flag needs the list present and non-empty; a stats flag needs the record
      present with a positive count. */
  function Resolve(c: PortfolioConfig): (f: Flags)
    ensures f.hasProjects <==> c.projects.Some? && |c.projects.value| > 0
    ensures f.hasExperience <==> c.experience.Some? && |c.experience.value| > 0
    ensures f.hasEducation <==> c.education.Some? && |c.education.value| > 0
    ensures f.hasGithubStats <==> c.githubStats.Some? && c.githubStats.value.totalRepos.Some?
                                  && c.githubStats.value.totalRepos.value > 0
    ensures f.hasLeetcodeStats <==> c.leetcodeStats.Some? && c.leetcodeStats.value.totalSolved.Some?
                                    && c.leetcodeStats.value.totalSolved.value > 0
  {
    Flags(
      hasExperience := HasEntries(c.experience),
      hasProjects := HasEntries(c.projects),
      hasEducation := HasEntries(c.education),
      hasGithubStats := HasGithubStats(c.githubStats),
      hasLeetcodeStats := HasLeetcodeStats(c.leetcodeStats))
  }

  predicate HasAnyStats(f: Flags) {
    f.hasGithubStats || f.hasLeetcodeStats
  }

  /** The ids appear in strictly increasing slot order. */
  predicate InPageOrder(s: seq<SectionId>) {
    forall i, j :: 0 <= i < j < |s| ==> Slot(s[i]) < Slot(s[j])
  }

  predicate NoDuplicates<T(==)>(s: seq<T>) {
    forall i, j :: 0 <= i < j < |s| ==> s[i] != s[j]
  }

  /** The navigation list: `intro`, then each optional section whose flag
      holds, then `connect`. */
  function NavSections(f: Flags): (r: seq<SectionId>)
    ensures 2 <= |r| <= |Canonical|
    ensures r[0] == Intro && r[|r| - 1] == Connect
    ensures Projects in r <==> f.hasProjects
    ensures Experience in r <==> f.hasExperience
    ensures Education in r <==> f.hasEducation
    ensures Stats in r <==> HasAnyStats(f)
  {
    [Intro]
    + ((if f.hasProjects then [Projects] else [])
    + ((if f.hasExperience then [Experience] else [])
    + ((if f.hasEducation then [Education] else [])
    + ((if HasAnyStats(f) then [Stats] else [])
    + [Connect]))))
  }

  /** Whether the section `id` exists on the page under the flags `f`: the
      guard of its element. */
  predicate Shown(f: Flags, id: SectionId) {
    match id
    case Intro => true
    case Projects => f.hasProjects
    case Experience => f.hasExperience
    case Education => f.hasEducation
    case Stats => HasAnyStats(f)
    case Connect => true
  }

  /** A section is shown exactly when the navigation list names it. */
  lemma {:induction false} ShownIffNavigable(f: Flags, id: SectionId)
    ensures Shown(f, id) <==> id in NavSections(f)
  {
  }

  /** The elements of `ids` that are shown, in their original order. */
  function Keep(f: Flags, ids: seq<SectionId>): (r: seq<SectionId>)
    ensures |r| <= |ids|
    ensures forall i :: 0 <= i < |r| ==> Shown(f, r[i]) && r[i] in ids
  {
    if |ids| == 0 then []
    else if Shown(f, ids[0]) then [ids[0]] + Keep(f, ids[1..])
    else Keep(f, ids[1..])
  }

  /** Filtering keeps exactly the shown elements. */
  lemma {:induction false} KeepMembership(f: Flags, ids: seq<SectionId>)
    ensures forall x :: x in Keep(f, ids) <==> x in ids && Shown(f, x)
    decreases |ids|
  {
    if |ids| > 0 {
      KeepMembership(f, ids[1..]);
      assert ids == [ids[0]] + ids[1..];
    }
  }

  /** `a` can be obtained from `b` by deleting elements. */
  predicate IsSubsequence(a: seq<SectionId>, b: seq<SectionId>)
    decreases |b|
  {
    if |a| == 0 then true
    else if |b| == 0 then false
    else if a[0] == b[0] then IsSubsequence(a[1..], b[1..])
    else IsSubsequence(a, b[1..])
  }

  function Occurrences(s: seq<SectionId>, x: SectionId): nat {
    if |s| == 0 then 0
    else (if s[0] == x then 1 else 0) + Occurrences(s[1..], x)
  }

  /** The navigation list is the page order with the hidden sections removed. */
  lemma {:induction false} NavIsFilteredPageOrder(f: Flags)
    ensures NavSections(f) == Keep(f, Canonical)
  {
    var tail := [Projects, Experience, Education, Stats, Connect];
    KeepStep(f, Intro, tail);
    assert [Intro] + tail == Canonical;
    KeepOptionalSections(f);
  }

  /** The sections after `intro` survive filtering exactly as the page pushes them. */
  lemma {:induction false} KeepOptionalSections(f: Flags)
    ensures Keep(f, [Projects, Experience, Education, Stats, Connect])
            == (if f.hasProjects then [Projects] else [])
               + ((if f.hasExperience then [Experience] else [])
               + ((if f.hasEducation then [Education] else [])
               + ((if HasAnyStats(f) then [Stats] else [])
               + [Connect])))
  {
    var tail := [Experience, Education, Stats, Connect];
    KeepStep(f, Projects, tail);
    assert [Projects] + tail == [Projects, Experience, Education, Stats, Connect];
    KeepLaterSections(f);
  }

  lemma {:induction false} KeepLaterSections(f: Flags)
    ensures Keep(f, [Experience, Education, Stats, Connect])
            == (if f.hasExperience then [Experience] else [])
               + ((if f.hasEducation then [Education] else [])
               + ((if HasAnyStats(f) then [Stats] else [])
               + [Connect]))
  {
    var tail := [Education, Stats, Connect];
    KeepStep(f, Experience, tail);
    assert [Experience] + tail == [Experience, Education, Stats, Connect];
    KeepStep(f, Education, [Stats, Connect]);
    assert [Education] + [Stats, Connect] == tail;
    KeepStep(f, Stats, [Connect]);
    assert [Stats] + [Connect] == [Stats, Connect];
    KeepStep(f, Connect, []);
    assert [Connect] + [] == [Connect];
  }

  lemma {:induction false} KeepStep(f: Flags, x: SectionId, rest: seq<SectionId>)
    ensures Keep(f, [x] + rest) == (if Shown(f, x) then [x] else []) + Keep(f, rest)
  {
    assert ([x] + rest)[1..] == rest;
  }

  /** Filtering a list that is in page order leaves it in page order. */
  lemma {:induction false} KeepPreservesPageOrder(f: Flags, ids: seq<SectionId>)
    requires InPageOrder(ids)
    ensures InPageOrder(Keep(f, ids))
    decreases |ids|
  {
    if |ids| > 0 {
      var tail := ids[1..];
      assert InPageOrder(tail) by {
        forall i, j | 0 <= i < j < |tail| ensures Slot(tail[i]) < Slot(tail[j]) {
          assert tail[i] == ids[i + 1] && tail[j] == ids[j + 1];
        }
      }
      KeepPreservesPageOrder(f, tail);
      var k := Keep(f, tail);
      if Shown(f, ids[0]) {
        var r := [ids[0]] + k;
        forall j | 0 <= j < |k| ensures Slot(ids[0]) < Slot(k[j]) {
          var m :| 0 <= m < |tail| && tail[m] == k[j];
          assert ids[m + 1] == k[j];
        }
        forall i, j | 0 <= i < j < |r| ensures Slot(r[i]) < Slot(r[j]) {
          assert r[j] == k[j - 1];
          if i > 0 {
            assert r[i] == k[i - 1];
          }
        }
        assert InPageOrder(r);
      }
    }
  }

  /** Strictly increasing slots rule out a repeated id. */
  lemma {:induction false} PageOrderHasNoDuplicates(s: seq<SectionId>)
    requires InPageOrder(s)
    ensures NoDuplicates(s)
  {
  }

  /** The navigation ids appear in page order, so none is repeated. */
  lemma {:induction false} NavSectionsInPageOrder(f: Flags)
    ensures InPageOrder(NavSections(f))
    ensures NoDuplicates(NavSections(f))
  {
    NavIsFilteredPageOrder(f);
    KeepPreservesPageOrder(f, Canonical);
    PageOrderHasNoDuplicates(NavSections(f));
  }

  lemma {:induction false} KeepIsSubsequence(f: Flags, ids: seq<SectionId>)
    ensures IsSubsequence(Keep(f, ids), ids)
    decreases |ids|
  {
    if |ids| > 0 {
      KeepIsSubsequence(f, ids[1..]);
      if Shown(f, ids[0]) {
        assert Keep(f, ids)[1..] == Keep(f, ids[1..]);
      }
    }
  }

  /** The navigation list is a subsequence of the page order. */
  lemma {:induction false} NavIsSubsequenceOfPageOrder(f: Flags)
    ensures IsSubsequence(NavSections(f), Canonical)
  {
    NavIsFilteredPageOrder(f);
    KeepIsSubsequence(f, Canonical);
  }

  /** In a list without duplicates every value occurs at most once. */
  lemma {:induction false} OccurrencesWithoutDuplicates(s: seq<SectionId>, x: SectionId)
    requires NoDuplicates(s)
    ensures Occurrences(s, x) == if x in s then 1 else 0
    decreases |s|
  {
    if |s| > 0 {
      assert NoDuplicates(s[1..]) by {
        forall i, j | 0 <= i < j < |s[1..]| ensures s[1..][i] != s[1..][j] {
          assert s[1..][i] == s[i + 1] && s[1..][j] == s[j + 1];
        }
      }
      OccurrencesWithoutDuplicates(s[1..], x);
      if s[0] == x {
        assert x !in s[1..] by {
          forall k | 0 <= k < |s[1..]| ensures s[1..][k] != x {
            assert s[1..][k] == s[k + 1];
          }
        }
      } else {
        assert x in s <==> x in s[1..] by {
          assert s == [s[0]] + s[1..];
        }
      }
    }
  }

  /** `projects` is navigable exactly when the projects list is present and
      non-empty; likewise for `experience` and `education`. */
  lemma {:induction false} ListSectionsNavigable(c: PortfolioConfig)
    ensures Projects in NavSections(Resolve(c))
            <==> c.projects.Some? && |c.projects.value| > 0
    ensures Experience in NavSections(Resolve(c))
            <==> c.experience.Some? && |c.experience.value| > 0
    ensures Education in NavSections(Resolve(c))
            <==> c.education.Some? && |c.education.value| > 0
  {
  }

  /** `stats` occurs exactly once when some stats record carries a positive
      count, and not at all otherwise. */
  lemma {:induction false} StatsNavigableOnce(c: PortfolioConfig)
    ensures Occurrences(NavSections(Resolve(c)), Stats)
            == if (c.githubStats.Some? && c.githubStats.value.totalRepos.Some?
                   && c.githubStats.value.totalRepos.value > 0)
               || (c.leetcodeStats.Some? && c.leetcodeStats.value.totalSolved.Some?
                   && c.leetcodeStats.value.totalSolved.value > 0)
               then 1 else 0
  {
    NavSectionsInPageOrder(Resolve(c));
    OccurrencesWithoutDuplicates(NavSections(Resolve(c)), Stats);
  }

  /** An absent list gives the same page as an empty one. */
  lemma {:induction false} AbsentListLikeEmpty(c: PortfolioConfig)
    ensures Resolve(c.(projects := None)) == Resolve(c.(projects := Some([])))
    ensures Resolve(c.(experience := None)) == Resolve(c.(experience := Some([])))
    ensures Resolve(c.(education := None)) == Resolve(c.(education := Some([])))
  {
  }

  /** A GitHub record whose repository count is zero, negative or missing
      gives the same page as no record at all. */
  lemma {:induction false} NonPositiveReposLikeAbsent(c: PortfolioConfig, g: GithubStats)
    requires !IsPositive(g.totalRepos)
    ensures Resolve(c.(githubStats := Some(g))) == Resolve(c.(githubStats := None))
  {
  }

  /** A LeetCode record whose solved count is zero, negative or missing gives
      the same page as no record at all. */
  lemma {:induction false} NonPositiveSolvedLikeAbsent(c: PortfolioConfig, l: LeetcodeStats)
    requires !IsPositive(l.totalSolved)
    ensures Resolve(c.(leetcodeStats := Some(l))) == Resolve(c.(leetcodeStats := None))
  {
  }

  /** The generated `sections` switches have no effect on the page. */
  lemma {:induction false} SectionTogglesIgnored(c: PortfolioConfig, t: Option<SectionToggles>)
    ensures Resolve(c.(sections := t)) == Resolve(c)
  {
  }
}
