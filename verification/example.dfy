/** Worked instances: the configuration the repository ships with, and
    four representative configurations.
 */
module Example {
  import opened Config
  import opened Resolver

  function EducationOf(institution: string, degree: string): EducationEntry {
    EducationEntry(institution, degree, None, None, None)
  }

  function ShippedProject(title: string, description: string): Project {
    Project(title, description, None, Some([]), Some("2026"))
  }

  /** The generated configuration: no experience, one education entry, four
      projects, and both stats records present but empty. */
  const Shipped: PortfolioConfig := PortfolioConfig(
    name := "AKSHAT SHARMA",
    headline := "Software Developer | Open Source Contributor",
    bio := "Dynamic and detail-oriented software developer.",
    location := "",
    skills := [Skill("TypeScript", ""), Skill("JavaScript", ""), Skill("CSS", ""),
               Skill("Python", ""), Skill("PLpgSQL", "")],
    experience := Some([]),
    education := Some([EducationOf("Indian Institute Of Information Technology Kota",
                                   "Bachelor Of Technology")]),
    projects := Some([ShippedProject("LoopIn", "A social utility platform for college students."),
                      ShippedProject("LoopAi", "The intelligent layer for LoopIn."),
                      ShippedProject("ChatflowAi", "A platform for businesses to engage on social media."),
                      ShippedProject("Trello", "A clone of the project management tool.")]),
    githubStats := Some(GithubStats(None, None, None, None)),
    leetcodeStats := Some(LeetcodeStats(None, None, None, None, None)),
    socialLinks := map[],
    contact := Contact(None),
    sections := Some(SectionToggles(true, true, true, false, false, true, true)))

  /** The shipped page navigates intro, projects, education, connect: the
      empty stats records, whose counts are missing, hide the stats section. */
  lemma {:induction false} ShippedNav()
    ensures NavSections(Resolve(Shipped)) == [Intro, Projects, Education, Connect]
  {
  }

  /** With no list entries and no positive count, only the two fixed
      sections remain. */
  lemma {:induction false} BareNav(c: PortfolioConfig)
    requires !HasEntries(c.projects) && !HasEntries(c.experience) && !HasEntries(c.education)
    requires !HasGithubStats(c.githubStats) && !HasLeetcodeStats(c.leetcodeStats)
    ensures NavSections(Resolve(c)) == [Intro, Connect]
  {
  }

  /** With every optional section qualifying, the list is the full page order. */
  lemma {:induction false} FullNav(c: PortfolioConfig)
    requires HasEntries(c.projects) && HasEntries(c.experience) && HasEntries(c.education)
    requires HasGithubStats(c.githubStats) && HasLeetcodeStats(c.leetcodeStats)
    ensures NavSections(Resolve(c)) == Canonical
  {
  }

  /** No experience, some projects and education, no stats records. */
  lemma {:induction false} ProjectsAndEducationNav(c: PortfolioConfig)
    requires c.experience == Some([])
    requires c.projects.Some? && |c.projects.value| == 2
    requires c.education.Some? && |c.education.value| == 1
    requires c.githubStats.None? && c.leetcodeStats.None?
    ensures NavSections(Resolve(c)) == [Intro, Projects, Education, Connect]
  {
  }

  /** A LeetCode count alone puts `stats` in the list once, right before
      `connect`. */
  lemma {:induction false} LeetcodeOnlyNav(c: PortfolioConfig)
    requires c.githubStats.None?
    requires c.leetcodeStats.Some? && c.leetcodeStats.value.totalSolved == Some(5)
    ensures Occurrences(NavSections(Resolve(c)), Stats) == 1
    ensures NavSections(Resolve(c))[|NavSections(Resolve(c))| - 2] == Stats
  {
    StatsNavigableOnce(c);
  }
}
