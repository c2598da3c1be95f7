/** The fields of the portfolio configuration record that decide which
    sections exist and what their guards test, as the generated
    configuration file supplies them. Fields that the generator may omit are
    `Option`s: `None` stands for a JavaScript `undefined` field. Counts are
    unbounded integers; the page only ever compares them with zero.
 */
module Config {

  /** An optional field: `None` is an absent (undefined) field. */
  datatype Option<T> = None | Some(value: T)

  datatype Skill = Skill(name: string, category: string)

  datatype Job = Job(
    title: string,
    company: string,
    startDate: string,
    description: string,
    technologies: Option<seq<string>>)

  datatype EducationEntry = EducationEntry(
    institution: string,
    degree: string,
    startDate: Option<string>,
    endDate: Option<string>,
    fieldOfStudy: Option<string>)

  datatype Project = Project(
    title: string,
    description: string,
    url: Option<string>,
    tags: Option<seq<string>>,
    year: Option<string>)

  /** Every count may be missing: the generator writes `{}` when it has no data. */
  datatype GithubStats = GithubStats(
    totalRepos: Option<int>,
    totalStars: Option<int>,
    totalCommits: Option<int>,
    primaryLanguage: Option<string>)

  datatype LeetcodeStats = LeetcodeStats(
    totalSolved: Option<int>,
    easySolved: Option<int>,
    mediumSolved: Option<int>,
    hardSolved: Option<int>,
    ranking: Option<int>)

  datatype Contact = Contact(email: Option<string>)

  /** The per-section switches the generator writes. The page never reads them. */
  datatype SectionToggles = SectionToggles(
    showProjects: bool,
    showExperience: bool,
    showEducation: bool,
    showGithubStats: bool,
    showLeetcodeStats: bool,
    showAcademic: bool,
    showAchievements: bool)

  datatype PortfolioConfig = PortfolioConfig(
    name: string,
    headline: string,
    bio: string,
    location: string,
    skills: seq<Skill>,
    experience: Option<seq<Job>>,
    education: Option<seq<EducationEntry>>,
    projects: Option<seq<Project>>,
    githubStats: Option<GithubStats>,
    leetcodeStats: Option<LeetcodeStats>,
    socialLinks: map<string, string>,
    contact: Contact,
    sections: Option<SectionToggles>)
}
