/**
 * The typed records that pass between the server's store, its admin report and the admin page:
 * a validated resume analysis and the JSON shape of the admin statistics reply.
 */
module Records {

  /** The five per-category scores of a resume analysis. */
  datatype CategoryScores = CategoryScores(skills: real, experience: real, education: real, keywords: real, formatting: real)

  /** How far the resume's keywords cover the job description. */
  datatype KeywordMatch = KeywordMatch(matched: seq<string>, missing: seq<string>, matchPercentage: real)

  /** A resume analysis as the server stores it after validation. */
  datatype Report = Report(
    overallScore: real,
    categoryScores: CategoryScores,
    strengths: seq<string>,
    weaknesses: seq<string>,
    suggestions: seq<string>,
    keywordMatch: KeywordMatch,
    summary: string)

  /** One weakness with the number of times it occurs over all stored analyses. */
  datatype WeaknessCount = WeaknessCount(weakness: string, count: nat)

  datatype Summary = Summary(totalUsers: nat, totalAnalyses: nat, averageScore: real, last7DaysAnalyses: nat)

  /** One of the seven days of the daily activity window. */
  datatype DayRow = DayRow(date: string, analyses: nat, uniqueUsers: nat)

  /** One of the most recent analyses, as listed in the admin report. */
  datatype RecentRow = RecentRow(
    userId: string, userName: string, userEmail: string, score: real,
    analyzedAt: string, jobTitle: string, fileName: string)

  /** One known user, as listed in the admin report; `userId` is the user's email. */
  datatype UserRow = UserRow(
    userId: string, firstName: string, email: string,
    firstSeen: string, lastSeen: string, analysisCount: nat)

  /** The body of a successful admin statistics reply. */
  datatype AdminStats = AdminStats(
    summary: Summary,
    dailyAnalytics: seq<DayRow>,
    categoryAverages: CategoryScores,
    topWeaknesses: seq<WeaknessCount>,
    recentAnalyses: seq<RecentRow>,
    userDetails: seq<UserRow>)
}
