/**
 * The server's in-memory analytics (Backend/src/index.ts): the request checks of
 * POST /api/analyze-resume, the user table keyed by email, the append-only log of
 * analyses, the per-day counters, the admin password gate with its login endpoint, and
 * the report served by GET /admin/stats.
 * Text extraction, the language-model analysis and the clock are inputs: the first two
 * are function parameters, the current time, today's date key and the seven date keys
 * of the activity window are passed in.
 */
module AnalyticsStore {
  import opened Common
  import Text
  import opened Records
  import Weaknesses
  import Sums

  // ---------------------------------------------------------------------------
  // Requests and replies of POST /api/analyze-resume
  // ---------------------------------------------------------------------------

  /** The uploaded file as the upload middleware hands it over. */
  datatype UploadedFile = UploadedFile(originalName: string, size: nat, buffer: seq<bv8>)

  /** The multipart request; a body field that is absent or empty is "". */
  datatype AnalyzeRequest = AnalyzeRequest(
    file: Option<UploadedFile>,
    jobDescription: string,
    userId: string,
    jobTitle: string,
    userName: string,
    userEmail: string)

  datatype Reply =
    | BadRequest(error: string, message: string)                   // status 400
    | InternalError(error: string, message: string)                // status 500
    | Analysed(analysis: Report, originalName: string, fileSize: nat)

  const NoFileReply := BadRequest("No resume file uploaded", "Please upload a PDF or DOC/DOCX file")
  const NoJobDescriptionReply := BadRequest("Job description is required", "Please provide a job description for analysis")
  const NoUserIdReply := BadRequest("User ID is required", "Please provide a userId for tracking")
  const NoUserInfoReply := BadRequest("User information is required", "Please provide userName and userEmail for tracking")
  const NoTextReply := BadRequest("Could not extract text from resume", "Please ensure the file contains readable text")

  /** A thrown error, caught by the handler and answered with status 500. */
  function Failure(message: string): Reply {
    InternalError("Internal server error", message)
  }

  // ---------------------------------------------------------------------------
  // The upload middleware in front of the handler
  // ---------------------------------------------------------------------------

  /** The MIME types the upload filter lets through. */
  const UploadAllowedTypes: seq<string> := [
    "application/pdf",
    "application/msword",
    "application/vnd.openxmlformats-officedocument.wordprocessingml.document"]

  /** The upload size limit, 5 MiB. */
  const MaxUploadSize: nat := 5 * 1024 * 1024

  const WrongTypeReply := InternalError("Something went wrong", "Only PDF and DOC/DOCX files are allowed")
  const TooLargeReply := BadRequest("File too large", "File size should not exceed 5MB")

  /**
   * What the upload stage answers for a file of the given MIME type and size before the
   * handler runs: the filter refuses a type not on the list (its error reaches the error
   * middleware, which answers 500), then a file over the limit is answered with 400.
   * None means the file is handed to the handler.
   */
  function UploadReply(mimeType: string, size: nat): (r: Option<Reply>)
    ensures r == Some(WrongTypeReply) <==> mimeType !in UploadAllowedTypes
    ensures r == Some(TooLargeReply) <==> mimeType in UploadAllowedTypes && size > MaxUploadSize
    ensures r.None? <==> mimeType in UploadAllowedTypes && size <= MaxUploadSize
  {
    if mimeType !in UploadAllowedTypes then Some(WrongTypeReply)
    else if size > MaxUploadSize then Some(TooLargeReply)
    else None
  }

  /** The outcome of the checks: a reply that leaves the store alone, or an analysis to record. */
  datatype Admission = Rejected(reply: Reply) | Admitted(file: UploadedFile, analysis: Report)

  /** The four body checks that come before text extraction all pass. */
  predicate FieldsPresent(req: AnalyzeRequest) {
    req.file.Some? && req.jobDescription != "" && req.userId != "" && req.userName != "" && req.userEmail != ""
  }

  /**
   * The checks of the analyze handler in their order: file, job description, user id,
   * user name and email, the extracted text (absent or blank fails), then the analysis.
   * Each rejection is decided by the first check that fails.
   */
  function Admit(req: AnalyzeRequest, extract: (seq<bv8>, string) -> Result<string>,
                 analyze: (string, string) -> Result<Report>): (a: Admission)
    ensures a == Rejected(NoFileReply) <==> req.file.None?
    ensures a == Rejected(NoJobDescriptionReply) <==> req.file.Some? && req.jobDescription == ""
    ensures a == Rejected(NoUserIdReply) <==> req.file.Some? && req.jobDescription != "" && req.userId == ""
    ensures a == Rejected(NoUserInfoReply) <==>
              req.file.Some? && req.jobDescription != "" && req.userId != "" && (req.userName == "" || req.userEmail == "")
    ensures a == Rejected(NoTextReply) <==>
              FieldsPresent(req) && extract(req.file.value.buffer, req.file.value.originalName).Ok? &&
              Text.AllWhitespace(extract(req.file.value.buffer, req.file.value.originalName).value)
    ensures a.Rejected? && a.reply.InternalError? ==> a.reply.error == "Internal server error"
    ensures a.Admitted? <==>
              && FieldsPresent(req)
              && var text := extract(req.file.value.buffer, req.file.value.originalName);
              && text.Ok? && !Text.AllWhitespace(text.value)
              && analyze(text.value, req.jobDescription).Ok?
    ensures a.Admitted? ==>
              a.file == req.file.value &&
              analyze(extract(a.file.buffer, a.file.originalName).value, req.jobDescription) == Ok(a.analysis)
  {
    if req.file.None? then Rejected(NoFileReply)
    else if req.jobDescription == "" then Rejected(NoJobDescriptionReply)
    else if req.userId == "" then Rejected(NoUserIdReply)
    else if req.userName == "" || req.userEmail == "" then Rejected(NoUserInfoReply)
    else
      match extract(req.file.value.buffer, req.file.value.originalName)
      case Err(m) => Rejected(Failure(m))
      case Ok(text) =>
        Text.TrimEmptyIffBlank(text);
        if Text.Trim(text) == [] then Rejected(NoTextReply)
        else
          match analyze(text, req.jobDescription)
          case Err(m) => Rejected(Failure(m))
          case Ok(report) => Admitted(req.file.value, report)
  }

  // ---------------------------------------------------------------------------
  // The store's records and their updates
  // ---------------------------------------------------------------------------

  datatype UserRecord = UserRecord(firstName: string, email: string, firstSeen: string, lastSeen: string, analysisCount: nat)

  datatype Performance = Performance(
    userId: string, userName: string, userEmail: string, analysis: Report,
    analyzedAt: string, jobTitle: string, fileName: string, fileSize: nat)

  datatype DayStats = DayStats(analyses: nat, uniqueUsers: set<string>)

  const DefaultJobTitle := "Not specified"

  /** The user record after one more analysis by `email` at time `now`. */
  function UpsertUser(users: map<string, UserRecord>, name: string, email: string, now: string): (u: UserRecord)
    ensures email !in users ==> u == UserRecord(name, email, now, now, 1)
    ensures email in users ==>
              && u.analysisCount == users[email].analysisCount + 1
              && u.firstSeen == users[email].firstSeen
              && u.lastSeen == now && u.firstName == name && u.email == email
  {
    if email !in users then UserRecord(name, email, now, now, 1)
    else users[email].(lastSeen := now, analysisCount := users[email].analysisCount + 1, firstName := name, email := email)
  }

  /** The log entry of one analysis; an empty job title is logged as "Not specified". */
  function LogEntry(req: AnalyzeRequest, file: UploadedFile, analysis: Report, now: string): (p: Performance)
    ensures p.jobTitle == if req.jobTitle == "" then DefaultJobTitle else req.jobTitle
    ensures p.userEmail == req.userEmail && p.analysis == analysis && p.analyzedAt == now
  {
    Performance(req.userId, req.userName, req.userEmail, analysis, now,
                if req.jobTitle == "" then DefaultJobTitle else req.jobTitle,
                file.originalName, file.size)
  }

  /** Today's counters after one more analysis by `email`. */
  function BumpDay(days: map<string, DayStats>, today: string, email: string): (d: DayStats)
    ensures d.analyses == (if today in days then days[today].analyses else 0) + 1
    ensures d.uniqueUsers == (if today in days then days[today].uniqueUsers else {}) + {email}
  {
    var day := if today in days then days[today] else DayStats(0, {});
    DayStats(day.analyses + 1, day.uniqueUsers + {email})
  }

  /** The number of logged analyses by `email`. */
  function CountFor(ps: seq<Performance>, email: string): (n: nat)
    ensures n <= |ps|
  {
    if |ps| == 0 then 0
    else CountFor(ps[..|ps| - 1], email) + (if ps[|ps| - 1].userEmail == email then 1 else 0)
  }

  function UserCounts(users: map<string, UserRecord>): map<string, nat> {
    map e | e in users :: users[e].analysisCount
  }

  function DayCounts(days: map<string, DayStats>): map<string, nat> {
    map d | d in days :: days[d].analyses
  }

  /**
   * What the store keeps true: the key order lists every user once; each user record is
   * keyed by its email and counts exactly that user's logged analyses; the counts add up
   * to the log length; every day has at most as many unique users as analyses, all of them
   * known users; and the day counters add up to the log length too.
   */
  ghost predicate Consistent(users: map<string, UserRecord>, order: seq<string>,
                             ps: seq<Performance>, days: map<string, DayStats>)
  {
    UsersConsistent(users, order, ps) && DaysConsistent(users, days) && Totals(users, ps, days)
  }

  /** The user table, its key order and the log agree. */
  ghost predicate UsersConsistent(users: map<string, UserRecord>, order: seq<string>, ps: seq<Performance>) {
    && Weaknesses.NoDuplicates(order)
    && (forall e :: e in users <==> e in order)
    && (forall e :: e in users ==> users[e].email == e && users[e].analysisCount == CountFor(ps, e) && users[e].analysisCount >= 1)
    && (forall i :: 0 <= i < |ps| ==> ps[i].userEmail in users)
  }

  /** Every day has at most as many unique users as analyses, all of them known users. */
  ghost predicate DaysConsistent(users: map<string, UserRecord>, days: map<string, DayStats>) {
    forall d :: d in days ==> 1 <= |days[d].uniqueUsers| <= days[d].analyses && days[d].uniqueUsers <= users.Keys
  }

  /** The users' analysis counts and the day counters both add up to the log length. */
  ghost predicate Totals(users: map<string, UserRecord>, ps: seq<Performance>, days: map<string, DayStats>) {
    Sums.SumMap(UserCounts(users)) == |ps| && Sums.SumMap(DayCounts(days)) == |ps|
  }

  lemma CountForSnoc(ps: seq<Performance>, p: Performance, e: string)
    ensures CountFor(ps + [p], e) == CountFor(ps, e) + (if p.userEmail == e then 1 else 0)
  {
    assert (ps + [p])[..|ps|] == ps;
  }

  lemma {:induction false} CountForAbsent(ps: seq<Performance>, e: string)
    requires forall i :: 0 <= i < |ps| ==> ps[i].userEmail != e
    ensures CountFor(ps, e) == 0
  {
    if |ps| > 0 {
      CountForAbsent(ps[..|ps| - 1], e);
    }
  }

  lemma AddToSet(s: set<string>, x: string)
    ensures |s + {x}| <= |s| + 1
    ensures |s + {x}| >= 1
  {
    if x in s {
      assert s + {x} == s;
    } else {
      assert |s + {x}| == |s| + 1;
    }
  }

  /** Upserting a user raises the total of the users' analysis counts by one. */
  lemma UpsertUserTotal(users: map<string, UserRecord>, name: string, e: string, now: string)
    ensures Sums.SumMap(UserCounts(users[e := UpsertUser(users, name, e, now)])) == Sums.SumMap(UserCounts(users)) + 1
  {
    var u := UpsertUser(users, name, e, now);
    var counts := UserCounts(users);
    assert UserCounts(users[e := u]) == counts[e := u.analysisCount];
    Sums.SumMapUpdate(counts, e, u.analysisCount);
  }

  /** Recording one analysis keeps the user table consistent with the log. */
  lemma RecordKeepsUsersConsistent(users: map<string, UserRecord>, order: seq<string>, ps: seq<Performance>,
                                   p: Performance, name: string, now: string)
    requires UsersConsistent(users, order, ps)
    ensures var e := p.userEmail;
      UsersConsistent(users[e := UpsertUser(users, name, e, now)], if e in users then order else order + [e], ps + [p])
  {
    var e := p.userEmail;
    var users' := users[e := UpsertUser(users, name, e, now)];
    var order' := if e in users then order else order + [e];
    var ps' := ps + [p];
    forall x | x in users'
      ensures users'[x].analysisCount == CountFor(ps', x)
    {
      CountForSnoc(ps, p, x);
      if x == e && e !in users {
        CountForAbsent(ps, e);
      }
    }
    assert Weaknesses.NoDuplicates(order');
  }

  /** Bumping today's counter raises the total of the day counters by one. */
  lemma BumpDayTotal(days: map<string, DayStats>, today: string, e: string)
    ensures Sums.SumMap(DayCounts(days[today := BumpDay(days, today, e)])) == Sums.SumMap(DayCounts(days)) + 1
  {
    var b := BumpDay(days, today, e);
    var counts := DayCounts(days);
    var counts' := DayCounts(days[today := b]);
    assert counts' == counts[today := b.analyses];
    Sums.SumMapUpdate(counts, today, b.analyses);
  }

  /** Recording one analysis keeps the day counters consistent. */
  lemma RecordKeepsDaysConsistent(users: map<string, UserRecord>, days: map<string, DayStats>,
                                  e: string, users': map<string, UserRecord>, today: string)
    requires DaysConsistent(users, days)
    requires users.Keys + {e} <= users'.Keys
    ensures DaysConsistent(users', days[today := BumpDay(days, today, e)])
  {
    var days' := days[today := BumpDay(days, today, e)];
    AddToSet(if today in days then days[today].uniqueUsers else {}, e);
    forall d | d in days'
      ensures 1 <= |days'[d].uniqueUsers| <= days'[d].analyses && days'[d].uniqueUsers <= users'.Keys
    {
      if d != today {
        assert days'[d] == days[d];
      }
    }
  }

  /** Recording one analysis keeps both totals equal to the log length. */
  lemma RecordKeepsTotals(users: map<string, UserRecord>, ps: seq<Performance>, days: map<string, DayStats>,
                          p: Performance, name: string, now: string, today: string)
    requires Totals(users, ps, days)
    ensures var e := p.userEmail;
      Totals(users[e := UpsertUser(users, name, e, now)], ps + [p], days[today := BumpDay(days, today, e)])
  {
    UpsertUserTotal(users, name, p.userEmail, now);
    BumpDayTotal(days, today, p.userEmail);
  }

  /** Recording one analysis keeps the store consistent. */
  lemma RecordKeepsConsistent(users: map<string, UserRecord>, order: seq<string>, ps: seq<Performance>,
                              days: map<string, DayStats>, p: Performance, name: string, now: string, today: string)
    requires Consistent(users, order, ps, days)
    ensures var e := p.userEmail;
      Consistent(users[e := UpsertUser(users, name, e, now)],
                 if e in users then order else order + [e],
                 ps + [p],
                 days[today := BumpDay(days, today, e)])
  {
    var e := p.userEmail;
    RecordKeepsUsersConsistent(users, order, ps, p, name, now);
    RecordKeepsDaysConsistent(users, days, e, users[e := UpsertUser(users, name, e, now)], today);
    RecordKeepsTotals(users, ps, days, p, name, now, today);
  }

  /** The sum of the users' analysis counts bounds the number of users: users.size <= performances.length. */
  lemma UsersAtMostAnalyses(users: map<string, UserRecord>, order: seq<string>, ps: seq<Performance>, days: map<string, DayStats>)
    requires UsersConsistent(users, order, ps) && Totals(users, ps, days)
    ensures |users| <= |ps|
  {
    assert UserCounts(users).Keys == users.Keys;
    Sums.SumMapAtLeastSize(UserCounts(users));
  }

  // ---------------------------------------------------------------------------
  // The admin password gate and POST /admin/login
  // ---------------------------------------------------------------------------

  /** ADMIN_PASSWORD: the environment's value, or 'admin123' when it is absent or empty. */
  function AdminPassword(env: Option<string>): (pw: string)
    ensures pw != ""
    ensures env.Some? && env.value != "" ==> pw == env.value
  {
    if env.None? || env.value == "" then "admin123" else env.value
  }

  /**
   * The password the gate reads from the Authorization header as written: the second piece
   * of the header split at single spaces; None where the value would be `undefined` or the
   * empty header, neither of which equals a non-empty password.
   */
  function HeaderPasswordAsWritten(header: Option<string>): Option<string> {
    if header.None? || header.value == "" then None
    else
      var pieces := Text.SplitOn(header.value, ' ');
      if |pieces| >= 2 then Some(pieces[1]) else None
  }

  /** The gate as written: the password read from the header equals ADMIN_PASSWORD. */
  predicate AuthorizedAsWritten(header: Option<string>, adminPassword: string) {
    HeaderPasswordAsWritten(header) == Some(adminPassword)
  }

  /** What the header carries after the scheme: everything after its first space. */
  function HeaderPassword(header: Option<string>): Option<string> {
    if header.None? then None
    else
      var k := Text.IndexOfFrom(header.value, ' ', 0);
      if k == |header.value| then None else Some(header.value[k + 1..])
  }

  /** The corrected gate, behind which `GetAdminStatsFixed` serves the report. */
  predicate Authorized(header: Option<string>, adminPassword: string) {
    HeaderPassword(header) == Some(adminPassword)
  }

  datatype LoginReply = LoginOk(message: string, token: string) | LoginUnauthorized(error: string, message: string)

  /** POST /admin/login: the body's password, if it is exactly ADMIN_PASSWORD, comes back as the token. */
  function Login(password: Option<string>, adminPassword: string): (r: LoginReply)
    ensures r.LoginOk? <==> password == Some(adminPassword)
    ensures r.LoginOk? ==> r.token == adminPassword && r.message == "Login successful"
    ensures r.LoginUnauthorized? ==> r == LoginUnauthorized("Unauthorized", "Invalid password")
  {
    if password == Some(adminPassword) then LoginOk("Login successful", adminPassword)
    else LoginUnauthorized("Unauthorized", "Invalid password")
  }

  /** `Bearer <password>`, the header the admin page sends. */
  function BearerHeader(token: string): string {
    "Bearer " + token
  }

  /**
   * The gate as written admits the header the admin page builds from the login token
   * exactly when the password has no space in it.
   */
  lemma AsWrittenGateNeedsSpaceFreePassword(pw: string)
    requires pw != ""
    ensures AuthorizedAsWritten(Some(BearerHeader(pw)), pw) <==> ' ' !in pw
  {
    assert BearerHeader(pw) == "Bearer" + [' '] + pw;
    Text.SplitAtFirst("Bearer", pw, ' ');
    var pieces := Text.SplitOn(pw, ' ');
    Text.FirstPieceIsPrefix(pw, ' ');
    if ' ' in pw {
      var j :| 0 <= j < |pw| && pw[j] == ' ';
      assert Text.IndexOfFrom(pw, ' ', 0) <= j;
      assert |pieces[0]| < |pw|;
    }
  }

  /** A concrete password that logs in but is then refused by the gate as written. */
  lemma PasswordWithSpaceLocksOut()
    ensures Login(Some("open sesame"), "open sesame").LoginOk?
    ensures !AuthorizedAsWritten(Some(BearerHeader(Login(Some("open sesame"), "open sesame").token)), "open sesame")
  {
    assert "open sesame"[4] == ' ';
    AsWrittenGateNeedsSpaceFreePassword("open sesame");
  }

  /** The corrected gate reads back whatever follows the scheme. */
  lemma HeaderPasswordAfterScheme(scheme: string, pw: string)
    requires ' ' !in scheme
    ensures HeaderPassword(Some(scheme + [' '] + pw)) == Some(pw)
  {
    Text.FirstIndexOf(scheme, pw, ' ');
    assert (scheme + [' '] + pw)[|scheme| + 1..] == pw;
  }

  /** Logging in and sending the token back as a bearer header passes the corrected gate, for every password. */
  lemma LoginTokenPassesGate(env: Option<string>)
    ensures var pw := AdminPassword(env);
      Login(Some(pw), pw).LoginOk? && Authorized(Some(BearerHeader(Login(Some(pw), pw).token)), pw)
  {
    var pw := AdminPassword(env);
    assert BearerHeader(pw) == "Bearer" + [' '] + pw;
    HeaderPasswordAfterScheme("Bearer", pw);
  }

  /** The corrected gate agrees with the gate as written whenever the password has no space. */
  lemma GatesAgreeWithoutSpace(pw: string)
    requires pw != "" && ' ' !in pw
    ensures AuthorizedAsWritten(Some(BearerHeader(pw)), pw) == Authorized(Some(BearerHeader(pw)), pw)
  {
    AsWrittenGateNeedsSpaceFreePassword(pw);
    assert BearerHeader(pw) == "Bearer" + [' '] + pw;
    HeaderPasswordAfterScheme("Bearer", pw);
  }

  // ---------------------------------------------------------------------------
  // The admin report of GET /admin/stats
  // ---------------------------------------------------------------------------

  /** The date keys of the activity window, oldest first: six days ago down to today. */
  function Last7Days(daysAgoKey: nat -> string): (dates: seq<string>)
    ensures |dates| == 7
    ensures forall i :: 0 <= i < 7 ==> dates[i] == daysAgoKey(6 - i)
  {
    seq(7, i requires 0 <= i < 7 => daysAgoKey(6 - i))
  }

  function DayRowFor(days: map<string, DayStats>, date: string): DayRow {
    if date in days then DayRow(date, days[date].analyses, |days[date].uniqueUsers|) else DayRow(date, 0, 0)
  }

  function DailyAnalytics(days: map<string, DayStats>, dates: seq<string>): seq<DayRow> {
    seq(|dates|, i requires 0 <= i < |dates| => DayRowFor(days, dates[i]))
  }

  /** The `reduce` that adds up the analyses of the rows. */
  function RowsTotal(rows: seq<DayRow>): nat {
    if |rows| == 0 then 0 else RowsTotal(rows[..|rows| - 1]) + rows[|rows| - 1].analyses
  }

  /** The analyses of the day keys in `dates`, a day without counters counting 0. */
  function DatesTotal(days: map<string, DayStats>, dates: seq<string>): nat {
    if |dates| == 0 then 0
    else DatesTotal(days, dates[..|dates| - 1]) + (if dates[|dates| - 1] in days then days[dates[|dates| - 1]].analyses else 0)
  }

  /** The daily rows: one per date in order, 0 for a day without counters; their total is the window's total. */
  lemma DailyAnalyticsRows(days: map<string, DayStats>, dates: seq<string>)
    ensures var rows := DailyAnalytics(days, dates);
      && |rows| == |dates|
      && (forall i :: 0 <= i < |dates| ==> rows[i].date == dates[i])
      && (forall i :: 0 <= i < |dates| && dates[i] !in days ==> rows[i].analyses == 0 && rows[i].uniqueUsers == 0)
      && RowsTotal(rows) == DatesTotal(days, dates)
  {
    DailyTotal(days, dates);
  }

  lemma {:induction false} DailyTotal(days: map<string, DayStats>, dates: seq<string>)
    ensures RowsTotal(DailyAnalytics(days, dates)) == DatesTotal(days, dates)
  {
    if |dates| > 0 {
      var init := dates[..|dates| - 1];
      DailyTotal(days, init);
      assert DailyAnalytics(days, dates)[..|dates| - 1] == DailyAnalytics(days, init);
    }
  }

  lemma {:induction false} DatesTotalIsSumOver(days: map<string, DayStats>, dates: seq<string>)
    requires Weaknesses.NoDuplicates(dates)
    ensures DatesTotal(days, dates) == Sums.SumOver(DayCounts(days), set d | d in dates)
  {
    var keys := set d | d in dates;
    if |dates| == 0 {
      assert keys == {};
    } else {
      var init, last := dates[..|dates| - 1], dates[|dates| - 1];
      assert dates == init + [last];
      assert Weaknesses.NoDuplicates(init);
      DatesTotalIsSumOver(days, init);
      assert last !in init;
      ElementsOfSnoc(init, last);
      var counts := DayCounts(days);
      Sums.SumOverRemove(counts, keys, last);
      assert (if last in counts then counts[last] else 0) == (if last in days then days[last].analyses else 0);
    }
  }

  lemma ElementsOfSnoc(init: seq<string>, last: string)
    requires last !in init
    ensures last in (set d | d in init + [last])
    ensures (set d | d in init + [last]) - {last} == set d | d in init
  {
    assert forall d :: d in init + [last] <==> d in init || d == last;
  }

  /** With seven distinct date keys, the window never counts more analyses than the log holds. */
  lemma WindowAtMostAllAnalyses(users: map<string, UserRecord>, ps: seq<Performance>,
                                days: map<string, DayStats>, dates: seq<string>)
    requires Totals(users, ps, days)
    requires Weaknesses.NoDuplicates(dates)
    ensures RowsTotal(DailyAnalytics(days, dates)) <= |ps|
  {
    DailyTotal(days, dates);
    DatesTotalIsSumOver(days, dates);
    Sums.SumOverAtMostSumMap(DayCounts(days), set d | d in dates);
  }

  /** On every day of the window, unique users are at most the analyses and at most the known users. */
  lemma WindowUniqueUsersBounded(users: map<string, UserRecord>, days: map<string, DayStats>, dates: seq<string>)
    requires DaysConsistent(users, days)
    ensures var rows := DailyAnalytics(days, dates);
      forall i :: 0 <= i < |rows| ==> rows[i].uniqueUsers <= rows[i].analyses && rows[i].uniqueUsers <= |users|
  {
    forall d | d in days
      ensures |days[d].uniqueUsers| <= |users|
    {
      assert |users.Keys| == |users|;
      SubsetCard(days[d].uniqueUsers, users.Keys);
    }
  }

  lemma SubsetCard(a: set<string>, b: set<string>)
    requires a <= b
    ensures |a| <= |b|
  {
    assert b == a + (b - a);
  }

  /** The sum of the values of `xs`. */
  function Total(xs: seq<real>): real {
    if |xs| == 0 then 0.0 else Total(xs[..|xs| - 1]) + xs[|xs| - 1]
  }

  lemma {:induction false} TotalBounds(xs: seq<real>)
    requires forall i :: 0 <= i < |xs| ==> 0.0 <= xs[i] <= 100.0
    ensures 0.0 <= Total(xs) <= 100.0 * (|xs| as real)
  {
    if |xs| > 0 {
      TotalBounds(xs[..|xs| - 1]);
    }
  }

  /** `Math.round(x * 100) / 100`: Math.round rounds halves up. */
  function RoundCents(x: real): real {
    ((x * 100.0 + 0.5).Floor as real) / 100.0
  }

  lemma RoundCentsBounds(x: real)
    requires 0.0 <= x <= 100.0
    ensures 0.0 <= RoundCents(x) <= 100.0
  {
    var f := (x * 100.0 + 0.5).Floor;
    assert 0 <= f <= 10000;
  }

  /** The mean of `xs`, or 0 when there is nothing to average. */
  function Mean(xs: seq<real>): real {
    if |xs| == 0 then 0.0 else Total(xs) / (|xs| as real)
  }

  lemma MeanBounds(xs: seq<real>)
    requires forall i :: 0 <= i < |xs| ==> 0.0 <= xs[i] <= 100.0
    ensures 0.0 <= Mean(xs) <= 100.0
  {
    if |xs| > 0 {
      TotalBounds(xs);
      var n := |xs| as real;
      assert Total(xs) / n <= 100.0 by {
        assert Total(xs) <= 100.0 * n;
      }
    }
  }

  function Reports(ps: seq<Performance>): (rs: seq<Report>)
    ensures |rs| == |ps| && forall i :: 0 <= i < |ps| ==> rs[i] == ps[i].analysis
  {
    seq(|ps|, i requires 0 <= i < |ps| => ps[i].analysis)
  }

  function OverallScores(rs: seq<Report>): seq<real> {
    seq(|rs|, i requires 0 <= i < |rs| => rs[i].overallScore)
  }

  /** `summary.averageScore`: the mean overall score rounded to cents, 0 with no analyses. */
  function AverageScore(rs: seq<Report>): real {
    RoundCents(Mean(OverallScores(rs)))
  }

  /** The average is 0 without analyses and stays in [0, 100] when every score does. */
  lemma AverageScoreBounds(rs: seq<Report>)
    ensures |rs| == 0 ==> AverageScore(rs) == 0.0
    ensures (forall i :: 0 <= i < |rs| ==> 0.0 <= rs[i].overallScore <= 100.0) ==> 0.0 <= AverageScore(rs) <= 100.0
  {
    if forall i :: 0 <= i < |rs| ==> 0.0 <= rs[i].overallScore <= 100.0 {
      MeanBounds(OverallScores(rs));
      RoundCentsBounds(Mean(OverallScores(rs)));
    }
  }

  const ZeroScores := CategoryScores(0.0, 0.0, 0.0, 0.0, 0.0)

  function AddScores(a: CategoryScores, b: CategoryScores): CategoryScores {
    CategoryScores(a.skills + b.skills, a.experience + b.experience, a.education + b.education,
                   a.keywords + b.keywords, a.formatting + b.formatting)
  }

  /** The category scores added up over the analyses. */
  function CategoryTotals(rs: seq<Report>): CategoryScores {
    if |rs| == 0 then ZeroScores else AddScores(CategoryTotals(rs[..|rs| - 1]), rs[|rs| - 1].categoryScores)
  }

  function Skills(rs: seq<Report>): seq<real> { seq(|rs|, i requires 0 <= i < |rs| => rs[i].categoryScores.skills) }
  function Experience(rs: seq<Report>): seq<real> { seq(|rs|, i requires 0 <= i < |rs| => rs[i].categoryScores.experience) }
  function Education(rs: seq<Report>): seq<real> { seq(|rs|, i requires 0 <= i < |rs| => rs[i].categoryScores.education) }
  function Keywords(rs: seq<Report>): seq<real> { seq(|rs|, i requires 0 <= i < |rs| => rs[i].categoryScores.keywords) }
  function Formatting(rs: seq<Report>): seq<real> { seq(|rs|, i requires 0 <= i < |rs| => rs[i].categoryScores.formatting) }

  /** `categoryAverages`: every category's total divided by the number of analyses, all 0 without analyses. */
  function CategoryAverages(rs: seq<Report>): CategoryScores {
    if |rs| == 0 then ZeroScores
    else
      var t := CategoryTotals(rs);
      var n := |rs| as real;
      CategoryScores(t.skills / n, t.experience / n, t.education / n, t.keywords / n, t.formatting / n)
  }

  lemma {:induction false} CategoryTotalsAreColumnTotals(rs: seq<Report>)
    ensures CategoryTotals(rs) ==
              CategoryScores(Total(Skills(rs)), Total(Experience(rs)), Total(Education(rs)), Total(Keywords(rs)), Total(Formatting(rs)))
  {
    if |rs| > 0 {
      var init := rs[..|rs| - 1];
      CategoryTotalsAreColumnTotals(init);
      assert Skills(rs)[..|rs| - 1] == Skills(init);
      assert Experience(rs)[..|rs| - 1] == Experience(init);
      assert Education(rs)[..|rs| - 1] == Education(init);
      assert Keywords(rs)[..|rs| - 1] == Keywords(init);
      assert Formatting(rs)[..|rs| - 1] == Formatting(init);
    }
  }

  /** Each category average is the mean of that category's scores. */
  lemma CategoryAveragesAreMeans(rs: seq<Report>)
    ensures CategoryAverages(rs) ==
              CategoryScores(Mean(Skills(rs)), Mean(Experience(rs)), Mean(Education(rs)), Mean(Keywords(rs)), Mean(Formatting(rs)))
  {
    CategoryTotalsAreColumnTotals(rs);
  }

  function Reverse<T>(s: seq<T>): (r: seq<T>)
    ensures |r| == |s|
    ensures forall i :: 0 <= i < |s| ==> r[i] == s[|s| - 1 - i]
  {
    if |s| == 0 then [] else [s[|s| - 1]] + Reverse(s[..|s| - 1])
  }

  /** `slice(-n)`: the last n elements, or all of them when there are fewer. */
  function LastN<T>(s: seq<T>, n: nat): seq<T> {
    s[|s| - Min(n, |s|)..]
  }

  function RecentRowOf(p: Performance): RecentRow {
    RecentRow(p.userId, p.userName, p.userEmail, p.analysis.overallScore, p.analyzedAt, p.jobTitle, p.fileName)
  }

  /** `recentAnalyses`: the log's last ten entries, reversed. */
  function RecentAnalyses(ps: seq<Performance>): seq<RecentRow> {
    var recent := Reverse(LastN(ps, 10));
    seq(|recent|, i requires 0 <= i < |recent| => RecentRowOf(recent[i]))
  }

  /** The recent analyses are the last at most ten analyses, newest first. */
  lemma RecentAnalysesNewestFirst(ps: seq<Performance>)
    ensures |RecentAnalyses(ps)| == Min(10, |ps|)
    ensures forall i :: 0 <= i < |RecentAnalyses(ps)| ==> RecentAnalyses(ps)[i] == RecentRowOf(ps[|ps| - 1 - i])
  {
    var last := LastN(ps, 10);
    forall j | 0 <= j < |last|
      ensures last[j] == ps[|ps| - |last| + j]
    {
    }
  }

  function UserRowOf(email: string, u: UserRecord): UserRow {
    UserRow(email, u.firstName, u.email, u.firstSeen, u.lastSeen, u.analysisCount)
  }

  /** `userDetails`: one row per user, in the user table's insertion order. */
  function UserDetails(users: map<string, UserRecord>, order: seq<string>): seq<UserRow>
    requires forall i :: 0 <= i < |order| ==> order[i] in users
  {
    seq(|order|, i requires 0 <= i < |order| => UserRowOf(order[i], users[order[i]]))
  }

  /** In a consistent store the user rows list every user exactly once. */
  lemma UserDetailsListUsers(users: map<string, UserRecord>, order: seq<string>, ps: seq<Performance>)
    requires UsersConsistent(users, order, ps)
    ensures forall i :: 0 <= i < |order| ==> order[i] in users
    ensures var rows := UserDetails(users, order);
      && |rows| == |users|
      && (forall e :: e in users ==> exists i :: 0 <= i < |rows| && rows[i].userId == e)
      && (forall i, j :: 0 <= i < j < |rows| ==> rows[i].userId != rows[j].userId)
  {
    var rows := UserDetails(users, order);
    DistinctCard(order);
    assert (set e | e in order) == users.Keys;
    forall e | e in users
      ensures exists i :: 0 <= i < |rows| && rows[i].userId == e
    {
      var i :| 0 <= i < |order| && order[i] == e;
      assert rows[i].userId == e;
    }
  }

  /** Each user row is keyed by the user's email and counts exactly that user's logged analyses. */
  lemma UserDetailsCountAnalyses(users: map<string, UserRecord>, order: seq<string>, ps: seq<Performance>)
    requires UsersConsistent(users, order, ps)
    ensures forall i :: 0 <= i < |order| ==> order[i] in users
    ensures var rows := UserDetails(users, order);
      forall i :: 0 <= i < |rows| ==>
        rows[i].userId in users && rows[i].email == rows[i].userId &&
        rows[i].analysisCount == CountFor(ps, rows[i].userId) >= 1
  {
  }

  lemma {:induction false} DistinctCard(s: seq<string>)
    requires Weaknesses.NoDuplicates(s)
    ensures |set x | x in s| == |s|
  {
    if |s| > 0 {
      var init := s[..|s| - 1];
      assert Weaknesses.NoDuplicates(init);
      DistinctCard(init);
      assert (set x | x in s) == (set x | x in init) + {s[|s| - 1]} by {
        assert s == init + [s[|s| - 1]];
      }
      assert s[|s| - 1] !in init;
    }
  }

  datatype StatsReply = StatsUnauthorized(error: string, message: string) | StatsOk(stats: AdminStats)

  // ---------------------------------------------------------------------------
  // The store
  // ---------------------------------------------------------------------------

  /** `userStats`: the user table with its key order, the analysis log and the day counters. */
  class Store {
    var users: map<string, UserRecord>
    /** The insertion order of the user table's keys. */
    var userOrder: seq<string>
    var performances: seq<Performance>
    var dailyStats: map<string, DayStats>

    ghost predicate Valid()
      reads this
    {
      Consistent(users, userOrder, performances, dailyStats)
    }

    constructor ()
      ensures Valid()
      ensures users == map[] && userOrder == [] && performances == [] && dailyStats == map[]
    {
      users := map[];
      userOrder := [];
      performances := [];
      dailyStats := map[];
      assert UserCounts(map[]) == map[];
      assert DayCounts(map[]) == map[];
    }

    /**
     * POST /api/analyze-resume at time `now` on day `today`. A rejected request changes
     * nothing; an admitted one is recorded.
     */
    method AnalyzeResume(req: AnalyzeRequest, extract: (seq<bv8>, string) -> Result<string>,
                         analyze: (string, string) -> Result<Report>, now: string, today: string)
      returns (reply: Reply)
      requires Valid()
      modifies this
      ensures Valid()
      ensures Admit(req, extract, analyze).Rejected? ==>
                && reply == Admit(req, extract, analyze).reply
                && users == old(users) && userOrder == old(userOrder)
                && performances == old(performances) && dailyStats == old(dailyStats)
      ensures Admit(req, extract, analyze).Admitted? ==>
                var a, e := Admit(req, extract, analyze), req.userEmail;
                && reply == Analysed(a.analysis, a.file.originalName, a.file.size)
                && users == old(users)[e := UpsertUser(old(users), req.userName, e, now)]
                && userOrder == (if e in old(users) then old(userOrder) else old(userOrder) + [e])
                && performances == old(performances) + [LogEntry(req, a.file, a.analysis, now)]
                && dailyStats == old(dailyStats)[today := BumpDay(old(dailyStats), today, e)]
    {
      var a := Admit(req, extract, analyze);
      if a.Rejected? {
        return a.reply;
      }
      Record(LogEntry(req, a.file, a.analysis, now), today);
      reply := Analysed(a.analysis, a.file.originalName, a.file.size);
    }

    /**
     * Records one analysis: upserts the user keyed by the entry's email (a new user starts
     * at count 1 with first and last seen `now`; a known one counts one more, is last seen
     * `now` and takes the new name), appends the entry to the log, and bumps today's
     * analyses and unique users.
     */
    method Record(entry: Performance, today: string)
      requires Valid()
      modifies this
      ensures Valid()
      ensures var e, now := entry.userEmail, entry.analyzedAt;
        && users == old(users)[e := UpsertUser(old(users), entry.userName, e, now)]
        && userOrder == (if e in old(users) then old(userOrder) else old(userOrder) + [e])
        && performances == old(performances) + [entry]
        && dailyStats == old(dailyStats)[today := BumpDay(old(dailyStats), today, e)]
    {
      RecordKeepsConsistent(users, userOrder, performances, dailyStats, entry, entry.userName, entry.analyzedAt, today);
      TrackUser(entry.userName, entry.userEmail, entry.analyzedAt);
      performances := performances + [entry];
      TrackDay(today, entry.userEmail);
    }

    /** The user table's upsert for one analysis by `email` at time `now`. */
    method TrackUser(name: string, email: string, now: string)
      modifies this
      ensures users == old(users)[email := UpsertUser(old(users), name, email, now)]
      ensures userOrder == (if email in old(users) then old(userOrder) else old(userOrder) + [email])
      ensures performances == old(performances) && dailyStats == old(dailyStats)
    {
      if email !in users {
        users := users[email := UserRecord(name, email, now, now, 1)];
        userOrder := userOrder + [email];
      } else {
        var user := users[email];
        user := user.(lastSeen := now);
        user := user.(analysisCount := user.analysisCount + 1);
        user := user.(firstName := name, email := email);
        users := users[email := user];
      }
    }

    /** Today's counters for one analysis by `email`: created at zero if absent, then bumped. */
    method TrackDay(today: string, email: string)
      modifies this
      ensures dailyStats == old(dailyStats)[today := BumpDay(old(dailyStats), today, email)]
      ensures users == old(users) && userOrder == old(userOrder) && performances == old(performances)
    {
      if today !in dailyStats {
        dailyStats := dailyStats[today := DayStats(0, {})];
      }
      var day := dailyStats[today];
      day := day.(analyses := day.analyses + 1);
      day := day.(uniqueUsers := day.uniqueUsers + {email});
      dailyStats := dailyStats[today := day];
    }

    /** The category totals, added up analysis by analysis as the report's loop does. */
    method SumCategories() returns (totals: CategoryScores)
      ensures totals == CategoryTotals(Reports(performances))
    {
      var rs := Reports(performances);
      totals := ZeroScores;
      var i := 0;
      while i < |performances|
        invariant 0 <= i <= |performances|
        invariant totals == CategoryTotals(rs[..i])
      {
        var c := performances[i].analysis.categoryScores;
        assert rs[..i + 1][..i] == rs[..i];
        totals := totals.(skills := totals.skills + c.skills);
        totals := totals.(experience := totals.experience + c.experience);
        totals := totals.(education := totals.education + c.education);
        totals := totals.(keywords := totals.keywords + c.keywords);
        totals := totals.(formatting := totals.formatting + c.formatting);
        i := i + 1;
      }
      assert rs[..|performances|] == rs;
    }

    /** Every field of the admin report, each tied to the function that defines it. */
    ghost predicate ServesStats(stats: AdminStats, daysAgoKey: nat -> string)
      reads this
    {
      && stats.summary.totalUsers == |users|
      && stats.summary.totalAnalyses == |performances|
      && stats.summary.averageScore == AverageScore(Reports(performances))
      && stats.dailyAnalytics == DailyAnalytics(dailyStats, Last7Days(daysAgoKey))
      && stats.summary.last7DaysAnalyses == RowsTotal(stats.dailyAnalytics)
      && stats.categoryAverages == CategoryAverages(Reports(performances))
      && stats.topWeaknesses == Weaknesses.TopWeaknesses(Reports(performances))
      && stats.recentAnalyses == RecentAnalyses(performances)
      && (forall i :: 0 <= i < |userOrder| ==> userOrder[i] in users)
      && stats.userDetails == UserDetails(users, userOrder)
    }

    /** The body of the admin report for the seven date keys `daysAgoKey(6)` .. `daysAgoKey(0)`. */
    method Stats(daysAgoKey: nat -> string) returns (stats: AdminStats)
      requires Valid()
      ensures stats.summary.totalUsers == |users|
      ensures stats.summary.totalAnalyses == |performances|
      ensures stats.summary.averageScore == AverageScore(Reports(performances))
      ensures stats.dailyAnalytics == DailyAnalytics(dailyStats, Last7Days(daysAgoKey))
      ensures stats.summary.last7DaysAnalyses == RowsTotal(stats.dailyAnalytics)
      ensures stats.categoryAverages == CategoryAverages(Reports(performances))
      ensures stats.topWeaknesses == Weaknesses.TopWeaknesses(Reports(performances))
      ensures stats.recentAnalyses == RecentAnalyses(performances)
      ensures forall i :: 0 <= i < |userOrder| ==> userOrder[i] in users
      ensures stats.userDetails == UserDetails(users, userOrder)
    {
      var dates := Last7Days(daysAgoKey);
      var daily := DailyAnalytics(dailyStats, dates);
      var rs := Reports(performances);
      var average := AverageScore(rs);
      var top := Weaknesses.RankWeaknesses(rs);
      var totals := SumCategories();
      var averages := ZeroScores;
      if |performances| > 0 {
        var n := |performances| as real;
        averages := CategoryScores(totals.skills / n, totals.experience / n, totals.education / n,
                                   totals.keywords / n, totals.formatting / n);
      }
      assert forall i :: 0 <= i < |userOrder| ==> userOrder[i] in users;
      stats := AdminStats(
        Summary(|users|, |performances|, average, RowsTotal(daily)),
        daily,
        averages,
        top,
        RecentAnalyses(performances),
        UserDetails(users, userOrder));
    }

    /** GET /admin/stats behind `authenticateAdmin` as written: the header's second space-separated piece must be ADMIN_PASSWORD. */
    method GetAdminStats(authorization: Option<string>, adminPassword: string, daysAgoKey: nat -> string)
      returns (r: StatsReply)
      requires Valid()
      ensures r.StatsUnauthorized? <==> !AuthorizedAsWritten(authorization, adminPassword)
      ensures r.StatsUnauthorized? ==> r == StatsUnauthorized("Unauthorized", "Invalid admin password")
      ensures r.StatsOk? ==> ServesStats(r.stats, daysAgoKey)
    {
      if !AuthorizedAsWritten(authorization, adminPassword) {
        return StatsUnauthorized("Unauthorized", "Invalid admin password");
      }
      var stats := Stats(daysAgoKey);
      r := StatsOk(stats);
    }

    /** GET /admin/stats behind the corrected gate, which reads the whole password after "Bearer ". */
    method GetAdminStatsFixed(authorization: Option<string>, adminPassword: string, daysAgoKey: nat -> string)
      returns (r: StatsReply)
      requires Valid()
      ensures r.StatsUnauthorized? <==> !Authorized(authorization, adminPassword)
      ensures r.StatsUnauthorized? ==> r == StatsUnauthorized("Unauthorized", "Invalid admin password")
      ensures r.StatsOk? ==> ServesStats(r.stats, daysAgoKey)
    {
      if !Authorized(authorization, adminPassword) {
        return StatsUnauthorized("Unauthorized", "Invalid admin password");
      }
      var stats := Stats(daysAgoKey);
      r := StatsOk(stats);
    }
  }
}
