/**
 * The admin dashboard (Frontend/src/components/AdminPage.tsx): the score distribution of the
 * recent analyses, the peak activity day, the returning-user count and badges, and the
 * login, stats-fetch and logout transitions of the page's state and its stored token.
 */
module AdminPage {
  import opened Common
  import Text
  import opened Records

  // ---------------------------------------------------------------------------
  // Score distribution
  // ---------------------------------------------------------------------------

  /**
   * One row of the score distribution: the two numbers its range text is written with,
   * its caption and its colour classes.
   */
  datatype Bucket = Bucket(min: nat, max: nat, caption: string, colorClass: string)

  /** The range text, "min-max". */
  function Range(b: Bucket): string {
    Text.NatToString(b.min) + "-" + Text.NatToString(b.max)
  }

  const Buckets: seq<Bucket> := [
    Bucket(90, 100, "Excellent", "text-green-600 bg-green-100"),
    Bucket(80, 89, "Good", "text-green-500 bg-green-50"),
    Bucket(70, 79, "Fair", "text-yellow-600 bg-yellow-100"),
    Bucket(60, 69, "Poor", "text-orange-600 bg-orange-100"),
    Bucket(0, 59, "Very Poor", "text-red-600 bg-red-100")]

  /**
   * The bucket test as written: the range text split at '-' and read as numbers gives
   * [min, max], and the score counts when min <= score <= max. A missing piece or a
   * piece that is not a number makes both comparisons false.
   */
  predicate InRange(score: real, range: string) {
    var pieces := Text.SplitOn(range, '-');
    var lo := Text.StringToNumber(pieces[0]);
    var hi := if |pieces| >= 2 then Text.StringToNumber(pieces[1]) else None;
    lo.Some? && hi.Some? && lo.value <= score && score <= hi.value
  }

  /** The number of recent analyses shown against a bucket. */
  function BucketCount(rows: seq<RecentRow>, range: string): (n: nat)
    ensures n <= |rows|
  {
    if rows == [] then 0
    else BucketCount(rows[..|rows| - 1], range) + (if InRange(rows[|rows| - 1].score, range) then 1 else 0)
  }

  /** A range text "lo-hi" whose two pieces read as numbers a and b counts the scores from a to b. */
  lemma RangeWithin(range: string, lo: string, hi: string, a: real, b: real, score: real)
    requires range == lo + ['-'] + hi && '-' !in lo && '-' !in hi
    requires Text.StringToNumber(lo) == Some(a) && Text.StringToNumber(hi) == Some(b)
    ensures InRange(score, range) <==> a <= score <= b
  {
    Text.SplitAtFirst(lo, hi, '-');
  }

  /** The range text of any bucket reads back as the bucket's two numbers. */
  lemma RangeReadsBack(b: Bucket, score: real)
    ensures InRange(score, Range(b)) <==> b.min as real <= score <= b.max as real
  {
    var lo, hi := Text.NatToString(b.min), Text.NatToString(b.max);
    assert Range(b) == lo + ['-'] + hi;
    assert '-' !in lo && '-' !in hi;
    Text.NatToStringRoundTrip(b.min);
    Text.NatToStringRoundTrip(b.max);
    RangeWithin(Range(b), lo, hi, b.min as real, b.max as real, score);
  }

  /** A score is counted in a bucket exactly when it lies between the bucket's two bounds. */
  lemma BucketBounds(score: real, i: nat)
    requires i < |Buckets|
    ensures InRange(score, Range(Buckets[i])) <==> Buckets[i].min as real <= score <= Buckets[i].max as real
  {
    RangeReadsBack(Buckets[i], score);
  }

  /** The buckets run from the highest scores down, each ending below where the one before starts. */
  lemma BucketsDescend(i: nat, j: nat)
    requires i < j < |Buckets|
    ensures Buckets[j].max < Buckets[i].min
  {
  }

  /** No score is counted in two buckets. */
  lemma BucketsDisjoint(score: real, i: nat, j: nat)
    requires i < j < |Buckets|
    ensures !(InRange(score, Range(Buckets[i])) && InRange(score, Range(Buckets[j])))
  {
    BucketBounds(score, i);
    BucketBounds(score, j);
    BucketsDescend(i, j);
  }

  /** The bucket a whole score from 0 to 100 belongs to. */
  function IntegerBucket(n: int): (i: nat)
    requires 0 <= n <= 100
    ensures i < |Buckets|
    ensures forall j :: 0 <= j < |Buckets| ==> (Buckets[j].min <= n <= Buckets[j].max <==> j == i)
  {
    if n >= 90 then 0 else if n >= 80 then 1 else if n >= 70 then 2 else if n >= 60 then 3 else 4
  }

  /** A whole score from 0 to 100 is counted in exactly one bucket. */
  lemma IntegerScoreInOneBucket(n: int, i: nat)
    requires 0 <= n <= 100 && i < |Buckets|
    ensures IntegerBucket(n) < |Buckets|
    ensures InRange(n as real, Range(Buckets[i])) <==> i == IntegerBucket(n)
  {
    BucketBounds(n as real, i);
    assert Buckets[i].min <= n <= Buckets[i].max <==> i == IntegerBucket(n);
  }

  /** The five counts shown, added up. */
  function CountedTotal(rows: seq<RecentRow>): nat {
    BucketCount(rows, Range(Buckets[0])) + BucketCount(rows, Range(Buckets[1])) + BucketCount(rows, Range(Buckets[2]))
    + BucketCount(rows, Range(Buckets[3])) + BucketCount(rows, Range(Buckets[4]))
  }

  predicate WholeScores(rows: seq<RecentRow>) {
    forall i :: 0 <= i < |rows| ==> rows[i].score == rows[i].score.Floor as real && 0.0 <= rows[i].score <= 100.0
  }

  /** When every score is a whole number from 0 to 100 the five counts add up to the number of rows. */
  lemma {:induction false} WholeScoresAllCounted(rows: seq<RecentRow>)
    requires WholeScores(rows)
    ensures CountedTotal(rows) == |rows|
  {
    if rows != [] {
      var init := rows[..|rows| - 1];
      assert WholeScores(init) by {
        forall i | 0 <= i < |init| ensures init[i] == rows[i] { }
      }
      WholeScoresAllCounted(init);
      var n := rows[|rows| - 1].score.Floor;
      assert rows[|rows| - 1].score == n as real;
      IntegerScoreInOneBucket(n, 0);
      IntegerScoreInOneBucket(n, 1);
      IntegerScoreInOneBucket(n, 2);
      IntegerScoreInOneBucket(n, 3);
      IntegerScoreInOneBucket(n, 4);
    }
  }

  lemma BetweenBuckets(i: nat)
    requires i < |Buckets|
    ensures !(Buckets[i].min as real <= 89.5 <= Buckets[i].max as real)
  {
  }

  /** A score between two buckets, such as 89.5, is counted in none of them. */
  lemma FractionalScoreUncounted(row: RecentRow)
    requires row.score == 89.5
    ensures forall i :: 0 <= i < |Buckets| ==> !InRange(row.score, Range(Buckets[i]))
    ensures CountedTotal([row]) == 0
  {
    forall i | 0 <= i < |Buckets| ensures !InRange(row.score, Range(Buckets[i])) {
      BucketBounds(row.score, i);
      BetweenBuckets(i);
    }
    assert [row][..0] == [];
  }

  /** The corrected distribution: each bucket runs from its lower bound up to the next bucket's. */
  function Band(score: real): (i: nat)
    ensures i < |Buckets|
    ensures i == 0 <==> score >= 90.0
    ensures 0 < i < 4 ==> Buckets[i].min as real <= score < Buckets[i - 1].min as real
    ensures i == 4 <==> score < 60.0
  {
    if score >= 90.0 then 0 else if score >= 80.0 then 1 else if score >= 70.0 then 2
    else if score >= 60.0 then 3 else 4
  }

  function BandCount(rows: seq<RecentRow>, i: nat): (n: nat)
    ensures n <= |rows|
  {
    if rows == [] then 0
    else BandCount(rows[..|rows| - 1], i) + (if Band(rows[|rows| - 1].score) == i then 1 else 0)
  }

  function BandTotal(rows: seq<RecentRow>): nat {
    BandCount(rows, 0) + BandCount(rows, 1) + BandCount(rows, 2) + BandCount(rows, 3) + BandCount(rows, 4)
  }

  /** Under the corrected distribution every row is counted exactly once. */
  lemma {:induction false} BandsCountEveryRow(rows: seq<RecentRow>)
    ensures BandTotal(rows) == |rows|
  {
    if rows != [] {
      BandsCountEveryRow(rows[..|rows| - 1]);
    }
  }

  /** On whole scores from 0 to 100 the corrected distribution agrees with the one as written. */
  lemma BandsAgreeOnWholeScores(n: int, i: nat)
    requires 0 <= n <= 100 && i < |Buckets|
    ensures Band(n as real) == i <==> InRange(n as real, Range(Buckets[i]))
  {
    IntegerScoreInOneBucket(n, i);
    assert Band(n as real) == IntegerBucket(n);
  }

  // ---------------------------------------------------------------------------
  // Peak activity day and returning users
  // ---------------------------------------------------------------------------

  /** The index the reduce over the first n days holds: it moves on only to a strictly busier day. */
  function PeakIndex(days: seq<DayRow>, n: nat): (i: nat)
    requires 1 <= n <= |days|
    ensures i < n
    ensures forall j :: 0 <= j < n ==> days[j].analyses <= days[i].analyses
    ensures forall j :: 0 <= j < i ==> days[j].analyses < days[i].analyses
  {
    if n == 1 then 0
    else
      var p := PeakIndex(days, n - 1);
      if days[n - 1].analyses > days[p].analyses then n - 1 else p
  }

  /**
   * The peak activity day: the earliest of the busiest days. None stands for the
   * TypeError the reduce throws on an empty list.
   */
  function PeakDay(days: seq<DayRow>): (r: Option<DayRow>)
    ensures r.None? <==> days == []
    ensures r.Some? ==>
      exists i :: 0 <= i < |days| && r.value == days[i]
        && (forall j :: 0 <= j < |days| ==> days[j].analyses <= days[i].analyses)
        && (forall j :: 0 <= j < i ==> days[j].analyses < days[i].analyses)
  {
    if days == [] then None else Some(days[PeakIndex(days, |days|)])
  }

  /** On a tie the earlier day wins. */
  lemma PeakDayPrefersEarlier(a: DayRow, b: DayRow)
    requires a.analyses == b.analyses
    ensures PeakDay([a, b]) == Some(a)
  {
  }

  /** The user-table badge. */
  function Status(u: UserRow): (s: string)
    ensures s == "Returning" <==> u.analysisCount > 1
    ensures s == "New" <==> u.analysisCount <= 1
  {
    if u.analysisCount > 1 then "Returning" else "New"
  }

  /** `userDetails.filter(u => u.analysisCount > 1)` */
  function ReturningUsers(rows: seq<UserRow>): (r: seq<UserRow>)
    ensures |r| <= |rows|
    ensures forall u :: u in r <==> u in rows && u.analysisCount > 1
  {
    if rows == [] then []
    else ReturningUsers(rows[..|rows| - 1]) + (if rows[|rows| - 1].analysisCount > 1 then [rows[|rows| - 1]] else [])
  }

  /** The number of rows showing a given badge. */
  function BadgeCount(rows: seq<UserRow>, badge: string): nat {
    if rows == [] then 0
    else BadgeCount(rows[..|rows| - 1], badge) + (if Status(rows[|rows| - 1]) == badge then 1 else 0)
  }

  /** The retention figure counts exactly the rows badged 'Returning'; every other row is badged 'New'. */
  lemma {:induction false} ReturningCountMatchesBadges(rows: seq<UserRow>)
    ensures |ReturningUsers(rows)| == BadgeCount(rows, "Returning")
    ensures BadgeCount(rows, "Returning") + BadgeCount(rows, "New") == |rows|
  {
    if rows != [] {
      ReturningCountMatchesBadges(rows[..|rows| - 1]);
    }
  }

  // ---------------------------------------------------------------------------
  // Login, stats fetch and logout
  // ---------------------------------------------------------------------------

  /** How a POST /admin/login request settles. */
  datatype LoginOutcome = LoginAccepted(token: string) | LoginRefused(status: nat) | LoginNetworkError

  /** How a GET /admin/stats request settles. */
  datatype StatsOutcome = StatsReceived(stats: AdminStats) | StatsRefused(status: nat) | StatsNetworkError

  /** The Authorization header of the stats request: a missing token prints as "null". */
  function AuthHeader(token: Option<string>): (h: string)
    ensures token.Some? ==> h == "Bearer " + token.value
    ensures token.None? ==> h == "Bearer null"
  {
    "Bearer " + (if token.Some? then token.value else "null")
  }

  /** A stored token opens the dashboard on mount only when it is a non-empty string. */
  predicate Truthy(token: Option<string>) {
    token.Some? && token.value != ""
  }

  /**
   * The page's state with the browser's stored `adminToken`. The async handlers are split
   * at their `await`: a request is sent by one step and settles in a later one.
   */
  class AdminSession {
    var isAuthenticated: bool
    var password: string
    var adminStats: Option<AdminStats>
    var loading: bool
    var error: string
    /** `localStorage['adminToken']` */
    var storedToken: Option<string>
    /** The Authorization headers of the stats requests sent so far. */
    var sentHeaders: seq<string>
    /** The passwords of the login requests sent so far. */
    var sentPasswords: seq<string>

    /** The page is shown as logged in only while there is a stored token. */
    ghost predicate Valid()
      reads this
    {
      isAuthenticated ==> storedToken.Some?
    }

    /** A freshly loaded page, with whatever token the browser kept. */
    constructor (token: Option<string>)
      ensures Valid()
      ensures !isAuthenticated && password == "" && adminStats.None? && !loading && error == ""
      ensures storedToken == token && sentHeaders == [] && sentPasswords == []
    {
      isAuthenticated := false;
      password := "";
      adminStats := None;
      loading := false;
      error := "";
      storedToken := token;
      sentHeaders := [];
      sentPasswords := [];
    }

    /** The mount effect: a truthy stored token logs the page in and requests the stats. */
    method Mount()
      requires Valid()
      modifies this
      ensures Valid()
      ensures Truthy(old(storedToken)) ==>
        isAuthenticated && loading && sentHeaders == old(sentHeaders) + [AuthHeader(storedToken)]
      ensures !Truthy(old(storedToken)) ==>
        && isAuthenticated == old(isAuthenticated) && loading == old(loading)
        && sentHeaders == old(sentHeaders)
      ensures storedToken == old(storedToken) && password == old(password) && adminStats == old(adminStats)
      ensures error == old(error) && sentPasswords == old(sentPasswords)
    {
      if Truthy(storedToken) {
        isAuthenticated := true;
        FetchAdminStats();
      }
    }

    /** `fetchAdminStats` up to its request: loading starts and the stored token is sent. */
    method FetchAdminStats()
      requires Valid()
      modifies this
      ensures Valid()
      ensures loading && sentHeaders == old(sentHeaders) + [AuthHeader(storedToken)]
      ensures isAuthenticated == old(isAuthenticated) && storedToken == old(storedToken)
      ensures password == old(password) && adminStats == old(adminStats) && error == old(error)
      ensures sentPasswords == old(sentPasswords)
    {
      loading := true;
      sentHeaders := sentHeaders + [AuthHeader(storedToken)];
    }

    /**
     * The rest of `fetchAdminStats`: the stats are shown, or an error is set; a 401 also
     * logs the page out and drops the token. Loading ends in every case.
     */
    method StatsSettled(outcome: StatsOutcome)
      requires Valid()
      modifies this
      ensures Valid()
      ensures !loading
      ensures outcome.StatsReceived? ==> adminStats == Some(outcome.stats) && error == old(error)
      ensures outcome.StatsRefused? ==> error == "Failed to fetch admin stats" && adminStats == old(adminStats)
      ensures outcome.StatsNetworkError? ==> error == "Failed to connect to server" && adminStats == old(adminStats)
      ensures outcome.StatsRefused? && outcome.status == 401 ==> !isAuthenticated && storedToken.None?
      ensures !(outcome.StatsRefused? && outcome.status == 401) ==>
        isAuthenticated == old(isAuthenticated) && storedToken == old(storedToken)
      ensures password == old(password) && sentHeaders == old(sentHeaders) && sentPasswords == old(sentPasswords)
    {
      match outcome {
        case StatsReceived(stats) =>
          adminStats := Some(stats);
        case StatsRefused(status) =>
          error := "Failed to fetch admin stats";
          if status == 401 {
            isAuthenticated := false;
            storedToken := None;
          }
        case StatsNetworkError =>
          error := "Failed to connect to server";
      }
      loading := false;
    }

    /** Typing into the password field. */
    method TypePassword(p: string)
      modifies this
      ensures password == p
      ensures isAuthenticated == old(isAuthenticated) && adminStats == old(adminStats) && loading == old(loading)
      ensures error == old(error) && storedToken == old(storedToken)
      ensures sentHeaders == old(sentHeaders) && sentPasswords == old(sentPasswords)
    {
      password := p;
    }

    /** `handleLogin` up to its request: loading starts, the error is cleared and the password is sent. */
    method SubmitLogin()
      modifies this
      ensures loading && error == "" && sentPasswords == old(sentPasswords) + [old(password)]
      ensures isAuthenticated == old(isAuthenticated) && password == old(password) && adminStats == old(adminStats)
      ensures storedToken == old(storedToken) && sentHeaders == old(sentHeaders)
    {
      loading := true;
      error := "";
      sentPasswords := sentPasswords + [password];
    }

    /**
     * The rest of `handleLogin`: an accepted login stores the token, logs the page in and
     * requests the stats; a refusal sets 'Invalid password' and a network failure
     * 'Failed to connect to server'. The `finally` ends loading last, even while the
     * stats request just sent is still open.
     */
    method LoginSettled(outcome: LoginOutcome)
      requires Valid()
      modifies this
      ensures Valid()
      ensures !loading
      ensures outcome.LoginAccepted? ==>
        && isAuthenticated && storedToken == Some(outcome.token)
        && sentHeaders == old(sentHeaders) + [AuthHeader(Some(outcome.token))] && error == old(error)
      ensures outcome.LoginRefused? ==> error == "Invalid password"
      ensures outcome.LoginNetworkError? ==> error == "Failed to connect to server"
      ensures !outcome.LoginAccepted? ==>
        && isAuthenticated == old(isAuthenticated) && storedToken == old(storedToken)
        && sentHeaders == old(sentHeaders)
      ensures password == old(password) && adminStats == old(adminStats) && sentPasswords == old(sentPasswords)
    {
      match outcome {
        case LoginAccepted(token) =>
          storedToken := Some(token);
          isAuthenticated := true;
          FetchAdminStats();
        case LoginRefused(_) =>
          error := "Invalid password";
        case LoginNetworkError =>
          error := "Failed to connect to server";
      }
      loading := false;
    }

    /** `handleLogout`: the token is dropped, the page logs out and forgets the stats and the password. */
    method Logout()
      modifies this
      ensures Valid()
      ensures storedToken.None? && !isAuthenticated && adminStats.None? && password == ""
      ensures loading == old(loading) && error == old(error)
      ensures sentHeaders == old(sentHeaders) && sentPasswords == old(sentPasswords)
    {
      storedToken := None;
      isAuthenticated := false;
      adminStats := None;
      password := "";
    }
  }
}
