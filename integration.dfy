/**
 * Properties that tie the browser side to the server side: the two MIME allowlists, the
 * login token sent back as a bearer header, the admin page's badges and peak day read
 * off the server's report.
 */
module Integration {
  import opened Common
  import opened Records
  import FileUpload
  import AnalyticsStore
  import AdminPage

  /** A file the picker accepts by type passes the server's upload filter by type, and the other way round. */
  lemma ClientAndServerAllowSameTypes(f: FileUpload.FileInfo)
    ensures FileUpload.AllowedTypes == AnalyticsStore.UploadAllowedTypes
    ensures FileUpload.IsValidFileType(f) <==>
      AnalyticsStore.UploadReply(f.mimeType, f.size) != Some(AnalyticsStore.WrongTypeReply)
  {
  }

  /** The header the admin page builds from a login token is the bearer header the gate reads. */
  lemma AuthHeaderIsBearer(token: string)
    ensures AdminPage.AuthHeader(Some(token)) == AnalyticsStore.BearerHeader(token)
  {
  }

  /**
   * Logging in with the configured password and then fetching the stats with the stored
   * token passes the corrected gate; the gate as written refuses it exactly when the
   * password holds a space.
   */
  lemma LoginThenFetchPassesGate(env: Option<string>)
    ensures var pw := AnalyticsStore.AdminPassword(env);
      var reply := AnalyticsStore.Login(Some(pw), pw);
      && reply.LoginOk?
      && AnalyticsStore.Authorized(Some(AdminPage.AuthHeader(Some(reply.token))), pw)
      && (AnalyticsStore.AuthorizedAsWritten(Some(AdminPage.AuthHeader(Some(reply.token))), pw) <==> ' ' !in pw)
  {
    var pw := AnalyticsStore.AdminPassword(env);
    AnalyticsStore.LoginTokenPassesGate(env);
    AuthHeaderIsBearer(pw);
    AnalyticsStore.AsWrittenGateNeedsSpaceFreePassword(pw);
  }

  /** In a consistent store a user row is badged 'Returning' exactly when the log holds two or more of that user's analyses. */
  lemma BadgesMatchLog(users: map<string, AnalyticsStore.UserRecord>, order: seq<string>,
                       ps: seq<AnalyticsStore.Performance>, i: nat)
    requires AnalyticsStore.UsersConsistent(users, order, ps)
    requires i < |order|
    ensures forall k :: 0 <= k < |order| ==> order[k] in users
    ensures var rows := AnalyticsStore.UserDetails(users, order);
      AdminPage.Status(rows[i]) == "Returning" <==> AnalyticsStore.CountFor(ps, order[i]) >= 2
  {
    AnalyticsStore.UserDetailsCountAnalyses(users, order, ps);
  }

  /** The peak day of the report's activity window always exists and is one of the window's dates. */
  lemma PeakDayOfWindow(days: map<string, AnalyticsStore.DayStats>, daysAgoKey: nat -> string)
    ensures var rows := AnalyticsStore.DailyAnalytics(days, AnalyticsStore.Last7Days(daysAgoKey));
      var peak := AdminPage.PeakDay(rows);
      peak.Some? && peak.value.date in AnalyticsStore.Last7Days(daysAgoKey)
  {
    var dates := AnalyticsStore.Last7Days(daysAgoKey);
    AnalyticsStore.DailyAnalyticsRows(days, dates);
  }
}
