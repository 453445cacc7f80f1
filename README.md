# AI Resume Analyzer: a Dafny model of its application logic

AI Resume Analyzer lets a user upload a resume (PDF, DOC or DOCX) together with a job
description. The server sends the extracted text to a hosted language model. The model's
reply is cleaned, validated and shown as a scored report. An admin page, guarded by a
password, shows usage statistics.

The model covers the parts of this application that have crisp rules:

- **The server's analytics store** (`analytics_store.dfy`, `weaknesses.dfy`, `sums.dfy`, `records.dfy`):
  - the upload filter and the fixed order of the request checks of `POST /api/analyze-resume`;
  - the user table keyed by email, the append-only analysis log and the per-day counters. The class `Store` holds them, and its methods update them in place;
  - the admin password gate and `POST /admin/login`;
  - the report served by `GET /admin/stats`: the seven-day window, the average score, the category averages, the top five weaknesses (counted by loops, then stable-sorted), the ten most recent analyses and the user rows.
- **Post-processing of the model's reply** (`resume_analyzer.dfy`):
  - the code-fence extraction and trimming;
  - the structural validation;
  - the error wrapping of `analyzeResume`;
  - the lazily created analyzer (a class with one mutable slot).
- **File types** (`file_processor.dfy`, `file_upload.dfy`):
  - Node's `path.extname`, lower-casing, `validateFileType` and the dispatch of `extractTextFromFile`;
  - the browser's MIME check and the select/drop/remove rules of the upload box (a class).
- **Presentation rules**:
  - the score colours (`score_colors.dfy`);
  - the admin page's score distribution, peak day, returning users and login/stats/logout state machine (`admin_page.dfy`, class `AdminSession`);
  - the word and character counters of the job description box (`job_description_input.dfy`).
- **Cross-cutting facts** (`integration.dfy`):
  - browser and server accept the same MIME types;
  - the page's Authorization header is the one the gate parses;
  - a logged-in admin passes the gate;
  - the 'Returning' badge agrees with the server's log.

JavaScript semantics are written out where they matter:

- `trim` and `\s` use one shared whitespace set (`Text.IsWhitespace`);
- truthiness of strings and values;
- `Number(...)` is simplified to decimal integers (`Text.StringToNumber`);
- `split(' ')[1]`;
- the relational comparison of `null` with numbers;
- `reduce` without an initial value on an empty array;
- a template literal holding `null`.

Numbers are exact reals. Integers are unbounded.

## Model

| member | source | states |
|---|---|---|
| AnalyticsStore.UploadReply | Backend/src/index.ts:52-68 | A MIME type outside the three allowed ones gets the error "Only PDF and DOC/DOCX files are allowed" (answered with 500), whatever the size. An allowed type over 5 MiB gets 400 "File too large". Otherwise the upload passes. Each outcome holds exactly when its condition does. |
| AnalyticsStore.Admit | Backend/src/index.ts:85-123 | Each 400 reply (no file, no job description, no user id, no name or email, blank extracted text) happens exactly when every earlier check passed and its own check fails. Thrown errors become 500 "Internal server error". Admission happens exactly when every check passes and the analysis succeeds, and carries that analysis. |
| AnalyticsStore.UpsertUser | Backend/src/index.ts:129-147 | An unseen email gets a record with count 1 and firstSeen = lastSeen = now. A known email counts one more, is last seen now, takes the new name and keeps firstSeen. |
| AnalyticsStore.LogEntry | Backend/src/index.ts:150-159 | The log entry has the request's email, the analysis and the time. An empty job title is logged as "Not specified". |
| AnalyticsStore.BumpDay | Backend/src/index.ts:162-167 | Today's analyses are one more than before (0 if the day was new). Today's unique users are the old set plus the email. |
| AnalyticsStore.RecordKeepsUsersConsistent | Backend/src/index.ts:129-159 | After one recorded analysis, every user's count is still its number of log entries, and the key order still lists each user once. |
| AnalyticsStore.RecordKeepsDaysConsistent | Backend/src/index.ts:162-167 | After one recorded analysis, every day still has 1 ≤ unique users ≤ analyses, all of them known users. |
| AnalyticsStore.RecordKeepsTotals | Backend/src/index.ts:129-167 | The sum of the users' analysis counts and the sum of the day counters both remain equal to the log length. |
| AnalyticsStore.RecordKeepsConsistent | Backend/src/index.ts:129-167 | Recording one analysis preserves the store's whole invariant. |
| AnalyticsStore.UsersAtMostAnalyses | Backend/src/index.ts:132-159 | In a consistent store, users.size ≤ performances.length. |
| AnalyticsStore.Store.constructor | Backend/src/index.ts:39-42 | The store starts with no users, an empty log and no day counters, and satisfies its invariant. |
| AnalyticsStore.Store.AnalyzeResume | Backend/src/index.ts:83-187 | A rejected request returns the rejection and changes nothing. An admitted one upserts the user, appends exactly one log entry and bumps today's counters, and leaves the invariant intact. |
| AnalyticsStore.Store.Record | Backend/src/index.ts:125-167 | States the whole new state after one analysis (user upsert, key order, log append, today's counters) and keeps the invariant. |
| AnalyticsStore.Store.TrackUser | Backend/src/index.ts:129-147 | The user table becomes the upsert. A new email is appended to the key order. Log and day counters are unchanged. |
| AnalyticsStore.Store.TrackDay | Backend/src/index.ts:161-167 | Only today's counters change, and they become the bumped counters. |
| AnalyticsStore.AdminPassword | Backend/src/index.ts:16 | The password is never empty. It is the environment's value when that is set and non-empty. |
| AnalyticsStore.Login | Backend/src/index.ts:202-214 | Login succeeds exactly for the admin password, returning it as the token with "Login successful". Otherwise it returns 401 "Invalid password". |
| AnalyticsStore.AsWrittenGateNeedsSpaceFreePassword | Backend/src/index.ts:190-199 | The gate as written lets "Bearer <pw>" through for password pw exactly when pw has no space. |
| AnalyticsStore.PasswordWithSpaceLocksOut | Backend/src/index.ts:192-209 | The password "open sesame" logs in, but its token is then refused by the gate as written. |
| AnalyticsStore.LoginTokenPassesGate | Backend/src/index.ts:190-214 | With the corrected gate, the token from a successful login, sent as "Bearer <token>", passes for every password. |
| AnalyticsStore.GatesAgreeWithoutSpace | Backend/src/index.ts:192 | For a password without a space, the two gates give the same answer. |
| AnalyticsStore.Last7Days | Backend/src/index.ts:218-222 | There are exactly seven date keys, oldest first: six days ago down to today. |
| AnalyticsStore.DailyAnalyticsRows | Backend/src/index.ts:224-231 | There is one row per date, in order. A day without counters shows 0 analyses and 0 unique users. |
| AnalyticsStore.DailyTotal | Backend/src/index.ts:276 | `last7DaysAnalyses`, the reduce over the rows, equals the total of the window's day counters. |
| AnalyticsStore.WindowAtMostAllAnalyses | Backend/src/index.ts:218-231 | When the day counters add up to the log length, a window of distinct dates (such as the seven keys) never counts more analyses than the log holds. |
| AnalyticsStore.WindowUniqueUsersBounded | Backend/src/index.ts:224-231 | On every row, unique users ≤ analyses, and unique users ≤ the number of known users. |
| AnalyticsStore.AverageScoreBounds | Backend/src/index.ts:234-235 | The average score is 0 without analyses, and lies in [0, 100] when every score does. |
| AnalyticsStore.CategoryAveragesAreMeans | Backend/src/index.ts:250-269 | Each category average is the mean of that category's column of scores, and 0 without analyses. |
| AnalyticsStore.Store.SumCategories | Backend/src/index.ts:259-264 | The accumulating loop ends with the column totals of the five category scores. |
| AnalyticsStore.RecentAnalysesNewestFirst | Backend/src/index.ts:281-292 | There are min(10, n) recent rows, and row i is the log's entry n-1-i (newest first). |
| AnalyticsStore.UserDetailsListUsers | Backend/src/index.ts:293-300 | In a consistent store, there is one user row per user: every user has a row, and no email appears in two rows. |
| AnalyticsStore.UserDetailsCountAnalyses | Backend/src/index.ts:293-300 | Each user row is keyed by the email and carries that user's number of logged analyses. |
| AnalyticsStore.Store.Stats | Backend/src/index.ts:217-301 | The report's totals, seven-day rows and their sum, the average, the category averages, the top weaknesses, the recent rows and the user rows equal their defining functions on the current state. |
| AnalyticsStore.Store.GetAdminStats | Backend/src/index.ts:190-199 | Returns 401 "Invalid admin password" exactly when the as-written gate refuses the header, that is, when the header's second space-separated piece is not ADMIN_PASSWORD. Otherwise it returns the report, with every field (totals, average score, seven-day rows and total, category averages, top weaknesses, recent analyses, user details) equal to its defining function. |
| AnalyticsStore.Store.GetAdminStatsFixed | Backend/src/index.ts:190-199 | The intended endpoint of Finding 3: the same report, refused exactly when the corrected gate (everything after the first space) refuses the header. |
| Weaknesses.AddWeaknesses | Backend/src/index.ts:240-242 | The inner loop keeps the counting map equal to the occurrence counts of everything seen so far, with keys in first-seen order. |
| Weaknesses.CountWeaknesses | Backend/src/index.ts:238-243 | The map's keys are the distinct weaknesses in first-seen order. Each count is that weakness's number of occurrences across all analyses. |
| Weaknesses.SortByCount | Backend/src/index.ts:245-246 | The sorted entries are a permutation of the input, in non-increasing count order. |
| Weaknesses.SortByCountIsStable | Backend/src/index.ts:246 | For every count, the entries with that count keep their input order. |
| Weaknesses.RankWeaknesses | Backend/src/index.ts:238-248 | The counting loops, the sort and the cut give `TopWeaknesses`, with at most five entries. |
| Weaknesses.TopWeaknessesCounts | Backend/src/index.ts:238-248 | There are min(5, distinct weaknesses) entries, in non-increasing count order, each a weakness that occurs with its total number of occurrences. |
| Weaknesses.TopWeaknessesDistinct | Backend/src/index.ts:245-248 | No weakness appears twice. |
| Weaknesses.TopWeaknessesAreTop | Backend/src/index.ts:245-247 | A weakness left out means five entries are shown, and it occurs no more often than the fifth. |
| Weaknesses.TopWeaknessesTiesInFirstSeenOrder | Backend/src/index.ts:245-246 | Entries with equal counts appear in the order their weaknesses were first seen. |
| ResumeAnalyzer.FindFence | Backend/src/services/resumeAnalyzer.ts:72 | Finds the first "```" at or after a position, or reports that there is none. |
| ResumeAnalyzer.FencedBody | Backend/src/services/resumeAnalyzer.ts:72-75 | The capture group never contains "```", and neither starts nor ends with white space. |
| ResumeAnalyzer.FenceMatchesIffTwoFences | Backend/src/services/resumeAnalyzer.ts:72-73 | The expression matches exactly when there is a fence and a second fence at least three characters after it. |
| ResumeAnalyzer.JsonText | Backend/src/services/resumeAnalyzer.ts:69-78 | The parsed text is the fenced body when there is one, and otherwise the trimmed reply. It never has leading or trailing white space. |
| ResumeAnalyzer.CheckRequired | Backend/src/services/resumeAnalyzer.ts:173-177 | Passes exactly when every field is present. A failure names one of the fields, or is the TypeError. |
| ResumeAnalyzer.MissingFieldReported | Backend/src/services/resumeAnalyzer.ts:163-177 | Both validators reject with "Missing required field: f" for the first absent f, in the fixed order. |
| ResumeAnalyzer.CheckCategories | Backend/src/services/resumeAnalyzer.ts:185-191 | Passes exactly when every category is present and holds a number in [0, 100]. |
| ResumeAnalyzer.CheckRestPasses | Backend/src/services/resumeAnalyzer.ts:184-205 | The category, array and keywordMatch checks pass exactly on reports well formed apart from the overall score. |
| ResumeAnalyzer.ValidateAcceptsExactlyWellFormed | Backend/src/services/resumeAnalyzer.ts:162-206 | The corrected validator accepts exactly the well-formed reports: overall and category scores are numbers in [0, 100], the three lists are arrays, matched and missing are truthy, and matchPercentage is a number (its range is not checked). |
| ResumeAnalyzer.ValidateAsWrittenAccepts | Backend/src/services/resumeAnalyzer.ts:162-206 | The validator as written accepts exactly the reports well formed apart from the overall score, whose loose comparison does not fall outside [0, 100]. A numeric overall score it accepts is in [0, 100]. |
| ResumeAnalyzer.NullOverallScoreAccepted | Backend/src/services/resumeAnalyzer.ts:180-182 | A report well formed except for a null overall score passes as written, and the corrected validator rejects it with the range message. |
| ResumeAnalyzer.NullScoreReportIsWitness | Backend/src/services/resumeAnalyzer.ts:180-182 | Such a report exists. |
| ResumeAnalyzer.AnalyzeResponse | Backend/src/services/resumeAnalyzer.ts:60-94 | An absent or empty reply is "No response from GROQ API". A reply that does not parse or does not validate is "Invalid response format from AI analysis". An API error keeps its message. All of these carry the "Resume analysis failed: " prefix. Otherwise the result succeeds exactly when the cleaned text parses and the as-written validator passes it. A success is that parse, well formed except that its overall score is only known not to compare outside [0, 100]. |
| ResumeAnalyzer.NullScoreReplyAnalyzed | Backend/src/services/resumeAnalyzer.ts:83-87 | A reply whose report has a null overall score comes back as a successful analysis, while the intended function reports an invalid format. |
| ResumeAnalyzer.AnalyzeResponseFixed | Backend/src/services/resumeAnalyzer.ts:60-94 | The intended half of Finding 1: the same error messages, and a success exactly when the parse is a well-formed report, a number in [0, 100] for the overall score included. |
| ResumeAnalyzer.Analyzer.constructor | Backend/src/services/resumeAnalyzer.ts:30-33 | An analyzer is built only with a non-empty API key. |
| ResumeAnalyzer.AnalyzerSlot.GetAnalyzer | Backend/src/services/resumeAnalyzer.ts:210-217 | At most one analyzer is ever constructed, and every later call returns that same instance. Without an API key, the call fails with the missing-key message and the slot stays empty. |
| FileProcessor.ExtName | Backend/src/utils/fileProcessor.ts:38 | `path.extname`: empty, or a '.' followed by no further '.', taken from the end of the last path segment and shorter than that segment. |
| FileProcessor.ValidateFileType | Backend/src/utils/fileProcessor.ts:36-40 | True exactly when the lower-cased extension is ".pdf", ".doc" or ".docx". |
| FileProcessor.ValidationIgnoresCase | Backend/src/utils/fileProcessor.ts:38 | Lower-casing a name does not change its validation. |
| FileProcessor.LastExtensionCounts | Backend/src/utils/fileProcessor.ts:38 | "<stem>.<e>" has extension ".<e>". |
| FileProcessor.LastExtensionDecides | Backend/src/utils/fileProcessor.ts:36-40 | Validation of "<stem>.<e>" depends only on the lower-cased ".<e>". |
| FileProcessor.UpperCaseNameAccepted | Backend/src/utils/fileProcessor.ts:38 | Any name ending in ".PDF" (such as "CV.PDF") is accepted. |
| FileProcessor.DoubleExtensionRejected | Backend/src/utils/fileProcessor.ts:38 | Any name ending in ".pdf.exe" is rejected. |
| FileProcessor.DotfileHasNoExtension | Backend/src/utils/fileProcessor.ts:38 | A bare dotfile ".<e>" has an empty extension and is rejected. |
| FileProcessor.BareDotfileRejected | Backend/src/utils/fileProcessor.ts:38 | ".pdf" is rejected. |
| FileProcessor.ExtractTextFromFile | Backend/src/utils/fileProcessor.ts:6-23 | .pdf goes to the PDF extractor, and .doc/.docx to the Word extractor. Every failure, including an unsupported type, becomes "Failed to extract text from <ext> file". |
| FileProcessor.ValidationMatchesDispatch | Backend/src/utils/fileProcessor.ts:10-17 | A name passes `validateFileType` exactly when extraction does not take the unsupported branch. |
| FileUpload.IsValidFileType | Frontend/src/components/FileUpload.tsx:28-31 | True exactly for the PDF, Word and Word-OpenXML MIME types. |
| FileUpload.FirstFile | Frontend/src/components/FileUpload.tsx:12 | The first chosen file, or none when nothing was chosen. |
| FileUpload.FileSelection.HandleFileChange | Frontend/src/components/FileUpload.tsx:11-14 | The selection becomes the first chosen file, or none, without a type check. |
| FileUpload.FileSelection.HandleDrop | Frontend/src/components/FileUpload.tsx:16-22 | The selection changes only when a file was dropped and its type is valid. Otherwise it stays as it was. |
| FileUpload.FileSelection.RemoveFile | Frontend/src/components/FileUpload.tsx:41-46 | The selection becomes none and the input's value becomes empty. |
| Integration.ClientAndServerAllowSameTypes | Frontend/src/components/FileUpload.tsx:29 | The browser's allow list is the server's upload filter list, so the browser accepts a type exactly when the server's filter does. |
| ScoreColors.ScoreColor | Frontend/src/components/AnalysisResults.tsx:29-33 | Emerald exactly for ≥ 80, yellow exactly for [60, 80), red exactly for < 60. |
| ScoreColors.ScoreBgColor | Frontend/src/components/AnalysisResults.tsx:35-39 | The same three bands, with the gradient classes. |
| ScoreColors.RingColor | Frontend/src/components/AnalysisResults.tsx:61 | The same three bands, with the stroke colours. |
| ScoreColors.ColorsAgreeOnBand | Frontend/src/components/AnalysisResults.tsx:29-39 | Text colour, gradient and ring colour are each determined by one shared band. |
| ScoreColors.ColorsSeparateBands | Frontend/src/components/AnalysisResults.tsx:29-39 | Two scores get the same colour exactly when they are in the same band, for each of the three colourings. |
| ScoreColors.BandMonotone | Frontend/src/components/AnalysisResults.tsx:29-39 | Raising a score never moves it to a worse band. |
| AdminPage.BucketCount | Frontend/src/components/AdminPage.tsx:546-550 | A bucket never counts more rows than there are. |
| AdminPage.RangeReadsBack | Frontend/src/components/AdminPage.tsx:548-549 | Splitting a bucket's "min-max" text and reading the two numbers back gives the test min ≤ score ≤ max. |
| AdminPage.BucketBounds | Frontend/src/components/AdminPage.tsx:539-549 | A score counts in bucket i exactly when it lies between that bucket's bounds. |
| AdminPage.BucketsDisjoint | Frontend/src/components/AdminPage.tsx:539-550 | No score counts in two buckets. |
| AdminPage.IntegerBucket | Frontend/src/components/AdminPage.tsx:539-544 | Every whole number from 0 to 100 lies in exactly one bucket's bounds. |
| AdminPage.IntegerScoreInOneBucket | Frontend/src/components/AdminPage.tsx:539-550 | A whole score from 0 to 100 counts in a bucket exactly when that bucket is its own. |
| AdminPage.WholeScoresAllCounted | Frontend/src/components/AdminPage.tsx:539-550 | When every recent score is a whole number in 0..100, the five counts add up to the number of recent analyses. |
| AdminPage.FractionalScoreUncounted | Frontend/src/components/AdminPage.tsx:539-550 | A score of 89.5 counts in no bucket. |
| AdminPage.Band | Frontend/src/components/AdminPage.tsx:539-544 | The corrected bands are half-open: 90 and up, [80, 90), [70, 80), [60, 70), and below 60. |
| AdminPage.BandsCountEveryRow | Frontend/src/components/AdminPage.tsx:539-550 | Under the corrected bands, every row is counted exactly once. |
| AdminPage.BandsAgreeOnWholeScores | Frontend/src/components/AdminPage.tsx:539-550 | For whole scores from 0 to 100, the corrected bands and the written buckets agree. |
| AdminPage.PeakIndex | Frontend/src/components/AdminPage.tsx:515-517 | The reduce picks a day with the most analyses, and no earlier day has as many. |
| AdminPage.PeakDay | Frontend/src/components/AdminPage.tsx:515-517 | None exactly for no rows (the reduce throws there). Otherwise it is the earliest day with the maximal count. |
| AdminPage.PeakDayPrefersEarlier | Frontend/src/components/AdminPage.tsx:516 | On a tie, the earlier day wins. |
| Integration.PeakDayOfWindow | Frontend/src/components/AdminPage.tsx:515-517 | On the server's seven rows, the reduce never meets an empty array: there is always a peak day, and it is one of the window's dates. |
| AdminPage.Status | Frontend/src/components/AdminPage.tsx:611 | 'Returning' exactly for a count above 1, and 'New' exactly otherwise. |
| AdminPage.ReturningUsers | Frontend/src/components/AdminPage.tsx:526 | Exactly the rows with a count above 1. |
| AdminPage.ReturningCountMatchesBadges | Frontend/src/components/AdminPage.tsx:526 | The retention figure equals the number of 'Returning' badges, and every other row is badged 'New'. |
| Integration.BadgesMatchLog | Frontend/src/components/AdminPage.tsx:607-611 | In a consistent store, a user row is badged 'Returning' exactly when the log holds at least two analyses by that email. |
| AdminPage.AuthHeader | Frontend/src/components/AdminPage.tsx:86-91 | "Bearer <token>", or "Bearer null" without a stored token. |
| Integration.AuthHeaderIsBearer | Frontend/src/components/AdminPage.tsx:89 | The page's header is the bearer header the server's gate parses. |
| Integration.LoginThenFetchPassesGate | Backend/src/index.ts:190-214 | Logging in and fetching with the returned token passes the corrected gate. It passes the gate as written exactly when the password has no space. |
| AdminPage.AdminSession.constructor | Frontend/src/components/AdminPage.tsx:47-51 | The session starts logged out, with no stats, no password, no error and not loading. |
| AdminPage.AdminSession.Mount | Frontend/src/components/AdminPage.tsx:117-123 | A truthy stored token makes the page authenticated and sends a stats request with that token. Without one, nothing changes. |
| AdminPage.AdminSession.FetchAdminStats | Frontend/src/components/AdminPage.tsx:83-91 | Sets loading and sends the stored token as a bearer header. Nothing else changes. |
| AdminPage.AdminSession.StatsSettled | Frontend/src/components/AdminPage.tsx:93-107 | Received stats are stored. A refusal sets "Failed to fetch admin stats". A 401 also logs out and removes the token, while other failures keep the authenticated state. A network error sets "Failed to connect to server". Loading ends in every case. |
| AdminPage.AdminSession.TypePassword | Frontend/src/components/AdminPage.tsx:166 | Only the password changes. |
| AdminPage.AdminSession.SubmitLogin | Frontend/src/components/AdminPage.tsx:54-66 | Sets loading, clears the error and sends the typed password. |
| AdminPage.AdminSession.LoginSettled | Frontend/src/components/AdminPage.tsx:68-80 | Success stores the token, authenticates and sends a stats request. A refusal sets "Invalid password", and a network error sets "Failed to connect to server". Neither failure changes authentication or the token. Loading ends in every case. |
| AdminPage.AdminSession.Logout | Frontend/src/components/AdminPage.tsx:110-115 | Removes the token, logs out, and clears both stats and password. |
| JobDescriptionInput.SplitWhitespace | Frontend/src/components/JobDescriptionInput.tsx:13 | `split(/\s+/)`: at least one piece, and no piece contains white space. |
| JobDescriptionInput.NonEmpty | Frontend/src/components/JobDescriptionInput.tsx:13 | The filter keeps exactly the non-empty pieces. |
| JobDescriptionInput.SplitCountsRuns | Frontend/src/components/JobDescriptionInput.tsx:13 | The number of non-empty pieces of the split is the number of maximal runs of non-white-space characters. |
| JobDescriptionInput.RunsOfTrim | Frontend/src/components/JobDescriptionInput.tsx:13 | Trimming does not change the number of runs. |
| JobDescriptionInput.WordCount | Frontend/src/components/JobDescriptionInput.tsx:13 | The word count is the number of maximal runs of non-white-space characters. |
| JobDescriptionInput.WordCountZeroIffBlank | Frontend/src/components/JobDescriptionInput.tsx:13 | The word count is 0 exactly for an empty or all-white-space text. |
| JobDescriptionInput.WordCountIgnoresPadding | Frontend/src/components/JobDescriptionInput.tsx:13 | White space added at either end does not change the word count. |
| JobDescriptionInput.WordCountBound | Frontend/src/components/JobDescriptionInput.tsx:13-14 | wordCount ≤ (charCount + 1) / 2, and hence wordCount ≤ charCount. |
| JobDescriptionInput.SampleFits | Frontend/src/components/JobDescriptionInput.tsx:16-26 | The sample text fits the 5000-character limit of the text area. |
| JobDescriptionInput.JobDescriptionBox.HandleChange | Frontend/src/components/JobDescriptionInput.tsx:9-11 | The value becomes the text area's new value. |
| JobDescriptionInput.JobDescriptionBox.HandleUseSample | Frontend/src/components/JobDescriptionInput.tsx:28-30 | The value becomes the fixed sample text. |
| JobDescriptionInput.JobDescriptionBox.HandleClear | Frontend/src/components/JobDescriptionInput.tsx:32-34 | The value becomes "", which shows 0 words and 0 characters. |
| JobDescriptionInput.JobDescriptionBox.ShowsClear | Frontend/src/components/JobDescriptionInput.tsx:67 | The Clear button is shown exactly while the box holds text. |
| Text.TrimIgnoresPadding | Frontend/src/components/JobDescriptionInput.tsx:13 | `trim` removes any white space added at either end. |

## Left out

- Express wiring is not modelled: CORS, body parsing, multer's storage, `listen` and JSON serialisation. Only the upload filter, the size limit and the error middleware's two replies are modelled (`UploadReply`).
- The Groq SDK call and the prompt are left out. They are a foreign API: the completion is an input (`Completion`) and `JSON.parse` is a function parameter.
- pdf-parse, mammoth and the file-system calls are foreign libraries. The two extractors are function parameters of `ExtractTextFromFile`. `extractTextFromBuffer`, which the server imports, is not part of this model: it is the `extract` parameter of `Admit`.
- `getFileSize` and `formatFileSize` are left out (file system, `Math.log`).
- Floating point is not modelled: averages and rounding are in exact reals, so float rounding error is absent. `Math.round` is floor(x + 1/2). Bar heights, ring geometry and `toFixed` are left out.
- The clock and the locale are inputs. `now`, `today` and the seven date keys (`daysAgoKey`) are passed in, and the date arithmetic and date formatting are not modelled.
- The stored analysis is the typed report record that the server's cast assumes. So `p.analysis.weaknesses` and the category scores are always present in the model (the validator guarantees this for every stored entry). The overall score is a number in the record, but the validator as written also lets null, strings, arrays and objects through there (Finding 1). The model does not represent such a value in the store, so it does not capture what the source's average does with it (`sum + null` adds 0, and a string concatenates), nor the page's buckets counting a null score in "0-59".
- `GET /admin/stats-simple` (an unauthenticated dump of the store) is not modelled. It only reads the store.
- React rendering, routing, `fetch`, `localStorage` and the other pages are left out. Each awaited step of the admin page is a separate method (`SubmitLogin`/`LoginSettled`, `FetchAdminStats`/`StatsSettled`). A `response.json()` failure is folded into the network-error outcome.
- Concurrency is not modelled: handlers run as sequential, atomic steps, as on Node's single event loop.
- Text.StringToNumber: reads only unsigned decimal integers, and a blank string as 0. It treats decimals, signs and exponents, which `Number` accepts, as NaN. The bucket labels need none of these.
- ResumeAnalyzer.ValidateAsWrittenAccepts: because of the simplified `Number`, a string overall score such as "150.5" is read as NaN and passes in the model, whereas JavaScript reads 150.5 and rejects it. A numeric overall score is handled as in JavaScript.
- FileProcessor.ToLower: folds ASCII letters only. `toLowerCase` folds all of Unicode, but every allowed extension is ASCII.
- JobDescriptionInput.CharCount: counts code points. JavaScript's `length` counts UTF-16 units, which differ only for characters outside the Basic Multilingual Plane.
- The browser's `maxLength` limit on typed input is not modelled. `SampleFits` proves only that the sample respects it.
- As written, the admin page's `finally` clears `loading` after login while the stats request it started is still open. `LoginSettled` models this as written and claims nothing more about it.
- No HTML job-posting scraper exists in this code, so none is modelled.

## Findings

| source | as written | input that shows it | evidently intended | confidence | as-written member | corrected member |
|---|---|---|---|---|---|---|
| Backend/src/services/resumeAnalyzer.ts:180-182 | `overallScore < 0 \|\| overallScore > 100` has no type test. `null` compares as 0, and a string, an array or an object may compare as NaN, so these pass. | a report well formed apart from `"overallScore": null` | the overall score must be a number in [0, 100], like the category scores | not executed | ResumeAnalyzer.NullOverallScoreAccepted, ResumeAnalyzer.NullScoreReplyAnalyzed | ResumeAnalyzer.ValidateAcceptsExactlyWellFormed, ResumeAnalyzer.AnalyzeResponseFixed |
| Frontend/src/components/AdminPage.tsx:539-550 | The buckets are closed integer ranges (…, 80-89, 90-100), so a score strictly between 89 and 90 (or 79 and 80, …) is counted in no bucket. | a recent analysis with score 89.5 | every score lies in exactly one band | not executed | AdminPage.FractionalScoreUncounted | AdminPage.BandsCountEveryRow |
| Backend/src/index.ts:192 | The gate takes `split(' ')[1]`, which ends at the password's first space, so login succeeds but every stats request is refused. | ADMIN_PASSWORD = "open sesame" | the gate reads everything after "Bearer " | not executed | AnalyticsStore.PasswordWithSpaceLocksOut, AnalyticsStore.Store.GetAdminStats | AnalyticsStore.LoginTokenPassesGate, AnalyticsStore.Store.GetAdminStatsFixed |
