# vlessvmorectl, modelled and proved in Dafny

vlessvmorectl is a small administration panel for VPN nodes. This project models the parts of it that keep state or
promise something over time, and proves what their comments, tests and names promise. `dafny verify dfyconfig.toml`
checks everything.

| part of the program | modules |
|---|---|
| backup retention and archive names | `Calendar`, `CalendarFacts`, `ArchiveNames`, `Retention`, `KeptArchives`, `Ties`, `Prune`, `PruneRuns` |
| signed-in sessions and their mirror on disk | `Hex`, `Sessions`, `SessionRuns`, `SessionHistory` |
| sign-in and share-link rate limits | `RateLimits`, `PenaltyBox`, `LimiterBounds`, `Guessing` |
| pending passkey ceremonies | `Challenges` |
| subscribers.json | `SubscriberRules`, `SubscriberEffects`, `SubscriberStore` |
| passkeys.json | `PasskeyRules`, `PasskeyEffects`, `PasskeyStore` |
| admins.json and its two writers | `Admins`, `AdminEffects`, `AdminStore` |
| what the three files may hold | `LoadedFiles` |
| authentication, sign-in, sign-out, account changes | `Panel`, `Authentication`, `PasswordChanges`, `SignIns`, `Server` |
| coalescing of identical GETs | `SingleFlight` |
| byte labels and the usage chart's byte axis | `ByteText`, `SizeTexts`, `ByteAxis` |
| the usage series: range, gap filling, grouping, day boundaries | `Series`, `Columns` |
| shared vocabulary | `Wrappers`, `Lists`, `Text`, `Files` |

Objects that the program updates in place are classes (`Table`, `LoginLimiter`, `AccessLimiter`, `ChallengeStore`,
`Subscribers`, `Passkeys`, `Store`, `Server`), and its loops are loops. Their methods are proved against functions on
values; statements about whole runs are lemmas about those functions. What those functions themselves do is stated a
second time without them: record by record (`AdminEffects`, `SubscriberEffects`, `PasskeyEffects`, `LoadedFiles`), by
a history in minutes, hours and days that knows neither table nor window (`PenaltyBox`, `SessionHistory`), by counts
of days, weeks and months (`KeptArchives`, `CalendarFacts`), and by what is written and drawn (`SizeTexts`,
`Columns`).

## Where the code falls short of its own promises

Each of these is modelled as the code has it, with the exact condition under which the promise holds, or the exact
bound, and a concrete case in which it does not.

- Relabelling a subscriber's entry checks only the label's length, so a label with a control character is saved and the
  next start refuses the file: `SubscriberRules.RelabelKeepsValidExactlyWhen`, `RelabelCanSaveWhatLoadRefuses`.
- Enrolling a passkey checks neither the credential's parts nor whether somebody else holds the handle, so a public key
  of more than 1024 bytes is saved and the next start refuses the file (an unstated algorithm, which load refuses too, is
  filled in before the store sees it): `PasskeyRules.AddKeepsLoadableExactlyWhen`, `AddCanSaveWhatLoadRefuses`,
  `AddCanShareAHandle`.
- A comment says that day boundaries always land on a column start. They do exactly when each bucket in which the local
  day turns over has a local hour divisible by the column width; where the clocks skip midnight they do not:
  `Series.BoundariesSurviveExactlyWhen`, `Series.SkippedMidnightLosesABoundary`.
- A comment says that two axis ticks are always exact. Below one byte they print the unit "undefined", so the labels are
  exact exactly for a peak above half a byte: `ByteAxis.LabelsAreExactExactlyWhen`.
- A cap "per minute" with fixed windows admits twice the cap in some minute, and never more:
  `LimiterBounds.TwiceTheGlobalCap`, `LimiterBounds.TwiceTheCapIsReached`.
- An archive name reads back exactly in the years 0 to 9999: `ArchiveNames.PrintedNameReadsBack`.
- Archives with equal timestamps, as an encrypted and an unencrypted one of the same second, are kept or not as an
  unstable sort decides: `Ties.EqualTimestampsAreUndecided`. What a prune keeps is settled exactly when no two neighbours
  of equal timestamps lie on either side of a slot's edge: `Ties.OrderMattersExactlyWhen`,
  `Ties.PruneIsSettledExactlyWhen`. Path independence holds for distinct timestamps, and for any timestamps as long
  as the order among equals does not change (`Retention.KeepOfThinned`).
- A session ends with the password it was signed in with, but restoring an earlier admins.json brings that password's
  hash back and with it every session of that time which has neither expired nor been refused or dropped meanwhile:
  `Authentication.RestoredListRevivesASession`. A session still in memory is let in exactly when the loaded hash is the
  one its sign-in checked (`Authentication.LetInExactlyWhen`); that the password has not changed in between follows as
  long as no replaced hash comes back (`Authentication.PasswordUnchangedSince`).
- Signing out ends a session, but a failed save of the sessions is only logged, so a restart brings the session back:
  `Authentication.FailedLogoutIsUndone`, and `SessionRuns.LogoutThenRestart` on the table itself. The next restart undoes
  a revocation exactly when no save has worked since and the session is still on disk, unexpired
  (`Authentication.RevokedSessionReturnsExactlyWhen`). A password change needs no save of the sessions: what a restart
  brings back is refused for its hash (`PasswordChanges.PasswordChangeEndsEarlierSignIns`). For the same reason a restart
  can lose a session or forget a renewal: `SessionRuns.RestartKeepsExactlyWhen`,
  `SessionRuns.UnsavedRenewalIsRepeatedExactlyWhen`.
- A comment says that a missing admins.json leaves the list in memory alone, so that nobody working is locked out. The
  check that every request makes does leave it alone, but a request about an account reads the file anyway and takes a
  missing one for an empty list, which keeps the list exactly when it was empty: `AdminStore.MissingFileIsReadAsEmpty`.
  From then on every session is refused and dropped: `SignIns.MissingFileSignsEverybodyOut`.
- No administrator is lost to two writers as long as reading the file and asking for its stamp is one step. It is two: a
  write that lands in between is taken for read, and the next write undoes it: `AdminStore.OvertakenLoadLosesTheUpdate`.
  It does no harm exactly when the file has the same administrators after all:
  `AdminStore.OvertakenIsInStepExactlyWhen`.
- Five wrong passwords per name and minute are meant to be let through, but an attempt is charged only after bcrypt has
  answered: attempts that arrive before that are all let through, up to the endpoint's cap of 60
  (`Guessing.RushIsLetThrough`). With at most n under way at once at most three times 4 + n get through in any minute
  (`Guessing.LetThroughAtMost`), and at most ten when they follow one another (`LimiterBounds.TwiceTheFailures`).

## Assumptions

- The current time is a parameter, an integer that never goes backwards from one call to the next. The zero time is
  `None`.
- Random identifiers are parameters: `Draws` gives what each try of a retry loop draws, of the right shape but otherwise
  arbitrary, so the loop may fail. A source without entropy is `None`.
- Digests tell apart the values in play: tokens and cookies are looked up under any digest function given to the table,
  and the theorems about authentication that depend on it say so (`DigestTellsApart`): the hashes that the administrator
  in question had in the loaded list have different fingerprints.
- Requests interleave: `Panel` takes a sign-in as copying the record and issuing a session, a password change as saving
  the hash, dropping the sessions and issuing one, a request as looking the cookie up and checking it against the list as
  it is later, and lets anything happen between these steps. Each step is one call of a store or table, which holds its
  lock throughout. A save of the sessions may fail at every step. Nobody but the panel writes the file they are saved in.
- Go's order of walking a map is arbitrary: wherever it matters, the result holds for every order.
- A file is replaced as a whole or not at all. Its stamp, for size and modification time, never repeats. For
  `AdminStore.NoLostUpdate` reading and stamping admins.json is one step, checking and renaming is one step, and nobody
  removes the file or edits it by hand during the run; the window between the real stat and rename is not modelled.
- Text is a sequence of characters with the case folding and trimming of ASCII.
- Sizes on the axis are exact real numbers and logarithms are floors of exact logarithms; rounding of doubles is not
  modelled.
- What the browser's time zone says of an instant (local hour, local day) and whether a bucket parses as a date are
  parameters.

## Model

| member | source | states |
|---|---|---|
| Calendar.DateOf | backup/retention.go:50 | every day number is the day number of a valid civil date, found without a search |
| Calendar.DateOfDay | backup/retention.go:50 | date to day number and back is the identity, so the two conversions are inverse |
| Calendar.IsoWeekNamesOneWeek | backup/retention.go:76-79 | ISO year and week number agree exactly for days of one Monday-to-Sunday week, also across a year end |
| Calendar.MonthsRespectTime | backup/retention.go:81 | later days never lie in an earlier year or month |
| Calendar.FieldsDenoteInstant | backup/retention.go:50 | rebuilding an instant from its own calendar and clock fields gives that instant |
| CalendarFacts.FourCenturies | backup/retention.go:50 | four centuries have 97 leap days, and leap years come again after them |
| CalendarFacts.MonthLengths | backup/retention.go:50 | each month's length, by name, in leap years and others |
| CalendarFacts.Weekdays | backup/retention.go:77 | the first of January 1970 was a Thursday, and a new week begins after every Sunday |
| CalendarFacts.JanuaryFourth | backup/retention.go:76-79 | the fourth of January lies in the first week of its own year |
| CalendarFacts.NextWeek | backup/retention.go:76-79 | from week to week the number goes up by one, or starts again at one in the next year |
| CalendarFacts.FieldsCarry | backup/retention.go:50 | a second, minute, hour or day more is that much later, also beyond the field's usual range |
| CalendarFacts.MonthsCarry | backup/retention.go:50 | twelve months more are a year more |
| CalendarFacts.NameIsDatedByItsPieces | backup/retention.go:20 | a name spelt from prefix, date, clock and extension is dated by the numbers its pieces spell |
| CalendarFacts.OnlySuchNamesAreDated | backup/retention.go:39-51 | and no other name is dated |
| CalendarFacts.ExtensionTells | backup/retention.go:12-18 | an archive's name ends in .zip exactly when it is encrypted, and in .tgz otherwise |
| ArchiveNames.ParseDateFromName | backup/retention.go:39-51 | the digit loop computes the instant the six fields denote, and refuses any other name |
| ArchiveNames.PatternsAgree | backup/retention.go:18-20 | the matching and the dating pattern accept the same language |
| ArchiveNames.PrintedNameReadsBack | backup/main.go:88-90 | a name printed for an instant, with either extension, reads back as that instant in the years 0 to 9999 and is not recognised in any other |
| ArchiveNames.DayKeyNamesDay | backup/retention.go:74 | two instants share a day key exactly when they fall on one day |
| ArchiveNames.WeekKeyNamesWeek | backup/retention.go:76-79 | two instants share a week key exactly when they fall in one Monday-to-Sunday week |
| ArchiveNames.MonthKeyNamesMonth | backup/retention.go:81 | two instants share a month key exactly when they fall in one month of one year |
| ArchiveNames.DayKeyRespectsTime | backup/retention.go:53-56 | day buckets are stretches of time, so a newest-first list meets each once |
| ArchiveNames.WeekKeyRespectsTime | backup/retention.go:53-56 | the same for ISO weeks |
| ArchiveNames.MonthKeyRespectsTime | backup/retention.go:53-56 | the same for months |
| Retention.BucketKeepers | backup/retention.go:122-137 | the loop with one remembered key returns the recursive choice for any list, key and count, where a count of zero or less takes one of every bucket |
| Retention.SelectBackupsToKeep | backup/retention.go:88-117 | the loops over the newest day and the three slot kinds select exactly the policy's names, none for an empty list |
| Retention.CalendarIsOrderly | backup/retention.go:74-81 | the program's three keys satisfy what the policy's theorems ask of keys |
| Retention.KeepersLeadBuckets | backup/retention.go:119-137 | on a newest-first list the result is exactly the newest archive of each of the n newest buckets |
| Retention.KeptExactlyWhen | backup/retention.go:83-117 | an archive is kept exactly when it is among the three newest of the newest day or leads one of the newest three days, two weeks or two months |
| KeptArchives.KeptByTheCalendar | backup/retention.go:61-117 | the same in numbers: kept are the three newest of the newest day, and the newest of each of the three newest days, two newest Monday-to-Sunday weeks and two newest months that have any |
| Retention.AtMostSevenAreKept | backup/retention.go:83-88 | at most seven archives are kept for any input, and the first one always is |
| Retention.KeepOfThinned | backup/retention.go:53-56 | leaving out archives the policy would drop does not change what it keeps, for any timestamps |
| Retention.KeepIsPathIndependent | backup/retention.go:53-60 | for distinct timestamps every pool between keep(H) and H has keep(pool) = keep(H) |
| Retention.LeadingOfDay | backup/retention.go:94-102 | the first loop marks the newest archives of the newest day, up to three |
| Ties.OrdersAgreeOnDates | backup/retention.go:35 | two newest-first orders of the same archives have the same dates position by position |
| Ties.TieDecidesMeans | backup/retention.go:83-117 | of two neighbours with equal timestamps just one is kept exactly when the first takes the newest day's last slot, or when it opens a bucket that has a slot and the newest day has no slot for the second |
| Ties.OrderMattersExactlyWhen | backup/retention.go:35 | every newest-first order of the same archives keeps the same ones if and only if there are no such neighbours |
| Ties.PruneIsSettledExactlyWhen | backup/retention.go:28-37 | the same for all the listings the sort may make of one directory |
| Ties.EqualTimestampsAreUndecided | backup/retention.go:35 | an encrypted and an unencrypted archive of one second, with one of a later day beside them: two listings of that directory keep different archives |
| Retention.KeepOfLonger | backup/retention.go:53-56 | a newer archive only displaces: what the longer list keeps of the old ones was kept before |
| Retention.PruningEveryRoundKeepsTheHistorysChoice | backup/main.go:164-178 | a run that adds archives and prunes after each, with any deletions failing, always keeps what one selection over the whole history would |
| Retention.SecondPruneRemovesNothing | backup/main.go:164-178 | once a round's deletions succeed the pool is exactly what is kept, at most seven archives, so pruning again removes nothing |
| Prune.SortNewestFirst | backup/retention.go:35 | a newest-first permutation, with any order among equal timestamps |
| Prune.ParseEntries | backup/retention.go:28-37 | exactly the datable names with their instants, newest first |
| Prune.SortStrings | backup/retention.go:149 | an ascending permutation |
| Prune.StringLeMeans | backup/retention.go:149 | a name comes before another when it is a beginning of it or has the smaller character where they first differ |
| Prune.ToRemove | backup/retention.go:141-151 | in ascending order, exactly the recognised names that the policy does not keep |
| Prune.KeptAndRemovedPartition | backup/retention.go:139-151 | kept and removed names are disjoint and together exactly the recognised ones, so foreign files are in neither |
| Prune.DeleteEach | backup/main.go:172-177 | the loop deletes every listed file but those whose deletion fails, and stops at none |
| Prune.Cleanup | backup/main.go:164-178 | after the loop the foreign files, the kept ones and those whose deletion failed are left, and nothing else |
| Prune.ListingIsUnique | backup/retention.go:35 | with distinct timestamps there is one newest-first order of the recognised names |
| PruneRuns.DirectoryFollowsThePool | backup/main.go:164-178 | over a whole run, in whatever order directories are listed and whatever deletions fail, the directory holds its foreign files and exactly the archives of the run that PruningEveryRoundKeepsTheHistorysChoice is about |
| Hex.DecodeEncoded | internal/session/session.go:172-174 | decoding an encoded digest gives it back |
| Hex.DecodesExactlyWhen | internal/session/session.go:115-125 | text decodes exactly when it is pairs of hexadecimal digits, two a byte |
| Hex.DecodedAt | internal/session/session.go:115-125 | each byte is sixteen times its first digit plus its second, in either case |
| Hex.EncodedIsLower | internal/session/session.go:172-174 | digests are written in small letters, two a byte |
| Sessions.Table.constructor | internal/session/session.go:103-152 | a new table holds exactly what its rows restore to, or nothing when unreadable or not persistent |
| Sessions.Table.Flush | internal/session/session.go:165-183 | a successful save leaves rows that list every record once; a failed one leaves the old rows |
| Sessions.Table.Issue | internal/session/session.go:195-219 | the new record with its expiry replaces one least recently used record when the table is full; without entropy nothing changes |
| Sessions.Table.EvictOldest | internal/session/session.go:326-338 | drops one of the least recently used records, whatever the order of the walk |
| Sessions.Table.Lookup | internal/session/session.go:225-253 | verdict, slide, removal of an expired record and flush, exactly as the sliding-expiry rule says |
| Sessions.Table.Delete | internal/session/session.go:257-268 | removes exactly that cookie's record |
| Sessions.Table.DeleteAdmin | internal/session/session.go:271-285 | removes exactly that administrator's records and counts them |
| Sessions.Table.Sweep | internal/session/session.go:288-302 | removes exactly the expired records and counts them |
| Sessions.RestartRestoresLive | internal/session/session.go:115-147 | restoring saved rows at any time gives back exactly the live records, in whatever order they were saved |
| SessionRuns.StepKeepsWellFormed | internal/session/session.go:46-50 | every step keeps the table within 4096 records and every expiry exactly Idle after the last use, in memory and on disk, whatever saves fail |
| SessionRuns.EvictionTakesExpiredFirst | internal/session/session.go:326-338 | eviction drops a live record only when no record has expired |
| SessionRuns.HousekeepingIsInvisible | internal/session/session.go:287-302 | over every run whose restarts find the live sessions on disk, with or without sweeps and restarts, all lookups get the same verdicts and the same sessions are live, even at the cap |
| SessionRuns.SavingLosesNothing | internal/session/session.go:159-183 | restarts do find them as long as saves succeed |
| SessionRuns.SavesKeepDiskInStep | internal/session/session.go:159-183 | the rows on disk stay what the last successful save wrote, when a save works and when it fails |
| SessionRuns.RestartIsTheRestartEvent | internal/session/session.go:103-152 | a new table on such rows is the table after the restart of those runs, readable or not |
| SessionRuns.LogoutThenRestart | internal/session/session.go:257-268 | after signing out of a saved table and restarting, the session is back exactly when the save at sign-out failed |
| SessionRuns.RestartKeepsExactlyWhen | internal/session/session.go:155-158 | a restart keeps a session exactly when the last successful save had it, used within Idle |
| SessionRuns.RegularUseKeepsSession | internal/session/session.go:30-40 | a session neither deleted nor evicted, and found on disk as last used by every restart, survives every run whose gaps between lookups are at most Idle minus Refresh |
| SessionRuns.SavedRenewalsStayOnDisk | internal/session/session.go:244-251 | restarts do find it so as long as its own renewals are saved, whatever other saves fail |
| SessionRuns.RegularUseBoundIsExact | internal/session/session.go:244-251 | one nanosecond more between two uses can be refused |
| SessionRuns.IdleSessionIsRefused | internal/session/session.go:31-34 | after Idle or more without a lookup a session is refused, whatever else happened and whatever saves failed |
| SessionRuns.RenewalsAreSpaced | internal/session/session.go:223-224 | after a renewal that was saved none is reported for Refresh, whatever saves fail later |
| SessionRuns.UnsavedRenewalIsRepeatedExactlyWhen | internal/session/session.go:223-224 | right after a restart a session is renewed exactly when the last successful save is Refresh behind |
| SessionHistory.AnswersAreTold | internal/session/session.go:30-50 | over every run from an empty table, every cookie is answered as its own history tells: issued, not ended, not displaced by a new session at 4096, seen less than ten days ago, renewed after an hour, and after a restart what was on disk |
| SessionHistory.AtMost4096 | internal/session/session.go:46-50 | there are never more than 4096 sessions, in memory or on disk |
| SessionHistory.OnlyTheLiveAreLeft | internal/session/session.go:288-302 | a sweep leaves exactly the sessions that are alive, and a lookup drops the one it finds expired |
| SessionHistory.RowIsRestoredExactlyWhen | internal/session/session.go:115-147 | a row is restored exactly when it has 64 and 16 hexadecimal digits, an owner, and has not expired |
| SessionHistory.ServeIssue | internal/session/session.go:195-219 | issuing a session, and what that leaves on disk, is the issue of those runs, whichever session a full table drops |
| SessionHistory.ServeLookup | internal/session/session.go:225-253 | resolving a cookie, and what that leaves on disk whether the save works or fails, is the lookup of those runs |
| SessionHistory.ServeDelete | internal/session/session.go:257-268 | signing out is their deletion |
| SessionHistory.ServeDeleteAdmin | internal/session/session.go:271-285 | dropping an administrator's sessions is theirs |
| SessionHistory.ServeSweep | internal/session/session.go:288-302 | and so is sweeping |
| SessionHistory.ServeRestart | internal/session/session.go:103-152 | and a new table on the same rows is their restart |
| RateLimits.LoginLimiter.Allow | internal/api/ratelimit.go:55-69 | the verdict and the new state: reaped, counted globally, and refused by either cap |
| RateLimits.LoginLimiter.Fail | internal/api/ratelimit.go:72-83 | charges one failure to the folded name's window |
| RateLimits.LoginLimiter.AllowGlobal | internal/api/ratelimit.go:92-97 | reaps, counts globally and answers by the global cap alone |
| RateLimits.LoginLimiter.Succeed | internal/api/ratelimit.go:100-105 | clears exactly the folded name's window |
| RateLimits.LoginLimiter.ReapWindows | internal/api/ratelimit.go:109-119 | at most once per window length, drops exactly the windows that have aged out |
| RateLimits.AccessLimiter.AllowGlobal | internal/api/ratelimit.go:183-188 | reaps, counts and answers by the global cap |
| RateLimits.AccessLimiter.AllowToken | internal/api/ratelimit.go:195-205 | charges one request to the link's window and answers by its cap |
| RateLimits.AccessLimiter.ReapWindows | internal/api/ratelimit.go:219-229 | at most once per window length, drops exactly the windows that have aged out |
| RateLimits.AccessLimiter.ShouldLog | internal/api/ratelimit.go:208-216 | true exactly when a window length has passed since the last line, and then remembers this one |
| PenaltyBox.KeysAreNames | internal/api/ratelimit.go:134-138 | two names share a bucket exactly when they differ at most in surrounding white space and case, which is exactly when the administrator list takes them for one name |
| PenaltyBox.AnswersAreAsTold | internal/api/ratelimit.go:55-69 | after any calls in order, an attempt is let in exactly when fewer than sixty attempts of the running minute, and fewer than five failures under this name of its running minute and since its last success, have been counted |
| PenaltyBox.Serve | internal/api/ratelimit.go:55-119 | the limiter's methods, called in any order, give exactly those answers, reaping included |
| PenaltyBox.AttemptIsItsCalls | internal/api/api.go:405-417 | a password check is a question and, if let in, a failure or a success |
| PenaltyBox.OtherNamesChangeNothing | internal/api/ratelimit.go:9-14 | two runs that agree on the calls under a name give it the same answer, whatever other names did, up to the endpoint's cap |
| PenaltyBox.FiveFailuresShutOut | internal/api/ratelimit.go:23-27 | five failures and no fewer shut a name out, in any spelling, for sixty seconds, and no other name |
| PenaltyBox.SixtyAttemptsShutOut | internal/api/ratelimit.go:23-27 | sixty attempts and no fewer shut everybody out for sixty seconds |
| PenaltyBox.SuccessLetsIn | internal/api/ratelimit.go:99-105 | a success in any spelling lets the name in again, and changes nothing for another |
| PenaltyBox.ServeLinks | internal/api/ratelimit.go:147-216 | the share-link limiter, called in any order, lets in exactly below two hundred requests a minute and twenty for one link, and has a refusal logged exactly once a minute |
| RateLimits.ReapingIsInvisible | internal/api/ratelimit.go:107-132 | over every run a limiter that reaps gives every call the same answer as one that never deletes a window |
| RateLimits.IntervalBound | internal/api/ratelimit.go:122-132 | any interval of n window lengths admits at most n+1 times the cap |
| LimiterBounds.TwiceTheGlobalCap | internal/api/ratelimit.go:55-64 | any interval of one window length admits at most twice the endpoint's cap, over every run |
| LimiterBounds.TwiceTheKeyCap | internal/api/ratelimit.go:195-205 | the same for one key that nobody clears, reaping or not |
| LimiterBounds.AdmissionFigures | internal/api/ratelimit.go:23-27 | the figures 120, 400 and 40 for any minute |
| LimiterBounds.TwiceTheCapIsReached | internal/api/ratelimit.go:122-132 | for every cap an ordered run of checks is admitted twice the cap in one window length, so the factor is exact |
| LimiterBounds.FiguresAreReached | internal/api/ratelimit.go:23-27 | 120 sign-in attempts, and 400 share-link requests, are admitted within some minute |
| LimiterBounds.TwiceTheFailures | internal/api/ratelimit.go:55-83 | whatever else is tried, at most twice the allowed wrong passwords for one name are checked in any window length, unless a right one clears it |
| Guessing.LetThroughAtMost | internal/api/api.go:405-417 | with checking and charging apart, charges arriving late and in any order, and windows reaped in between, at most three times (4 + n) attempts at a name nobody clears are let through in any window length when never more than n wait at once |
| Guessing.RushIsLetThrough | internal/api/api.go:405-417 | attempts that arrive before the first is charged are all let through, and only the endpoint's cap stops them |
| LimiterBounds.MapStaysBounded | internal/api/ratelimit.go:107-119 | when every charge follows an admitted check at the same time the map never exceeds three times the global cap |
| LimiterBounds.MapFigures | internal/api/ratelimit.go:156-161 | the figures 180 for names and 600 for links |
| Challenges.ChallengeStore.Issue | internal/api/challenges.go:55-75 | the expired go, one that expires first goes if the table is full, and the ceremony is stored; without entropy nothing changes |
| Challenges.ChallengeStore.Take | internal/api/challenges.go:79-95 | consumes the state on every path and returns it only to its administrator and in time |
| Challenges.ChallengeStore.ReapExpired | internal/api/challenges.go:103-109 | removes exactly the expired ceremonies |
| Challenges.ChallengeStore.EvictOldest | internal/api/challenges.go:111-123 | drops one of those that expire first, whatever the order of the walk |
| Challenges.TableStaysBounded | internal/api/challenges.go:21-25 | over any run the table never exceeds 512 |
| Challenges.PendingWasIssued | internal/api/challenges.go:62-74 | what is pending was stored by one issue and no call has named its state since |
| Challenges.SuccessfulTake | internal/api/challenges.go:77-95 | a success returns what the latest issue stored, for the same administrator, strictly inside three minutes |
| Challenges.FinishedInTimeExactlyWhen | internal/api/challenges.go:77-95 | over every run in order, a ceremony that nobody has asked for, issued anew or evicted since is returned as issued exactly to its administrator and before three minutes are over |
| Challenges.NothingExpiredAfterIssue | internal/api/challenges.go:103-109 | right after an issue nothing that has expired is pending |
| Challenges.StatesAreSingleUse | internal/api/challenges.go:77-95 | once asked for, a state is refused until it is issued again |
| Challenges.UnexpiredIsEvictedOnlyWhenFull | internal/api/challenges.go:21-25 | an unexpired ceremony is displaced only when 511 others expiring no sooner are pending |
| Files.Mint | internal/store/subscribers.go:632-643 | the retry loop returns the first draw that is not taken, or nothing after its last try |
| Files.FirstFreshIs | internal/store/subscribers.go:632-643 | the first draw that is not taken is the one minted, unless the source fails before it |
| Files.NothingFresh | internal/store/subscribers.go:632-643 | when every draw is taken nothing is minted |
| SubscriberRules.LoadedIsLoadable | internal/store/subscribers.go:238-315 | what load puts in memory, with tokens in upper case, would load again unchanged |
| SubscriberRules.PairKeyIsInjective | internal/store/subscribers.go:297 | the NUL-joined key tells two pairs of references apart when the server ids hold no NUL |
| SubscriberRules.PairKeyNeedsValidHalves | internal/store/subscribers.go:297 | without that it confuses two different pairs |
| SubscriberRules.PatchKeepsValid | internal/store/subscribers.go:463-483 | a patch that is accepted leaves a record load accepts |
| SubscriberRules.AttachKeepsValid | internal/store/subscribers.go:508-535 | an attachment that is accepted leaves a record load accepts |
| SubscriberRules.DetachKeepsValid | internal/store/subscribers.go:557-566 | so does a detachment |
| SubscriberRules.RelabelKeepsValidExactlyWhen | internal/store/subscribers.go:540-554 | a relabelling within the length limit leaves a record load accepts exactly when the label has no control character |
| SubscriberRules.RelabelCanSaveWhatLoadRefuses | internal/store/subscribers.go:540-554 | a label with a tab is accepted and its record is not |
| LoadedFiles.SubscribersLoadExactlyWhen | internal/store/subscribers.go:238-315 | load accepts exactly version 1 files whose records have an id, a printable name of 1 to 128, a note of up to 4096, a Crockford token of 26 to 64, up to 32 well-formed entries, and share no id, token or account; it brings the tokens to capitals and changes nothing else |
| SubscriberEffects.PatchedFollows | internal/store/subscribers.go:463-483 | an accepted patch gives the record every value it carries, the name trimmed, and leaves every other field; refused are a bad name and a note over 4096 |
| SubscriberEffects.AttachAddsTheEntry | internal/store/subscribers.go:508-535 | attaching adds the entry last, under a drawn id no other entry has, unless there are 32 or the account is attached already |
| SubscriberEffects.RelabelReachesTheEntry | internal/store/subscribers.go:540-554 | relabelling gives the label to the entry with that id and changes nothing else |
| SubscriberEffects.DetachTakesOutTheEntry | internal/store/subscribers.go:557-566 | detaching takes out the entry with that id and leaves the others in order |
| SubscriberEffects.NewSubscriberIsEnabled | internal/store/subscribers.go:418-460 | a new subscriber is enabled, has no entries, and was made in the current second |
| SubscriberStore.CheckList | internal/store/subscribers.go:248-303 | load's loop accepts exactly the valid lists, with ids and folded tokens unique |
| SubscriberStore.CheckEntries | internal/store/subscribers.go:279-302 | load's inner loop accepts exactly the valid entry lists, with ids and references unique |
| SubscriberStore.IdIndexIsScan | internal/store/subscribers.go:318-325 | the id index finds what a linear scan finds |
| SubscriberStore.TokenIndexIsScan | internal/store/subscribers.go:318-325 | the token index finds the holder a linear scan finds |
| SubscriberStore.TokenLeadsToHolder | internal/store/subscribers.go:409-414 | through both indexes a token leads to the record that carries it |
| SubscriberStore.Subscribers.Load | internal/store/subscribers.go:238-315 | memory becomes what the file loads as, or nothing changes |
| SubscriberStore.Subscribers.Reindex | internal/store/subscribers.go:318-325 | both indexes are those of the list |
| SubscriberStore.Subscribers.Get | internal/store/subscribers.go:367-376 | finds what a linear scan for the id finds |
| SubscriberStore.Subscribers.GetByToken | internal/store/subscribers.go:389-415 | finds what a linear scan for the folded token finds, and nothing for a malformed token |
| SubscriberStore.Subscribers.Commit | internal/store/subscribers.go:599-629 | reindexes, and writes exactly when the file has not moved and the write succeeds |
| SubscriberStore.Subscribers.Create | internal/store/subscribers.go:418-460 | succeeds exactly when allowed, adds one fresh record, leaves file equal to memory and loadable; an error changes nothing |
| SubscriberStore.Subscribers.Mutate | internal/store/subscribers.go:570-596 | swaps an edited copy in and saves it, or leaves list, indexes and file as they were |
| SubscriberStore.EditReachesTheRecord | internal/store/subscribers.go:570-596 | an edit reaches the one record with that id, and what it makes of it is stamped with the current second |
| SubscriberStore.UnknownIsNotFound | internal/store/subscribers.go:574-577 | an id that no record has is not found |
| SubscriberStore.Subscribers.Update | internal/store/subscribers.go:463-483 | the patch, atomically, keeping the list loadable |
| SubscriberStore.Subscribers.Delete | internal/store/subscribers.go:486-505 | removes exactly that record, atomically, keeping the list loadable |
| SubscriberStore.Subscribers.Attach | internal/store/subscribers.go:508-535 | adds one entry, atomically, keeping the list loadable |
| SubscriberStore.Subscribers.UpdateEntry | internal/store/subscribers.go:540-554 | relabels one entry, atomically; the list stays loadable exactly when the label has no control character |
| SubscriberStore.Subscribers.Detach | internal/store/subscribers.go:557-566 | removes one entry, atomically, keeping the list loadable |
| SubscriberStore.Switch | internal/api/access.go:137 | after a subscriber is switched off, or on, their token finds a record that is off, or on |
| SubscriberStore.OutsideEdit | internal/store/subscribers.go:604-622 | after somebody else writes the file the store stays valid and saves nothing over that edit |
| PasskeyRules.RenameKeepsLoadable | internal/store/passkeys.go:362-375 | a rename keeps a loadable list loadable |
| PasskeyRules.UseKeepsLoadable | internal/store/passkeys.go:415-440 | so does recording a use |
| PasskeyRules.RemoveKeepsLoadable | internal/store/passkeys.go:378-410 | so does a removal, with the owner's last credential or not |
| PasskeyRules.PruneKeepsLoadable | internal/store/passkeys.go:446-474 | so does dropping orphaned owners |
| PasskeyRules.AddKeepsLoadableExactlyWhen | internal/store/passkeys.go:307-358 | an enrolment keeps it loadable exactly when the credential is well formed and, for a new owner, the id is not empty and nobody holds the handle |
| PasskeyRules.AddCanSaveWhatLoadRefuses | internal/store/passkeys.go:307-358 | a credential with any public key of 1026 bytes or more, at a handle of 32 bytes, is enrolled and refused at the next load |
| PasskeyRules.AddCanShareAHandle | internal/store/passkeys.go:307-358 | a second owner under a handle already held is enrolled and refused at the next load |
| LoadedFiles.PasskeysLoadExactlyWhen | internal/store/passkeys.go:134-210 | load accepts exactly version 1 files whose owners have an id, a handle of 32 bytes and up to 8 well-formed credentials (ids up to 1023 bytes, keys up to 1024, an algorithm, a printable label of up to 64, a date), no two sharing an id, handle or credential |
| PasskeyEffects.RenameRelabels | internal/store/passkeys.go:362-375 | a rename gives the trimmed label to that owner's credential and changes nothing else |
| PasskeyEffects.RemoveTakesOut | internal/store/passkeys.go:378-409 | removing takes out that credential, and with the last one its owner; the others stay in order |
| PasskeyEffects.AbsentIsNotFound | internal/store/passkeys.go:378-392 | what is not under that owner is not found |
| PasskeyEffects.UseIsRecorded | internal/store/passkeys.go:415-440 | a use stores the counter and backup state as given and the current second, in the one credential with that id |
| PasskeyEffects.AddToOwner | internal/store/passkeys.go:307-345 | for an owner that is there the new credential comes last, under a drawn id nobody has, made now and never used, if the handle is the owner's and there are fewer than eight |
| PasskeyEffects.AddNewOwner | internal/store/passkeys.go:346-350 | a first credential brings its owner, if the handle is the text of 32 bytes |
| PasskeyEffects.AddIsRefused | internal/store/passkeys.go:307-322 | a bad label is invalid, and a credential somebody has is a conflict |
| PasskeyEffects.PruneCounts | internal/store/passkeys.go:446-474 | pruning loses exactly as many credentials as it reports |
| PasskeyEffects.TextsFit | internal/store/passkeys.go:597-606 | a text is within bounds exactly when, line breaks aside, it is base64url digits for that many bytes |
| PasskeyStore.CheckList | internal/store/passkeys.go:151-203 | load's loops accept exactly the valid lists, with ids, handles and credentials unique across the file |
| PasskeyStore.CheckCredentials | internal/store/passkeys.go:169-202 | the inner loop accepts exactly the credentials that are valid and repeat nothing seen before |
| PasskeyStore.OwnerIndexesAreScans | internal/store/passkeys.go:527-538 | the owner and handle indexes find what linear scans find |
| PasskeyStore.CredIndexIsScan | internal/store/passkeys.go:527-538 | the credential index finds what a linear scan over all owners finds |
| PasskeyStore.Passkeys.Load | internal/store/passkeys.go:134-211 | memory becomes what the file loads as, or nothing changes |
| PasskeyStore.Passkeys.Reindex | internal/store/passkeys.go:527-538 | all three indexes are those of the list |
| PasskeyStore.Passkeys.ByHandle | internal/store/passkeys.go:263-271 | the owner a linear scan for the handle finds |
| PasskeyStore.Passkeys.ByCredentialID | internal/store/passkeys.go:274-282 | the owner and credential a linear scan finds |
| PasskeyStore.Passkeys.NewHandle | internal/store/passkeys.go:286-300 | a drawn handle nobody holds |
| PasskeyStore.Passkeys.SwapIn | internal/store/passkeys.go:505-525 | list, indexes and file all change, or none does |
| PasskeyStore.Passkeys.Add | internal/store/passkeys.go:307-358 | succeeds exactly when its checks pass and the save does; loadable afterwards under the exact condition; an error changes nothing |
| PasskeyStore.Passkeys.Rename | internal/store/passkeys.go:362-375 | relabels one credential, atomically, keeping the list loadable |
| PasskeyStore.Passkeys.Remove | internal/store/passkeys.go:378-410 | drops one credential, and the owner with the last, atomically |
| PasskeyStore.Passkeys.RecordUse | internal/store/passkeys.go:415-440 | updates one credential's counter, backup flag and last use, atomically |
| PasskeyStore.Passkeys.PruneOrphans | internal/store/passkeys.go:446-474 | counts the credentials of the owners that are gone; drops exactly those owners when there is such a credential, and otherwise writes nothing, so that an owner without credentials stays |
| Admins.EditsKeepWellFormed | internal/store/admins.go:315-461 | every operation keeps ids and case-folded usernames unique |
| LoadedFiles.AdminsLoadExactlyWhen | internal/store/admins.go:125-196 | load accepts exactly version 2 files, and version 1 files with the missing ids filled in, whose records have a name, an id and a bcrypt hash, no two with one id or with names that differ at most in white space and case |
| AdminEffects.KeysAreNames | internal/store/admins.go:551 | two usernames share a key exactly when they differ at most in surrounding white space and, letter by letter, in case |
| AdminEffects.AcceptableNames | internal/store/admins.go:553-567 | a username may have 1 to 64 characters, none of them a space, a control character or a delete |
| Text.TrimIs | internal/store/admins.go:551 | trimming takes the white space off both ends and nothing else |
| Text.FoldingForgetsCase | internal/store/admins.go:551 | folding to either case makes two texts equal exactly when they differ, letter by letter, at most in case |
| LoadedFiles.MissingIdsAreCounted | internal/store/admins.go:198-212 | a migration counts the records that had no id |
| AdminEffects.CreateAddsOne | internal/store/admins.go:315-348 | a new administrator comes last, under the trimmed name and a drawn id nobody has, unless the name is unfit or taken |
| AdminEffects.SetPasswordReachesTheNamed | internal/store/admins.go:367-388 | the record with that name, in any spelling, gets the hash and the current second; every other record and field stays |
| AdminEffects.SetPasswordByIDReachesTheId | internal/store/admins.go:391-412 | the same for the record with that id |
| AdminEffects.SetUsernameRenamesTheId | internal/store/admins.go:416-444 | the record with that id gets the trimmed name, unless it is unfit or another record has it; every other record and field stays |
| AdminEffects.DeleteTakesOutTheNamed | internal/store/admins.go:447-461 | exactly the record with that name, in any spelling, goes, and the others stay in order |
| AdminStore.CheckList | internal/store/admins.go:143-184 | load's loop accepts exactly the well-formed lists, filling and counting missing ids in a version 1 file |
| AdminStore.Store.Load | internal/store/admins.go:125-192 | list, stamp and legacy flag are all replaced by the file's, an empty list for a missing one, or none is |
| AdminStore.Store.ReloadIfChanged | internal/store/admins.go:246-269 | looks at the file at most once a second; a missing, unmoved or unreadable file leaves the list alone, also when it was removed under the process |
| AdminStore.Store.Save | internal/store/admins.go:516-527 | writes exactly when the file has not moved and the write succeeds |
| AdminStore.Store.CreateAdmin | internal/store/admins.go:315-346 | adds one record with an unused id, in memory and file together or in neither |
| AdminStore.Store.ChangePassword | internal/store/admins.go:367-388 | replaces one hash, in both or neither |
| AdminStore.Store.ChangePasswordByID | internal/store/admins.go:391-412 | the same for a caller holding an id |
| AdminStore.Store.ChangeUsername | internal/store/admins.go:416-443 | renames one record, its own name in another case included, in both or neither |
| AdminStore.Store.DeleteAdmin | internal/store/admins.go:447-461 | removes one record, in both or neither |
| AdminStore.Store.MigrateFile | internal/store/admins.go:201-212 | writes a version 1 list back once and reports how many ids it gained |
| AdminStore.WriteAppliesToFile | internal/store/admins.go:510-527 | a successful write is one operation applied to the list in memory, which is what was in the file immediately before unless the file was removed; a refusal changes nothing |
| AdminStore.RepliesTellTheTruth | internal/store/admins.go:516-527 | an operation reports success exactly when it wrote the file, or had no version 1 file to migrate |
| AdminStore.UndisturbedWritesSucceed | internal/store/admins.go:516-528 | a process that has just read the file can write it, and write it again |
| AdminStore.ChangeIsSeenAfterASecond | internal/store/admins.go:246-271 | a file that has changed is read by the first request a second or more after the last look, and by none that comes sooner |
| AdminStore.FirstLookReads | internal/store/admins.go:246-271 | the first look of a process reads a file it does not have yet |
| AdminStore.RefusedWritesSayWhy | internal/store/admins.go:516-528 | who finds the file changed by somebody else, or fails to write it, is told which, and nothing changes |
| AdminStore.OthersStayInStep | internal/store/admins.go:510-515 | whatever one process writes, every other process keeps what this argument needs of it |
| AdminStore.OutsideChangesKeepStep | internal/store/admins.go:510-515 | so it does when the file is edited by hand, broken or removed |
| AdminStore.NoLostUpdate | internal/store/admins.go:510-527 | over every interleaving the file ends as the writes whose callers were told of success, applied one after the other to its first content, and stays well formed |
| AdminStore.MissingFileIsReadAsEmpty | internal/store/admins.go:233-258 | with the file gone the throttled check keeps the list, while reading it empties the list, which keeps it exactly when it was empty |
| AdminStore.LostFileIsRewritten | internal/store/admins.go:516-527 | a save that finds the file gone writes it anew from memory |
| AdminStore.OvertakenLoadLosesTheUpdate | internal/store/admins.go:125-192 | a write between the reading and the stamping of a load is overwritten by this process's next write, which reports success |
| AdminStore.OvertakenIsInStepExactlyWhen | internal/store/admins.go:125-192 | such a load does no harm exactly when the file has the same administrators after all |
| AdminStore.MigrationKeepsRecords | internal/store/admins.go:194-212 | a version 1 file is rewritten with the same people in the same order, ids kept, and missing ids the folded usernames |
| Panel.CopyWasTaken | internal/store/admins.go:465-487 | a record that a request still holds was copied by one event from the list as loaded then, and held ever since |
| Panel.RunsAreTraces | internal/api/api.go:288-320 | every sequence of events makes exactly one run, so the theorems about runs leave none out |
| Panel.SessionWasIssued | internal/session/session.go:195-219 | however requests interleave, every session in memory was issued to that administrator under the hash of a record copied earlier, from the list as loaded then, and every revocation since was undone by a restart before which no save had worked |
| Authentication.AuthenticationIsSafe | internal/api/api.go:288-320 | over every run and interleaving, failed saves and restarts included, a cookie signs in only as the administrator it was issued to, who is in the loaded list and whose loaded hash is the one checked at the sign-in; a revocation before the lookup was undone by a restart, and no save worked between the two |
| Authentication.LetInExactlyWhen | internal/api/api.go:302-319 | a session found in the table is let in exactly when the loaded list holds the hash that its sign-in copied |
| Authentication.PasswordUnchangedSince | internal/api/api.go:288-320 | as long as no replaced hash of that administrator comes back, the password has not changed at all since the sign-in checked it |
| Authentication.RestoredListRevivesASession | internal/api/api.go:308-314 | without that it can: a list with another hash refuses a session, and the earlier list restored lets it in |
| Authentication.RevokedSessionReturnsExactlyWhen | internal/session/session.go:154-183 | the next restart brings back a session taken out of memory exactly when it can read the disk, no save has worked since, and the session is still there, unexpired |
| Authentication.FailedLogoutIsUndone | internal/api/api.go:452-461 | a cookie signed out is refused until a restart, and after it is let in exactly when the save at sign-out failed |
| PasswordChanges.PasswordChangeEndsEarlierSignIns | internal/api/account.go:39-48 | while the list holds a newly saved hash, every session let in goes back to a password checked no earlier than that change, also for sign-ins under way meanwhile and sessions that a restart brought back |
| PasswordChanges.OnlyTheNewSessionIsLetIn | internal/api/account.go:45-57 | whatever interleaves, after a password change no session of that administrator is let in but the one it issued, as long as nobody has signed in with the new password |
| PasswordChanges.TheNewSessionIsLetIn | internal/api/account.go:50-57 | and that one is, whenever a lookup finds it alive and the list holds the new hash |
| PasswordChanges.PasswordChangeLeavesOneSession | internal/api/account.go:45-57 | with nothing in between, a password change from the panel leaves exactly one session of that administrator, the new one |
| PasswordChanges.PasswordChangeKeepsThisTab | internal/api/account.go:50-57 | any one request with the new cookie within the idle time is let in, against any list that still holds the new hash |
| PasswordChanges.ChangedElsewhereIsRefused | internal/api/api.go:308-314 | once the loaded list shows a deletion or another hash, the session is refused and dropped |
| PasswordChanges.RenameChangesNoVerdict | internal/api/account.go:80-81 | a rename changes no verdict and no session; only the reported name moves |
| Panel.RequestSteps | internal/api/api.go:290-320 | undisturbed, resolving a cookie is that lookup and, when the list disagrees, that deletion |
| Panel.LetInAsListed | internal/api/api.go:308-318 | a request is let in exactly when its session is alive and its administrator's listed hash has its fingerprint, under the name as listed now |
| Panel.NobodyUnlistedIsLetIn | internal/api/api.go:308-314 | and nobody is who is not in the list |
| Panel.IssueIsTheTables | internal/api/api.go:423-428 | issuing a session from the panel is issuing it from the session table, in memory and on disk |
| Panel.OthersAreTheTables | internal/api/api.go:290-320 | and every other event is that of the table, or leaves the sessions alone |
| Panel.NoRestartWhileInHand | internal/api/api.go:413-428 | a session is issued under a record copied since the last restart |
| Server.Server.Authenticate | internal/api/api.go:290-320 | the verdict against the list after exactly the throttled reload, and the session dropped when it is stale |
| Server.Server.Login | internal/api/api.go:399-436 | a right password earns one session and clears the penalty box; a wrong one or unknown name is charged and changes no session |
| SignIns.SignInIsPanelSteps | internal/api/api.go:413-428 | undisturbed, what signing in does to the sessions is a copy and an issue of the panel whose runs are proved safe |
| SignIns.PasswordChangeIsPanelSteps | internal/api/account.go:39-57 | and what a password change does to list and sessions is a save, a drop and an issue of it |
| SignIns.MissingFileSignsEverybodyOut | internal/api/account.go:92-113 | once a request about an account has read a missing file, every session is refused and dropped |
| Server.Server.Logout | internal/api/api.go:452-461 | removes exactly the cookie's session |
| Server.Server.CurrentAdmin | internal/api/account.go:92-113 | resolves the caller in a freshly read list, and stops when it cannot be read; a missing file is an empty list, in which nobody is found |
| Server.Server.Attempt | internal/api/account.go:117-139 | a password check behind the penalty box: refused while throttled, a failure charged, a success clearing the key |
| Server.Server.StartSession | internal/api/api.go:423-428 | one session under the current hash, evicting only from a full table; without entropy none and nothing changes |
| Server.Server.ReplaceSessions | internal/api/account.go:45-57 | drops exactly that administrator's sessions and starts one, evicting only from a full table; none is started without entropy |
| Server.Server.ChangePassword | internal/api/account.go:29-62 | for every state of file, penalty box, password and save: what it replies, that a refusal leaves sessions and file alone, that success leaves the new hash in the file and of the administrator's sessions only a new one, and that the penalty box moves as for a sign-in |
| SignIns.PasswordChangeLeavesOne | internal/api/account.go:45-57 | a password change that succeeds leaves the list with the new hash and exactly one session of that administrator, under its fingerprint |
| SignIns.HashIsRefusedExactlyWhen | internal/store/admins.go:391-412 | the store refuses the new hash of somebody listed only for the password's length or a failed write |
| Server.Server.ChangeUsername | internal/api/account.go:64-85 | what it replies, for every state of file, name and save; on success the file holds the renamed list just read; a refusal leaves the file alone |
| SingleFlight.StepKeepsInv | internal/api/proxy.go:286-316 | every atomic step of every caller keeps the protocol's invariant |
| SingleFlight.OneRequestPerKey | internal/api/proxy.go:276-303 | over all interleavings at most one upstream request per key is outstanding |
| SingleFlight.LeadersOwnTheirEntries | internal/api/proxy.go:300-312 | a leader that has not finished has its own entry in the table, and that is the one it removes |
| SingleFlight.ClosedOnceAfterTheResult | internal/api/proxy.go:308-313 | a call's channel is closed at most once, after its result is written and its entry is gone |
| SingleFlight.WaitersAreNotStranded | internal/api/proxy.go:292-316 | whoever waits on an open channel has a leader with a step to take |
| SingleFlight.AnswersAreFromTheCallInTheTable | internal/api/proxy.go:289-315 | a caller returns its own cancellation or the result of the call in the table when it arrived, never an earlier one |
| SingleFlight.LeadersGetTheirResult | internal/api/proxy.go:304-315 | a leader is never cancelled and returns its own call's result |
| SingleFlight.NobodyIsHeldUp | internal/api/proxy.go:286-316 | over all interleavings whoever has not come may come, whoever has not left has a step to take, and who waits may leave at any time, or with the answer exactly once the channel is closed |
| SingleFlight.LateComersJoin | internal/api/proxy.go:289-298 | whoever comes while a request for the key is being made waits for that one |
| SingleFlight.WaitersGetTheLeadersAnswer | internal/api/proxy.go:292-315 | the leader's steps lead to its answer, and whoever waits for its call then gets the same |
| SingleFlight.GivingUpIsPrivate | internal/api/proxy.go:292-299 | who gives up is told so, and nobody else notices |
| ByteText.FloorLog2 | web/src/lib/format.ts:33 | every positive size lies between two neighbouring powers of two, found by halving and doubling |
| ByteText.ParseOfFormat | web/src/lib/format.ts:29-52 | parsing the zero-digit label of a size of a byte or more gives the nearest whole number of its unit |
| ByteText.FormatThenParse | web/src/lib/format.ts:29-52 | parse after format is the identity exactly on sizes whole in their unit, and otherwise within half a unit |
| ByteText.SubByteLabelIsNoSize | web/src/lib/format.ts:29-38 | a label for less than a byte does not parse |
| ByteText.UntouchedQuotaIsNoChange | web/src/features/users/UserDrawer.tsx:184-196 | an untouched quota field is no change exactly when the quota is unlimited or whole in its unit |
| SizeTexts.WrittenInTheLargestUnit | web/src/lib/format.ts:33 | a size of a byte or more is written in the largest unit it reaches, up to the petabyte |
| SizeTexts.LabelIs | web/src/lib/format.ts:34-37 | its label is the nearest whole number of that unit, a space and the unit's name |
| SizeTexts.SizesAreRead | web/src/lib/format.ts:41-52 | a number with or without a fraction, white space, a unit letter, an i and a b, each or none and in any case, is read as the number times the unit, to the nearest byte |
| SizeTexts.OnlySizesAreRead | web/src/lib/format.ts:41-52 | and nothing else is read, but the empty text, which is no limit |
| ByteAxis.TicksUpTo | web/src/features/usage/series.ts:156-161 | the accumulating loop gives the multiples of the step from zero to the first that reaches the peak |
| ByteAxis.DoubleUntil | web/src/features/usage/series.ts:148-151 | the search ends, at the first doubling of the starting step that leaves two ticks or exact labels |
| ByteAxis.ByteTicks | web/src/features/usage/series.ts:142-153 | two fixed ticks for no traffic, and otherwise that search from the smallest power of two that is a fair share of the peak; no finite ticks for a count of zero or less |
| ByteAxis.TicksSpanThePeak | web/src/features/usage/series.ts:155-161 | ticks start at zero, are evenly spaced, and only the last reaches the peak |
| ByteAxis.AtMostCountDivisions | web/src/features/usage/series.ts:139-145 | there are never more than count+1 ticks |
| ByteAxis.LabelsAreExactExactlyWhen | web/src/features/usage/series.ts:133-153 | every chosen label parses back to its tick, exactly for a peak above half a byte |
| ByteAxis.ExactLabelsAreDistinct | web/src/features/usage/series.ts:126-138 | exact labels are pairwise different |
| ByteAxis.FewTicksAreExactUnless | web/src/features/usage/series.ts:133-138 | up to five ticks are exact unless there are four or more and the third step falls half way into its unit |
| ByteAxis.FourDivisions | web/src/features/usage/series.ts:139-153 | with the default count every peak above two bytes settles at once with four or five exact ticks, or after one doubling with three |
| Series.SnappedIsAligned | web/src/lib/range.ts:56-61 | a snapped range lies on the node's grid, ends with the current bucket and spans the preset's buckets |
| Series.SnapChangesOncePerBucket | web/src/lib/range.ts:43-51 | two times snap to the same range exactly when they lie in the same bucket |
| Series.NodeBucketsLand | web/src/lib/range.ts:52-54 | under a snapped range a bucket is on the grid exactly when it is on the node's |
| Series.IndexSeries | web/src/features/usage/series.ts:39-50 | later entries of a bucket replace earlier ones, undated ones are skipped, and the end moves out to the latest bucket |
| Series.ZeroFill | web/src/features/usage/series.ts:38-60 | the loop gives one column per bucket with that bucket's point or zeros |
| Series.EachBucketOnce | web/src/features/usage/series.ts:52-58 | each bucket of the grid appears once, in order, and no column before the last is partial |
| Series.ColumnShowsTheLatest | web/src/features/usage/series.ts:42-58 | a column shows the latest entry of its bucket |
| Series.ColumnShowsNothing | web/src/features/usage/series.ts:52-58 | and without an entry no traffic |
| Series.LastIsPartialOnGrid | web/src/features/usage/series.ts:57 | the last column is partial exactly when the last bucket is on the grid |
| Series.OnlyTheLastIsPartial | web/src/features/usage/series.ts:29-31 | for a snapped range and the node's buckets the last column is partial and no other |
| Series.FillingConserves | web/src/features/usage/series.ts:38-60 | for every series the columns sum up to the points on the grid, each bucket's last one counted once |
| Series.NodeSeriesArrivesInFull | web/src/features/usage/series.ts:46-48 | with distinct buckets on the grid that is all the dated traffic |
| Series.GroupByHours | web/src/features/usage/series.ts:70-88 | the loop over the open column gives the recursive grouping, and the points themselves for one hour or less |
| Columns.ColumnsStartExactlyWhen | web/src/features/usage/series.ts:74-79 | a bucket starts a column exactly when it is the first or its local hour is a whole number of column widths |
| Columns.ColumnShowsItsBuckets | web/src/features/usage/series.ts:76-86 | each column shows the sums of the buckets from its start to before the next, and is accumulating exactly when one of them is |
| Columns.ColumnsAreStarts | web/src/features/usage/series.ts:74-79 | there are as many columns as starts |
| Columns.ColumnsAreAsWideAsAsked | web/src/features/usage/series.ts:62-69 | for hourly buckets round the clock and a width that divides the day, every column but the first and the last is that wide, and none is wider |
| Series.GroupingConserves | web/src/features/usage/series.ts:80-85 | grouping keeps the sums of up, down, total and span |
| Series.FilledTiles | web/src/features/usage/series.ts:52-58 | filled columns tile the range |
| Series.GroupingTiles | web/src/features/usage/series.ts:62-69 | grouped columns tile the same stretch: same start, same end, no gap or overlap |
| Series.GroupingKeepsOnlyLastPartial | web/src/features/usage/series.ts:84-85 | when only the last bucket is still accumulating, only the last grouped column is |
| Series.DayBoundaries | web/src/features/usage/series.ts:104-113 | the loop with one remembered day gives the recursive boundaries |
| Series.BoundariesAre | web/src/features/usage/series.ts:90-103 | a boundary is a bucket, never the first, whose local day differs from that of the bucket before |
| Series.BoundariesRise | web/src/features/usage/series.ts:104-113 | the boundaries come in order |
| Series.BoundariesSurviveExactlyWhen | web/src/features/usage/series.ts:62-69 | grouping keeps the day boundaries exactly when every bucket in which the day turns over opens a column |
| Series.MidnightsAreKept | web/src/features/usage/series.ts:65-67 | so it does when the first bucket of every local day has local hour zero |
| Series.SkippedMidnightLosesABoundary | web/src/features/usage/series.ts:65-67 | with columns of four hours a day that starts at one o'clock loses its boundary |
| Series.ChartOfSeries | web/src/features/usage/series.ts:38-88 | the whole way from a preset and a series to grouped columns: each landing point counted once, columns tiling the range up to its last bucket, day boundaries kept exactly when each turning bucket opens a column, and for the node's buckets only the last column still accumulating |

## Left out

- HTTP handlers, cookies, headers, JSON encoding, the command line, logging and image wiring: plumbing with one branch
  per claim.
- The checks a server name, a target path or a passkey origin goes through: mostly the URL library.
- WebAuthn verification, bcrypt, sha256, base32 and base64 encoders and random sources: foreign code, met as parameters.
- Gzip, tar, upload and the other steps of a backup: the archive is only a name and a time here.
- Several goroutines inside one method: every method of a store, table or limiter holds its lock throughout, so each is
  one step. Between the steps of a request `Panel` lets everything interleave; the contracts of `Server` are about one
  request alone. The single-flight protocol, which releases its lock half way, is modelled step by step.
- Passkey sign-in: it too copies a record and issues a session under it, so it is the two steps of `Panel`; its handlers
  are mostly the WebAuthn library.
- LimiterBounds.TwiceTheFailures: attempts follow one another; Guessing is about those that overlap.
- Guessing.LetThroughAtMost: the factor three is not shown to be reached, and the endpoint's cap holds besides.
- Requests other than GET in the proxy, and panics of a leader: the former are passed through, the latter are not part of
  this model.
- Lists, counts and handles of the stores for display: sorted or copied views of the same lists.
- How JSON spells a timestamp: instants are integers.
- Case folding and trimming beyond ASCII; string lengths are counted in characters of the model, which stand for bytes.
- ByteText.ParseOfFormat: only the zero-digit labels of the axis and the quota field, and without the exponent form that
  toFixed takes from 10^21 units on.
- ByteAxis.ByteTicks: exact reals, so it does not model a logarithm of doubles that is off by one near a power of two,
  nor which of infinity and NaN a count of zero or less gives as the second tick.
- SessionRuns.HousekeepingIsInvisible: needs restarts that lose nothing, and ties between equally old sessions broken
  alike in both runs.
- Retention.KeepIsPathIndependent: for distinct timestamps, since equal ones are decided by an unstable sort; Ties says
  exactly when.
- Server.Server.ChangePassword: what bcrypt says of the current and the new password is a parameter.
- SubscriberStore.Subscribers.GetByToken: the index is keyed by the token itself, which stands for its digest.
- Prune.SortStrings: the order is that of the characters' codes.
- The peak label of the chart, the relative-time and status texts, themes, queries and other user interface code.
