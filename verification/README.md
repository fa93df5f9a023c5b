# Door-terminal backend: a Dafny model

The backend lets companies run door terminals: it provisions the terminals, decides who may open
a door, issues API credentials, enrols fingerprints, and answers an assistant that acts for an
operator. This project models those parts and proves what they keep over every run, every input
and every order of rows; where the code does not keep what it says, it proves exactly when it does.

`dafny verify dfyconfig.toml` checks everything.

## How the model is built

- **A database is a value.** A store function that is one transaction is one step from database to
  database; a class with the same tables as fields runs the function's own statements, and each of
  its methods is proved to end where the step ends. Where transactions overlap (credentials,
  request keys, settlements) every statement is a step, and a run is any interleaving of them.
- **The clock** is part of the database and only a step moves it, forward. Zones are given as what
  each known zone's clock shows.
- **A secret stands for its own hash**, so two secrets are equal exactly when their hashes are.
- **What callers and the model choose** (the order of rows a query returns, the replies of a
  language model, the outcomes of tools) are arbitrary functions.
- **A step is also stated without its own words.** The theorems named *InFull*, *ExactlyWhen* and
  *Means* say who is told what and which rows change in terms of the tables and texts alone.

| area | files |
|---|---|
| Terminal provisioning | `Provisioning`, `ProvisioningInvariant`, `ProvisioningRuns`, `ProvisioningStore`, `ProvisioningMeaning` |
| Authorization and schedules | `Authorization`, `AccessDecisions`, `AccessMeaning`, `ScheduleWindows`, `ScheduleText`, `ScheduleTextMeaning` |
| Credentials and request keys | `ApiCredentials`, `ApiCredentialRuns`, `ApiCredentialStore`, `CredentialUsage`, `Idempotency`, `IdempotencyRuns`, `JsonText` |
| Fingerprint enrolment | `Enrollment`, `EnrollmentRuns`, `EnrollmentMeaning` |
| The assistant | `AssistantTurn`, `TurnBudget`, `ToolArguments`, `Confirmations` |
| Queries | `LikePattern`, `Placeholders`, `EventQueries`, `DeviceQueries` |
| Shared | `Options`, `Text` |

## Where the code and its own words disagree

The model follows the code in each case.

- A time field may carry a sign: `-1:00` and `+9:30` are accepted, although the comment promises
  digits only (database/authorization.go:594-646). `AcceptedIsAllDigitsExactlyWhenUnsigned` says
  which accepted texts keep the promise, and `ValidWindowMatchesCircleIffNotNegative` when the
  evaluator still agrees with the week's circle. A negative time cannot come from storage: the
  columns are TIME read as text (database/authorization.go:427-428), so a signed text reaches only
  the checks on what a request or the assistant proposes.
- A rule whose schedule joins to nothing has no windows and is not limited in time; the comment at
  database/authorization.go:482-487 says otherwise. `InForceExactlyWhen` says
  which schedules do limit a rule.
- The query orders rows by permission but not the windows of one permission, and that order
  matters to a grant when a rule has an unreadable window besides an admitting one
  (database/authorization.go:541-549). `TwoWindowsTwoAnswers` is an input: an ALLOW with an
  admitting window and one that ends at 24:00:00, a time a TIME column holds and the parser
  refuses. `OrderMattersExactlyWhenFragile` says exactly when. The application cannot store such a
  pair: its own writes replace all the windows of a schedule and check each of them
  (database/permissions.go:442, database/permissions.go:491, database/permissions.go:535-551), and
  the copy of the old columns leaves one window a schedule
  (migrations/014_authorization_engine.sql:225-243). It takes a row written past both, in SQL.
- A claim code supersedes earlier codes for the same serial at the same site only, so one serial
  can have an open code at each of several sites (database/claim.go:211-219):
  `TwoOpenCodesForOneSerial`, `IssuingSupersedesPerSite`.
- The heartbeat protects DISABLED rows only; an inactive row of another status would change. No
  step produces such a row (database/devices.go:345-409): `HeartbeatKeepsStatusIff`.
- The second transaction of a rolled-back collection names its row by id alone; only the table's
  CHECK constraints stop it from rejecting a row collected in between
  (database/announcements.go:874-887, migrations/022_terminal_announcements.sql:184-215):
  `LateRejectionIsFinal`.
- An expired credential cannot be rotated: the replacement inherits an expiry that the table's
  expiry CHECK refuses (database/api_credentials.go:656-666, migrations/030_api_credentials.sql):
  `RotationGoesThroughExactlyWhen`.
- Revoke-all takes no company lock and reads one snapshot, so a rotation that commits while it
  waits escapes it (database/api_credentials.go:762-794). `RotationEscapesRevokeAll` is the run and
  `RevokeAllMissesExactlyLaterRows` the condition.
- A usage flush that fails part-way has already emptied the buffer, so what it had not written is
  lost rather than retried on the next tick (database/api_credentials.go:891-894,
  database/api_credentials.go:962-1010). `FailedFlushLosesARequest` and `FailedFlushLosesATime` are
  inputs, and `RunFlushKeepsNotedExactlyWhen` says when no order of writing loses a count, a time
  or an address.
- A claim of a request key whose read finds nothing proceeds with no record behind it, so a second
  caller can proceed too and be answered with the first one's response
  (database/idempotency.go:159-167). `ReadOfNothingIsReached` is a run;
  `ReadKeepsHoldersApartExactlyWhenItFinds` and `ReadKeepsReplaysHonestExactlyWhenItFinds` say when
  a read is safe.
- A replay is promised byte for byte (database/idempotency.go:26, middleware/idempotency.go:42-43) and
  returns what the JSONB column reads back, which has a blank after every comma and colon.
  `ReplayHasABlank` is an input and `ReplayIsByteForByteExactlyWhen` the condition.
- A start refused for a live enrolment out of reach has still expired the windows that had run out
  (database/enrollment.go:51-53, database/enrollment.go:98-105); the comment says nothing is changed.
  `OutOfReachHasExpired` is an input and `RefusedStartChangesNothingExactlyWhen` the condition.
- The event list finds a terminal by a subquery on its serial, company-wide and deleted rows
  included, while a serial is unique among live rows only. A terminal that was retired and
  registered again has two rows, and PostgreSQL fails a subquery used as a value that finds two
  (database/events.go:335-336, migrations/002_core_schema.sql:402).
  `ReRegisteredSerialFailsTheQuery` is a run and `CompiledClauseFindsWanted` the exact condition.
- After a confirmation is requested, further tool calls are refused but the turn goes on; the
  comment says it ends (assistant/loop.go:251-255, assistant/loop.go:429-436). In the world of
  `PendingTurnGoesOn` the model is asked a third time; `PendingRoundEndsExactlyOverTheCap` says when
  such a round ends the turn.
- A report is said to be refused only where a human said stop (database/enrollment.go:645-651), but a
  start elsewhere, or a site key's request, cancels the row at the terminal left behind
  (database/enrollment.go:314-323). `SupersededTerminalIsRefused` is a run without a cancel, and
  `StartRefusesElsewhereExactlyWhen` says which terminals a start refuses.

## Model

| member | source | states |
|---|---|---|
| ProvisioningStore.Store.RegisterDeviceTx | database/devices.go:112-276 | written first and checked afterwards, the row still answers as the step does: a key, a collision, another site or out of service, told apart exactly |
| ProvisioningStore.Store.RegisterDevice | database/devices.go:72-88 | a registration that is refused is rolled back: tables and answer are those of the checked step |
| ProvisioningStore.Store.Announce | database/announcements.go:362-510 | expiry, the touch of a live row, superseding and the insert are the announcing step; a unique violation undoes all of them |
| ProvisioningStore.Store.PollAnnouncement | database/announcements.go:614-847 | the poll answers by state and window, and only an approved row inside its window goes on to collect |
| ProvisioningStore.Store.Collect | database/announcements.go:704-847 | a collection registers, rolls back on a mismatch or a disabled terminal, and otherwise marks the row COLLECTED in the same transaction |
| ProvisioningStore.Store.AdoptAnnouncement | database/announcements.go:1026-1092 | the code adopts the one row it can, unless the ownership verdict refuses |
| ProvisioningStore.Store.OwnershipVerdict | database/announcements.go:968-1014 | the verdict over the live row at a site that is not deleted |
| ProvisioningStore.Store.ApproveAnnouncement | database/announcements.go:1335-1415 | an adopted row of the company is approved for one of its own usable sites, unless the verdict refuses |
| ProvisioningStore.Store.IssueClaimCode | database/claim.go:172-272 | the code supersedes the open codes of its site and serial, clamps its lifetime, and is undone as a whole on a collision |
| ProvisioningStore.Store.RedeemClaimCode | database/claim.go:285-389 | the code finds its one row, is compared with the serial it was issued for, and is spent with the registration or not at all |
| ProvisioningInvariant.RegisterKeeps | database/devices.go:112-276 | a key that registration answers is held by a live row of that serial at that site; any other answer changed nothing |
| ProvisioningInvariant.AnnounceKeeps | database/announcements.go:362-534 | announcing keeps one row in flight per serial, and every token and live code unique |
| ProvisioningInvariant.CollectKeeps | database/announcements.go:614-887 | collecting keeps every invariant and only moves the row forward |
| ProvisioningInvariant.LateRejectKeeps | database/announcements.go:874-887 | a late rejection keeps COLLECTED exactly where a device is recorded |
| ProvisioningInvariant.RedeemKeeps | database/claim.go:285-389 | redeeming keeps a code redeemed or superseded, never both, and no two open codes for one site and serial |
| ProvisioningInvariant.AdministerKeeps | database/terminals.go:119-431 | disabling, re-enabling, revoking, moving, retiring and releasing keep the device invariants |
| ProvisioningInvariant.StepKeeps | database/announcements.go:362-1578 | every step of every function keeps the whole invariant and changes only what rows may become |
| ProvisioningRuns.RunKeepsInvariant | database/announcements.go:362-1578 | every state of every run satisfies the invariant |
| ProvisioningRuns.NoTerminalChangesCompany | database/devices.go:112-276 | over any run a row keeps serial and company; a serial live in another company later means the first row was deleted |
| ProvisioningRuns.StepTouches | database/devices.go:112-276 | no registration, claim, collection, heartbeat or sweep changes a deleted or out-of-service row, or the site of any |
| ProvisioningRuns.OnlyAMoveChangesSite | database/devices.go:235-239 | only an administrator's move changes the site of a row |
| ProvisioningRuns.SiteNeverChanges | database/devices.go:235-239 | over any run without administration a device row keeps its site |
| ProvisioningRuns.CollectionNeverRehomes | database/announcements.go:740-763 | a collection that meets its serial live at another site leaves the devices table untouched and mints nothing |
| ProvisioningRuns.VerdictMissesRowAtDeletedSite | database/announcements.go:968-1014 | a run in which a request showed its site key before the site was retired reaches a live row there, for which another company is told to go ahead, so the last check is needed |
| ProvisioningRuns.AdmittedWhileUsable | database/queries.go:39-55 | in any run a site that may register with its key was active and not retired when the key was shown |
| ProvisioningRuns.ApprovedSiteBelongsToAdopter | database/announcements.go:733-738 | in every reachable state an approved row's site belongs to the adopting company |
| ProvisioningRuns.AdoptionInFull | database/announcements.go:968-1092 | without an open code adopting is refused; with one the company is told who is in the way, another company before an ordered release before a terminal out of service, and adopts exactly when nobody is; every refusal changes nothing |
| ProvisioningRuns.ApprovalInFull | database/announcements.go:1335-1415 | the same for a row the company adopted and one of its own sites in use |
| ProvisioningRuns.ForeignTerminalIsNotAdopted | database/announcements.go:1004-1005 | a company with the code of another company's live terminal is told so, and nothing changes |
| ProvisioningRuns.EveryKeyIsMintedByItsGrant | database/announcements.go:614-847 | every key is minted for a site whose key was shown, or by an unexpired approval or open code for that serial and site, spent by the same step |
| ProvisioningRuns.RedeemedKey | database/claim.go:330-336 | a code mints a key only for its own serial: the same letters one by one, but for their case |
| ProvisioningRuns.RankNeverDecreases | database/announcements.go:614-887 | an announcement never moves back, split rejections included, COLLECTED is never left, and a row that is gone was purged in a final state |
| ProvisioningRuns.EachGrantMintsOneKey | database/announcements.go:614-887 | in any run no approval and no claim code mints two keys |
| ProvisioningRuns.FinalMintsNothing | database/announcements.go:614-847 | an announcement that is final or purged mints no key in any later run |
| ProvisioningRuns.RejectedMintsNothing | database/announcements.go:1424-1469 | after an operator's rejection no step of any run mints a key under that announcement |
| ProvisioningRuns.LateRejectionIsFinal | database/announcements.go:874-887 | the split-off rejection leaves the row final, and rejected exactly unless it was collected in between |
| ProvisioningRuns.LateRejectedMintsNothing | database/announcements.go:874-887 | after it no step of any run mints a key under that announcement |
| ProvisioningRuns.OutOfServiceStaysOut | database/devices.go:241-250 | a disabled, inactive or retired row keeps status, flag and key through any unprivileged run |
| ProvisioningRuns.SweptReadsOffline | database/devices.go:527-541 | a terminal the sweep finds silent reads OFFLINE, the rest of its row untouched, through any run in which it is not heard |
| ProvisioningRuns.RevokedHoldsNoKey | database/devices.go:150-190 | in every state of every run a recorded revocation means there is no key hash |
| ProvisioningRuns.OneAnnouncementInFlight | database/announcements.go:399-492 | at most one PENDING, ADOPTED or APPROVED row per serial, so the insert meets no occupied slot |
| ProvisioningRuns.ReannouncingChangesNothing | database/announcements.go:408-452 | announcing with the row's own token, or against an adopted or approved row, adds and changes nothing; otherwise the pending row gives way |
| ProvisioningRuns.IssuingSupersedesPerSite | database/claim.go:211-219 | issuing closes exactly the open codes for that serial at that site |
| ProvisioningRuns.TwoOpenCodesForOneSerial | database/claim.go:211-219 | one serial can have two redeemable codes, at two sites |
| ProvisioningRuns.ReRegisteredLeavesTwoRows | database/devices.go:112-276 | retiring a terminal and registering it again leaves two rows of its serial at one site |
| ProvisioningMeaning.RegistrationInFull | database/devices.go:112-276 | a key in use comes before another site, and that before being switched off; each leaves the tables alone, and otherwise the live row, or a new one, is online under the new key |
| ProvisioningMeaning.RedemptionInFull | database/claim.go:285-389 | a wrong code, a wrong serial and a site out of use are one answer that changes nothing; otherwise the code's own serial is registered at its own site, and the code is spent exactly when a key is minted |
| ProvisioningMeaning.PollInFull | database/announcements.go:614-887 | only a row inside its window answers; an approved one is collected exactly when its site is in use and the registration goes through, is rejected at once for a site out of use, and is rolled back for a rejection to follow otherwise |
| ProvisioningMeaning.UnknownTokenIsRefused | database/announcements.go:614-640 | a token of no row is refused and changes nothing |
| ProvisioningMeaning.AnnouncingInFull | database/announcements.go:362-534 | which serials are accepted, which row answers, which rows expire or give way, when the secrets collide, and the whole new row |
| ProvisioningMeaning.IssuingInFull | database/claim.go:172-272 | serial, site and code are refused in that order; otherwise every open code of the serial at the site is closed, no other row changes, and the new row lasts two hours unless said, a day at most |
| ProvisioningMeaning.DisabledUntilEnabled | database/terminals.go:119-152 | a disabled terminal cannot register anywhere until it is enabled, and then exactly where it stands |
| ProvisioningMeaning.OrderedReleaseHoldsAdoption | database/release.go:286-485 | an ordered release holds its own company's adoptions up, and cancelling it takes the order back and changes nothing else |
| ProvisioningMeaning.FinalizedReleaseFreesTheSerial | database/release.go:516-611 | after a finalized release the serial is live nowhere, in nobody's way, and nothing is in flight for it; no other terminal is touched |
| ProvisioningMeaning.RetiredSiteIsEmpty | database/sites.go:254-323 | retiring a site deletes every terminal at it and only those, and its key is refused from then on |
| Authorization.GatherRules | database/authorization.go:423-506 | the gathering loop yields one rule per id in order of first appearance, with its first row's fields and all its rows' windows |
| Authorization.ScanRules | database/authorization.go:261-297 | the scan allows exactly when no rule is in error or denies and one allows, and names the rule that decided, for a refusal by a DENY too |
| Authorization.AnyAdmitsMeans | database/authorization.go:541-551 | the window loop is "some window admits", and an error always has an unreadable window behind it |
| Authorization.RuleIsExplained | database/authorization.go:511-551 | admitting, not admitting and each error of a rule, in terms of its rows only |
| Authorization.GrantIsWhatTheRowsMean | database/authorization.go:253-297 | with readable windows the answer is: zones known, an ALLOW in force, no DENY in force; row order is not mentioned |
| Authorization.EveryOrderGrantsAlike | database/authorization.go:423-506 | the grant is the same for every order of rows whose windows can be read |
| Authorization.OrderMattersExactlyWhenFragile | database/authorization.go:541-549 | some order the query can return is answered differently exactly when the rows mean a grant and a rule in its validity has an unreadable and an admitting window |
| Authorization.TwoWindowsTwoAnswers | database/authorization.go:541-549 | one ALLOW with an admitting and an unreadable window is granted in one order of its rows and refused in the other |
| Authorization.WithinIdsSuffices | database/authorization.go:440-506 | any reordering of the rows is answered as some order that ORDER BY public_id allows |
| AccessDecisions.GatesPassExactly | database/authorization.go:91-251 | the gates let a request through exactly when terminal, site, company, capability, person and credential each would |
| AccessDecisions.InForceExactlyWhen | database/authorization.go:511-551 | a permission is in force exactly inside its validity and, if a live schedule with windows limits it, while one of them admits the clock of the schedule's own zone, else the site's, else UTC |
| AccessDecisions.EvaluableExactlyWhen | database/authorization.go:525-533 | it cannot be evaluated exactly when its validity has come and that zone has no known clock |
| AccessDecisions.OwnZonesIgnoreTheSite | database/authorization.go:525-533 | where every schedule that applies names its own zone, who may open a door does not depend on the zone of the site |
| AccessDecisions.TokyoScheduleIsShutInLagos | database/authorization.go:525-533 | at ten in Lagos an office-hours schedule in Tokyo's zone keeps a door in Lagos shut, and one without a zone opens it |
| AccessDecisions.RefusalNamesTheOutermost | database/authorization.go:91-251 | a request is refused exactly when one of thirteen faults is present, each stated without the others, and the reason is that of the outermost |
| AccessDecisions.OutOfServiceTerminalLearnsNothing | database/authorization.go:116-132 | a terminal out of service is answered the same whatever is stored about people and whatever it read |
| AccessDecisions.ForeignCredentialLooksUnknown | database/authorization.go:218-231 | another person's credential is answered exactly as one that does not exist |
| AccessDecisions.JoinMeansTables | database/authorization.go:423-446 | the rows of the permission query, in any order, mean what the tables say |
| AccessDecisions.Authorize | database/authorization.go:91-298 | a decision grants exactly when the tables permit, for every order the database answers in; a grant names an ALLOW and an explicit refusal a DENY that applies and is in force, and "no permission" means that nothing that applies is |
| AccessDecisions.AddingDenyNeverGrants | database/authorization.go:280-283 | a new DENY keeps a grant exactly when it is evaluable and not in force, and never creates one |
| AccessDecisions.AddingAllowNeverRefuses | database/authorization.go:268-286 | a new ALLOW takes a grant away exactly when it applies and has no clock to be evaluated by |
| AccessDecisions.InWindowIsOnTheCircle | database/authorization.go:560-592 | being inside a permission's windows is a place on the week's circle |
| AccessMeaning.ApplicationMeans | database/authorization.go:142-148 | the capability is the one asked for without its blanks, the terminal's own when none is asked for, and none at all for a terminal or request of many purposes |
| AccessMeaning.MatchesMeans | database/authorization.go:423-446 | a permission applies to its own person, company-wide, at its own site or at its own terminal, under its own capability or any |
| AccessMeaning.GrantedExactlyWhen | database/authorization.go:253-297 | the permissions grant exactly when an ALLOW that concerns the person there is in force, no such DENY is, and none lacks its clock |
| AccessMeaning.PermittedExactlyWhen | database/authorization.go:91-298 | who may open a door, from terminal to schedule, stated on the tables alone |
| AccessMeaning.AnswerCarries | database/authorization.go:94-251 | a refusal about the terminal names nobody, one for an unknown person repeats what was read, and every other names the person, and the credential once it is known to be theirs |
| ScheduleWindows.ClockTextRoundTrips | database/authorization.go:607-646 | a time of day written HH:MM parses back to its second |
| ScheduleWindows.FieldIsReadExactlyWhen | database/authorization.go:607-646 | a field is read exactly when it is two digits or a sign and a digit, and as the number it writes |
| ScheduleWindows.TimeIsAcceptedExactlyWhen | database/authorization.go:607-646 | a text is accepted exactly when it is two or three such fields, none above 23 hours, 59 minutes or 59 seconds |
| ScheduleWindows.AcceptedIsAllDigitsExactlyWhenUnsigned | database/authorization.go:594-646 | an accepted text is digits only, as the comment promises, exactly when no field starts with a sign |
| ScheduleWindows.SignedFieldIsAccepted | database/authorization.go:607-646 | two signed texts that are accepted |
| ScheduleWindows.OrDaySetsOneDay | database/authorization.go:649-666 | setting a day in a mask sets that day and no other, within 1..127 |
| ScheduleWindows.TimesAdmitIsWeekCircle | database/authorization.go:560-592 | for non-negative times the branches are membership of an interval modulo 604800 seconds |
| ScheduleWindows.ValidateWindows | database/permissions.go:410-434 | a set is refused exactly when it is empty or has a window out of mask, unreadable or of equal ends |
| ScheduleWindows.ValidWindowMatchesCircleIffNotNegative | database/authorization.go:560-592 | a valid window agrees with the circle at every moment exactly when neither time is negative |
| ScheduleText.AddRange | assistant/tools_schedules_parse.go:112-117 | the wrapping loop ends and adds exactly the cyclic interval of days |
| ScheduleText.ParseDays | assistant/tools_schedules_parse.go:80-131 | the loop's mask, or its error, is that of the text; `ScheduleTextMeaning.DaysAreReadExactlyWhen` says which |
| ScheduleText.ParseDayList | assistant/tools_schedules_parse.go:94-131 | a comma list is the union of its parts, and the first bad part decides the error |
| ScheduleText.NormalisedClockReadsBack | assistant/tools_schedules_parse.go:170-181 | a normalised clock text is read back as the time that was written |
| ScheduleText.AcceptedRangeReadsBack | assistant/tools_schedules_parse.go:146-166 | both ends of an accepted range read back as written, 24:00 as 23:59 |
| ScheduleText.ParseWindows | assistant/tools_schedules_parse.go:48-75 | the parsed windows are the meaning of the text, entry by entry; `ScheduleTextMeaning.WrittenWindowsAreRead` says which |
| ScheduleText.ParsedSetIsRefusedExactlyForEqualEnds | assistant/tools_schedules_parse.go:48-75 | every accepted window is well formed, and validateWindows refuses the set exactly when a window has equal ends |
| ScheduleTextMeaning.PartIsReadExactlyWhen | assistant/tools_schedules_parse.go:94-117 | a part is read as the days from one to another exactly when it writes those two names, of fourteen, around one hyphen, or one name |
| ScheduleTextMeaning.DaysAreReadExactlyWhen | assistant/tools_schedules_parse.go:80-131 | a text is accepted exactly when it is one of seven words or a comma list of such parts with no other separator, and its mask has exactly the days met going forward from each first name to its second |
| ScheduleTextMeaning.WrittenDaysAreRead | assistant/tools_schedules_parse.go:80-131 | every list of names and ranges, in any case, is accepted and means the union of the days it says |
| ScheduleTextMeaning.WorkingWeekAndWeekend | assistant/tools_schedules_parse.go:103-117 | Mon-Fri is 31 and Fri-Mon is 113 |
| ScheduleTextMeaning.ClockIsReadExactlyWhen | assistant/tools_schedules_parse.go:170-182 | a clock text is accepted exactly when it writes a time up to 24:00, and becomes that time with two digits each |
| ScheduleTextMeaning.TimesAreReadExactlyWhen | assistant/tools_schedules_parse.go:146-166 | a range is accepted exactly when it is two such texts around one hyphen, the first before 24:00, and an end of 24:00 becomes 23:59 |
| ScheduleTextMeaning.WrittenWindowsAreRead | assistant/tools_schedules_parse.go:48-75 | every list of windows written as days, a blank, two times and semicolons between is read back as those windows |
| ApiCredentials.StatusIsAuthentication | database/api_credentials.go:350-367 | the status reads active or in grace exactly when the authentication query accepts the row |
| ApiCredentialRuns.NeverAboveTheCap | database/api_credentials.go:112-219 | however transactions interleave, a company never has more than the cap of live credentials |
| ApiCredentialRuns.RotationCommitsExactlyWhenUnexpired | database/api_credentials.go:584-700 | a rotation holding its row commits exactly when the credential was unexpired at its start, and no company's count changes |
| ApiCredentialRuns.LineageIsOneChain | database/api_credentials.go:645-675 | superseded_by visits every row of a lineage once, in increasing order, and ends at its only row that is not superseded |
| ApiCredentialRuns.EveryRunHasSingleChains | database/api_credentials.go:584-700 | in every run every lineage is such a chain from its root |
| ApiCredentialRuns.LineageKeepsTerms | database/api_credentials.go:645-675 | every row of a lineage has the name, environment, scopes, sites and expiry of its root |
| ApiCredentialRuns.EveryCredentialWasAskedFor | database/api_credentials.go:112-190 | in any run every row has the terms an issue step asked for, with the name trimmed, and its expiry |
| ApiCredentialRuns.StoppedStaysStopped | database/api_credentials.go:818-859 | a credential that has stopped authenticating never authenticates again, under any later steps |
| ApiCredentialRuns.RevokeAllMissesExactlyLaterRows | database/api_credentials.go:769-794 | after revoke-all nothing authenticates exactly when no row added since its snapshot did |
| ApiCredentialRuns.RevokeAllRevokesAll | database/api_credentials.go:769-794 | as one step, revoke-all revokes every row of the company |
| ApiCredentialRuns.RotationEscapesRevokeAll | database/api_credentials.go:769-794 | a rotation that commits while revoke-all waits always leaves its replacement working |
| ApiCredentialRuns.QuietUntilNextIssue | database/api_credentials.go:769-794 | once everything is revoked nothing in the company authenticates until an issue commits |
| ApiCredentialRuns.RunKeeps | database/api_credentials.go:112-794 | cap, live names and lineages hold in every state of every interleaving |
| ApiCredentialStore.CredentialStore.Issue | database/api_credentials.go:112-190 | issuing is its transaction taken without interruption: the row added has exactly the scopes, sites, environment, expiry and trimmed name that were asked for; each refusal has its condition and changes nothing |
| ApiCredentialStore.CredentialStore.Rotate | database/api_credentials.go:584-700 | the old row is superseded before the insert, linked after it, and restored when the insert fails; both rows are given in full and each refusal has its condition |
| ApiCredentialStore.CredentialStore.RevokeOne | database/api_credentials.go:720-760 | a revocation succeeds exactly on the company's own row that was not revoked, and the row no longer authenticates |
| ApiCredentialStore.CredentialStore.RevokeAll | database/api_credentials.go:769-794 | every row of the company is revoked and no other changes, the number answered is of those not revoked before, and none authenticates |
| ApiCredentialStore.RotationGoesThroughExactlyWhen | database/api_credentials.go:572-700 | an uninterrupted rotation goes through exactly for the company's own live, unexpired row within the grace bound, at the cap as below it; both halves then work until the grace ends and after it only the replacement |
| CredentialUsage.UsageRecorder.NoteUse | database/api_credentials.go:917-956 | a note counts in its credential, day and class, and only a later one moves the time, and the address when it has one |
| CredentialUsage.UsageRecorder.FlushUses | database/api_credentials.go:962-1010 | a flush succeeds exactly when the database takes a statement for every pending time and count; the buffer is empty either way, and the tables hold exactly what the statements that got through wrote |
| CredentialUsage.NotesAreConserved | database/api_credentials.go:917-1010 | over notes and successful flushes, stored plus buffered equals what was noted, per credential, day and class |
| CredentialUsage.LatestIsKept | database/api_credentials.go:917-1010 | the later of the stored and the buffered time is the latest time noted |
| CredentialUsage.FlushInFull | database/api_credentials.go:962-1010 | a flush that goes through leaves each existing credential the later time and the address noted last, adds every count to its row, and writes nothing for one that is gone |
| CredentialUsage.LastUsedIsLatestFlushed | database/api_credentials.go:973-985 | after a flush last_used_at is the latest noted time, and later notes do not move it |
| CredentialUsage.RunFlushKeepsNotedExactlyWhen | database/api_credentials.go:891-894 | in every run, every order of writing keeps all that was noted about every existing credential (counts, latest time, address) exactly when there are statements enough or nothing of an existing credential was waiting |
| CredentialUsage.FlushKeepsNotedExactlyWhen | database/api_credentials.go:962-1010 | the same of any buffer whose counts are not zero, as notes leave them |
| CredentialUsage.FailedFlushLosesATime | database/api_credentials.go:917-1010 | one note without a class and no statement: no count waits, and the time is lost for good |
| CredentialUsage.FailedFlushLosesARequest | database/api_credentials.go:962-1010 | one noted request and one statement: the request is lost, and no later flush brings it back |
| Idempotency.IdempotencyStore.BeginIdempotent | database/idempotency.go:107-218 | each of the four outcomes of a claim exactly by what stands under its key, the row it leaves, and that nothing else changes |
| Idempotency.IdempotencyStore.CompleteIdempotent | database/idempotency.go:225-260 | the row it leaves and what the next claim is told: a response below 500 is replayed to its own retry and refused to another request until it expires, one of 500 or more runs again |
| Idempotency.ReplayIsByteForByteExactlyWhen | database/idempotency.go:24-30 | a replayed retry gets the bytes that were sent exactly when the response has no object with a member and no list of two |
| Idempotency.ReplayHasABlank | database/idempotency.go:241-255 | a response of one member is sent without a blank and replayed with one |
| Idempotency.IdempotencyStore.ReleaseIdempotent | database/idempotency.go:262-276 | a running key is freed, so the retry runs again, and a stored answer is kept |
| Idempotency.IdempotencyStore.PurgeExpired | database/ratelimit_store.go:212-223 | a record is there afterwards exactly when it was and has not expired, unchanged, so no claim sees a different answer for the sweep |
| IdempotencyRuns.OneHolderPerKey | database/idempotency.go:107-276 | where every claim keeps its record while held, a key has at most one holder |
| IdempotencyRuns.ReplayIsItsOwnAnswer | database/idempotency.go:107-276 | there a replay is a stored answer, below 500, to a request with the same key and fingerprint |
| IdempotencyRuns.SecondProceedsExactlyWhenUnbacked | database/idempotency.go:107-218 | a second caller proceeds at once exactly when the key has no unexpired record |
| IdempotencyRuns.ReadKeepsHoldersApartExactlyWhenItFinds | database/idempotency.go:107-218 | where every claim has its record, the next read keeps holders apart in every lasting run exactly when it finds a record |
| IdempotencyRuns.ReadOfNothingAdmitsASecond | database/idempotency.go:159-167 | a claim whose read found nothing never keeps a second caller out |
| IdempotencyRuns.ReadOfNothingIsReached | database/idempotency.go:159-167 | three steps from an empty table reach a claim about to read nothing |
| IdempotencyRuns.ReadKeepsReplaysHonestExactlyWhenItFinds | database/idempotency.go:107-276 | where every claim has its record, the next read keeps every replay its own answer in every lasting run exactly when it finds a record |
| IdempotencyRuns.AnswerStands | database/idempotency.go:107-276 | in any run a stored answer stands until it expires: every claim of its key is replayed it or told the key was used for another request |
| Enrollment.EnrollmentStore.RetireLive | database/enrollment.go:314-358 | an enrolment and the job carrying it are retired together, and a finished job is left as it is |
| Enrollment.EnrollmentStore.ExpireDueEnrollments | database/enrollment.go:508-564 | afterwards no live enrolment is past its window; only live rows past theirs became EXPIRED, exactly their jobs in flight were cancelled, and no report is decided differently |
| Enrollment.EnrollmentStore.StartFingerprintEnrollment | database/enrollment.go:98-253 | expiry, eligibility, reach, superseding and opening, in the code's order with its errors |
| Enrollment.EnrollmentStore.CancelFingerprintEnrollment | database/enrollment.go:446-497 | answers whether the person had a live enrolment; if so none is live, only those became CANCELLED, exactly their jobs in flight were cancelled, and reports are refused besides exactly at the terminals where one was the latest |
| Enrollment.EnrollmentStore.MarkEnrollmentDelivered | database/enrollment.go:578-594 | only the addressed terminal's PENDING rows become IN_PROGRESS |
| Enrollment.EnrollmentStore.FailEnrollmentForJob | database/enrollment.go:602-616 | no row of that terminal and job is live; only such rows changed, to FAILED, and no report is decided differently |
| Enrollment.EnrollmentStore.CompleteEnrollmentForDevice | database/enrollment.go:693-707 | every row of the person at the terminal is COMPLETED or was cancelled; no other row changed, and no report is decided differently |
| Enrollment.EnrollmentStore.CompleteEnrollment | database/queries.go:452-539 | the report of a person who is not there closes nothing; otherwise every row it reaches is COMPLETED or was cancelled, and no other row changed |
| Enrollment.EnrollmentStore.CreateEnrollmentRequest | database/queries.go:367-405 | the site key's request leaves one live row, naming no terminal; the live ones before it are CANCELLED with exactly their jobs, and their terminals refuse reports |
| Enrollment.EnrollmentStore.DispositionForDeviceReport | database/enrollment.go:661-687 | a report is refused exactly when the latest row at that terminal is cancelled |
| EnrollmentRuns.OneLivePerPerson | database/enrollment.go:98-253 | in every run a person has at most one live enrolment |
| EnrollmentRuns.WithdrawnJobIsNotInFlight | database/enrollment.go:314-358 | in every run the job of a cancelled or expired enrolment is neither PENDING nor FAILED |
| EnrollmentRuns.CancelledJobStaysCancelled | database/sync.go:481-488 | no acknowledgement a terminal sends after a cancel completes, fails or re-opens the job it holds |
| EnrollmentRuns.CancelledIsFinal | database/enrollment.go:693-707 | a cancelled row never changes again |
| EnrollmentRuns.RefusedUntilReopened | database/enrollment.go:631-687 | once the latest row at a terminal is cancelled no report from it binds until one is opened there |
| EnrollmentRuns.CancelStopsTheTerminal | database/enrollment.go:446-497 | cancelling a live enrolment has that effect at its terminal |
| EnrollmentRuns.StartRefusesElsewhereExactlyWhen | database/enrollment.go:631-687 | after a start, another terminal's report of the person is refused exactly when the latest row there was CANCELLED or live; the start's own binds, and nobody else's is decided differently |
| EnrollmentRuns.SupersededStopsTheTerminal | database/enrollment.go:314-323 | the terminal left behind is refused through any run until an enrolment is opened there |
| EnrollmentRuns.SupersededTerminalIsRefused | database/enrollment.go:645-651 | a run with two starts and no cancel after which the first terminal is refused |
| EnrollmentRuns.RefusedStartChangesNothingExactlyWhen | database/enrollment.go:98-171 | a refused start leaves the tables as they were exactly when no reach was given or no window had run out |
| EnrollmentRuns.OutOfReachHasExpired | database/enrollment.go:51-53 | a start refused as out of reach that has expired another person's enrolment |
| EnrollmentRuns.StartOpensTheOnlyLiveOne | database/enrollment.go:98-253 | a start leaves exactly one live enrolment, at its terminal, with a clamped window, and the others' jobs at rest |
| EnrollmentMeaning.StartInFull | database/enrollment.go:98-253 | the condition of each refusal, terminal before person before reach, and every row and job a start leaves: what had run out expires for a bounded caller, the person's own are cancelled with their jobs, and the new pair |
| EnrollmentMeaning.CancelInFull | database/enrollment.go:446-497 | stopping needs an open row of the person and cancels exactly those with their jobs |
| EnrollmentMeaning.DeliveryInFull | database/enrollment.go:578-594 | exactly the pending rows of the terminal that carry one of the delivered jobs are taken |
| EnrollmentMeaning.BindsExactlyUnlessCancelledLast | database/enrollment.go:661-687 | a report binds exactly unless the person's last row at that terminal was cancelled |
| EnrollmentMeaning.AckInFull | database/sync.go:481-621 | an acknowledgement moves only the job it names, for that job's own terminal, while it may still run |
| AssistantTurn.RoundAnswersAll | assistant/loop.go:405-466 | each tool_use of a round gets exactly one result, in order, whatever the tools and caps do |
| AssistantTurn.UnrunAnswersAll | assistant/loop.go:506-520 | tools that were cut off are each answered too |
| AssistantTurn.TurnKeepsWellFormed | assistant/loop.go:351-473 | for every model and every ending, each message answers exactly what the one before it asked, and nothing is left unanswered |
| AssistantTurn.TurnKeepsCaps | assistant/loop.go:407-457 | at most the cap of tools run in a turn, and only the last to run asked for a confirmation |
| AssistantTurn.TurnReportsEveryCall | assistant/loop.go:405-466 | in every turn each call of every round of tools is answered in its place: one that ran with its own tool's content and error flag, one over the cap or after a confirmation with the text of that reason as an error |
| AssistantTurn.TurnEndsAsItsLastRoundDid | assistant/loop.go:351-473 | a turn's failure, stop reason and context size are those of its last round: the model's error, a refusal, its stop, a lost session or the tool limit |
| AssistantTurn.PendingRoundEndsExactlyOverTheCap | assistant/loop.go:251-255 | a round of tools called while a confirmation is pending runs none of them, and ends the turn exactly when they go over the cap on calls |
| AssistantTurn.PendingTurnGoesOn | assistant/loop.go:429-436 | a world in which such a call is refused, the turn goes on and the model is asked again |
| AssistantTurn.ExhaustedTurnFails | assistant/loop.go:470-472 | a turn that uses up its rounds fails with the tool limit |
| AssistantTurn.Conversation.RunRound | assistant/loop.go:352-473 | one round saves the reply, runs or answers its tools and saves the results, and keeps every call so far reported |
| AssistantTurn.Conversation.RunTurn | assistant/loop.go:256-502 | the saved messages are the transcript, in which every call is reported as above; a repeated message is replayed, a full conversation takes none, and the bounds close it unless a confirmation is pending |
| TurnBudget.Turn.Call | assistant/dispatch.go:88-107 | a request reaches the router exactly when it is inside the console and within its own cap, and a poll only when it reads |
| TurnBudget.Turn.Step | assistant/poll.go:46-64 | one look of a wait: every request of it that reaches the router is counted once, as a poll or as a call |
| TurnBudget.Turn.WaitFor | assistant/poll.go:36-70 | a wait costs the turn no call while polls are left, and with none left makes no more requests than one look does, at the ordinary cost |
| TurnBudget.Turn.Execute | assistant/dispatch.go:264-308 | what a tool's Confirm sends on the turn, and what the tool sends on its copy, are both accounted for in the turn's counters; once a plan asks, nothing is sent but what the Confirm sends |
| TurnBudget.RunTools | assistant/dispatch.go:88-107 | in a whole turn, whatever tools and their confirmations ask, at most 48 requests and 60 polls reach the router, each inside the console, and polls only read |
| ToolArguments.ValidateArgs | assistant/registry.go:337-410 | the loop returns the checked arguments or the first error |
| ToolArguments.ValidationIsAFixedPoint | assistant/registry.go:337-410 | checking accepted arguments again returns them unchanged |
| ToolArguments.AcceptedArgumentsConform | assistant/registry.go:337-437 | accepted arguments are known, complete, typed and in bounds, and only nulls and blank optional strings were dropped |
| ToolArguments.AcceptedExactlyWhen | assistant/registry.go:337-410 | arguments are accepted exactly when they are an object of known names and no parameter refuses its own; the output is then exactly what was sent, texts without their blanks, less what was left out |
| ToolArguments.FirstRefusalDecides | assistant/registry.go:337-410 | not an object, then an unknown name, then the first parameter that refuses, for the first of its reasons |
| ToolArguments.DateIsAcceptedExactlyWhen | assistant/registry.go:439-442 | a text is a date exactly when it writes a day of the calendar |
| Confirmations.ApprovedAlwaysMatches | assistant/dispatch.go:290-295 | a stored confirmation re-hashes to what was shown, so it is refused only for the operator's role |
| Confirmations.ConfirmedActionRunsOnce | assistant/loop.go:549-610 | however settlements race, a confirmation runs at most once, only when approved, with the tool and arguments shown; and a call whose tool confirms and plans runs only through an approved one |
| Confirmations.PlannedCallOnlyAsks | assistant/dispatch.go:266-288 | a call of a tool that confirms and returns a plan runs nothing: it stores what was shown and waits |
| Confirmations.UnplannedCallRunsExactlyWhen | assistant/dispatch.go:248-308 | any other call runs at once exactly when its tool exists, the role is high enough, the arguments are accepted and its Confirm did not fail |
| Confirmations.ApprovedByItsOwner | assistant/confirm.go:93-121 | every confirmed run was approved by a step that found the confirmation open, that operator's own, inside its window and with its phrase, by a role high enough for the tool |
| Confirmations.VerdictIsFinal | database/assistant.go:331-344 | what was shown never changes and a verdict, once given, is final |
| Confirmations.ConfirmationStore.VerifyConfirmation | assistant/confirm.go:93-121 | each refusal exactly by its condition, in order, and acceptance exactly of an open row of the operator's own, in its window, with its phrase; nothing is consumed |
| Confirmations.ConfirmationStore.SettleConfirmation | database/assistant.go:326-344 | of any settlers of a row only the first changes it: the update succeeds exactly when the row stood open, and then only its verdict changes |
| Confirmations.ConfirmationStore.SettleAndRun | assistant/loop.go:549-610 | arguments to run with come back exactly for a verified approval by a role the tool admits, and they are the stored ones |
| LikePattern.ParseOfEscaped | database/console.go:233-241 | escaping is undone by LIKE's own parsing, for any mix of %, _ and backslash |
| LikePattern.SearchFindsExactlyTheLiteralTerm | database/console.go:233-241 | the wrapped pattern matches exactly the texts in which the term occurs literally |
| Placeholders.CompiledClauseRefs | database/events.go:306-312 | a clause with its "?" replaced names its own parameter and then whatever its text already named |
| EventQueries.CompiledRefs | database/events.go:304-378 | each compiled clause names its own argument, a search three times, a subquery the company besides |
| EventQueries.CompiledText | database/events.go:304-378 | each filter compiles to its own clause, written out, with its own number in it |
| EventQueries.Builder.Add | database/events.go:306-312 | clauses and arguments grow in step |
| EventQueries.CompiledClauseFindsWanted | database/events.go:286-388 | for every combination of filters the query is answered, and with exactly the events it is for, exactly when the serial asked for has at most one row in the company |
| EventQueries.ReRegisteredSerialFailsTheQuery | database/events.go:334-337 | after a terminal is retired and registered again, a query for its serial is not answered |
| EventQueries.NothingAskedIsNothingWanted | database/events.go:314-342 | an empty page answered without asking is right |
| EventQueries.ListEvents | database/events.go:286-408 | count and page find exactly the wanted events under that same condition, by the clauses written out; LIMIT and OFFSET bind to the last two arguments, 50 unless said, 500 at most and never before the first |
| DeviceQueries.ScopeMeans | database/firmware.go:210-215 | the clause hardcoded to $2 reads the site grant |
| DeviceQueries.ListConsoleDevicesPage | database/firmware.go:449-505 | scoped or not, searched or not, count and page find exactly the wanted rows by the clauses written out, and LIMIT and OFFSET bind to the last two arguments |

## Left out

- ProvisioningStore.Store.Announce: does not consume a release receipt; a finalized release is a separate administrative step, because the receipt logic is in code outside this model.
- ProvisioningStore.Store.RegisterDeviceTx: does not model bootstrap jobs, settings pushes, firmware and capability columns, which no other property here depends on.
- ProvisioningStore.Store.RedeemClaimCode: folds letters as `strings.EqualFold` does against a serial of ASCII characters; folding among other letters is not modelled.
- AccessDecisions.Authorize: takes the zone clocks as given, so daylight-saving shifts and zone databases are not modelled; uuid spelling of a credential id is not parsed.
- CredentialUsage.UsageRecorder.NoteUse: the two nested maps of counts are one map keyed by day and class.
- Enrollment.EnrollmentStore.CompleteEnrollment: the template and credential a report stores, and the jobs it queues, are not modelled; a report under a site key is not asked about cancelled rows, which `RefusedUntilReopened` is therefore not about.
- Enrollment.EnrollmentStore.StartFingerprintEnrollment: a person is known by company and external id; soft deletion and renaming of people are not modelled.
- AssistantTurn.Conversation.RunTurn: assumes messages are saved; a save that fails is only logged by the code. Budgets, titles, events and the one-active-turn table are not modelled.
- ToolArguments.ValidateArgs: numbers are what JSON decoding leaves after the trip through a 64-bit float; which of several unknown arguments is named is not modelled.
- ApiCredentials.StatusIsAuthentication: the company's own active flag is outside the row and outside this statement.
- ApiCredentialStore.CredentialStore.Issue: known scopes and the resolution of site ids are checked elsewhere and not modelled; live names are compared by the lower case of ASCII letters.
- EventQueries.CompiledClauseFindsWanted: the serial's subquery counts as evaluated whenever it is in the clause; an engine may skip it when no row gets that far.
- ProvisioningStore.Store.PurgeAnnouncements: which rows are past the retention window is given, because creation times are not kept.
- EventQueries.ListEvents: ordering and paging of the returned rows are the database's and are not modelled.
- DeviceQueries.ListConsoleDevicesPage: the firmware join is given as the row's current build.
- The HTTP layer, mail, single sign-on and process start-up: they carry values in and out of the functions modelled here.
- Connection failures: a statement fails only where the logic turns on it (a constraint, a lost race, a usage flush).
- Strength of hashes and tokens: equal hashes mean equal secrets by assumption.
- Confirmations.ConfirmationStore.VerifyConfirmation: a token is the row it names; its text and signature are not modelled.
- TurnBudget.Turn.WaitFor: how long a wait lasts and when a look ends it are the caller's choice of looks.
- Confirmations.ConfirmedActionRunsOnce: whether a tool's Confirm returns a plan for given arguments is part of the call, as the tool's own code decides it.
- Idempotency.ReplayIsByteForByteExactlyWhen: scalars and names are taken as the column prints them and members in its order; how it rewrites those is not modelled.
- Firmware builds, audit pages, hand-offs and what the console displays: no rule modelled here depends on them.
- The command queue, credential placement and terminal capacity (database/commands.go, database/credential_material.go, database/capacity.go): their invariants run through the synchronisation code, which is not part of this model.
