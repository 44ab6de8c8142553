# Verified model of the needs-assessment backend

This project models the parts of the backend whose correctness depends on state, order or interleaving, and proves
what they promise:

- the citizen survey's one-time codes and its one response per verified code (`Citizen.dfy`, `CitizenService.dfy`,
  `CitizenAnswers.dfy`, `CitizenRace.dfy`, `CitizenCheck.dfy`);
- the CSV reader of the Needs import, the CSV writer of the audit log, and the one-line reader of the import scripts
  (`Csv.dfy`, `CsvCuts.dfy`);
- reading a file of Needs, importing them with duplicate detection, and the canonical key it rests on
  (`NeedsFile.dfy`, `NeedsImport.dfy`, `NeedKeys.dfy`);
- the account lockout, password changes and reset tokens (`Accounts.dfy`, `AccountAnswers.dfy`, `AuthService.dfy`),
  and who may still use a session token when logins and revocations interleave (`Sessions.dfy`, joined to the accounts
  by `Revocation.dfy`);
- option ids and order-free composite ids of the methodology (`OptionKeys.dfy`);
- masking of sensitive audit data (`Mask.dfy`);
- the rate-limit counter (`RateLimit.dfy`), the separation of map markers (`Markers.dfy`, `Reals.dfy`), evidence rows
  against evidence files (`Evidence.dfy`, `EvidenceService.dfy`, `EvidenceRuns.dfy`), and the report folds
  (`ReportFolds.dfy`, `Ranking.dfy`).

`Text.dfy`, `Sorting.dfy` and `Wrappers.dfy` hold what several of them share. `dafny verify dfyconfig.toml` checks
everything.

**How the protocols are modelled.** A protocol is a `Step` function on a state and an event; an event is one atomic
action of one request (a read, a guarded update, a transaction's end, a file operation), and a run is any list of
events. A statement about every run is therefore a statement about every interleaving. The classes perform the same
operations the way the service does, one request at a time, and are proved against the same functions; what each
operation answers and changes is stated of the columns it reads and writes by the lemmas named `...Exactly`. History
that the database does not keep (which challenge a response came from, which guesses were counted, who owns a file) is
part of the model's state, never read by the modelled code.

**What is left open.** Lower- and upper-casing, the password check, SHA-256 and the square root are parameters. Of
lower-casing it is assumed that it empties nothing, invents no separator and fixes lower-case ASCII words
(`Text.IsCaseMap`); of the square root that it is exact. Clocks, random ids, and whether a save, a commit or a file
removal succeeds are given with each event. A transaction commits entirely or does nothing.

**What the proofs found.**

- Two different Needs can share a duplicate key when a title contains `|` (`NeedKeys.BarCollision`);
  `NeedKeys.KeyEquality` gives every case.
- The duplicate read of a submission takes no lock, so two transactions can both read no duplicate; the two unique
  indexes on responses (prisma/schema.prisma:1192-1193) decide then. Under every interleaving no two responses of a Need
  share a contact or a mobile (`Citizen.ResponsesUnique`); of two transactions that have both read, exactly one commits
  if their responses agree in an index, and the other's challenge stays verified and unconsumed
  (`CitizenRace.FirstCommits`). The service does not catch that refusal: its caller meets the raw constraint error
  instead of `DUPLICATE_SUBMISSION` exactly if a duplicate was committed after the read, or if empty mobiles meet
  (`Citizen.RawErrorExactly`); both can be reached (`CitizenRace.RaceRefusesSecond`, `CitizenCheck.EmptyMobilesMeet`).
- `checkDuplicate` compares mobile numbers even when the number normalises to nothing, the submission's own duplicate
  read does not, and the two reads differ only there (`Citizen.CheckVersusClaim`). The outcomes agree all the same: the
  check reports exactly what the indexes refuse (`Citizen.CheckPredictsIndex`).
- The comment at src/modules/auth/auth.service.ts:149-151 says that an issued token outlives the deactivation of its
  organisation; the guard rejects it at once, and the model follows the guard (`Sessions.AcceptedExactly`).
- An upload that fails before its commit does not always leave the stores as they were: a failed save may leave a
  partial file that nothing ever removes (`Evidence.HalfSaveStays`). The disk is as it was if and only if the failing
  save wrote nothing and every file saved before it could be removed (`EvidenceServices.NothingLeft`). Over whole runs
  the files left over are exactly those of partial saves, failed removals, crashes and deleted Needs
  (`Evidence.StoresAgree`). For the last nothing has to fail: deleting a Need or a study deletes the evidence rows by
  cascade, and no code unlinks their files (`Evidence.DeletedNeedsLeave`).
- Markers with one and the same centre are never separated (`Markers.CoincidentNeverSettle`). The region coordinates of
  the report (src/modules/ncnp-report/ncnp-report-pdf.ts:865-879) are distinct, so the report does not start from such
  markers.
- A password reset does not lift a lock (`Accounts.NewPasswordKeepsLock`). A password that an administrator re-issues
  does not end sessions, and neither does the suspension of an organisation: the tokens are refused while it is
  suspended and accepted again afterwards (`Revocation.SuspensionPasses`).
- The lockout and the rate limit are met exactly: a patient client reaches the bound (`Accounts.PatientMeetsBound`,
  `RateLimit.BoundIsMet`).

## Model

| member | source | states |
|---|---|---|
| `Citizen.StepKeeps` | src/modules/citizen/citizen.service.ts:164-314 | every atomic step of every request keeps the whole invariant (guess history, response ownership, request positions, what a duplicate read can have missed) and only adds: rows keep identity, verified rows freeze, consumed rows stay consumed |
| `Citizen.GuessesBounded` | src/modules/citizen/citizen.service.ts:164-198 | under every interleaving at most 5 guarded updates succeed on a challenge; `attempts` is the number of counted wrong guesses, at most 5, at most 4 once verified; it is verified exactly when a matching code was counted |
| `Citizen.VerifiedIsFinal` | src/modules/citizen/citizen.service.ts:168-188 | once `verifiedAt` is set, it, `attempts` and the row's identity never change again, in any continuation |
| `Citizen.ExpiredIsFrozen` | src/modules/citizen/citizen.service.ts:180-186 | a challenge whose time is over takes no further guess, right or wrong, in any continuation |
| `Citizen.AnswersAreTrue` | src/modules/citizen/citizen.service.ts:168-198 | a request told `verified` has a verified challenge, and one told `submitted` has a stored response |
| `Citizen.OneResponsePerChallenge` | src/modules/citizen/citizen.service.ts:200-231 | consumed challenges and responses correspond one to one under every interleaving; each was verified, and its response carries its contact, mobile and survey link |
| `Citizen.CommitKeeps` | src/modules/citizen/citizen.service.ts:216-314 | the claim and the new response become visible together and keep the invariant |
| `Citizen.ResponsesUnique` | prisma/schema.prisma:1186-1193 | under every interleaving no two responses of a Need share a contact or a mobile, an empty mobile included; so none that the service's duplicate rule forbids are stored |
| `Citizen.OneConsumed` | prisma/migrations/20260717191500_survey_response_contact_uniqueness/migration.sql:1-7 | under every interleaving two consumed challenges of a Need never share a contact or a mobile |
| `Citizen.RawErrorExactly` | src/modules/citizen/citizen.service.ts:237-314 | a submission that has read no duplicate and whose survey stands is answered with the raw constraint error, changing nothing, exactly if a duplicate was committed since it read or if empty mobiles meet; otherwise its response is stored |
| `Citizen.CheckVersusClaim` | src/modules/citizen/citizen.service.ts:112-128 | the advisory check's read and the transaction's own duplicate read agree except exactly when the mobile normalises to nothing and only empty mobiles match; the outcomes agree in that case too, because the index on mobiles refuses the insert |
| `Citizen.CheckPredictsIndex` | prisma/schema.prisma:1192-1193 | the check reports a contact and a mobile exactly when the unique indexes refuse the response of a challenge requested with them |
| `Citizen.ReportedIsFinal` | src/modules/citizen/citizen.service.ts:104-128 | after the check reports a contact and a mobile, no response of the Need from a challenge requested with them is stored later, in any interleaving |
| `CitizenRace.FirstCommits` | src/modules/citizen/citizen.service.ts:237-314 | in any reachable state, of two transactions that have both read no duplicate the first to finish commits; the second is refused exactly if the responses agree in an index, and then its challenge stays verified and unconsumed, and otherwise commits too |
| `CitizenRace.RaceRefusesSecond` | src/modules/citizen/citizen.service.ts:237-314 | for every contact and mobile there is an interleaving of two verified challenges in which both duplicate reads find nothing, one response is stored and the other meets the constraint |
| `CitizenCheck.EmptyMobilesMeet` | src/modules/citizen/citizen.service.ts:120-127 | a run after which the check reports a duplicate, and the very next submission with that contact and mobile reads no duplicate and is refused by the constraint; for all different contacts, and every mobile that normalises to nothing |
| `CitizenCheck.DashesAreEmpty` | src/modules/citizen/citizen.service.ts:395-397 | such a mobile |
| `CitizenServices.CitizenService.RequestOtp` | src/modules/citizen/citizen.service.ts:130-142 | stores a new unverified challenge with normalised contact and mobile and changes nothing else |
| `CitizenServices.CitizenService.CountGuessed` | src/modules/citizen/citizen.service.ts:177-188 | the guarded update changes the one row exactly when its guard holds |
| `CitizenServices.CitizenService.VerifyOtp` | src/modules/citizen/citizen.service.ts:164-198 | a whole verification has the outcome and the new table of the specification, in the source's order of checks |
| `CitizenServices.CitizenService.FindDuplicate` | src/modules/citizen/citizen.service.ts:237-242 | finds a response exactly when one with the contact, or with the non-empty mobile, is stored for the Need |
| `CitizenServices.CitizenService.CreateResponse` | src/modules/citizen/citizen.service.ts:293-310 | the insert adds the row exactly if it shares its Need and contact, or its Need and mobile, with no stored row, and changes nothing otherwise |
| `CitizenServices.CitizenService.SubmitResponse` | src/modules/citizen/citizen.service.ts:200-314 | a whole submission has the outcome and both new tables of the specification, with the duplicate check, both checks of the published survey and the constraints on the insert in the source's order; a refused insert undoes the claim |
| `CitizenServices.VerifyIsRun` | src/modules/citizen/citizen.service.ts:164-198 | an undisturbed verification equals the run of its three atomic steps |
| `CitizenServices.SubmitIsRun` | src/modules/citizen/citizen.service.ts:200-314 | an undisturbed submission equals the run of its four atomic steps |
| `CitizenServices.SubmitKeepsUnique` | src/modules/citizen/citizen.service.ts:200-314 | a submission never adds a response that shares its Need and contact, or its Need and mobile, with another, whatever is stored already |
| `CitizenServices.SubmitAsChecked` | src/modules/citizen/citizen.service.ts:112-128 | with a challenge that can be claimed and a survey that stands, a submission that runs alone is stored exactly if the advisory check reports no duplicate; otherwise it is a duplicate, or a constraint error if only empty mobiles match |
| `CitizenServices.SubmitAllOrNothing` | src/modules/citizen/citizen.service.ts:216-314 | a submission changes both tables or neither |
| `CitizenAnswers.SubmitExactly` | src/modules/citizen/citizen.service.ts:200-314 | the answer to every whole submission by the columns of challenge, responses and survey, refusal by refusal in the source's order: SURVEY_NOT_PUBLISHED exactly if none is published, SURVEY_VERSION_CHANGED exactly if something was answered and none of it belongs to the published one; every refusal changes nothing, and success consumes the challenge and adds its response |
| `CitizenAnswers.FinishExactly` | src/modules/citizen/citizen.service.ts:248-314 | the same of the end of any transaction that has read no duplicate, in any reachable state |
| `CitizenAnswers.ReadExactly` | src/modules/citizen/citizen.service.ts:237-247 | a duplicate read refuses exactly if a response of the Need has the contact, or the mobile unless it is empty |
| `CitizenAnswers.VerifyExactly` | src/modules/citizen/citizen.service.ts:164-198 | the answer to every whole verification by the columns of the challenge, and the one column it changes |
| `CitizenAnswers.FreshCode` | src/modules/citizen/citizen.service.ts:130-198 | a code just requested is accepted until ten minutes are over, a wrong one never; after that the answer is OTP_EXPIRED, and OTP_TOO_MANY_ATTEMPTS if the time runs out between check and update |
| `CitizenAnswers.ContactSpelling` | src/modules/citizen/citizen.service.ts:387-389 | white space around a contact does not matter, and its case is taken away |
| `CitizenAnswers.MobileSpelling` | src/modules/citizen/citizen.service.ts:395-397 | a mobile is read character by character: white space, hyphens and brackets are dropped, the rest stays in order |
| `Csv.ParseCsvRows` | src/modules/needs/needs-import.parser.ts:69-118 | the index loop with lookahead computes what a character automaton computes, for every text and delimiter |
| `Csv.RoundTrip` | src/modules/needs/needs-import.parser.ts:69-118 | for any rows and any delimiter other than quote, CR and LF, reading what was printed gives the rows with cells trimmed and blank rows dropped |
| `Csv.ExportReadsBack` | src/modules/audit/audit.service.ts:111-122 | an exported audit log is read back as its header and one row for each event, whatever the cells contain |
| `Csv.ExportedCells` | src/modules/audit/audit.service.ts:111-122 | the header and the six cells of each event, in their order, as they are read back |
| `Csv.ParseCSVLine` | prisma/import-domain-priority-config.ts:47-65 | the loop of the scripts computes what its automaton computes, for every line |
| `Csv.QuoteParity` | prisma/import-questions.ts:21-43 | `inQuotes` is the parity of the quotes read so far |
| `Csv.SameScan` | prisma/import-scoring-lookups.ts:21-43 | within one line the two readers move in step, state for state |
| `Csv.ReadersAgree` | prisma/import-domain-priority-config.ts:47-119 | without lone CR and with an even number of quotes in each line, the importer's reader equals splitting into lines and reading each with the scripts' reader, blank rows dropped |
| `CsvCuts.RowCut` | src/modules/needs/needs-import.parser.ts:93-117 | a text cut at any line break outside quotes (LF, CR or both) is read as its parts are, one after the other |
| `CsvCuts.CellCut` | src/modules/needs/needs-import.parser.ts:90-92 | a line cut at any delimiter outside quotes has the cells of its parts, one after the other |
| `CsvCuts.OneCell` | src/modules/needs/needs-import.parser.ts:78-92 | a plain piece is one cell, trimmed; so is a quoted one, whatever is between its quotes |
| `CsvCuts.LineExactly` | src/modules/needs/needs-import.parser.ts:112-117 | a text without line breaks is one row of its cells, or none if they are all empty |
| `CsvCuts.SameCells` | prisma/import-domain-priority-config.ts:47-65 | within a line the scripts' reader reads the same cells |
| `NeedsFile.BuildColumnIndex` | src/modules/needs/needs-import.parser.ts:32-43 | each field is read from the first column whose normalised name is one of its aliases, and from none exactly when no column has one |
| `NeedsFile.ColumnsDisjoint` | src/modules/needs/needs-import.parser.ts:21-43 | no column is read for two fields |
| `NeedsFile.ParseCsvNeeds` | src/modules/needs/needs-import.parser.ts:120-133 | the rows are those below the header of the parsed text, read by its column index and numbered from two; an empty text or a header alone gives none |
| `NeedsFile.RowsExactly` | src/modules/needs/needs-import.parser.ts:45-57 | row k is numbered k + 2, and each of its four fields is the trimmed cell of the first column whose normalised header is one of that field's names, spelled out, or empty |
| `NeedsFile.BomExactly` | src/modules/needs/needs-import.parser.ts:121 | one byte order mark in front of the text makes no difference |
| `NeedsFile.HeadLineExactly` | src/modules/needs/needs-import.parser.ts:124 | the first line is the text up to its first CR or LF |
| `NeedsFile.DelimiterExactly` | src/modules/needs/needs-import.parser.ts:59-67 | semicolon or tab is chosen exactly if the line has more of it than of either other mark, and otherwise the comma |
| `NeedsFile.HeaderWords` | src/modules/needs/needs-import.parser.ts:28-30 | any run of white space between the words of a header reads as one space |
| `NeedsFile.FileReadsBack` | src/modules/needs/needs-import.parser.ts:120-133 | a file written with any header and any cells is read back under the header's own columns, trimmed and without blank rows, when its first line shows the delimiter |
| `NeedsFile.DelimiterRecognised` | src/modules/needs/needs-import.parser.ts:59-67 | under a header of plain names that is so exactly when there are two or more names or the delimiter is the comma |
| `NeedKeys.SplitVillagesShape` | src/modules/needs/needs-import.service.ts:13-18 | village names come out trimmed, non-empty and without separators |
| `NeedKeys.VillagesExactly` | src/modules/needs/needs-import.service.ts:13-18 | text without a separator is one village, trimmed, or none if blank; at each comma and semicolon the list is cut |
| `NeedKeys.KeySpelling` | src/modules/needs/needs-import.service.ts:28-33 | the title and the reference id enter a key without surrounding white space and in lower case, and each village in lower case |
| `NeedKeys.Resplit` | src/modules/needs/needs-import.service.ts:277 | a stored village list joined with commas and split again is itself |
| `NeedKeys.SameVillages` | src/modules/needs/needs-import.service.ts:31 | the village part of a key is equal exactly when the villages are the same multiset up to case |
| `NeedKeys.KeyEquality` | src/modules/needs/needs-import.service.ts:28-33 | for all inputs two keys are equal exactly when both Needs have one reference id up to case and spaces, or neither has one and titles and village multisets agree, or a bar moves between title and villages; the last never is the same Need |
| `NeedKeys.KeyExact` | src/modules/needs/needs-import.service.ts:20-33 | for titles without a bar, equal keys mean the same Need and only then |
| `NeedKeys.BarMoves` | src/modules/needs/needs-import.service.ts:32 | a whole family of different Needs with one key |
| `NeedKeys.BarCollision` | src/modules/needs/needs-import.service.ts:32 | a concrete pair of different Needs with one key |
| `NeedsImport.StoredKey` | src/modules/needs/needs-import.service.ts:276-313 | the key of a stored Need, rebuilt from its columns, is the key of the row it came from |
| `NeedsImport.NeedsImportService.KnownKeys` | src/modules/needs/needs-import.service.ts:276-278 | the initial index holds exactly the keys of the stored Needs |
| `NeedsImport.NeedsImportService.ImportRows` | src/modules/needs/needs-import.service.ts:280-340 | the loop stores and reports exactly what the specification says, given what was stored before |
| `NeedsImport.NeedsImportService.ImportFromFile` | src/modules/needs/needs-import.service.ts:233-340 | an unknown study, an unsupported file and too many rows are refused in that order and change nothing; otherwise the rows are imported as specified |
| `NeedsImport.NeedsImportService.ImportBulk` | src/modules/needs/needs-import.service.ts:105-229 | an unknown study, an empty payload and one above the limit are refused in that order and change nothing; otherwise the items, trimmed and numbered from one, are imported as specified |
| `NeedsImport.ImportExactly` | src/modules/needs/needs-import.service.ts:280-357 | the Needs an import adds are, in order, one for each imported row, with that row's title, statement, villages and reference id; its errors are, in order, one for each other row, with the row's number and whether it is a duplicate; the numbers add up |
| `NeedsImport.VerdictExactly` | src/modules/needs/needs-import.service.ts:283-333 | which check stops a row: validity, then a known or earlier key, then the save |
| `NeedsImport.ValidExactly` | src/modules/needs/needs-import.service.ts:361-367 | a file's row needs a title of 1 to 300 characters, a statement and a village; a bulk item a title and a statement |
| `NeedsImport.CleanedExactly` | src/modules/needs/needs-import.service.ts:147-153 | a bulk item is imported under its trimmed columns and numbered by its place |
| `NeedsImport.SeenIsStored` | src/modules/needs/needs-import.service.ts:328 | the running key index always equals the keys of what is stored |
| `NeedsImport.ImportInTwoParts` | src/modules/needs/needs-import.service.ts:276-340 | importing A and then B, reloading the index in between, stores the same Needs as importing A followed by B |
| `NeedsImport.ReimportAddsNothing` | src/modules/needs/needs-import.service.ts:290-300 | importing rows again, all or some and in any order, stores nothing when the first saves succeeded |
| `NeedsImport.FirstOfItsKey` | src/modules/needs/needs-import.service.ts:283-333 | a row is imported exactly when it is valid, saves, has an unknown key, and no earlier valid row that saves has its key |
| `NeedsImport.SeenExactly` | src/modules/needs/needs-import.service.ts:291-328 | which keys are known after any list of attempts, exactly |
| `NeedsImport.KeysStayDistinct` | src/modules/needs/needs-import.service.ts:276-340 | imports never give a study two Needs with one key |
| `NeedsImport.RowsAccounted` | src/modules/needs/needs-import.service.ts:280-340 | every row is stored or reported, never both: imported plus failed is the total |
| `OptionKeys.NormalShape` | prisma/import-scoring-lookups.ts:45-52 | an id has letters, digits and single underscores, none at an edge |
| `OptionKeys.NormalIsWords` | scripts/extract-methodology-v5.py:182-186 | an id is the label's words of letters and digits joined by single underscores |
| `OptionKeys.NormalExactly` | scripts/extract-methodology-v5.py:182-186 | capital letters and digits stay, and every other character only separates words |
| `OptionKeys.StripIsRedundant` | prisma/import-methodology.ts:128-130 | the Python and TypeScript variants compute one function: what the strip before the replacement removes does not matter |
| `OptionKeys.SplitJoined` | scripts/extract-methodology-v5.py:189-206 | splitting on the doubled underscore undoes the join of ids |
| `OptionKeys.CompositeSplits` | scripts/extract-methodology-v5.py:192-206 | the sorted normalised parts can be read off the composite id |
| `OptionKeys.PartsExactly` | scripts/extract-methodology-v5.py:205 | a text without a semicolon is one part, or none if blank; at each semicolon the parts are cut |
| `OptionKeys.CompositeEquality` | scripts/extract-methodology-v5.py:192-206 | for all labels, equal composite ids mean equal multisets of normalised parts, except that no part and one blank part share the empty id; exact |
| `OptionKeys.OrderIndependent` | scripts/extract-methodology-v5.py:198-203 | any reordering of a label's parts gives the same id |
| `OptionKeys.CodesInjective` | prisma/import-methodology.ts:331 | a sub-domain code is equal exactly when both of its slugs are |
| `OptionKeys.CodeSplits` | prisma/import-methodology.ts:331 | a code reads as the id of the domain and then that of the sub-domain |
| `Sorting.SortCanonical` | scripts/extract-methodology-v5.py:205 | sorted lists are equal exactly for rearrangements of each other |
| `Accounts.LockFollowsFailures` | src/modules/auth/auth.service.ts:94-124 | in every run the stored counter is the number of consecutive failures and the lock is set exactly when it is at least 5 |
| `Accounts.GuessRate` | src/modules/auth/auth.service.ts:94-124 | a window of length T without a passing login holds at most 5 + floor(T / 15 min) failed password checks, over every run with ordered clocks |
| `Accounts.PatientMeetsBound` | src/modules/auth/auth.service.ts:25-26 | the bound is reached: five guesses, then one for each lock period |
| `Accounts.OneOutstanding` | src/modules/auth/auth.service.ts:537-548 | in every run a user has at most one unconsumed reset token |
| `Accounts.TokensStaySpent` | src/modules/auth/auth.service.ts:562-583 | a consumed token is never changed again |
| `Accounts.ResetOnlyByNewest` | src/modules/auth/auth.service.ts:562-583 | a token that resets a password is the newest issued to its user, unexpired, and never works again |
| `Accounts.OldPasswordStops` | src/modules/auth/auth.service.ts:474-583 | after a password is changed, reset or re-issued by an administrator, until the next time, only a password that matches the new hash logs in; a change needed the old one |
| `Accounts.NewPasswordKeepsLock` | src/modules/auth/auth.service.ts:574-579 | a locked account stays locked through a new password |
| `Accounts.VersionsRise` | src/modules/users/users.service.ts:547 | session versions never fall in any run: they count exactly the operations that end sessions (logout, password change, reset, role and status change) |
| `AccountAnswers.LoginExactly` | src/modules/auth/auth.service.ts:83-139 | a login succeeds exactly if the account exists, has a password, is not locked, the password is right, it is not disabled, its organisation is active and its role is known; every refusal by its own columns, and what each writes |
| `AccountAnswers.DisabledStaysOut` | src/modules/auth/auth.service.ts:114-116 | through every run, until an administrator, a password change or a consent enables the account, no login of a disabled user succeeds |
| `AccountAnswers.ChangeExactly` | src/modules/auth/auth.service.ts:474-516 | when a password change succeeds, every refusal, and every column of the user it writes |
| `AccountAnswers.ForgotExactly` | src/modules/auth/auth.service.ts:524-560 | who gets a reset token, for half an hour, and what becomes of the user's others; every other request changes nothing and gets the same reply |
| `AccountAnswers.ResetExactly` | src/modules/auth/auth.service.ts:562-589 | when a reset succeeds, and every column of user and token it writes |
| `AccountAnswers.FreshTokenWorks` | src/modules/auth/auth.service.ts:537-583 | a token that was sent works until its half hour is over, whatever happens meanwhile, unless its user asks again or it is used; after that it does not |
| `AccountAnswers.OthersExactly` | src/modules/users/users.service.ts:540-547 | logout, role and status change, re-issued password and consent change these columns of the user and no others |
| `AccountAnswers.CreatedExactly` | src/modules/users/users.service.ts:40-48 | a new account is enabled, without failures, lock or ended sessions |
| `AuthServices.AuthService.Login` | src/modules/auth/auth.service.ts:83-139 | the step-by-step login has the outcome and new tables of the specification, in the source's order of checks |
| `AuthServices.AuthService.Logout` | src/modules/auth/auth.service.ts:164-179 | likewise: the session version rises by one |
| `AuthServices.AuthService.ChangePassword` | src/modules/auth/auth.service.ts:474-516 | likewise for a password change; an unknown role is reported only after the new hash is stored |
| `AuthServices.AuthService.ForgotPassword` | src/modules/auth/auth.service.ts:524-560 | likewise: outstanding tokens are consumed before the new one is stored, in one transaction |
| `AuthServices.AuthService.ResetPassword` | src/modules/auth/auth.service.ts:562-589 | likewise for a reset |
| `Sessions.TokensNotAhead` | src/modules/auth/auth.service.ts:137-160 | under every interleaving of reads and signs a token's version is at most its user's current one |
| `Sessions.VersionCountsRevocations` | src/modules/auth/auth.service.ts:176-178 | the version never falls: it grows by exactly the number of revocations |
| `Sessions.AcceptedExactly` | src/auth/jwt-auth.guard.ts:46-58 | a token is accepted exactly when no revocation came after the read it was built from and the organisation is active and the role known now |
| `Sessions.RevokedForever` | src/auth/jwt-auth.guard.ts:46-58 | after a logout, password change or reset no token built from an earlier read is ever accepted again, even one signed later |
| `Revocation.RunFollows` | src/modules/auth/auth.service.ts:83-589 | a run of account operations and the run of its session events show the guard the same users and active organisations |
| `Revocation.EndedSessionsStayEnded` | src/modules/auth/auth.service.ts:164-583 | in a run of whole operations, once a logout, password change, reset, role or status change ends a user's sessions, no token issued before is accepted again |
| `Revocation.IssuesToken` | src/modules/auth/auth.service.ts:126-138 | a successful login or password change adds exactly its one token, built from the row as it then is |
| `Revocation.SessionLasts` | src/auth/jwt-auth.guard.ts:46-58 | that token is accepted after any further operations exactly if none of them ended the user's sessions and the organisation is active and the role known now |
| `Revocation.SuspensionPasses` | src/modules/organizations/organizations.service.ts:234-246 | it is refused once the organisation is deactivated, and accepted once it is active again exactly if nothing ended the sessions in the meantime |
| `Revocation.LoginGivesSession` | src/modules/auth/auth.service.ts:126-139 | a successful login or password change issues a token that the guard accepts at once |
| `Revocation.IssuesExactly` | src/modules/auth/auth.service.ts:83-139 | which logins and password changes issue a token, by the columns of the account |
| `Revocation.DisabledGetsNoToken` | src/modules/auth/auth.service.ts:114-116 | at no point of any run does a login issue a token to a user who is disabled then |
| `Sessions.RequestStore.CanActivate` | src/auth/jwt-auth.guard.ts:19-67 | the whole guard: header before cookie, public routes, unreadable tokens; a request with a token passes exactly when the token is accepted, and only then are user, organisation and role written |
| `Sessions.PresentedExactly` | src/auth/jwt-auth.guard.ts:26-28 | a header that starts with `Bearer ` presents what follows, otherwise the cookie counts |
| `Sessions.AcceptsExactly` | src/auth/jwt-auth.guard.ts:46-58 | the five conditions under which the guard accepts a token, by the columns of the user |
| `Mask.MaskSensitiveData` | src/modules/audit/audit.service.ts:312-336 | the recursive loop that fills `masked` computes the masking function on every tree of objects with distinct keys |
| `Mask.MaskedExactly` | src/modules/audit/audit.service.ts:310-336 | what is shown of every object: `[REDACTED]` for each of the eight names in any case, only name and presence for a change of such a field, the masked value for the rest |
| `Mask.MaskingHidesExactly` | src/modules/audit/audit.service.ts:312-336 | two values are masked alike exactly when they are equal but for what lies under sensitive keys and inside sensitive change entries |
| `Mask.MaskingCleans` | src/modules/audit/audit.service.ts:310-336 | masked data holds only the redaction mark under every sensitive key at any depth, and clean data is exactly what masking leaves alone |
| `Mask.MaskingIdempotent` | src/modules/audit/audit.service.ts:312-336 | masking twice is masking once |
| `Mask.RowsAlike` | src/modules/audit/audit.service.ts:212-235 | two audit rows are shown alike exactly when their changes and the rest of their metadata are equal but for the secrets |
| `Mask.RowExactly` | src/modules/audit/audit.service.ts:212-235 | what a row shows, property by property: its changes if they are a list, and all other properties if it has any, masked |
| `RateLimit.RateLimitGuard.Increment` | src/common/guards/rate-limit.guard.ts:75-82 | counts one request under its key, opening a window when none is running, and touches no other key |
| `RateLimit.RateLimitGuard.CanActivate` | src/common/guards/rate-limit.guard.ts:31-45 | accepts exactly up to the limit, with the remaining count and the waiting time |
| `RateLimit.ReplyExactly` | src/common/guards/rate-limit.guard.ts:31-45 | a request is accepted exactly while its window's count is within the limit; then the remaining requests and the count make up the limit; the time is the rest of the window in whole seconds |
| `RateLimit.WindowExactly` | src/common/guards/rate-limit.guard.ts:75-82 | a request opens its key's window, for the policy's seconds, if none is running, and otherwise adds one to its count; no other key is touched |
| `RateLimit.RateBound` | src/common/guards/rate-limit.guard.ts:27-45 | over every run of the guard and any interval of length T at most limit * (1 + T/W) of its replies accept a request of a key if W divides T, and limit * (2 + floor(T/W)) - 1 otherwise |
| `RateLimit.MostInWindows` | src/common/guards/rate-limit.guard.ts:75-82 | that bound is at most limit * (floor(T/W) + 2) |
| `RateLimit.BoundIsMet` | src/common/guards/rate-limit.guard.ts:75-82 | for every policy and length there is a client whom exactly so many replies accept |
| `RateLimit.TtlIsEnough` | src/common/guards/rate-limit.guard.ts:79-82 | in every run the reported time is between 1 and W seconds, waiting it out is always enough, and a second less never reaches a new window |
| `Markers.Separate` | src/modules/ncnp-report/ncnp-report-pdf.ts:944-968 | the nested loops over the array compute the specified rounds |
| `Markers.Dodge` | src/modules/ncnp-report/ncnp-report-pdf.ts:949-964 | one pair is pushed in place and no other marker moves |
| `Markers.PushSeparates` | src/modules/ncnp-report/ncnp-report-pdf.ts:951-963 | a push leaves the pair exactly `minDist` apart if and only if the centres differ; coincident centres stay |
| `Markers.PushStretches` | src/modules/ncnp-report/ncnp-report-pdf.ts:955-962 | a push keeps the pair's middle and stretches the line between the centres in its direction |
| `Markers.RoundsBalanceAndSettle` | src/modules/ncnp-report/ncnp-report-pdf.ts:945-968 | any number of rounds keeps the sums of x and of y and every radius; leaving early means no two markers overlap; markers already apart are left alone |
| `Markers.SweepMoves` | src/modules/ncnp-report/ncnp-report-pdf.ts:946-967 | a round moves nothing exactly when all pairs are far enough apart |
| `Markers.TwoSettle` | src/modules/ncnp-report/ncnp-report-pdf.ts:945-968 | two overlapping markers settle, exactly `minDist` apart, if and only if their centres differ |
| `Markers.CoincidentNeverSettle` | src/modules/ncnp-report/ncnp-report-pdf.ts:952 | markers with one centre never move and never settle |
| `Evidence.StepKeeps` | src/modules/evidence/evidence.service.ts:82-118 | every atomic step of uploads, removals and deletions of Needs, failed or crashed, keeps the ownership invariant of files |
| `Evidence.EvidenceOnDisk` | src/modules/evidence/evidence.service.ts:82-197 | at every point of every run each row's file is on disk with the content that was hashed, and no two rows share a file |
| `Evidence.StartsExactly` | src/modules/evidence/evidence.service.ts:47-55 | in any interleaving an upload is admitted exactly if the Need's own rows and the new files are ten at most and its evidence may be changed; a removal takes its row away exactly if that may be |
| `Evidence.FlagsExact` | src/modules/evidence/evidence.service.ts:67-91 | whatever other requests do, an upload flags a file exactly when its hash was stored for the Need when the hashes were read, or occurs earlier in the batch |
| `Evidence.FlagsMean` | src/modules/evidence/evidence.service.ts:57-87 | in the same runs, by the columns of the rows: a file is flagged exactly if a row of the Need itself has its hash, or an earlier file of the batch does |
| `Evidence.OwnRowsDecide` | src/modules/evidence/evidence.service.ts:57-64 | tables with the same rows of a Need give the same flags and the same count for it, whatever other Needs have |
| `Evidence.StrayExactly` | src/modules/evidence/evidence.service.ts:114-117 | in any run a file belongs to nobody exactly if it did before or a step left it: a partial save, a failed removal, a crash or the deletion of its Need |
| `Evidence.StoresAgree` | src/modules/evidence/evidence.service.ts:82-118 | once all requests are over, the disk holds the rows' files and exactly the files left so; it holds the rows' files alone if and only if there are none |
| `Evidence.CleanRunsAgree` | src/modules/evidence/evidence.service.ts:114-117 | without partial saves, failed removals, crashes and deleted Needs it holds the rows' files alone |
| `Evidence.RemoveNeedsStrays` | prisma/schema.prisma:779-780 | deleting Needs, one or all those of a study, leaves exactly the files of their evidence rows to nobody |
| `Evidence.DeletedNeedsLeave` | src/modules/needs/needs.service.ts:281-292 | those files stay on disk in every continuation and no row ever has them |
| `Evidence.DeletedStayEmpty` | prisma/schema.prisma:779 | a deleted Need never has evidence again, even if an upload to it was under way |
| `Evidence.HalfSaveStays` | src/modules/evidence/evidence.service.ts:86-92 | from any state at rest an upload whose save fails after writing leaves its file, with the rows unchanged and no removal pending, in every continuation |
| `Evidence.HalfSaveExample` | src/modules/evidence/evidence.storage.service.ts:84-91 | one such run, from empty stores |
| `Evidence.OrphanForever` | src/modules/evidence/evidence.service.ts:115 | a file that nobody answers for stays in every continuation and never belongs to a row |
| `EvidenceServices.EvidenceService.SaveAll` | src/modules/evidence/evidence.service.ts:86-92 | the loop saves files up to the first failure and flags exactly the duplicates |
| `EvidenceServices.EvidenceService.RollBack` | src/modules/evidence/evidence.service.ts:115 | removes exactly the saved files, except those that cannot be removed |
| `EvidenceServices.EvidenceService.Store` | src/modules/evidence/evidence.service.ts:82-118 | either every file has its row, or the rows are unchanged and the disk is exactly what it was with the stuck and half-written files added; the `committed` flag decides |
| `EvidenceServices.EvidenceService.Upload` | src/modules/evidence/evidence.service.ts:22-118 | the first failing check or step decides the error; file i is flagged exactly when its hash is stored for the Need or occurs earlier in the batch; a refused upload changes nothing, a failed one leaves exactly what remains |
| `EvidenceServices.FailsExactly` | src/modules/evidence/evidence.service.ts:22-55 | which check or step decides the error, by the columns: only the Need's own rows count towards its limit of ten |
| `EvidenceServices.StoredRows` | src/modules/evidence/evidence.service.ts:92-103 | the rows of a stored batch: those from before, and a new one of the Need for each file, with its key and hash |
| `EvidenceServices.EvidenceService.Remove` | src/modules/evidence/evidence.service.ts:178-197 | deletes the row and then its file, or changes nothing |
| `EvidenceServices.NothingLeft` | src/modules/evidence/evidence.service.ts:115 | a failed upload leaves the disk as it was if and only if no file saved before the failure is stuck and the failing save wrote nothing |
| `EvidenceServices.LimitKept` | src/modules/evidence/evidence.service.ts:53-61 | the rows of a Need grow by exactly the batch, so the checked limit holds afterwards |
| `EvidenceRuns.UploadIsRun` | src/modules/evidence/evidence.service.ts:22-118 | an undisturbed upload, failing or not, is a run of the machine's steps to the state its method promises |
| `ReportFolds.MergeLastActivity` | src/modules/ncnp-report/ncnp-report.service.ts:495-510 | each listed organisation has its latest date, or none if it has no dated entry |
| `ReportFolds.MergeUnique` | src/modules/ncnp-report/ncnp-report.service.ts:157-162 | the result depends only on which entries there are, not on sources, order or repetition |
| `ReportFolds.LatestByVillage` | src/modules/ncnp-report/ncnp-report.service.ts:757-761 | the loop keeps the first row of each named village |
| `ReportFolds.LatestExactly` | src/modules/ncnp-report/ncnp-report.service.ts:757-761 | these are the rows at the first place of each named village, in the sample's order |
| `ReportFolds.LatestRowsCount` | src/modules/ncnp-report/ncnp-report.service.ts:757-761 | there is one such row for each distinct named village |
| `ReportFolds.ByStatus` | src/modules/ncnp-report/ncnp-report.service.ts:762-768 | each status that occurs has one entry with its number of rows, greatest first, and the entries add up to the rows |
| `ReportFolds.CountExactly` | src/modules/ncnp-report/ncnp-report.service.ts:762-768 | a count is the number of the rows with the status |
| `ReportFolds.BuildPriorityOverview` | src/modules/ncnp-report/ncnp-report.service.ts:727-820 | the status counts add up to the distinct named villages, and the top list is the ascending prefix of those same rows with no better row left out |
| `Ranking.SortByOk` | src/modules/ncnp-report/ncnp-report.service.ts:816 | sorting rearranges, orders, and keeps the order of equals |
| `Ranking.TopIsTop` | src/modules/ncnp-report/ncnp-report.service.ts:816-817 | a slice of the sorted rows holds the best ones, as many as the limit allows |
| `ReportFolds.BestAssessmentByNeed` | src/modules/ncnp-report/ncnp-report.service.ts:1155-1163 | each Need that occurs gets its first consolidated row, or its first row if none is consolidated |
| `ReportFolds.ChosenUnique` | src/modules/ncnp-report/ncnp-report.service.ts:1151-1154 | that description fits only one row |
| `ReportFolds.AreasByNeed` | src/modules/ncnp-report/ncnp-report.service.ts:962-967 | the gathered list of a Need holds each area as often as it is linked |
| `ReportFolds.SurveysByArea` | src/modules/ncnp-report/ncnp-report.service.ts:975-984 | an area's count is the number of pairs of a survey and a link of its Need to the area |
| `ReportFolds.PairExactly` | src/modules/ncnp-report/ncnp-report.service.ts:975-984 | that number, as the size of the set of those pairs |
| `ReportFolds.LinkExactly` | src/modules/ncnp-report/ncnp-report.service.ts:962-967 | the links of a Need to an area, counted with their repetitions |

## Left out

- Unicode: full case mapping and the order of strings outside the Basic Multilingual Plane; characters are compared by code point and casing is a parameter.
- Survey links: whether a link is active or expired is decided before the modelled operations begin; a link that is not found has no events.
- SubmitResponse: the rest of the response (name, gender, geography, answers) is not modelled; of the answers only which questions they belong to.
- HTTP, cookies, Redis, Prisma, row-level security, mail and SMS delivery, audit entries and automatic AI classification.
- ParseCsvNeeds: decoding of bytes; the row numbers count the rows that are left after blank ones are dropped, as in the code.
- Excel, PDF and survey documents as import sources.
- The conditional-rule reconciliation of scripts/extract-methodology-v5.py and the script's other passes.
- Concurrent logins and concurrent reset requests: the counters and tokens are read and then written without a guard, so their properties are stated for operations one after another.
- A transaction whose commit succeeds but is reported as failed.
- Deletion of Needs in the citizen machine: a deleted Need takes its survey links, challenges and responses with it; nothing is deleted there.
- Deletion of Needs in the evidence machine: whether the Needs may be deleted (src/modules/needs/needs.types.ts:142-146, src/modules/studies/studies.service.ts:450-458) is given with the event.
- SessionLasts: a token's own expiry (src/auth/token.service.ts) is not modelled; "exactly" is about tokens that have not expired.
- SuspensionPasses: likewise without expiry, so the token is accepted again only while it has not expired.
- Evidence limit under concurrent uploads: the count is read before the rows are created, so the limit is stated for one upload at a time.
- MapRow: metadata that is an array is treated like an object without entries.
- MaskSensitiveData: an own property named `__proto__` is excluded, because JavaScript's assignment of it sets a prototype instead of adding a property.
- User deletion (src/modules/users/users.service.ts:131): accounts are never removed, and with them no reset token is.
- ReissuePassword: whether a user may be sent a new temporary password is decided elsewhere; the operation is allowed at any time.
- Separate: floating-point rounding; the square root and all arithmetic are exact.
- CanActivate: the shared counter in Redis; only the local counter is modelled, and a window lasts at least one second.
- BuildPriorityOverview: the comparison of domains, and scores that are not numbers.
- BestAssessmentByNeed: the rest of the critical-needs table, which reads one row for each chosen assessment.
- Review of reports, scoring, roll-up, role matrix, seeds and drawing: easy or foreign.
