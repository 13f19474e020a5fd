# Email tracker: a Dafny model of its follow-up core

The email tracker helps payroll auditors follow up with the companies they
audit. It keeps a list of companies and the emails exchanged with each of
them. From that history it derives which companies are overdue for a reply,
counting only working days. It also ships a desktop helper that cuts a
"phase tracker" spreadsheet into one company list per tracer.

This project models the logic of that core and proves properties of it:

- `calendar.dfy` (module `Calendar`) covers the working-day calculator of
  `utils/date_utils.py`:
  - `_load_holidays`, modelled as a method;
  - the class `WorkingDayCalculator` with its two counting loops;
  - lemmas tying both loops to one recursive count of working days.
- `dashboard.dfy` (module `Dashboard`) covers the data logic of the auditor
  dashboard in `ui/auditor_dashboard.py`:
  - the per-company follow-up state (no contact yet, replied, awaiting a
    reply, due tomorrow, overdue);
  - the overview counters and the company cards;
  - the company search and the overdue report;
  - the masking of the configured mailbox address.
- `company_list.dfy` (module `CompanyList`) covers the company-list tab of
  the same file:
  - the "Add Company" form;
  - the header normaliser `norm` and the alias table;
  - the renaming and required-column check;
  - the import loop, which skips UIF references that are already known.
- `sync.dfy` (module `Sync`) covers the database side of
  `email_sync/sync_manager.py`:
  - the de-duplicated list of company addresses;
  - the internal-domain filter;
  - matching an email to a company;
  - `save_emails` over a `class EmailTable`, whose `rows` field is the
    `emails` table keyed by its unique message id.
- `phase_tracker.dfy` (module `PhaseTracker`) covers `run.py`:
  - column letters to indices and back;
  - the column mapping and its range check;
  - the `not started` status filter;
  - the output column order (`final_order`);
  - the cell text of the output columns;
  - `sanitize_filename` and the file name of each tracer's list.
- `common.dfy` (module `Common`) and `text.dfy` (module `Text`) hold shared
  helpers:
  - `Option`, counting and filtering over sequences;
  - Python's `str.strip`, `lower` and `upper` on ASCII text;
  - substring, prefix and suffix tests.

Representation choices:

- Timestamps are instants in whole seconds, already normalised to naive UTC.
- A day is the floor of an instant divided by 86400. Day 0, 1970-01-01, was
  a Thursday.
- The holiday registry is a list of years, each holding a list of day numbers.
- Spreadsheet cells are `Blank` or `Str(s)`.
- Anything read from outside is a parameter: the database, the clock, the
  JSON file, the spreadsheet, the settings table.

The docstring of `add_working_days` (utils/date_utils.py:60) says only that
it adds n working days to a date. Counting back with `working_days_between`,
which counts the start day and not the end day, does not always give n: it
gives n when `start` is itself a working day and n − 1 otherwise. Lemma
`Calendar.AddThenCountBetween` proves this of the code.

## Model

| member | source | states |
|---|---|---|
| Calendar.IsWorkingDay | utils/date_utils.py:28-39 | defined as: the date of the instant is Monday to Friday and is not a listed holiday |
| Calendar.CountWorkingDays | utils/date_utils.py:41-57 | defined as: the working days among start, start + 1 day, … strictly before end; the lemmas below tie it to both loops |
| Calendar.LoadHolidays | utils/date_utils.py:15-26 | a day is a holiday exactly when some year's list holds it; with no registry file there are no holidays |
| Calendar.WorkingDayCalculator.constructor | utils/date_utils.py:12-13 | the calculator's holiday set is exactly the registry's days, fixed at construction |
| Calendar.WorkingDayCalculator.WorkingDaysBetween | utils/date_utils.py:41-57 | the result is the number of working days (Monday to Friday and not a holiday) among start, start + 1 day, … strictly before end; it is 0 when start is after end |
| Calendar.CountWorkingDaysBounds | utils/date_utils.py:46-55 | the count is at most the number of loop iterations, and 0 when start is not before end |
| Calendar.CountIsCountOverVisited | utils/date_utils.py:50-55 | the count equals the number of visited instants that are working days |
| Calendar.WorkingDaysAreVisitedWorkingDays | utils/date_utils.py:28-57 | the count is the size of the set of k with start + k days before end and a working day |
| Calendar.CountExtend | utils/date_utils.py:52-55 | extending the range by one day adds one exactly when that day is a working day |
| Calendar.WorkingDayCalculator.AddWorkingDays | utils/date_utils.py:59-69 | for n ≤ 0 the start comes back; otherwise the result is a whole number of days after start, is a working day, and exactly n working days lie after start up to and including it |
| Calendar.NonWorkingStepDecreases | utils/date_utils.py:64-67 | stepping onto a weekend day or a holiday uses up a holiday or moves toward the end of the weekend, so the loop terminates |
| Calendar.AddThenCountBetween | utils/date_utils.py:41-69 | counting from start to `add_working_days(start, n)` gives n when start is a working day and n − 1 otherwise |
| Calendar.MondayToFridayIsFour | test_setup.py:89-93 | Monday 2025-01-06 to Friday 2025-01-10 counts four working days when none of them is a holiday |
| Dashboard.Classify | ui/auditor_dashboard.py:111-138 | defined as: no outgoing email means no contact yet; a reply after the latest outgoing email closes the follow-up; otherwise the working days since it are compared with the threshold (more is overdue, equal is due tomorrow) |
| Dashboard.Latest | ui/auditor_dashboard.py:111 | the latest time among a company's emails in one direction: none exactly when there is no such email, otherwise attained by one and not exceeded by any |
| Dashboard.RepliesAfterLatest | ui/auditor_dashboard.py:124-126 | no reply follows the latest outgoing email exactly when every incoming email of the company is no later than it |
| Dashboard.LatestOutgoingIff | ui/auditor_dashboard.py:111-126 | the follow-up is open exactly when the company's latest email is outgoing, and that email's time is the one counted from |
| Dashboard.OverdueIff | ui/auditor_dashboard.py:124-136 | a company counts as overdue exactly when its latest email is outgoing and more working days than the threshold have passed since it |
| Dashboard.DueTomorrowIff | ui/auditor_dashboard.py:124-138 | a company is due tomorrow exactly when its latest email is outgoing and the working days since it equal the threshold |
| Dashboard.OverviewThreshold | ui/auditor_dashboard.py:127-133 | the overview uses the stored integer, and 3 when the setting is missing or is not an integer |
| Dashboard.OverdueTabThreshold | ui/auditor_dashboard.py:785-787 | the overdue tab uses the stored integer or 3 when missing, and fails on a value that is not an integer |
| Dashboard.CompanyCounters | ui/auditor_dashboard.py:108-138 | for one company: whether it has been sent something and never answered, has been sent at least 10 emails, is overdue or is due tomorrow, never both of the last two |
| Dashboard.Overview | ui/auditor_dashboard.py:97-138 | total companies, outgoing emails dated today, and the numbers of companies overdue, due tomorrow, sent-but-never-answered and sent to at least 10 times, each as a count over the companies |
| Dashboard.OverviewCountsBounded | ui/auditor_dashboard.py:113-138 | overdue and due-tomorrow never outnumber the companies together; the zero-reply and high-volume counters only count companies that were sent something |
| Dashboard.SentTodayIsOutgoingToday | ui/auditor_dashboard.py:99 | the sent-today counter is the number of outgoing emails whose date is today's date |
| Dashboard.CardFor | ui/auditor_dashboard.py:245-275 | defined as: the company's identity columns, its outgoing count, the replies after its latest outgoing email, its last contact in either direction with the working days since, and the compliance flag at 10 sent emails |
| Dashboard.BuildCards | ui/auditor_dashboard.py:245-275 | one card per company of the view, in order, each built from that company's emails |
| Dashboard.CardLastContact | ui/auditor_dashboard.py:249-271 | last contact is the date of the company's latest email in either direction; it and the working-days column are blank exactly when the company has no email |
| Dashboard.CardReplies | ui/auditor_dashboard.py:251-255 | the replies column is non-zero exactly when the follow-up is closed by a reply, and 0 without an outgoing email; the compliance flag is raised at 10 sent emails; sent counts the company's outgoing emails |
| Dashboard.Search | ui/auditor_dashboard.py:225-239 | a blank query shows every company; otherwise it shows, in their order, exactly the companies with a UIF, trade name, email or alternative email containing the stripped query, ignoring case |
| Dashboard.SearchIgnoresQueryCase | ui/auditor_dashboard.py:225-230 | queries that differ only in letter case show the same companies |
| Dashboard.Reportable | ui/auditor_dashboard.py:820-846 | defined as: the company has a latest outgoing date that parses, no reply after it, and more working days than the threshold since it |
| Dashboard.OverdueReport | ui/auditor_dashboard.py:809-856 | the report lists, in company order, one row for each company whose latest outgoing date parses, that has no later reply, and where more working days than the threshold have passed |
| Dashboard.ReportEntry | ui/auditor_dashboard.py:810-856 | one company is listed exactly when it is reportable, and then its row holds its UIF, trade name, email, the date of its latest outgoing email and the working days since |
| Dashboard.ReportableIsOverdue | ui/auditor_dashboard.py:820-846 | a company is listed exactly when the overview counts it as overdue and its latest outgoing date parses; due-tomorrow companies are not listed |
| Dashboard.ReportMatchesOverview | ui/auditor_dashboard.py:809-856 | when every stored date parses, the report has as many rows as the overview's overdue counter, and every row's working days exceed the threshold |
| Dashboard.FirstIndex | ui/auditor_dashboard.py:636 | the position of the first '@': none exactly when there is no '@', otherwise an '@' with none before it |
| Dashboard.MaskEmail | ui/auditor_dashboard.py:634-637 | defined as: an address without '@' is kept; otherwise the local part before the first '@' becomes its first two characters (when longer than two) followed by '***', and the rest is kept |
| Dashboard.MaskHidesLocalPart | ui/auditor_dashboard.py:634-637 | an address without '@' is shown as it is; otherwise everything after the first '@' is kept and the local part shows at most its first two characters, none when it is at most two long |
| CompanyList.AddCompany | ui/auditor_dashboard.py:336-352 | defined as: required fields stripped; refused when one is empty; skipped when the lower-cased UIF equals a stored UIF lower-cased; otherwise added with the stripped fields and the alternative email as typed |
| CompanyList.AddCompanyNeverDuplicates | ui/auditor_dashboard.py:336-352 | the form refuses exactly when a stripped required field is empty; with all three filled it skips exactly when some stored UIF equals the stripped UIF ignoring case, and adds exactly when none does; an added company holds the stripped fields and a UIF no stored UIF equals |
| CompanyList.ReplaceNonWordRuns | ui/auditor_dashboard.py:471 | the shape of the result: it holds only A-Z, 0-9 and '_', never two '_' in a row, is empty only for empty input, and starts with '_' exactly when the input starts with another character |
| CompanyList.ReplaceNonWordRunsSplit | ui/auditor_dashboard.py:471 | a whole run of characters other than A-Z and 0-9, up to the next word character or the end, becomes one '_' |
| CompanyList.ReplaceNonWordRunsKeepsWords | ui/auditor_dashboard.py:471 | word characters are kept as they are; with the run lemma this fixes the result of every input |
| CompanyList.CollapseUnderscores | ui/auditor_dashboard.py:472 | the shape of the result: never two '_' in a row, no longer than the input, and starting with '_' exactly when the input does |
| CompanyList.CollapseUnderscoresSplit | ui/auditor_dashboard.py:472 | a whole run of '_', up to the next other character or the end, becomes one '_' |
| CompanyList.CollapseUnderscoresKeepsOthers | ui/auditor_dashboard.py:472 | characters other than '_' are kept as they are; with the run lemma this fixes the result of every input |
| CompanyList.StripUnderscores | ui/auditor_dashboard.py:472 | the shape of the result: no '_' at either end, keeping the other properties of the text |
| CompanyList.StripUnderscoresEnds | ui/auditor_dashboard.py:472 | exactly the runs of '_' at both ends are removed: a text that neither starts nor ends with '_', framed by runs of '_', comes back unchanged |
| CompanyList.Norm | ui/auditor_dashboard.py:469-473 | defined as: strip, upper-case, replace runs of other characters by '_', collapse runs of '_', strip '_' from both ends |
| CompanyList.NormJoinsWords | ui/auditor_dashboard.py:469-473 | two words of A-Z and 0-9 joined by any run of characters that are neither word characters nor lower-case letters normalise to the two words joined by one '_' |
| CompanyList.NormExample | ui/auditor_dashboard.py:469-473 | "TRADE - NAME" normalises to the alias key TRADE_NAME |
| CompanyList.NormShape | ui/auditor_dashboard.py:469-473 | a normalised header holds only A-Z, 0-9 and '_', never two '_' in a row, and no '_' at either end |
| CompanyList.DoubledUnderscoreAliasIsDead | ui/auditor_dashboard.py:478 | no header normalises to the alias key with a doubled '_' |
| CompanyList.RenamesWith | ui/auditor_dashboard.py:501-507 | the renaming map holds exactly the headers whose normalised form is an alias key, each mapped to that alias's target |
| CompanyList.HeaderRenames | ui/auditor_dashboard.py:475-507 | the same, with the dashboard's normaliser and its alias table |
| CompanyList.MissingRequiredIff | ui/auditor_dashboard.py:509-513 | after renaming, a required column is missing exactly when no header is an alias of it and no header already spelled as it lacks an alias |
| CompanyList.UifTextAsWritten | ui/auditor_dashboard.py:532 | defined as: the stripped text of the UIF cell, and "nan" for an empty cell |
| CompanyList.UifText | ui/auditor_dashboard.py:532 | defined as: the stripped text of the UIF cell, and "" for an empty cell |
| CompanyList.Imported | ui/auditor_dashboard.py:528-546 | defined as: the rows the loop sends to INSERT, in file order: those whose UIF is blank or whose key is neither stored nor seen earlier in the file |
| CompanyList.ImportResult | ui/auditor_dashboard.py:528-553 | defined as: the inserted rows and their number are committed when every one of them has a Trade Name and an Email (NOT NULL at data/db_manager.py:89-90); otherwise the import is rolled back |
| CompanyList.ImportCompanies | ui/auditor_dashboard.py:528-553 | the loop commits, in file order, the rows whose UIF is blank or whose key is neither stored nor seen earlier, with their number; an INSERT of a row without a Trade Name or an Email ends it with nothing stored |
| CompanyList.RollbackAt | ui/auditor_dashboard.py:536-552 | one row that is not skipped and lacks a Trade Name or an Email rolls the whole import back |
| CompanyList.ImportRollsBackIff | ui/auditor_dashboard.py:528-553 | the import is rolled back exactly when some row that is not skipped lacks a Trade Name or an Email |
| CompanyList.ImportedKeysAreNew | ui/auditor_dashboard.py:528-546 | no non-blank UIF key sent to INSERT was stored before, and no two such rows share one |
| CompanyList.ImportedCoversFile | ui/auditor_dashboard.py:531-546 | a committed import stores every row with a blank UIF, and every non-blank key of the file was stored already or is stored by some row |
| CompanyList.BlankUifRowsCollapseAsWritten | ui/auditor_dashboard.py:532-534 | as written, two rows with a Trade Name and an Email but empty UIF cells commit one company, stored with UIF "nan"; read as intended they commit two |
| Sync.CompanyEmails | email_sync/sync_manager.py:40-56 | the result holds each lower-cased non-empty email and alternative email of every company, and nothing else, each once |
| Sync.Distinct | email_sync/sync_manager.py:56 | the same elements without repetition |
| Sync.Domain | email_sync/sync_manager.py:164-165 | defined as: the text after the last '@', built from the end of the address; DomainShape states what it is |
| Sync.DomainShape | email_sync/sync_manager.py:164-165 | the domain holds no '@'; it is empty when the address has no '@', and otherwise it is the text after the address's last '@' |
| Sync.StripLeadingAtShape | email_sync/sync_manager.py:168-169 | the result is a suffix of the input, and everything removed in front of it is '@' |
| Sync.StripLeadingAt | email_sync/sync_manager.py:168-169 | the result does not start with '@' |
| Sync.Kept | email_sync/sync_manager.py:164-174 | defined as: an email is kept unless both its sender's and its recipient's domains end with a configured domain |
| Sync.FilterInternalDomains | email_sync/sync_manager.py:158-174 | the filter keeps, in order, exactly the emails whose sender and recipient domains are not both internal |
| Sync.FilterKeepsOrderAndDropsOnlyInternal | email_sync/sync_manager.py:158-174 | the kept emails are a subsequence of the input, and an email is dropped exactly when both of its domains end with a configured domain |
| Sync.NoInternalDomainsKeepsAll | email_sync/sync_manager.py:158-174 | with no internal domains configured, every email is kept |
| Sync.BlankInternalEntryDropsAll | email_sync/sync_manager.py:161-169 | a configured domain that is empty or only '@' makes every email internal, so all are dropped |
| Sync.SuffixMatchIgnoresLabels | email_sync/sync_manager.py:168-169 | any text in front of a configured domain still counts as internal: the test is a plain suffix test |
| Sync.LookupCompany | email_sync/sync_manager.py:85-99 | no company is found exactly when no email or alternative email equals the address, ignoring case; a found id belongs to such a company |
| Sync.CompanyOf | email_sync/sync_manager.py:113-123 | defined as: the id found for the sender of an incoming email or the recipient otherwise, with an id of 0 read as no company |
| Sync.CompanyOfFirstMatch | email_sync/sync_manager.py:113-123 | an email is matched on its sender when incoming and its recipient otherwise; it gets exactly the id of the first matching company when that id is non-zero, and is skipped when the id is 0 or no company matches |
| Sync.SaveOne | email_sync/sync_manager.py:113-143 | defined as: an email that belongs to a company and whose message id is new is stored under that company and counted; any other leaves the state as it is |
| Sync.SaveAll | email_sync/sync_manager.py:111-143 | defined as: the emails of the batch saved one after the other, in order |
| Sync.SaveKeepsStoredRows | email_sync/sync_manager.py:128-140 | saving never changes or removes a stored row |
| Sync.SavedCountsNewIds | email_sync/sync_manager.py:128-143 | the saved count is the number of new message ids in the table |
| Sync.SavedRowsAreMatched | email_sync/sync_manager.py:113-140 | every new row comes from an email of the batch with that message id, stored under the company that email belongs to |
| Sync.MatchedIdsAreStored | email_sync/sync_manager.py:113-140 | after saving, the message id of every email that belongs to a company is stored |
| Sync.SavedAtMostMatched | email_sync/sync_manager.py:119-143 | the saved count never exceeds the number of matched emails, nor the batch size |
| Sync.SaveAllNoOp | email_sync/sync_manager.py:128-143 | a batch whose matched message ids are all stored changes nothing and saves nothing |
| Sync.SaveAllTwiceSavesNothing | email_sync/sync_manager.py:101-156 | saving the same batch again saves nothing and leaves the table as it is |
| Sync.EmailTable.SaveEmails | email_sync/sync_manager.py:101-156 | the new table and the returned count are those of saving the batch in order: a matched email with a new message id is inserted and counted, every other email is skipped |
| PhaseTracker.ColLetterToIndex | run.py:21-29 | after stripping and upper-casing, anything but one or more letters A-Z is rejected; otherwise the index is the bijective base-26 value minus one |
| PhaseTracker.ColumnName | run.py:151-159 | the header the preview shows for column i is the letter string of value i + 1 |
| PhaseTracker.ValueOfLetters | run.py:154-158 | the letter string of a value reads back as that value |
| PhaseTracker.LettersOfValue | run.py:26-29 | the value of a letter string writes back as that string |
| PhaseTracker.IndexRoundTrip | run.py:21-29 | the preview's header for column i converts back to index i |
| PhaseTracker.LettersRoundTrip | run.py:23-29 | an accepted column letter converts to an index whose header is the stripped, upper-cased input |
| PhaseTracker.CleanLetters | run.py:23-24 | a string of letters A-Z is unchanged by stripping and upper-casing |
| PhaseTracker.ColumnIndexExamples | run.py:22 | A is 0, Z is 25 and AA is 26 |
| PhaseTracker.SingleLetterIndex | run.py:26-29 | a single letter's index is its distance from A |
| PhaseTracker.ResolveMapping | run.py:179-191 | each field is its stripped entry or its default when blank; the mapping fails exactly when some field is not a column letter, and otherwise holds each field's index |
| PhaseTracker.FieldColumn | run.py:181-188 | one field's column is `col_letter_to_index` of its stripped entry, or of its default when the entry is blank |
| PhaseTracker.DefaultMappingIndices | run.py:8-15 | with every entry empty or whitespace the columns are A, B, C, X, K and Q: indices 0, 1, 2, 23, 10 and 16 |
| PhaseTracker.MaxIndex | run.py:202 | the largest mapped index: no mapped index exceeds it and one equals it |
| PhaseTracker.ColumnsInRangeIff | run.py:200-205 | generation goes on exactly when every mapped column is inside the sheet |
| PhaseTracker.IsNotStarted | run.py:207 | defined as: stripped and lower-cased, the status starts with "not", ends with "started", and the text between strips to nothing, '_' or '-' |
| PhaseTracker.NotStartedMatches | run.py:207 | a status accepted by the one-pass test is matched by the pattern, split at its "not" and its "started" |
| PhaseTracker.MatchesAreNotStarted | run.py:207 | a status the pattern matches is accepted by the one-pass test |
| PhaseTracker.StatusFilterIff | run.py:207 | the status test accepts exactly the strings the pattern `^\s*not\s*[_ -]?\s*started\s*$` matches, ignoring case |
| PhaseTracker.NotStartedRowsKept | run.py:207-209 | the filter keeps, in order, exactly the rows whose status text matches the pattern; a row with an empty status cell is dropped |
| PhaseTracker.TemplateKnown | run.py:232-234 | the cleaned template headers kept (cleaned by `strip` in `final_order`) are all known columns |
| PhaseTracker.TemplateKnownIff | run.py:232-234 | a header is kept exactly when it is a known column and some template header cleans to it |
| PhaseTracker.FinalOrderSpec | run.py:222-243 | defined as: the template's known headers, cleaned by `strip`, then the known columns not among them; the known columns without a readable template |
| PhaseTracker.FinalOrder | run.py:222-243 | the order is the template's known headers in template order, then the known columns the template lacks; without a readable template, the known columns |
| PhaseTracker.AppendMissing | run.py:236-238 | each column not yet in the order is appended once, in its own order |
| PhaseTracker.FinalOrderSpecProperties | run.py:222-243 | every known column appears, nothing else does, and the template's known headers come first |
| PhaseTracker.RepeatedHeaderRepeats | run.py:232-234 | a template repeating a known header repeats that column in the order |
| PhaseTracker.OutputTextAsWritten | run.py:215-219 | defined as: the cell's text, and "nan" for an empty cell |
| PhaseTracker.OutputText | run.py:212-213 | defined as: the cell's text, and "" for an empty cell |
| PhaseTracker.EmptyCellsReadAsNan | run.py:212-219 | as written, an empty email or tracer cell becomes "nan"; read like the alternative email, it becomes "" |
| PhaseTracker.ReplaceForbiddenRuns | run.py:38 | the result holds no forbidden file-name character, and text without them is unchanged |
| PhaseTracker.ReplaceForbiddenRunsSplit | run.py:38 | a whole run of forbidden characters, up to the next allowed character or the end, becomes one '_' |
| PhaseTracker.ReplaceForbiddenRunsKeepsAllowed | run.py:38 | allowed characters are kept as they are; with the run lemma this fixes the result of every input |
| PhaseTracker.SanitizeFilename | run.py:32-42 | defined as: "Unknown" for no name; otherwise runs of forbidden characters become '_', the result is stripped, and an empty result becomes "Unknown" |
| PhaseTracker.SanitizedIsSafe | run.py:32-42 | a sanitised name is never empty, holds no forbidden character, has no whitespace at either end, and is "Unknown" for no name |
| PhaseTracker.SanitizeIdempotent | run.py:32-42 | sanitising a sanitised name changes nothing |
| PhaseTracker.SanitizeKeepsSafeName | run.py:32-42 | a non-empty name without forbidden characters or outer whitespace is kept as it is |
| PhaseTracker.SanitizeJoinsNames | run.py:32-42 | two such names joined by a run of forbidden characters come out joined by one '_' |
| PhaseTracker.SanitizeExample | run.py:32-42 | "Jane/Doe" is written as "Jane_Doe" |
| PhaseTracker.SanitizeUnknown | run.py:34-42 | "Unknown" is already a safe name |
| PhaseTracker.TracerNameAsWritten | run.py:219-251 | defined as: the tracer column's text as written, or "Unknown" when it is blank; an empty cell has already become "nan" |
| PhaseTracker.TracerName | run.py:247-251 | defined as: the tracer cell's text, or "Unknown" when it is empty or blank |
| PhaseTracker.EmptyTracerFileAsWritten | run.py:219-251 | as written, an empty tracer cell is named "nan"; as intended it is named "Unknown" |
| PhaseTracker.BlankTracerFile | run.py:249-253 | an empty or blank tracer writes "Unknown - Company List.xlsx" |
| PhaseTracker.TracerFileNameIsSafe | run.py:249-253 | every tracer's file is a safe, non-empty name followed by " - Company List.xlsx" |
| PhaseTracker.BlankAndUnknownShareAFile | run.py:247-253 | a blank tracer and the tracer "Unknown" write the same file |

## Left out

- Time zones and timestamp parsing are not modelled. Every instant is already naive UTC in whole seconds, and sub-second precision is dropped.
- Holidays are day numbers, not "%Y-%m-%d" strings. A registry string that is not exactly in zero-padded "%Y-%m-%d" form never matches any day, because the code compares text; such an entry ("2025-1-6", say) is dropped.
- Calendar.WorkingDayCalculator.constructor: reading data/holidays.json is replaced by the registry as a parameter. `None` means the file is absent, and a malformed file is not modelled.
- Dashboard.Overview: the threshold is one parameter for the whole pass. The source re-reads the setting for every company, which gives the same value unless the database changes during the loop.
- Dashboard.Overview: email dates that pandas cannot parse (NaT) are not modelled. Every email has an instant.
- Dashboard.OverdueReport: the SQL queries order and compare dates as stored text. The model assumes that order is time order.
- Dashboard.OverdueReport: `parses` stands for `_to_naive_utc` succeeding. The working days counted up to a reply are not modelled, because a company with a reply is never listed.
- Dashboard.BuildCards: the exception path of `days_since_contact` is left out, since counting working days between instants cannot fail. Card rendering, grid layout and the date format are left out.
- Dashboard.MaskEmail: loading the mailbox configuration is left out, and the address is a parameter.
- Sync.CompanyEmails: the source returns `list(set(...))`, whose order is unspecified. The model keeps first occurrences in table order.
- Sync.LookupCompany: the first matching row in table order is assumed, as `fetchone` without `ORDER BY` is not specified.
- Sync.EmailTable.SaveEmails: progress callbacks are left out, along with the `processed` counter, the `matched_companies` set and the per-email exception handler. None of them changes the table or the count. Dates are stored as instants, not ISO text.
- Direction strings other than 'incoming' and 'outgoing' are not modelled. An email is either `Incoming` or `Outgoing`.
- Text handling is ASCII only:
  - lower- and upper-casing, `strip`, `\s` and `IGNORECASE` follow Python only on ASCII characters;
  - Unicode case folding is not modelled;
  - the NFKD normalisation in `sanitize_filename` is the identity on ASCII text.
- CompanyList.ImportCompanies: cells are text or empty. Numeric cells, which `str()` renders as e.g. "123.0", are not modelled. Two headers renamed to the same target are not modelled either.
- CompanyList.ImportCompanies: a failed import is `RolledBack`; the error text the handler shows and the success message are not modelled.
- PhaseTracker.OutputText: numeric cells of the run.py output columns, which `astype(str)` renders as e.g. "123.0", are not modelled; cells are text or empty.
- CompanyList.ReplaceNonWordRuns: its own contract states the shape of the result only; what replaces what is stated by ReplaceNonWordRunsSplit and ReplaceNonWordRunsKeepsWords.
- CompanyList.CollapseUnderscores: its own contract states the shape of the result only; what replaces what is stated by CollapseUnderscoresSplit and CollapseUnderscoresKeepsOthers.
- CompanyList.StripUnderscores: its own contract states the shape of the result only; what is removed is stated by StripUnderscoresEnds.
- PhaseTracker.ReplaceForbiddenRuns: its own contract states the shape of the result only; what replaces what is stated by ReplaceForbiddenRunsSplit and ReplaceForbiddenRunsKeepsAllowed.
- Database, IMAP, encryption, Streamlit and Tk I/O are left out. Reading and writing spreadsheets is left out too, including grouping the rows by tracer and writing one file per group. The run.py preview text is left out apart from its column-letter loop.
- PhaseTracker.FinalOrder: a missing template file and one that cannot be read are both `None`.

## Findings

| source | as written | input that shows it | evidently intended | confidence | as-written member | corrected member |
|---|---|---|---|---|---|---|
| ui/auditor_dashboard.py:532 | `str(row.get('UIF Ref','') or '')` turns an empty cell, a truthy NaN, into "nan" | two imported rows with a Trade Name and an Email whose UIF cells are both empty: the second is skipped as a duplicate of "nan", and the first is stored with UIF "nan" | an empty UIF reads as '', so `if uif_val` lets every such row in | not executed | CompanyList.UifTextAsWritten, CompanyList.BlankUifRowsCollapseAsWritten | CompanyList.UifText, CompanyList.ImportCompanies, CompanyList.ImportedCoversFile |
| run.py:215-219 | `astype(str).fillna("")` converts an empty cell to "nan" before the fill, so the fill never applies | a kept row whose email and tracer cells are empty: its email is listed as "nan" and it is written to "nan - Company List.xlsx" | empty text, as the alternative email gets at lines 212-213, so an empty tracer falls under "Unknown" at line 251 | not executed; holds for pandas before 3.0, whose `astype(str)` turns a missing value into "nan" (pandas 3 keeps it missing) | PhaseTracker.OutputTextAsWritten, PhaseTracker.TracerNameAsWritten, PhaseTracker.EmptyCellsReadAsNan, PhaseTracker.EmptyTracerFileAsWritten | PhaseTracker.OutputText, PhaseTracker.TracerName, PhaseTracker.BlankTracerFile |
