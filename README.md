# Visitor check-in core, modelled in Dafny

This project models the core of a visitor-management web application. The
application runs at a site's gates and has these parts:

- **Registration.** Visitors register online, one at a time or as a group, or
  staff upload a spreadsheet of visitors. Each registration becomes an
  approved *request* that carries a unique code, and a group registration also
  carries a shared *group code*.
- **Scanning.** Guards scan a code at a gate. The scanner resolves the code to
  a request, a returning *visitor* or a group, and *toggles* each resolved
  visitor between checked in and checked out. It does this by appending
  entries to an append-only *visitor log*. Each entry carries a *visit
  session* id that pairs a check-in with its check-out.
- **Staff check-in.** Staff can check a request, or a whole group, in by hand.
  A same-day guard skips anyone who is already checked in today.
- **Accounts and forms.** The application also has account creation and
  profile editing (including two-factor login), the reset-password and login
  form validators, and the dashboard's visit-duration histogram.

The modules follow the program's files:

| module | file | models |
|---|---|---|
| `Seqs`, `Text` | `seqs.dfy`, `text.dfy` | The list and string operations the handlers rely on. These include Python's `str.strip`, ASCII upper- and lower-casing, and `rsplit('.', 1)`. |
| `Records` | `records.dfy` | The rows the handlers read and write. |
| `Database` | `database.dfy` | The store as one value (`Db`) and as a class with sequence fields (`Store`). It also holds the "newest log entry" query and the ledger invariant: session ids are never reused, and within one visitor a session is opened by one check-in and closed by at most one check-out. |
| `Scan` | `scan.dfy` | `scan_checkin` and `_process_single_visitor` (the gate scanner). |
| `Requests` | `requests.dfy` | `submit_request`, `direct_checkin`, `direct_checkin_group`, `multi_form_entry`, `upload_csv`, and the grouping and checked-in codes of `request_page`. |
| `Helpers` | `helpers.dfy` | `generate_unique_secure_code`, the session-based `login_required` decorator of `helpers.py`, `convert_to_ph_time`. |
| `Profile` | `profile.dfy` | `allowed_file`, `create_account`, `update_profile`. |
| `Forms` | `forms.dfy` | `ResetPasswordForm`, `ForgotPasswordForm`, `LoginForm`. |
| `DurationChart` | `duration_chart.dfy` | The filter description and the histogram of `fetchDurationChartData`. |

**How the handlers are modelled.**

- Each handler that changes the database is a method on a `Store` (or, for
  accounts, an `Accounts` object). It ensures that the new state and the reply
  equal a specification function of the old state, for example
  `(store.State(), resp) == ScanCheckinSpec(old(store.State()), …)`.
- The properties are proved as lemmas about those functions.
- The handlers' loops become `while`/`for` loops with invariants. These are the
  group scan, the staff group check-in, the multi-visitor form's row loop, the
  spreadsheet rows, the `defaultdict` grouping, the code-generation retry loop
  and the histogram's bin loop.

**Inputs the model takes as parameters.**

- The current user is a parameter (`Actor`).
- "Today in Asia/Manila" is an abstract day number.
- A `uuid4` session id is the store's next unused counter value.
- Random codes are a sequence of drawn values. A handler that saves each
  request before drawing the next code gets codes that are fresh and pairwise
  distinct, which is what the code generator is proved to deliver. The
  spreadsheet upload draws every row's code before any row is saved, so its
  codes are only assumed to be unused by stored requests. Two rows that draw
  the same code make the final commit fail (`Requests.UploadRepeatedCodeFails`).
- `secure_filename`, the TOTP secret, date formatting and the email-syntax
  check are function parameters.
- Log entries are appended in time order, so "newest by timestamp" is the last
  matching entry.

**Where the code and its design notes differ, the model follows the code.**

- **Scan priority.** `scan_checkin` looks up an approved request *before* a
  visitor's permanent code, then a group. It has no confirmation (modal) step.
  It never changes a request's status: nothing becomes "Completed".
- **No same-day rule at the scanner.** The toggle has no same-day condition. A
  check-out is made whenever the newest entry is a check-in, whatever its day.
  Only the staff handlers in `request.py` apply the same-day guard.
- **Check-out copies the visitor's current fields.** A check-out copies the
  visitor's *current* last purpose and destination, not those of the check-in
  it closes. The scanner records no address.
- **Group check-out toggles everyone.** A group check-out toggles every member.
  A member who was not checked in is therefore checked *in* while the reply
  says "Checked-Out" (`Scan.GroupCheckOutChecksInOthers`). A group check-in
  records the first member's approver.
- **Destination field.** The scanner writes `person_to_visit` and the staff
  handlers write `destination`. `app/models.py` has neither column. Both names
  are modelled as the one field `destination`.

## Model

| member | source | states |
|---|---|---|
| Text.Strip | app/routes/scan.py:23 | The stripped text is no longer than the input, and it neither starts nor ends with whitespace. |
| Text.StripIsTrim | app/routes/scan.py:23 | The stripped text is a slice of the input, and everything cut from either end is whitespace. |
| Text.UpperChar | app/routes/request.py:126 | `upper()` maps exactly the ASCII lower-case letters to their capitals and leaves every other character alone. |
| Text.Lower | app/routes/profile.py:15 | `lower()` keeps the length and lower-cases exactly the ASCII capitals. |
| Text.LastSegment | app/routes/profile.py:15 | `rsplit(sep, 1)[-1]` is a suffix of the text that holds no separator. |
| Text.LastSegmentSep | app/routes/profile.py:15 | That suffix is preceded by a separator, and it is the whole text exactly when the text holds no separator. |
| Records.StatusText | app/routes/scan.py:111-138 | The status strings: "Checked-In" exactly for a check-in, otherwise "Checked-Out". |
| Database.Latest | app/routes/scan.py:100 | The newest log entry for a visitor or a code matches it, and no later entry does. None means no entry matches. |
| Database.LatestAppend | app/routes/scan.py:140 | An appended entry becomes the newest for the keys it matches. Every other key keeps its newest entry. |
| Database.FindVisitor | app/routes/scan.py:30 | The visitor found by name and number has that name and number. None means no visitor has both. |
| Database.FindVisitorAppend | app/routes/scan.py:30-41 | Adding a visitor keeps the first match of every name and number that already had one. |
| Database.AppendCheckInKeeps | app/routes/scan.py:102-119 | A check-in under the next unused session id keeps the ledger invariant. |
| Database.AppendCheckOutKeeps | app/routes/scan.py:120-138 | A check-out of a checked-in visitor that reuses the session of that visitor's newest entry keeps the ledger invariant. |
| Database.AppendFreshCodes | app/models.py:18 | Adding requests whose codes are distinct and unused keeps `unique_code` unique. |
| Database.Store.AddVisitor | app/routes/scan.py:41 | Adding a visitor appends exactly that row, whose id is its position, and changes nothing else. |
| Database.Store.SetVisitor | app/routes/request.py:201-203 | Overwriting a visitor row in place changes only that row. |
| Database.Store.AddLog | app/routes/scan.py:140 | Adding a log entry appends exactly that entry and changes nothing else. |
| Database.Store.AddRequest | app/routes/request.py:160 | Adding a request appends exactly that request. |
| Database.Store.AddRequests | app/routes/request.py:392 | `add_all` appends the requests in order. |
| Database.Store.SetRequest | app/routes/request.py:326-327 | Overwriting a request changes only that row. |
| Database.Store.NewSessionId | app/routes/scan.py:103 | A new session id has never been issued before, and the next one differs from it. |
| Scan.HttpStatus | app/routes/scan.py:16-96 | The status is 200 exactly for a processed visitor or group, 401 exactly for the login reply, 400 exactly for a bad request and 404 exactly for an unrecognised code. |
| Scan.Toggle | app/routes/scan.py:99-145 | Exactly one entry is appended, and requests and visitors are unchanged. The entry is a check-out exactly when the visitor's newest entry is a check-in. A check-out reuses that entry's session and approver and records the actor as checking out. A check-in takes a fresh session id, records the actor and gate as checking in, and records the approver passed in. |
| Scan.ToggleKeepsSessions | app/routes/scan.py:102-138 | A toggle keeps the ledger invariant. A check-in's session id differs from every earlier entry's. |
| Scan.ToggleTwice | app/routes/scan.py:100-138 | Two toggles of one visitor alternate In and Out. A check-out after a check-in closes the same session with the same approver. |
| Scan.ProcessSingleVisitor | app/routes/scan.py:99-145 | The method's new store and reported action are those of `Toggle`. |
| Scan.Resolve | app/routes/scan.py:28-55 | A scanned code resolves, in fixed priority, to: (1) the first Approve-status request with that code; else (2) the first visitor with that QR code; else (3) the non-empty list of Approve-status requests with that group code, in order; else no match. Each case holds exactly when every earlier case fails. |
| Scan.VisitorFor | app/routes/scan.py:30-42 | An existing visitor with the request's name and number is used unchanged. Otherwise one visitor is appended with the scanned code as its QR code. Nothing else changes. |
| Scan.FindOrCreateVisitor | app/routes/scan.py:30-42 | The method's new store and visitor id are those of `VisitorFor`. |
| Scan.GroupVisitors | app/routes/scan.py:62-75 | Every member gets a visitor that matches its name and number. Visitors are only appended, and logs and requests are unchanged. |
| Scan.MemberCodes | app/routes/scan.py:75 | Each member's own request code is the code its toggle records. |
| Scan.ToggleAll | app/routes/scan.py:83-90 | A group toggle appends exactly one entry per member and leaves requests and visitors unchanged. |
| Scan.ToggleAllEntry | app/routes/scan.py:84-90 | The k-th entry appended belongs to the k-th member's visitor and records the k-th member's code. |
| Scan.Details | app/routes/scan.py:83-90 | There is one report line per member: "<name>: <outcome>". |
| Scan.ScanCode | app/routes/scan.py:28-96 | After a code is read, no request changes. The reply is 404 exactly when the code matches nothing, and then nothing changes. The reply is a group report exactly when the code resolves to a group, and then the store and reply are those of the group path. |
| Scan.ScanRequestCode | app/routes/scan.py:28-45 | A code of an Approve-status request toggles the visitor with the request's name and number, appending exactly one entry with that code. A check-in records the request's approver. |
| Scan.ScanVisitorCode | app/routes/scan.py:48-51 | A visitor's permanent QR code toggles that visitor, appending exactly one entry with that code. A check-in records no approver. |
| Scan.ScanCheckinSpec | app/routes/scan.py:15-96 | The reply is 401 exactly when nobody is logged in. For a logged-in user it is 400 exactly when the JSON is missing or empty or the stripped `qr_data` is blank. Otherwise the stripped code goes to `ScanCode`. A 401, a 400 or a 404 changes nothing, and no scan changes any request. |
| Scan.ScanCheckin | app/routes/scan.py:15-96 | The method's new store and reply are those of `ScanCheckinSpec`, and the store invariant is kept. |
| Scan.ProcessCode | app/routes/scan.py:28-96 | The method's new store and reply are those of `ScanCode`. |
| Scan.GroupMemberVisitors | app/routes/scan.py:62-79 | The method's first loop gives the visitors of `GroupVisitors`. `any_checked_in` is true exactly when some member's newest entry is a check-in. |
| Scan.ToggleMembers | app/routes/scan.py:83-90 | The method's second loop gives the store of `ToggleAll` and the report lines of `Details`. |
| Scan.ToggleAllKeeps | app/routes/scan.py:83-90 | A group toggle keeps the ledger invariant. |
| Scan.ScanCodeKeeps | app/routes/scan.py:28-96 | Processing any code keeps the ledger invariant. |
| Scan.ScanKeepsValid | app/routes/scan.py:15-96 | Every scan keeps the store invariant: unique request codes and a well-formed ledger. |
| Scan.ScanTwiceAlternates | app/routes/scan.py:28-51 | Scanning one request or visitor code twice appends two entries for one visitor with opposite statuses. After a check-in, the second scan closes the same session. |
| Scan.ToggleAllOthers | app/routes/scan.py:84-89 | A group toggle does not move the newest entry of a visitor outside the group. |
| Scan.ToggleAllStatus | app/routes/scan.py:83-90 | In a group toggle, a member seen for the first time is checked out exactly when it was checked in before the scan. |
| Scan.ToggleAllApprover | app/routes/scan.py:60-89 | When no member was checked in, every appended entry records the same approver, the one passed in. |
| Scan.GroupScanEffect | app/routes/scan.py:54-94 | The group path appends one entry per Approve-status member, in order, with that member's code and name. Every report line reads "Checked-Out" if any member was checked in and "Checked-In" otherwise. A group check-in records the first member's approver on every entry. |
| Scan.GroupCheckOutChecksInOthers | app/routes/scan.py:83-86 | As written, in a group check-out, a member who was not checked in gets a check-in entry, while that member's report line reads "Checked-Out". |
| Scan.GroupCheckInChecksInAll | app/routes/scan.py:87-90 | In a group check-in, every member seen for the first time gets a check-in entry and a "Checked-In" line. |
| Requests.MiddleInitial | app/routes/request.py:124-126 | The middle initial has at most one character. It is empty exactly when the stripped input is empty. |
| Requests.FullName | app/routes/request.py:126-127 | The full name is "First M. Last" with the upper-cased initial, or "First Last" when there is no initial. |
| Requests.SubmitPurpose | app/routes/request.py:139-141 | Purpose "Other" is replaced by `other_purpose`, even an empty one. Any other purpose is kept. |
| Requests.SubmitRequestSpec | app/routes/request.py:122-161 | Email is required exactly when it is blank and "no email" is not ticked. Otherwise the request is rejected exactly when a required field is blank. A rejection creates nothing. Success appends exactly one request and nothing else. |
| Requests.SubmittedRequestShape | app/routes/request.py:153-159 | A registered request has status Approve, no group and no approver, the drawn code, and all required fields filled. Its email is empty exactly when "no email" was ticked. |
| Requests.SubmitKeepsValid | app/routes/request.py:153-161 | Registering with a fresh code keeps the store invariant. |
| Requests.SubmitRequest | app/routes/request.py:122-176 | The method's new store and outcome are those of `SubmitRequestSpec`, and the store invariant is kept. |
| Requests.FindRequest | app/routes/request.py:183 | `get_or_404` finds a request with that id. None means no request has it. |
| Requests.CheckedInTodayAppend | app/routes/request.py:237 | A same-day check-in never undoes "checked in today", and it adds exactly its own code. |
| Requests.UpsertVisitor | app/routes/request.py:190-203 | The visitor matching the request's name and number is reused, or else appended from the request. Its last purpose, destination and address then come from the request, and no other visitor changes. |
| Requests.CheckInRequest | app/routes/request.py:190-221 | Exactly one check-in entry is appended, for today, under a fresh session. It has the request's code, purpose, destination and address, and the actor as checker and approver. |
| Requests.DirectCheckinSpec | app/routes/request.py:182-223 | An unknown id gives 404. A request whose code is checked in today is refused. In both cases nothing changes. Otherwise the request is checked in. |
| Requests.DirectCheckinTwice | app/routes/request.py:185-188 | A second direct check-in of one request on the same day changes nothing. |
| Requests.CheckInRequestKeeps | app/routes/request.py:205-222 | A staff check-in keeps the store invariant. |
| Requests.UpsertVisitorInStore | app/routes/request.py:190-203 | The method's new visitors are those of `UpsertVisitor`. |
| Requests.CheckInRequestInStore | app/routes/request.py:190-221 | The method's new store is that of `CheckInRequest`. |
| Requests.DirectCheckin | app/routes/request.py:182-226 | The method's new store and outcome are those of `DirectCheckinSpec`, and the store invariant is kept. |
| Requests.CheckInNext | app/routes/request.py:236-266 | One turn of the group loop skips a member checked in today and otherwise appends one entry and adds one to the count. |
| Requests.CheckInMembers | app/routes/request.py:235-266 | The loop's count equals the number of entries it appended, at most one per member, and requests are unchanged. |
| Requests.DirectCheckinGroupSpec | app/routes/request.py:232-269 | `checked_in_count` is the number of entries appended, at most the group's size. |
| Requests.CheckInMembersEntries | app/routes/request.py:255-265 | Every entry the group loop appends is a check-in for today by the actor. |
| Requests.CheckInNextIn | app/routes/request.py:236-266 | One turn of the loop keeps every code that is checked in today in that state, and checks in the member's own code. |
| Requests.CheckInMembersAllIn | app/routes/request.py:235-266 | After the group loop, every member is checked in today. |
| Requests.CheckInMembersIdle | app/routes/request.py:236-238 | When every member is already checked in today, the loop changes nothing and counts 0. |
| Requests.DirectCheckinGroupTwice | app/routes/request.py:233-268 | A second group check-in on the same day changes nothing and reports a count of 0. |
| Requests.CheckInMembersKeeps | app/routes/request.py:235-268 | The group loop keeps the store invariant. |
| Requests.DirectCheckinGroup | app/routes/request.py:232-272 | The method's new store and count are those of `DirectCheckinGroupSpec`, and the store invariant is kept. |
| Requests.RowPurpose | app/routes/request.py:296-299 | In the multi-visitor form, "Other" is replaced only by a non-empty `other_purpose`. |
| Requests.RowNameIsFullName | app/routes/request.py:289-311 | A complete row's name is composed exactly as `submit_request` composes it. |
| Requests.EntriesFrom | app/routes/request.py:285-321 | Reading rows only adds entries after those already read, at most one per row. |
| Requests.Entries | app/routes/request.py:285-321 | There are at most as many entries as rows. |
| Requests.EntriesStopAtBlank | app/routes/request.py:286-287 | Nothing at or after the first row with an empty first name is read. |
| Requests.EntriesComplete | app/routes/request.py:307-309 | Incomplete rows are skipped, so every entry read has all its required fields. |
| Requests.EntryRequests | app/routes/request.py:312-320 | There is one request per entry. |
| Requests.EntryRequestsAt | app/routes/request.py:312-320 | The k-th request is the k-th entry, with the next id and the k-th drawn code. |
| Requests.VisitorsData | app/routes/request.py:344-346 | `visitors_data` lists each created request's name and code, in order. |
| Requests.MultiGroupCode | app/routes/request.py:323-327 | A group code is drawn exactly when more than one request was created. |
| Requests.MultiFormSpec | app/routes/request.py:280-354 | With no valid entry nothing is created. Otherwise exactly the entries' requests are appended, with the group code and `visitors_data`. |
| Requests.MultiFormGroup | app/routes/request.py:323-328 | All requests of one submission are approved and share one group code, which exists exactly when there are at least two. |
| Requests.EntryRequestsKeep | app/routes/request.py:312-328 | Requests created with fresh codes keep codes unique. |
| Requests.ReadRow | app/routes/request.py:286-309 | The method returns the row's cleaned fields and whether all required fields are filled. |
| Requests.ReadRows | app/routes/request.py:285-321 | The `while True` loop yields exactly `Entries` and their requests, with no group yet. |
| Requests.SetGroupCode | app/routes/request.py:326-327 | The loop gives every created request the group code and changes nothing else. |
| Requests.MultiFormEntry | app/routes/request.py:280-354 | The method's new store and outcome are those of `MultiFormSpec`, and the store invariant is kept. |
| Requests.SheetNext | app/routes/request.py:380-390 | A spreadsheet row is skipped exactly when its Name is empty. Otherwise it appends one request. |
| Requests.SheetRequests | app/routes/request.py:379-390 | The k-th uploaded request has the next id and the k-th drawn code. It is approved, has a non-empty name and carries the one group token. |
| Requests.SheetRequestsCount | app/routes/request.py:379-390 | One request is created per row with a non-empty Name. |
| Requests.UploadCsvSpec | app/routes/request.py:361-401 | No file, a bad extension, an unreadable sheet and no valid row each change nothing, and are told apart in that order. A sheet whose requests repeat a code fails at the commit and changes nothing. Otherwise the upload appends exactly the sheet's requests and reports their number. |
| Requests.UploadRepeatedCodeFails | app/routes/request.py:379-398 | Two named rows that draw the same code make the whole upload fail, with nothing stored. |
| Requests.SheetRequestsFresh | app/routes/request.py:387-393 | Uploaded requests whose codes are unused and distinct among themselves keep codes unique. |
| Requests.CollectRows | app/routes/request.py:377-390 | The row loop yields exactly `SheetRequests`. |
| Requests.UploadCsv | app/routes/request.py:361-402 | The method's new store and outcome are those of `UploadCsvSpec`, and the store invariant is kept. |
| Requests.GroupOf | app/routes/request.py:60-65 | A group holds only requests filed under its key. It is empty exactly when no request has that key. |
| Requests.GroupOfPartition | app/routes/request.py:60-65 | Every request is filed under its group code, or "single-<id>" when it has none, and under no other key. |
| Requests.GroupKeysCover | app/routes/request.py:60-65 | The dictionary's keys are exactly the keys the requests are filed under. |
| Requests.GroupKeysDistinct | app/routes/request.py:60-65 | No key appears twice. |
| Requests.GroupKeysOrder | app/routes/request.py:60-65 | The keys are in first-appearance order: every request of a later group comes after some request of each earlier group. |
| Requests.GroupListGroups | app/routes/request.py:60-65 | The keys are distinct, each group is exactly the requests filed under its key and is non-empty, and every request's key has a group. |
| Requests.GroupIndex | app/routes/request.py:62-65 | The lookup finds a position holding the key, or reports that no position holds it. |
| Requests.GroupListJoin | app/routes/request.py:62-65 | A request whose key already has a group is appended to that group, and nothing else changes. |
| Requests.GroupListOpen | app/routes/request.py:62-65 | A request whose key has no group opens a new group at the end, holding only that request. |
| Requests.FileRequest | app/routes/request.py:61-65 | One pass of the loop turns the groups of the first i requests into those of the first i+1. |
| Requests.GroupRequests | app/routes/request.py:60-65 | The `defaultdict` loop builds exactly `GroupList`: the groups in first-appearance order. |
| Requests.CheckedInCodes | app/routes/request.py:53-58 | A listed code is marked checked in exactly when its newest entry is a check-in. |
| Helpers.CodeAlphabetChars | app/utils/helpers.py:19 | The alphabet has 36 characters, exactly the ASCII capitals and digits. |
| Helpers.Spell | app/utils/helpers.py:21 | A drawn code has one alphabet character per draw. |
| Helpers.CodeTakenIsCodes | app/utils/helpers.py:22 | The lookup finds a request exactly when the code is in use. |
| Helpers.FirstFreshCodeProperties | app/utils/helpers.py:18-23 | The code returned has the requested length, uses only capitals and digits, and is unused. The loop fails only when every draw collides. |
| Helpers.SpellCode | app/utils/helpers.py:21 | The join loop spells the draw. |
| Helpers.GenerateUniqueSecureCode | app/utils/helpers.py:18-23 | The retry loop returns the first drawn code that is not in use. It has the requested length and is unused. |
| Helpers.LoginRequired | app/utils/helpers.py:8-16 | The view runs exactly when the session holds `user_id`, and its result is returned. Otherwise the reply is a redirect with the login message. |
| Helpers.ConvertToPhTime | app/utils/helpers.py:25-28 | A missing time gives "N/A". Any other time gives its formatted text. |
| Profile.AllowedFileIff | app/routes/profile.py:12-15 | A filename is accepted exactly when it has a '.' followed by png, jpg, jpeg or gif, in any case, with no further '.'. |
| Profile.CreateAccountSpec | app/routes/profile.py:19-59 | The checks run in order: admin first, then blank fields, then a password mismatch, then a taken email, then a taken username. A rejection creates nothing. Success appends one account with the stripped name and email and the new password. Its role is the one chosen, or "user" when none is. Its gate role is the stripped gate role, or None when that is blank. Two-factor login is off, and it has no secret and no picture. |
| Profile.CreateKeepsUnique | app/routes/profile.py:40-57 | Account creation keeps emails and usernames unique. |
| Profile.UpdateProfileSpec | app/routes/profile.py:63-137 | The update is refused when nobody is logged in. It is refused for a changed email that another account holds, a changed username that is taken, or a mismatched new password, and a refusal changes nothing. Only the caller's account can change. |
| Profile.UpdateProfileFields | app/routes/profile.py:73-131 | A full update sets the username and email to the stripped form values. The picture becomes the secured file name when a file is sent and is kept otherwise. The role and id are kept. |
| Profile.UpdateProfilePassword | app/routes/profile.py:88-133 | The password hash changes only on a full update with a non-empty new password equal to its confirmation, which the account then accepts. |
| Profile.UpdateProfileTwoFactor | app/routes/profile.py:97-116 | Enabling two-factor login while it is off sets the secret and the flag, and returns before the name, email, password or picture change. Disabling it while it is on clears both. |
| Profile.UpdateProfileGateRole | app/routes/profile.py:93-94 | The gate role changes only to a non-empty value that was supplied, and an accepted submission with a non-blank gate role stores it. |
| Profile.UpdateKeepsUnique | app/routes/profile.py:79-135 | A profile update keeps emails and usernames unique. |
| Profile.Accounts.CreateAccount | app/routes/profile.py:19-59 | The method's new accounts and outcome are those of `CreateAccountSpec`, and uniqueness is kept. |
| Profile.Accounts.UpdateProfile | app/routes/profile.py:63-137 | The method's new accounts and outcome are those of `UpdateProfileSpec`, including the intermediate commits, and uniqueness is kept. |
| Forms.FirstLine | app/forms.py:15 | The text the pattern's `.+$` spans is the input, less at most one final newline. |
| Forms.PasswordErrors | app/forms.py:12-16 | A blank password gives only "required". Otherwise the length message appears exactly for fewer than 8 characters, and the policy message exactly when the pattern fails. |
| Forms.ConfirmErrors | app/forms.py:17-20 | The confirmation is accepted exactly when it is non-blank and equals the password. |
| Forms.ResetPasswordNeeds | app/forms.py:11-20 | An accepted new password has at least 8 characters, a capital and a digit, and equals its confirmation. |
| Forms.ResetPasswordSuffices | app/forms.py:11-20 | Conversely, a one-line password with those properties, confirmed, is accepted. |
| Forms.ForgotPasswordErrors | app/forms.py:7-9 | The email is accepted exactly when it is non-blank and well formed. |
| Forms.UserByEmail | app/forms.py:31 | The lookup finds the first account with that email. None means no account has it. |
| Forms.LoginEmailErrors | app/forms.py:24-33 | A blank email gives only "required". Otherwise "invalid" appears exactly for a malformed email, and "not registered" exactly when no account has it. |
| Forms.LoginPasswordErrors | app/forms.py:25-40 | "Incorrect password" appears exactly when an account has the email and rejects the non-blank password. Without an account, the password is not checked. |
| Forms.LoginAcceptedIff | app/forms.py:23-40 | A login is accepted exactly when the email is well formed and the first account with it accepts the non-blank password. |
| DurationChart.BinStarts | static/js/Chart/durationChart.js:38-41 | The loop yields the starts 0, 5, 10, …, each no greater than the largest duration, and stops at the first start above it. |
| DurationChart.BinCount | static/js/Chart/durationChart.js:36-41 | A number n of bins with 5(n-1) ≤ max < 5n is the number of bins the loop creates for that maximum. |
| DurationChart.MaxOf | static/js/Chart/durationChart.js:36 | `Math.max` is one of the durations and no smaller than any of them. |
| DurationChart.CountIn | static/js/Chart/durationChart.js:45 | A bin counts at most all durations. |
| DurationChart.BinsSound | static/js/Chart/durationChart.js:43-47 | Every kept bin has a positive count, starts at one of the starts, and counts exactly the durations d with start ≤ d < start+5. |
| DurationChart.BinsComplete | static/js/Chart/durationChart.js:43-47 | Every start whose bin counts a duration is kept. |
| DurationChart.BinsOrdered | static/js/Chart/durationChart.js:43-47 | Bins keep the increasing order of their starts. |
| DurationChart.BinsTotal | static/js/Chart/durationChart.js:39-47 | The kept bins' counts add up to the number of durations in [0, 5n). |
| DurationChart.Render | static/js/Chart/durationChart.js:43-46 | Each bar has the label "start-(start+5) min" and its bin's count. |
| DurationChart.RenderTotal | static/js/Chart/durationChart.js:46 | The bar heights add up to the bin counts. |
| DurationChart.DurationChartSpec | static/js/Chart/durationChart.js:30-47 | An empty list gives only the "No data" message. Otherwise a histogram is drawn whose every bar has y > 0. |
| DurationChart.HistogramOrdered | static/js/Chart/durationChart.js:38-47 | Bars come in strictly increasing start order. |
| DurationChart.HistogramStarts | static/js/Chart/durationChart.js:36-47 | Every bar starts at a multiple of 5 no greater than the largest duration. Every such start that counts a duration has a bar. |
| DurationChart.HistogramTotal | static/js/Chart/durationChart.js:39-47 | For non-negative durations, the bar heights add up to the number of durations. |
| DurationChart.DrawDurationChart | static/js/Chart/durationChart.js:30-47 | The method draws the chart of `DurationChartSpec`. |
| DurationChart.FilterDescription | static/js/Chart/durationChart.js:19-24 | The description is "Last N Days" when days are given, which includes "Last 7 Days" for "7". Otherwise it is the formatted date range when both dates are given, and "All Time" otherwise. |
| DurationChart.DurationFilter.constructor | static/js/Chart/durationChart.js:1 | The page starts with "Last 7 Days". |
| DurationChart.DurationFilter.SetDescription | static/js/Chart/durationChart.js:8-11 | The global becomes the given description. |
| DurationChart.DurationFilter.ApplyFilter | static/js/Chart/durationChart.js:18-25 | The global becomes the filter's description. |

## Left out

- Flask plumbing: routing, `render_template`, `flash` (outcomes are datatype values instead), redirects, CSRF and rate-limiter decorators, session cookies other than the `user_id` key.
- `socketio.emit` notifications and sending email (`send_visitor_qr_email`, `send_group_qr_email`): they are fire-and-forget I/O and do not change the modelled state.
- The `session[...]` values stored after a registration. `submit_request`'s outcome carries the code, name and email instead.
- `request_page`'s search, date filter, ordering and pagination are SQL queries. The model takes the listed page of requests as input, and models the `checked_in_codes` set and the grouping.
- The transaction boundaries (`commit`, `flush`, `commit=False`): each handler is modelled as one atomic step, except `update_profile`'s intermediate commits, which are kept.
- Concurrent scans racing on the same visitor.
- `uuid.uuid4()`: modelled as a counter that never repeats. `datetime.utcnow()` and the Manila-time conversion are modelled as the abstract day of each log entry.
- Helpers.GenerateUniqueSecureCode: the source draws forever until a code is free. The model draws from a finite list and returns None when every draw collides.
- `secrets.choice` and `secrets.token_urlsafe`: their draws are parameters.
- `pandas.read_csv`/`read_excel`: modelled as a sheet of optional text cells, or None when reading fails. A missing cell (NaN) is text "nan", as `str()` renders it. Numeric formatting is not modelled.
- `secure_filename`, `generate_totp_secret`, `get_totp_uri`, QR-code rendering and `formatDateStr` (`toLocaleDateString`) are function parameters or left out.
- Saving the uploaded picture to disk (`os.makedirs`, `file.save`). Only the stored filename is modelled.
- Password hashing is symbolic (`Hashed(password)`), so `check_password` is equality of the stored password.
- Character classes are ASCII only: `\d`, `str.upper()` and `str.lower()` on non-ASCII letters and digits are not modelled.
- WTForms' `Email()` validator is a parameter (`isEmail`), because its syntax rules live in the `email_validator` package.
- `update_profile`'s `if not user` branch is not modelled, because an authenticated `current_user` is never falsy.
- The Flask-Login `login_required` gate on `request_page`, `direct_checkin` and `direct_checkin_group` (app/routes/request.py:5, 21, 181, 231) is not modelled. It checks `current_user.is_authenticated` and redirects to the login view. These handlers take an authenticated actor as a parameter. `Helpers.LoginRequired` models a different decorator, the session-based one of app/utils/helpers.py:8-16.
- The scan handler's crashes on malformed input are not modelled: a JSON body that is truthy but not an object, or a `qr_data` value that is not a string, raises in app/routes/scan.py:23 and gives an HTTP 500. The payload type holds only a missing body or a string map, so it cannot express these inputs.
- `Math.round` of float minutes and ApexCharts rendering: the histogram takes the rounded integer durations.
- Profile.CreateAccountSpec: states a taken email or username as an implication. Which of the two is reported, when both are taken, follows from the check order in the body.
- Profile.UpdateProfileSpec: states the username and password refusals as implications, not as exact conditions. The other outcomes are exact.
- DurationChart.CountIn: its own contract gives only a bound. Its meaning is stated by `CountInSplit`, `CountInAll` and `DurationChart.BinsSound`.
- `app/models.py` is stale: it has no `Visitor` class and no session, destination, approver or gate columns. The records follow the fields the handlers read and write.
