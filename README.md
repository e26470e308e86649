# AirlineManager core, modelled in Dafny

AirlineManager is an ASP.NET Core airline administration site. This project models the
following parts of it and proves properties about them:

- the configuration store and the services that read it: password policy, account
  lockout, password expiration, data retention and theme;
- sessions and login history;
- the maintenance-mode and forced-password-change request gates;
- the administrator's maintenance, users and logs controllers;
- the account controller's two-factor, lockout and password-change paths;
- the role hierarchy and the role seeding of the start-up code;
- the deletion of a user, with the cascading and restricting foreign keys of the schema.

The database is one object, `DbContext.ApplicationDbContext`, with one field per table.
Its `Valid()` predicate holds the schema's integrity rules:

- configuration keys are unique;
- session ids are unique;
- every user is stored under their own id;
- every session, login-history row and audit row points at an existing user.

Each service method that writes the database changes only the fields its `modifies`
clause names. Its `ensures` gives the new table as a function of the old one. Lemmas
prove what the service promises about that function.

Time is a whole number of seconds supplied as a `now` parameter. Code that is not part
of this model is passed in as a function parameter and is never called directly:

- the AES encryption of configuration values (`Cipher`);
- the user-agent parser;
- the TOTP verifier;
- the recovery-code generator;
- the URL encoder;
- the date formatting of the log export.

Modules:

- `Wrappers`, `Text`, `Collections` and `Domain` hold shared definitions: options and
  results, .NET string functions, filters and sorts over tables, and the entity records.
- `DbContext` holds the database object.
- Each remaining module models one source file, and is named after it.

## Model

| member | source | states |
|---|---|---|
| ConfigurationService.FindConfig | AirlineManager.Services/ConfigurationService.cs:31-32 | None exactly when no row has the key; otherwise the index of the first row with the key |
| ConfigurationService.GetValue | AirlineManager.Services/ConfigurationService.cs:29-49 | a missing key reads as null; with unique keys the row's value is returned, decrypted when it is encrypted and non-empty, and null when decryption fails |
| ConfigurationService.GetInt | AirlineManager.Services/ConfigurationService.cs:51-64 | a missing or empty value reads as null; any other value reads exactly as the integer conversion of the stored text, so any integer returned fits in 32 bits |
| ConfigurationService.GetBool | AirlineManager.Services/ConfigurationService.cs:51-64 | a missing or empty value reads as null; any other value reads exactly as the boolean conversion of the stored text |
| ConfigurationService.InCategory | AirlineManager.Services/ConfigurationService.cs:68-70 | the rows returned are exactly the table's rows of the category |
| ConfigurationService.Collect | AirlineManager.Services/ConfigurationService.cs:74-91 | the dictionary has a key for every row and no key that no row has |
| ConfigurationService.GetCategory | AirlineManager.Services/ConfigurationService.cs:66-94 | the loop builds the dictionary of the category's rows, each value decrypted or "" on failure |
| ConfigurationService.CategoryMapKeys | AirlineManager.Services/ConfigurationService.cs:66-94 | a key is in the category dictionary exactly when some row of the category has it |
| ConfigurationService.CollectValue | AirlineManager.Services/ConfigurationService.cs:90 | with unique keys each row's key maps to that row's own value |
| ConfigurationService.InCategoryUnique | AirlineManager.Services/ConfigurationService.cs:68-70 | filtering a table with unique keys keeps the keys unique |
| ConfigurationService.CategoryMapValue | AirlineManager.Services/ConfigurationService.cs:76-90 | with unique keys each row of the category appears with its plain value, or "" when decryption fails |
| ConfigurationService.Assigned | AirlineManager.Services/ConfigurationService.cs:96-116 | KeyNotFound exactly when no row has the key; otherwise only the key's row changes: its value reads back as the new value, its modification time is now and its author is the caller or "System"; key, category, encryption flag and description are kept |
| ConfigurationService.SetValue | AirlineManager.Services/ConfigurationService.cs:96-116 | the table becomes the assignment's result, or is unchanged with KeyNotFound; the keys stay unique |
| ConfigurationService.AssignedKeepsKeys | AirlineManager.Services/ConfigurationService.cs:111-113 | writing a value keeps the keys unique |
| ConfigurationService.SetThenGet | AirlineManager.Services/ConfigurationService.cs:96-116 | after a successful write, reading the key gives back the value written, encrypted rows included |
| ConfigurationService.SetKeepsOtherKeys | AirlineManager.Services/ConfigurationService.cs:98-113 | a write leaves the reading of every other key unchanged |
| ConfigurationService.SetIntThenGetInt | AirlineManager.Services/ConfigurationService.cs:51-64 | writing the decimal text of a 32-bit integer makes the typed read return that integer |
| ConfigurationService.SetBoolThenGetBool | AirlineManager.Services/ConfigurationService.cs:51-64 | writing "true" or "false" makes the typed read return that boolean |
| Text.ParseInt | AirlineManager.Services/ConfigurationService.cs:58 | a conversion to int succeeds only with a value that fits in 32 bits; `ParseIntAccepts` and `ParseIntOnlyLayout` give the texts it accepts |
| Text.DigitsValueOfFormat | AirlineManager.Services/ConfigurationService.cs:58 | the digits of a natural number read back as that number |
| Text.ParseFormatInt | AirlineManager.Services/ConfigurationService.cs:58 | the decimal text of a 32-bit integer converts back to that integer |
| Text.ParseBoolLiterals | AirlineManager.Services/ConfigurationService.cs:58 | "true" and "false", the lower-cased texts of the two booleans, read back as those booleans |
| Text.TrimStart | AirlineManager.Services/ConfigurationService.cs:58 | the result is no longer than the text and does not start with a trimmed character; `TrimStartSplit` and `TrimStartAfter` show that only a leading run of trimmed characters goes |
| Text.TrimEnd | AirlineManager.Services/ConfigurationService.cs:58 | the result is no longer than the text and does not end with a trimmed character; `TrimEndSplit` and `TrimEndBefore` show that only a trailing run of trimmed characters goes |
| Text.TrimNoop | AirlineManager.Services/ConfigurationService.cs:58 | text that neither starts nor ends with a trimmed character is its own trimmed form |
| Text.TrimStartSplit | AirlineManager.Services/ConfigurationService.cs:58 | every text is a run of trimmed characters followed by its left-trimmed form |
| Text.TrimEndSplit | AirlineManager.Services/ConfigurationService.cs:58 | every text is its right-trimmed form followed by a run of trimmed characters |
| Text.TrimStartAfter | AirlineManager.Services/ConfigurationService.cs:58 | a run of trimmed characters before text that does not start with one is exactly what the left trim removes |
| Text.TrimEndBefore | AirlineManager.Services/ConfigurationService.cs:58 | a run of trimmed characters after text that does not end with one is exactly what the right trim removes |
| Text.NumberTextOf | AirlineManager.Services/ConfigurationService.cs:58 | number white space in front, and null characters then number white space behind, are stripped from around a number and nothing of the number goes |
| Text.ReadSignedOf | AirlineManager.Services/ConfigurationService.cs:58 | an optional sign followed by digits reads as its signed value when that fits 32 bits, and fails otherwise |
| Text.ParseIntAccepts | AirlineManager.Services/ConfigurationService.cs:58 | number white space, an optional sign, digits, number white space and null characters read as the signed value when it fits 32 bits, and fail otherwise |
| Text.SplitNumberText | AirlineManager.Services/ConfigurationService.cs:58 | every text is leading number white space, its number text, trailing number white space and trailing null characters |
| Text.SplitSigned | AirlineManager.Services/ConfigurationService.cs:58 | a number text that reads is an optional sign followed by at least one digit, and reads as their signed value |
| Text.ParseIntOnlyLayout | AirlineManager.Services/ConfigurationService.cs:58 | every text the conversion accepts has that five-part layout and reads as its signed value |
| Text.ParseBool | AirlineManager.Services/ConfigurationService.cs:58 | white space and null characters trimmed from both ends, then "true" or "false" in any letter case; `ParseBoolAccepts` and `ParseBoolOnlyLayout` give exactly the texts it accepts |
| Text.ParseBoolAccepts | AirlineManager.Services/ConfigurationService.cs:58 | a literal in any letter case between runs of white space and null characters reads as that literal |
| Text.ParseBoolOnlyLayout | AirlineManager.Services/ConfigurationService.cs:58 | every text the boolean conversion accepts has that layout and reads as the literal it holds |
| Text.ToLower | AirlineManager.Middleware/MaintenanceModeMiddleware.cs:36 | same length, each character lower-cased |
| Text.ToLowerIdempotent | AirlineManager.Services/Implementations/ThemeService.cs:116 | lower-casing twice is lower-casing once |
| Text.ToUpper | AirlineManager.Middleware/RequirePasswordChangeMiddleware.cs:29-37 | same length, each character upper-cased, the basis of the case-insensitive prefix test |
| Text.StartsWithAppend | AirlineManager.Middleware/MaintenanceModeMiddleware.cs:39-45 | a text starts with any prefix it was built from |
| Text.RemoveChar | AirlineManager/Controllers/AccountController.cs:156 | the character no longer occurs, every other character keeps its count, and nothing new appears |
| Text.RemoveCharAbsent | AirlineManager/Controllers/AccountController.cs:156 | removing a character that does not occur changes nothing |
| Text.RemoveCharAppend | AirlineManager/Controllers/AccountController.cs:156 | removal works piecewise over a concatenation, so the other characters keep their order |
| Text.ConcatMapAppend | AirlineManager/Areas/Admin/Controllers/LogsController.cs:147-156 | writing two lists of entries one after the other is writing their concatenation |
| PasswordPolicyService.PolicyDefaults | AirlineManager.Services/Implementations/PasswordPolicyService.cs:14-32 | with no readable setting the policy is digit, lower and upper case required, no special character, length 8, one unique character |
| PasswordPolicyService.GetPasswordPolicy | AirlineManager.Services/Implementations/PasswordPolicyService.cs:14-32 | each of the six settings is its stored value when it reads, and otherwise its default: digit, lower case and upper case required, no symbol, length 8, one unique character |
| PasswordPolicyService.SentenceRanks | AirlineManager.Services/Implementations/PasswordPolicyService.cs:39-64 | the six requirement sentences are told apart by their position in the list |
| PasswordPolicyService.PartRanks | AirlineManager.Services/Implementations/PasswordPolicyService.cs:39-64 | each conditional `Add` adds at most its own sentence |
| PasswordPolicyService.InSentences | AirlineManager.Services/Implementations/PasswordPolicyService.cs:37-66 | a sentence is listed exactly when its own `Add` ran |
| PasswordPolicyService.AppendPart | AirlineManager.Services/Implementations/PasswordPolicyService.cs:39-64 | each `Add` keeps the list in its fixed order |
| PasswordPolicyService.SentencesRanked | AirlineManager.Services/Implementations/PasswordPolicyService.cs:37-66 | the sentences always come in the order length, lower case, upper case, digit, special, unique |
| PasswordPolicyService.SentencesLength | AirlineManager.Services/Implementations/PasswordPolicyService.cs:39-64 | the length sentence comes first, then one sentence per requirement asked for, and no more |
| PasswordPolicyService.SentencesMembers | AirlineManager.Services/Implementations/PasswordPolicyService.cs:41-64 | each conditional sentence is listed if and only if its setting asks for it; the unique-characters one only above 1 |
| PasswordPolicyService.CharacterClassMembers | AirlineManager.Services/Implementations/PasswordPolicyService.cs:41-59 | the four character-class sentences are listed if and only if their flags are set |
| PasswordPolicyService.DefaultSentences | AirlineManager.Services/Implementations/PasswordPolicyService.cs:16-21 | the default policy lists the length of 8 and the lower case, upper case and digit sentences |
| PasswordPolicyService.GetPasswordRequirements | AirlineManager.Services/Implementations/PasswordPolicyService.cs:34-67 | the list built is the sentence list of the policy read from the configuration |
| PasswordPolicyService.RequirementsOf | AirlineManager.Services/Implementations/PasswordPolicyService.cs:37-66 | the successive `Add` calls build the sentence list of the policy |
| AccountLockoutService.GetMaxFailedLoginAttempts | AirlineManager.Services/Implementations/AccountLockoutService.cs:14-25 | a readable stored limit is returned as it is; a missing or unreadable one gives 5; always a 32-bit value |
| AccountLockoutService.GetLockoutDurationMinutes | AirlineManager.Services/Implementations/AccountLockoutService.cs:27-38 | a readable stored duration is returned as it is; a missing or unreadable one gives 30; always a 32-bit value |
| AccountLockoutService.IsLockoutEnabled | AirlineManager.Services/Implementations/AccountLockoutService.cs:40-44 | lockout is on for a missing or unreadable limit, and for a readable one exactly when it is positive |
| AccountLockoutService.GetLockoutConfiguration | AirlineManager.Services/Implementations/AccountLockoutService.cs:46-51 | the pair of the limit and the duration |
| AccountLockoutService.PushedLockoutOptions | AirlineManager.Middleware/LockoutConfigurationMiddleware.cs:50-55 | the identity options get the limit, the duration in seconds, and lockout for new users exactly when the limit is positive |
| AccountLockoutService.LockoutDefaults | AirlineManager.Services/Implementations/AccountLockoutService.cs:14-51 | with neither setting stored, lockout is on after 5 failures for 30 minutes |
| AccountLockoutService.StoredLimitDecidesLockout | AirlineManager.Services/Implementations/AccountLockoutService.cs:40-44 | after storing a limit n it reads back as n, lockout is enabled exactly when n > 0, and the duration is unchanged |
| AccountLockoutService.StoredDurationIsRead | AirlineManager.Services/Implementations/AccountLockoutService.cs:27-38 | after storing the text of a 32-bit duration the service reads that duration back, the identity options lock out for that many minutes in seconds, and the attempt limit is unchanged |
| PasswordExpirationService.DaysSince | AirlineManager.Services/Implementations/PasswordExpirationService.cs:36 | the `Days` of a time span: whole days, truncated toward zero for either sign |
| PasswordExpirationService.DaysSinceMonotone | AirlineManager.Services/Implementations/PasswordExpirationService.cs:36 | more elapsed time is never fewer whole days |
| PasswordExpirationService.GetPasswordExpirationDays | AirlineManager.Services/Implementations/PasswordExpirationService.cs:68-80 | a readable stored number of days is returned as it is; a missing or unreadable one gives 90 |
| PasswordExpirationService.IsPasswordExpired | AirlineManager.Services/Implementations/PasswordExpirationService.cs:20-38 | never expired with 0 days; with another setting expired when the password was never changed; with a positive setting expired exactly when at least that many whole days have passed since the change |
| PasswordExpirationService.GetDaysUntilExpiration | AirlineManager.Services/Implementations/PasswordExpirationService.cs:40-60 | null exactly when expiration is off; 0 for a never-changed password; otherwise the limit minus the whole days since the change |
| PasswordExpirationService.ExpiredIffNoDaysLeft | AirlineManager.Services/Implementations/PasswordExpirationService.cs:20-60 | a password is expired if and only if it has a count of days left and that count is at most 0 |
| PasswordExpirationService.DisabledNeverExpires | AirlineManager.Services/Implementations/PasswordExpirationService.cs:24-28 | with a limit of 0 no password expires and there is no count of days left |
| PasswordExpirationService.ExpiryIsPermanent | AirlineManager.Services/Implementations/PasswordExpirationService.cs:20-38 | an expired password stays expired as time goes on |
| PasswordExpirationService.DaysSinceAntisymmetric | AirlineManager.Services/Implementations/PasswordExpirationService.cs:36 | a span of whole days truncates toward zero, so swapping its two ends negates it |
| PasswordExpirationService.UpdatePasswordChangedDate | AirlineManager.Services/Implementations/PasswordExpirationService.cs:62-66 | the user's password-change time becomes now and no other user or field changes |
| PasswordExpirationService.JustChangedIsFresh | AirlineManager.Services/Implementations/PasswordExpirationService.cs:20-60 | right after a change, with a positive limit, the password is not expired and has the whole limit left |
| PasswordExpirationService.StoredDaysAreRead | AirlineManager.Services/Implementations/PasswordExpirationService.cs:20-28 | after storing the text of a 32-bit number of days the service reads it back; storing 0 means no password expires and none shows a number of days left |
| SessionManagementService.FindSession | AirlineManager.Services/Implementations/SessionManagementService.cs:21-22 | None exactly when no row has the session id; otherwise the first row that has it |
| SessionManagementService.FindActiveSession | AirlineManager.Services/Implementations/SessionManagementService.cs:101-102 | None exactly when no active row has the session id; otherwise the first active row that has it |
| SessionManagementService.GetSessionById | AirlineManager.Services/Implementations/SessionManagementService.cs:181-185 | null exactly when no row has the id; with unique ids, the row that has it |
| SessionManagementService.ActiveSessionsOf | AirlineManager.Services/Implementations/SessionManagementService.cs:94 | exactly the user's active rows |
| SessionManagementService.GetActiveSessions | AirlineManager.Services/Implementations/SessionManagementService.cs:91-97 | a permutation of the user's active rows, most recently active first |
| SessionManagementService.NewSession | AirlineManager.Services/Implementations/SessionManagementService.cs:26-65 | the new row is active, created and last active now, keeps the caller's fields, expires in 30 days when persistent and in 1 hour otherwise, and carries the parsed client description |
| SessionManagementService.Refreshed | AirlineManager.Services/Implementations/SessionManagementService.cs:71-82 | a known row becomes active and last active now with a fresh expiry; every other field is kept |
| SessionManagementService.CreateOrUpdateSession | AirlineManager.Services/Implementations/SessionManagementService.cs:18-89 | an unknown id appends the new row, or fails on the user foreign key for an unknown user; a known id refreshes that row in place; session ids stay unique |
| SessionManagementService.RefreshAddsNoRow | AirlineManager.Services/Implementations/SessionManagementService.cs:69-85 | refreshing keeps the row count and the row found for the id |
| SessionManagementService.Touched | AirlineManager.Services/Implementations/SessionManagementService.cs:99-121 | only the first active row with the id changes: last active now, expiry extended by its own persistence; with no such row nothing changes |
| SessionManagementService.UpdateSessionActivity | AirlineManager.Services/Implementations/SessionManagementService.cs:99-121 | the table becomes the touched table |
| SessionManagementService.Terminated | AirlineManager.Services/Implementations/SessionManagementService.cs:123-134 | only the first row with the id changes, to inactive; an unknown id changes nothing |
| SessionManagementService.TerminateSession | AirlineManager.Services/Implementations/SessionManagementService.cs:123-134 | the table becomes the terminated table |
| SessionManagementService.TerminateIdempotent | AirlineManager.Services/Implementations/SessionManagementService.cs:123-134 | terminating twice is terminating once |
| SessionManagementService.Deactivated | AirlineManager.Services/Implementations/SessionManagementService.cs:142-145 | the same rows, each selected one made inactive and the others unchanged |
| SessionManagementService.DeactivateWhere | AirlineManager.Services/Implementations/SessionManagementService.cs:142-148 | the loop makes every selected row inactive and changes nothing else |
| SessionManagementService.TerminateOtherSessions | AirlineManager.Services/Implementations/SessionManagementService.cs:136-149 | the user's active rows with another session id become inactive |
| SessionManagementService.TerminateAllSessions | AirlineManager.Services/Implementations/SessionManagementService.cs:151-164 | all the user's active rows become inactive |
| SessionManagementService.CleanupExpiredSessions | AirlineManager.Services/Implementations/SessionManagementService.cs:166-179 | active rows whose expiry is before now become inactive |
| SessionManagementService.TerminateAllLeavesNone | AirlineManager.Services/Implementations/SessionManagementService.cs:151-164 | afterwards the user has no active session |
| SessionManagementService.TerminateOthersKeepsCurrent | AirlineManager.Services/Implementations/SessionManagementService.cs:136-149 | afterwards the user's active sessions are exactly their formerly active ones with the current id |
| SessionManagementService.SessionsWithId | AirlineManager.Services/Implementations/SessionManagementService.cs:139 | only rows of the table with the id |
| SessionManagementService.CleanupExpiredEffect | AirlineManager.Services/Implementations/SessionManagementService.cs:166-179 | a row stays active exactly when it was active and has no expiry or has not reached it; no other field changes |
| SessionManagementService.DeactivateIdempotent | AirlineManager.Services/Implementations/SessionManagementService.cs:136-179 | a second bulk deactivation with the same selection changes nothing |
| UserAgent.FamilyAndMajor | AirlineManager.Services/Implementations/SessionManagementService.cs:47-48 | the family, a space, then the major version; a null major leaves the trailing space |
| UserAgent.Describe | AirlineManager.Services/Implementations/SessionManagementService.cs:40-55 | no description for a missing or empty header or an unparsable one; otherwise browser and system are family plus major, and the device is its family unless that is "Other" |
| LoginHistoryService.NewLoginHistory | AirlineManager.Services/LoginHistoryService.cs:20-48 | the row keeps every argument, is timed now and carries the parsed client description |
| LoginHistoryService.LogLoginAttempt | AirlineManager.Services/LoginHistoryService.cs:16-52 | exactly one row is appended when the user exists; otherwise the save fails on the user foreign key and nothing changes |
| LoginHistoryService.HistoryOf | AirlineManager.Services/LoginHistoryService.cs:50 | exactly the rows of one user |
| LoginHistoryService.LoggingExtendsOnlyOwnHistory | AirlineManager.Services/LoginHistoryService.cs:50 | logging an attempt appends it to that user's history and leaves every other user's history unchanged |
| LoginHistoryService.RecordedAttemptFaithful | AirlineManager.Services/LoginHistoryService.cs:33-48 | a header that fails to parse loses only the client description; the outcome, header and time are still recorded |
| ThemeService.ValidIgnoresCase | AirlineManager.Services/Implementations/ThemeService.cs:111-117 | a theme is valid exactly when its lower-cased form is |
| ThemeService.BlankIgnoresCase | AirlineManager.Services/Implementations/ThemeService.cs:113 | lower-casing neither makes nor unmakes a blank text |
| ThemeService.IsValidTheme | AirlineManager.Services/Implementations/ThemeService.cs:111-117 | a theme is valid exactly when its lower-cased form is one of the listed themes |
| ThemeService.ListedThemesValid | AirlineManager.Services/Implementations/ThemeService.cs:14 | each of the six listed themes passes the validity test |
| ThemeService.GetDefaultTheme | AirlineManager.Services/Implementations/ThemeService.cs:26-45 | always a valid theme: the stored default when it is non-empty and valid, "auto" otherwise |
| ThemeService.GetUserTheme | AirlineManager.Services/Implementations/ThemeService.cs:47-66 | null exactly for an empty id or an unknown user; otherwise the user's stored preference |
| ThemeService.GetEffectiveTheme | AirlineManager.Services/Implementations/ThemeService.cs:97-109 | always valid: the user's preference when it is non-empty and valid; otherwise (no user, no preference, an empty or an invalid one) the default theme |
| ThemeService.SetUserTheme | AirlineManager.Services/Implementations/ThemeService.cs:68-95 | the three errors in the source's order: empty id, invalid theme, unknown user; success exactly when none applies, changing only that user's preference |
| ThemeService.SetThenEffective | AirlineManager.Services/Implementations/ThemeService.cs:85-109 | after a successful set, that user's effective theme is the theme just stored |
| ThemeService.StoredDefaultApplies | AirlineManager.Services/Implementations/ThemeService.cs:97-109 | after storing a valid default theme every request without a usable preference renders with that theme |
| RequestGates.MaintenanceEnabled | AirlineManager.Middleware/MaintenanceModeMiddleware.cs:26 | maintenance is on exactly when the flag reads as true; a missing or unreadable flag is off |
| RequestGates.OpenDuringMaintenance | AirlineManager.Middleware/MaintenanceModeMiddleware.cs:39-45 | the seven path prefixes served to everyone during maintenance |
| RequestGates.IsSuperAdmin | AirlineManager.Middleware/MaintenanceModeMiddleware.cs:53-59 | a signed-in user who holds the SuperAdmin role |
| RequestGates.MaintenanceGate | AirlineManager.Middleware/MaintenanceModeMiddleware.cs:20-76 | with maintenance off every request passes; with it on, a request is redirected to /Maintenance exactly when its lower-cased path has none of the open prefixes and the user is not a SuperAdmin |
| RequestGates.FinalPassUnreachable | AirlineManager.Middleware/MaintenanceModeMiddleware.cs:69-75 | a path the open-prefix test turned away never starts with /maintenance, so the last pass of the middleware cannot be reached |
| RequestGates.MaintenanceGateIgnoresCase | AirlineManager.Middleware/MaintenanceModeMiddleware.cs:36 | the gate gives the same decision for a path and its lower-cased form |
| RequestGates.MaintenanceRedirectPasses | AirlineManager.Middleware/MaintenanceModeMiddleware.cs:45-71 | the page the gate redirects to passes the gate, so the redirect does not loop |
| RequestGates.SuperAdminAlwaysPasses | AirlineManager.Middleware/MaintenanceModeMiddleware.cs:51-66 | a SuperAdmin reaches every path during maintenance |
| RequestGates.PasswordChangeGate | AirlineManager.Middleware/RequirePasswordChangeMiddleware.cs:16-47 | a request is redirected to /Account/ChangePassword exactly when a signed-in user must change the password and the path has none of the open prefixes, compared ignoring case |
| RequestGates.OpenDuringPasswordChange | AirlineManager.Middleware/RequirePasswordChangeMiddleware.cs:29-33 | the five account pages, compared ignoring case, a user who must change the password may still open |
| RequestGates.PasswordChangeRedirectPasses | AirlineManager.Middleware/RequirePasswordChangeMiddleware.cs:29-39 | the change-password page passes the gate, so the redirect does not loop |
| RequestGates.ChangePasswordPageOpenDuringMaintenance | AirlineManager.Middleware/MaintenanceModeMiddleware.cs:36-49 | the change-password page passes the maintenance gate, so a user forced to change the password is not trapped between the two gates |
| MaintenanceController.Index | AirlineManager/Areas/Admin/Controllers/MaintenanceController.cs:23-35 | the flag or false, the message or the stock sentence, the estimated end or "" |
| MaintenanceController.IndexDefaults | AirlineManager/Areas/Admin/Controllers/MaintenanceController.cs:25-28 | with none of the three settings stored the page shows maintenance off, the stock sentence and no end time |
| MaintenanceController.ApplyWrites | AirlineManager/Areas/Admin/Controllers/MaintenanceController.cs:41-66 | the writes in order, each kept once saved, stopping at the first failure; `NoMoreWrites` and `RunSucceedsOnKnownKeys` state this |
| MaintenanceController.EnableWrites | AirlineManager/Areas/Admin/Controllers/MaintenanceController.cs:44-54 | the flag set to "true", then the message and the estimated end when each is non-empty; `EnableWritesShape` and `EnableSetsFlag` state this |
| MaintenanceController.DisableWrites | AirlineManager/Areas/Admin/Controllers/MaintenanceController.cs:78 | the flag set to "false"; `DisableOpensSite` states what it does |
| MaintenanceController.UpdateMessageWrites | AirlineManager/Areas/Admin/Controllers/MaintenanceController.cs:101-109 | the message when it is non-empty, then the estimated end whenever one is given; `UpdateMessageClearsEnd` states this |
| MaintenanceController.Step | AirlineManager.Services/ConfigurationService.cs:96-116 | one awaited `SetValueAsync` extends the run of writes by one, and reports whether it succeeded |
| MaintenanceController.StepWhen | AirlineManager/Areas/Admin/Controllers/MaintenanceController.cs:46-54 | a write guarded by a condition extends the run by that write only when the condition holds, and reports whether the run still succeeds |
| MaintenanceController.EnableMaintenance | AirlineManager/Areas/Admin/Controllers/MaintenanceController.cs:39-69 | the writes run in order (flag, then a non-empty message, then a non-empty end), stopping at the first failure with earlier writes kept; the toast is a warning on success and an error otherwise |
| MaintenanceController.SameKeysKnown | AirlineManager.Services/ConfigurationService.cs:98-104 | tables with the same key column know the same keys |
| MaintenanceController.RunKeepsKeys | AirlineManager.Services/ConfigurationService.cs:111-113 | a run of writes keeps every row and its key, so the keys stay unique |
| MaintenanceController.AllKnownSnoc | AirlineManager.Services/ConfigurationService.cs:101-104 | a longer run names known keys exactly when the shorter one does and the new key is known |
| MaintenanceController.EnableWritesKnown | AirlineManager/Areas/Admin/Controllers/MaintenanceController.cs:44-54 | enabling writes only the three maintenance settings, and only its first write names the flag |
| MaintenanceController.RunSucceedsOnKnownKeys | AirlineManager.Services/ConfigurationService.cs:101-104 | a run finishes without error exactly when every write names an existing key |
| MaintenanceController.NoMoreWrites | AirlineManager/Areas/Admin/Controllers/MaintenanceController.cs:61-66 | once a write has thrown, later writes of the action change nothing |
| MaintenanceController.DisableMaintenance | AirlineManager/Areas/Admin/Controllers/MaintenanceController.cs:73-93 | the flag is written "false"; the toast is success or error |
| MaintenanceController.UpdateMessage | AirlineManager/Areas/Admin/Controllers/MaintenanceController.cs:97-124 | a non-empty message is written, then any non-null end time, empty included; stopping at the first failure; the toast is success or error |
| MaintenanceController.EnableClosesSite | AirlineManager/Areas/Admin/Controllers/MaintenanceController.cs:39-69 | with the three settings present, enabling succeeds and the maintenance gate then reads the flag as on |
| MaintenanceController.EnableSetsFlag | AirlineManager/Areas/Admin/Controllers/MaintenanceController.cs:44-54 | whenever the flag row exists, enabling leaves the flag on, even if a later write fails |
| MaintenanceController.EnableWritesShape | AirlineManager/Areas/Admin/Controllers/MaintenanceController.cs:44-54 | enabling writes the flag first and never names it again |
| MaintenanceController.DisableOpensSite | AirlineManager/Areas/Admin/Controllers/MaintenanceController.cs:73-93 | with the flag present, disabling succeeds and the maintenance gate lets every request through |
| MaintenanceController.SingleWrite | AirlineManager.Services/ConfigurationService.cs:96-116 | a run of one write is that one `SetValueAsync` |
| MaintenanceController.FlagWritten | AirlineManager/Areas/Admin/Controllers/MaintenanceController.cs:44 | writing "true" or "false" to an existing flag switches maintenance on or off |
| MaintenanceController.LaterWritesKeepFlag | AirlineManager/Areas/Admin/Controllers/MaintenanceController.cs:46-54 | writes to other keys leave the flag as it reads |
| MaintenanceController.RunSplit | AirlineManager/Areas/Admin/Controllers/MaintenanceController.cs:41-66 | a run of two parts is the first part followed, unless it failed, by the second |
| MaintenanceController.UpdateMessageClearsEnd | AirlineManager/Areas/Admin/Controllers/MaintenanceController.cs:101-109 | an empty message leaves the shown message alone while an empty end time clears the shown end |
| AccountController.NormalizeAuthenticatorCode | AirlineManager/Controllers/AccountController.cs:156 | a null code is ""; spaces and hyphens are gone and every other character keeps its count |
| AccountController.NormalizeRecoveryCode | AirlineManager/Controllers/AccountController.cs:217 | a null code is ""; spaces are gone and every other character, hyphens included, keeps its count |
| AccountController.NormalizeIdempotent | AirlineManager/Controllers/AccountController.cs:156 | cleaning a cleaned code changes nothing |
| AccountController.NormalizeByGroups | AirlineManager/Controllers/AccountController.cs:313-314 | two groups of digits joined by a space or by a hyphen read as the two groups joined |
| AccountController.CodeAccepted | AirlineManager/Controllers/AccountController.cs:171 | a code is accepted only for a user with an authenticator key, as the TOTP verifier decides |
| AccountController.GenerateQrCodeUri | AirlineManager/Controllers/AccountController.cs:370-375 | the URI is an `otpauth://totp/` URI |
| AccountController.UriShape | AirlineManager/Controllers/AccountController.cs:374 | the URI is the fixed issuer head, the encoded account, "?secret=", the key and the fixed issuer and digits tail |
| AccountController.FirstQuestionMark | AirlineManager/Controllers/AccountController.cs:374 | the first '?' of the URI is the one after the account name |
| AccountController.SplitAtQuestionMark | AirlineManager/Controllers/AccountController.cs:374 | the account name is recovered by splitting at the first '?' |
| AccountController.CancelPrefix | AirlineManager/Controllers/AccountController.cs:374 | equal URIs with the same fixed head agree after it |
| AccountController.CancelSuffix | AirlineManager/Controllers/AccountController.cs:374 | equal URIs with the same fixed tail agree before it |
| AccountController.QrCodeUriDetermines | AirlineManager/Controllers/AccountController.cs:370-375 | two equal URIs carry the same encoded account and the same secret, so the app reads back what it was given |
| AccountController.ResetAuthenticatorKey | AirlineManager/Controllers/AccountController.cs:291-292 | the user gets the new key and a new security stamp, and nothing else changes |
| AccountController.NewRecoveryCodes | AirlineManager/Controllers/AccountController.cs:323 | exactly the requested number of codes, the i-th being the i-th code issued |
| AccountController.AccessFailed | AirlineManager/Controllers/AccountController.cs:180 | one more failure below the limit is counted; reaching it locks the user out for the lockout period and resets the count |
| AccountController.IdentityLockedOut | AirlineManager/Controllers/AccountController.cs:181 | locked out exactly when lockout applies to the user and the lockout end is not yet past |
| AccountController.Failures | AirlineManager/Controllers/AccountController.cs:180 | the user after `n` wrong codes in a row; `FailuresLockOut` and `FailuresThenLockedOut` state the outcome |
| AccountController.FailuresLockOut | AirlineManager/Controllers/AccountController.cs:180 | from a count of 0, fewer failures than the limit only count, and the limit-th failure locks the user out until now plus the period |
| AccountController.FailuresThenLockedOut | AirlineManager/Controllers/AccountController.cs:180-185 | a lockout-enabled user is locked out after the limit of wrong codes, whenever the period is not negative |
| AccountController.Generate2fa | AirlineManager/Controllers/AccountController.cs:285-297 | no user signed in: "Not authenticated" and no change; otherwise the key is always reset and the new key is returned with its provisioning URI |
| AccountController.EnableSecondFactor | AirlineManager/Controllers/AccountController.cs:303-326 | no user: not authenticated; a missing property, a rejected code or a non-string property (the unhandled throw) changes nothing; an accepted code turns two-factor on, issues a new security stamp, returns the ten new recovery codes and stores them with duplicates dropped, and no other row changes |
| AccountController.StoredRecoveryCodes | AirlineManager/Controllers/AccountController.cs:321-322 | the stored codes are exactly the issued ones, each once, and there are ten of them when the generator issues ten different codes |
| AccountController.DisableTwoFactorSelf | AirlineManager/Controllers/AccountController.cs:331-347 | a challenge exactly when no user is signed in, with no change; otherwise two-factor is off with a new key and a new stamp |
| AccountController.DisabledKeyReplaced | AirlineManager/Controllers/AccountController.cs:336-338 | after disabling, only the new key verifies codes, and the stored recovery codes are kept |
| AccountController.ResetRecoveryCodes | AirlineManager/Controllers/AccountController.cs:352-368 | no user: "Not authenticated"; two-factor off: refused; no change in either; otherwise ten new codes are returned and replace the stored ones, with duplicates dropped |
| AccountController.LoginWith2faFallback | AirlineManager/Controllers/AccountController.cs:137-189 | a missing or blank code redisplays the form with no change; otherwise no user for the form's id: back to login with no change; an accepted code clears the failure count and signs in to the return URL or home; a rejected one records a failure and reports a lockout exactly when that failure caused one |
| AccountController.LoginNext | AirlineManager/Controllers/AccountController.cs:81-121 | success goes to ChangePassword exactly when the user must change the password and home otherwise; two-factor goes to LoginWith2fa with the user's id; lockout and failure give their two messages |
| AccountController.FlaggedLoginReachesChangePassword | AirlineManager/Controllers/AccountController.cs:89-96 | a flagged user's successful login lands on the change-password page, which the password-change gate lets through |
| AccountController.ChangePassword | AirlineManager/Controllers/AccountController.cs:622-646 | an invalid form is shown again, a missing user is challenged and a refused reset changes nothing; an accepted reset stores the new hash and a new security stamp and clears the flag, and nothing else of that row or of any other row changes |
| AccountController.ChangedPasswordOpensSite | AirlineManager/Controllers/AccountController.cs:637-638 | once the password is changed the gate lets the user through on every path, and the password-change time is what it was |
| UsersController.Index | AirlineManager/Areas/Admin/Controllers/UsersController.cs:24-47 | one row per user, in order, with the user's id, e-mail, names, roles and lockout end, shown locked exactly when the lockout end is later than now |
| UsersController.IsLockedOut | AirlineManager/Areas/Admin/Controllers/UsersController.cs:32 | a user is shown locked exactly when the lockout end is set and later than now; `ShownLockedRefusesSignIn` relates it to sign-in |
| UsersController.ShownLockedRefusesSignIn | AirlineManager/Areas/Admin/Controllers/UsersController.cs:32 | a user shown as locked, with lockout enabled, is refused at sign-in |
| UsersController.SignInRefusalShownLocked | AirlineManager/Areas/Admin/Controllers/UsersController.cs:32 | a user refused at sign-in is shown locked unless the lockout ends at this very instant |
| UsersController.IsEmailAddress | AirlineManager.Models/ViewModel/AdminEditUserViewModel.cs:10 | an e-mail address has no line break and exactly one "@", neither first nor last |
| UsersController.ValidEditForm | AirlineManager.Models/ViewModel/AdminEditUserViewModel.cs:9-17 | the form is valid exactly when the e-mail is a non-blank address and both names are non-blank |
| UsersController.RolesToAdd | AirlineManager/Areas/Admin/Controllers/UsersController.cs:92 | exactly the selected roles the user does not have |
| UsersController.RolesToRemove | AirlineManager/Areas/Admin/Controllers/UsersController.cs:93 | exactly the user's roles that are not selected |
| UsersController.RoleChangesReachSelection | AirlineManager/Areas/Admin/Controllers/UsersController.cs:91-103 | the two sets are disjoint, and removing one then adding the other leaves exactly the selected roles |
| UsersController.NoRoleChangeIffSameRoles | AirlineManager/Areas/Admin/Controllers/UsersController.cs:95-103 | both role calls are skipped if and only if the selection already equals the user's roles |
| UsersController.WithBasicInfo | AirlineManager/Areas/Admin/Controllers/UsersController.cs:84-88 | e-mail, user name (set to the e-mail) and the two names come from the form; nothing else changes |
| UsersController.WithLockSwitch | AirlineManager/Areas/Admin/Controllers/UsersController.cs:106-114 | locking sets the lockout end to the maximum date; unlocking clears it and resets the failure count; without lockout enabled the end is left alone; nothing else changes |
| UsersController.LockSwitchShown | AirlineManager/Areas/Admin/Controllers/UsersController.cs:106-114 | with lockout enabled, the switch decides both the lock shown in the list and the sign-in refusal |
| UsersController.LockSwitchIgnoredWithoutLockout | AirlineManager/Areas/Admin/Controllers/UsersController.cs:106-109 | without lockout enabled, ticking "locked out" neither changes the shown lock nor refuses sign-in |
| UsersController.Edit | AirlineManager/Areas/Admin/Controllers/UsersController.cs:76-117 | an invalid form is shown again and an unknown id is not found, with no change; otherwise the user gets the form's information, exactly the selected roles and the lock switch; a selected role that does not exist stops the action after the information and the removals are saved |
| UsersController.Delete | AirlineManager/Areas/Admin/Controllers/UsersController.cs:121-137 | an empty or unknown id is not found and the signed-in account is forbidden, with no change; otherwise the user is deleted with their sessions, login history and audit rows, or, when they wrote an audit row, the deletion fails and nothing changes |
| RolePolicy.IndexOf | AirlineManager/Program.cs:126 | -1 exactly when the role is not in the order; otherwise its first position |
| RolePolicy.AtLeast | AirlineManager/Program.cs:123-133 | the assertion succeeds if and only if the user holds some role ranked at or above the minimum; an unknown minimum fails |
| RolePolicy.PolicyMinimumRole | AirlineManager/Program.cs:137-140 | exactly the four policy names have a minimum role, and it is one of the ordered roles |
| RolePolicy.UnknownMinimumRoleDenies | AirlineManager/Program.cs:126-127 | a minimum role outside the order admits nobody |
| RolePolicy.HoldingRoleSatisfiesLowerPolicies | AirlineManager/Program.cs:128-131 | holding a role satisfies the policy of that role and of every role below it |
| RolePolicy.PoliciesMonotone | AirlineManager/Program.cs:128-131 | satisfying a higher minimum implies satisfying a lower one |
| RolePolicy.PolicyChain | AirlineManager/Program.cs:137-140 | AtLeastSuperAdmin implies AtLeastAdmin, which implies AtLeastModerator, which implies AtLeastUser |
| RolePolicy.PolicyEnds | AirlineManager/Program.cs:137-140 | AtLeastSuperAdmin is exactly holding SuperAdmin; AtLeastUser is holding any of the four roles |
| RolePolicy.NoRankedRoleNoPolicy | AirlineManager/Program.cs:123-133 | a user holding none of the four roles satisfies no policy |
| RolePolicy.Missing | AirlineManager/Program.cs:292 | exactly the names that are not yet roles |
| RolePolicy.CreateMissingRoles | AirlineManager/Program.cs:290-297 | afterwards every listed name is a role and no other role is added; the roles created are the missing ones, in list order |
| RolePolicy.SeedRoles | AirlineManager/Program.cs:289-297 | the four roles exist afterwards, and exactly the ones missing before were created |
| RolePolicy.RoleOrderDistinct | AirlineManager/Program.cs:114 | no role name appears twice in the list |
| RolePolicy.MissingSnoc | AirlineManager/Program.cs:290-297 | one more name adds it to the created list exactly when it did not exist |
| RolePolicy.ReseedingCreatesNothing | AirlineManager/Program.cs:292 | when every name already exists, nothing is created |
| RolePolicy.SecondSeedingCreatesNothing | AirlineManager/Program.cs:289-297 | seeding twice creates nothing the second time |
| LogsController.ResolveFilter | AirlineManager/Areas/Admin/Controllers/LogsController.cs:19-25 | level and search are kept, and a given start or end date is used as it is |
| LogsController.DefaultRangeIsLastWeekAndToday | AirlineManager/Areas/Admin/Controllers/LogsController.cs:22-25 | without dates, a log is in range exactly when it lies between midnight seven days ago and the end of today |
| LogsController.Matches | AirlineManager/Areas/Admin/Controllers/LogsController.cs:29-40 | a log matches when its level is the one asked for (if any), its time is in the inclusive range and the search term (if any) is in its message or exception; `FilteredCounts` states what the filter keeps |
| LogsController.Filtered | AirlineManager/Areas/Admin/Controllers/LogsController.cs:29-42 | never more logs than the table holds |
| LogsController.FilteredCounts | AirlineManager/Areas/Admin/Controllers/LogsController.cs:29-42 | each log that matches level, date range and search is kept as often as the table holds it; every other log is dropped |
| LogsController.Results | AirlineManager/Areas/Admin/Controllers/LogsController.cs:29-45 | the matching logs, newest first; `ResultsAreMatchesNewestFirst` states this |
| LogsController.ResultsAreMatchesNewestFirst | AirlineManager/Areas/Admin/Controllers/LogsController.cs:29-45 | the query's results are exactly the matching logs, each as often as stored, newest first |
| LogsController.TotalPages | AirlineManager/Areas/Admin/Controllers/LogsController.cs:49 | the least number of pages that holds all results |
| LogsController.Slice | AirlineManager/Areas/Admin/Controllers/LogsController.cs:50 | at most n results, taken in order from position skip on, and as many as there are up to n |
| LogsController.Page | AirlineManager/Areas/Admin/Controllers/LogsController.cs:50 | a page holds at most the page size of results; `PagesUpToPrefix` and `AllPagesShowAllResults` show that the pages in order are the results |
| LogsController.PrefixThenSlice | AirlineManager/Areas/Admin/Controllers/LogsController.cs:50 | the results before a slice followed by the slice are the results up to its end |
| LogsController.TimesIsProduct | AirlineManager/Areas/Admin/Controllers/LogsController.cs:50 | the offset written as repeated addition is the product |
| LogsController.PagesUpToPrefix | AirlineManager/Areas/Admin/Controllers/LogsController.cs:50 | the first n pages together are the first n times page-size results |
| LogsController.AllPagesShowAllResults | AirlineManager/Areas/Admin/Controllers/LogsController.cs:48-50 | pages 1 to the total page count together show every result exactly once, in order |
| LogsController.PageBeyondLastIsEmpty | AirlineManager/Areas/Admin/Controllers/LogsController.cs:49-50 | a page after the last one is empty |
| LogsController.Index | AirlineManager/Areas/Admin/Controllers/LogsController.cs:19-67 | the view gets the requested page of the results, their count, the page count, and the levels present in the whole table |
| LogsController.PageOfMatchesNewestFirst | AirlineManager/Areas/Admin/Controllers/LogsController.cs:45-50 | a page of newest-first matching logs is itself newest first and matching |
| LogsController.IndexPageMatchesNewestFirst | AirlineManager/Areas/Admin/Controllers/LogsController.cs:19-67 | every log shown matches the filter, and the page is newest first |
| LogsController.DeleteOldLogs | AirlineManager/Areas/Admin/Controllers/LogsController.cs:72-94 | exactly the logs older than the cutoff are removed, the others stay in order, and the count reported is the number removed |
| LogsController.DeleteOldLogsIdempotent | AirlineManager/Areas/Admin/Controllers/LogsController.cs:76-82 | a second run with the same cutoff removes nothing |
| LogsController.DeleteAll | AirlineManager/Areas/Admin/Controllers/LogsController.cs:99-117 | the table is emptied and the count reported is the number it held |
| LogsController.Header | AirlineManager/Areas/Admin/Controllers/LogsController.cs:150 | the timestamp, the level in brackets and the message on one line; `EntryLines` states its place in the entry |
| LogsController.Entry | AirlineManager/Areas/Admin/Controllers/LogsController.cs:150-155 | the header line, the exception on its own line when there is one, then an empty line; `EntryLines` states this |
| LogsController.Export | AirlineManager/Areas/Admin/Controllers/LogsController.cs:147-156 | the entries of the logs one after the other; `ExportAppend` and `ExportEmptyIffNoLogs` state this |
| LogsController.EntryLines | AirlineManager/Areas/Admin/Controllers/LogsController.cs:150-155 | an entry is the header line, then the exception line when there is one, then an empty line |
| LogsController.ExportAppend | AirlineManager/Areas/Admin/Controllers/LogsController.cs:147-156 | the export of two lists is the two exports one after the other |
| LogsController.ExportEmptyIffNoLogs | AirlineManager/Areas/Admin/Controllers/LogsController.cs:147-156 | the file is empty exactly when no log matches |
| LogsController.WriteLogs | AirlineManager/Areas/Admin/Controllers/LogsController.cs:147-156 | the loop writes each log's entry in list order, which is the export of the list |
| LogsController.Download | AirlineManager/Areas/Admin/Controllers/LogsController.cs:120-161 | the file is the export of the matching logs, newest first |
| DataRetentionService.RetentionDefaults | AirlineManager.Services/Implementations/DataRetentionService.cs:25-41 | with no retention setting stored: 90, 180, 365 and 30 days, and automatic cleanup on |
| DataRetentionService.GetRetentionConfiguration | AirlineManager.Services/Implementations/DataRetentionService.cs:25-41 | each of the five settings is its stored value when it reads, and otherwise its default: 90, 180, 365 and 30 days, automatic cleanup on |
| DataRetentionService.Retained | AirlineManager.Services/Implementations/DataRetentionService.cs:46-60 | 0 days keeps the table; otherwise a row stays exactly when it is not older than now minus the days; no row is added |
| DataRetentionService.RemovedCount | AirlineManager.Services/Implementations/DataRetentionService.cs:57-65 | the count returned is the number of rows that left the table, 0 when retention is off |
| DataRetentionService.CountStale | AirlineManager.Services/Implementations/DataRetentionService.cs:159 | never more than the table holds |
| DataRetentionService.KeepNotStale | AirlineManager.Services/Implementations/DataRetentionService.cs:158-165 | exactly the sessions that are active or were last active at or after the cutoff, and the count drops by the stale ones |
| DataRetentionService.KeepNotStaleKeepsUniqueIds | AirlineManager.Services/Implementations/DataRetentionService.cs:165 | removing stale sessions keeps the session ids unique |
| DataRetentionService.RetainedSessions | AirlineManager.Services/Implementations/DataRetentionService.cs:151-165 | 0 days keeps the table; otherwise a session stays exactly when it is not stale; ids stay unique and no row is added |
| DataRetentionService.RemovedSessions | AirlineManager.Services/Implementations/DataRetentionService.cs:162-170 | the count returned is the number of sessions removed |
| DataRetentionService.ActiveSessionsSurvive | AirlineManager.Services/Implementations/DataRetentionService.cs:159 | an active session is never removed |
| DataRetentionService.CleanupApplicationLogs | AirlineManager.Services/Implementations/DataRetentionService.cs:43-66 | the log table becomes its retained part and the count is the number removed |
| DataRetentionService.CleanupLoginHistory | AirlineManager.Services/Implementations/DataRetentionService.cs:68-106 | the login history becomes its retained part; the count is the number removed, made of batches of 1 to 1000 rows |
| DataRetentionService.CleanupLoginHistoryBatches | AirlineManager.Services/Implementations/DataRetentionService.cs:79-98 | the batch loop ends with exactly the rows older than the cutoff removed, the rest in order, and the total of its batches as the count |
| DataRetentionService.CleanupAuditLogs | AirlineManager.Services/Implementations/DataRetentionService.cs:108-146 | the audit log becomes its retained part; the count is the number removed, made of batches of 1 to 1000 rows |
| DataRetentionService.CleanupAuditLogsBatches | AirlineManager.Services/Implementations/DataRetentionService.cs:119-138 | the batch loop ends with exactly the rows older than the cutoff removed, the rest in order, and the total of its batches as the count |
| DataRetentionService.CleanupInactiveSessions | AirlineManager.Services/Implementations/DataRetentionService.cs:148-171 | the sessions become their retained part and the count is the number removed |
| DataRetentionService.KeepAllWhenNoneStale | AirlineManager.Services/Implementations/DataRetentionService.cs:162-168 | with no stale session the table is left as it is |
| DataRetentionService.BatchStep | AirlineManager.Services/Implementations/DataRetentionService.cs:85-95 | a round trip that finds old rows deletes at most 1000, keeps the rest, and lowers the number of old rows |
| DataRetentionService.BatchDone | AirlineManager.Services/Implementations/DataRetentionService.cs:90-91 | a round trip that finds no old row means every old row is gone and the total counts them all |
| DataRetentionService.SumAppend | AirlineManager.Services/Implementations/DataRetentionService.cs:95 | adding a batch adds its size to the total |
| DataRetentionService.CleanupAll | AirlineManager.Services/Implementations/DataRetentionService.cs:173-221 | with automatic cleanup off no table changes and every count is 0; otherwise each of the four tables becomes its retained part and each count is the number removed from it |
| DataRetentionService.TotalDeletedCountsRemovedRows | AirlineManager.Services/Interfaces/IDataRetentionService.cs:56 | the total of a run is the number of rows that left the four tables |
| DataRetentionService.InactiveSessions | AirlineManager.Services/Implementations/DataRetentionService.cs:274-278 | exactly the inactive sessions |
| DataRetentionService.GetRetentionStatistics | AirlineManager.Services/Implementations/DataRetentionService.cs:223-292 | the totals are the table sizes, counting only inactive sessions; each oldest field is the earliest timestamp of its table, or null when the table (for sessions: its inactive part) is empty |
| DataRetentionService.StatisticsPredictCleanup | AirlineManager.Services/Implementations/DataRetentionService.cs:235-289 | for periods that are not negative, each to-delete count is what the cleanup removes, and so is the total |
| DataRetentionService.ToDeleteIsRemoved | AirlineManager.Services/Implementations/DataRetentionService.cs:235-289 | with a non-negative setting the rows counted as to delete are exactly the rows a cleanup removes |
| DataRetentionService.StatisticsTotalRecords | AirlineManager.Services/Implementations/DataRetentionService.cs:235-289 | the statistics' total is the number of logs, login rows and audit rows plus the number of inactive sessions |
| DataRetentionService.OldestInactiveSessionIsEarliest | AirlineManager.Services/Implementations/DataRetentionService.cs:272-281 | there is no oldest inactive session exactly when every session is active; otherwise it is the last activity of some inactive session and no later than any of them |
| DataRetentionService.NegativeDaysDisagree | AirlineManager.Services/Implementations/DataRetentionService.cs:46-60 | for a negative period the statistics predict nothing to delete while the cleanup, whose cutoff then lies in the future, removes every row up to now (the statistics of line 235 count only positive periods) |
| DataRetentionService.KeepAllOrMissing | AirlineManager.Services/Implementations/DataRetentionService.cs:54 | a row older than the cutoff means there is something to delete |
| DataRetentionTypes.FreshResult | AirlineManager.Services/Implementations/DataRetentionService.cs:178-181 | a new result has a total of 0 and the time of the run |
| DataRetentionTypes.TotalDeleted | AirlineManager.Services/Interfaces/IDataRetentionService.cs:56 | the four deleted counts added up; `TotalDeletedCountsRemovedRows` states that it counts the rows a cleanup removes |
| DataRetentionTypes.TotalToDelete | AirlineManager.Services/Interfaces/IDataRetentionService.cs:79 | the four to-delete counts added up; `StatisticsPredictCleanup` ties each count to a cleanup |
| DataRetentionTypes.TotalRecords | AirlineManager.Services/Interfaces/IDataRetentionService.cs:80 | the four table sizes added up; `StatisticsTotalRecords` states the total |
| Collections.CountOlder | AirlineManager.Services/Implementations/DataRetentionService.cs:54 | never more than the table holds |
| Collections.KeepNotOlder | AirlineManager.Services/Implementations/DataRetentionService.cs:53-60 | exactly the rows at or after the cutoff, and the count drops by the older ones |
| Collections.TakeOlder | AirlineManager.Services/Implementations/DataRetentionService.cs:85-88 | at most n rows, all older than the cutoff, and n of them when there are that many |
| Collections.RemoveFirstOlder | AirlineManager.Services/Implementations/DataRetentionService.cs:93 | no row is added |
| Collections.RemoveFirstOlderEffect | AirlineManager.Services/Implementations/DataRetentionService.cs:85-95 | removing a batch keeps every newer row and lowers the old-row count by the batch size |
| Collections.RemoveFirstOlderKeeps | AirlineManager.Services/Implementations/DataRetentionService.cs:93 | removing a batch keeps every row at or after the cutoff, in order |
| Collections.RemoveFirstOlderCount | AirlineManager.Services/Implementations/DataRetentionService.cs:93-95 | removing a batch lowers the old-row count by the batch size |
| Collections.KeepAllWhenNoneOlder | AirlineManager.Services/Implementations/DataRetentionService.cs:58-63 | a table with no old row is left as it is |
| Collections.WithoutOwner | AirlineManager.DataAccess/Migrations/20251101112547_AddUserSessionRelationship.cs:13-19 | the cascade removes exactly the rows owned by the deleted user |
| Collections.WithoutOwnerOfNone | AirlineManager.DataAccess/Migrations/20251101101157_AddUserLoginHistoryRelationship.cs:13-19 | a table with no row of the user loses nothing to the cascade |
| Collections.Earliest | AirlineManager.Services/Implementations/DataRetentionService.cs:230-233 | null exactly for an empty table; otherwise a timestamp of the table no later than any other |
| Collections.EarliestOfMembers | AirlineManager.Services/Implementations/DataRetentionService.cs:230-233 | the earliest timestamp of a non-empty table belongs to one of its rows and is no later than any row's |
| Collections.InsertDesc | AirlineManager.Services/Implementations/SessionManagementService.cs:95 | one more element, and the same elements otherwise |
| Collections.InsertDescSorted | AirlineManager.Services/Implementations/SessionManagementService.cs:95 | inserting into a newest-first list keeps it newest first |
| Collections.SortDesc | AirlineManager/Areas/Admin/Controllers/LogsController.cs:45 | a permutation of the rows in non-increasing key order |
| Domain.SessionOwnersOfSubset | AirlineManager.DataAccess/Migrations/20251101112547_AddUserSessionRelationship.cs:13-19 | removing sessions keeps every remaining session's owner present |
| Domain.LoginOwnersOfSubset | AirlineManager.DataAccess/Migrations/20251101101157_AddUserLoginHistoryRelationship.cs:13-19 | removing login rows keeps every remaining row's owner present |
| Domain.AuditPartiesOfSubset | AirlineManager.DataAccess/Migrations/20251101143257_AddUserAuditLogRelationships.cs:13-27 | removing audit rows keeps both users of every remaining row present |
| DbContext.ApplicationDbContext.constructor | AirlineManager.DataAccess/Data/ApplicationDbContext.cs:9-11 | an empty database satisfies the schema's rules |
| DbContext.ApplicationDbContext.UpdateUser | AirlineManager.Services/Implementations/PasswordExpirationService.cs:65 | the stored row of the user is replaced and no other row changes |
| DbContext.ApplicationDbContext.DeleteUser | AirlineManager.DataAccess/Migrations/20251101143257_AddUserAuditLogRelationships.cs:13-27 | a user who wrote an audit row cannot be deleted and nothing changes; otherwise the user goes with their sessions, login history and the audit rows about them, and the other tables are unchanged |
| DbContext.ApplicationDbContext.RemoveWithOwnedRows | AirlineManager.DataAccess/Migrations/20251101112547_AddUserSessionRelationship.cs:13-19 | the user goes together with every session, login-history row and audit row whose owner is the user; the schema rules still hold |
| DbContext.CascadeKeepsForeignKeys | AirlineManager.DataAccess/Migrations/20251101143257_AddUserAuditLogRelationships.cs:13-27 | after the cascade every remaining row points at a remaining user and session ids stay unique |
| DbContext.WithoutOwnerKeepsUniqueIds | AirlineManager.DataAccess/Migrations/20251101112547_AddUserSessionRelationship.cs:13-19 | the session cascade keeps the session ids unique |

## Left out

- Logging, toasts, `TempData`, view rendering and redirects to views are not modelled; an action's outcome is a value that names its result page or message.
- Exceptions thrown by the database or by a settings read are not modelled, apart from the ones the code raises itself (an unknown configuration key, a theme for a missing user, a refused user deletion). The catch blocks that map any failure to a default (5 attempts, 30 minutes, 90 days, the "auto" theme) are covered only where such a raised error can reach them.
- The background schedulers (`SessionCleanupService`, `DataRetentionCleanupService`) are timer loops; only the operations they call are modelled.
- The options pushers (`PasswordOptionsUpdater`, `LockoutOptionsUpdater`) write framework options; their one rule, that new users are lockable exactly when the attempt limit is positive, is `AccountLockoutService.IsLockoutEnabled`.
- AES, the user-agent parser, TOTP verification, recovery-code generation, URL encoding, password hashing and the generation of security stamps are function parameters or values passed in; nothing is assumed about them except, for the configuration round trip, that decryption undoes encryption. A new stamp is not required to differ from the old one.
- Case mapping covers ASCII letters only; the signs the integer conversion admits are those of the invariant culture ("+" and "-"), and culture-specific signs are not modelled.
- Time is whole seconds on one clock: sub-second precision, time zones and the difference between `DateTime.Now` and `DateTime.UtcNow` are not modelled, and neither is the range limit of `DateTime.AddDays`; `DateTimeOffset.MaxValue` is a fixed number of seconds.
- Integer settings are parsed as 32-bit integers; the arithmetic on them afterwards (days times seconds, the page offset) is unbounded, so a 32-bit overflow there is not modelled.
- The date formatting in log-download lines is the parameter `fmt`; the download's file name, its content type and its encoding are not modelled, and `Environment.NewLine` is taken to be "\n".
- LogsController.TotalPages: requires a page size of at least 1, as the integer stand-in for `Math.Ceiling` over a double; the action's page size defaults to 100 but is not checked.
- LogsController.Index: requires a page number and page size of at least 1; the controller does not guard against zero or negative values, where `Skip` and `Take` would behave differently.
- LogsController.Index: the distinct levels offered by the filter are a set, so their order in the drop-down is not modelled.
- Ties in `OrderByDescending` (two rows with the same timestamp) keep an order that LINQ to Entities leaves to the database; the model promises only non-increasing order and a permutation.
- LogsController.Matches: the level and the search term are compared ordinally (`==` and `Contains`). The query runs in SQL Server, where these comparisons follow the column collation, which is case-insensitive by default; the collation is not modelled. The same holds for the other lookups that run as queries (configuration keys, user and session ids), where callers pass fixed-case values.
- Role names are compared exactly, where the identity library normalises them to upper case.
- `AdminUserViewModel` declares a single `Role`, while the users controller fills a list of roles; the model follows the controller's list.
- UsersController.Edit: the identity library's validation inside `UpdateAsync` (unique user name and e-mail, allowed characters) is not modelled, so that save always succeeds; the saves the action makes are written as one state change, which keeps the saves made before a missing role stops the action.
- UsersController.Index: the order of the users shown is a parameter, because the query has no `OrderBy`.
- UsersController.Delete: a deletion the restricting foreign key refuses leaves the C# action as a database exception; the model reports it as the outcome `DeleteFailed` with nothing changed.
- AccountController: the sign-in manager's own two-factor and recovery-code sign-in, cookie handling and remember-me are not modelled; only the fallback path of `LoginWith2fa` and the user-row changes of the other actions are.
- AccountController.ChangePassword: whether the identity library accepts the new password is the parameter `resetSucceeds`, and the hash it stores is the parameter `newHash`; the hashing itself is not modelled. `PasswordChangedAt` is not updated by this action, as in the source.
- The profile page and the other account pages that only render views are not modelled.
- The public maintenance page controller, the configuration, theme and retention controllers, the e-mail service and the `backend/` API are thin wrappers over the modelled services or are out of scope.
- Concurrent requests, and last-writer-wins races between session updates, are not modelled: every operation runs alone.
- DataRetentionService: no precondition on the number of days; a negative setting is modelled as the code computes it, and `NegativeDaysDisagree` shows that the statistics and the cleanup then differ.
- ThemeService.GetUserTheme: the preferred-theme column is a string in the model, so a null stored preference is not distinguished from an empty one (both fall back to the default theme).
- MaintenanceController.UpdateMessageClearsEnd: states what the action does with the arguments it receives. The standard form binding turns an empty form field into null, so from the page an empty field never reaches the action and the end cannot be cleared; the binding is not modelled.
- SessionManagementService.FindSession: the first-match search is written out for sessions, as `ConfigurationService.FindConfig` is for settings, rather than as one generic search, so that the proofs about each table need no key-extracting function.
- The schema's other tables, migrations and seed data are not modelled; the database starts empty or in any state satisfying its constraints.
