# spliit-mcp, verified

A Dafny model of the server that keeps per-user state in front of Spliit: its paging
scans, its partial updates, its participant merge, its link algebra, its store and
migrations, and its token cache. `dafny verify dfyconfig.toml` checks everything.

The project follows the program's structure. Operations that the program carries out
step by step are methods, over classes where they change an object, and each is proved
equal to a function of its inputs or of the old state; the laws are then proved about
these functions, for all inputs and all runs.

| files | what they model |
|---|---|
| `Paging`, `Listing`, `ListingLaws`, `Filters` | Spliit's paging contract, and `list_expenses` |
| `Duplicates`, `DuplicateLaws` | the early-stopping duplicate check, and whole runs of `create_expense` |
| `Money`, `Numerals`, `DecimalTexts`, `Dates` | decimals to cents, and both between value and text |
| `Spliit`, `Expenses`, `ExpenseLaws`, `Updates` | participants by ID and name, the expense form and what it says, the partial update |
| `GroupEdits`, `GroupEditLaws`, `GroupFormLaws` | the merge of a group edit into a replace-by-ID list, and when an edit is accepted |
| `NewGroups` | the participants of a new group, and the suggestion of the caller |
| `Segments`, `Urls`, `Links` | paths, URLs, and the link functions |
| `Tables`, `Stores`, `StoreLaws`, `Sessions`, `Registration` | the tables with their constraints, the store, its invariant and isolation, sessions, alias probing |
| `Migrations`, `MigrationRuns`, `Databases`, `MigrationFiles` | loading migrations, any number of replicas applying them at once, one call, and the schema it leaves |
| `TokenCaches` | the token cache and the verifier in front of which it stands |
| `Text`, `Lists`, `Wrappers` | trimming and folding, sequences, options and results |

Assumptions are stated where they are used. Spliit serves a list in contiguous blocks
(`Paging.Serve`) and may fail any request. A statement of the store is atomic, a
transaction takes effect as a whole or not at all, and the tables refuse what their
constraints forbid. Clock readings, fresh IDs, failing requests and the verifier's verdicts
are parameters. Case folding is an arbitrary table from characters to characters, lower-casing another.

## Where the code and its description differ

- `WebURL` is described as the inverse of `DeriveBaseURL`. It is one exactly for the
  bases of `Links.BaseRoundTripIff`; `Links.GroupsPrefixLosesBase` is a base it is not one for.
  The group ID comes back exactly under `Links.IdRoundTripIff`; `Links.GroupsPrefixLosesId`
  has bases below which it does not.
- `Migrate` reads the version of an empty table as zero, so a migration whose number is
  not positive is never applied though the call succeeds (`MigrationRuns.ReturnedMeansAllIff`,
  `Databases.ZeroVersionIsPassedOver`).
- `update_expense` is described as keeping everything that is not named. It does exactly when
  the omitted fields survive (`Updates.UpdateFrame`), and the recurrence rule is always reset;
  `Updates.UntouchedFieldsLost` has a payer and a rule that are lost.
- The zero check on amounts looks at the decimal and not at the cents (`Money.ZeroCentsIff`,
  `Expenses.TinyAmountIsZero`).
- A participant filter can lose matches between two calls of `list_expenses`, exactly when
  the blocks of the list do not fit (`Listings.FollowLosslessIff`, `Listings.MatchIsLost`).
- Renames can make two names of a group equal (`GroupEditLaws.NamesDifferIff`,
  `GroupEditLaws.RenameCollides`).
- The duplicate check protects only when it comes to an end, and only against the newest 500
  expenses (`Duplicates.GuardedApartIff`, `Duplicates.UnguardedApartIff`,
  `Duplicates.DuplicatePastDepth`, `Duplicates.DuplicateAfterFailure`).

## Model

| member | source | states |
|---|---|---|
| `Listings.ListExpenses` | internal/mcp/tools.go:481-542 | the paging loop returns the first `limit` matches of the filter between the cursor and the block end where the scan stops, with that end as next cursor; a failing request is the only error |
| `Listings.FetchPage` | internal/mcp/tools.go:512-537 | one turn of the loop extends the matches exactly to the end of the block it fetched |
| `Listings.FindShare` | internal/mcp/tools.go:594-601 | true exactly when some share that is not nil belongs to the participant |
| `Listings.AnsweredListing` | internal/mcp/tools.go:517-521 | a call that succeeds returns the listing of the plain scan, and a call none of whose requests fails succeeds |
| `Listings.ReplyMeaning` | internal/mcp/tools.go:509-542 | what a reply leaves out of the scanned stretch are matches after the limit-th, all of them in the last block; a reply short of the limit leaves nothing out and either ends the list or read ten whole blocks |
| `Listings.FollowLosslessIff` | internal/mcp/tools.go:509-542 | following the cursor to the end returns every match once and in order if and only if, with the list cut into blocks of the limit and the matches counted afresh after a block that completes the limit or is the tenth, no block takes the count past the limit |
| `Listings.MatchIsLost` | internal/mcp/tools.go:527-541 | with a limit of two and a block of one match before a block of two, the third match is never returned |
| `Listings.UnfilteredFollow` | internal/mcp/tools.go:509-542 | with no participant filter, following the cursor terminates and concatenates to the whole list, for every limit |
| `ListingLaws.ReplyToCall` | internal/mcp/tools.go:481-542 | a reply holds, in list order and at most the limit (20 where none is asked for, 100 at most), expenses between the two cursors that the asked-for payer paid and the asked-for participant shares in, and all of these up to the limit; the next cursor is the end of one of ten blocks, which ends the list or completes the limit |
| `ListingLaws.ShortReplyIsComplete` | internal/mcp/tools.go:523-541 | a reply short of the limit holds every expense asked for in the stretch it read |
| `ListingLaws.CallFailsIff` | internal/mcp/tools.go:517-521 | a call fails exactly when one of the requests it makes fails |
| `Filters.ResolveExpenseFilters` | internal/mcp/tools.go:548-592 | the participant filters are resolved before paging, with the complaints in the order of the code |
| `Filters.FiltersMeaning` | internal/mcp/tools.go:548-592 | each filter is the caller where "me" or "mine" is said, nobody where nothing is, and otherwise the first participant with the name |
| `Duplicates.LikelyDuplicates` | internal/mcp/tools.go:806-840 | the early-stopping scan returns the same-amount, within-window expenses of the blocks up to the first one that reaches past the window, at most ten |
| `Duplicates.CheckBlock` | internal/mcp/tools.go:824-833 | one block adds exactly its likely duplicates, and reports whether it holds an entry older than the window |
| `Duplicates.CheckIsPlainFilter` | internal/mcp/tools.go:806-840 | on a list that is newest first, the early-stopping scan equals the plain filter over the first 500 entries |
| `Duplicates.CheckReportsOnlyMatches` | internal/mcp/tools.go:825-833 | whatever the order of the list and whichever requests fail, every reported expense is in the list and matches |
| `Duplicates.CheckEmptyIff` | internal/mcp/tools.go:806-840 | the check comes back empty exactly when no likely duplicate is among the first 500 entries |
| `DuplicateLaws.CheckMeaning` | internal/mcp/tools.go:806-840 | on a newest-first list, a check that comes to an end returns, in order, exactly those of the first 500 entries with the same amount and a date within two days |
| `DuplicateLaws.CheckFailsIff` | internal/mcp/tools.go:811-837 | a check fails exactly when one of the requests it makes fails: the first, or one before whose block neither the list nor the window has ended |
| `DuplicateLaws.OutcomeMeaning` | internal/mcp/tools.go:745-793 | on a newest-first list, a call is answered by the complaint about its form; or else, if it is checked, the check ends and one of the first 500 entries matches, by all the matches; or else by what Spliit answers |
| `DuplicateLaws.RecordedIff` | internal/mcp/tools.go:766-788 | an accepted call whose check ends is recorded if and only if it clashes with none of the first 500 entries |
| `Duplicates.Upstream.CreateExpense` | internal/mcp/tools.go:745-793 | a call refuses, fails or inserts exactly one expense, as its check and Spliit answer; a check that fails does not block it |
| `Duplicates.InsertApartIff` | internal/mcp/tools.go:795-799 | an insertion leaves no pair of equal amount within two days exactly when there was none and the new expense makes none |
| `Duplicates.GuardedApartIff` | internal/mcp/tools.go:766-782 | a recording call whose check came to an end keeps the list free of such pairs exactly when it was free and nothing past the first 500 entries clashes with the new expense |
| `Duplicates.UnguardedApartIff` | internal/mcp/tools.go:767-774 | with the check waived, or failing on whichever request it fails, the list stays free of such pairs exactly when there was no likely duplicate at all |
| `Duplicates.RunStaysApart` | internal/mcp/tools.go:745-840 | every sequential run of calls that are checked, each check coming to an end, with at most 500 expenses before each, reaches only lists without such a pair |
| `Duplicates.DuplicatePastDepth` | internal/mcp/tools.go:812-815 | for every call whose check gets answers there is a group in which it is recorded although entry 500 is the same expense |
| `Duplicates.DuplicateAfterFailure` | internal/mcp/tools.go:818-822 | for every checked call that has a request after the first fail there is a group in which it is recorded although its first request returned the same expense |
| `Money.RoundIsNearest` | internal/spliit/client.go:230-232 | the digit-dropping rounding of the decimal library is rounding of the real value to the nearest integer, ties away from zero, for every coefficient and exponent |
| `Money.ToAmountIsNearestCent` | internal/spliit/client.go:230-232 | the cents are the nearest integer to the value in cents, wrapped to 64 bits; no wrap within the 64-bit range |
| `Money.ToAmountWithinHalfACent` | internal/spliit/client.go:230-232 | at most half a cent is lost, and a loss of exactly half goes away from zero |
| `Money.ToAmountOdd` | internal/spliit/client.go:230-232 | negating the value negates the cents |
| `Money.ToAmountMonotone` | internal/spliit/client.go:230-232 | a larger value never has fewer cents |
| `Money.ToAmountIgnoresScaling` | internal/spliit/client.go:226-229 | two scalings of one value give the same cents, overflow included |
| `Money.ZeroCentsIff` | internal/mcp/tools.go:989-995 | a decimal passes the zero check and still becomes zero cents exactly when it lies under half a cent |
| `Expenses.TinyAmountIsZero` | internal/mcp/tools.go:989-995 | the amount text 0.004 is accepted and becomes zero cents |
| `Money.CentsRoundTrip` | internal/mcp/tools.go:955 | printing any 64-bit cent count with two decimals, parsing it and converting it gives the same count |
| `Money.WrapMeaning` | internal/spliit/client.go:230-232 | beyond the 64-bit range, cents are off by a multiple of two to the 64 |
| `DecimalTexts.WrittenIsRead` | internal/mcp/tools.go:989-992 | every well-written number, with or without sign, point and power, is read as the number it means |
| `DecimalTexts.ReadIsWritten` | internal/mcp/tools.go:989-992 | only well-written numbers are read |
| `Dates.DateRoundTrip` | internal/mcp/tools.go:958 | a printed date reads back as the start of its day, and is refused exactly from the year 10000 on |
| `Dates.OneDatePerDay` | internal/mcp/tools.go:958 | no two dates share a day, so the text of an instant names one date only |
| `Dates.DateIsRead` | internal/mcp/tools.go:1002-1009 | only the text of a date before the year 10000 is read, as the first moment of that date |
| `Dates.YearLength` | internal/mcp/tools.go:1002-1009 | a year has 365 days, and 366 when it is divisible by four, unless by 100 and not by 400 |
| `Expenses.WriteInput.ApplyDefaults` | internal/mcp/tools.go:950-975 | every unset input field takes the text of the current expense, and the split is carried over exactly when no sharers are named |
| `Expenses.BuildExpenseForm` | internal/mcp/tools.go:986-1092 | the form is made of the parts read from the input, or the first failing part is reported |
| `Expenses.EvenSharesAt` | internal/mcp/tools.go:1053-1062 | named sharers resolve one by one, in order, to one share each |
| `ExpenseLaws.AmountMeaning` | internal/mcp/tools.go:989-996 | an amount text is read as the nearest cent to the number it means, and refused exactly when it is no number or zero |
| `ExpenseLaws.WholeUnits` | internal/mcp/tools.go:989-996 | an amount without a point is a hundred times as many cents |
| `ExpenseLaws.FormMeaning` | internal/mcp/tools.go:986-1092 | a form is built if and only if every field can be understood, and it then says what was typed: the nearest cent, the trimmed title, the date or today, the first participant named or the caller as payer, the kept, named or even split, the notes as typed |
| `ExpenseLaws.FormRefused` | internal/mcp/tools.go:986-1072 | a refusal is about the first field that cannot be understood, in the order amount, title, date, payer, split, and says what is wrong with it |
| `ExpenseLaws.UpdateTakesTyped` | internal/mcp/tools.go:894-926 | an update that goes through has, in every field it names, what was typed there |
| `ExpenseLaws.RecordedStatesForm` | internal/mcp/tools.go:784-788 | what is recorded states exactly the form |
| `Updates.UpdateExpense` | internal/mcp/tools.go:911-921 | the form an update sends is the one built from its input filled up from the current expense |
| `Updates.AmountKept` | internal/mcp/tools.go:954-956 | an omitted amount survives being printed, trimmed, parsed and converted, unless it is zero, which is refused |
| `Updates.UpdateFrame` | internal/mcp/tools.go:880-1092 | for every change whose named fields can be read and every current expense: the form sent is the current expense with exactly the named fields replaced if and only if the omitted ones survive, that is: an omitted title is trimmed, an omitted amount is not zero, an omitted date is a midnight before the year 10000, an omitted payer is found again, an omitted split is there, omitted notes are absent or not blank |
| `Updates.NamedTakeEffect` | internal/mcp/tools.go:880-1092 | an update that goes through has the value read from every field the caller named, whether or not the omitted ones survive |
| `Updates.ListedPayerSurvives` | internal/mcp/tools.go:960-962 | a payer whose object is present with the payer ID, on a roster of distinct names, is found again |
| `Updates.UntouchedIff` | internal/mcp/tools.go:880-1092 | an update that names nothing sends the expense back unchanged if and only if all its fields survive and its recurrence is none |
| `Updates.UntouchedFieldsLost` | internal/mcp/tools.go:1013-1085 | an update that names nothing makes the caller the payer of an expense without payer object, and stops a monthly expense |
| `Updates.UpdateTwice` | internal/mcp/tools.go:894-926 | from the expense an update leaves behind, the same update, made at any later time, sends the same form again |
| `Updates.UpdateAnyTime` | internal/mcp/tools.go:954-1010 | the form an update sends does not depend on when it is made |
| `Spliit.FindParticipant` | internal/spliit/client.go:235-242 | the first participant with the ID, or nothing exactly when there is none |
| `Spliit.FindByName` | internal/mcp/tools.go:1096-1105 | the first participant whose trimmed name folds to the trimmed argument, or nothing exactly when there is none |
| `Spliit.FoundByName` | internal/spliit/client.go:257-265 | with distinct names, any spelling of a name finds its own participant |
| `Text.NameKeyIff` | internal/mcp/tools.go:1097-1099 | two names are the same when, trimmed, they fold alike character by character |
| `Text.SpaceIff` | internal/mcp/tools.go:1097 | what trimming removes is Unicode white space |
| `GroupEdits.BuildGroupForm` | internal/mcp/tools.go:1804-1904 | the loops that rename in place, collect removals, keep and add compute the merged list, or the first complaint in the order of the phases |
| `GroupEdits.ApplyRename` | internal/mcp/tools.go:1840-1854 | one rename is resolved in the original roster and applied to the edited list |
| `GroupEditLaws.MergeKeepsIdentity` | internal/mcp/tools.go:1827-1895 | a merged list is the current participants minus the removed, in order, with their IDs and final names, followed by the non-blank additions, trimmed, in order and without ID |
| `GroupEditLaws.BusySurvive` | internal/mcp/tools.go:1863-1870 | everyone with expenses, and the pinned participant, stays in the list |
| `GroupEditLaws.NoExpenseOrphaned` | internal/mcp/tools.go:1857-1881 | replacing the list by ID leaves every participant an expense names |
| `GroupEditLaws.MergeCount` | internal/mcp/tools.go:1875-1895 | with distinct IDs, the count is current minus removed plus non-blank additions |
| `GroupEditLaws.LastRenameWins` | internal/mcp/tools.go:1840-1854 | a kept participant is called what the last rename resolving to it in the original roster says |
| `GroupEditLaws.SwapWorks` | internal/mcp/tools.go:1840-1854 | two participants can swap names in one edit, which is accepted if and only if neither name is blank |
| `GroupEditLaws.AddedAlone` | internal/mcp/tools.go:1883-1895 | every added name differs, trimmed and folded, from every other name in the list |
| `GroupEditLaws.NamesDifferIff` | internal/mcp/tools.go:1840-1895 | the names of a merged list are pairwise different if and only if, among the participants who stay, no deciding rename aims at the target that decides the name of another or at the name of one whom no rename touches, and no two whom no rename touches had one name |
| `GroupEditLaws.RenameCollides` | internal/mcp/tools.go:1840-1854 | renaming one of two participants to the other's name is accepted and leaves two equal names |
| `GroupEditLaws.OrderIrrelevant` | internal/mcp/tools.go:1840-1895 | reordering removals, or renames with different targets, gives the same list |
| `GroupFormLaws.FormMeaning` | internal/mcp/tools.go:1804-1904 | an accepted edit sends the group's own information and currency code, name and currency as asked for or as they are, and the kept participants followed by the additions |
| `GroupFormLaws.BusyAreSent` | internal/mcp/tools.go:1822-1881 | everyone present who has expenses or is the caller is among the participants sent |
| `GroupFormLaws.AcceptedIff` | internal/mcp/tools.go:1840-1902 | an edit is accepted exactly when each rename, removal and addition is fine, somebody is left and something is asked for; of the others whose parts are fine, one that leaves nobody and one that asks for nothing are refused as such |
| `GroupFormLaws.PartRefused` | internal/mcp/tools.go:1840-1895 | the complaint is about the first rename that is not fine, or else the first removal, or else the first addition, and says what is wrong with it |
| `GroupFormLaws.IdleIsRemoved` | internal/mcp/tools.go:1857-1881 | someone without expenses, not the caller, can be removed by name while another is left, who stays |
| `NewGroups.BuildGroupForm` | internal/handlers/api.go:391-425 | the form of a new group holds the deduplicated participants, or the first name that is too short in bytes is reported |
| `NewGroups.FormMeaning` | internal/handlers/api.go:407-425 | the first listed name of less than two bytes is refused, then a group name of less than two; otherwise the form has the list, the name as given and the trimmed currency, USD where none is given |
| `NewGroups.Collect` | internal/handlers/api.go:392-404 | the loop over its map of keys computes the dedupe |
| `NewGroups.DedupeIsFirstOccurrences` | internal/handlers/api.go:392-404 | the list is the caller followed by exactly the first occurrences, by lower-cased key, of the trimmed non-blank others not covered by the caller, in order |
| `NewGroups.DedupeKeysDiffer` | internal/handlers/api.go:393-402 | the lower-cased keys of the list are pairwise different |
| `NewGroups.EveryoneRepresented` | internal/handlers/api.go:395-403 | every non-blank requested name has the key of some name in the list |
| `NewGroups.DedupeTwice` | internal/handlers/api.go:392-404 | running the dedupe on its own output, tail as the others, changes nothing |
| `NewGroups.SuggestCaller` | internal/handlers/api.go:194-210 | the caller is suggested exactly when one participant and no other has the display name; the guess is ambiguous exactly when two have it |
| `Links.DeriveBaseURL` | internal/spliit/client.go:275-304 | the loop that grows the prefix returns the base before the first segment `groups`, and "" for what is no http(s) link |
| `Links.ExtractGroupID` | internal/spliit/client.go:351-367 | the segment after the first `groups`, or the input itself |
| `Links.BaseRoundTripIff` | internal/spliit/client.go:267-332 | for every http(s) base ending in api/trpc below any prefix, deriving the base from a group link gives the base back if and only if the prefix neither begins nor ends with an empty segment and has no segment `groups` |
| `Links.GroupsPrefixLosesBase` | internal/spliit/client.go:306-309 | an instance hosted below a path `groups` is a base that the documented inverse does not give back |
| `Links.IdRoundTripIff` | internal/spliit/client.go:310-367 | the group ID comes back out of the link made for it if and only if, without the empty segments at its ends, the base's prefix has no segment `groups`, or what follows the first one is the ID itself |
| `Links.IdComesBack` | internal/spliit/client.go:310-367 | what comes back is always the segment after the first `groups` of the link |
| `Links.GroupsPrefixLosesId` | internal/spliit/client.go:306-309 | below a path groups/x, every group is taken for the group x |
| `Links.LinkIsGroupLinkIff` | internal/spliit/client.go:306-332 | the link made for a group of any base over the alphabet is one the two derivations read, if and only if no empty segment follows the first `groups` |
| `Links.CanonicalLinks` | internal/spliit/client.go:275-367 | the link rebuilt from a link keeps the group, is its own rebuild, and keeps the base if and only if there is no empty segment just before `groups` |
| `Links.LinkNamesHost` | internal/spliit/client.go:334-346 | a group link is the path of the group below the host and subpath that HostOf shows |
| `Links.LeadsToBaseIff` | internal/spliit/client.go:275-304 | a text leads to an instance if and only if it is an http(s) URL with a host and a segment `groups` |
| `Links.BareIdIsKept` | internal/spliit/client.go:351-354 | an ID without a slash is taken as it is and leads to no instance |
| `Links.NoGroupIsKept` | internal/spliit/client.go:359-366 | a URL in which nothing follows a segment `groups` is taken as it is |
| `Urls.SchemeInAnyCase` | internal/spliit/client.go:281-287 | the scheme of a link may be written in either case |
| `Urls.HostMeaning` | internal/spliit/client.go:281-284 | a host is a name, alone or with a port of digits |
| `Segments.TrimOfJoin` | internal/spliit/client.go:318-321 | trimming the slashes off a joined path is joining its segments without the empty ones at both ends |
| `Urls.ParseOfPrint` | internal/spliit/client.go:323-328 | a printed http(s) URL parses back to the same scheme, host and path |
| `Stores.Store.UpsertUser` | internal/store/store.go:84-111 | the first login creates the row with the display name; a later one sets issuer and email and keeps display name, default group and creation time; no other row changes |
| `Stores.Store.SetDisplayName` | internal/store/store.go:127-135 | sets the display name of one existing user, keeping its other columns and all other rows; not-found exactly when there is no such user |
| `Stores.Store.SetDefaultGroup` | internal/store/store.go:140-160 | only a group of the user's own becomes the default; an empty ID clears it |
| `Stores.Store.DefaultGroup` | internal/store/store.go:163-177 | the group joined to the user on both its ID and its owner |
| `Stores.Store.CreateGroup` | internal/store/store.go:180-195 | one new row, unless a uniqueness or reference constraint refuses it, and then no change |
| `Stores.Store.ResolveGroup` | internal/store/store.go:227-242 | not-found exactly when no row of the user's own has the reference as alias, internal ID or Spliit ID; otherwise one that has, and one with the alias if there is any |
| `Stores.Store.UpdateGroup` | internal/store/store.go:246-259 | the edited columns of one own row change, or nothing does |
| `Stores.Store.DeleteGroup` | internal/store/store.go:262-270 | one own row goes, and every default that pointed to it is cleared |
| `Stores.Store.GetGroup` | internal/store/store.go:209-221 | the row with the internal ID, if it is the user's own |
| `Stores.Store.DeleteExpiredSessions` | internal/store/store.go:313-325 | exactly the rows past their expiry go, the others stay as they are, and the number returned is that of the rows gone |
| `StoreLaws.OpKeepsValid` | internal/db/migrations/sqlite/002_group_uniqueness_per_user.sql:18-19 | every operation keeps the uniqueness of (user, instance, Spliit ID) and (user, alias), the references to users, and defaults among the user's own groups |
| `StoreLaws.RunsStayValid` | internal/store/store.go:84-325 | the invariant holds after every run of operations from empty tables |
| `StoreLaws.DefaultMeaning` | internal/store/store.go:162-177 | for an existing user, not-found means exactly that no default is set; an answer is the default that is set, and one of the user's own groups |
| `StoreLaws.ResolveMeaning` | internal/store/store.go:223-242 | an alias always wins and names one row only; every answer is one of the user's own rows |
| `StoreLaws.OthersUntouched` | internal/store/store.go:137-270 | an operation for one user leaves another user's row, groups, default and answers as they were |
| `StoreLaws.AnswersFromView` | internal/store/store.go:163-242 | what a user may be answered depends only on the user's own row and groups |
| `StoreLaws.OutcomeFromView` | internal/store/store.go:137-270 | in two states that agree on a user's own rows, an operation of that user has the same outcome and leaves states that agree again |
| `StoreLaws.OthersUnobservable` | internal/store/store.go:137-270 | over any run from valid tables, with internal IDs never used before, leaving all other users' operations out changes neither the outcomes of a user's own operations nor what that user sees at the end |
| `Sessions.PurgingIsUnobservable` | internal/store/store.go:273-325 | under a monotone clock, and with users joining meanwhile, purging expired sessions at any points of a run changes no lookup's answer |
| `Sessions.FoundUntilExpiry` | internal/store/store.go:273-301 | a session of a known user that is not ended is found exactly until its time is over, whatever is purged |
| `Sessions.EndedIsGone` | internal/store/store.go:303-311 | a session that was ended is not found again |
| `Registration.RegisterGroup` | internal/mcp/tools.go:1408-1443 | the ten attempts against the store, stopping at the first that succeeds or that fails otherwise than by a conflict |
| `Registration.RegisterMeaning` | internal/mcp/tools.go:1428-1442 | the group is stored exactly when the user exists, has not registered it and one of the ten aliases is free with no attempt up to it failing otherwise; then under the first free one with every other row unchanged, and otherwise the store is unchanged |
| `Registration.CandidatesDiffer` | internal/mcp/tools.go:1430-1432 | the ten aliases tried are pairwise different |
| `Registration.CandidateTexts` | internal/mcp/tools.go:1429-1432 | the aliases are the one asked for and it with -2 to -10 |
| `Registration.RowForMeaning` | internal/mcp/tools.go:1412-1427 | the row pins the first participant with the display name, if there is one, and is otherwise as given |
| `Registration.FewGroupsAlwaysRegister` | internal/mcp/tools.go:1408-1443 | a user with fewer than ten groups, who has not registered this one, always succeeds |
| `Migrations.LoadMigrations` | internal/db/db.go:144-174 | the SQL files read in directory order and sorted by version, or the first unreadable name |
| `Migrations.LoadIsDetermined` | internal/db/db.go:172-173 | with distinct versions, the sorted list depends neither on the order of the files nor on how the sort treats ties |
| `MigrationFiles.NumberedIsRead` | internal/db/db.go:156-169 | a file whose name is a number, whatever follows it, an underscore and a rest becomes the migration of that number, with the file's text as script |
| `MigrationFiles.LoadFailsIff` | internal/db/db.go:151-164 | loading fails exactly when some SQL file has no number |
| `MigrationFiles.LoadedMeaning` | internal/db/db.go:144-174 | the loaded list has one migration for each SQL file, of its number and text, and nothing else |
| `MigrationRuns.CommitIsNext` | internal/db/db.go:114-136 | a transaction that commits, whatever version its replica had read, is of the next migration in the list |
| `MigrationRuns.RecordedIsPrefix` | internal/db/db.go:87-136 | in every state of every interleaving of any number of replicas, crashes, failures and lost commits included, the recorded versions are a prefix of the sorted positive ones and the schema was built by exactly that prefix |
| `MigrationRuns.ReturnedMeansAllIff` | internal/db/db.go:87-112 | once some replica returned without error, the whole list is recorded and applied if and only if every version is positive |
| `MigrationRuns.CompleteIsStable` | internal/db/db.go:95-112 | after that, no step of any replica changes the database |
| `Databases.Handle.ApplyMigration` | internal/db/db.go:114-136 | one transaction: script and version together, or neither |
| `Databases.Handle.Migrate` | internal/db/db.go:87-112 | the loop applies the loaded migrations newer than the version read, in order, stopping at the first failure |
| `Databases.CallIsRun` | internal/db/db.go:87-112 | every call of the method is a run of the protocol's steps by one replica |
| `Databases.LaterCallIsNoOp` | internal/db/db.go:86-112 | from any prefix of the list a call leaves a prefix at least as long; after one that succeeds, a later call changes nothing |
| `Databases.ZeroVersionIsPassedOver` | internal/db/db.go:95-106 | a migration numbered zero is never applied although the call succeeds |
| `MigrationFiles.SucceedsIff` | internal/db/db.go:87-136 | on a database that holds a prefix of the list, a call succeeds exactly when no statement of it goes wrong, and then everything is applied |
| `MigrationFiles.NewSchemaIsFiles` | internal/db/db.go:87-174 | after a successful call on a new database, whose files have distinct positive numbers, the schema has been built by exactly the texts of the SQL files, in the order of their numbers |
| `TokenCaches.VerifyCache.Get` | internal/oidc/oidc.go:208-223 | a fresh entry is returned, a stale one deleted, nothing else changes |
| `TokenCaches.VerifyCache.Put` | internal/oidc/oidc.go:225-255 | an info is stored until the earlier of five minutes and its own expiration, after the sweep and the clear a full map calls for |
| `TokenCaches.VerifyCache.Verify` | internal/oidc/oidc.go:153-166 | a hit is answered from the cache, a miss by the verifier, and only its acceptances are stored |
| `TokenCaches.PutStaysBounded` | internal/oidc/oidc.go:241-254 | a map of at most 1025 entries stays within 1025 |
| `TokenCaches.RunStaysBounded` | internal/oidc/oidc.go:208-255 | no run of lookups and puts ever holds more than 1025 entries |
| `TokenCaches.HeldIsLastPut` | internal/oidc/oidc.go:208-255 | what is held for a token is what its last accepted put stored, through every deletion, sweep and clear |
| `TokenCaches.HitMeaning` | internal/oidc/oidc.go:139-141 | a hit was put for that very token at most five minutes before and is not past its own expiration |
| `TokenCaches.AcceptedIff` | internal/oidc/oidc.go:226-234 | an info is stored unless it has expired, or five minutes have passed, when it arrives |
| `TokenCaches.HitUntilExpiry` | internal/oidc/oidc.go:208-255 | unless the map has been cleared since, the last put of a token is a hit exactly for five minutes and until its own expiration |
| `TokenCaches.CallMeaning` | internal/oidc/oidc.go:153-166 | a hit is answered from the cache and changes nothing; a miss is answered by the verifier, whose acceptance is then a hit while fresh and whose rejection is not stored |
| `TokenCaches.AnswersAreVouched` | internal/oidc/oidc.go:143-166 | however the lookups, verifications and puts of any number of requests interleave, every info answered was vouched for by the verifier asked about that very token, in this request, or before the put of that info for that token, at most five minutes ago; every rejection is the verifier's own |
| `TokenCaches.CallIsPhases` | internal/oidc/oidc.go:153-166 | a call of the verifier is such a request with nothing in between |

## Left out

- Duplicates.RunStaysApart: runs are sequential; two calls between whose check and insertion another insertion falls are not covered, and the code does not guard against them.
- Listings.ListExpenses: the title filter is applied by Spliit, so the list is already narrowed to it; summaries and wording are not modelled. The list does not change while one call reads it.
- Listings.FollowLosslessIff: the list does not change between the calls that follow the cursor either.
- Links.BaseRoundTripIff: URLs are read over the unreserved characters of section 2.3 of RFC 3986, the slash and the colon; percent-encoding, queries, fragments, user information and bracketed hosts are not modelled, and characters that Go would escape are read as ordinary ones, so that the laws say nothing about the code for them (`Links.IdRoundTripIff` likewise). A host has one colon at most, as Go 1.26 demands.
- Links.CanonicalLinks: stated for links over that alphabet, hence without surrounding space, which `DeriveBaseURL` trims and `ExtractGroupID` does not.
- Money.ToAmountIsNearestCent: the exponent is unbounded, while the decimal library's is 32 bits wide and can overflow when shifted; the coefficient is unbounded as it is there.
- Money.CentsRoundTrip: `shopspring/decimal` is not part of this model; its parser, shift and rounding are modelled from their documented behaviour.
- Dates.DateRoundTrip: instants are nanoseconds from the start of the year 0 in UTC; earlier dates, zones and the rest of Go's `time` are not modelled.
- Updates.UpdateFrame: the recurrence rule is not among the fields kept, because the code always resets it.
- Expenses.BuildExpenseForm: the names gathered for the confirmation message are not modelled; share counts are unbounded naturals.
- GroupEdits.BuildGroupForm: the list of changes for the confirmation message is reduced to whether there is any.
- Migrations.LoadMigrations: reading the directory and the files cannot fail, a version number has no upper bound, and white space before it is not skipped.
- MigrationRuns.RecordedIsPrefix: versions are distinct, and the script of a migration is one atomic step of its transaction; what SQL does to the schema is kept as the list of scripts.
- Databases.Handle.Migrate: one replica's call without others in between; calls interleaved with others are runs of `MigrationRuns`.
- Stores.Store.UpsertUser: reading the row and writing it are one step.
- Stores.Store.CreateGroup: a database fails a statement of the store only by a constraint; `Registration.RegisterGroup` takes other failures as a parameter.
- Stores.Store.ResolveGroup: when several rows match by ID but none by alias, any of them may be the answer.
- StoreLaws.OutcomeFromView: the internal ID of a new group is unused in both states, as a fresh UUID is.
- TokenCaches.VerifyCache.Put: tokens are their own keys, SHA-256 being taken as injective; the mutex makes each call of the cache one step.
- The verifier itself, OIDC discovery, JWT and introspection calls, HTTP routing, cookies, JSON and the MCP library: no algorithm of the repository's own.
- `ListGroups` in alias order, `GetUser`, `Clients.For`: plain reads, and a map of clients.
- `create_group`, `join_group` and the other tools that only pass a call on to Spliit and the store.
- Balances, settlements, statistics, activities and categories: Spliit computes them.
- Configuration, the web interface, containers and deployment.
