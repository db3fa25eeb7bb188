# telkap: a verified model

A Dafny model of the parts of telkap, a Telegram copy bot, whose correctness is
a matter of all inputs or of all runs:

| file | models |
|---|---|
| `Socks5.dfy` | the SOCKS5 client of the network check over a byte stream that arrives in pieces |
| `ForceJoin.dfy` | the forced-membership gate, its verified set and its list signature, as whole calls and as interleaved steps |
| `LanguageCache.dfy`, `Langs.dfy` | the stored language of a user and the cache in front of it, as whole calls and as interleaved steps |
| `Migration.dfy` | the schema migration at start-up, statement by statement |
| `EnvSync.dfy` | completing `.env` from `.env.example`, and the reader of the result |
| `ProxyUrl.dfy` | one proxy URL, taken apart and handed to two back-ends |
| `Numbers.dfy` | the number printers of nine languages against the one number parser |
| `Template.dfy` | filling the `{{name}}` places of a text in one pass |
| `SiteSplice.dfy` | replacing the marked section of the sales page |
| `Sweep.dfy` | one pass of the subscription watchdog |
| `Review.dfy` | percentile ranks and empty days of the activity report |
| `Text.dfy`, `Options.dfy` | the string operations of Python these rest on |

`dafny verify dfyconfig.toml` checks all of it.

How the code is rendered:

- What the code changes in place is a class with the same fields; every method
  is proved equal to a function of the old state, and the laws are proved about
  that function.
- Code that awaits is modelled twice. Once as a whole call that nothing
  interrupts, and once as a step machine cut at the awaits, in which any
  interleaving of any number of events is a run. A log of what happened is kept
  beside the state as evidence; no step decides on it.
- Exceptions are results. An exception class is a constructor of the result
  type, in the order the code can raise them.
- A law that the code does not meet on all inputs is stated with the exact
  condition under which it does, and with inputs on which it does not.

Where the code does not do what its own text promises:

- `socks5_reaches` says True on a reply that is cut off after its fourth byte
  (its fifth, for a name); the unread stream is then empty, so no byte is
  misread, but the reply was not all there (`TrueOnTruncatedReply`).
- The forced-membership gate can let a user in who was never asked about a
  channel added while an earlier event of theirs was being checked
  (`StrongFormBreaks`). Comparing the list's signature again before the user is
  added is enough (`StrongInEveryGuardedRun`).
- The language cache can keep an old language for good when a change overlaps a
  read, or another change that skips its update (`StaleRun`), and the language
  of a fallback when the row is inserted later (`KeepsCoherentExactlyWhen`).
  It happens only where the row is given one language while another is cached or
  bound to be (`InStepExactlyWhenNoClash`).
- The move of an old message_map fails, at every start-up, on a row whose task
  is gone, such as were left behind while foreign keys were not enforced
  (`MigratesExactlyWhen`).
- `envsync` promises not to change an existing value; a setting written
  `KEY =value` is not recognised and its value is overridden by the example's
  (`ValuesKeptExactlyWhen`, `SpacedKeyIsOverwritten`).
- A proxy at a bracketed IPv6 address is accepted, but `for_aiogram` prints it
  without its brackets, and the result is no longer a valid proxy URL
  (`AiogramRoundTrip`, `BracketsAreLost`). A password without a user name is
  dropped (`HandedOnKeeps`).
- Numbers of four digits and more in Arabic, Russian, Turkish, Uzbek,
  Indonesian and Portuguese spelling are refused by `parse_int`
  (`ParsePrinted`).

## Model

| member | source | states |
|---|---|---|
| `Text.StripPadded` | tools/nettest.py:76 | space of the usual kinds goes from both ends of a line and nothing else does |
| `Socks5.RecvFromSplits` | tools/nettest.py:116-124 | one `recv` hands over a prefix of the stream however it was cut, never more than asked for, and nothing only at the end |
| `Socks5.RecvExact` | tools/nettest.py:116-124 | for every cut of the stream exactly the first `count` bytes are returned and removed, or all there are |
| `Socks5.Socks5Reaches` | tools/nettest.py:127-163 | answer, bytes sent and unread suffix are functions of the byte stream alone, whatever the cut |
| `Socks5.CutsAgree` | tools/nettest.py:116-163 | two sockets with the same bytes in different pieces give the same answer, the same output and the same rest |
| `Socks5.RequestRoundTrip` | tools/nettest.py:138-144 | a server reading sections 4 and 5 of RFC 1928 recovers address type, address and port with nothing left over; refused are exactly an unencodable name, a name over 255 bytes and a port over 65535 |
| `Socks5.WhatTheServerSees` | tools/nettest.py:132-144 | on every stream a server reads the greeting 5, 1, 0 and, exactly when it answered 5, 0 and the target can be encoded, one CONNECT request for this target and port with nothing after it |
| `Socks5.RefusedTargetRaises` | tools/nettest.py:132-144 | which exception a target that cannot be encoded raises, and only after the greeting was answered |
| `Socks5.CompleteReply` | tools/nettest.py:146-163 | after any complete reply of section 6 of RFC 1928 True means reply code zero, and the stream then stands exactly behind BND.PORT |
| `Socks5.AnswerForEveryStream` | tools/nettest.py:132-163 | for every stream, whole or cut short: exactly when the answer is True, and that a name reply without its length byte is the only stream on which a read fails |
| `Socks5.TrueLeavesReplyBehind` | tools/nettest.py:150-163 | a True answer leaves the stream at the end of the reply it claimed, or at its own end when the reply was cut off |
| `Socks5.FalseLeavesRest` | tools/nettest.py:132-163 | without a True two bytes have been read before the request, or six with the head of the reply |
| `Socks5.TrueOnTruncatedReply` | tools/nettest.py:146-163 | six bytes on which the answer is True though the reply's address and port never came |
| `Socks5.HttpReaches` | tools/nettest.py:166-171 | the HTTP probe sends its request, takes what a single `recv(128)` returns and decides on that |
| `Socks5.HttpAnswerExactly` | tools/nettest.py:166-171 | it says yes exactly when the first 128 bytes of the first piece hold 200 between spaces |
| `Socks5.HttpAnswerDependsOnCut` | tools/nettest.py:166-171 | that answer is the same for every cut exactly when the first 128 bytes do not hold the mark |
| `ForceJoin.ForceJoinMiddleware.Call` | telkap/middlewares.py:138-200 | the new verified set, the new signature and the outcome of one uninterrupted event |
| `ForceJoin.MissingExactly` | telkap/middlewares.py:164-171 | the user is told exactly the channels that answered no; one that cannot be asked counts as yes |
| `ForceJoin.StoppedExactlyWhen` | telkap/middlewares.py:145-215 | exactly who is stopped: a known user, no admin, not verified for this list, whom the bot can check, and for whom a channel answers with a status other than creator, administrator, member or restricted; an API error is no such answer |
| `ForceJoin.VerifiedExactlyWhen` | telkap/middlewares.py:149-171 | exactly who is verified after an event, and under which signature |
| `ForceJoin.WeakInEveryRun` | telkap/middlewares.py:133-171 | in every interleaving of events and edits a verified user passed every check of a list that was active when their event read it |
| `ForceJoin.KeepsStrongExactlyWhen` | telkap/middlewares.py:149-171 | the exact steps, told from the state before them, after which a verified user need not have passed a list that the signature names: admitting a user whose list is no longer that one and whom no other event had vetted for it |
| `ForceJoin.WholeEventIsCall` | telkap/middlewares.py:138-171 | an event that nothing interrupts does what the method does and keeps the strong form |
| `ForceJoin.StrongInEveryAtomicRun` | telkap/middlewares.py:133-171 | events handled one at a time keep the strong form however the list is edited between them |
| `ForceJoin.StrongInEveryGuardedRun` | telkap/middlewares.py:169-171 | with the signature compared again before the add, the strong form holds in every interleaving |
| `ForceJoin.PassIsEarned` | telkap/middlewares.py:155-171 | while the strong form holds, whoever is let past is an admin, has nothing to join, cannot be checked, or passed every check of a list with the ids of the one their event read |
| `ForceJoin.StopIsEarned` | telkap/middlewares.py:155-200 | in every interleaving whoever is stopped is no admin and was asked about each channel they are told of, which said no |
| `ForceJoin.StrongFormBreaks` | telkap/middlewares.py:149-171 | a run of the code as it is after which a user is let in though nobody asked about a channel of the active list |
| `Langs.SpellingNormal` | telkap/i18n.py:51-53 | every code the program stores is read back as the language it stands for |
| `Langs.NormalizeIgnores` | telkap/i18n.py:51-53 | surrounding space, case and whatever follows the first two letters do not matter |
| `Langs.CodeTable` | telkap/i18n.py:51-53 | the nine codes by name; any other is read as Persian |
| `Langs.ShortIsDefault` | telkap/i18n.py:51-53 | so is a code that is missing or shorter than two letters |
| `LanguageCache.Languages.LanguageOf` | telkap/i18n.py:139-160 | answer and new cache; a failing database is not remembered |
| `LanguageCache.Languages.SetLanguage` | telkap/i18n.py:163-175 | row, cache and current language after a change; nothing when the database fails |
| `LanguageCache.Languages.Forget` | telkap/i18n.py:131-132 | only this user's entry goes |
| `LanguageCache.Languages.ResetCache` | telkap/i18n.py:135-136 | the cache is emptied, the rows stay |
| `LanguageCache.Languages.GetOrCreateUser` | telkap/handlers/common.py:102-121 | a missing row appears with the default language and the cache is not told |
| `LanguageCache.FirstAnswer` | telkap/i18n.py:139-160 | with nothing cached the answer is the row's language, or the fallback's without a row, with an empty one or without a database; only in the last case it is not kept |
| `LanguageCache.LaterAnswer` | telkap/i18n.py:131-160 | what was answered is answered again whatever becomes of the database, until it is forgotten |
| `LanguageCache.ChangeTakesEffect` | telkap/i18n.py:163-175 | a change is in force for the caller at once, for every later read, and, with a row, after the cache is lost; other users keep row and entry; a failed one changes nothing |
| `LanguageCache.NewRowAnswer` | telkap/models.py:112 | a row that is new answers in Persian unless something is cached |
| `LanguageCache.KeepsCoherentExactlyWhen` | telkap/i18n.py:139-175 | the exact calls after which cache and row may differ: a fallback cached over an empty stored string, and a default row inserted under a cached fallback |
| `LanguageCache.CoherentInEveryRun` | telkap/i18n.py:131-175 | a user whose row is there stays coherent through any sequence of calls by anyone |
| `LanguageCache.WeakInEveryRun` | telkap/i18n.py:139-175 | in every interleaving a cached language is what its reader's fallback and a row the table held since the read began lead to, or the very language its change was asked for, which the table then held if it had the row |
| `LanguageCache.InStepExactlyWhenNoClash` | telkap/i18n.py:139-175 | for every interleaving and user, with or without a row: cache, row and calls in flight agree at every step if and only if there is no clash, that is, the row is never given one language, by a change or its insertion, while another call is bound to cache a different one or a different one is cached under an insertion, and no read takes an empty stored string for a fallback other than the default |
| `LanguageCache.InStepFromTheStart` | telkap/handlers/common.py:102-121 | so from every start-up, whatever rows there are and whenever a row is inserted |
| `LanguageCache.CoherentWithoutClash` | telkap/i18n.py:139-175 | so without such a clash the cache agrees with the row whenever no changed row waits to be cached |
| `LanguageCache.ClashCanBreak` | telkap/i18n.py:150-173 | after every clash of whatever kind, some order of nothing but the remaining steps of calls in flight leaves a language in the cache that is not the row's, and no change waiting to correct it |
| `LanguageCache.StaleRun` | telkap/i18n.py:139-175 | such a run from any start, for any user with a row and any change of language, behind a slow read or a slow change to the language already stored |
| `LanguageCache.WholeReadIsCall` | telkap/i18n.py:139-160 | a read whose steps nothing interrupts does what the whole call does |
| `LanguageCache.WholeChangeIsCall` | telkap/i18n.py:163-175 | a change whose steps nothing interrupts does what the whole call does, though it skips an update that would change nothing |
| `Migration.Database.PrepareSchema` | telkap/db.py:61-72 | an old message_map is renamed, anything else is left, and its rows are all there |
| `Migration.Database.AddMissingColumns` | telkap/db.py:139-148 | the nested loops give the tables of the plan, and after each statement the original rows are all there |
| `Migration.Database.MoveRows` | telkap/db.py:173-177 | copy and drop, with the original rows in one table or the other after each statement |
| `Migration.Database.FinishSchema` | telkap/db.py:151-178 | columns are added to every listed table, and rows moved exactly when an old table was renamed |
| `Migration.Database.InitDb` | telkap/db.py:181-193 | a start-up yields the planned tables or, on an error, the old ones; its journal leaves no statement out, and in every state of it each original row stands in message_map or message_map_legacy with its task_id, src_msg_id, dst_msg_id, content_hash and created_at |
| `Migration.RowsMoved` | telkap/db.py:173-177 | message_map ends with exactly the old rows in order: task_id, src_msg_id, dst_msg_id, content_hash and created_at cell by cell, dest_chat empty, ids counted anew, NULL elsewhere; message_map_legacy is gone |
| `Migration.MigratesExactlyWhen` | telkap/db.py:49-178 | a start-up fails exactly when there is an old message_map and message_map_legacy is taken, one of the five columns is missing, a row has a NULL where the new table allows none, a row belongs to no task, or two rows share task and source message; and with which error |
| `Migration.AllListedPresent` | telkap/db.py:75-148 | from any schema every listed table has all its listed columns afterwards |
| `Migration.TablesAfter` | telkap/db.py:189-192 | the tables afterwards are the old ones and the models' |
| `Migration.NewTablesEmpty` | telkap/db.py:189-192 | a new table is empty and has the columns its model declares |
| `Migration.ColumnsAfter` | telkap/db.py:139-148 | an old table has its old columns and the ones listed for it, no others |
| `Migration.Database.CreateTables` | telkap/db.py:189-192 | missing tables appear empty and the originals stay safe |
| `Migration.NewCellsHoldDefaults` | telkap/db.py:75-148 | a listed column a table lacked holds its declared default in every row that was there |
| `Migration.OthersKept` | telkap/db.py:139-148 | no other table loses a row, a column or a cell |
| `Migration.MigrateTwice` | telkap/db.py:181-193 | a second start-up changes nothing |
| `Migration.LegacyStays` | telkap/db.py:171-177 | a renamed copy from elsewhere is neither used nor dropped |
| `Migration.InterruptedRenameStrandsRows` | telkap/db.py:189-192 | why the one transaction matters: a rename kept alone makes later start-ups succeed without the rows |
| `Migration.ShippedListing` | telkap/db.py:81-138 | the shipped list names each table once, no column twice and no key |
| `Migration.ShippedDeclares` | telkap/models.py:30-920 | every column of the shipped list is declared by its model, so all that is proved of a start-up holds of the shipped one |
| `Migration.ShippedDefaults` | telkap/db.py:81-138 | with the shipped list running jobs stay full ones, old deliveries go on not saying how they came, and old users are Persian with the simple menu |
| `EnvSync.SplitAppended` | tools/envsync.py:119-120 | text started with a newline never joins the last line, whether or not that line was ended |
| `EnvSync.LinesSplit` | tools/envsync.py:51 | which ten characters end a line |
| `EnvSync.KeyLine` | tools/envsync.py:31 | an upper-case name right before an equals sign is a key, whatever follows |
| `EnvSync.OnlyKeyLines` | tools/envsync.py:31 | and nothing else is |
| `EnvSync.PlainSetting` | tools/nettest.py:76-81 | the reader takes a value as it is, further equals signs and all |
| `EnvSync.QuotedSetting` | tools/nettest.py:76-81 | a value in quotes of either kind is what stands between them, spaces too |
| `EnvSync.NoSetting` | tools/nettest.py:77-78 | exactly blank lines, comments and lines without an equals sign say nothing |
| `EnvSync.BlocksOf` | tools/envsync.py:42-62 | the line loop finds one block per key line, with the comments it ends |
| `EnvSync.BlocksSound` | tools/envsync.py:42-62 | every block is a contiguous run of lines ending in its key line, reaching up to the nearest blank or key line |
| `EnvSync.BlocksComplete` | tools/envsync.py:42-62 | every key line has such a block |
| `EnvSync.BlockKeys` | tools/envsync.py:34-62 | the keys of the blocks are the keys of the text |
| `EnvSync.ReadEnv` | tools/nettest.py:71-82 | the reader yields for each key the last line that sets it |
| `EnvSync.EnvFile.Sync` | tools/envsync.py:80-120 | the file is the merge, or untouched without `--apply`; the missing blocks are reported |
| `EnvSync.MergedLines` | tools/envsync.py:115-120 | the old lines stay first and as they are |
| `EnvSync.MergeMeans` | tools/envsync.py:80-120 | for every two files the keys become the union, and what the reader sees is the old meaning overlaid with what the missing blocks say; for a canonical example that is its settings for the keys not recognised |
| `EnvSync.MergePreservesMeaning` | tools/envsync.py:7-9 | with both files in canonical form no old value changes and every missing key arrives with the example's last value |
| `EnvSync.ValuesKeptExactlyWhen` | tools/envsync.py:7-9 | exactly when an arbitrary `.env` keeps its values, for every example: no missing block says otherwise of a key it sets |
| `EnvSync.MergeTwice` | tools/envsync.py:101-103 | a second run finds nothing missing and changes nothing |
| `EnvSync.SpacedKeyIsOverwritten` | tools/envsync.py:31 | `K =v` is read but not recognised, and the example's value wins |
| `ProxyUrl.ForTelethon` | telkap/proxy.py:54-76 | the settings of the parsed URL; nothing without a proxy, and the errors of the parser |
| `ProxyUrl.GivenByScheme` | telkap/proxy.py:61-115 | for every accepted URL both back-ends are given http for http and https, socks5 for socks5 and socks5h, socks4 for socks4 and socks4a, the endpoint, and the login if there is a user name; Telethon with names resolved by the proxy |
| `ProxyUrl.NotGiven` | telkap/proxy.py:27-31 | neither is given anything exactly for a blank setting, and both fail alike |
| `ProxyUrl.ReadAsWritten` | telkap/proxy.py:27-51 | scheme, host and port are read as written, for all six schemes, every host without brackets and every port; port 0 is refused, one above 65535 raises |
| `ProxyUrl.HostInLowerCase` | telkap/proxy.py:47 | the host is read in lower case, an address zone as it is |
| `ProxyUrl.ReadWithLogin` | telkap/proxy.py:45-51 | the same with a user name and a password |
| `ProxyUrl.ReadWithoutPort` | telkap/proxy.py:40-43 | a URL without a port is refused |
| `ProxyUrl.OtherSchemesRefused` | telkap/proxy.py:34-39 | any other scheme is refused, in any case of its letters |
| `ProxyUrl.PrintThenParse` | telkap/proxy.py:79-115 | a printed proxy parses back exactly when its host has no colon and no bracket and the brackets of its login pass, and otherwise not at all |
| `ProxyUrl.AcceptedIsSound` | telkap/proxy.py:27-51 | what holds of the parts of every accepted URL; only a bracketed host has a colon or a bracket in it |
| `ProxyUrl.AiogramRoundTrip` | telkap/proxy.py:79-115 | for every accepted URL, the URL handed to aiogram parses to the same proxy exactly when the host has no colon and no bracket and the brackets of the login pass again; otherwise it is refused |
| `ProxyUrl.ReparsesByHost` | telkap/proxy.py:79-115 | with brackets in the login, closed there, or around the host, that is a condition on the host alone; without brackets around the host it always holds |
| `ProxyUrl.HandedOnKeeps` | telkap/proxy.py:96-115 | type, host, port and login are kept; a password is lost exactly when it had no user name |
| `ProxyUrl.BackEndsAgree` | telkap/proxy.py:54-115 | both back-ends are given the same type, endpoint and login exactly under that condition |
| `ProxyUrl.AiogramTwice` | telkap/proxy.py:79-115 | converting a converted URL changes nothing exactly under that condition, and fails otherwise |
| `ProxyUrl.BracketsAreLost` | telkap/proxy.py:112-115 | the URL of a proxy at the IPv6 loopback is accepted and what it is converted to is refused |
| `Numbers.GroupShape` | telkap/texts.py:7-11 | index by index: every fourth character from the right is the separator, the others are the digits in order |
| `Numbers.PrintedExactly` | telkap/i18n.py:65-85 | character by character, for every integer and language: the digits in the language's script, its separator after every third, a minus in front |
| `Numbers.SeenAgain` | telkap/handlers/common.py:154-155 | after translation the parser sees the grouped ASCII numeral, whatever script it was printed in |
| `Numbers.ParsePrinted` | telkap/i18n.py:76-85 | for every integer and language: the parser returns the number exactly when the separator is one it strips or the number is below a thousand in size, and otherwise reports no number |
| `Numbers.NoNumbers` | telkap/handlers/common.py:152-158 | two minus signs raise, an empty text and a lone minus are no number |
| `Numbers.PersianRoundTrip` | telkap/plans.py:61-63 | the Persian printers and the general one agree on every integer, and the parser inverts them |
| `Numbers.PrintedApart` | telkap/i18n.py:76-85 | no two integers are printed alike, in any of the nine languages |
| `Template.FillIsOnePass` | telkap/guide_texts.py:4939-4950 | the result is the pieces of the original text, each filled for itself; values are never looked at again |
| `Template.BodyIsOnePass` | telkap/guide_texts.py:4939-4950 | the same for the text a reader gets, with values or without |
| `Template.NamedIsFilled` | telkap/guide_texts.py:4950 | a named value stands where its placeholder stood |
| `Template.PiecesAreTheText` | telkap/guide_texts.py:18 | the pieces, written out, are the text |
| `Template.UnknownNamesStay` | telkap/guide_texts.py:4939-4950 | text naming no given field stays as written |
| `Template.SingleBracesStay` | telkap/guide_texts.py:4943-4946 | text without a double brace, such as `{tag}`, is never changed |
| `Template.FillTwiceExactlyWhen` | telkap/guide_texts.py:4939-4950 | for every text and values: whatever is filled in second, twice is the same as once with both, exactly when nowhere the characters that stay and the values put between them spell out a placeholder |
| `Template.FillTwiceByCount` | telkap/guide_texts.py:4939-4950 | the same read off the result: the first filling leaves as many placeholders as it did not fill |
| `Template.PiecesSpellNone` | telkap/guide_texts.py:18 | reading a text leaves no placeholder spelt out in single characters |
| `Template.FillTwice` | telkap/guide_texts.py:4939-4950 | a condition on text and values alone that is enough for it: every double brace opens a placeholder and no value has a brace |
| `Template.ReadingFindsAllSlots` | telkap/guide_texts.py:18 | reading a text finds every placeholder it was put together from, and the same pieces unless it finds more |
| `Template.NestedBraces` | telkap/guide_texts.py:18 | a family of texts without three braces in a row for which it is not |
| `SiteSplice.FindIsFirst` | tools/site.py:144-145 | the search finds the first occurrence and misses none |
| `SiteSplice.Splice` | tools/site.py:140-146 | the two splits and the joining of what is left |
| `SiteSplice.Page.Update` | tools/site.py:138-161 | file and exit code for each kind of page, with and without `--check` |
| `SiteSplice.RewriteMarked` | tools/site.py:144-146 | a page with both markers in order keeps everything before the first start and after the next end marker |
| `SiteSplice.RewrittenIsMarked` | tools/site.py:140-146 | no other page is rewritten |
| `SiteSplice.RefusedExactlyWhen` | tools/site.py:138-146 | exactly when a marker is missing, and exactly when the end marker stands only before the first start marker |
| `SiteSplice.LastRunWins` | tools/site.py:144-146 | rewriting with one block and then another is rewriting with the other |
| `SiteSplice.FirstAfterFreeText` | tools/site.py:27-28 | a marker without self-overlap after text free of it is its first occurrence |
| `SiteSplice.SecondRunChangesNothing` | tools/site.py:138-161 | with the shipped markers a second run changes nothing and `--check` is satisfied |
| `Sweep.Stop` | telkap/main.py:93-101 | this user's running tasks are stopped with the note, no other is touched, and they are counted |
| `Sweep.Pass` | telkap/main.py:84-107 | the tasks and the users told are those of the pass over the list, in its order |
| `Sweep.StoppedExactly` | telkap/main.py:90-101 | whatever plans do meanwhile, exactly the running tasks of users found without one at the look at them are stopped |
| `Sweep.QuietPass` | telkap/main.py:84-101 | with steady plans nothing unpaid is left running and nothing paid is stopped |
| `Sweep.ToldExactly` | telkap/main.py:102-107 | exactly the users something was stopped for are told, each once, with the number of tasks they had running |
| `Review.RankInRange` | tools/review.py:93-95 | the index is the one whole number within one half of the quantile's position, the even one of two, and the clamps never bite |
| `Review.ReportedExactly` | tools/review.py:93-97 | a value is reported for a quantile exactly when it occurs, at most r values are below it and more than r do not exceed it, with r the whole number nearest q times n - 1, the even one of two |
| `Review.PercentilesRanked` | tools/review.py:81-97 | there is a report exactly when there is a value; the four are in order and the last is the greatest |
| `Review.PercentilesIgnoreOrder` | tools/review.py:91 | the report does not depend on the order of the durations |
| `Review.GapsBetween` | tools/review.py:407-412 | the days without activity, ascending, none missed; together with the seen ones they fill the span |
| `Review.EmptyDays` | tools/review.py:400-412 | exactly the days no row names that have one before and one after them, ascending; malformed rows are skipped, and with the active days they fill the span |

## Left out

- `Template.FillTwice`: the condition is sufficient, not necessary, and easy to see in a text; `FillTwiceExactlyWhen` has the exact one.
- `Socks5.Socks5Reaches`: the dotted-quad and IDNA readings of the host are taken as given, time-outs and socket errors are not modelled.
- `Socks5.HttpReaches`: the request is a parameter, the ASCII text it is built from is not modelled.
- `EnvSync.BlocksOf`: lines are classified by one function and the loop branches on its result, where the code matches the pattern in the loop.
- `EnvSync.EnvFile.Sync`: the dated header line is a parameter, any comment line; the backup copy, the printed report and the missing-file exits are not modelled.
- `ProxyUrl.AiogramRoundTrip`: the validity of a bracketed address is a parameter; brackets are looked at as `urlsplit` does in Python 3.11.4, before stray ones in a host were refused; the NFKC check of non-ASCII authorities is not modelled; lower-casing is ASCII.
- `Langs.NormalizeIgnores`: lower-casing is ASCII.
- `Numbers.ParsePrinted`: decimal digits of other scripts than Persian, Arabic and ASCII, and Python's limit of 4300 digits, are not modelled.
- `Migration.Database.InitDb`: indexes and their names, foreign keys other than message_map.task_id, and the driver's commit behaviour are not modelled; the transaction is assumed to be atomic. The models' columns are a parameter.
- `Migration.MigratesExactlyWhen`: an index name already taken, which SQLite would refuse, is not among the failures; foreign keys are taken to be enforced, as the code asks of SQLite and other databases do anyway.
- `LanguageCache.WeakInEveryRun`: each query and each commit is one step on the current table, so the isolation of transactions is not modelled; rows are not deleted, and an error between a commit and the cache write is not modelled.
- `Review.RankInRange`: durations and quantiles are real numbers, float rounding of the product is not modelled.
- `Sweep.Pass`: other changes to tasks during a pass, the reload of a user's client and errors that end a pass early are not modelled.
- `SiteSplice.Page.Update`: the generated cards and table rows are a parameter.
- The other middlewares (ban, maintenance, language, capability, error log) and their nesting: a finite case distinction once each one's verdict is given.
- Quota and price arithmetic of the plans, plural forms, login-code cleaning, reason shapes and bars of the report: single expressions.
- Everything under `telkap/services/` is not part of this model: the copy engine, retries, wallets, payments and entitlements.
- Telegram, HTTP, TLS, terminal output, keyboards, texts, images and cryptography.
