# Cross-sub ban bot: ledger overrides, enforcement loop, ban statistics

This project models three pieces of a bot that shares bans between a group of
trusting subreddits through one ledger spreadsheet, and proves what each piece
does to the ledger, to a sub's ban list and to the statistics table.

- **Moderator overrides** (`modmail_utils.py`).
  - The modmail scan reads the last message of every conversation. It recognises
    `/xsub pardon <user>` and `/xsub exempt <user>` from a moderator of the sub.
  - `apply_override` pardons a user. It rewrites the first ledger row that names the
    user, case-insensitively, or appends a placeholder row when no row does.
  - `apply_exemption` adds the sub to the matching row's comma-separated
    `ExemptSubs` cell, which is written back sorted and without repeats.
  - The sheet is the class `Ledger.Sheet`, whose `rows` field the methods update in
    place. Each method is proved equal to a function on the rows (`Override`,
    `Exempt`), and the promised properties are lemmas about those functions.
- **Enforcement** (`cross_sub_ban_bot.py`). For one target sub, every ledger row
  becomes one `Decision`:
  - skip an invalid row;
  - lift the bot's ban on a forgiven user;
  - log a "Manual unban detected" row;
  - or do nothing.

  `Enforcement.EnforceBansOnSub` carries the decisions out on the sub's live ban
  list (`Enforcement.Subreddit`) and on the ledger. A failed unban call skips only
  its own row. `Enforcement.Decide` proves that the loop never bans anyone. Every
  row that gets past the forgiveness and manual-unban checks is already banned, so
  the guard at cross_sub_ban_bot.py:42 always holds. The ban call at
  cross_sub_ban_bot.py:45-54 can therefore never run.
- **Statistics** (`stats_utils.py`).
  - One loop counts the rows whose timestamp parses three ways: per (day, source
    sub), per sub over the last week, and per moderator.
  - `Stats.CountBans` is proved equal to `Stats.Tally`. The meaning of each count is
    stated against the rows: `Stats.TallyDay`, `Stats.TallyWeekly`, `Stats.TallyMods`.
  - `Stats.BuildTable` builds the three-section table, proved equal to
    `Stats.Layout`. The section lemmas prove its order, its counts and its
    stability.

Python's string operations are written out in `Text`:

- `lower`, `strip` and `split()`, over Python's whitespace set;
- `split(',')`, `lstrip(chars)`, `startswith`, substring `in`, `join`;
- the `<` order on `str`.

Dicts used as counters are insertion-ordered association lists (`Counter`).
`sorted` is a stable insertion sort (`Sorting`, `ExemptSubs.SortedDistinct`).

## Model

| member | source | states |
|---|---|---|
| Ledger.FindUser | modmail_utils.py:47-48 | The index found is the first row whose Username equals the name after lowercasing both; None exactly when no row matches |
| Ledger.Exempt | modmail_utils.py:59-67 | apply_exemption keeps the row count and changes only the ExemptSubs cell, of the first matching row only; with no match the ledger is unchanged |
| Ledger.OverrideUpdatesFirstMatch | modmail_utils.py:46-52 | With a match, only the first matching row changes: ManualOverride becomes "yes", Mod the moderator, column 8 the sub; every other cell and row stays and nothing is appended |
| Ledger.OverrideAppendsPlaceholder | modmail_utils.py:53-55 | With no match, exactly the row [username, "manual", "", now, "yes", "", moderator, modsub, ""] is appended |
| Ledger.OverrideKeepsUsernames | modmail_utils.py:45-55 | A pardon deletes no row, renames no row, and adds at most one row |
| Ledger.OverrideThenFound | modmail_utils.py:47-54 | After a pardon the user is found at the row it matched, or at the appended row |
| Ledger.OverrideTwice | modmail_utils.py:47-54 | A second pardon of the same user never appends; repeated with the same moderator and sub, it leaves the ledger unchanged |
| Ledger.ExemptAddsSub | modmail_utils.py:59-65 | The matched row's cell afterwards holds exactly its old entries plus the lowercased sub, strictly sorted |
| Ledger.ExemptIdempotent | modmail_utils.py:62-64 | Exempting the same user in the same sub twice gives the ledger of the first exemption |
| Ledger.Sheet.AppendRow | modmail_utils.py:54 | append_row adds the row at the end and changes nothing else |
| Ledger.Sheet.ApplyOverride | modmail_utils.py:45-55 | The enumerate loop with early return leaves the sheet equal to Override of the old rows and returns True |
| Ledger.Sheet.ApplyExemption | modmail_utils.py:57-67 | Returns True exactly when some row matches; the sheet becomes Exempt of the old rows |
| ExemptSubs.EntriesAreEntries | modmail_utils.py:61-62 | Every parsed entry is nonempty, lowercase, free of commas and of surrounding whitespace |
| ExemptSubs.SortedDistinctSpec | modmail_utils.py:64 | sorted(set) lists each element once, in strictly ascending str order, and nothing else |
| ExemptSubs.SortedListUnique | modmail_utils.py:64 | Two strictly sorted lists with the same elements are equal |
| ExemptSubs.MergedListSpec | modmail_utils.py:61-64 | The list written holds each old entry and the lowercased sub once, ascending, with no blank entry other than a blank sub |
| ExemptSubs.MergeCellReadsBack | modmail_utils.py:61-65 | Reading the written cell back gives the merged list, so the stored set is the old set plus the sub |
| ExemptSubs.MergeCellIdempotent | modmail_utils.py:62-64 | Merging the same sub into the merged cell leaves it unchanged |
| Text.SplitOn | modmail_utils.py:62 | str.split(',') gives at least one piece, and no piece contains the separator |
| Text.WordsAreWords | modmail_utils.py:28 | str.split() gives nonempty tokens without whitespace |
| Text.SplitOnChars | modmail_utils.py:62 | Every character of every piece of a split comes from the string split |
| Text.LStripChars | modmail_utils.py:30 | `lstrip(chars)` removes the longest prefix made only of characters from the set: the result is a suffix of the input, every removed character is in the set, and the result does not start with one |
| Modmail.DecideSpec | modmail_utils.py:15-37 | A conversation yields a command exactly when it has messages, the last has a nonblank body and sender, the sender moderates the sub, the lowercased body starts with a command prefix, and it has at least 3 tokens; pardon is tried first; the target is token 3; a pardon is credited to the sender |
| Modmail.TargetShape | modmail_utils.py:30 | The target is the token with every leading 'u' and '/' removed; it has no whitespace and does not start with 'u' or '/' |
| Modmail.TargetStripsCharacters | modmail_utils.py:37 | The character-set strip turns "u/uma" into "ma", not "uma" |
| Modmail.OutsidersIgnored | modmail_utils.py:20-23 | Conversations whose last sender is not a moderator change nothing and get no reply |
| Modmail.HandleExtendsLedger | modmail_utils.py:27-40 | Handling one conversation deletes and renames no row and adds at most one |
| Modmail.ScanExtendsLedger | modmail_utils.py:14-40 | A scan adds at most one row per conversation and never deletes or renames a row |
| Modmail.HandleConversation | modmail_utils.py:27-40 | The sheet and the reply after one conversation are those of Handle: a pardon always replies, an exemption replies only when the user was found |
| Modmail.ScanInbox | modmail_utils.py:12-40 | One sub's conversations are handled in order; the sheet and replies are those of Scan |
| Modmail.CheckModmail | modmail_utils.py:6-43 | The sheet and the replies after all subs are those of ScanAll: each sub's inbox scanned in turn against the ledger the previous subs left, replies concatenated in sub order |
| Modmail.ScanAllExtendsLedger | modmail_utils.py:6-43 | Scanning all subs never deletes a row or changes a row's Username, and adds at most one row per conversation |
| Modmail.ScanAllOutsidersIgnored | modmail_utils.py:6-43 | If no conversation in any sub ends with a moderator's message, the ledger is unchanged and nothing is replied |
| Enforcement.Decide | cross_sub_ban_bot.py:4-54 | A row is skipped exactly when Username or SourceSub is blank once trimmed. A forgiven user is only ever unbanned, and exactly when banned here with the reason tag in the note. A user who is not forgiven is never unbanned. A user not banned here gets the manual-unban row unless ManualOverride is "yes"/"true". A banned user who is not forgiven gets no action. No row is ever banned, so exempt users and moderators never are |
| Enforcement.UnbannedExactly | cross_sub_ban_bot.py:19-30 | A user leaves the ban list exactly when some valid row names them, they are forgiven, banned here under the bot's reason, and their own unban call does not fail; other rows' failures do not matter |
| Enforcement.LogsAreUnbans | cross_sub_ban_bot.py:25-27 | Every public log entry is an UNBANNED/Forgiven entry, one per unban that went through |
| Enforcement.AppendedAreManualUnbans | cross_sub_ban_bot.py:32-40 | Every appended ledger row is a "Manual unban detected" row for this sub with the pass's time and no override; at most one per ledger row |
| Enforcement.Subreddit.Remove | cross_sub_ban_bot.py:25 | The unban call fails exactly for the users whose calls raise; otherwise the user leaves the ban list |
| Enforcement.Apply | cross_sub_ban_bot.py:19-40 | One decision appends at most the manual-unban row, removes at most the lifted user, and logs only an unban that went through |
| Enforcement.EnforceBansOnSub | cross_sub_ban_bot.py:2-57 | After the loop, the ledger is the old one plus the manual-unban rows in row order, the ban list is the old one minus the users whose unbans went through, and the log lists those unbans in order |
| Counter.CountAllSpec | stats_utils.py:29-38 | A dict filled by setdefault/+= holds each key's number of occurrences, lists the keys in first-appearance order, has no zero count, and its counts add up to the number of keys |
| Counter.FirstSeenDistinct | stats_utils.py:29-38 | The dict's keys are distinct |
| Sorting.SortDescSpec | stats_utils.py:53 | The sort is a permutation, largest key first, and elements with equal keys keep their order |
| Stats.OrUnknown | stats_utils.py:26-27 | The key is the trimmed value, or "unknown" when that is blank; it is never blank and has no surrounding whitespace |
| Stats.CountBans | stats_utils.py:16-38 | The counting loop builds exactly Tally of the rows |
| Stats.TallyDay | stats_utils.py:25-30 | A day's sub counts are the counts of the sub keys of that day's parsable rows |
| Stats.TallyDays | stats_utils.py:25-29 | The daily dict has one entry per parsed day, in first-appearance order |
| Stats.DailySumIsParsable | stats_utils.py:20-30 | All daily counts add up to the number of rows whose timestamp parses |
| Stats.UnparsableIgnored | stats_utils.py:20-23 | Dropping the rows whose timestamp does not parse changes no count |
| Stats.TallyWeekly | stats_utils.py:32-34 | The weekly dict counts the sub keys of the parsable rows dated on or after today - 7 |
| Stats.WeeklyWithinDaily | stats_utils.py:29-34 | A sub's weekly count is at most its daily counts summed over all days |
| Stats.TallyMods | stats_utils.py:36-38 | The moderator dict counts the trimmed Mod of the parsable rows whose actor is not "" or "unknown" in any case |
| Stats.ModsWithinParsable | stats_utils.py:36-38 | Moderator counts add up to at most the parsable rows, and no key is "unknown" in any case |
| Stats.RankedSpec | stats_utils.py:53-60 | A ranked section lists each key once with its count, never increasing, and equal counts keep the dict's order |
| Stats.RankedNames | stats_utils.py:53-60 | A ranked section names every key of its dict and names no key twice |
| Stats.DailySection | stats_utils.py:44-48 | Daily lines go from the newest day down; each count is the number of parsable rows of that day and sub, at least 1; no (day, sub) pair is listed twice, and every pair with a parsable row is listed |
| Stats.WeeklySection | stats_utils.py:50-54 | Weekly lines name every sub of the last week, none twice, each with its count of at least 1, counts never increasing |
| Stats.ModsSection | stats_utils.py:56-60 | Moderator lines name every credited moderator, none twice, each with their count of at least 1, counts never increasing |
| Stats.CountsPositive | stats_utils.py:44-60 | Every count in the table is at least 1 |
| Stats.DailyLines | stats_utils.py:44-48 | The nested loop appends the daily section |
| Stats.RankedLines | stats_utils.py:53-60 | The loop appends one line per ranked entry |
| Stats.BuildTable | stats_utils.py:42-60 | The table is: daily title, daily lines, blank, weekly title, weekly lines, blank, moderator title, moderator lines |
| Stats.WriteStats | stats_utils.py:10-62 | The values written are the layout of the tally of the ledger rows |

## Left out

- Text.Lower: lowercases the ASCII letters only. Python's `str.lower` also folds other alphabets. It is applied to usernames and sub names, and also to ban notes and the reason tag (cross_sub_ban_bot.py:24), to modmail bodies and to ExemptSubs cell text; for non-ASCII letters in any of these, matches that Python makes are not made here.
- ExemptSubs.MergeCellReadsBack: assumes the sub name contains no comma and has no surrounding whitespace (`IsSubName`). A sub like "a,b" is stored as one entry but reads back as "a" and "b". Ledger.ExemptAddsSub, ExemptSubs.MergeCellIdempotent and Ledger.ExemptIdempotent carry the same hypothesis.
- Ledger.Row: every cell is a string. gspread returns numeric-looking cells as numbers, and calling a string method on such a cell raises. The model has no such rows, so none of these effects is modelled:
  - modmail_utils.py:48 and :60 call `.lower()` on the Username cell. A digits-only Username met before the match (or anywhere, when nothing matches) makes `apply_override` or `apply_exemption` raise. The per-sub handler at modmail_utils.py:41-43 then drops the rest of that sub's conversations.
  - The ExemptSubs cell is wrapped in `str(...)` at modmail_utils.py:61, so a numeric ExemptSubs cell does not raise.
  - cross_sub_ban_bot.py:4-10 strips Username and SourceSub inside a `try`, so such a row is skipped.
  - stats_utils.py:26-27 strip SourceSub and Mod outside any `try`, so such a row with a parsable Timestamp aborts `write_stats_sheet`.
- Ledger.Sheet.ApplyOverride: takes `now` as a parameter instead of reading the clock.
- Modmail.ScanInbox, Modmail.CheckModmail: pass one `now` to every pardon of the run. The source reads `utcnow()` afresh in each `apply_override` call that appends a row (modmail_utils.py:53), so placeholder rows appended in one run may carry different timestamps there.
- Enforcement.Decide: takes one `now` per pass instead of calling `utcnow()` for each logged row.
- Stats: takes `today` and an abstract `parseDay` (the strptime format) instead of reading the clock and parsing dates. Daily keys are day numbers; the ISO date strings the source sorts compare the same way.
- The forgiveness test, the reason tag, the exempt-user list and the sub's moderators and bans are inputs.
  - `is_mod` is modelled as membership in a lowercased moderator set.
  - `log_public_action` is modelled as the returned log entries.
  - `convo.reply` is modelled as the returned replies.
- Printing and the sheet and Reddit plumbing are not modelled: `get_all_records`, opening, clearing and updating the Stats sheet, and fetching conversations. A sub's "new" and "mod" conversations are given as one sequence.
- Exceptions. Only a failing unban call is modelled (`Enforcement.Subreddit.failing`).
  - Ledger appends always succeed (cross_sub_ban_bot.py:38-39).
  - The per-row handler at cross_sub_ban_bot.py:56-57 has nothing else to catch once the inputs are total.
  - The per-sub handler at modmail_utils.py:41-43 is not modelled.
- The ban call at cross_sub_ban_bot.py:45-54 has no model of its own. `Enforcement.Decide` proves it is never reached, so `Enforcement.Subreddit` has no ban operation.
- bot_config.py, core_utils.py, main.py, reddit_test.py and super.py are not part of this model.
