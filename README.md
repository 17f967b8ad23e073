# MechaBowser moderation and utility core, modelled in Dafny

MechaBowser is a Discord moderation bot. This project models two parts of it.

The first is the **infraction expiry engine and strike accounting** of the
moderation cog:

- the `StrikeRange` converter, which admits strike counts 0..16;
- the in-memory timer registry `taskHandles` and `schedule_task`;
- what one firing of a timer does (`expire_actions`) to strike and mute records;
- the start-up rehydration of the registry from the database (`cog_load`);
- the 16-strike cap of `_strike`;
- the oldest-first reduction loop of `_strike_set`.

The moderation cog is a class, `Moderation.Cog`. Its fields are:

- the punishment records (`puns`);
- the user documents (`users`);
- the timer registry (`taskHandles`);
- the ids whose handle was cancelled;
- a log of what was sent to Discord.

Each of its methods is proved to end in the state that a function over a
`Store` value computes: `Expiry.Expire`, `Recovery.Rehydrate`,
`Strikes.IssueStrike`, `Strikes.Reduce` and `Strikes.SetStrikes`. The
properties of the engine are lemmas about those functions.

The second part is the **text and aggregation logic** of the utility cog:

- the affiliate-link cleaning of `on_automod_finished`: query keys are
  lower-cased, every suffix of the host name is matched against the glob
  table, listed keys are dropped, and Amazon `/exec/obidos/ASIN/<id>/` paths
  are rewritten to `/dp/<id>`;
- the ranking of `_tag_list` searches;
- the strike tallies, the field splitting and the notes budget of `_history`
  and `_info`;
- the argument checks and purge of `_clean`;
- the name blacklist of `_tag_create`.

Where the source mutates step by step (dictionary `pop`s in loops, the
`searchRanks` list, accumulating tallies), the model is a method with a loop.
That method is proved against a specification function or predicate.

Modules, one per file:

- `Options`, `Text`: an option type, and the Python string operations used.
- `StrikeRange`: the converter.
- `Punishments`: the store, timers and active strike sums.
- `Expiry`: the firing function and its lemmas.
- `Recovery`: the start-up load.
- `Strikes`: `_strike` and `_strike_set`.
- `Moderation`: the cog class.
- `Affiliate`: link cleaning.
- `TagSearch`: tag search ranking.
- `History`: tallies, splitting and notes.
- `Clean`: the `_clean` command.
- `TagEdit`: the tag blacklist.

## Model

| member | source | states |
|---|---|---|
| StrikeRange.Convert | modules/moderation.py:19-33 | an argument is accepted only when it is non-empty, `int()` parses it, and the value lies in 0..16; the accepted value is that integer |
| StrikeRange.DecimalConverts | modules/moderation.py:19-33 | every integer written in decimal converts to itself when it is in 0..16 and to `BadArgument` otherwise, so exactly 0..16 are admitted |
| Punishments.Schedule | modules/moderation.py:863-869 | after scheduling, `id` has exactly one handle with the new delay and guild; an earlier handle of `id` is recorded as cancelled; no other handle and no document changes |
| Punishments.ScheduleTwice | modules/moderation.py:863-869 | scheduling an id twice leaves a single handle with the second delay, and the first handle is cancelled |
| Punishments.Coarse | modules/moderation.py:889-895 | the recheck delay is at most 12 hours, and equals the time left when that is shorter |
| Punishments.ActiveTotalIsQuerySum | modules/moderation.py:686-688 | the active strike total equals the sum of `active_strike_count` along the store's strike query |
| Punishments.ActiveStrikeTotal | modules/moderation.py:686-688 | the summing loop returns the user's active strike total |
| Punishments.ActiveStrikesSorted | modules/moderation.py:760 | the sorted query lists every active strike of the user exactly once, with timestamps non-decreasing |
| Punishments.OldestActiveStrike | modules/moderation.py:909-911 | the first document of the sorted query: an active strike of the user with the smallest timestamp, or none when the user has none |
| Punishments.ActiveTotalUpdate | modules/moderation.py:907-920 | rewriting one record changes the user's active total by exactly the change in that record's contribution |
| Expiry.ExpireFrame | modules/moderation.py:871-970 | a firing touches only the fired record and the record it issues, only deactivates records, and changes the registry only at the fired id and the strike it hands over to |
| Expiry.StrikeRecheck | modules/moderation.py:886-897 | when the user's `strike_check` is ahead, the only effect is a reschedule of the same id after `min(12h, strike_check - now)` |
| Expiry.StrikeDecayAccounting | modules/moderation.py:907-929 | a due strike drops its record's count by exactly one, stays active only while the count is positive, and lowers the user's total by one; a record with strikes left is timed again for 12 hours, a used-up one hands the timer to the oldest other strike or loses it; `strike_check` goes a week ahead, except when no active strike is left, where the user documents are unchanged |
| Expiry.LastStrikeHandover | modules/moderation.py:907-916 | a record losing its last strike becomes inactive with count 0; the oldest remaining active strike is scheduled for 12 h, or, when there is none, the fired handle is removed |
| Expiry.ExpireKeepsStrikeRecordsSound | modules/moderation.py:918-929 | no firing breaks the invariant `0 <= active_strike_count <= strike_count`, with `active` exactly when the count is positive; under it the non-positive-count branch never runs |
| Expiry.MuteNotDue | modules/moderation.py:931-943 | a mute whose expiry is ahead is only rescheduled after `min(12h, expiry - now)`; a due mute of a member who left changes nothing |
| Expiry.MuteResolution | modules/moderation.py:945-970 | an expired mute of a present member becomes inactive; an inactive `unmute` record by the bot whose context is the mute is issued; the timeout is cleared and the handle removed |
| Expiry.ExpireTwice | modules/moderation.py:871-970 | firing the same id twice at the same moment changes records and users at most once |
| Moderation.Cog.ScheduleTask | modules/moderation.py:863-869 | the cog's new state is `Schedule` of its old state |
| Moderation.Cog.ExpireActions | modules/moderation.py:871-970 | the outcome and new state are `Expire` of the old state, with the oldest strike the query returned |
| Moderation.Cog.CogLoad | modules/moderation.py:52-79 | the new state, and whether the loop finished, are `Rehydrate` of the old state over the pending query |
| Moderation.Cog.StrikeCommand | modules/moderation.py:670-740 | the result and new state are `IssueStrike` of the old state |
| Moderation.Cog.ReduceStrikes | modules/moderation.py:760-792 | the end of the loop and new state are `Reduce` of the old state |
| Moderation.Cog.StrikeSetCommand | modules/moderation.py:742-834 | the result and new state are `SetStrikes` of the old state, over the store's sorted query |
| Moderation.Cog.constructor | modules/moderation.py:37-44 | a new cog has an empty registry and has sent nothing |
| Recovery.StrikeDelay | modules/moderation.py:66-75 | a strike's first delay is between 0 and 12 hours, and equals the time to `strike_check` when that is ahead and shorter |
| Recovery.RehydrateFrame | modules/moderation.py:57-79 | the load changes no document and only adds or replaces timers of pending ids |
| Recovery.RehydrateCompletes | modules/moderation.py:59-79 | the load runs to the end exactly when every pending strike of a user not yet tracked has a user document with a `strike_check` and every pending mute has an expiry (both directions; at start-up, with no user tracked, for every pending strike) |
| Recovery.RehydrateSchedulesMutes | modules/moderation.py:77-79 | a finished load leaves a timer on every pending mute |
| Recovery.RehydrateCoversStrikeUsers | modules/moderation.py:59-75 | a finished load leaves, for every untracked user with a pending strike, a timer on one of that user's pending strikes |
| Recovery.RehydrateNewTimers | modules/moderation.py:57-79 | every timer the load creates belongs to a mute or to the first strike of an untracked user, and no two new strike timers share a user |
| Recovery.RecoveryRebuildsRegistry | modules/moderation.py:52-79 | from an empty registry, a finished load leaves a timer on every active mute, a timer on exactly one active strike per user with active strikes, and no other timer; every first delay is at most 12 h |
| Strikes.StrikeRefusals | modules/moderation.py:671-693 | the refusals come in the source's order: zero count, then a reason over 990 characters, then a user never seen, then a cap overrun by the stated amount |
| Strikes.StrikeCap | modules/moderation.py:686-740 | a strike that is issued leaves the user with exactly the reported total, the old total plus `count`, which is at most 16; the new record is timed for 12 h and `strike_check` is a week ahead; a refusal changes nothing |
| Strikes.IssueStrikeKeepsSound | modules/moderation.py:714-735 | issuing strikes keeps every strike record consistent |
| Strikes.ReduceFrame | modules/moderation.py:760-792 | the reduction touches only records of the query and the user's document; the registry is unchanged or has exactly one record of the query newly timed for 12 hours, and is unchanged when the loop does not balance |
| Strikes.ReduceTimesEmptiedRecord | modules/moderation.py:763-779 | on two strike records, a reduction that empties the older one deactivates it yet times it again, leaves the newer without a timer, and the older one's firing ends at the `active` test with nothing changed |
| Strikes.ReduceTotal | modules/moderation.py:760-792 | each step lowers the user's active total by what it takes off a record, so a balanced reduction removes exactly `diff` strikes |
| Strikes.ReduceNeverLeftover | modules/moderation.py:794-795 | when `0 < diff` and the records hold at least `diff`, the accumulator reaches 0 and the `ValueError` is never raised |
| Strikes.ReduceOldestFirst | modules/moderation.py:760-792 | when a record of the query was changed, every earlier record was zeroed and deactivated; every changed record keeps a count between 0 and its old one, and is active exactly while it is positive |
| Strikes.SetStrikesReachesCount | modules/moderation.py:742-834 | for a target C in 0..16 and A active strikes: C = A is refused; C > A issues exactly C - A strikes; C < A removes exactly A - C strikes and leaves C active |
| Strikes.SetStrikesKeepsSound | modules/moderation.py:742-834 | setting strikes keeps every strike record consistent |
| Affiliate.Get | modules/utility.py:97 | a query lookup is absent exactly when the key is not in the dictionary |
| Affiliate.FromPairsOfDict | modules/utility.py:78 | `dict` of a dictionary's own pairs is that dictionary |
| Affiliate.LowerKeysOfLower | modules/utility.py:80 | lower-casing keys already in lower case changes nothing |
| Affiliate.BlockedIff | modules/utility.py:83-99 | a key is stripped exactly when some suffix of the host name matches a glob whose tag list holds it |
| Affiliate.AwcAlwaysStripped | modules/utility.py:34 | the catch-all rule strips `awc` from every link |
| Affiliate.AmazonTagsStripped | modules/utility.py:35 | on an Amazon host, `colid`, `coliid`, `tag` and `ascsubtag` are all stripped |
| Affiliate.AmazonDomainIff | modules/utility.py:84-88 | the Amazon path rewrite is tried exactly when some suffix of the host starts with `amazon.` |
| Affiliate.AsinSound | modules/utility.py:89 | a path the ASIN pattern matches is `/exec/obidos/ASIN/` + a word + `/` + a line tail, and the group is that word |
| Affiliate.AsinComplete | modules/utility.py:89 | every path of that shape matches, with the word as its group |
| Affiliate.StripTags | modules/utility.py:96-99 | the query loses exactly the listed tags, keeps its other entries in order, and reports whether it lost any |
| Affiliate.StripDomain | modules/utility.py:94-99 | at one host suffix, the query loses exactly the tags of the matching globs |
| Affiliate.CleanLink | modules/utility.py:76-99 | a link is modified exactly when it loses a key or its path is rewritten; the path becomes `/dp/<word>` on an Amazon ASIN path; the query is the lower-cased query without the blocked keys |
| Affiliate.CleanKeeps | modules/utility.py:78-99 | the cleaned query holds every key that is not blocked, with its value, and no blocked key |
| Affiliate.CleanTwice | modules/utility.py:78-99 | cleaning a cleaned link keeps its query and reports no change, unless its path is still an ASIN path |
| Affiliate.RewriteChangesOnlyChangedLinks | modules/utility.py:101-106 | the message is reposted exactly when some link changed, and when none did the content is the original |
| Affiliate.RewriteContent | modules/utility.py:65-106 | the loop over the links computes the content and flag of `RewriteLinks` |
| Text.CountPositiveIffContains | modules/utility.py:756-758 | `str.count` is positive exactly when the text occurs |
| Text.PrefixGlob | modules/utility.py:87 | a literal followed by `*` matches exactly the names that start with the literal |
| TagSearch.NameRank | modules/utility.py:747-751 | the name scores 1000 exactly when it starts with the search, 800 exactly when it only contains it, and 0 exactly when it does not contain it |
| TagSearch.RankPositiveIff | modules/utility.py:744-758 | a tag's rank is never negative, and is positive exactly when the search occurs in the name, or in the lower-cased description or content |
| TagSearch.NameDominates | modules/utility.py:744-758 | a prefix match ranks at least 1000, a substring match at least 800, and otherwise the rank is 15 per description match plus 1 per content match |
| TagSearch.SortByRank | modules/utility.py:760-761 | the stable descending sort lists every index once, by non-increasing rank with list order kept among ties |
| TagSearch.SortedUnique | modules/utility.py:760-761 | two index lists with the same members, both in that order, are equal, so the stable sort's result is determined |
| TagSearch.SearchTags | modules/utility.py:742-765 | an empty search lists every tag; otherwise the result is the tags of positive rank, highest rank first, in list order among ties, each once |
| TagSearch.SearchResultRanked | modules/utility.py:760-765 | every tag of a result has positive rank, ranks never rise along the result, and every tag of positive rank is in it |
| TagSearch.SearchResultUnique | modules/utility.py:760-765 | the search result for a list and a text is unique |
| History.HistoryTally | modules/utility.py:555-570 | active is the sum of `active_strike_count` over strike records; total is strikes given minus strikes removed |
| History.InfoTally | modules/utility.py:424-444 | the same two sums, the expiry of the last-listed active mute, and `min(5, n)` entries shown |
| History.LastActiveMuteIsLast | modules/utility.py:437-439 | no active mute gives no expiry; otherwise the reported expiry is that of the last active mute in the list |
| History.SumsPermutation | modules/utility.py:557 | the tallies do not depend on the order of the records |
| History.HistoryAgreesWithStore | modules/utility.py:555-570 | over the user's records, the active tally equals the active strike total that `_strike` caps, while strike records are consistent |
| History.SplitValue | modules/utility.py:585-605 | a value of at most 1024 characters stays whole; a longer one splits into ceil(len/1018) pieces, each at most 1024 characters |
| History.PiecesSplit | modules/utility.py:587-600 | markers are `...` after all pieces but the last and before all pieces but the first; every unmarked piece but the last has 1018 characters; unmarked and joined, the pieces give back the value |
| History.Offsets | modules/utility.py:587 | `range(0, len, 1018)` has ceil(len/1018) offsets, the k-th being 1018·k |
| History.NotesField | modules/utility.py:399-417 | the notes shown are the longest leading run whose lengths total at most 924; the list is flagged as cut exactly when some were left out |
| Clean.CleanRuns | modules/utility.py:213-225 | a stray argument is refused first; then a count outside 1..2000 is refused; the purge runs exactly for a valid count that is under 100 or approved |
| Clean.CleanCommand | modules/utility.py:213-258 | a purge leaves the history `Purge` computes; every refusal or cancellation leaves it unchanged |
| Clean.PurgeKeepsOrder | modules/utility.py:254 | the purge deletes at most `limit` messages, the messages past the scanned window remain as they were, and the result is a subsequence of the history, so the survivors keep their order |
| Clean.KeptSubsequence | modules/utility.py:254 | the messages a scan keeps are a subsequence of the scan |
| Clean.PurgeSelects | modules/utility.py:248-254 | a message survives exactly when it was not selected by the user filter or lies past the scanned window |
| Clean.CleanSelects | modules/utility.py:248-254 | a clean that runs keeps exactly the unselected and older messages; with no user named and a count covering the channel, it empties it |
| TagEdit.EditEffect | modules/utility.py:793-815 | a reserved name, in any case, is refused and changes nothing; any other name becomes an active tag under its lower-cased form with the new content, and no other tag changes |
| TagEdit.EditKeepsRevisions | modules/utility.py:800-815 | revising appends exactly one revision, holding the old content, the editor and the time; a new tag has no revisions; the reply says "updated" exactly for a tag that was active |
| TagEdit.EditKeepsWellNamed | modules/utility.py:795-815 | editing keeps every tag name lower case and outside the reserved list |

## Left out

- The default count of 1 for `_strike` when no count is given (modules/moderation.py:670) belongs to argument parsing. `Strikes.IssueStrike` takes the count as given.
- Discord I/O is not modelled. This covers direct messages, mod-log posts, embed texts and reply messages, webhooks, reactions and deleting the command message. The moderation model keeps an abstract log of DMs, timeout clears and mod-log posts. Nothing is modelled of how the texts are formatted.
- MongoDB is modelled as maps and is not queried. A query's answer is an input constrained by a predicate, such as `IsStrikeQuery` or `IsPendingQuery`.
  - Documents with equal timestamps can come back from the store in any order, so the model accepts any such order.
  - `tools.issue_pun` is not part of this model. A new strike record is taken to start with `active_strike_count = strike_count`. A new destrike or unmute record is taken to be inactive.
- asyncio is not modelled: no `call_later` timing, no `cancel` semantics beyond recording the id, no 0.5 s settle sleep, and no concurrency between firings.
- Time is an integer `now` given as a parameter. The floats of `time.time()` are not modelled.
- `urllib` is not modelled.
  - `urlsplit`, `parse_qsl` and `tools.linkRe` are inputs: host labels, path, query pairs, and a `None` for a link that fails to split.
  - The percent-encoding of `urlencode` is not modelled. `Affiliate.Encode` joins `k=v` pairs unencoded.
  - `urlunsplit` is modelled only for links with a host.
  - A link without a host name raises in the source on `hostname.split`. That case is not modelled.
- Text is ASCII only.
  - `str.lower`, `\w`, and the whitespace and digits that `int()` accepts are taken over ASCII.
  - `pathlib` matching recognises only the `*` wildcard.
- `cog_unload`, the public mod-log backlog posting at the start of `cog_load`, and the other commands of both cogs are not modelled.
- Loading the tag list for `_tag_list` is not modelled: the access filter, lower-casing and sorting by name. The list is an input.
- The two tally loops of `_info` and `_history` only sum. The "X active strikes (Y in total)" line they print when the total is non-zero is formatting and is not modelled.
- `History.NotesField` does not model the field text itself. That covers the "Only showing k/n notes" prefix, the header, and the newline separators. It also does not model omitting the field when there are no notes.

## Code and description

Three behaviours of the code worth knowing:

- **Last strike expiring, no strike left.** When a strike record's last
  strike expires and the user has no other active strike, `expire_actions`
  returns right after deleting the handle. It does not set the user's
  `strike_check` a week ahead in that case (modules/moderation.py:912-914).
  `Expiry.StrikeDecayAccounting` states that the user documents are then
  unchanged.
- **Due mute of a member who left.** The handle of a due mute whose member
  left the guild is not removed. The firing returns before the deletion
  (modules/moderation.py:940-943), and `Expiry.MuteNotDue` states that
  nothing changes.
- **`strike set` emptying the absorbing record.** In the reduction loop of
  `_strike_set`, the record that takes the rest of `diff` may end with no
  active strike left. It is deactivated but still timed again for 12 hours
  (modules/moderation.py:763-779), and no other record gets a timer. When
  that timer fires, `expire_actions` returns at the `active` test
  (modules/moderation.py:880) without handing over to the user's next
  strike. A newer active record that holds no timer of its own gets none
  until a later handover or the next `cog_load`. That is the usual case
  after `cog_load`, which times one strike per user
  (modules/moderation.py:61-75). A record issued by `_strike` since then
  keeps its own 12-hour timer (modules/moderation.py:714-735).
  `Strikes.ReduceTimesEmptiedRecord` shows this on a two-record example.

Other code behaviours the model keeps:

- A Python exception ends the operation. Whatever was written before it
  stays written.
  - A missing user document in a strike firing and a missing handle at
    `del self.taskHandles[...]` are explicit outcomes
    (`StrikeCheckUnreadable`, `HandleMissing`).
  - In `cog_load`, a strike user without a document or a `strike_check`,
    or a mute without an expiry, stops the load (`complete` is false).
- The `mute` branch of `expire_actions` applies only when `expiry` is
  truthy. A mute with an expiry of `0` is treated like a mute without one.
