# Team-draft engine of a Discord bot, in Dafny

This project models the draft engine of a Discord bot that runs team drafts
for a guild (`bot_Version7.py`). An administrator starts a draft with an
ordered list of participants. The draft then runs in two stages:

- **Conference stage.** In pick order, each participant first `/claim`s a
  preassigned team, then `/choose_conference`s a conference. A conference
  takes at most 2 participants.
- **Teams stage.** Participants `/pick` catalog teams in turn, up to a
  per-user limit (7).

A team, once claimed or picked, belongs to its holder across every draft:
the `assigned_teams` table is keyed by team name.

The model has six modules:

- `Wrappers` (`wrappers.dfy`): `Option` and `Result`.
- `Names` (`names.dfy`):
  - `str.split`, `str.strip`, `" ".join` and ASCII `str.lower`;
  - `normalize_name`, and the conference normalisation (the same thing without the `lower()`);
  - what each one keeps and removes (split returns exactly the words between whitespace gaps of any kind and length, strip removes only whitespace), the round trips between them, idempotence and shape lemmas.
- `Catalog` (`catalog.dfy`):
  - `TEAM_SET` as a Python dict: its items in insertion order, the last value winning for a repeated key;
  - the catalog lookup the commands make;
  - `list_available_teams`.
- `DraftModel` (`draft_model.dfy`):
  - the tables as values (each `Draft` carries its participants, limits and picks rows; the `Ledger` is `assigned_teams`);
  - the read queries;
  - the guards of the commands, as `TurnCheck` and `TeamCheck`;
  - the state each successful command leaves (`AfterClaim`, `AfterChoose`, `AfterPick`);
  - the store invariant `StoreOk` and the lemmas that every command keeps it.
- `Rosters` (`rosters.dfy`):
  - `get_conference_slots` and `build_conference_mapping_for_draft` as loops, proved equal to recursive specification functions;
  - the contents of what those loops build;
  - the exact-then-case-insensitive conference lookup of `/conference_view`.
- `DraftStore` (`draft_store.dfy`): class `Store`.
  - Fields: the tables, the ledger, `TEAM_SET` and the normaliser.
  - One method per database helper that writes, changing the fields as its SQL does. The read helpers (`get_participant_by_pick`, `count_conference_users`, `is_team_taken`, `get_team_taken_info`, `get_user_team_picks_count`, `get_user_picks_allowed`) are `DraftModel` functions.
  - One method per command: `StartDraft`, `Claim`, `ChooseConference`, `Pick`, `EndDraft`. Each runs the handler's guards in the handler's order. It returns the reply as an `Error`, or makes the handler's writes on success.

Conventions of the model:

- **Drafts.** `drafts[i]` is the drafts row with id `i + 1`; `create_draft` takes the next AUTOINCREMENT id.
- **`UPDATE ... WHERE id = ?`** is `Patch`: a function applied to every draft with that id.
- **Error replies.** A command that fails a guard returns `Err(...)` and changes nothing.
- **Duplicate team.** An insert into `assigned_teams` of a team that is already there violates the primary key: the code raises `sqlite3.IntegrityError` out of the helper, its transaction is never committed, and the handler never replies. The helpers' `ok == false`, with the state left as it was, stands for that raise. The commands run the team guards first, so in the model they never reach it.
- **The cursor never wraps.** It is `+ 1` and reset to 0, exactly as the code does. The `% total` in the handlers only names the next user in a message, which is not modelled. A consequence (`OneRound`): the teams stage ends after a single round, one pick per participants row, so the 7-pick limit can stop a user only when that user id was listed more than 7 times, and never with distinct ids (`LimitNeedsRepeatedUser`).
- **Conference `""`.** A whitespace-only conference normalises to `""`. It is stored, counts under `count_conference_users` like any other name, is filed under `(unassigned)` by the grouping helpers, and reads as "no conference" in `/pick`, as in the code.

## Model

| member | source | states |
|---|---|---|
| Names.Words | bot_Version7.py:54 | `str.split()` yields only non-empty runs of non-whitespace characters; `WordsOfSpaced` says which runs |
| Names.WordsOfSpaces | bot_Version7.py:54 | leading whitespace of any length and kind does not change `str.split()` |
| Names.WordsOfSpaced | bot_Version7.py:54 | on any string made of words separated by non-empty whitespace gaps of any kind and length, with optional whitespace around, `str.split()` returns exactly those words |
| Names.TrimStart | bot_Version7.py:54 | the leading-whitespace half of `str.strip()`: the result is a suffix of the input, every removed character is whitespace, and it does not start with whitespace |
| Names.TrimEnd | bot_Version7.py:54 | the trailing-whitespace half of `str.strip()`: the result is a prefix of the input, every removed character is whitespace, and it does not end with whitespace |
| Names.Strip | bot_Version7.py:54 | `str.strip()` leaves no whitespace at either end |
| Names.StripRemovesSpace | bot_Version7.py:54 | `str.strip()` returns a slice of its input, and everything it removed before and after that slice is whitespace |
| Names.Lower | bot_Version7.py:54 | `str.lower()` keeps the length and maps each character on its own, A to Z to a to z |
| Names.JoinCollapsed | bot_Version7.py:54 | `" ".join` of words has single spaces between words, no other whitespace, none at either end, and is empty only for no words |
| Names.WordsOfJoin | bot_Version7.py:54 | splitting a join of words gives the words back (round trip) |
| Names.WordsOfStrip | bot_Version7.py:54 | stripping before splitting changes nothing |
| Names.NormalizeName | bot_Version7.py:53-54 | `normalize_name` returns a lower-case name with single spaces and no leading or trailing whitespace |
| Names.NormalizeNameIdempotent | bot_Version7.py:53-54 | `normalize_name(normalize_name(n)) == normalize_name(n)` |
| Names.NormalizeConference | bot_Version7.py:464 | the conference normalisation has single spaces and no leading or trailing whitespace, and has exactly the words of its input, case kept |
| Names.JoinOfWords | bot_Version7.py:464 | a string with single spaces and no outer whitespace is the `" ".join` of its own words |
| Names.NormalizeConferenceOfCollapsed | bot_Version7.py:464 | a conference name that already has single spaces and no outer whitespace is left unchanged |
| Names.NormalizeConferenceIdempotent | bot_Version7.py:464 | the conference normalisation is idempotent |
| Names.NormalizeNameIsLoweredConference | bot_Version7.py:464 | `normalize_name` is the conference normalisation followed by `lower()`, so only the team lookup folds case; stripping first changes neither |
| Catalog.Get | bot_Version7.py:406-409 | `TEAM_SET[norm]` finds a stored item with that key, or reports that none exists |
| Catalog.Put | bot_Version7.py:56 | `d[k] = v`: `k` now maps to `v`, every other key as before, no item other than `(k, v)` added |
| Catalog.PutKeepsKeysUnique | bot_Version7.py:56 | storing an item keeps the dict's keys unique |
| Catalog.BuildDict | bot_Version7.py:56 | a dict comprehension has unique keys and only items it was given |
| Catalog.DictKeepsLast | bot_Version7.py:56 | a dict comprehension keeps, for each key, the value of the last item with that key |
| Catalog.BuildTeamSet | bot_Version7.py:56 | `TEAM_SET` has unique keys, each item being `(normalize_name(t), t)` for a catalog entry `t` |
| Catalog.Lookup | bot_Version7.py:405-409 | a successful lookup returns a catalog name held in `TEAM_SET` |
| Catalog.LookupFindsCatalogName | bot_Version7.py:405-409 | the lookup of a name returns the last catalog entry whose normalisation equals the name's, and is unknown exactly when no entry normalises like it |
| Catalog.LookupOfCanonical | bot_Version7.py:405-409 | a name held in `TEAM_SET`, and any spelling that normalises like it, looks up to that name |
| Catalog.AvailableTeams | bot_Version7.py:277 | a name is listed iff it is a `TEAM_SET` value and not taken |
| Catalog.AvailableTeamsDistinct | bot_Version7.py:277 | the listing repeats no team |
| DraftModel.ActiveDraftIndex | bot_Version7.py:139-148 | the guild's active draft is found iff one exists, and no later draft of the guild is active |
| DraftModel.ActiveIsNewest | bot_Version7.py:142 | the draft found has the highest id among the guild's active drafts |
| DraftModel.IdsInOrder | bot_Version7.py:116-124 | under the invariant, the draft at index `i` has id `i + 1` |
| DraftModel.ParticipantByPick | bot_Version7.py:167-174 | no user is returned exactly when no row has that `pick_order` |
| DraftModel.ParticipantAtIndex | bot_Version7.py:167-174 | with pick orders 0, 1, 2, … the user at the cursor is that row's user, and there is none once the cursor is past the end |
| DraftModel.FirstRow | bot_Version7.py:456-459 | `fetchone()` returns a row of that user, and none exactly when the user has no row |
| DraftModel.CountConference | bot_Version7.py:199-203 | `count_conference_users` is at most the number of rows |
| DraftModel.DoneCount | bot_Version7.py:477-481 | the count of rows with both flags set is at most the total |
| DraftModel.DoneCountFull | bot_Version7.py:477-483 | `done_count >= total` iff every row has both claimed and chosen |
| DraftModel.UserPickCount | bot_Version7.py:260-264 | a user's pick count is at most the number of picks |
| DraftModel.UserPickCountAppend | bot_Version7.py:260-264 | a new picks row adds one to its picker's count and nothing to anyone else's |
| DraftModel.FirstPickNumber | bot_Version7.py:238-240 | the `LIMIT 1` query finds a row for the team iff one exists, and returns that row's pick number |
| DraftModel.FirstPickNumberOf | bot_Version7.py:238-240 | with numbered, distinct picks, the pick number of the team at position `k` is `k + 1` |
| DraftModel.TeamTakenInfo | bot_Version7.py:226-241 | `get_team_taken_info` returns None iff the team is not in `assigned_teams`, and otherwise its owner and draft |
| DraftModel.TakenError | bot_Version7.py:411-422 | a taken team is answered "already picked", "already claimed" or "already taken" |
| DraftModel.TakenInfoTellsPickFromClaim | bot_Version7.py:226-241 | for a team in the ledger the reply is "picked" iff some draft picked it; a pick at position `k` of draft `i` gives picker, draft `i + 1` and number `k + 1`; otherwise it is "claimed" with the ledger's owner and draft |
| DraftModel.PickUnique | bot_Version7.py:243-253 | under the invariant a team occurs in at most one picks row across all drafts |
| DraftModel.TurnCheck | bot_Version7.py:386-403 | a successful turn check yields the index of a draft |
| DraftModel.TurnCheckSpec | bot_Version7.py:386-403 | the turn guards pass iff the guild has an active draft in the stage whose row at the cursor is the caller's; they report the order exhausted iff the cursor equals the roster size |
| DraftModel.TeamCheck | bot_Version7.py:405-422 | a passed team check yields a `TEAM_SET` value nobody holds; a failure is "unknown", "picked" or "claimed" |
| DraftModel.TeamCheckSpec | bot_Version7.py:405-422 | the team guards pass iff the name looks up to a team missing from `assigned_teams`, and then yield that team; "unknown" iff the lookup fails; a held team gets the reply `get_team_taken_info` decides |
| DraftModel.IsTeamTaken | bot_Version7.py:220-224 | `is_team_taken`: the team has an `assigned_teams` row, from any draft |
| DraftModel.PicksAllowed | bot_Version7.py:266-270 | `get_user_picks_allowed`: the user's `participant_limits` value, 0 without a row; `LimitNeedsRepeatedUser` says when the guard on it fires |
| DraftModel.HasClaimed | bot_Version7.py:456-460 | the `claimed` flag of the caller's first row, false without a row; `ChooseConference` refuses with "claim first" exactly when it is false |
| DraftModel.ConferenceOf | bot_Version7.py:545-548 | the conference of the caller's first row, NULL without a row; the grouping helpers file picks under it |
| DraftModel.HasConference | bot_Version7.py:548-549 | `if not user_conf`: NULL and `""` both mean no conference; `Pick` refuses with "no conference" exactly then |
| DraftModel.ClaimRows | bot_Version7.py:185 | every row of the user gets the team and `claimed = 1`; other rows are untouched |
| DraftModel.ConferenceRows | bot_Version7.py:196 | every row of the user gets the conference and `conference_chosen = 1`; other rows are untouched |
| DraftModel.CountAfterClaimRows | bot_Version7.py:185 | a claim changes no conference count |
| DraftModel.CountAfterConferenceRows | bot_Version7.py:196 | choosing a conference does not raise any other conference's count, and raises the chosen one's by at most the user's row count |
| DraftModel.FreshRows | bot_Version7.py:128-132 | the participants rows inserted: one per id, pick orders 0, 1, 2, …, row `k` for user `ids[k]`, nothing claimed or chosen |
| DraftModel.LimitsFor | bot_Version7.py:133-136 | a `participant_limits` row with the given limit for exactly the listed users |
| DraftModel.Patch | bot_Version7.py:207 | `UPDATE ... WHERE id = ?` changes exactly the drafts with that id |
| DraftModel.PatchAt | bot_Version7.py:207 | with ids in order, the update of id `i + 1` replaces exactly the draft at index `i` |
| DraftModel.NewDraft | bot_Version7.py:116-137 | the draft `create_draft` and `add_participants` leave: active, conference stage, cursor 0, the fresh rows and limits, no picks; `StartKeepsStoreOk` proves it sound |
| DraftModel.AfterClaim | bot_Version7.py:425 | the draft a successful `/claim` leaves; `ClaimKeepsStoreOk` proves it keeps the invariant and `CountAfterClaimRows` that no conference count moves |
| DraftModel.AfterChoose | bot_Version7.py:471-486 | the draft a successful `/choose_conference` leaves; `ChooseSwitchesStage` and `ChooseKeepsStoreOk` give its stage, cursor and capacity |
| DraftModel.AfterPick | bot_Version7.py:556-562 | the draft a successful `/pick` leaves; `PickKeepsStoreOk` proves it keeps the invariant |
| DraftModel.StartKeepsStoreOk | bot_Version7.py:374-375 | a new draft with its participants keeps the store invariant |
| DraftModel.ClaimKeepsStoreOk | bot_Version7.py:425 | a claim of a catalog team nobody holds keeps the store invariant, including the one owner per team |
| DraftModel.ChooseKeepsStoreOk | bot_Version7.py:464-474 | a conference choice accepted below 2 keeps the invariant; with distinct user ids no conference holds more than 2 participants |
| DraftModel.ChooseSwitchesStage | bot_Version7.py:477-486 | after a choice the stage is teams iff every row has claimed and chosen; the cursor is then 0, and otherwise one past where it was |
| DraftModel.ChooseWrites | bot_Version7.py:471-486 | the handler's updates, one after the other, leave the draft as `AfterChoose` in both branches |
| DraftModel.PickKeepsStoreOk | bot_Version7.py:553-562 | an accepted pick keeps the invariant: pick numbers 1, 2, 3, … without gaps, distinct teams, the ledger owning each pick, and every user within the limit |
| DraftModel.EndKeepsStoreOk | bot_Version7.py:702-704 | marking a draft finished keeps the invariant |
| DraftModel.PickCountIsRowCount | bot_Version7.py:260-264 | when the k-th pick is made by the user of row k, a user's pick count is that user's number of rows among the first picks |
| DraftModel.OneRound | bot_Version7.py:205-208 | the cursor never wraps, so a teams-stage draft has at most one pick per participants row, and a user at most as many picks as rows |
| DraftModel.LimitNeedsRepeatedUser | bot_Version7.py:553-558 | the 7-pick limit stops the user at the cursor only if that user id has more than 7 rows; with distinct ids it never does |
| Rosters.ConfKey | bot_Version7.py:295 | a conference key is never empty: NULL and `""` file under `(unassigned)` |
| Rosters.Slots | bot_Version7.py:334-346 | the slots dict as a function of the rows; `SlotsContents` gives its contents and `GetConferenceSlots` is proved equal to it |
| Rosters.MapRows | bot_Version7.py:294-300 | the mapping after the participants loop; `MapRowsKeys`, `MapRowsUsers` and `MapRowsEntry` give its contents |
| Rosters.MapPicks | bot_Version7.py:304-313 | the mapping after the picks loop; `MapPicksKeys`, `MapPicksUsers` and `MapPicksEntry` give its contents |
| Rosters.ConferenceMapping | bot_Version7.py:280-314 | the whole mapping; `ConferenceMappingContents` states it in terms of the rows and picks |
| Rosters.GetConferenceSlots | bot_Version7.py:334-346 | the loop builds exactly the slots dict of the rows |
| Rosters.SlotsContents | bot_Version7.py:343-345 | a key is present iff some row files under it, and holds that key's users in pick order |
| Rosters.SlotUsersCount | bot_Version7.py:343-345 | for any key other than `(unassigned)` the slot list is never longer than `count_conference_users`, and exactly as long unless the key is `""` |
| Rosters.SlotsAtMostTwo | bot_Version7.py:336 | under the invariant and distinct user ids, a named conference has at most 2 slots |
| Rosters.FileOne | bot_Version7.py:310-313 | the setdefault steps and the append leave the user's teams extended by the new teams under that conference, the rest of the dict unchanged |
| Rosters.FileRows | bot_Version7.py:294-300 | the participants loop builds exactly the mapping and key order of the rows |
| Rosters.FilePicks | bot_Version7.py:304-313 | the picks loop extends the mapping and key order by exactly the picks |
| Rosters.BuildConferenceMapping | bot_Version7.py:280-314 | both loops together build exactly the conference mapping and its key order |
| Rosters.MapRowsKeys | bot_Version7.py:294-300 | after the participants loop, a conference is a key iff some row files under it |
| Rosters.MapRowsUsers | bot_Version7.py:294-300 | after the participants loop, a user is listed under a conference iff one of their rows files there |
| Rosters.MapRowsEntry | bot_Version7.py:294-300 | after the participants loop, a user's list holds their truthy claimed teams filed there, in row order |
| Rosters.MapPicksKeys | bot_Version7.py:304-313 | the picks loop adds exactly the conferences of the pickers |
| Rosters.MapPicksUsers | bot_Version7.py:304-313 | the picks loop adds a user under a conference iff they picked while filed there |
| Rosters.MapPicksEntry | bot_Version7.py:304-313 | the picks loop appends each user's picked teams, in pick order |
| Rosters.PickKeysInMapping | bot_Version7.py:310-311 | the key order and the mapping keep the same keys through the picks loop |
| Rosters.ConferenceMappingContents | bot_Version7.py:280-314 | a conference is present iff a row or a pick files under it; a user is listed there iff one of their rows or picks is; the list is their claimed teams then their picks |
| Rosters.MappingKeysDistinct | bot_Version7.py:287-313 | the mapping's key order lists every conference once |
| Rosters.ResolveIn | bot_Version7.py:643-650 | the `/conference_view` lookup over any fold and target; `ResolveInSpec` pins it |
| Rosters.ResolveConference | bot_Version7.py:643-650 | that lookup with `lower()` and the stripped, lowered query; `ResolveConferenceSpec` pins it |
| Rosters.ResolveInSpec | bot_Version7.py:643-650 | an exact key wins; else the last key whose folded form equals the target; else nothing; never an empty key |
| Rosters.ResolveConferenceSpec | bot_Version7.py:643-650 | the `/conference_view` lookup: the exact key, else the last key whose `lower()` equals the stripped, lowered query, else not found |
| DraftStore.Store.constructor | bot_Version7.py:56 | an empty database, with `TEAM_SET` built from the team list under `normalize_name` |
| DraftStore.Store.CreateDraft | bot_Version7.py:116-124 | appends an active conference-stage draft at cursor 0 with the next id |
| DraftStore.Store.AddParticipants | bot_Version7.py:126-137 | the draft gains the fresh rows in order and a limit per listed user |
| DraftStore.Store.SetParticipantClaim | bot_Version7.py:182-192 | commits iff the team is not yet in `assigned_teams`; then the user's rows claim it and the ledger names the owner, otherwise nothing changes |
| DraftStore.Store.SetParticipantConference | bot_Version7.py:194-197 | the user's rows in that draft get the conference |
| DraftStore.Store.IncrementCurrentPickIndex | bot_Version7.py:205-208 | the cursor of that draft goes up by one, unwrapped |
| DraftStore.Store.ResetCurrentPickIndex | bot_Version7.py:210-213 | the cursor of that draft is set |
| DraftStore.Store.SetDraftStage | bot_Version7.py:215-218 | the stage of that draft is set |
| DraftStore.Store.RecordTeamPick | bot_Version7.py:243-258 | commits iff the team is not yet in `assigned_teams`; then a picks row is added, the ledger names the owner and the cursor goes up by one, otherwise nothing changes |
| DraftStore.Store.ListAvailableTeams | bot_Version7.py:272-277 | a team is listed iff it is a `TEAM_SET` value with no `assigned_teams` row |
| DraftStore.Store.StartDraft | bot_Version7.py:370-375 | fewer than 2 ids are refused with nothing written; otherwise one new draft with those participants and limit 7, keeping the invariant |
| DraftStore.Store.Claim | bot_Version7.py:385-431 | turn guards, then team guards, each failure changing nothing; on success the caller's rows claim the team, the ledger gains it, cursor and stage are unchanged |
| DraftStore.Store.CommitClaim | bot_Version7.py:425 | the claim write leaves the draft as `AfterClaim` and the ledger extended, keeping the invariant |
| DraftStore.Store.ChooseConference | bot_Version7.py:435-500 | turn guards, "claim first", then "conference full" at 2 rows under the case-sensitive normalised name; on success the draft becomes `AfterChoose` |
| DraftStore.Store.CommitChoice | bot_Version7.py:471-486 | the choice writes leave the draft as `AfterChoose` and the ledger unchanged, keeping the invariant |
| DraftStore.Store.Pick | bot_Version7.py:504-573 | guards in the handler's order: turn, team, conference set, limit; on success pick number cursor + 1 is recorded, the ledger gains the team, the cursor moves on by one |
| DraftStore.Store.CommitPick | bot_Version7.py:560-562 | the pick write leaves the draft as `AfterPick` and the ledger extended, keeping the invariant |
| DraftStore.Store.EndDraft | bot_Version7.py:694-705 | no active draft is refused; otherwise only that draft's status becomes finished |

## Left out

- Discord plumbing is not modelled: intents, command registration, `on_ready`, member lookups, reply texts and the file attachment for long output. A reply is the `Error` value or the `Ok` value a command returns.
- The administrator checks of `/start_draft` and `/end_draft` are not modelled; they depend on guild permissions and the environment.
- Mention parsing in `/start_draft` is not modelled; `StartDraft` takes the parsed ids.
- SQLite, `aiosqlite` and `init_db` are not modelled: the tables are in-memory values. The rows a grouping query returns are parameters of the grouping methods (`GetConferenceSlots`, `BuildConferenceMapping`).
- The `created_at` and `picked_at` timestamps are not modelled.
- Loading `teams.json` and `.env` is not modelled; the team list is the constructor's parameter.
- Concurrency is not modelled: each command is one atomic method. The code checks a team and inserts it on separate connections, which is a race.
- `format_conference_mapping`, the `/list_conferences` sort and the `/status`, `/list_available`, `/conference_rosters` and `/conference_view` message building are presentation. Only the data they show is modelled.
- `get_latest_draft`, `get_current_or_latest_draft` and `get_total_participants` are not modelled. They only choose which draft a view shows, or name the next user in a message.
- `Names.Lower`: only A to Z are lowered; Unicode case mapping is not modelled.
- `Rosters.FileOne`: the order of users inside a conference is not tracked. The model records each user's list of teams under a conference, not where the user falls in the inner dict's order.
- `Rosters.BuildConferenceMapping`: the picks are taken in insertion order. The query orders them by `pick_number`, and under the store invariant (`PicksNumbered`) the two orders coincide.
- `DraftModel.ChooseKeepsStoreOk`: the at-most-2-per-conference bound is proved only for rosters whose user ids are distinct. If `/start_draft` is given the same id twice, the `UPDATE ... WHERE user_id` writes both rows and a conference can reach 3.
- `DraftStore.Store.AddParticipants`: it appends rows to whichever draft has that id. The model proves the invariant only for the call `StartDraft` makes, on a fresh draft.
