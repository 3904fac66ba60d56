/**
 * The bot's database and its command handlers. The drafts, participants,
 * participant_limits and picks tables live in `drafts` (each Draft holds its
 * own rows), assigned_teams in `ledger`, and TEAM_SET in `teamSet`. Each DB
 * helper that writes is a method that updates those fields as its SQL does
 * (the read helpers are the DraftModel queries); each command runs its
 * guards in the order the handler does, returns the reply it would give as
 * an Error, and on success makes the same writes.
 */
module DraftStore {
  import opened Wrappers
  import opened Names
  import opened Catalog
  import opened DraftModel

  class Store {
    /** normalize_name, the normaliser TEAM_SET is keyed by. */
    const normalize: string -> string
    const teamSet: TeamSet
    var drafts: seq<Draft>
    var ledger: Ledger

    ghost predicate Valid()
      reads this
    {
      StoreOk(drafts, ledger, teamSet)
    }

    /** An empty database, with TEAM_SET built from the team list. */
    constructor(teams: seq<string>)
      ensures normalize == NormalizeName
      ensures teamSet == BuildTeamSet(teams, NormalizeName)
      ensures drafts == [] && ledger == map[]
      ensures Valid()
    {
      normalize := NormalizeName;
      teamSet := BuildTeamSet(teams, NormalizeName);
      drafts := [];
      ledger := map[];
    }

    // -------------------------------------------------------------------------
    // DB helpers

    /** create_draft: a new drafts row, active, in the conference stage, cursor 0; its id is the next rowid. */
    method CreateDraft(guild: int, channel: int) returns (id: int)
      modifies this
      ensures id == |old(drafts)| + 1
      ensures drafts == old(drafts) + [Draft(id, guild, channel, Active, ConferenceStage, 0, [], map[], [])]
      ensures ledger == old(ledger)
    {
      id := |drafts| + 1;
      drafts := drafts + [Draft(id, guild, channel, Active, ConferenceStage, 0, [], map[], [])];
    }

    /**
     * add_participants: a row per id with pick_order its position, and a
     * limit row per id (INSERT OR REPLACE), committed together at the end.
     */
    method AddParticipants(draftId: int, ids: seq<int>, picksAllowed: int)
      modifies this
      ensures drafts == Patch(old(drafts), draftId,
                (d: Draft) => d.(roster := d.roster + FreshRows(ids), limits := d.limits + LimitsFor(ids, picksAllowed)))
      ensures ledger == old(ledger)
    {
      var rows: seq<Participant> := [];
      var limits: map<int, int> := map[];
      var order := 0;
      assert LimitsFor(ids[..0], picksAllowed) == map[];
      while order < |ids|
        invariant 0 <= order <= |ids|
        invariant rows == FreshRows(ids[..order])
        invariant limits == LimitsFor(ids[..order], picksAllowed)
        invariant drafts == old(drafts) && ledger == old(ledger)
      {
        var uid := ids[order];
        FreshRowsStep(ids, order);
        LimitsForStep(ids, order, picksAllowed);
        rows := rows + [Participant(uid, order, None, None, false, false)];
        limits := limits[uid := picksAllowed];
        order := order + 1;
      }
      assert ids[..|ids|] == ids;
      drafts := Patch(drafts, draftId, (d: Draft) => d.(roster := d.roster + rows, limits := d.limits + limits));
    }

    /**
     * set_participant_claim: the caller's rows get the team and claimed = 1,
     * and the team is inserted into assigned_teams. When the team is already
     * there the insert violates the primary key and nothing is committed.
     */
    method SetParticipantClaim(draftId: int, user: int, team: string) returns (ok: bool)
      modifies this
      ensures ok <==> team !in old(ledger)
      ensures ok ==> drafts == Patch(old(drafts), draftId, (d: Draft) => d.(roster := ClaimRows(d.roster, user, team)))
      ensures ok ==> ledger == old(ledger)[team := Owner(user, draftId)]
      ensures !ok ==> drafts == old(drafts) && ledger == old(ledger)
    {
      ok := team !in ledger;
      if ok {
        drafts := Patch(drafts, draftId, (d: Draft) => d.(roster := ClaimRows(d.roster, user, team)));
        ledger := ledger[team := Owner(user, draftId)];
      }
    }

    /** set_participant_conference: the caller's rows get the conference and conference_chosen = 1. */
    method SetParticipantConference(draftId: int, user: int, conf: string)
      modifies this
      ensures drafts == Patch(old(drafts), draftId, (d: Draft) => d.(roster := ConferenceRows(d.roster, user, conf)))
      ensures ledger == old(ledger)
    {
      drafts := Patch(drafts, draftId, (d: Draft) => d.(roster := ConferenceRows(d.roster, user, conf)));
    }

    /** increment_current_pick_index: a plain + 1, never wrapped. */
    method IncrementCurrentPickIndex(draftId: int)
      modifies this
      ensures drafts == Patch(old(drafts), draftId, (d: Draft) => d.(cursor := d.cursor + 1))
      ensures ledger == old(ledger)
    {
      drafts := Patch(drafts, draftId, (d: Draft) => d.(cursor := d.cursor + 1));
    }

    /** reset_current_pick_index */
    method ResetCurrentPickIndex(draftId: int, newIndex: int)
      modifies this
      ensures drafts == Patch(old(drafts), draftId, (d: Draft) => d.(cursor := newIndex))
      ensures ledger == old(ledger)
    {
      drafts := Patch(drafts, draftId, (d: Draft) => d.(cursor := newIndex));
    }

    /** set_draft_stage */
    method SetDraftStage(draftId: int, stage: Stage)
      modifies this
      ensures drafts == Patch(old(drafts), draftId, (d: Draft) => d.(stage := stage))
      ensures ledger == old(ledger)
    {
      drafts := Patch(drafts, draftId, (d: Draft) => d.(stage := stage));
    }

    /**
     * record_team_pick: a picks row, an assigned_teams row and cursor + 1,
     * committed together; nothing is committed when the team is already in
     * assigned_teams.
     */
    method RecordTeamPick(draftId: int, user: int, pickNumber: int, team: string) returns (ok: bool)
      modifies this
      ensures ok <==> team !in old(ledger)
      ensures ok ==> drafts == Patch(old(drafts), draftId,
                (d: Draft) => d.(picks := d.picks + [PickRecord(pickNumber, user, team)], cursor := d.cursor + 1))
      ensures ok ==> ledger == old(ledger)[team := Owner(user, draftId)]
      ensures !ok ==> drafts == old(drafts) && ledger == old(ledger)
    {
      ok := team !in ledger;
      if ok {
        drafts := Patch(drafts, draftId,
          (d: Draft) => d.(picks := d.picks + [PickRecord(pickNumber, user, team)], cursor := d.cursor + 1));
        ledger := ledger[team := Owner(user, draftId)];
      }
    }

    /** list_available_teams: the catalog names, in TEAM_SET order, with no assigned_teams row. */
    function ListAvailableTeams(): (r: seq<string>)
      reads this
      ensures forall t :: t in r <==> t in CanonicalNames(teamSet) && t !in ledger
    {
      AvailableTeams(teamSet, ledger.Keys)
    }

    // -------------------------------------------------------------------------
    // Commands

    /** /start_draft with the participant ids already parsed, in pick order. */
    method StartDraft(guild: int, channel: int, ids: seq<int>) returns (r: Result<int, Error>)
      requires Valid()
      modifies this
      ensures Valid()
      ensures |ids| < 2 ==> r == Err(TooFewParticipants) && drafts == old(drafts) && ledger == old(ledger)
      ensures |ids| >= 2 ==>
                r == Ok(|old(drafts)| + 1)
                && drafts == old(drafts) + [NewDraft(|old(drafts)| + 1, guild, channel, ids, DefaultPicksAllowed)]
                && ledger == old(ledger)
    {
      if |ids| < 2 {
        return Err(TooFewParticipants);
      }
      var id := CreateDraft(guild, channel);
      AddParticipants(id, ids, DefaultPicksAllowed);
      var d := NewDraft(id, guild, channel, ids, DefaultPicksAllowed);
      assert map[] + LimitsFor(ids, DefaultPicksAllowed) == LimitsFor(ids, DefaultPicksAllowed);
      assert [] + FreshRows(ids) == FreshRows(ids);
      IdsInOrder(old(drafts), ledger, teamSet);
      assert drafts == old(drafts) + [d];
      StartKeepsStoreOk(old(drafts), ledger, teamSet, guild, channel, ids);
      return Ok(id);
    }

    /**
     * /claim: the turn guards in the conference stage, then the team guards;
     * on success the caller's rows hold the team and the ledger gains it;
     * the cursor and stage stay as they were.
     */
    method Claim(guild: int, user: int, teamName: string) returns (r: Result<string, Error>)
      requires Valid()
      modifies this
      ensures Valid()
      ensures var turn := TurnCheck(old(drafts), guild, ConferenceStage, user);
              turn.Err? ==> r == Err(turn.error) && drafts == old(drafts) && ledger == old(ledger)
      ensures var turn := TurnCheck(old(drafts), guild, ConferenceStage, user);
              var team := TeamCheck(teamSet, normalize, old(ledger), old(drafts), teamName);
              turn.Ok? && team.Err? ==> r == Err(team.error) && drafts == old(drafts) && ledger == old(ledger)
      ensures var turn := TurnCheck(old(drafts), guild, ConferenceStage, user);
              var team := TeamCheck(teamSet, normalize, old(ledger), old(drafts), teamName);
              turn.Ok? && team.Ok? ==>
                r == Ok(team.value)
                && drafts == old(drafts)[turn.value := AfterClaim(old(drafts)[turn.value], user, team.value)]
                && ledger == old(ledger)[team.value := Owner(user, turn.value + 1)]
    {
      var turn := TurnCheck(drafts, guild, ConferenceStage, user);
      if turn.Err? {
        return Err(turn.error);
      }
      var i := turn.value;
      var checked := TeamCheck(teamSet, normalize, ledger, drafts, teamName);
      if checked.Err? {
        return Err(checked.error);
      }
      var team := checked.value;
      CommitClaim(i, user, team);
      return Ok(team);
    }

    /** The write of /claim once its guards have passed: set_participant_claim on the draft's id. */
    method CommitClaim(i: nat, user: int, team: string)
      requires Valid()
      requires i < |drafts|
      requires team in CanonicalNames(teamSet) && team !in ledger
      modifies this
      ensures Valid()
      ensures drafts == old(drafts)[i := AfterClaim(old(drafts)[i], user, team)]
      ensures ledger == old(ledger)[team := Owner(user, i + 1)]
    {
      IdsInOrder(drafts, ledger, teamSet);
      ClaimKeepsStoreOk(drafts, ledger, teamSet, i, user, team);
      var ok := SetParticipantClaim(drafts[i].id, user, team);
      PatchAt(old(drafts), i, (d: Draft) => d.(roster := ClaimRows(d.roster, user, team)));
    }

    /**
     * /choose_conference: the turn guards in the conference stage, a prior
     * claim, then fewer than 2 rows in the normalised conference; on success
     * the draft becomes AfterChoose (conference set, cursor + 1, and the
     * switch to the teams stage with cursor 0 once every row is done).
     */
    method ChooseConference(guild: int, user: int, conference: string) returns (r: Result<string, Error>)
      requires Valid()
      modifies this
      ensures Valid()
      ensures ledger == old(ledger)
      ensures var turn := TurnCheck(old(drafts), guild, ConferenceStage, user);
              turn.Err? ==> r == Err(turn.error) && drafts == old(drafts)
      ensures var turn := TurnCheck(old(drafts), guild, ConferenceStage, user);
              turn.Ok? && !HasClaimed(old(drafts)[turn.value].roster, user) ==>
                r == Err(NotClaimed) && drafts == old(drafts)
      ensures var turn := TurnCheck(old(drafts), guild, ConferenceStage, user);
              var conf := NormalizeConference(conference);
              turn.Ok? && HasClaimed(old(drafts)[turn.value].roster, user)
              && CountConference(old(drafts)[turn.value].roster, conf) >= 2 ==>
                r == Err(ConferenceFull(conf)) && drafts == old(drafts)
      ensures var turn := TurnCheck(old(drafts), guild, ConferenceStage, user);
              var conf := NormalizeConference(conference);
              turn.Ok? && HasClaimed(old(drafts)[turn.value].roster, user)
              && CountConference(old(drafts)[turn.value].roster, conf) < 2 ==>
                r == Ok(conf)
                && drafts == old(drafts)[turn.value := AfterChoose(old(drafts)[turn.value], user, conf)]
    {
      var turn := TurnCheck(drafts, guild, ConferenceStage, user);
      if turn.Err? {
        return Err(turn.error);
      }
      var i := turn.value;
      var draft := drafts[i];
      var row := FirstRow(draft.roster, user);
      var claimedFlag := row.Some? && row.value.claimed;
      if !claimedFlag {
        return Err(NotClaimed);
      }
      var confNorm := NormalizeConference(conference);
      var cnt := CountConference(draft.roster, confNorm);
      if cnt >= 2 {
        return Err(ConferenceFull(confNorm));
      }
      TurnCheckSpec(drafts, ledger, teamSet, guild, ConferenceStage, user);
      CommitChoice(i, user, confNorm);
      return Ok(confNorm);
    }

    /**
     * The writes of /choose_conference once its guards have passed: the
     * conference, the cursor, and (when every row is done) the stage and a
     * reset cursor, each an UPDATE on the draft's id.
     */
    method CommitChoice(i: nat, user: int, conf: string)
      requires Valid()
      requires i < |drafts| && drafts[i].stage == ConferenceStage
      requires drafts[i].cursor < |drafts[i].roster| && drafts[i].roster[drafts[i].cursor].user == user
      requires CountConference(drafts[i].roster, conf) < 2
      modifies this
      ensures Valid()
      ensures drafts == old(drafts)[i := AfterChoose(old(drafts)[i], user, conf)]
      ensures ledger == old(ledger)
    {
      var id := drafts[i].id;
      IdsInOrder(drafts, ledger, teamSet);
      ChooseKeepsStoreOk(drafts, ledger, teamSet, i, user, conf);
      ChooseWrites(drafts, i, user, conf);
      SetParticipantConference(id, user, conf);
      IncrementCurrentPickIndex(id);
      var doneCount := DoneCount(drafts[i].roster);
      var total := |drafts[i].roster|;
      if doneCount >= total {
        SetDraftStage(id, TeamsStage);
        ResetCurrentPickIndex(id, 0);
      }
    }

    /**
     * /pick: the turn guards in the teams stage, the team guards, a chosen
     * conference, then picks made below the limit; on success pick number
     * cursor + 1 is recorded, the ledger gains the team and the cursor
     * moves on by one.
     */
    method Pick(guild: int, user: int, teamName: string) returns (r: Result<PickRecord, Error>)
      requires Valid()
      modifies this
      ensures Valid()
      ensures var turn := TurnCheck(old(drafts), guild, TeamsStage, user);
              turn.Err? ==> r == Err(turn.error) && drafts == old(drafts) && ledger == old(ledger)
      ensures var turn := TurnCheck(old(drafts), guild, TeamsStage, user);
              var team := TeamCheck(teamSet, normalize, old(ledger), old(drafts), teamName);
              turn.Ok? && team.Err? ==> r == Err(team.error) && drafts == old(drafts) && ledger == old(ledger)
      ensures var turn := TurnCheck(old(drafts), guild, TeamsStage, user);
              var team := TeamCheck(teamSet, normalize, old(ledger), old(drafts), teamName);
              turn.Ok? && team.Ok? && !HasConference(old(drafts)[turn.value].roster, user) ==>
                r == Err(NoConference) && drafts == old(drafts) && ledger == old(ledger)
      ensures var turn := TurnCheck(old(drafts), guild, TeamsStage, user);
              var team := TeamCheck(teamSet, normalize, old(ledger), old(drafts), teamName);
              turn.Ok? && team.Ok? && HasConference(old(drafts)[turn.value].roster, user) ==>
                var d := old(drafts)[turn.value];
                var made := UserPickCount(d.picks, user);
                var allowed := PicksAllowed(d.limits, user);
                (made >= allowed ==> r == Err(LimitReached(made, allowed)) && drafts == old(drafts) && ledger == old(ledger))
                && (made < allowed ==>
                      r == Ok(PickRecord(d.cursor + 1, user, team.value))
                      && drafts == old(drafts)[turn.value := AfterPick(d, user, team.value)]
                      && ledger == old(ledger)[team.value := Owner(user, turn.value + 1)])
    {
      var turn := TurnCheck(drafts, guild, TeamsStage, user);
      if turn.Err? {
        return Err(turn.error);
      }
      var i := turn.value;
      var draft := drafts[i];
      var checked := TeamCheck(teamSet, normalize, ledger, drafts, teamName);
      if checked.Err? {
        return Err(checked.error);
      }
      var team := checked.value;
      var userConf := ConferenceOf(draft.roster, user);
      if userConf.None? || userConf.value == "" {
        return Err(NoConference);
      }
      var allowed := PicksAllowed(draft.limits, user);
      var made := UserPickCount(draft.picks, user);
      if made >= allowed {
        return Err(LimitReached(made, allowed));
      }
      var pickNumber := draft.cursor + 1;
      TurnCheckSpec(drafts, ledger, teamSet, guild, TeamsStage, user);
      CommitPick(i, user, team);
      return Ok(PickRecord(pickNumber, user, team));
    }

    /** The write of /pick once its guards have passed: record_team_pick with number cursor + 1. */
    method CommitPick(i: nat, user: int, team: string)
      requires Valid()
      requires i < |drafts| && drafts[i].stage == TeamsStage && drafts[i].cursor < |drafts[i].roster|
      requires drafts[i].roster[drafts[i].cursor].user == user
      requires team in CanonicalNames(teamSet) && team !in ledger
      requires UserPickCount(drafts[i].picks, user) < PicksAllowed(drafts[i].limits, user)
      modifies this
      ensures Valid()
      ensures drafts == old(drafts)[i := AfterPick(old(drafts)[i], user, team)]
      ensures ledger == old(ledger)[team := Owner(user, i + 1)]
    {
      var pickNumber := drafts[i].cursor + 1;
      IdsInOrder(drafts, ledger, teamSet);
      PickKeepsStoreOk(drafts, ledger, teamSet, i, user, team);
      var ok := RecordTeamPick(drafts[i].id, user, pickNumber, team);
      PatchAt(old(drafts), i, (d: Draft) => d.(picks := d.picks + [PickRecord(pickNumber, user, team)], cursor := d.cursor + 1));
    }

    /** /end_draft: the guild's active draft is marked finished; nothing else changes. */
    method EndDraft(guild: int) returns (r: Result<int, Error>)
      requires Valid()
      modifies this
      ensures Valid()
      ensures ledger == old(ledger)
      ensures ActiveDraftIndex(old(drafts), guild).None? ==> r == Err(NoActiveDraft) && drafts == old(drafts)
      ensures ActiveDraftIndex(old(drafts), guild).Some? ==>
                var i := ActiveDraftIndex(old(drafts), guild).value;
                r == Ok(i + 1) && drafts == old(drafts)[i := old(drafts)[i].(status := Finished)]
    {
      var active := ActiveDraftIndex(drafts, guild);
      if active.None? {
        return Err(NoActiveDraft);
      }
      var i := active.value;
      var id := drafts[i].id;
      IdsInOrder(drafts, ledger, teamSet);
      EndKeepsStoreOk(drafts, ledger, teamSet, i);
      drafts := Patch(drafts, id, (d: Draft) => d.(status := Finished));
      PatchAt(old(drafts), i, (d: Draft) => d.(status := Finished));
      return Ok(id);
    }
  }
}
