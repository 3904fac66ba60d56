/**
 * The draft engine's state as values: the drafts table with, per draft, its
 * participants rows, participant_limits rows and picks rows; the global
 * assigned_teams ledger; the queries the commands make; the state each
 * successful command leaves; and the invariants those transitions keep.
 */
module DraftModel {
  import opened Wrappers
  import opened Catalog

  /** picks_allowed_for_teams: the per-user pick limit /start_draft passes. */
  const DefaultPicksAllowed: int := 7

  /** drafts.stage: "conference" (claims and conference choices), then "teams" (picks). */
  datatype Stage = ConferenceStage | TeamsStage

  /** drafts.status: "active" or "finished". */
  datatype Status = Active | Finished

  /** A participants row; its draft_id is the id of the Draft that holds it. */
  datatype Participant = Participant(
    user: int,
    pickOrder: int,
    claimedTeam: Option<string>,
    conference: Option<string>,
    claimed: bool,
    conferenceChosen: bool)

  /** A picks row; its draft_id is the id of the Draft that holds it. */
  datatype PickRecord = PickRecord(pickNumber: int, user: int, team: string)

  /** A drafts row with the participants, participant_limits and picks rows of that draft. */
  datatype Draft = Draft(
    id: int,
    guild: int,
    channel: int,
    status: Status,
    stage: Stage,
    cursor: int,               // current_pick_index
    roster: seq<Participant>,  // participants rows, in insertion order
    limits: map<int, int>,     // participant_limits: user_id -> picks_allowed
    picks: seq<PickRecord>)    // picks rows, in insertion order

  /** An assigned_teams row without its key: who holds the team, and in which draft. */
  datatype Owner = Owner(user: int, draftId: int)

  /** assigned_teams, keyed by its primary key team_name, shared by all drafts. */
  type Ledger = map<string, Owner>

  /** What get_team_taken_info returns: (user_id, draft_id, pick_number or None). */
  datatype TakenInfo = TakenInfo(user: int, draftId: int, pickNumber: Option<int>)

  /** Every reply a command gives instead of acting. */
  datatype Error =
    | NoActiveDraft
    | WrongStage
    | OrderExhausted                                  // "Draft order exhausted or misconfigured."
    | NotYourTurn(expected: int)
    | UnknownTeam
    | AlreadyPicked(owner: int, draftId: int, pickNumber: int)
    | AlreadyClaimed(owner: int, draftId: int)
    | AlreadyTaken                                    // taken, but no assigned_teams row could be read back
    | NotClaimed
    | ConferenceFull(conference: string)
    | NoConference
    | LimitReached(made: int, allowed: int)
    | TooFewParticipants

  // ---------------------------------------------------------------------------
  // Queries

  predicate IsActiveIn(d: Draft, guild: int) {
    d.guild == guild && d.status == Active
  }

  /** get_active_draft: the last draft (highest id) of the guild that is still active. */
  function ActiveDraftIndex(ds: seq<Draft>, guild: int): (r: Option<nat>)
    ensures r.Some? ==> r.value < |ds| && IsActiveIn(ds[r.value], guild)
    ensures r.Some? ==> forall j :: r.value < j < |ds| ==> !IsActiveIn(ds[j], guild)
    ensures r.None? ==> forall j :: 0 <= j < |ds| ==> !IsActiveIn(ds[j], guild)
  {
    if ds == [] then None
    else
      var n := |ds| - 1;
      if IsActiveIn(ds[n], guild) then Some(n)
      else
        var r := ActiveDraftIndex(ds[..n], guild);
        assert forall j :: 0 <= j < n ==> ds[..n][j] == ds[j];
        r
  }

  /** The first draft whose id is id (ids are unique, so the only one). */
  function DraftById(ds: seq<Draft>, id: int): (r: Option<nat>)
    ensures r.Some? ==> r.value < |ds| && ds[r.value].id == id
    ensures r.None? ==> forall j :: 0 <= j < |ds| ==> ds[j].id != id
  {
    if ds == [] then None
    else if ds[0].id == id then Some(0)
    else
      var r := DraftById(ds[1..], id);
      assert forall j :: 1 <= j < |ds| ==> ds[1..][j - 1] == ds[j];
      if r.Some? then Some(r.value + 1) else None
  }

  /** The picks rows of a draft (none for an unknown id). */
  function PicksOf(ds: seq<Draft>, id: int): seq<PickRecord> {
    match DraftById(ds, id)
    case Some(i) => ds[i].picks
    case None => []
  }

  /** get_participant_by_pick: the user of the first row whose pick_order is index. */
  function ParticipantByPick(roster: seq<Participant>, index: int): (r: Option<int>)
    ensures r.None? <==> forall k :: 0 <= k < |roster| ==> roster[k].pickOrder != index
  {
    if roster == [] then None
    else if roster[0].pickOrder == index then Some(roster[0].user)
    else
      var r := ParticipantByPick(roster[1..], index);
      assert forall k :: 1 <= k < |roster| ==> roster[1..][k - 1] == roster[k];
      r
  }

  /** The first participants row of a user (what a fetchone() on draft_id and user_id reads). */
  function FirstRow(roster: seq<Participant>, user: int): (r: Option<Participant>)
    ensures r.Some? ==> r.value in roster && r.value.user == user
    ensures r.None? <==> forall k :: 0 <= k < |roster| ==> roster[k].user != user
  {
    if roster == [] then None
    else if roster[0].user == user then Some(roster[0])
    else
      var r := FirstRow(roster[1..], user);
      assert forall k :: 1 <= k < |roster| ==> roster[1..][k - 1] == roster[k];
      r
  }

  /** count_conference_users: rows whose conference equals conf (a NULL conference equals nothing). */
  function CountConference(roster: seq<Participant>, conf: string): (n: nat)
    ensures n <= |roster|
  {
    if roster == [] then 0
    else (if roster[0].conference == Some(conf) then 1 else 0) + CountConference(roster[1..], conf)
  }

  /** Rows with claimed = 1 and conference_chosen = 1. */
  function DoneCount(roster: seq<Participant>): (n: nat)
    ensures n <= |roster|
  {
    if roster == [] then 0
    else (if roster[0].claimed && roster[0].conferenceChosen then 1 else 0) + DoneCount(roster[1..])
  }

  /** get_user_team_picks_count: picks rows of a user. */
  function UserPickCount(picks: seq<PickRecord>, user: int): (n: nat)
    ensures n <= |picks|
  {
    if picks == [] then 0
    else
      var n := |picks| - 1;
      UserPickCount(picks[..n], user) + (if picks[n].user == user then 1 else 0)
  }

  /** get_user_picks_allowed: the participant_limits value, or 0 without a row. */
  function PicksAllowed(limits: map<int, int>, user: int): int {
    if user in limits then limits[user] else 0
  }

  /** The pick_number of the first picks row for team (the LIMIT 1 query). */
  function FirstPickNumber(picks: seq<PickRecord>, team: string): (r: Option<int>)
    ensures r.None? <==> forall k :: 0 <= k < |picks| ==> picks[k].team != team
    ensures r.Some? ==> exists k :: 0 <= k < |picks| && picks[k].team == team && picks[k].pickNumber == r.value
  {
    if picks == [] then None
    else if picks[0].team == team then Some(picks[0].pickNumber)
    else
      var r := FirstPickNumber(picks[1..], team);
      assert forall k :: 1 <= k < |picks| ==> picks[1..][k - 1] == picks[k];
      r
  }

  /** is_team_taken: the team has an assigned_teams row, whatever the draft. */
  predicate IsTeamTaken(ledger: Ledger, team: string) {
    team in ledger
  }

  /** get_team_taken_info: owner and draft from the ledger, and a pick number if that draft picked it. */
  function TeamTakenInfo(ledger: Ledger, ds: seq<Draft>, team: string): (r: Option<TakenInfo>)
    ensures r.None? <==> team !in ledger
    ensures r.Some? ==> r.value.user == ledger[team].user && r.value.draftId == ledger[team].draftId
  {
    if team !in ledger then None
    else
      var o := ledger[team];
      Some(TakenInfo(o.user, o.draftId, FirstPickNumber(PicksOf(ds, o.draftId), team)))
  }

  /** The reply to a taken team: picked (with its number) if a pick number is known and non-zero, else claimed. */
  function TakenError(info: Option<TakenInfo>): (e: Error)
    ensures e.AlreadyPicked? || e.AlreadyClaimed? || e.AlreadyTaken?
  {
    match info
    case None => AlreadyTaken
    case Some(TakenInfo(user, draftId, pickNumber)) =>
      if pickNumber.Some? && pickNumber.value != 0 then AlreadyPicked(user, draftId, pickNumber.value)
      else AlreadyClaimed(user, draftId)
  }

  /**
   * The guards every turn command runs first: an active draft, the right
   * stage, a participant at the cursor, and that participant is the caller.
   * Ok carries the index of the active draft.
   */
  function TurnCheck(ds: seq<Draft>, guild: int, stage: Stage, user: int): (r: Result<nat, Error>)
    ensures r.Ok? ==> r.value < |ds|
  {
    match ActiveDraftIndex(ds, guild)
    case None => Err(NoActiveDraft)
    case Some(i) =>
      if ds[i].stage != stage then Err(WrongStage)
      else
        match ParticipantByPick(ds[i].roster, ds[i].cursor)
        case None => Err(OrderExhausted)
        case Some(expected) => if user != expected then Err(NotYourTurn(expected)) else Ok(i)
  }

  /**
   * The team guards of /claim and /pick: a name known under norm (the bot
   * passes normalize_name), then a team nobody holds. Ok carries the catalog
   * name; a taken team is never reported as merely "taken".
   */
  function TeamCheck(teamSet: TeamSet, norm: string -> string, ledger: Ledger, ds: seq<Draft>, name: string): (r: Result<string, Error>)
    ensures r.Ok? ==> r.value in CanonicalNames(teamSet) && r.value !in ledger
    ensures r.Err? ==> r.error == UnknownTeam || r.error.AlreadyPicked? || r.error.AlreadyClaimed?
  {
    match Lookup(teamSet, norm, name)
    case None => Err(UnknownTeam)
    case Some(team) =>
      if IsTeamTaken(ledger, team) then Err(TakenError(TeamTakenInfo(ledger, ds, team)))
      else Ok(team)
  }

  /** The conference flag /choose_conference reads: claimed of the caller's first row, 0 without one. */
  predicate HasClaimed(roster: seq<Participant>, user: int) {
    var row := FirstRow(roster, user);
    row.Some? && row.value.claimed
  }

  /** SELECT conference ... WHERE user_id = user, fetchone(): the first row's conference, NULL without a row. */
  function ConferenceOf(roster: seq<Participant>, user: int): Option<string> {
    var row := FirstRow(roster, user);
    if row.Some? then row.value.conference else None
  }

  /** `if not user_conf`: NULL and "" both read as no conference. */
  predicate HasConference(roster: seq<Participant>, user: int) {
    var conf := ConferenceOf(roster, user);
    conf.Some? && conf.value != ""
  }

  // ---------------------------------------------------------------------------
  // Writes, as functions of the old state

  /** UPDATE participants SET claimed_team = team, claimed = 1 WHERE user_id = user */
  function ClaimRows(roster: seq<Participant>, user: int, team: string): (r: seq<Participant>)
    ensures |r| == |roster|
    ensures forall k :: 0 <= k < |r| ==>
              r[k] == if roster[k].user == user then roster[k].(claimedTeam := Some(team), claimed := true) else roster[k]
  {
    if roster == [] then []
    else
      var p := roster[0];
      [if p.user == user then p.(claimedTeam := Some(team), claimed := true) else p] + ClaimRows(roster[1..], user, team)
  }

  /** UPDATE participants SET conference = conf, conference_chosen = 1 WHERE user_id = user */
  function ConferenceRows(roster: seq<Participant>, user: int, conf: string): (r: seq<Participant>)
    ensures |r| == |roster|
    ensures forall k :: 0 <= k < |r| ==>
              r[k] == if roster[k].user == user then roster[k].(conference := Some(conf), conferenceChosen := true) else roster[k]
  {
    if roster == [] then []
    else
      var p := roster[0];
      [if p.user == user then p.(conference := Some(conf), conferenceChosen := true) else p] + ConferenceRows(roster[1..], user, conf)
  }

  /** The rows add_participants inserts: user ids[k] at pick_order k, nothing claimed or chosen. */
  function FreshRows(ids: seq<int>): (r: seq<Participant>)
    ensures |r| == |ids| && RowsInOrder(r)
    ensures forall k :: 0 <= k < |r| ==> r[k].user == ids[k]
    ensures forall k :: 0 <= k < |r| ==>
              r[k].claimedTeam.None? && r[k].conference.None? && !r[k].claimed && !r[k].conferenceChosen
  {
    seq(|ids|, k requires 0 <= k < |ids| => Participant(ids[k], k, None, None, false, false))
  }

  /** The participant_limits rows add_participants writes: picksAllowed for every listed user. */
  function LimitsFor(ids: seq<int>, picksAllowed: int): (m: map<int, int>)
    ensures forall u :: u in m <==> u in ids
    ensures forall u :: u in m ==> m[u] == picksAllowed
  {
    map u | u in ids :: picksAllowed
  }

  /** UPDATE ... WHERE id = id: f applied to every draft with that id, the others untouched. */
  function Patch(ds: seq<Draft>, id: int, f: Draft -> Draft): (r: seq<Draft>)
    ensures |r| == |ds|
    ensures forall k :: 0 <= k < |ds| ==> r[k] == if ds[k].id == id then f(ds[k]) else ds[k]
  {
    seq(|ds|, k requires 0 <= k < |ds| => if ds[k].id == id then f(ds[k]) else ds[k])
  }

  /** A fresh drafts row: active, conference stage, cursor 0, with its roster and limits. */
  function NewDraft(id: int, guild: int, channel: int, ids: seq<int>, picksAllowed: int): Draft {
    Draft(id, guild, channel, Active, ConferenceStage, 0, FreshRows(ids), LimitsFor(ids, picksAllowed), [])
  }

  /** The draft after a successful /claim: the caller's rows hold the team; cursor and stage as they were. */
  function AfterClaim(d: Draft, user: int, team: string): Draft {
    d.(roster := ClaimRows(d.roster, user, team))
  }

  /**
   * The draft after a successful /choose_conference: the caller's rows hold
   * the conference and the cursor moves on by one; when every row has
   * claimed and chosen, the stage becomes teams and the cursor goes back to 0.
   */
  function AfterChoose(d: Draft, user: int, conf: string): Draft {
    var d1 := d.(roster := ConferenceRows(d.roster, user, conf), cursor := d.cursor + 1);
    if DoneCount(d1.roster) >= |d1.roster| then d1.(stage := TeamsStage, cursor := 0) else d1
  }

  /** The draft after a successful /pick: pick number cursor + 1 recorded, cursor moved on by one. */
  function AfterPick(d: Draft, user: int, team: string): Draft {
    d.(picks := d.picks + [PickRecord(d.cursor + 1, user, team)], cursor := d.cursor + 1)
  }

  // ---------------------------------------------------------------------------
  // Invariants

  predicate RowsInOrder(roster: seq<Participant>) {
    forall k :: 0 <= k < |roster| ==> roster[k].pickOrder == k
  }

  predicate DistinctUsers(roster: seq<Participant>) {
    forall i, j :: 0 <= i < j < |roster| ==> roster[i].user != roster[j].user
  }

  /** No conference holds more than 2 rows. */
  ghost predicate WithinCapacity(roster: seq<Participant>) {
    forall conf :: CountConference(roster, conf) <= 2
  }

  predicate PicksNumbered(picks: seq<PickRecord>) {
    forall k :: 0 <= k < |picks| ==> picks[k].pickNumber == k + 1
  }

  predicate PickTeamsDistinct(picks: seq<PickRecord>) {
    forall k, l :: 0 <= k < l < |picks| ==> picks[k].team != picks[l].team
  }

  /** Every picked team is in the ledger, held by its picker in this draft. */
  predicate PicksOwned(picks: seq<PickRecord>, id: int, ledger: Ledger) {
    forall k :: 0 <= k < |picks| ==> picks[k].team in ledger && ledger[picks[k].team] == Owner(picks[k].user, id)
  }

  /** In the teams stage the k-th pick was made by the participant at pick order k. */
  predicate PicksFollowRoster(d: Draft) {
    forall k :: 0 <= k < |d.picks| ==> k < |d.roster| && d.picks[k].user == d.roster[k].user
  }

  /** Every participant has the participant_limits row /start_draft wrote. */
  predicate LimitsCoverRoster(d: Draft) {
    forall k :: 0 <= k < |d.roster| ==> PicksAllowed(d.limits, d.roster[k].user) == DefaultPicksAllowed
  }

  ghost predicate WithinLimits(d: Draft) {
    forall user :: UserPickCount(d.picks, user) <= PicksAllowed(d.limits, user)
  }

  /** What holds of the draft at index i of the drafts table. */
  ghost predicate DraftOk(d: Draft, i: int, ledger: Ledger) {
    && d.id == i + 1
    && RowsInOrder(d.roster)
    && 0 <= d.cursor <= |d.roster|
    && PicksNumbered(d.picks)
    && PickTeamsDistinct(d.picks)
    && PicksOwned(d.picks, d.id, ledger)
    && WithinLimits(d)
    && (d.stage == ConferenceStage ==> d.picks == [])
    && (d.stage == TeamsStage ==> d.cursor == |d.picks|)
    && PicksFollowRoster(d)
    && LimitsCoverRoster(d)
    && (DistinctUsers(d.roster) ==> WithinCapacity(d.roster))
  }

  /** The invariant of the whole store. */
  ghost predicate StoreOk(ds: seq<Draft>, ledger: Ledger, teamSet: TeamSet) {
    && (forall i :: 0 <= i < |ds| ==> DraftOk(ds[i], i, ledger))
    && (forall t :: t in ledger ==> t in CanonicalNames(teamSet))
  }

  /** Some draft has a picks row for team. */
  ghost predicate Picked(ds: seq<Draft>, team: string) {
    exists i, k :: 0 <= i < |ds| && 0 <= k < |ds[i].picks| && ds[i].picks[k].team == team
  }

  /** Rows of a user (more than one only when /start_draft was given the same id twice). */
  function UserRows(roster: seq<Participant>, user: int): (n: nat)
    ensures n <= |roster|
  {
    if roster == [] then 0
    else (if roster[0].user == user then 1 else 0) + UserRows(roster[1..], user)
  }

  // ---------------------------------------------------------------------------
  // Lemmas about the queries

  lemma {:induction false} PickOrderFrom(roster: seq<Participant>, base: int, index: int)
    requires forall k :: 0 <= k < |roster| ==> roster[k].pickOrder == base + k
    ensures ParticipantByPick(roster, index) ==
              if base <= index < base + |roster| then Some(roster[index - base].user) else None
  {
    if roster != [] && roster[0].pickOrder != index {
      PickOrderFrom(roster[1..], base + 1, index);
    }
  }

  /** With pick orders 0, 1, 2, ... the participant at the cursor is the row at that index, and none past the end. */
  lemma ParticipantAtIndex(roster: seq<Participant>, index: int)
    requires RowsInOrder(roster)
    ensures ParticipantByPick(roster, index) ==
              if 0 <= index < |roster| then Some(roster[index].user) else None
  {
    PickOrderFrom(roster, 0, index);
  }

  /**
   * Under the store invariant the turn guards let exactly the participant at
   * the cursor through, and once the cursor has reached the roster size every
   * turn command in that stage is rejected as exhausted.
   */
  lemma TurnCheckSpec(ds: seq<Draft>, ledger: Ledger, teamSet: TeamSet, guild: int, stage: Stage, user: int)
    requires StoreOk(ds, ledger, teamSet)
    ensures TurnCheck(ds, guild, stage, user).Ok? <==>
              var a := ActiveDraftIndex(ds, guild);
              a.Some? && ds[a.value].stage == stage && ds[a.value].cursor < |ds[a.value].roster|
              && ds[a.value].roster[ds[a.value].cursor].user == user
    ensures TurnCheck(ds, guild, stage, user) == Err(OrderExhausted) <==>
              var a := ActiveDraftIndex(ds, guild);
              a.Some? && ds[a.value].stage == stage && ds[a.value].cursor == |ds[a.value].roster|
    ensures TurnCheck(ds, guild, stage, user).Ok? ==> TurnCheck(ds, guild, stage, user) == Ok(ActiveDraftIndex(ds, guild).value)
  {
    var a := ActiveDraftIndex(ds, guild);
    if a.Some? {
      assert DraftOk(ds[a.value], a.value, ledger);
      ParticipantAtIndex(ds[a.value].roster, ds[a.value].cursor);
    }
  }

  /**
   * The team guards pass exactly for a name that resolves to a catalog team
   * nobody holds, and then yield that team; "unknown" means the lookup
   * failed, and a held team gets the reply get_team_taken_info decides.
   */
  lemma TeamCheckSpec(teamSet: TeamSet, norm: string -> string, ledger: Ledger, ds: seq<Draft>, name: string)
    ensures var found := Lookup(teamSet, norm, name);
            TeamCheck(teamSet, norm, ledger, ds, name).Ok? <==> found.Some? && found.value !in ledger
    ensures var found := Lookup(teamSet, norm, name);
            TeamCheck(teamSet, norm, ledger, ds, name).Ok? ==> TeamCheck(teamSet, norm, ledger, ds, name).value == found.value
    ensures TeamCheck(teamSet, norm, ledger, ds, name) == Err(UnknownTeam) <==> Lookup(teamSet, norm, name).None?
    ensures var found := Lookup(teamSet, norm, name);
            found.Some? && found.value in ledger ==>
              TeamCheck(teamSet, norm, ledger, ds, name) == Err(TakenError(TeamTakenInfo(ledger, ds, found.value)))
  {
  }

  /** get_active_draft returns the active draft of the guild with the highest id. */
  lemma ActiveIsNewest(ds: seq<Draft>, ledger: Ledger, teamSet: TeamSet, guild: int)
    requires StoreOk(ds, ledger, teamSet)
    requires ActiveDraftIndex(ds, guild).Some?
    ensures forall j :: 0 <= j < |ds| && IsActiveIn(ds[j], guild) ==>
              ds[j].id <= ds[ActiveDraftIndex(ds, guild).value].id
  {
    var i := ActiveDraftIndex(ds, guild).value;
    forall j | 0 <= j < |ds| && IsActiveIn(ds[j], guild) ensures ds[j].id <= ds[i].id {
      assert DraftOk(ds[j], j, ledger) && DraftOk(ds[i], i, ledger);
    }
  }

  lemma DraftByIdOfIndex(ds: seq<Draft>, i: int)
    requires forall j :: 0 <= j < |ds| ==> ds[j].id == j + 1
    requires 0 <= i < |ds|
    ensures DraftById(ds, i + 1) == Some(i)
  {
    var r := DraftById(ds, i + 1);
    assert ds[i].id == i + 1;
  }

  /** With distinct teams and numbers 1, 2, 3, ... the pick number of a picked team is its position plus one. */
  lemma FirstPickNumberOf(picks: seq<PickRecord>, k: int)
    requires PicksNumbered(picks) && PickTeamsDistinct(picks)
    requires 0 <= k < |picks|
    ensures FirstPickNumber(picks, picks[k].team) == Some(k + 1)
  {
    var r := FirstPickNumber(picks, picks[k].team);
    var k' :| 0 <= k' < |picks| && picks[k'].team == picks[k].team && picks[k'].pickNumber == r.value;
    assert k' == k;
  }

  /**
   * get_team_taken_info tells a pick from a claim: for a team in the ledger
   * the reply is "already picked", with the picker, draft and pick number,
   * exactly when some draft picked it, and "already claimed" otherwise.
   */
  lemma TakenInfoTellsPickFromClaim(ds: seq<Draft>, ledger: Ledger, teamSet: TeamSet, team: string)
    requires StoreOk(ds, ledger, teamSet)
    requires team in ledger
    ensures TakenError(TeamTakenInfo(ledger, ds, team)).AlreadyPicked? <==> Picked(ds, team)
    ensures !Picked(ds, team) ==>
              TakenError(TeamTakenInfo(ledger, ds, team)) == AlreadyClaimed(ledger[team].user, ledger[team].draftId)
    ensures forall i, k :: 0 <= i < |ds| && 0 <= k < |ds[i].picks| && ds[i].picks[k].team == team ==>
              TakenError(TeamTakenInfo(ledger, ds, team)) == AlreadyPicked(ds[i].picks[k].user, i + 1, k + 1)
  {
    IdsInOrder(ds, ledger, teamSet);
    if Picked(ds, team) {
      var i, k :| 0 <= i < |ds| && 0 <= k < |ds[i].picks| && ds[i].picks[k].team == team;
      PickedAt(ds, ledger, teamSet, i, k);
      forall i', k' | 0 <= i' < |ds| && 0 <= k' < |ds[i'].picks| && ds[i'].picks[k'].team == team
        ensures i' == i && k' == k
      {
        PickUnique(ds, ledger, teamSet, i, k, i', k');
      }
    } else {
      NotPickedAt(ds, ledger, teamSet, team);
    }
  }

  /** A pick at position k of draft i is what get_team_taken_info reports for its team. */
  lemma PickedAt(ds: seq<Draft>, ledger: Ledger, teamSet: TeamSet, i: int, k: int)
    requires StoreOk(ds, ledger, teamSet)
    requires 0 <= i < |ds| && 0 <= k < |ds[i].picks|
    ensures TakenError(TeamTakenInfo(ledger, ds, ds[i].picks[k].team)) == AlreadyPicked(ds[i].picks[k].user, i + 1, k + 1)
  {
    IdsInOrder(ds, ledger, teamSet);
    assert DraftOk(ds[i], i, ledger);
    DraftByIdOfIndex(ds, i);
    FirstPickNumberOf(ds[i].picks, k);
  }

  /** A team appears at most once among all the picks of all drafts. */
  lemma PickUnique(ds: seq<Draft>, ledger: Ledger, teamSet: TeamSet, i: int, k: int, i': int, k': int)
    requires StoreOk(ds, ledger, teamSet)
    requires 0 <= i < |ds| && 0 <= k < |ds[i].picks|
    requires 0 <= i' < |ds| && 0 <= k' < |ds[i'].picks|
    requires ds[i].picks[k].team == ds[i'].picks[k'].team
    ensures i' == i && k' == k
  {
    assert DraftOk(ds[i], i, ledger);
    assert DraftOk(ds[i'], i', ledger);
  }

  /** A ledger team no draft picked is reported as claimed by its owner. */
  lemma NotPickedAt(ds: seq<Draft>, ledger: Ledger, teamSet: TeamSet, team: string)
    requires StoreOk(ds, ledger, teamSet)
    requires team in ledger && !Picked(ds, team)
    ensures TakenError(TeamTakenInfo(ledger, ds, team)) == AlreadyClaimed(ledger[team].user, ledger[team].draftId)
  {
    var o := ledger[team];
    match DraftById(ds, o.draftId)
    case None =>
    case Some(j) =>
      assert forall k :: 0 <= k < |ds[j].picks| ==> ds[j].picks[k].team != team;
  }

  lemma {:induction false} DoneCountFull(roster: seq<Participant>)
    ensures DoneCount(roster) >= |roster| <==>
              forall k :: 0 <= k < |roster| ==> roster[k].claimed && roster[k].conferenceChosen
  {
    if roster != [] {
      DoneCountFull(roster[1..]);
      assert forall k :: 1 <= k < |roster| ==> roster[1..][k - 1] == roster[k];
    }
  }

  lemma {:induction false} UserPickCountAppend(picks: seq<PickRecord>, p: PickRecord, user: int)
    ensures UserPickCount(picks + [p], user) == UserPickCount(picks, user) + (if p.user == user then 1 else 0)
  {
    assert (picks + [p])[..|picks|] == picks;
  }

  lemma {:induction false} UserRowsNone(roster: seq<Participant>, user: int)
    requires forall k :: 0 <= k < |roster| ==> roster[k].user != user
    ensures UserRows(roster, user) == 0
  {
    if roster != [] {
      UserRowsNone(roster[1..], user);
    }
  }

  lemma {:induction false} DistinctUsersOneRow(roster: seq<Participant>, user: int)
    requires DistinctUsers(roster)
    ensures UserRows(roster, user) <= 1
  {
    if roster != [] {
      var tail := roster[1..];
      assert forall k :: 0 <= k < |tail| ==> tail[k] == roster[k + 1];
      DistinctUsersOneRow(tail, user);
      if roster[0].user == user {
        UserRowsNone(tail, user);
      }
    }
  }

  lemma {:induction false} UserRowsConcat(a: seq<Participant>, b: seq<Participant>, user: int)
    ensures UserRows(a + b, user) == UserRows(a, user) + UserRows(b, user)
  {
    if a != [] {
      assert (a + b)[1..] == a[1..] + b;
      UserRowsConcat(a[1..], b, user);
    } else {
      assert a + b == b;
    }
  }

  /** Picks made by the rows in pick order: a user's picks are that user's rows among the first |picks|. */
  lemma {:induction false} PickCountIsRowCount(picks: seq<PickRecord>, roster: seq<Participant>, user: int)
    requires |picks| <= |roster|
    requires forall k :: 0 <= k < |picks| ==> picks[k].user == roster[k].user
    ensures UserPickCount(picks, user) == UserRows(roster[..|picks|], user)
  {
    if picks != [] {
      var n := |picks| - 1;
      PickCountIsRowCount(picks[..n], roster, user);
      assert roster[..n + 1] == roster[..n] + [roster[n]];
      UserRowsConcat(roster[..n], [roster[n]], user);
    }
  }

  /**
   * The cursor never wraps: a teams-stage draft holds at most one pick per
   * participants row, each made by that row's user, so the draft ends after
   * a single round.
   */
  lemma OneRound(ds: seq<Draft>, ledger: Ledger, teamSet: TeamSet, i: int, user: int)
    requires StoreOk(ds, ledger, teamSet)
    requires 0 <= i < |ds| && ds[i].stage == TeamsStage
    ensures |ds[i].picks| <= |ds[i].roster|
    ensures UserPickCount(ds[i].picks, user) <= UserRows(ds[i].roster, user)
  {
    var d := ds[i];
    assert DraftOk(d, i, ledger);
    PickCountIsRowCount(d.picks, d.roster, user);
    assert d.roster == d.roster[..|d.picks|] + d.roster[|d.picks|..];
    UserRowsConcat(d.roster[..|d.picks|], d.roster[|d.picks|..], user);
  }

  /**
   * The pick limit of /pick (7 per user) stops the participant at the
   * cursor only when that user id was listed more than 7 times; with
   * distinct ids it never does.
   */
  lemma LimitNeedsRepeatedUser(ds: seq<Draft>, ledger: Ledger, teamSet: TeamSet, i: int, user: int)
    requires StoreOk(ds, ledger, teamSet)
    requires 0 <= i < |ds| && ds[i].stage == TeamsStage
    requires ds[i].cursor < |ds[i].roster| && ds[i].roster[ds[i].cursor].user == user
    ensures UserPickCount(ds[i].picks, user) >= PicksAllowed(ds[i].limits, user) ==>
              UserRows(ds[i].roster, user) > DefaultPicksAllowed
    ensures DistinctUsers(ds[i].roster) ==> UserPickCount(ds[i].picks, user) < PicksAllowed(ds[i].limits, user)
  {
    var d := ds[i];
    assert DraftOk(d, i, ledger);
    var c := d.cursor;
    PickCountIsRowCount(d.picks, d.roster, user);
    assert d.roster[..c + 1] == d.roster[..c] + [d.roster[c]];
    UserRowsConcat(d.roster[..c], [d.roster[c]], user);
    assert d.roster == d.roster[..c + 1] + d.roster[c + 1..];
    UserRowsConcat(d.roster[..c + 1], d.roster[c + 1..], user);
    if DistinctUsers(d.roster) {
      DistinctUsersOneRow(d.roster, user);
    }
  }

  lemma {:induction false} CountNoConference(roster: seq<Participant>, conf: string)
    requires forall k :: 0 <= k < |roster| ==> roster[k].conference == None
    ensures CountConference(roster, conf) == 0
  {
    if roster != [] {
      CountNoConference(roster[1..], conf);
    }
  }

  lemma {:induction false} CountAfterClaimRows(roster: seq<Participant>, user: int, team: string, conf: string)
    ensures CountConference(ClaimRows(roster, user, team), conf) == CountConference(roster, conf)
  {
    if roster != [] {
      CountAfterClaimRows(roster[1..], user, team, conf);
      var r := ClaimRows(roster, user, team);
      assert r[1..] == ClaimRows(roster[1..], user, team);
    }
  }

  lemma {:induction false} CountAfterConferenceRows(roster: seq<Participant>, user: int, conf: string, c: string)
    ensures c != conf ==> CountConference(ConferenceRows(roster, user, conf), c) <= CountConference(roster, c)
    ensures CountConference(ConferenceRows(roster, user, conf), conf) <= CountConference(roster, conf) + UserRows(roster, user)
  {
    if roster != [] {
      CountAfterConferenceRows(roster[1..], user, conf, c);
      var r := ConferenceRows(roster, user, conf);
      assert r[1..] == ConferenceRows(roster[1..], user, conf);
    }
  }

  // ---------------------------------------------------------------------------
  // Lemmas about the transitions

  /** A new ledger entry for a team nobody held leaves every draft's invariant intact. */
  lemma LedgerGrowKeepsDraftOk(d: Draft, i: int, ledger: Ledger, team: string, o: Owner)
    requires DraftOk(d, i, ledger) && team !in ledger
    ensures DraftOk(d, i, ledger[team := o])
  {
    forall k | 0 <= k < |d.picks| ensures d.picks[k].team != team {
      assert d.picks[k].team in ledger;
    }
  }

  /** /start_draft appends a draft with id one past the last, whose invariant holds. */
  lemma StartKeepsStoreOk(ds: seq<Draft>, ledger: Ledger, teamSet: TeamSet, guild: int, channel: int, ids: seq<int>)
    requires StoreOk(ds, ledger, teamSet)
    ensures StoreOk(ds + [NewDraft(|ds| + 1, guild, channel, ids, DefaultPicksAllowed)], ledger, teamSet)
  {
    var d := NewDraft(|ds| + 1, guild, channel, ids, DefaultPicksAllowed);
    forall conf ensures CountConference(d.roster, conf) <= 2 {
      CountNoConference(d.roster, conf);
    }
    assert DraftOk(d, |ds|, ledger);
    var ds' := ds + [d];
    forall i | 0 <= i < |ds'| ensures DraftOk(ds'[i], i, ledger) {
      if i < |ds| { assert ds'[i] == ds[i]; }
    }
  }

  /** A successful /claim keeps the invariant: the roster's conferences are untouched and the ledger gains one new team. */
  lemma ClaimKeepsStoreOk(ds: seq<Draft>, ledger: Ledger, teamSet: TeamSet, i: int, user: int, team: string)
    requires StoreOk(ds, ledger, teamSet)
    requires 0 <= i < |ds|
    requires team in CanonicalNames(teamSet) && team !in ledger
    ensures StoreOk(ds[i := AfterClaim(ds[i], user, team)], ledger[team := Owner(user, ds[i].id)], teamSet)
  {
    var o := Owner(user, ds[i].id);
    assert DraftOk(ds[i], i, ledger);
    ClaimKeepsDraftOk(ds[i], i, ledger, user, team, o);
    ReplaceKeepsStoreOk(ds, ledger, teamSet, i, AfterClaim(ds[i], user, team), team, o);
  }

  lemma ClaimKeepsDraftOk(d: Draft, i: int, ledger: Ledger, user: int, team: string, o: Owner)
    requires DraftOk(d, i, ledger) && team !in ledger
    ensures DraftOk(AfterClaim(d, user, team), i, ledger[team := o])
  {
    var d' := AfterClaim(d, user, team);
    LedgerGrowKeepsDraftOk(d, i, ledger, team, o);
    assert forall k :: 0 <= k < |d'.roster| ==>
             d'.roster[k].user == d.roster[k].user && d'.roster[k].pickOrder == d.roster[k].pickOrder;
    forall conf ensures CountConference(d'.roster, conf) == CountConference(d.roster, conf) {
      CountAfterClaimRows(d.roster, user, team, conf);
    }
    if DistinctUsers(d'.roster) {
      assert DistinctUsers(d.roster);
    }
  }

  /** Replacing draft i by one that is sound under the grown ledger keeps the whole store sound. */
  lemma ReplaceKeepsStoreOk(ds: seq<Draft>, ledger: Ledger, teamSet: TeamSet, i: int, d': Draft, team: string, o: Owner)
    requires StoreOk(ds, ledger, teamSet)
    requires 0 <= i < |ds|
    requires team in CanonicalNames(teamSet) && team !in ledger
    requires DraftOk(d', i, ledger[team := o])
    ensures StoreOk(ds[i := d'], ledger[team := o], teamSet)
  {
    var ds' := ds[i := d'];
    forall j | 0 <= j < |ds'| ensures DraftOk(ds'[j], j, ledger[team := o]) {
      if j != i {
        assert DraftOk(ds[j], j, ledger);
        LedgerGrowKeepsDraftOk(ds[j], j, ledger, team, o);
      }
    }
  }

  /**
   * A successful /choose_conference keeps the invariant; in particular a
   * conference that had fewer than 2 rows has at most 2 afterwards, so with
   * distinct user ids no conference ever holds more than 2 participants.
   */
  lemma ChooseKeepsStoreOk(ds: seq<Draft>, ledger: Ledger, teamSet: TeamSet, i: int, user: int, conf: string)
    requires StoreOk(ds, ledger, teamSet)
    requires 0 <= i < |ds| && ds[i].stage == ConferenceStage
    requires ds[i].cursor < |ds[i].roster| && ds[i].roster[ds[i].cursor].user == user
    requires CountConference(ds[i].roster, conf) < 2
    ensures StoreOk(ds[i := AfterChoose(ds[i], user, conf)], ledger, teamSet)
  {
    var d := ds[i];
    var d' := AfterChoose(d, user, conf);
    assert DraftOk(d, i, ledger);
    if DistinctUsers(d'.roster) {
      assert DistinctUsers(d.roster);
      DistinctUsersOneRow(d.roster, user);
      forall c ensures CountConference(d'.roster, c) <= 2 {
        CountAfterConferenceRows(d.roster, user, conf, c);
      }
    }
    assert DraftOk(d', i, ledger);
    var ds' := ds[i := d'];
    forall j | 0 <= j < |ds'| ensures DraftOk(ds'[j], j, ledger) {
      if j != i { assert DraftOk(ds[j], j, ledger); }
    }
  }

  /**
   * After /choose_conference the stage is teams exactly when every row has
   * claimed and chosen; the cursor is then 0, otherwise one past where it was.
   */
  lemma ChooseSwitchesStage(d: Draft, user: int, conf: string)
    requires d.stage == ConferenceStage
    ensures var r := AfterChoose(d, user, conf).roster;
            AfterChoose(d, user, conf).stage == TeamsStage <==>
              forall k :: 0 <= k < |r| ==> r[k].claimed && r[k].conferenceChosen
    ensures AfterChoose(d, user, conf).stage == TeamsStage ==> AfterChoose(d, user, conf).cursor == 0
    ensures AfterChoose(d, user, conf).stage == ConferenceStage ==> AfterChoose(d, user, conf).cursor == d.cursor + 1
  {
    DoneCountFull(ConferenceRows(d.roster, user, conf));
  }

  /**
   * A successful /pick keeps the invariant: the new pick number is one past
   * the last, the team is new to the ledger and to the draft, and the
   * picker stays within the limit.
   */
  lemma PickKeepsStoreOk(ds: seq<Draft>, ledger: Ledger, teamSet: TeamSet, i: int, user: int, team: string)
    requires StoreOk(ds, ledger, teamSet)
    requires 0 <= i < |ds| && ds[i].stage == TeamsStage && ds[i].cursor < |ds[i].roster|
    requires ds[i].roster[ds[i].cursor].user == user
    requires team in CanonicalNames(teamSet) && team !in ledger
    requires UserPickCount(ds[i].picks, user) < PicksAllowed(ds[i].limits, user)
    ensures StoreOk(ds[i := AfterPick(ds[i], user, team)], ledger[team := Owner(user, ds[i].id)], teamSet)
  {
    assert DraftOk(ds[i], i, ledger);
    PickKeepsDraftOk(ds[i], i, ledger, user, team);
    ReplaceKeepsStoreOk(ds, ledger, teamSet, i, AfterPick(ds[i], user, team), team, Owner(user, ds[i].id));
  }

  lemma PickKeepsDraftOk(d: Draft, i: int, ledger: Ledger, user: int, team: string)
    requires DraftOk(d, i, ledger) && d.stage == TeamsStage && d.cursor < |d.roster|
    requires d.roster[d.cursor].user == user
    requires team !in ledger
    requires UserPickCount(d.picks, user) < PicksAllowed(d.limits, user)
    ensures DraftOk(AfterPick(d, user, team), i, ledger[team := Owner(user, d.id)])
  {
    var o := Owner(user, d.id);
    var p := PickRecord(d.cursor + 1, user, team);
    var d' := AfterPick(d, user, team);
    var ledger' := ledger[team := o];
    assert d'.picks == d.picks + [p] && d'.roster == d.roster && d'.limits == d.limits;
    assert |d.picks| == d.cursor;
    assert PicksNumbered(d'.picks);
    assert PickTeamsDistinct(d'.picks) by {
      forall k | 0 <= k < |d.picks| ensures d.picks[k].team != team {
        assert d.picks[k].team in ledger;
      }
    }
    assert PicksOwned(d'.picks, d'.id, ledger') by {
      LedgerGrowKeepsDraftOk(d, i, ledger, team, o);
    }
    assert WithinLimits(d') by {
      forall u ensures UserPickCount(d'.picks, u) <= PicksAllowed(d'.limits, u) {
        UserPickCountAppend(d.picks, p, u);
      }
    }
    assert PicksFollowRoster(d') by {
      forall k | 0 <= k < |d'.picks| ensures k < |d'.roster| && d'.picks[k].user == d'.roster[k].user {
        if k < |d.picks| { assert d'.picks[k] == d.picks[k]; } else { assert d'.picks[k] == p; }
      }
    }
    assert LimitsCoverRoster(d');
  }

  /** /end_draft keeps the invariant. */
  lemma EndKeepsStoreOk(ds: seq<Draft>, ledger: Ledger, teamSet: TeamSet, i: int)
    requires StoreOk(ds, ledger, teamSet)
    requires 0 <= i < |ds|
    ensures StoreOk(ds[i := ds[i].(status := Finished)], ledger, teamSet)
  {
    var ds' := ds[i := ds[i].(status := Finished)];
    forall j | 0 <= j < |ds'| ensures DraftOk(ds'[j], j, ledger) {
      assert DraftOk(ds[j], j, ledger);
    }
  }

  lemma IdsInOrder(ds: seq<Draft>, ledger: Ledger, teamSet: TeamSet)
    requires StoreOk(ds, ledger, teamSet)
    ensures forall j :: 0 <= j < |ds| ==> ds[j].id == j + 1
  {
    forall j | 0 <= j < |ds| ensures ds[j].id == j + 1 {
      assert DraftOk(ds[j], j, ledger);
    }
  }

  lemma FreshRowsStep(ids: seq<int>, n: int)
    requires 0 <= n < |ids|
    ensures FreshRows(ids[..n + 1]) == FreshRows(ids[..n]) + [Participant(ids[n], n, None, None, false, false)]
  {
  }

  lemma LimitsForStep(ids: seq<int>, n: int, picksAllowed: int)
    requires 0 <= n < |ids|
    ensures LimitsFor(ids[..n + 1], picksAllowed) == LimitsFor(ids[..n], picksAllowed)[ids[n] := picksAllowed]
  {
    assert ids[..n + 1] == ids[..n] + [ids[n]];
  }

  /** The four writes of a successful /choose_conference, UPDATE by UPDATE, leave the draft at index i as AfterChoose. */
  lemma ChooseWrites(ds: seq<Draft>, i: int, user: int, conf: string)
    requires forall j :: 0 <= j < |ds| ==> ds[j].id == j + 1
    requires 0 <= i < |ds|
    ensures var ds1 := Patch(ds, i + 1, (d: Draft) => d.(roster := ConferenceRows(d.roster, user, conf)));
            var ds2 := Patch(ds1, i + 1, (d: Draft) => d.(cursor := d.cursor + 1));
            var ds3 := Patch(ds2, i + 1, (d: Draft) => d.(stage := TeamsStage));
            var ds4 := Patch(ds3, i + 1, (d: Draft) => d.(cursor := 0));
            && |ds2| == |ds| && ds2[i].roster == ConferenceRows(ds[i].roster, user, conf)
            && (DoneCount(ds2[i].roster) >= |ds2[i].roster| ==> ds4 == ds[i := AfterChoose(ds[i], user, conf)])
            && (DoneCount(ds2[i].roster) < |ds2[i].roster| ==> ds2 == ds[i := AfterChoose(ds[i], user, conf)])
  {
    var ds1 := Patch(ds, i + 1, (d: Draft) => d.(roster := ConferenceRows(d.roster, user, conf)));
    PatchAt(ds, i, (d: Draft) => d.(roster := ConferenceRows(d.roster, user, conf)));
    var ds2 := Patch(ds1, i + 1, (d: Draft) => d.(cursor := d.cursor + 1));
    PatchAt(ds1, i, (d: Draft) => d.(cursor := d.cursor + 1));
    var ds3 := Patch(ds2, i + 1, (d: Draft) => d.(stage := TeamsStage));
    PatchAt(ds2, i, (d: Draft) => d.(stage := TeamsStage));
    PatchAt(ds3, i, (d: Draft) => d.(cursor := 0));
  }

  /** With ids 1, 2, 3, ... an UPDATE ... WHERE id = i + 1 touches exactly the draft at index i. */
  lemma PatchAt(ds: seq<Draft>, i: int, f: Draft -> Draft)
    requires forall j :: 0 <= j < |ds| ==> ds[j].id == j + 1
    requires 0 <= i < |ds|
    ensures Patch(ds, i + 1, f) == ds[i := f(ds[i])]
  {
  }
}
