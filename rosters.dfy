/**
 * The grouping helpers behind /list_conferences, /conference_rosters and
 * /conference_view: the conference slots of a draft, the conference ->
 * user -> teams mapping, and the exact-then-case-insensitive lookup of a
 * conference in that mapping. The rows a query returns are parameters.
 */
module Rosters {
  import opened Wrappers
  import opened Names
  import opened Catalog
  import opened DraftModel

  /** The key under which a participant without a conference is filed. */
  const Unassigned: string := "(unassigned)"

  /** `conference if conference else "(unassigned)"`: NULL and "" both read as unset. */
  function ConfKey(conf: Option<string>): (k: string)
    ensures k != ""
  {
    if conf.Some? && conf.value != "" then conf.value else Unassigned
  }

  // ---------------------------------------------------------------------------
  // get_conference_slots

  /** The slots dict the loop of get_conference_slots builds, one row at a time. */
  function Slots(rows: seq<Participant>): map<string, seq<int>> {
    if rows == [] then map[]
    else
      var n := |rows| - 1;
      var m := Slots(rows[..n]);
      var key := ConfKey(rows[n].conference);
      m[key := (if key in m then m[key] else []) + [rows[n].user]]
  }

  /** Reference definition: the users of the rows filed under key, in row order. */
  function SlotUsers(rows: seq<Participant>, key: string): seq<int> {
    if rows == [] then []
    else (if ConfKey(rows[0].conference) == key then [rows[0].user] else []) + SlotUsers(rows[1..], key)
  }

  /** get_conference_slots over the participants rows of a draft, in pick order. */
  method GetConferenceSlots(rows: seq<Participant>) returns (m: map<string, seq<int>>)
    ensures m == Slots(rows)
  {
    m := map[];
    var i := 0;
    while i < |rows|
      invariant 0 <= i <= |rows|
      invariant m == Slots(rows[..i])
    {
      var key := ConfKey(rows[i].conference);
      var users := if key in m then m[key] else [];
      m := m[key := users + [rows[i].user]];
      assert rows[..i + 1][..i] == rows[..i];
      i := i + 1;
    }
    assert rows[..|rows|] == rows;
  }

  lemma {:induction false} SlotUsersAppend(rows: seq<Participant>, r: Participant, key: string)
    ensures SlotUsers(rows + [r], key) == SlotUsers(rows, key) + (if ConfKey(r.conference) == key then [r.user] else [])
  {
    if rows != [] {
      assert (rows + [r])[1..] == rows[1..] + [r];
      SlotUsersAppend(rows[1..], r, key);
    }
  }

  /** Every conference key of the rows is present, holding exactly the users filed under it, in order. */
  lemma {:induction false} SlotsContents(rows: seq<Participant>, key: string)
    ensures key in Slots(rows) <==> exists k :: 0 <= k < |rows| && ConfKey(rows[k].conference) == key
    ensures key in Slots(rows) ==> Slots(rows)[key] == SlotUsers(rows, key)
    ensures key !in Slots(rows) ==> SlotUsers(rows, key) == []
  {
    if rows != [] {
      var n := |rows| - 1;
      var front := rows[..n];
      SlotsContents(front, key);
      SlotUsersAppend(front, rows[n], key);
      assert front + [rows[n]] == rows;
      assert forall k :: 0 <= k < n ==> front[k] == rows[k];
    }
  }

  /** A named conference's slot list is no longer than its count_conference_users count (equal unless named ""). */
  lemma {:induction false} SlotUsersCount(rows: seq<Participant>, key: string)
    requires key != Unassigned
    ensures |SlotUsers(rows, key)| <= CountConference(rows, key)
    ensures key != "" ==> |SlotUsers(rows, key)| == CountConference(rows, key)
  {
    if rows != [] {
      SlotUsersCount(rows[1..], key);
    }
  }

  /** Under the draft invariant and distinct user ids, every named conference lists at most 2 users. */
  lemma SlotsAtMostTwo(d: Draft, i: int, ledger: Ledger, key: string)
    requires DraftOk(d, i, ledger) && DistinctUsers(d.roster)
    requires key in Slots(d.roster) && key != Unassigned
    ensures |Slots(d.roster)[key]| <= 2
  {
    SlotsContents(d.roster, key);
    SlotUsersCount(d.roster, key);
    assert CountConference(d.roster, key) <= 2;
  }

  // ---------------------------------------------------------------------------
  // build_conference_mapping_for_draft

  /** conference -> user -> teams. */
  type Mapping = map<string, map<int, seq<string>>>

  function Inner(m: Mapping, key: string): map<int, seq<string>> {
    if key in m then m[key] else map[]
  }

  function Entry(m: Mapping, key: string, user: int): seq<string> {
    if key in m && user in m[key] then m[key][user] else []
  }

  /** The setdefault / setdefault / append steps of one loop iteration. */
  function File(m: Mapping, key: string, user: int, teams: seq<string>): Mapping {
    m[key := Inner(m, key)[user := Entry(m, key, user) + teams]]
  }

  /** `if claimed_team:` appends the claimed team only when it is neither NULL nor "". */
  function ClaimOf(r: Participant): seq<string> {
    if r.claimedTeam.Some? && r.claimedTeam.value != "" then [r.claimedTeam.value] else []
  }

  /** The key of a pick: its picker's conference, unassigned when unset. */
  function PickKey(rows: seq<Participant>, p: PickRecord): string {
    ConfKey(ConferenceOf(rows, p.user))
  }

  /** The first loop: every row filed under its conference, with its claimed team. */
  function MapRows(rows: seq<Participant>): Mapping {
    if rows == [] then map[]
    else
      var n := |rows| - 1;
      File(MapRows(rows[..n]), ConfKey(rows[n].conference), rows[n].user, ClaimOf(rows[n]))
  }

  /** The second loop: every pick filed under its picker's conference. */
  function MapPicks(m: Mapping, rows: seq<Participant>, picks: seq<PickRecord>): Mapping {
    if picks == [] then m
    else
      var n := |picks| - 1;
      File(MapPicks(m, rows, picks[..n]), PickKey(rows, picks[n]), picks[n].user, [picks[n].team])
  }

  function ConferenceMapping(rows: seq<Participant>, picks: seq<PickRecord>): Mapping {
    MapPicks(MapRows(rows), rows, picks)
  }

  function AddKey(keys: seq<string>, key: string): seq<string> {
    if key in keys then keys else keys + [key]
  }

  function RowKeys(rows: seq<Participant>): seq<string> {
    if rows == [] then []
    else
      var n := |rows| - 1;
      AddKey(RowKeys(rows[..n]), ConfKey(rows[n].conference))
  }

  function PickKeys(keys: seq<string>, rows: seq<Participant>, picks: seq<PickRecord>): seq<string> {
    if picks == [] then keys
    else
      var n := |picks| - 1;
      AddKey(PickKeys(keys, rows, picks[..n]), PickKey(rows, picks[n]))
  }

  /** The mapping's keys in dict order: first insertion. */
  function MappingKeys(rows: seq<Participant>, picks: seq<PickRecord>): seq<string> {
    PickKeys(RowKeys(rows), rows, picks)
  }

  /** Reference definition: the claimed teams of user's rows filed under key, in row order. */
  function ClaimsFiled(rows: seq<Participant>, key: string, user: int): seq<string> {
    if rows == [] then []
    else
      var n := |rows| - 1;
      ClaimsFiled(rows[..n], key, user)
        + (if rows[n].user == user && ConfKey(rows[n].conference) == key then ClaimOf(rows[n]) else [])
  }

  /** Reference definition: the teams user picked while filed under key, in pick order. */
  function PicksFiled(rows: seq<Participant>, picks: seq<PickRecord>, key: string, user: int): seq<string> {
    if picks == [] then []
    else
      var n := |picks| - 1;
      PicksFiled(rows, picks[..n], key, user)
        + (if picks[n].user == user && PickKey(rows, picks[n]) == key then [picks[n].team] else [])
  }

  ghost predicate RowFiled(rows: seq<Participant>, key: string, user: int) {
    exists k :: 0 <= k < |rows| && rows[k].user == user && ConfKey(rows[k].conference) == key
  }

  ghost predicate PickFiled(rows: seq<Participant>, picks: seq<PickRecord>, key: string, user: int) {
    exists k :: 0 <= k < |picks| && picks[k].user == user && PickKey(rows, picks[k]) == key
  }

  /** mapping.setdefault(key, {}).setdefault(user, []) followed by appending teams. */
  method FileOne(m: Mapping, key: string, user: int, teams: seq<string>) returns (m': Mapping)
    ensures key in m' && user in m'[key] && m'[key][user] == Entry(m, key, user) + teams
    ensures forall k :: k in m' <==> k in m || k == key
    ensures forall k :: k in m && k != key ==> m'[k] == m[k]
    ensures forall u :: u in m'[key] <==> u in Inner(m, key) || u == user
    ensures forall u :: u in Inner(m, key) && u != user ==> m'[key][u] == m[key][u]
    ensures m' == File(m, key, user, teams)
  {
    var inner := if key in m then m[key] else map[];
    var entry := if user in inner then inner[user] else [];
    m' := m[key := inner[user := entry + teams]];
  }

  /** The first loop of build_conference_mapping_for_draft: file every participants row. */
  method FileRows(rows: seq<Participant>) returns (m: Mapping, keys: seq<string>)
    ensures m == MapRows(rows) && keys == RowKeys(rows)
  {
    m := map[];
    keys := [];
    var i := 0;
    while i < |rows|
      invariant 0 <= i <= |rows|
      invariant m == MapRows(rows[..i]) && keys == RowKeys(rows[..i])
    {
      var r := rows[i];
      var key := ConfKey(r.conference);
      keys := AddKey(keys, key);  // the dict remembers first insertion
      m := FileOne(m, key, r.user, ClaimOf(r));
      RowStep(rows, i);
      i := i + 1;
    }
    assert rows[..|rows|] == rows;
  }

  /** The second loop: file every picks row under its picker's conference. */
  method FilePicks(m0: Mapping, keys0: seq<string>, rows: seq<Participant>, picks: seq<PickRecord>)
    returns (m: Mapping, keys: seq<string>)
    ensures m == MapPicks(m0, rows, picks) && keys == PickKeys(keys0, rows, picks)
  {
    m := m0;
    keys := keys0;
    var j := 0;
    while j < |picks|
      invariant 0 <= j <= |picks|
      invariant m == MapPicks(m0, rows, picks[..j]) && keys == PickKeys(keys0, rows, picks[..j])
    {
      var p := picks[j];
      var conf := ConferenceOf(rows, p.user);
      var key := ConfKey(conf);
      keys := AddKey(keys, key);  // the dict remembers first insertion
      m := FileOne(m, key, p.user, [p.team]);
      PickStep(m0, keys0, rows, picks, j);
      j := j + 1;
    }
    assert picks[..|picks|] == picks;
  }

  /** One iteration of the first loop: row i extends the prefix's mapping and keys. */
  lemma RowStep(rows: seq<Participant>, i: int)
    requires 0 <= i < |rows|
    ensures MapRows(rows[..i + 1]) == File(MapRows(rows[..i]), ConfKey(rows[i].conference), rows[i].user, ClaimOf(rows[i]))
    ensures RowKeys(rows[..i + 1]) == AddKey(RowKeys(rows[..i]), ConfKey(rows[i].conference))
  {
    assert rows[..i + 1][..i] == rows[..i];
  }

  /** One iteration of the second loop: pick j extends the prefix's mapping and keys. */
  lemma PickStep(m0: Mapping, keys0: seq<string>, rows: seq<Participant>, picks: seq<PickRecord>, j: int)
    requires 0 <= j < |picks|
    ensures MapPicks(m0, rows, picks[..j + 1]) ==
              File(MapPicks(m0, rows, picks[..j]), PickKey(rows, picks[j]), picks[j].user, [picks[j].team])
    ensures PickKeys(keys0, rows, picks[..j + 1]) == AddKey(PickKeys(keys0, rows, picks[..j]), PickKey(rows, picks[j]))
  {
    assert picks[..j + 1][..j] == picks[..j];
  }

  /** build_conference_mapping_for_draft over the participants rows and the picks rows of a draft. */
  method BuildConferenceMapping(rows: seq<Participant>, picks: seq<PickRecord>) returns (m: Mapping, keys: seq<string>)
    ensures m == ConferenceMapping(rows, picks)
    ensures keys == MappingKeys(rows, picks)
  {
    m, keys := FileRows(rows);
    m, keys := FilePicks(m, keys, rows, picks);
  }

  lemma {:induction false} MapRowsKeys(rows: seq<Participant>, key: string)
    ensures key in MapRows(rows) <==> exists k :: 0 <= k < |rows| && ConfKey(rows[k].conference) == key
    ensures key in RowKeys(rows) <==> key in MapRows(rows)
  {
    if rows != [] {
      var n := |rows| - 1;
      var front := rows[..n];
      MapRowsKeys(front, key);
      assert forall k :: 0 <= k < n ==> front[k] == rows[k];
    }
  }

  lemma {:induction false} MapRowsUsers(rows: seq<Participant>, key: string, user: int)
    ensures user in Inner(MapRows(rows), key) <==> RowFiled(rows, key, user)
  {
    if rows != [] {
      var n := |rows| - 1;
      var front := rows[..n];
      MapRowsUsers(front, key, user);
      assert forall k :: 0 <= k < n ==> front[k] == rows[k];
    }
  }

  lemma {:induction false} MapRowsEntry(rows: seq<Participant>, key: string, user: int)
    ensures Entry(MapRows(rows), key, user) == ClaimsFiled(rows, key, user)
  {
    if rows != [] {
      MapRowsEntry(rows[..|rows| - 1], key, user);
    }
  }

  lemma {:induction false} MapPicksKeys(m: Mapping, rows: seq<Participant>, picks: seq<PickRecord>, key: string)
    ensures key in MapPicks(m, rows, picks) <==> key in m || exists k :: 0 <= k < |picks| && PickKey(rows, picks[k]) == key
  {
    if picks != [] {
      var n := |picks| - 1;
      var front := picks[..n];
      MapPicksKeys(m, rows, front, key);
      assert forall k :: 0 <= k < n ==> front[k] == picks[k];
      assert key in MapPicks(m, rows, picks) <==> key in MapPicks(m, rows, front) || key == PickKey(rows, picks[n]);
    }
  }

  lemma {:induction false} MapPicksUsers(m: Mapping, rows: seq<Participant>, picks: seq<PickRecord>, key: string, user: int)
    ensures user in Inner(MapPicks(m, rows, picks), key) <==> user in Inner(m, key) || PickFiled(rows, picks, key, user)
  {
    if picks != [] {
      var n := |picks| - 1;
      var front := picks[..n];
      MapPicksUsers(m, rows, front, key, user);
      assert forall k :: 0 <= k < n ==> front[k] == picks[k];
    }
  }

  lemma {:induction false} MapPicksEntry(m: Mapping, rows: seq<Participant>, picks: seq<PickRecord>, key: string, user: int)
    ensures Entry(MapPicks(m, rows, picks), key, user) == Entry(m, key, user) + PicksFiled(rows, picks, key, user)
  {
    if picks != [] {
      MapPicksEntry(m, rows, picks[..|picks| - 1], key, user);
    }
  }

  lemma {:induction false} PickKeysInMapping(m: Mapping, keys: seq<string>, rows: seq<Participant>, picks: seq<PickRecord>, key: string)
    requires key in keys <==> key in m
    ensures key in PickKeys(keys, rows, picks) <==> key in MapPicks(m, rows, picks)
  {
    if picks != [] {
      PickKeysInMapping(m, keys, rows, picks[..|picks| - 1], key);
    }
  }

  /**
   * The mapping holds a conference exactly when some row or some pick is
   * filed under it, a user under a conference exactly when one of their rows
   * or picks is, and then their claimed teams followed by their picks, in
   * order; its keys in dict order are the mapping's keys.
   */
  lemma ConferenceMappingContents(rows: seq<Participant>, picks: seq<PickRecord>, key: string, user: int)
    ensures key in ConferenceMapping(rows, picks) <==>
              (exists k :: 0 <= k < |rows| && ConfKey(rows[k].conference) == key)
              || (exists k :: 0 <= k < |picks| && PickKey(rows, picks[k]) == key)
    ensures user in Inner(ConferenceMapping(rows, picks), key) <==>
              RowFiled(rows, key, user) || PickFiled(rows, picks, key, user)
    ensures Entry(ConferenceMapping(rows, picks), key, user) ==
              ClaimsFiled(rows, key, user) + PicksFiled(rows, picks, key, user)
    ensures key in MappingKeys(rows, picks) <==> key in ConferenceMapping(rows, picks)
  {
    MapRowsKeys(rows, key);
    MapRowsUsers(rows, key, user);
    MapRowsEntry(rows, key, user);
    MapPicksKeys(MapRows(rows), rows, picks, key);
    MapPicksUsers(MapRows(rows), rows, picks, key, user);
    MapPicksEntry(MapRows(rows), rows, picks, key, user);
    PickKeysInMapping(MapRows(rows), RowKeys(rows), rows, picks, key);
  }

  lemma {:induction false} RowKeysDistinct(rows: seq<Participant>)
    ensures NoDuplicates(RowKeys(rows))
  {
    if rows != [] {
      RowKeysDistinct(rows[..|rows| - 1]);
    }
  }

  lemma {:induction false} PickKeysDistinct(keys: seq<string>, rows: seq<Participant>, picks: seq<PickRecord>)
    requires NoDuplicates(keys)
    ensures NoDuplicates(PickKeys(keys, rows, picks))
  {
    if picks != [] {
      PickKeysDistinct(keys, rows, picks[..|picks| - 1]);
    }
  }

  /** The dict order lists every key once. */
  lemma MappingKeysDistinct(rows: seq<Participant>, picks: seq<PickRecord>)
    ensures NoDuplicates(MappingKeys(rows, picks))
  {
    RowKeysDistinct(rows);
    PickKeysDistinct(RowKeys(rows), rows, picks);
  }

  // ---------------------------------------------------------------------------
  // /conference_view lookup

  /**
   * The conference key /conference_view shows: the query itself when it is
   * a key; otherwise the key whose folded form equals target (the last such
   * key in dict order, as a dict comprehension keeps); None when nothing
   * matches or the match is "".
   */
  function ResolveIn(keys: seq<string>, query: string, fold: string -> string, target: string): Option<string> {
    var found :=
      if query in keys then Some(query)
      else Get(BuildDict(Items(keys, fold)), target);
    if found.Some? && found.value != "" then found else None
  }

  /** The lookup of /conference_view: keys are folded with lower(), the query is stripped and lowered. */
  function ResolveConference(keys: seq<string>, query: string): Option<string> {
    ResolveIn(keys, query, Lower, Lower(Strip(query)))
  }

  lemma ResolveInSpec(keys: seq<string>, query: string, fold: string -> string, target: string)
    ensures ResolveIn(keys, query, fold, target).Some? ==>
              ResolveIn(keys, query, fold, target).value in keys && ResolveIn(keys, query, fold, target).value != ""
    ensures query in keys && query != "" ==> ResolveIn(keys, query, fold, target) == Some(query)
    ensures query !in keys && ResolveIn(keys, query, fold, target).Some? ==>
              fold(ResolveIn(keys, query, fold, target).value) == target
    ensures query !in keys ==>
              forall i :: 0 <= i < |keys| && fold(keys[i]) == target
                          && (forall j :: i < j < |keys| ==> fold(keys[j]) != target)
                          && keys[i] != ""
                ==> ResolveIn(keys, query, fold, target) == Some(keys[i])
    ensures query !in keys && (forall i :: 0 <= i < |keys| ==> fold(keys[i]) != target) ==>
              ResolveIn(keys, query, fold, target).None?
  {
    var items := Items(keys, fold);
    DictKeepsLast(items, target);
    var r := LastWithKey(items, target);
    if r.Some? {
      var i :| 0 <= i < |items| && items[i] == (target, r.value);
    }
  }

  /**
   * An exact key wins; otherwise the answer is the last key in dict order
   * whose lower-case form equals the stripped, lower-cased query; with no
   * such key the conference is not found.
   */
  lemma ResolveConferenceSpec(keys: seq<string>, query: string)
    ensures ResolveConference(keys, query).Some? ==>
              ResolveConference(keys, query).value in keys && ResolveConference(keys, query).value != ""
    ensures query in keys && query != "" ==> ResolveConference(keys, query) == Some(query)
    ensures query !in keys && ResolveConference(keys, query).Some? ==>
              Lower(ResolveConference(keys, query).value) == Lower(Strip(query))
    ensures query !in keys ==>
              forall i :: 0 <= i < |keys| && Lower(keys[i]) == Lower(Strip(query))
                          && (forall j :: i < j < |keys| ==> Lower(keys[j]) != Lower(Strip(query)))
                          && keys[i] != ""
                ==> ResolveConference(keys, query) == Some(keys[i])
    ensures query !in keys && (forall i :: 0 <= i < |keys| ==> Lower(keys[i]) != Lower(Strip(query))) ==>
              ResolveConference(keys, query).None?
  {
    ResolveInSpec(keys, query, Lower, Lower(Strip(query)));
  }
}
