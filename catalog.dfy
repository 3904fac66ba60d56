/**
 * The team catalog: TEAM_SET, the dict from normalised name to catalog name
 * built once from the list of teams, the lookup the commands use to turn a
 * typed name into a catalog name, and the available-teams listing.
 */
module Catalog {
  import opened Wrappers

  /** A Python dict from normalised name to catalog name, as its items in insertion order. */
  type TeamSet = seq<(string, string)>

  predicate KeysUnique(d: TeamSet) {
    forall i, j :: 0 <= i < j < |d| ==> d[i].0 != d[j].0
  }

  /** The catalog names a TeamSet holds (its values). */
  function CanonicalNames(d: TeamSet): set<string> {
    set e | e in d :: e.1
  }

  /** d.get(k) */
  function Get(d: TeamSet, k: string): (r: Option<string>)
    ensures r.Some? ==> (k, r.value) in d
    ensures r.None? ==> forall e :: e in d ==> e.0 != k
  {
    if d == [] then None
    else if d[0].0 == k then Some(d[0].1)
    else Get(d[1..], k)
  }

  /** d[k] = v: the value is replaced where k already stands, otherwise the item is appended. */
  function Put(d: TeamSet, k: string, v: string): (r: TeamSet)
    ensures Get(r, k) == Some(v)
    ensures forall k' :: k' != k ==> Get(r, k') == Get(d, k')
    ensures forall e :: e in r ==> e in d || e == (k, v)
  {
    if d == [] then [(k, v)]
    else if d[0].0 == k then [(k, v)] + d[1..]
    else [d[0]] + Put(d[1..], k, v)
  }

  lemma KeysUniqueTail(d: TeamSet)
    requires KeysUnique(d) && d != []
    ensures KeysUnique(d[1..])
    ensures forall e :: e in d[1..] ==> e.0 != d[0].0
  {
    forall i, j | 0 <= i < j < |d[1..]| ensures d[1..][i].0 != d[1..][j].0 {
      assert d[1..][i] == d[i + 1] && d[1..][j] == d[j + 1];
    }
    forall e | e in d[1..] ensures e.0 != d[0].0 {
      var m :| 0 <= m < |d[1..]| && d[1..][m] == e;
      assert d[m + 1] == e;
    }
  }

  /** Storing an item keeps the keys of a dict unique. */
  lemma {:induction false} PutKeepsKeysUnique(d: TeamSet, k: string, v: string)
    requires KeysUnique(d)
    ensures KeysUnique(Put(d, k, v))
  {
    var r := Put(d, k, v);
    if d != [] {
      KeysUniqueTail(d);
      if d[0].0 == k {
        forall i, j | 0 <= i < j < |r| ensures r[i].0 != r[j].0 {
          assert r[j] == d[j];
          if i > 0 { assert r[i] == d[i]; }
        }
      } else {
        var tail := Put(d[1..], k, v);
        PutKeepsKeysUnique(d[1..], k, v);
        assert r == [d[0]] + tail;
        forall j | 0 < j < |r| ensures r[0].0 != r[j].0 {
          assert r[j] == tail[j - 1] && r[j] in tail;
        }
      }
    }
  }

  /** The items the comprehension generates: (norm(t), t) for t in TEAMS. */
  function Items(teams: seq<string>, norm: string -> string): (items: TeamSet)
    ensures |items| == |teams|
    ensures forall i :: 0 <= i < |teams| ==> items[i] == (norm(teams[i]), teams[i])
  {
    seq(|teams|, i requires 0 <= i < |teams| => (norm(teams[i]), teams[i]))
  }

  /** A dict comprehension: the items stored one after the other with d[k] = v. */
  function BuildDict(items: TeamSet): (d: TeamSet)
    ensures KeysUnique(d)
    ensures forall e :: e in d ==> e in items
  {
    if items == [] then []
    else
      var n := |items| - 1;
      var front := BuildDict(items[..n]);
      PutKeepsKeysUnique(front, items[n].0, items[n].1);
      Put(front, items[n].0, items[n].1)
  }

  /**
   * TEAM_SET = { norm(t): t for t in TEAMS }; the bot passes normalize_name
   * for norm. The lemmas below hold for any norm.
   */
  function BuildTeamSet(teams: seq<string>, norm: string -> string): (d: TeamSet)
    ensures KeysUnique(d)
    ensures forall e :: e in d ==> e in Items(teams, norm)
  {
    BuildDict(Items(teams, norm))
  }

  /**
   * Reference definition of what a dict comprehension keeps under key k:
   * the value of the last item whose key is k.
   */
  function LastWithKey(items: TeamSet, k: string): (r: Option<string>)
    ensures r.Some? ==> (k, r.value) in items
    ensures r.None? <==> forall i :: 0 <= i < |items| ==> items[i].0 != k
    ensures forall i :: 0 <= i < |items| && items[i].0 == k && (forall j :: i < j < |items| ==> items[j].0 != k)
              ==> r == Some(items[i].1)
  {
    if items == [] then None
    else
      var n := |items| - 1;
      if items[n].0 == k then Some(items[n].1)
      else
        var front := items[..n];
        var r := LastWithKey(front, k);
        assert forall i :: 0 <= i < n ==> front[i] == items[i];
        r
  }

  /** The lookup both /claim and /pick do: TEAM_SET[norm(name)], or unknown. */
  function Lookup(d: TeamSet, norm: string -> string, name: string): (r: Option<string>)
    ensures r.Some? ==> r.value in CanonicalNames(d)
  {
    Get(d, norm(name))
  }

  /** list_available_teams: the values of TEAM_SET, in dict order, that are not taken. */
  function AvailableTeams(d: TeamSet, taken: set<string>): (r: seq<string>)
    ensures forall t :: t in r <==> t in CanonicalNames(d) && t !in taken
  {
    if d == [] then []
    else
      var rest := AvailableTeams(d[1..], taken);
      assert forall e :: e in d ==> e == d[0] || e in d[1..];
      (if d[0].1 in taken then [] else [d[0].1]) + rest
  }

  predicate NoDuplicates(s: seq<string>) {
    forall i, j :: 0 <= i < j < |s| ==> s[i] != s[j]
  }

  // ---------------------------------------------------------------------------
  // Lemmas

  /** A dict comprehension keeps, under every key, the value of the last item with that key. */
  lemma {:induction false} DictKeepsLast(items: TeamSet, k: string)
    ensures Get(BuildDict(items), k) == LastWithKey(items, k)
  {
    if items != [] {
      DictKeepsLast(items[..|items| - 1], k);
    }
  }

  /**
   * A typed name is found exactly when some catalog name normalises to the
   * same string, and then the answer is the last such catalog name.
   */
  lemma LookupFindsCatalogName(teams: seq<string>, norm: string -> string, name: string)
    ensures Lookup(BuildTeamSet(teams, norm), norm, name) == LastWithKey(Items(teams, norm), norm(name))
    ensures Lookup(BuildTeamSet(teams, norm), norm, name).None? <==>
              forall i :: 0 <= i < |teams| ==> norm(teams[i]) != norm(name)
    ensures Lookup(BuildTeamSet(teams, norm), norm, name).Some? ==>
              Lookup(BuildTeamSet(teams, norm), norm, name).value in teams &&
              norm(Lookup(BuildTeamSet(teams, norm), norm, name).value) == norm(name)
  {
    var items := Items(teams, norm);
    var k := norm(name);
    DictKeepsLast(items, k);
    var r := LastWithKey(items, k);
    if r.Some? {
      var i :| 0 <= i < |items| && items[i] == (k, r.value);
    }
  }

  lemma GetOfItem(d: TeamSet, k: string, v: string)
    requires KeysUnique(d) && (k, v) in d
    ensures Get(d, k) == Some(v)
  {
    var r := Get(d, k);
    var i :| 0 <= i < |d| && d[i] == (k, v);
    var j :| 0 <= j < |d| && d[j] == (k, r.value);
    assert !(i < j) && !(j < i);
  }

  /** A catalog name kept in TEAM_SET looks up to itself, and so does any spelling that normalises like it. */
  lemma {:induction false} LookupOfCanonical(teams: seq<string>, norm: string -> string, t: string, name: string)
    requires t in CanonicalNames(BuildTeamSet(teams, norm))
    requires norm(name) == norm(t)
    ensures Lookup(BuildTeamSet(teams, norm), norm, name) == Some(t)
  {
    var d := BuildTeamSet(teams, norm);
    var e :| e in d && e.1 == t;
    var items := Items(teams, norm);
    var i :| 0 <= i < |items| && items[i] == e;
    GetOfItem(d, e.0, e.1);
    assert Lookup(d, norm, name) == Get(d, e.0);
  }

  /** The values of TEAM_SET are pairwise distinct, so the listing repeats no team. */
  lemma {:induction false} AvailableTeamsDistinct(teams: seq<string>, norm: string -> string, taken: set<string>)
    ensures NoDuplicates(AvailableTeams(BuildTeamSet(teams, norm), taken))
  {
    var d := BuildTeamSet(teams, norm);
    var items := Items(teams, norm);
    forall e, e' | e in d && e' in d && e.1 == e'.1 ensures e.0 == e'.0 {
      var i :| 0 <= i < |items| && items[i] == e;
      var j :| 0 <= j < |items| && items[j] == e';
    }
    ValuesDistinct(d, taken);
  }

  lemma {:induction false} ValuesDistinct(d: TeamSet, taken: set<string>)
    requires KeysUnique(d)
    requires forall e, e' :: e in d && e' in d && e.1 == e'.1 ==> e.0 == e'.0
    ensures NoDuplicates(AvailableTeams(d, taken))
  {
    if d != [] {
      var tail := d[1..];
      KeysUniqueTail(d);
      ValuesDistinct(tail, taken);
      assert d[0].1 !in CanonicalNames(tail);
    }
  }
}
