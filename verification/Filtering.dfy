/** Keeping the elements of a sequence that pass a test, in order: the shape of the interface list, of
    the event queue and of the poll list. */
module Filtering {

  function Select<T>(s: seq<T>, p: T -> bool): seq<T> {
    if s == [] then []
    else
      var rest := Select(s[..|s| - 1], p);
      if p(s[|s| - 1]) then rest + [s[|s| - 1]] else rest
  }

  /** The places are strictly increasing, hold the elements of the list in order, and are those of all
      the elements that pass and of nothing else. */
  ghost predicate PlacesOf<T>(s: seq<T>, p: T -> bool, list: seq<T>, places: seq<nat>) {
    && |places| == |list|
    && (forall i | 0 <= i < |places| :: places[i] < |s| && s[places[i]] == list[i])
    && (forall i, j | 0 <= i < j < |places| :: places[i] < places[j])
    && (forall k | 0 <= k < |s| :: k in places <==> p(s[k]))
  }

  /** What a selection is. */
  lemma {:induction false} SelectPlaces<T>(s: seq<T>, p: T -> bool) returns (places: seq<nat>)
    ensures PlacesOf(s, p, Select(s, p), places)
    decreases |s|
  {
    if s == [] {
      places := [];
    } else {
      var front := s[..|s| - 1];
      places := SelectPlaces(front, p);
      PlacesGrow(front, s[|s| - 1], p, Select(front, p), places);
      assert s == front + [s[|s| - 1]];
      if p(s[|s| - 1]) {
        places := places + [|front|];
      }
    }
  }

  lemma PlacesGrow<T>(front: seq<T>, x: T, p: T -> bool, list: seq<T>, places: seq<nat>)
    requires PlacesOf(front, p, list, places)
    ensures if p(x) then PlacesOf(front + [x], p, list + [x], places + [|front|])
            else PlacesOf(front + [x], p, list, places)
  {
    var s, all := front + [x], if p(x) then places + [|front|] else places;
    assert forall k | 0 <= k < |front| :: s[k] == front[k];
    forall k | 0 <= k < |s| ensures k in all <==> p(s[k]) {
      assert k in all <==> k in places || (p(x) && k == |front|);
    }
  }

  /** Members of a selection are the members that pass. */
  lemma SelectMembers<T>(s: seq<T>, p: T -> bool, x: T)
    ensures x in Select(s, p) <==> x in s && p(x)
  {
    var places := SelectPlaces(s, p);
    if x in s && p(x) {
      var k :| 0 <= k < |s| && s[k] == x;
      var i :| 0 <= i < |places| && places[i] == k;
      assert Select(s, p)[i] == x;
    }
    if x in Select(s, p) {
      var i :| 0 <= i < |places| && Select(s, p)[i] == x;
      assert places[i] in places;
    }
  }

  /** Selecting from a longer sequence adds only behind what was there. */
  lemma {:induction false} SelectGrows<T>(s: seq<T>, p: T -> bool, i: nat)
    requires i <= |s|
    ensures Select(s[..i], p) <= Select(s, p)
    decreases |s|
  {
    if i == |s| {
      assert s[..i] == s;
    } else {
      SelectGrows(s[..|s| - 1], p, i);
      assert s[..|s| - 1][..i] == s[..i];
    }
  }

  lemma SelectNext<T>(s: seq<T>, p: T -> bool, i: nat)
    requires i < |s|
    ensures Select(s[..i + 1], p) == if p(s[i]) then Select(s[..i], p) + [s[i]] else Select(s[..i], p)
  {
    assert s[..i + 1][..i] == s[..i];
  }

  /** The first element of a selection that passes a second test is the first element of the sequence
      that passes both. */
  lemma FirstOfSelection<T>(s: seq<T>, p: T -> bool, q: T -> bool, i: nat, k: nat)
    requires i <= |Select(s, p)| && k <= |s|
    requires forall j | 0 <= j < i :: !q(Select(s, p)[j])
    requires i < |Select(s, p)| ==> q(Select(s, p)[i])
    requires forall j | 0 <= j < k :: !(p(s[j]) && q(s[j]))
    requires k < |s| ==> p(s[k]) && q(s[k])
    ensures i < |Select(s, p)| <==> k < |s|
    ensures i < |Select(s, p)| ==> Select(s, p)[i] == s[k]
  {
    var places := SelectPlaces(s, p);
    if i < |places| {
      assert places[i] in places;
      assert k <= places[i];
    }
    if k < |s| {
      assert k in places;
      var n :| 0 <= n < |places| && places[n] == k;
      assert i <= n;
    }
  }
}
