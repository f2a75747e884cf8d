/**
 * The registry's view of its ordered map as a sequence: entries in
 * ascending key order (the order in which an ordered map iterates), and
 * the order-preserving filter every search applies to that sequence.
 */
module Listing {
  import opened Records

  /** Every key of the map is the id of the record stored under it. */
  ghost predicate KeyedById(m: map<nat, AthletePerformance>) {
    forall k :: k in m ==> m[k].id == k
  }

  /** Ids rise strictly along the sequence (so no id appears twice). */
  ghost predicate StrictlyAscending(s: seq<AthletePerformance>) {
    forall i, j :: 0 <= i < j < |s| ==> s[i].id < s[j].id
  }

  /** The keys of `m` in the half-open range [lo, hi). */
  ghost function KeysBetween(m: map<nat, AthletePerformance>, lo: nat, hi: nat): set<nat> {
    set k | k in m && lo <= k < hi
  }

  /**
   * The records of `m` whose keys lie in [lo, hi), in ascending key order:
   * each such record once, and nothing else.
   */
  function InKeyOrder(m: map<nat, AthletePerformance>, lo: nat, hi: nat): (s: seq<AthletePerformance>)
    requires KeyedById(m)
    ensures StrictlyAscending(s)
    ensures forall a :: a in s <==> a.id in m && m[a.id] == a && lo <= a.id < hi
    decreases hi - lo
  {
    if lo >= hi then []
    else
      var rest := InKeyOrder(m, lo + 1, hi);
      if lo in m then
        assert forall j :: 0 <= j < |rest| ==> rest[j] in rest;
        [m[lo]] + rest
      else rest
  }

  /** The listing has exactly as many entries as the map has keys in range. */
  lemma {:induction false} InKeyOrderLength(m: map<nat, AthletePerformance>, lo: nat, hi: nat)
    requires KeyedById(m)
    ensures |InKeyOrder(m, lo, hi)| == |KeysBetween(m, lo, hi)|
    decreases hi - lo
  {
    if lo < hi {
      InKeyOrderLength(m, lo + 1, hi);
      var later := KeysBetween(m, lo + 1, hi);
      if lo in m {
        assert KeysBetween(m, lo, hi) == later + {lo};
      } else {
        assert KeysBetween(m, lo, hi) == later;
      }
    } else {
      assert KeysBetween(m, lo, hi) == {};
    }
  }

  /** The elements of `s` that satisfy `keep`, in their original order. */
  function Filter(s: seq<AthletePerformance>, keep: AthletePerformance -> bool): (r: seq<AthletePerformance>)
    ensures forall a :: a in r <==> a in s && keep(a)
    ensures StrictlyAscending(s) ==> StrictlyAscending(r)
    ensures |r| <= |s|
  {
    if s == [] then []
    else
      var rest := Filter(s[1..], keep);
      assert forall a :: a in s <==> a == s[0] || a in s[1..];
      if keep(s[0]) then
        assert StrictlyAscending(s) ==> StrictlyAscending([s[0]] + rest) by {
          if StrictlyAscending(s) { HeadBeforeSublist(s, rest); }
        }
        [s[0]] + rest
      else rest
  }

  /** The head of an ascending sequence can lead any ascending selection from its tail. */
  lemma HeadBeforeSublist(s: seq<AthletePerformance>, r: seq<AthletePerformance>)
    requires s != [] && StrictlyAscending(s) && StrictlyAscending(r)
    requires forall a :: a in r ==> a in s[1..]
    ensures StrictlyAscending([s[0]] + r)
  {
    forall j | 0 <= j < |r| ensures s[0].id < r[j].id {
      assert r[j] in s[1..];
      var k :| 0 <= k < |s[1..]| && s[1..][k] == r[j];
      assert s[k + 1] == r[j];
    }
  }

  /** A filter that every element passes returns the sequence unchanged. */
  lemma {:induction false} FilterKeepsAll(s: seq<AthletePerformance>, keep: AthletePerformance -> bool)
    requires forall a :: a in s ==> keep(a)
    ensures Filter(s, keep) == s
  {
    if s != [] {
      FilterKeepsAll(s[1..], keep);
      assert s == [s[0]] + s[1..];
    }
  }

  /** Filtering a two-element sequence keeps each element exactly when it passes. */
  lemma FilterPair(x: AthletePerformance, y: AthletePerformance, keep: AthletePerformance -> bool)
    ensures Filter([x, y], keep) == (if keep(x) then [x] else []) + (if keep(y) then [y] else [])
  {
    assert [x, y][1..] == [y] && [y][1..] == [];
  }

  /**
   * A strictly ascending sequence is determined by its set of elements:
   * two such sequences holding the same records are the same sequence.
   * So a listing or search result is pinned down by its ordering and its
   * membership contracts.
   */
  lemma {:induction false} AscendingDeterminedByMembers(s: seq<AthletePerformance>, t: seq<AthletePerformance>)
    requires StrictlyAscending(s) && StrictlyAscending(t)
    requires forall a :: a in s <==> a in t
    ensures s == t
    decreases |s|
  {
    assert s != [] ==> s[0] in t;
    assert t != [] ==> t[0] in s;
    if s == [] || t == [] {
    } else {
      assert s[0] in s && t[0] in t;
      var i :| 0 <= i < |t| && t[i] == s[0];
      var j :| 0 <= j < |s| && s[j] == t[0];
      assert s[0].id <= s[j].id && t[0].id <= t[i].id;
      assert i == 0 && j == 0;
      forall a ensures a in s[1..] <==> a in t[1..] {
        if a in s[1..] {
          var k :| 0 <= k < |s[1..]| && s[1..][k] == a;
          assert s[k + 1] == a && s[0].id < a.id;
          assert a in t && a != t[0];
        }
        if a in t[1..] {
          var k :| 0 <= k < |t[1..]| && t[1..][k] == a;
          assert t[k + 1] == a && t[0].id < a.id;
          assert a in s && a != s[0];
        }
      }
      AscendingDeterminedByMembers(s[1..], t[1..]);
      assert s == [s[0]] + s[1..] && t == [t[0]] + t[1..];
    }
  }
}
