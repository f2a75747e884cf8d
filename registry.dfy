/**
 * The athlete-performance registry: an ordered map from id to record plus
 * the id counter, with the mutation operations as methods that change
 * them in place and the query operations as functions that only read them.
 * The clock is the parameter `now` of the operations that consult it.
 */
module Registry {
  import opened Records
  import opened Text
  import opened Listing

  /** The recency window, in units of the clock that stamps the records. */
  const SevenDays: nat := 7 * 24 * 60 * 60

  /** Whether a record was updated strictly later than `SevenDays` before `now`; never-updated records are not. */
  predicate UpdatedWithin(a: AthletePerformance, now: nat)
    requires now >= SevenDays
  {
    match a.updatedAt
    case None => false
    case Some(t) => t > now - SevenDays
  }

  class Store {
    /** The records, keyed by id; iterating it visits the keys in ascending order. */
    var records: map<nat, AthletePerformance>
    /** The next id to hand out. */
    var nextId: nat

    /** Every record sits under its own id, and every id in use was handed out already. */
    ghost predicate Valid()
      reads this
    {
      KeyedById(records) && forall k :: k in records ==> k < nextId
    }

    /** An empty registry whose first id is 0. */
    constructor ()
      ensures Valid() && records == map[] && nextId == 0
    {
      records := map[];
      nextId := 0;
    }

    /** Hands out the counter's current value and advances it. */
    method GenerateId() returns (id: nat)
      requires Valid()
      modifies this
      ensures Valid()
      ensures id == old(nextId) && nextId == id + 1 && records == old(records)
      ensures forall k :: k in records ==> k < id
    {
      id := nextId;
      nextId := nextId + 1;
    }

    /** Stores `a` under its id, replacing whatever was stored there. */
    method Insert(a: AthletePerformance)
      requires Valid() && a.id < nextId
      modifies this
      ensures Valid()
      ensures records == old(records)[a.id := a] && nextId == old(nextId)
    {
      records := records[a.id := a];
    }

    /** Creates a record from the payload under a fresh id, stamped with `now`. */
    method Add(p: UpdatePayload, now: nat) returns (a: AthletePerformance)
      requires Valid()
      modifies this
      ensures Valid()
      ensures a.id == old(nextId) && nextId == old(nextId) + 1
      ensures forall k :: k in old(records) ==> k < a.id
      ensures PayloadOf(a) == p && a.createdAt == now && a.updatedAt == None
      ensures records == old(records)[a.id := a]
      ensures Get(a.id) == Ok(a)
    {
      var id := GenerateId();
      a := NewPerformance(id, p, now);
      Insert(a);
    }

    /** Applies the partial update to the record at `id`, or reports that there is none. */
    method Update(id: nat, p: UpdatePayload, now: nat) returns (res: Result<AthletePerformance>)
      requires Valid()
      modifies this
      ensures Valid() && nextId == old(nextId)
      ensures id !in old(records) ==> res == Err(NotFound(id)) && records == old(records)
      ensures id in old(records) ==>
        && res == Ok(ApplyUpdate(old(records)[id], p, now))
        && records == old(records)[id := res.value]
    {
      if id !in records {
        return Err(NotFound(id));
      }
      var updated := ApplyUpdate(records[id], p, now);
      Insert(updated);
      res := Ok(updated);
    }

    /** Replaces the achievements of the record at `id` outright, or reports that there is none. */
    method UpdateAchievements(id: nat, achievements: seq<string>, now: nat) returns (res: Result<AthletePerformance>)
      requires Valid()
      modifies this
      ensures Valid() && nextId == old(nextId)
      ensures id !in old(records) ==> res == Err(NotFound(id)) && records == old(records)
      ensures id in old(records) ==>
        && res == Ok(WithAchievements(old(records)[id], achievements, now))
        && records == old(records)[id := res.value]
    {
      if id !in records {
        return Err(NotFound(id));
      }
      var updated := WithAchievements(records[id], achievements, now);
      Insert(updated);
      res := Ok(updated);
    }

    /** Removes the record at `id` and returns it, or reports that there is none. */
    method Delete(id: nat) returns (res: Result<AthletePerformance>)
      requires Valid()
      modifies this
      ensures Valid() && nextId == old(nextId)
      ensures id !in old(records) ==> res == Err(NotFound(id)) && records == old(records)
      ensures id in old(records) ==> res == Ok(old(records)[id]) && records == old(records) - {id}
      ensures Get(id) == Err(NotFound(id))
    {
      if id !in records {
        return Err(NotFound(id));
      }
      res := Ok(records[id]);
      records := records - {id};
    }

    /** The record stored at `id`, or `NotFound`. */
    function Get(id: nat): (res: Result<AthletePerformance>)
      reads this
      requires Valid()
      ensures res.Ok? <==> id in records
      ensures res.Ok? ==> res.value == records[id] && res.value.id == id
      ensures res.Err? ==> res.error == NotFound(id)
    {
      if id in records then Ok(records[id]) else Err(NotFound(id))
    }

    /** Every stored record once, in ascending id order. */
    function GetAll(): (all: seq<AthletePerformance>)
      reads this
      requires Valid()
      ensures StrictlyAscending(all)
      ensures forall a :: a in all <==> a.id in records && records[a.id] == a
      ensures |all| == |records|
    {
      InKeyOrderLength(records, 0, nextId);
      assert KeysBetween(records, 0, nextId) == records.Keys;
      InKeyOrder(records, 0, nextId)
    }

    /** The stored records whose name contains `name`, in ascending id order. */
    function SearchByName(name: string): (found: seq<AthletePerformance>)
      reads this
      requires Valid()
      ensures StrictlyAscending(found)
      ensures forall a :: a in found <==> a.id in records && records[a.id] == a && Contains(a.athleteName, name)
    {
      Filter(GetAll(), (a: AthletePerformance) => Contains(a.athleteName, name))
    }

    /** The stored records whose sport contains `sport`, in ascending id order. */
    function SearchBySport(sport: string): (found: seq<AthletePerformance>)
      reads this
      requires Valid()
      ensures StrictlyAscending(found)
      ensures forall a :: a in found <==> a.id in records && records[a.id] == a && Contains(a.sport, sport)
    {
      Filter(GetAll(), (a: AthletePerformance) => Contains(a.sport, sport))
    }

    /** The stored records that list `achievement` exactly among their achievements, in ascending id order. */
    function SearchByAchievement(achievement: string): (found: seq<AthletePerformance>)
      reads this
      requires Valid()
      ensures StrictlyAscending(found)
      ensures forall a :: a in found <==> a.id in records && records[a.id] == a && achievement in a.achievements
    {
      Filter(GetAll(), (a: AthletePerformance) => achievement in a.achievements)
    }

    /** The stored records last updated strictly within the recency window before `now`, in ascending id order. */
    function RecentlyUpdated(now: nat): (found: seq<AthletePerformance>)
      reads this
      requires Valid() && now >= SevenDays
      ensures StrictlyAscending(found)
      ensures forall a :: a in found <==>
        && a.id in records && records[a.id] == a
        && a.updatedAt.Some? && a.updatedAt.value > now - SevenDays
    {
      Filter(GetAll(), (a: AthletePerformance) => UpdatedWithin(a, now))
    }

    /** The number of stored records, or `NoAthletes` when there are none. */
    function Count(): (res: Result<nat>)
      reads this
      requires Valid()
      ensures res.Err? <==> records == map[]
      ensures res.Err? ==> res.error == NoAthletes
      ensures res.Ok? ==> res.value == |GetAll()| > 0
    {
      if |records| > 0 then Ok(|records|) else Err(NoAthletes)
    }

    /** A point lookup agrees with the listing: `Get(id)` finds exactly the listed record with that id. */
    lemma GetAgreesWithListing(id: nat, a: AthletePerformance)
      requires Valid()
      ensures Get(id) == Ok(a) <==> a in GetAll() && a.id == id
    {
    }

    /** An empty query makes the name and sport searches return the full listing. */
    lemma EmptyQueryMatchesAll()
      requires Valid()
      ensures SearchByName([]) == GetAll()
      ensures SearchBySport([]) == GetAll()
    {
      FilterKeepsAll(GetAll(), (a: AthletePerformance) => Contains(a.athleteName, []));
      FilterKeepsAll(GetAll(), (a: AthletePerformance) => Contains(a.sport, []));
    }
  }

  /** Stamping by either update puts a record in the recency window of that instant; creation does not. */
  lemma UpdateStampsAreRecent(a: AthletePerformance, p: UpdatePayload, achievements: seq<string>, id: nat, now: nat)
    requires now >= SevenDays
    ensures UpdatedWithin(ApplyUpdate(a, p, now), now)
    ensures UpdatedWithin(WithAchievements(a, achievements, now), now)
    ensures !UpdatedWithin(NewPerformance(id, p, now), now)
  {
  }

  /** "Swim" occurs in "Swimming" and not in "Basketball", which holds no 'S' at all. */
  lemma SportExamples()
    ensures Contains("Swimming", "Swim") && !Contains("Basketball", "Swim")
  {
    assert OccursAt("Swim", "Swimming", 0);
    forall i: nat ensures !OccursAt("Swim", "Basketball", i) {
      if i < |"Basketball"| { assert "Basketball"[i] != 'S'; }
    }
  }

  /**
   * Ids across a create, a delete of that record and a second create: the
   * second id is larger, so a deleted id is never handed out again, and the
   * deleted record stays gone.
   */
  method AddDeleteAdd(s: Store, p: UpdatePayload, q: UpdatePayload, now: nat)
    returns (first: AthletePerformance, removed: Result<AthletePerformance>, second: AthletePerformance)
    requires s.Valid()
    modifies s
    ensures s.Valid()
    ensures removed == Ok(first)
    ensures first.id == old(s.nextId) && second.id == first.id + 1
    ensures first.id !in s.records && s.Get(first.id) == Err(NotFound(first.id))
    ensures s.Get(second.id) == Ok(second)
    ensures s.records == old(s.records)[second.id := second]
  {
    first := s.Add(p, now);
    removed := s.Delete(first.id);
    second := s.Add(q, now);
  }

  /** Counting an empty registry fails; after one creation the count is 1. */
  method CountScenario(p: UpdatePayload, now: nat) returns (before: Result<nat>, after: Result<nat>)
    ensures before == Err(NoAthletes) && after == Ok(1)
  {
    var s := new Store();
    before := s.Count();
    var a := s.Add(p, now);
    assert s.GetAll() == [a] by { AscendingDeterminedByMembers(s.GetAll(), [a]); }
    after := s.Count();
  }

  /**
   * Two creations on a fresh registry get ids 0 and 1, and the sport and
   * achievement searches each single out one of them.
   */
  method SearchScenario(now: nat)
    returns (a: AthletePerformance, b: AthletePerformance,
             bySport: seq<AthletePerformance>, byAchievement: seq<AthletePerformance>)
    ensures a.id == 0 && b.id == 1
    ensures bySport == [b] && byAchievement == [a]
  {
    var s := new Store();
    a := s.Add(UpdatePayload("Jordan", "Basketball", [], ["MVP"]), now);
    b := s.Add(UpdatePayload("Ana", "Swimming", [], []), now);
    assert s.records == map[0 := a, 1 := b];
    assert s.GetAll() == [a, b] by { AscendingDeterminedByMembers(s.GetAll(), [a, b]); }
    bySport := s.SearchBySport("Swim");
    assert bySport == [b] by {
      SportExamples();
      FilterPair(a, b, (x: AthletePerformance) => Contains(x.sport, "Swim"));
    }
    byAchievement := s.SearchByAchievement("MVP");
    assert byAchievement == [a] by {
      FilterPair(a, b, (x: AthletePerformance) => "MVP" in x.achievements);
    }
  }

  /**
   * After two creations, deleting the first returns it, a second delete of
   * it fails, and the listing then holds only the other record.
   */
  method DeleteScenario(p: UpdatePayload, q: UpdatePayload, now: nat)
    returns (a: AthletePerformance, b: AthletePerformance, deleted: Result<AthletePerformance>,
             deletedAgain: Result<AthletePerformance>, remaining: seq<AthletePerformance>)
    ensures deleted == Ok(a) && deletedAgain == Err(NotFound(a.id))
    ensures remaining == [b]
  {
    var s := new Store();
    a := s.Add(p, now);
    b := s.Add(q, now);
    deleted := s.Delete(a.id);
    deletedAgain := s.Delete(a.id);
    assert s.records == map[1 := b];
    remaining := s.GetAll();
    assert remaining == [b] by { AscendingDeterminedByMembers(remaining, [b]); }
  }
}
