/**
 * The athlete-performance record, the payload callers send, the error
 * conditions of the registry, and the pure record-level transformations
 * that the registry's create and update operations apply.
 */
module Records {

  datatype Option<T> = None | Some(value: T)

  /** The two failure conditions surfaced to callers. */
  datatype Error =
    | NotFound(id: nat)   // an operation addressed an id with no record
    | NoAthletes          // a count was requested on an empty registry

  datatype Result<T> = Ok(value: T) | Err(error: Error)

  /** One stored entry: the record the registry keys by `id`. */
  datatype AthletePerformance = AthletePerformance(
    id: nat,
    athleteName: string,
    sport: string,
    performanceMetrics: string,
    achievements: seq<string>,
    createdAt: nat,
    updatedAt: Option<nat>)

  /** The caller-supplied fields, used both to create and to update a record. */
  datatype UpdatePayload = UpdatePayload(
    athleteName: string,
    sport: string,
    performanceMetrics: string,
    achievements: seq<string>)

  const EmptyPayload := UpdatePayload([], [], [], [])

  /** The caller-visible fields of a record, in payload form. */
  function PayloadOf(a: AthletePerformance): UpdatePayload {
    UpdatePayload(a.athleteName, a.sport, a.performanceMetrics, a.achievements)
  }

  /** The record built on creation: fresh id, payload copied verbatim, never updated. */
  function NewPerformance(id: nat, p: UpdatePayload, now: nat): (a: AthletePerformance)
    ensures a.id == id && a.createdAt == now && a.updatedAt == None
    ensures PayloadOf(a) == p
  {
    AthletePerformance(id, p.athleteName, p.sport, p.performanceMetrics, p.achievements, now, None)
  }

  /** The "replace only if non-empty" choice made for each updatable field. */
  function Overlay<T>(given: seq<T>, current: seq<T>): seq<T> {
    if given == [] then current else given
  }

  /** Field-wise overlay of payload `p` on top of payload `base`. */
  function Merge(p: UpdatePayload, base: UpdatePayload): UpdatePayload {
    UpdatePayload(
      Overlay(p.athleteName, base.athleteName),
      Overlay(p.sport, base.sport),
      Overlay(p.performanceMetrics, base.performanceMetrics),
      Overlay(p.achievements, base.achievements))
  }

  /**
   * The partial update: every non-empty payload field replaces the stored
   * one, every empty payload field leaves it alone, and the record is stamped
   * with `now` whatever the payload held.
   */
  function ApplyUpdate(a: AthletePerformance, p: UpdatePayload, now: nat): (u: AthletePerformance)
    ensures u.id == a.id && u.createdAt == a.createdAt && u.updatedAt == Some(now)
    ensures p.athleteName != [] ==> u.athleteName == p.athleteName
    ensures p.athleteName == [] ==> u.athleteName == a.athleteName
    ensures p.sport != [] ==> u.sport == p.sport
    ensures p.sport == [] ==> u.sport == a.sport
    ensures p.performanceMetrics != [] ==> u.performanceMetrics == p.performanceMetrics
    ensures p.performanceMetrics == [] ==> u.performanceMetrics == a.performanceMetrics
    ensures p.achievements != [] ==> u.achievements == p.achievements
    ensures p.achievements == [] ==> u.achievements == a.achievements
  {
    var m := Merge(p, PayloadOf(a));
    a.(athleteName := m.athleteName, sport := m.sport,
       performanceMetrics := m.performanceMetrics, achievements := m.achievements,
       updatedAt := Some(now))
  }

  /** The unconditional replacement of the achievements list. */
  function WithAchievements(a: AthletePerformance, achievements: seq<string>, now: nat): (u: AthletePerformance)
    ensures u.achievements == achievements && u.updatedAt == Some(now)
    ensures u.id == a.id && u.createdAt == a.createdAt
    ensures u.athleteName == a.athleteName && u.sport == a.sport
    ensures u.performanceMetrics == a.performanceMetrics
  {
    a.(achievements := achievements, updatedAt := Some(now))
  }

  /** An update whose payload is all empty changes nothing but the update stamp. */
  lemma EmptyPayloadOnlyStamps(a: AthletePerformance, now: nat)
    ensures ApplyUpdate(a, EmptyPayload, now) == a.(updatedAt := Some(now))
  {
  }

  /** Resubmitting a record's own fields is the same as an empty update. */
  lemma CurrentFieldsOnlyStamp(a: AthletePerformance, now: nat)
    ensures ApplyUpdate(a, PayloadOf(a), now) == ApplyUpdate(a, EmptyPayload, now)
  {
  }

  /**
   * Two successive updates are one update whose payload is the second
   * overlaid on the first; in particular repeating an update is idempotent.
   */
  lemma UpdatesCompose(a: AthletePerformance, p: UpdatePayload, q: UpdatePayload, t1: nat, t2: nat)
    ensures ApplyUpdate(ApplyUpdate(a, p, t1), q, t2) == ApplyUpdate(a, Merge(q, p), t2)
    ensures ApplyUpdate(ApplyUpdate(a, p, t1), p, t2) == ApplyUpdate(a, p, t2)
  {
  }

  /**
   * The partial update can never clear a field that holds something, while
   * the achievements replacement clears the list when given an empty one.
   */
  lemma ClearingAsymmetry(a: AthletePerformance, p: UpdatePayload, now: nat)
    ensures a.athleteName != [] ==> ApplyUpdate(a, p, now).athleteName != []
    ensures a.sport != [] ==> ApplyUpdate(a, p, now).sport != []
    ensures a.performanceMetrics != [] ==> ApplyUpdate(a, p, now).performanceMetrics != []
    ensures a.achievements != [] ==> ApplyUpdate(a, p, now).achievements != []
    ensures WithAchievements(a, [], now).achievements == []
  {
  }

  /** Updating a freshly created record with the payload it was created from only stamps it. */
  lemma CreateThenUpdateWithSamePayload(id: nat, p: UpdatePayload, t0: nat, now: nat)
    ensures ApplyUpdate(NewPerformance(id, p, t0), p, now) == NewPerformance(id, p, t0).(updatedAt := Some(now))
  {
  }
}
