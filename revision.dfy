/** One revision as the service reports it, with its patrol state in the
    recent-changes log (`rc_patrolled`: 0 unpatrolled, 1 manually patrolled,
    2 autopatrolled; absent once the change has aged out of that log). */
module RevisionRecord {
  import opened Wrappers

  datatype Revision = Revision(
    revId: int,
    revPage: int,
    revUser: int,
    revUserText: string,
    revTimestamp: string,
    rcPatrolled: Option<int>)

  /** A revision built without a patrol state, as `rc_patrolled` defaults to `None`. */
  function WithoutPatrolState(revId: int, revPage: int, revUser: int, revUserText: string, revTimestamp: string): (r: Revision)
    ensures IsPurgedFromRecentChanges(r)
    ensures !IsUnpatrolled(r) && !IsManuallyPatrolled(r) && !IsAutopatrolled(r)
  {
    Revision(revId, revPage, revUser, revUserText, revTimestamp, None)
  }

  predicate IsPurgedFromRecentChanges(r: Revision)
  {
    r.rcPatrolled == None
  }

  predicate IsManuallyPatrolled(r: Revision)
  {
    r.rcPatrolled == Some(1)
  }

  predicate IsAutopatrolled(r: Revision)
  {
    r.rcPatrolled == Some(2)
  }

  predicate IsUnpatrolled(r: Revision)
  {
    r.rcPatrolled == Some(0)
  }

  /** The states the record's documentation names: none, 0, 1 and 2. */
  predicate HasDocumentedState(r: Revision)
  {
    r.rcPatrolled.None? || r.rcPatrolled.value in {0, 1, 2}
  }

  /** How many of the four patrol predicates hold. */
  function StatesHolding(r: Revision): nat
  {
    (if IsPurgedFromRecentChanges(r) then 1 else 0) + (if IsUnpatrolled(r) then 1 else 0)
    + (if IsManuallyPatrolled(r) then 1 else 0) + (if IsAutopatrolled(r) then 1 else 0)
  }

  /** The four predicates are mutually exclusive, and exactly one holds for each documented state. */
  lemma PatrolStatesPartition(r: Revision)
    ensures StatesHolding(r) <= 1
    ensures StatesHolding(r) == 1 <==> HasDocumentedState(r)
  {
  }
}
