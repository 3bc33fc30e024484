/** The repair of status rows that disagree with a visit record
    (archive/migrations/0016_fix_planned_status_with_existing_visit_record.py). */
module StatusRepair {
  import opened ArchiveTables
  import opened ArchiveSafety
  import opened ArchiveService

  /** A planned or missed row whose subject has a visit record. */
  predicate Stale(statuses: map<StatusKey, StatusRow>, visits: map<nat, Visit>, key: StatusKey) {
    key in statuses && !statuses[key].status.Visited? && HasVisitRecord(visits, key.0, key.1)
  }

  function Repaired(statuses: map<StatusKey, StatusRow>, visits: map<nat, Visit>): map<StatusKey, StatusRow> {
    map key | key in statuses :: if Stale(statuses, visits, key) then statuses[key].(status := Visited) else statuses[key]
  }

  method FixPlannedStatusWithExistingVisitRecord(archive: Archive)
    modifies archive`statuses
    ensures archive.statuses == Repaired(old(archive.statuses), archive.visits)
  {
    var todo := set key | key in archive.statuses && !archive.statuses[key].status.Visited?;
    ghost var was, stale := archive.statuses, todo;
    while todo != {}
      invariant todo <= stale && archive.statuses.Keys == was.Keys
      invariant forall key | key in was ::
                  archive.statuses[key] == if key in stale - todo && Stale(was, archive.visits, key) then was[key].(status := Visited)
                                           else was[key]
      decreases |todo|
    {
      var key :| key in todo;
      if HasVisitRecord(archive.visits, key.0, key.1) {
        archive.statuses := archive.statuses[key := archive.statuses[key].(status := Visited)];
      }
      todo := todo - {key};
    }
  }

  /** From any tables whatever the repair reaches agreement, changes a row exactly if it disagreed, and only its status;
      and it is the least change that does: any agreeing table with the same rows has the repaired ones as visited. */
  lemma RepairReachesAgreement(statuses: map<StatusKey, StatusRow>, visits: map<nat, Visit>)
    ensures Agreement(Repaired(statuses, visits), visits)
    ensures forall key | key in statuses :: Repaired(statuses, visits)[key] != statuses[key] <==> Stale(statuses, visits, key)
    ensures forall key | key in statuses :: Repaired(statuses, visits)[key].overridden == statuses[key].overridden
    ensures Agreement(statuses, visits) <==> Repaired(statuses, visits) == statuses
    ensures forall other: map<StatusKey, StatusRow> | other.Keys == statuses.Keys && Agreement(other, visits) ::
              forall key | Stale(statuses, visits, key) :: other[key].status.Visited?
  {
  }
}
