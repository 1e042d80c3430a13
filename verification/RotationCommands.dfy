/**
 The commands of jwt-keyset as they run: load the two files, update the loaded values in place,
 write each file back. Every method is proved to leave on disk exactly the prefix of its plan that
 the write results allow, and to report what the plan says.
 */
module RotationCommands {
  import opened Common
  import opened Keysets
  import opened Rotation

  lemma RetiredCheck(k: Keyset, m: Metadata)
    requires m.phase.Retired?
    ensures CheckRotationState(k, Some(m)).Completed? ==>
              k.activeKid == m.next && m.previous !in k.keys && k.legacyKid == ""
  {}

  class KeysetFiles {
    var keyset: Option<Keyset>
    var metadata: Option<Metadata>

    constructor ()
      ensures OnDisk() == Disk(None, None)
    {
      keyset, metadata := None, None;
    }

    ghost function OnDisk(): Disk
      reads this
    {
      Disk(keyset, metadata)
    }

    /** The disk and the report are those of `plan` started on `before`. */
    ghost predicate Follows(before: Disk, plan: Plan, first: WriteResult, second: WriteResult, r: Outcome)
      reads this
    {
      && |plan.writes| <= 2
      && OnDisk() == AfterWrites(before, plan.writes, Landed(|plan.writes|, first, second))
      && r == Reported(plan, first, second)
    }

    method WriteKeyset(k: Keyset, result: WriteResult) returns (r: Outcome)
      modifies this
      ensures OnDisk() == if result.Lost? then old(OnDisk()) else Apply(old(OnDisk()), PutKeyset(k))
      ensures r == if result.Written? then Completed else Failed(WriteFailed)
    {
      if !result.Lost? {
        keyset := Some(k);
      }
      r := if result.Written? then Completed else Failed(WriteFailed);
    }

    method WriteMetadata(m: Metadata, result: WriteResult) returns (r: Outcome)
      modifies this
      ensures OnDisk() == if result.Lost? then old(OnDisk()) else Apply(old(OnDisk()), PutMetadata(m))
      ensures r == if result.Written? then Completed else Failed(WriteFailed)
    {
      if !result.Lost? {
        metadata := Some(m);
      }
      r := if result.Written? then Completed else Failed(WriteFailed);
    }

    method Load() returns (r: Outcome, value: Keyset, loaded: Option<Metadata>)
      ensures r == CheckFiles(OnDisk())
      ensures r == Failed(NotFound) <==> keyset.None?
      ensures r == Failed(InvalidKeyset) <==> keyset.Some? && !ValidKeyset(keyset.value)
      ensures r.Completed? <==> keyset.Some? && ValidKeyset(keyset.value) && (metadata.Some? ==> ValidMetadata(metadata.value))
      ensures r.Completed? ==> keyset == Some(value) && metadata == loaded
    {
      value, loaded := Keyset(0, "", "", map[]), None;
      if keyset.None? {
        return Failed(NotFound), value, loaded;
      }
      if !ValidKeyset(keyset.value) {
        return Failed(InvalidKeyset), value, loaded;
      }
      if metadata.Some? && !ValidMetadata(metadata.value) {
        return Failed(InvalidState), value, loaded;
      }
      return Completed, keyset.value, metadata;
    }

    method RunBootstrap(kid: string, secret: string, utf8: bool, result: WriteResult) returns (r: Outcome)
      requires ValidKid(kid)
      modifies this
      ensures Follows(old(OnDisk()), BootstrapPlan(old(OnDisk()), kid, secret, utf8), result, Written, r)
    {
      if |secret| < MIN_SECRET_BYTES {
        return Failed(InvalidKeyset);
      }
      if !utf8 {
        return Failed(InvalidKeyset);
      }
      var value := Keyset(KEYSET_VERSION, kid, kid, map[kid := secret]);
      if !ValidKeyset(value) {
        return Failed(InvalidKeyset);
      }
      // The keyset is linked into place, which fails when the file exists.
      if keyset.Some? {
        return Failed(AlreadyExists);
      }
      r := WriteKeyset(value, result);
    }

    /** finishPrepare, from the draw on. */
    method FinishRunPrepare(k: Keyset, m: Metadata, draw: Option<string>, result: WriteResult) returns (r: Outcome)
      modifies this
      ensures Follows(old(OnDisk()), FinishPrepare(k, m, draw, []), result, Written, r)
    {
      if draw.None? {
        return Failed(Random);
      }
      var value := k;
      value := value.(keys := value.keys[m.next := draw.value]);
      var check := CheckRotationState(value, Some(m));
      if check.Failed? {
        return check;
      }
      r := WriteKeyset(value, result);
    }

    /** resumePrepare: the metadata already says prepared. */
    method ResumePrepare(k: Keyset, m: Metadata, newKid: string, now: Time, draw: Option<string>, result: WriteResult)
      returns (r: Outcome)
      requires m.phase.Prepared?
      modifies this
      ensures Follows(old(OnDisk()), PreparePlan(k, Some(m), newKid, now, draw), result, Written, r)
    {
      if m.next != newKid {
        return Failed(InvalidState);
      }
      if !PreparedFiles(k, m) {
        return Failed(InvalidState);
      }
      if m.next in k.keys {
        return Completed;
      }
      r := FinishRunPrepare(k, m, draw, result);
    }

    /** The first half of prepare: record the rotation, then add the key. */
    method StartPrepare(k: Keyset, newKid: string, now: Time, draw: Option<string>, first: WriteResult, second: WriteResult)
      returns (r: Outcome)
      modifies this
      ensures var m := PreparedMetadata(k, newKid, now);
              Follows(old(OnDisk()), FinishPrepare(k, m, draw, [PutMetadata(m)]), first, second, r)
    {
      var m := PreparedMetadata(k, newKid, now);
      ghost var tail := FinishPrepare(k, m, draw, []).writes;
      FinishAfterMetadata(OnDisk(), k, m, draw, Landed(|tail|, second, Written));
      FinishAfterMetadata(OnDisk(), k, m, draw, 0);
      r := WriteMetadata(m, first);
      if r.Failed? {
        return;
      }
      r := FinishRunPrepare(k, m, draw, second);
    }

    method RunPrepare(newKid: string, now: Time, draw: Option<string>, first: WriteResult, second: WriteResult)
      returns (r: Outcome)
      requires ValidKid(newKid)
      modifies this
      ensures Follows(old(OnDisk()), PlanOf(old(OnDisk()), Prepare(newKid), now, draw), first, second, r)
    {
      var loaded, value, rotation := Load();
      if loaded.Failed? {
        return loaded;
      }
      if rotation.Some? && rotation.value.phase.Prepared? {
        ghost var plan := PreparePlan(value, rotation, newKid, now, draw);
        assert |plan.writes| <= 1;
        r := ResumePrepare(value, rotation.value, newKid, now, draw, first);
        return;
      }
      if !StableForPrepare(value, rotation) {
        return Failed(InvalidState);
      }
      if newKid in value.keys {
        return Failed(InvalidState);
      }
      r := StartPrepare(value, newKid, now, draw, first, second);
    }

    method RunActivate(overlap: Time, now: Time, first: WriteResult, second: WriteResult) returns (r: Outcome)
      requires 0 < overlap
      modifies this
      ensures Follows(old(OnDisk()), PlanOf(old(OnDisk()), Activate(overlap), now, None), first, second, r)
      ensures r.Completed? ==> keyset.Some? && metadata.Some? && keyset.value.activeKid == metadata.value.next
      ensures metadata != old(metadata) ==>
                var m := old(metadata).value;
                metadata == Some(Metadata(1, Active, m.previous, m.next, m.preparedAt, Some(now), Some(now + overlap), None, None))
      ensures old(metadata).Some? && now < old(metadata).value.preparedAt ==> OnDisk() == old(OnDisk())
    {
      hide AfterWrites, ValidKeyset, CheckRotationState;
      WritesLand(OnDisk(), []);
      var loaded, value, rotation := Load();
      if loaded.Failed? {
        return loaded;
      }
      ghost var plan := ActivatePlan(value, rotation, overlap, now);
      assert PlanOf(old(OnDisk()), Activate(overlap), now, None) == plan;
      WritesLand(OnDisk(), plan.writes);
      if rotation.None? {
        return Failed(InvalidState);
      }
      var m := rotation.value;
      if m.phase.Active? && NextSigner(value, m) {
        return Completed;
      }
      if !m.phase.Prepared? && !m.phase.RolledBack? && !m.phase.Active? {
        return Failed(InvalidState);
      }
      if !DualKeys(value, m) {
        return Failed(InvalidState);
      }
      m := m.(phase := Active);
      m := m.(activatedAt := Some(now));
      m := m.(retireNotBefore := Some(now + overlap));
      m := m.(rolledBackAt := None);
      m := m.(retiredAt := None);
      if !ValidMetadata(m) {
        return Failed(InvalidState);
      }
      r := WriteMetadata(m, first);
      if r.Failed? {
        return;
      }
      value := value.(activeKid := m.next);
      var check := CheckRotationState(value, Some(m));
      if check.Failed? {
        return check;
      }
      r := WriteKeyset(value, second);
    }

    method RunRollback(now: Time, first: WriteResult, second: WriteResult) returns (r: Outcome)
      modifies this
      ensures Follows(old(OnDisk()), PlanOf(old(OnDisk()), Rollback, now, None), first, second, r)
      ensures r.Completed? ==> keyset.Some? && metadata.Some? && keyset.value.activeKid == metadata.value.previous
      ensures metadata != old(metadata) ==>
                var m := old(metadata).value;
                && now < m.retireNotBefore.value
                && metadata == Some(Metadata(1, RolledBack, m.previous, m.next, m.preparedAt, m.activatedAt, m.retireNotBefore,
                                             Some(now), None))
    {
      hide AfterWrites, ValidKeyset, CheckRotationState;
      WritesLand(OnDisk(), []);
      var loaded, value, rotation := Load();
      if loaded.Failed? {
        return loaded;
      }
      ghost var plan := RollbackPlan(value, rotation, now);
      assert PlanOf(old(OnDisk()), Rollback, now, None) == plan;
      WritesLand(OnDisk(), plan.writes);
      if rotation.None? || (!rotation.value.phase.Active? && !rotation.value.phase.RolledBack?) {
        return Failed(InvalidState);
      }
      var m := rotation.value;
      if !DualKeys(value, m) {
        return Failed(InvalidState);
      }
      if m.phase.RolledBack? && value.activeKid == m.previous {
        return Completed;
      }
      if m.phase.Active? && !(now < m.retireNotBefore.value) {
        return Failed(InvalidState);
      }
      var next := first;
      if m.phase.Active? {
        m := m.(phase := RolledBack);
        m := m.(rolledBackAt := Some(now));
        if !ValidMetadata(m) {
          return Failed(InvalidState);
        }
        r := WriteMetadata(m, first);
        if r.Failed? {
          return;
        }
        next := second;
      }
      value := value.(activeKid := m.previous);
      var check := CheckRotationState(value, Some(m));
      if check.Failed? {
        return check;
      }
      r := WriteKeyset(value, next);
    }

    /** The tail of retire: past the gate, drop the previous key, then record the retirement. */
    method DropPrevious(k: Keyset, rotation: Metadata, now: Time, first: WriteResult, second: WriteResult) returns (r: Outcome)
      requires ValidMetadata(rotation) && (rotation.phase.Active? || rotation.phase.Retired?)
      requires !(rotation.phase.Retired? && RetiredSigner(k, rotation))
      requires rotation.retireNotBefore.value <= now && k.activeKid == rotation.next
      requires OnDisk() == Disk(Some(k), Some(rotation))
      modifies this
      ensures Follows(old(OnDisk()), RetirePlan(k, Some(rotation), now), first, second, r)
      ensures r.Completed? ==>
                && keyset.Some? && metadata.Some? && metadata.value.phase.Retired?
                && keyset.value.activeKid == metadata.value.next && keyset.value.legacyKid == ""
                && metadata.value.previous !in keyset.value.keys
      ensures metadata != old(metadata) ==>
                metadata == Some(Metadata(1, Retired, rotation.previous, rotation.next, rotation.preparedAt, rotation.activatedAt,
                                          rotation.retireNotBefore, None, Some(now)))
    {
      hide ValidKeyset, CheckRotationState, AfterWrites;
      WritesLand(OnDisk(), RetirePlan(k, Some(rotation), now).writes);
      var value, m := k, rotation;
      var next := first;
      if m.previous in value.keys {
        value := value.(keys := value.keys - {m.previous});
        value := value.(legacyKid := "");
        if !ValidKeyset(value) {
          return Failed(InvalidKeyset);
        }
        r := WriteKeyset(value, first);
        if r.Failed? {
          return;
        }
        next := second;
      }
      if !m.phase.Retired? {
        m := m.(phase := Retired);
        m := m.(retiredAt := Some(now));
      }
      RetiredCheck(value, m);
      var check := CheckRotationState(value, Some(m));
      if check.Failed? {
        return check;
      }
      r := WriteMetadata(m, next);
    }

    method RunRetire(now: Time, first: WriteResult, second: WriteResult) returns (r: Outcome)
      modifies this
      ensures Follows(old(OnDisk()), PlanOf(old(OnDisk()), Retire, now, None), first, second, r)
      ensures r.Completed? ==>
                && keyset.Some? && metadata.Some? && metadata.value.phase.Retired?
                && keyset.value.activeKid == metadata.value.next && keyset.value.legacyKid == ""
                && metadata.value.previous !in keyset.value.keys
      ensures metadata != old(metadata) ==>
                var m := old(metadata).value;
                && m.retireNotBefore.Some? && m.retireNotBefore.value <= now
                && metadata == Some(Metadata(1, Retired, m.previous, m.next, m.preparedAt, m.activatedAt, m.retireNotBefore,
                                             None, Some(now)))
    {
      var loaded, value, rotation := Load();
      if loaded.Failed? {
        return loaded;
      }
      assert PlanOf(old(OnDisk()), Retire, now, None) == RetirePlan(value, rotation, now);
      if rotation.None? || (!rotation.value.phase.Active? && !rotation.value.phase.Retired?) {
        return Failed(InvalidState);
      }
      var m := rotation.value;
      if m.phase.Retired? && RetiredSigner(value, m) {
        return Completed;
      }
      if now < m.retireNotBefore.value {
        return Failed(InvalidState);
      }
      if value.activeKid != m.next {
        return Failed(InvalidState);
      }
      r := DropPrevious(value, m, now, first, second);
    }
  
    /** export-worker: copies the keyset to a third file, only when the two files agree. */
    method ExportWorker(result: WriteResult) returns (r: Outcome, exported: Option<Keyset>)
      ensures CheckState(OnDisk()).Failed? ==> r == CheckState(OnDisk()) && exported == None
      ensures CheckState(OnDisk()) == Completed ==>
                && exported == (if result.Lost? then None else keyset)
                && r == if result.Written? then Completed else Failed(WriteFailed)
    {
      var loaded, value, rotation := Load();
      if loaded.Failed? {
        return loaded, None;
      }
      var check := CheckRotationState(value, rotation);
      if check.Failed? {
        return check, None;
      }
      exported := if result.Lost? then None else Some(value);
      r := if result.Written? then Completed else Failed(WriteFailed);
    }
  }
}
