/**
 What the rotation commands accept and write, field by field: for every disk the exact contents of both
 files, and the exact condition under which they are written.
 */
module RotationFields {
  import opened Common
  import opened Keysets
  import opened Rotation
  import opened RotationShapes

  // ---- What the files may hold ---------------------------------------------------------------

  /** A key ID has 1 to 64 ASCII letters, digits, underscores or hyphens. */
  lemma KidRefusedExactly(kid: string)
    ensures !ValidKid(kid) <==>
            || |kid| == 0 || |kid| > 64
            || exists c :: c in kid && !(48 <= c as int <= 57 || 65 <= c as int <= 90 || 97 <= c as int <= 122 || c as int in {45, 95})
  {
    assert forall i | 0 <= i < |kid| :: kid[i] in kid;
  }

  /** Every reason to refuse a keyset. */
  lemma KeysetRefusedExactly(k: Keyset)
    ensures !ValidKeyset(k) <==>
            || k.version != 1 || |k.keys| == 0 || |k.keys| > 2
            || (exists kid :: kid in k.keys && (!ValidKid(kid) || |k.keys[kid]| < 32))
            || (exists a, b :: a in k.keys && b in k.keys && a != b && k.keys[a] == k.keys[b])
            || k.activeKid !in k.keys
            || (k.legacyKid != "" && k.legacyKid !in k.keys)
  {}

  /** In an accepted keyset a secret verifies under its own kid only, and without a kid under the legacy one only. */
  lemma VerifiesExactly(k: Keyset, kid: string, other: string, expiresAt: Time)
    requires ValidKeyset(k) && kid in k.keys
    ensures Verifies(k, Token(Some(other), k.keys[kid], expiresAt)) <==> other == kid
    ensures Verifies(k, Token(None, k.keys[kid], expiresAt)) <==> k.legacyKid == kid
    ensures forall t: Token :: Verifies(k, t) ==> exists x :: x in k.keys && k.keys[x] == t.secret
  {
    assert ValidKid(kid);
  }

  /** Every reason to refuse rotation metadata. */
  lemma MetadataRefusedExactly(m: Metadata)
    ensures !ValidMetadata(m) <==>
            || m.version != 1 || !ValidKid(m.previous) || !ValidKid(m.next) || m.previous == m.next || m.preparedAt == 0
            || m.phase.Unknown?
            || (m.phase.Prepared? && (m.activatedAt, m.retireNotBefore, m.rolledBackAt, m.retiredAt) != (None, None, None, None))
            || (!m.phase.Prepared? && (m.activatedAt.None? || m.retireNotBefore.None?))
            || (!m.phase.Prepared? && m.activatedAt.value < m.preparedAt)
            || (!m.phase.Prepared? && m.retireNotBefore.value <= m.activatedAt.value)
            || (m.phase.RolledBack? && (m.rolledBackAt.None? || m.rolledBackAt.value < m.activatedAt.value))
            || (m.phase.Retired? && (m.retiredAt.None? || m.retiredAt.value < m.retireNotBefore.value))
            || (!m.phase.RolledBack? && m.rolledBackAt.Some?)
            || (!m.phase.Retired? && m.retiredAt.Some?)
  {}

  /** Both files can be read and are well formed on their own. */
  predicate Readable(d: Disk) {
    d.keyset.Some? && ValidKeyset(d.keyset.value) && (d.metadata.Some? ==> ValidMetadata(d.metadata.value))
  }

  /** status and export-worker go on exactly when the keyset is the one the recorded phase calls for. */
  lemma StateAcceptedExactly(d: Disk)
    ensures CheckState(d) == Completed <==>
            && Readable(d)
            && var k := d.keyset.value;
               if d.metadata.None? then k.keys.Keys == {k.activeKid}
               else
                 var m := d.metadata.value;
                 match m.phase
                 case Retired => k.keys.Keys == {m.next} && k.activeKid == m.next && k.legacyKid == ""
                 case Active => k.keys.Keys == {m.previous, m.next} && k.activeKid == m.next
                 case _ => k.keys.Keys == {m.previous, m.next} && k.activeKid == m.previous
  {
    if Readable(d) {
      var k := d.keyset.value;
      OneKey(k);
      if d.metadata.Some? {
        var m := d.metadata.value;
        Cardinalities(k, m.previous, m.next);
        Cardinalities(k, m.next, m.previous);
      }
    }
  }

  /** A disk that cannot be read is left alone by every command but bootstrap. */
  lemma UnreadableIsLeftAlone(d: Disk, cmd: Command, now: Time, draw: Option<string>)
    requires !cmd.Bootstrap? && !Readable(d)
    ensures PlanOf(d, cmd, now, draw).writes == [] && PlanOf(d, cmd, now, draw).outcome.Failed?
  {}

  // ---- What each command writes --------------------------------------------------------------

  /** Bootstrap writes the one key under its kid, for tokens with and without a kid, and only where no keyset is. */
  lemma BootstrapWritesExactly(d: Disk, kid: string, secret: string, utf8: bool, now: Time, draw: Option<string>)
    ensures var plan := PlanOf(d, Bootstrap(kid, secret, utf8), now, draw);
            if ValidKid(kid) && |secret| >= 32 && utf8 && d.keyset.None?
            then plan == Plan([PutKeyset(Keyset(1, kid, kid, map[kid := secret]))], Completed)
            else plan.writes == [] && plan.outcome.Failed?
  {
    var k := Keyset(1, kid, kid, map[kid := secret]);
    assert |k.keys| == |k.keys.Keys| && k.keys.Keys == {kid};
  }

  /**
   Prepare starts from a single key, with no rotation or a retired one that fits the keyset. It records the
   signer, the new kid and the moment first, and adds the drawn secret second, unless the draw fails or is
   a secret already there, or the clock reads zero.
   */
  lemma PrepareStartsExactly(d: Disk, newKid: string, now: Time, draw: Option<string>)
    requires Readable(d) && ValidKid(newKid) && (draw.Some? ==> |draw.value| >= 32)
    requires d.metadata.Some? ==> !d.metadata.value.phase.Prepared?
    ensures var plan := PlanOf(d, Prepare(newKid), now, draw);
            var k := d.keyset.value;
            var record := Metadata(1, Prepared, k.activeKid, newKid, now, None, None, None, None);
            if k.keys.Keys == {k.activeKid} && newKid != k.activeKid
               && (d.metadata.Some? ==>
                     var m := d.metadata.value; m.phase.Retired? && k.activeKid == m.next && k.legacyKid == "")
            then
              if draw.Some? && draw.value !in k.keys.Values && now != 0
              then plan == Plan([PutMetadata(record),
                                 PutKeyset(Keyset(1, k.activeKid, k.legacyKid, k.keys[newKid := draw.value]))], Completed)
              else plan.writes == [PutMetadata(record)] && plan.outcome.Failed?
            else plan.writes == [] && plan.outcome == Failed(InvalidState)
  {
    var k := d.keyset.value;
    OneKey(k);
    if k.keys.Keys == {k.activeKid} && newKid != k.activeKid && draw.Some? {
      var k' := k.(keys := k.keys[newKid := draw.value]);
      assert k'.keys.Keys == {k.activeKid, newKid};
      Cardinalities(k', k.activeKid, newKid);
      assert k'.keys[k.activeKid] == k.keys[k.activeKid] && k'.keys[newKid] == draw.value;
      assert k.keys.Values == {k.keys[k.activeKid]};
    }
  }

  lemma OneKey(k: Keyset)
    requires k.activeKid in k.keys
    ensures |k.keys| == 1 <==> k.keys.Keys == {k.activeKid}
  {
    assert |k.keys| == |k.keys.Keys|;
    if |k.keys| == 1 {
      OneMember(k.keys.Keys, k.activeKid);
    }
  }

  /** An interrupted prepare is resumed for the recorded kid only, keeps the record, and adds the key if it is missing. */
  lemma PrepareResumesExactly(d: Disk, newKid: string, now: Time, draw: Option<string>)
    requires Readable(d) && ValidKid(newKid) && (draw.Some? ==> |draw.value| >= 32)
    requires d.metadata.Some? && d.metadata.value.phase.Prepared?
    ensures var plan := PlanOf(d, Prepare(newKid), now, draw);
            var k, m := d.keyset.value, d.metadata.value;
            if newKid != m.next || k.activeKid != m.previous then plan == Plan([], Failed(InvalidState))
            else if k.keys.Keys == {m.previous, m.next} then plan == Plan([], Completed)
            else if k.keys.Keys != {m.previous} then plan == Plan([], Failed(InvalidState))
            else if draw.Some? && draw.value !in k.keys.Values
            then plan == Plan([PutKeyset(Keyset(1, k.activeKid, k.legacyKid, k.keys[newKid := draw.value]))], Completed)
            else plan.writes == [] && plan.outcome.Failed?
  {
    var k, m := d.keyset.value, d.metadata.value;
    Cardinalities(k, m.previous, m.next);
    if k.keys.Keys == {m.previous} && newKid == m.next && draw.Some? {
      var k' := k.(keys := k.keys[newKid := draw.value]);
      assert k'.keys.Keys == {m.previous, newKid};
      Cardinalities(k', m.previous, newKid);
      assert k'.keys[m.previous] == k.keys[m.previous] && k'.keys[newKid] == draw.value;
      assert k.keys.Values == {k.keys[m.previous]};
    }
  }

  /**
   Activate records the moment it read and the gate of its overlap, forgets an earlier rollback, keeps who
   rotates and since when, and then moves the signer. Read before the preparation, the clock makes it
   refuse, and nothing is written.
   */
  lemma ActivateWritesExactly(d: Disk, overlap: Time, now: Time, draw: Option<string>)
    requires Readable(d) && 0 < overlap
    ensures var plan := PlanOf(d, Activate(overlap), now, draw);
            if d.metadata.None? then plan == Plan([], Failed(InvalidState))
            else
              var k, m := d.keyset.value, d.metadata.value;
              if m.phase.Retired? || k.keys.Keys != {m.previous, m.next} then plan == Plan([], Failed(InvalidState))
              else if m.phase.Active? && k.activeKid == m.next then plan == Plan([], Completed)
              else if now < m.preparedAt then plan == Plan([], Failed(InvalidState))
              else plan == Plan([PutMetadata(Metadata(1, Active, m.previous, m.next, m.preparedAt,
                                                      Some(now), Some(now + overlap), None, None)),
                                 PutKeyset(Keyset(1, m.next, k.legacyKid, k.keys))], Completed)
  {
    if d.metadata.Some? {
      var k, m := d.keyset.value, d.metadata.value;
      Cardinalities(k, m.previous, m.next);
    }
  }

  /**
   Rollback before the gate records its moment beside the activation it undoes and then moves the signer
   back; once recorded, only the signer is moved, whenever that is.
   */
  lemma RollbackWritesExactly(d: Disk, now: Time, draw: Option<string>)
    requires Readable(d)
    ensures var plan := PlanOf(d, Rollback, now, draw);
            if d.metadata.None? then plan == Plan([], Failed(InvalidState))
            else
              var k, m := d.keyset.value, d.metadata.value;
              var back := PutKeyset(Keyset(1, m.previous, k.legacyKid, k.keys));
              if k.keys.Keys != {m.previous, m.next} then plan == Plan([], Failed(InvalidState))
              else if m.phase.RolledBack? then plan == Plan(if k.activeKid == m.previous then [] else [back], Completed)
              else if m.phase.Active? && m.activatedAt.value <= now < m.retireNotBefore.value then
                plan == Plan([PutMetadata(Metadata(1, RolledBack, m.previous, m.next, m.preparedAt, m.activatedAt,
                                                   m.retireNotBefore, Some(now), None)), back], Completed)
              else plan == Plan([], Failed(InvalidState))
  {
    if d.metadata.Some? {
      var k, m := d.keyset.value, d.metadata.value;
      Cardinalities(k, m.previous, m.next);
    }
  }

  /**
   Retire from the gate on drops the old key and the legacy fallback first and records its moment second,
   beside the times there were; a retirement already recorded keeps its moment.
   */
  lemma RetireWritesExactly(d: Disk, now: Time, draw: Option<string>)
    requires Readable(d)
    ensures var plan := PlanOf(d, Retire, now, draw);
            if d.metadata.None? then plan == Plan([], Failed(InvalidState))
            else
              var k, m := d.keyset.value, d.metadata.value;
              var alone := k.keys.Keys == {m.next} && k.legacyKid == "";
              var record := PutMetadata(Metadata(1, Retired, m.previous, m.next, m.preparedAt, m.activatedAt, m.retireNotBefore,
                                                 None, if m.phase.Retired? then m.retiredAt else Some(now)));
              if !(m.phase.Active? || m.phase.Retired?) || k.activeKid != m.next then plan == Plan([], Failed(InvalidState))
              else if m.phase.Retired? && alone then plan == Plan([], Completed)
              else if now < m.retireNotBefore.value then plan == Plan([], Failed(InvalidState))
              else if m.previous in k.keys then
                plan == Plan([PutKeyset(Keyset(1, m.next, "", map[m.next := k.keys[m.next]])), record], Completed)
              else if alone then plan == Plan([record], Completed)
              else plan == Plan([], Failed(InvalidState))
  {
    if d.metadata.Some? {
      var k, m := d.keyset.value, d.metadata.value;
      Cardinalities(k, m.previous, m.next);
      Cardinalities(k, m.next, m.previous);
      assert PlanOf(d, Retire, now, draw) == RetirePlan(k, d.metadata, now);
      if (m.phase.Active? || m.phase.Retired?) && m.previous in k.keys && k.activeKid == m.next && m.retireNotBefore.value <= now {
        RetireDropsPrevious(k, m, now);
      }
    }
  }

  lemma RetireDropsPrevious(k: Keyset, m: Metadata, now: Time)
    requires ValidKeyset(k) && ValidMetadata(m) && (m.phase.Active? || m.phase.Retired?)
    requires m.previous in k.keys && k.activeKid == m.next && m.retireNotBefore.value <= now
    ensures k.keys.Keys == {m.previous, m.next}
    ensures RetirePlan(k, Some(m), now)
         == Plan([PutKeyset(Keyset(1, m.next, "", map[m.next := k.keys[m.next]])),
                  PutMetadata(Metadata(1, Retired, m.previous, m.next, m.preparedAt, m.activatedAt, m.retireNotBefore,
                                       None, if m.phase.Retired? then m.retiredAt else Some(now)))], Completed)
  {
    TwoMembersOf(k, m.previous, m.next);
    assert k.keys - {m.previous} == map[m.next := k.keys[m.next]];
    Cardinalities(RetiredKeyset(k, m), m.next, m.previous);
  }

  lemma TwoMembersOf(k: Keyset, a: string, b: string)
    requires ValidKeyset(k) && a in k.keys && b in k.keys && a != b
    ensures k.keys.Keys == {a, b}
  {
    Cardinalities(k, a, b);
    OneMemberOf(k, a, b);
  }

  lemma OneMemberOf(k: Keyset, a: string, b: string)
    requires a in k.keys && b in k.keys && a != b
    ensures |k.keys| != 1
  {
    assert |k.keys| == |k.keys.Keys|;
    if |k.keys| == 1 {
      OneMember(k.keys.Keys, a);
    }
  }
}
