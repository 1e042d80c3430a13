/** Failure and recovery: when a command can stop half-way, and how every rotation is finished. */
module RotationRecovery {
  import opened Common
  import opened Keysets
  import opened Rotation
  import opened RotationShapes

  // ---- Late failures ------------------------------------------------------------------------

  /** The command is a prepare that starts a rotation: it records it before drawing the secret. */
  predicate StartsRotation(d: Disk, cmd: Command) {
    && cmd.Prepare? && ValidKid(cmd.newKid)
    && CheckFiles(d) == Completed
    && (d.metadata.Some? ==> !d.metadata.value.phase.Prepared?)
    && StableForPrepare(d.keyset.value, d.metadata)
    && cmd.newKid !in d.keyset.value.keys
  }

  /**
   On any disk at all, a command whose writes all succeed fails after a write exactly when it is
   a prepare starting a rotation whose random source fails, whose drawn secret is already in use,
   or whose clock reads the zero time.
   */
  lemma LateFailureExactly(d: Disk, cmd: Command, now: Time, draw: Option<string>)
    requires draw.Some? ==> GeneratedSecret(draw.value)
    ensures var plan := PlanOf(d, cmd, now, draw);
            plan.writes != [] && plan.outcome.Failed?
            <==> StartsRotation(d, cmd) && (!Usable(d.keyset.value, draw) || now == ZERO_TIME)
  {
    hide PreparePlan, ActivatePlan, RollbackPlan;
    if !ValidOptions(cmd) || cmd.Bootstrap? || CheckFiles(d).Failed? {
      return;
    }
    var k := d.keyset.value;
    match cmd
    case Prepare(newKid) => LatePrepare(k, d.metadata, newKid, now, draw);
    case Activate(overlap) => LateActivate(k, d.metadata, overlap, now);
    case Rollback => LateRollback(k, d.metadata, now);
    case Retire =>
      assert PlanOf(d, cmd, now, draw) == RetirePlan(k, d.metadata, now);
      if d.metadata.Some? {
        LateRetire(k, d.metadata.value, now);
      }
  }

  lemma LateActivate(k: Keyset, m: Option<Metadata>, overlap: Time, now: Time)
    requires ValidKeyset(k) && (m.Some? ==> ValidMetadata(m.value))
    ensures ActivatePlan(k, m, overlap, now).writes != [] ==> ActivatePlan(k, m, overlap, now).outcome == Completed
  {}

  lemma LateRollback(k: Keyset, m: Option<Metadata>, now: Time)
    requires ValidKeyset(k) && (m.Some? ==> ValidMetadata(m.value))
    ensures RollbackPlan(k, m, now).writes != [] ==> RollbackPlan(k, m, now).outcome == Completed
  {}

  lemma LatePrepare(k: Keyset, m: Option<Metadata>, newKid: string, now: Time, draw: Option<string>)
    requires ValidKeyset(k) && (m.Some? ==> ValidMetadata(m.value)) && ValidKid(newKid)
    requires draw.Some? ==> GeneratedSecret(draw.value)
    ensures var plan := PreparePlan(k, m, newKid, now, draw);
            plan.writes != [] && plan.outcome.Failed?
            <==> (m.Some? ==> !m.value.phase.Prepared?) && StableForPrepare(k, m) && newKid !in k.keys
                 && (!Usable(k, draw) || now == ZERO_TIME)
  {
    if (m.None? || !m.value.phase.Prepared?) && StableForPrepare(k, m) && newKid !in k.keys && draw.Some? {
      var k' := k.(keys := k.keys[newKid := draw.value]);
      Cardinalities(k, k.activeKid, newKid);
      assert k'.keys.Keys == {k.activeKid, newKid};
      Cardinalities(k', k.activeKid, newKid);
      assert k'.keys[k.activeKid] == k.keys[k.activeKid] && k'.keys[newKid] == draw.value;
    }
  }

  lemma LateRetire(k: Keyset, m: Metadata, now: Time)
    requires ValidKeyset(k) && ValidMetadata(m)
    ensures RetirePlan(k, Some(m), now).writes != [] ==> RetirePlan(k, Some(m), now).outcome == Completed
  {
    if m.previous in k.keys && k.activeKid == m.next {
      Cardinalities(k, m.previous, m.next);
      assert |k.keys| != 1 by {
        if |k.keys| == 1 {
          OneMember(k.keys.Keys, m.previous);
        }
      }
      assert (k.keys - {m.previous}).Keys == {m.next};
      Cardinalities(RetiredKeyset(k, m), m.next, m.previous);
    }
  }

  // ---- Running a command again --------------------------------------------------------------

  lemma SoundLater(d: Disk, now: Time, later: Time)
    requires Sound(d, now) && now <= later
    ensures Sound(d, later)
  {}

  /** A command whose work is done writes nothing and succeeds. */
  lemma RerunOfDoneWritesNothing(d: Disk, s: Shape, cmd: Command, now: Time, draw: Option<string>)
    requires Ready(d, s, now, draw) && AlreadyDone(d, s, cmd)
    ensures PlanOf(d, cmd, now, draw) == Plan([], Completed)
  {
    TableIsRight(d, s, cmd, now, draw);
  }

  lemma CompletionShape(d: Disk, s: Shape, cmd: Command, now: Time, draw: Option<string>)
    requires Ready(d, s, now, draw)
    ensures Reaches(Completion(d, cmd, now, draw), LastShape(s, Course(d, s, cmd, now, draw)), now)
  {
    hide PlanOf, Course, HasShape, Sound;
    TableIsRight(d, s, cmd, now, draw);
    var course := Course(d, s, cmd, now, draw);
    TracedShape(d, PlanOf(d, cmd, now, draw).writes, s, course, now, |course|);
  }

  lemma CutShape(d: Disk, s: Shape, cmd: Command, now: Time, draw: Option<string>, n: nat)
    requires Ready(d, s, now, draw) && n <= |Course(d, s, cmd, now, draw)|
    ensures n <= |PlanOf(d, cmd, now, draw).writes|
    ensures Reaches(AfterWrites(d, PlanOf(d, cmd, now, draw).writes, n), ShapeAt(s, Course(d, s, cmd, now, draw), n), now)
  {
    hide PlanOf, Course, HasShape, Sound;
    TableIsRight(d, s, cmd, now, draw);
    TracedShape(d, PlanOf(d, cmd, now, draw).writes, s, Course(d, s, cmd, now, draw), now, n);
  }

  lemma PrepareCutKeepsKeyset(d: Disk, s: Shape, cmd: Command, now: Time, draw: Option<string>)
    requires Ready(d, s, now, draw) && cmd.Prepare? && Course(d, s, cmd, now, draw) != []
    requires Course(d, s, cmd, now, draw)[0].PrepareCut?
    ensures var writes := PlanOf(d, cmd, now, draw).writes;
            && writes != []
            && AfterWrites(d, writes, 1) == d.(metadata := Some(PreparedMetadata(d.keyset.value, cmd.newKid, now)))
  {
    StartPlan(d, s, cmd.newKid, now, draw);
    TableIsRight(d, s, cmd, now, draw);
    var writes := PlanOf(d, cmd, now, draw).writes;
    assert AfterWrites(d, writes, 1) == Apply(AfterWrites(d, writes, 0), writes[0]);
  }

  /** An admitted command that wrote nothing is still admitted later. */
  lemma FreshRerun(d: Disk, s: Shape, cmd: Command, now: Time, draw: Option<string>, later: Time, again: Option<string>)
    requires HasShape(d, s) && Course(d, s, cmd, now, draw) != [] && now <= later
    requires cmd.Prepare? ==> Usable(d.keyset.value, again)
    requires cmd.Rollback? ==> s.RollbackCut? || BeforeGate(d, later)
    ensures LastShape(s, Course(d, s, cmd, later, again)) == ShapeAfter(cmd)
  {}

  /** The shapes a command can leave after its first write. */
  predicate Midway(cmd: Command, t: Shape) {
    match cmd
    case Bootstrap(_, _, _) => t.Fresh?
    case Prepare(_) => t.PrepareCut? || t.IsPrepared?
    case Activate(_) => t.ActivateCut? || t.IsActive?
    case Rollback => t.RollbackCut? || t.IsRolledBack?
    case Retire => t.RetireCut? || t.IsRetired?
  }

  lemma MidwayShape(d: Disk, s: Shape, cmd: Command, now: Time, draw: Option<string>, n: nat)
    requires HasShape(d, s) && 0 < n <= |Course(d, s, cmd, now, draw)|
    ensures var course := Course(d, s, cmd, now, draw);
            && ValidOptions(cmd) && Midway(cmd, ShapeAt(s, course, n))
            && (ShapeAt(s, course, n).PrepareCut? ==> n == 1 && course[0].PrepareCut?)
  {}

  /** A command cut after a write finds the shape it left, and finishes from there. */
  lemma CutRerun(cut: Disk, t: Shape, cmd: Command, later: Time, again: Option<string>)
    requires HasShape(cut, t) && ValidOptions(cmd) && Midway(cmd, t)
    requires t.PrepareCut? ==> cut.metadata.value.next == cmd.newKid && Usable(cut.keyset.value, again)
    ensures LastShape(t, Course(cut, t, cmd, later, again)) == ShapeAfter(cmd)
  {}

  /**
   However many writes of an admitted command landed, running it again later completes it. Only a
   prepare needs another usable draw, and only a rollback that wrote nothing still has its gate.
   */
  lemma RerunCompletes(d: Disk, s: Shape, cmd: Command, now: Time, draw: Option<string>, n: nat,
                       later: Time, again: Option<string>)
    requires Ready(d, s, now, draw) && Course(d, s, cmd, now, draw) != []
    requires n <= |PlanOf(d, cmd, now, draw).writes|
    requires now <= later && (again.Some? ==> GeneratedSecret(again.value))
    requires cmd.Prepare? ==> Usable(d.keyset.value, again)
    requires cmd.Rollback? && n == 0 ==> s.RollbackCut? || BeforeGate(d, later)
    ensures var cut := AfterWrites(d, PlanOf(d, cmd, now, draw).writes, n);
            HasShape(Completion(cut, cmd, later, again), ShapeAfter(cmd))
  {
    hide PlanOf, Course;
    SameLength(d, s, cmd, now, draw);
    CutShape(d, s, cmd, now, draw, n);
    var cut := AfterWrites(d, PlanOf(d, cmd, now, draw).writes, n);
    var t := ShapeAt(s, Course(d, s, cmd, now, draw), n);
    assert LastShape(t, Course(cut, t, cmd, later, again)) == ShapeAfter(cmd) by {
      if n == 0 {
        FreshRerun(d, s, cmd, now, draw, later, again);
      } else {
        MidwayShape(d, s, cmd, now, draw, n);
        if t.PrepareCut? {
          PrepareCutKeepsKeyset(d, s, cmd, now, draw);
        }
        CutRerun(cut, t, cmd, later, again);
      }
    }
    CompleteFrom(cut, t, cmd, now, later, again);
  }

  lemma SameLength(d: Disk, s: Shape, cmd: Command, now: Time, draw: Option<string>)
    requires Ready(d, s, now, draw)
    ensures |PlanOf(d, cmd, now, draw).writes| == |Course(d, s, cmd, now, draw)|
  {
    TableIsRight(d, s, cmd, now, draw);
  }

  lemma CompleteFrom(d: Disk, s: Shape, cmd: Command, now: Time, later: Time, draw: Option<string>)
    requires 0 < now <= later && Reaches(d, s, now) && (draw.Some? ==> GeneratedSecret(draw.value))
    ensures HasShape(Completion(d, cmd, later, draw), LastShape(s, Course(d, s, cmd, later, draw)))
  {
    hide PlanOf, Course, HasShape, Sound, Completion;
    SoundLater(d, now, later);
    CompletionShape(d, s, cmd, later, draw);
  }

  // ---- Reaching the end of a rotation -------------------------------------------------------

  /** A command an operator gives at a moment, with the secret it would draw. */
  datatype Errand = Errand(cmd: Command, at: Time, draw: Option<string>)

  function RunErrands(d: Disk, errands: seq<Errand>): Disk
    decreases |errands|
  {
    if errands == [] then d
    else
      var e := errands[0];
      RunErrands(Completion(d, e.cmd, e.at, e.draw), errands[1..])
  }

  predicate InOrder(now: Time, errands: seq<Errand>)
    decreases |errands|
  {
    errands == [] || (now <= errands[0].at && InOrder(errands[0].at, errands[1..]))
  }

  /** Move the signer, wait for the gate, retire the old key. */
  function Switch(now: Time, overlap: Time): seq<Errand> {
    [Errand(Activate(overlap), now, None)] + [Errand(Retire, now + overlap, None)]
  }

  /** The errands that finish a rotation, or carry out a whole one from a fresh keyset. */
  function ToRetirement(d: Disk, s: Shape, now: Time, newKid: string, draw: Option<string>, overlap: Time): seq<Errand>
    requires HasShape(d, s) && !s.Absent? && Sound(d, now)
  {
    var switch := Switch(now, overlap);
    match s
    case Absent => []
    case Fresh => [Errand(Prepare(newKid), now, draw)] + switch
    case PrepareCut => [Errand(Prepare(d.metadata.value.next), now, draw)] + switch
    case IsPrepared => switch
    case ActivateCut => switch
    case RollbackCut => switch
    case IsRolledBack => switch
    case IsActive => [Errand(Retire, Max(now, d.metadata.value.retireNotBefore.value), None)]
    case RetireCut => [Errand(Retire, now, None)]
    case IsRetired => []
  }

  lemma RetireErrand(d: Disk, s: Shape, at: Time)
    requires Ready(d, s, at, None) && (s.RetireCut? || (s.IsActive? && !BeforeGate(d, at)))
    ensures HasShape(RunErrands(d, [Errand(Retire, at, None)]), IsRetired)
  {
    CompletionShape(d, s, Retire, at, None);
    var e := [Errand(Retire, at, None)];
    assert RunErrands(d, e) == RunErrands(Completion(d, Retire, at, None), e[1..]);
  }

  lemma GateWrites(d: Disk, s: Shape, now: Time, overlap: Time)
    requires Ready(d, s, now, None) && 0 < overlap
    requires s.IsPrepared? || s.ActivateCut? || s.IsRolledBack? || s.RollbackCut?
    ensures d.keyset.Some? && d.metadata.Some?
    ensures var k, m := d.keyset.value, d.metadata.value;
            PlanOf(d, Activate(overlap), now, None).writes
            == [PutMetadata(ActivatedMetadata(m, now, overlap)), PutKeyset(k.(activeKid := m.next))]
  {
    hide ActivatePlan;
    var k, m := d.keyset.value, d.metadata.value;
    Cardinalities(k, m.previous, m.next);
    ActivateWrites(k, m, overlap, now);
  }

  lemma ActivationGate(d: Disk, s: Shape, now: Time, overlap: Time)
    requires Ready(d, s, now, None) && 0 < overlap
    requires s.IsPrepared? || s.ActivateCut? || s.IsRolledBack? || s.RollbackCut?
    ensures var d' := Completion(d, Activate(overlap), now, None);
            Reaches(d', IsActive, now) && d'.metadata.value.retireNotBefore == Some(now + overlap)
  {
    hide AfterWrites, PlanOf, HasShape, Sound, Good;
    GateWrites(d, s, now, overlap);
    CompletionShape(d, s, Activate(overlap), now, None);
    var k, m := d.keyset.value, d.metadata.value;
    MetadataThenKeyset(d, ActivatedMetadata(m, now, overlap), k.(activeKid := m.next));
  }

  lemma FirstErrand(d: Disk, e: Errand, rest: seq<Errand>)
    ensures RunErrands(d, [e] + rest) == RunErrands(Completion(d, e.cmd, e.at, e.draw), rest)
  {
    assert ([e] + rest)[1..] == rest;
  }

  lemma RetireAtGate(d: Disk, now: Time, gate: Time)
    requires 0 < now <= gate && Reaches(d, IsActive, now) && d.metadata.value.retireNotBefore == Some(gate)
    ensures HasShape(RunErrands(d, [Errand(Retire, gate, None)]), IsRetired)
  {
    SoundLater(d, now, gate);
    RetireErrand(d, IsActive, gate);
  }

  lemma SwitchErrands(d: Disk, s: Shape, now: Time, overlap: Time)
    requires Ready(d, s, now, None) && 0 < overlap
    requires s.IsPrepared? || s.ActivateCut? || s.IsRolledBack? || s.RollbackCut?
    ensures HasShape(RunErrands(d, Switch(now, overlap)), IsRetired)
  {
    hide PlanOf;
    ActivationGate(d, s, now, overlap);
    var switched := Completion(d, Activate(overlap), now, None);
    RetireAtGate(switched, now, now + overlap);
    FirstErrand(d, Errand(Activate(overlap), now, None), [Errand(Retire, now + overlap, None)]);
  }

  /** A rotation not yet prepared: prepare it, switch, wait, retire. */
  lemma WholeRotation(d: Disk, s: Shape, now: Time, kid: string, draw: Option<string>, overlap: Time)
    requires Ready(d, s, now, draw) && 0 < overlap && ValidKid(kid)
    requires !s.Absent? && Usable(d.keyset.value, draw)
    requires (s.Fresh? && kid !in d.keyset.value.keys) || (s.PrepareCut? && kid == d.metadata.value.next)
    ensures HasShape(RunErrands(d, [Errand(Prepare(kid), now, draw)] + Switch(now, overlap)), IsRetired)
  {
    CompletionShape(d, s, Prepare(kid), now, draw);
    assert LastShape(s, Course(d, s, Prepare(kid), now, draw)) == IsPrepared;
    SwitchErrands(Completion(d, Prepare(kid), now, draw), IsPrepared, now, overlap);
    FirstErrand(d, Errand(Prepare(kid), now, draw), Switch(now, overlap));
  }

  lemma ErrandsInOrder(d: Disk, s: Shape, now: Time, newKid: string, draw: Option<string>, overlap: Time)
    requires HasShape(d, s) && !s.Absent? && Sound(d, now) && 0 < overlap
    ensures var errands := ToRetirement(d, s, now, newKid, draw, overlap);
            |errands| <= 3 && InOrder(now, errands)
  {
    var last := [Errand(Retire, now + overlap, None)];
    assert InOrder(now, last);
    assert Switch(now, overlap)[1..] == last;
    var e := Errand(Prepare(newKid), now, draw);
    assert ([e] + Switch(now, overlap))[1..] == Switch(now, overlap);
    if s.PrepareCut? {
      e := Errand(Prepare(d.metadata.value.next), now, draw);
      assert ([e] + Switch(now, overlap))[1..] == Switch(now, overlap);
    }
  }

  /** From every shape at most three errands, given in order of time, end in the retired shape. */
  lemma RetirementReached(d: Disk, s: Shape, now: Time, newKid: string, draw: Option<string>, overlap: Time)
    requires Ready(d, s, now, draw) && !s.Absent? && 0 < overlap
    requires s.Fresh? ==> ValidKid(newKid) && newKid !in d.keyset.value.keys
    requires s.Fresh? || s.PrepareCut? ==> Usable(d.keyset.value, draw)
    ensures var errands := ToRetirement(d, s, now, newKid, draw, overlap);
            |errands| <= 3 && InOrder(now, errands) && HasShape(RunErrands(d, errands), IsRetired)
  {
    ErrandsInOrder(d, s, now, newKid, draw, overlap);
    match s
    case Fresh => WholeRotation(d, s, now, newKid, draw, overlap);
    case PrepareCut => WholeRotation(d, s, now, d.metadata.value.next, draw, overlap);
    case IsActive =>
      var at := Max(now, d.metadata.value.retireNotBefore.value);
      SoundLater(d, now, at);
      RetireErrand(d, s, at);
    case RetireCut => RetireErrand(d, s, now);
    case IsRetired =>
    case IsPrepared => SwitchErrands(d, s, now, overlap);
    case ActivateCut => SwitchErrands(d, s, now, overlap);
    case RollbackCut => SwitchErrands(d, s, now, overlap);
    case IsRolledBack => SwitchErrands(d, s, now, overlap);
  }
}
