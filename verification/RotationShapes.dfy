/**
 The shapes a disk can have, what each command does to each of them, and how every interrupted
 rotation is completed by running the same command again.
 */
module RotationShapes {
  import opened Common
  import opened Keysets
  import opened Rotation

  datatype Shape =
    | Absent
    | Fresh
    | PrepareCut | IsPrepared
    | ActivateCut | IsActive
    | RollbackCut | IsRolledBack
    | RetireCut | IsRetired

  /** The five shapes no command was interrupted in. */
  predicate Stable(s: Shape) {
    s.Fresh? || s.IsPrepared? || s.IsActive? || s.IsRolledBack? || s.IsRetired?
  }

  /** The keyset holds `kids` and signs under `signer`; its legacy key is gone or is `legacy`. */
  predicate Holds(k: Keyset, kids: set<string>, signer: string, legacy: string) {
    k.keys.Keys == kids && k.activeKid == signer && (k.legacyKid == "" || k.legacyKid == legacy)
  }

  predicate HasShape(d: Disk, s: Shape) {
    if d.metadata.None? then
      if d.keyset.None? then s.Absent?
      else
        var k := d.keyset.value;
        s.Fresh? && k.keys.Keys == {k.activeKid} && k.legacyKid == k.activeKid
    else if d.keyset.None? then false
    else
      var k, m := d.keyset.value, d.metadata.value;
      match s
      case Absent => false
      case Fresh => false
      case PrepareCut => m.phase.Prepared? && Holds(k, {m.previous}, m.previous, m.previous)
      case IsPrepared => m.phase.Prepared? && Holds(k, {m.previous, m.next}, m.previous, m.previous)
      case ActivateCut => m.phase.Active? && Holds(k, {m.previous, m.next}, m.previous, m.previous)
      case IsActive => m.phase.Active? && Holds(k, {m.previous, m.next}, m.next, m.previous)
      case RollbackCut => m.phase.RolledBack? && Holds(k, {m.previous, m.next}, m.next, m.previous)
      case IsRolledBack => m.phase.RolledBack? && Holds(k, {m.previous, m.next}, m.previous, m.previous)
      case RetireCut => m.phase.Active? && Holds(k, {m.next}, m.next, "")
      case IsRetired => m.phase.Retired? && Holds(k, {m.next}, m.next, "")
  }

  /** Both files are well formed on their own and record no moment after `now`. */
  predicate Sound(d: Disk, now: Time) {
    && (d.keyset.Some? ==> ValidKeyset(d.keyset.value))
    && (d.metadata.Some? ==>
          var m := d.metadata.value;
          && ValidMetadata(m)
          && m.preparedAt <= now
          && (m.activatedAt.Some? ==> m.activatedAt.value <= now)
          && (HasShape(d, RetireCut) || HasShape(d, IsRetired) ==> m.retireNotBefore.value <= now))
  }

  /** The disk has one of the nine shapes, or is not yet created. */
  predicate Shaped(d: Disk) {
    exists s :: HasShape(d, s)
  }

  /** The invariant of the disk. */
  predicate Good(d: Disk, now: Time) {
    Sound(d, now) && Shaped(d)
  }

  /** A shape is a property of the disk: it has at most one. */
  lemma ShapeIsUnique(d: Disk, s: Shape, t: Shape)
    requires d.metadata.Some? ==> d.metadata.value.previous != d.metadata.value.next
    requires HasShape(d, s) && HasShape(d, t)
    ensures s == t
  {
    if d.metadata.Some? {
      var m := d.metadata.value;
      assert m.previous in {m.previous, m.next} && m.next in {m.previous, m.next};
      assert m.next !in {m.previous};
    }
  }

  function ShapeAfter(cmd: Command): Shape {
    match cmd
    case Bootstrap(_, _, _) => Fresh
    case Prepare(_) => IsPrepared
    case Activate(_) => IsActive
    case Rollback => IsRolledBack
    case Retire => IsRetired
  }

  lemma Cardinalities(k: Keyset, a: string, b: string)
    requires a != b
    ensures a in k.keys && b in k.keys && |k.keys| == 2 <==> k.keys.Keys == {a, b}
    ensures a in k.keys && |k.keys| == 1 <==> k.keys.Keys == {a}
  {
    assert |k.keys| == |k.keys.Keys|;
    if a in k.keys && b in k.keys && |k.keys| == 2 {
      TwoMembers(k.keys.Keys, a, b);
    }
    if a in k.keys && |k.keys| == 1 {
      OneMember(k.keys.Keys, a);
    }
    assert |{a, b}| == 2;
  }

  // ---- What loading accepts ----------------------------------------------------------------

  /** On a good disk, status and export-worker accept exactly the five stable shapes. */
  lemma LoadAcceptsStableShapes(d: Disk, s: Shape, now: Time)
    requires Sound(d, now) && HasShape(d, s)
    ensures CheckState(d) == Completed <==> Stable(s)
  {
    if d.metadata.Some? {
      var m := d.metadata.value;
      Cardinalities(d.keyset.value, m.previous, m.next);
      Cardinalities(d.keyset.value, m.next, m.previous);
    } else if d.keyset.Some? {
      Cardinalities(d.keyset.value, d.keyset.value.activeKid, d.keyset.value.activeKid + "x");
    }
  }

  // ---- The transition table ----------------------------------------------------------------

  /** A drawn secret can be added: there is one, and it is no secret already in the keyset. */
  predicate Usable(k: Keyset, draw: Option<string>) {
    draw.Some? && forall kid | kid in k.keys :: k.keys[kid] != draw.value
  }

  /** The gate of the recorded overlap is still ahead. */
  predicate BeforeGate(d: Disk, now: Time) {
    d.metadata.Some? && d.metadata.value.retireNotBefore.Some? && now < d.metadata.value.retireNotBefore.value
  }

  /** The shapes a command takes a good disk through, one for each write it makes. */
  function Course(d: Disk, s: Shape, cmd: Command, now: Time, draw: Option<string>): seq<Shape>
    requires HasShape(d, s)
  {
    match cmd
    case Bootstrap(kid, secret, utf8) =>
      if s.Absent? && ValidKid(kid) && MIN_SECRET_BYTES <= |secret| && utf8 then [Fresh] else []
    case Prepare(kid) =>
      if !ValidKid(kid) then []
      else if (s.Fresh? || s.IsRetired?) && kid !in d.keyset.value.keys then
        if Usable(d.keyset.value, draw) then [PrepareCut, IsPrepared] else [PrepareCut]
      else if s.PrepareCut? && kid == d.metadata.value.next && Usable(d.keyset.value, draw) then [IsPrepared]
      else []
    case Activate(overlap) =>
      if overlap <= 0 then []
      else if s.IsPrepared? || s.ActivateCut? || s.IsRolledBack? then [ActivateCut, IsActive]
      else if s.RollbackCut? then [IsActive, IsActive]
      else []
    case Rollback =>
      if s.IsActive? && BeforeGate(d, now) then [RollbackCut, IsRolledBack]
      else if s.ActivateCut? && BeforeGate(d, now) then [IsRolledBack, IsRolledBack]
      else if s.RollbackCut? then [IsRolledBack]
      else []
    case Retire =>
      if s.IsActive? && !BeforeGate(d, now) then [RetireCut, IsRetired]
      else if s.RetireCut? then [IsRetired]
      else []
  }

  /** The command's work is already done. */
  predicate AlreadyDone(d: Disk, s: Shape, cmd: Command)
    requires HasShape(d, s)
  {
    match cmd
    case Bootstrap(_, _, _) => false
    case Prepare(kid) => s.IsPrepared? && kid == d.metadata.value.next
    case Activate(overlap) => s.IsActive? && 0 < overlap
    case Rollback => s.IsRolledBack?
    case Retire => s.IsRetired?
  }

  predicate Reaches(d: Disk, s: Shape, now: Time) {
    Sound(d, now) && HasShape(d, s)
  }

  /** The writes of a plan lead a disk through the shapes of a course, one each. */
  predicate Traces(d: Disk, writes: seq<Write>, course: seq<Shape>, now: Time) {
    && |writes| == |course| <= 2
    && (|course| >= 1 ==> Reaches(AfterWrites(d, writes, 1), course[0], now))
    && (|course| >= 2 ==> Reaches(AfterWrites(d, writes, 2), course[1], now))
  }

  function LastShape(s: Shape, course: seq<Shape>): Shape {
    if course == [] then s else course[|course| - 1]
  }

  /** Where a command stands once `n` of its writes landed. */
  function ShapeAt(s: Shape, course: seq<Shape>, n: nat): Shape
    requires n <= |course|
  {
    if n == 0 then s else course[n - 1]
  }

  lemma TracedShape(d: Disk, writes: seq<Write>, s: Shape, course: seq<Shape>, now: Time, n: nat)
    requires Traces(d, writes, course, now) && Reaches(d, s, now) && n <= |course|
    ensures Reaches(AfterWrites(d, writes, n), ShapeAt(s, course, n), now)
  {
    if n == 0 {
    } else if n == 1 {
      assert ShapeAt(s, course, n) == course[0];
    } else {
      assert n == 2 && ShapeAt(s, course, n) == course[1];
    }
  }

  /** A command does what its course says, and succeeds when the course ends where it should. */
  ghost predicate FollowsCourse(d: Disk, s: Shape, cmd: Command, now: Time, draw: Option<string>)
    requires HasShape(d, s)
  {
    var plan := PlanOf(d, cmd, now, draw);
    var course := Course(d, s, cmd, now, draw);
    && Traces(d, plan.writes, course, now)
    && (plan.outcome == Completed <==> AlreadyDone(d, s, cmd) || (course != [] && LastShape(s, course) == ShapeAfter(cmd)))
  }

  /** What every table lemma below assumes of the disk and of the moment the command reads. */
  predicate Ready(d: Disk, s: Shape, now: Time, draw: Option<string>) {
    0 < now && Sound(d, now) && HasShape(d, s) && (draw.Some? ==> GeneratedSecret(draw.value))
  }

  /** The three ways a plan without a late failure can follow its course. */
  lemma NoWrites(d: Disk, s: Shape, cmd: Command, now: Time, draw: Option<string>)
    requires HasShape(d, s) && Course(d, s, cmd, now, draw) == []
    requires PlanOf(d, cmd, now, draw).writes == []
    requires PlanOf(d, cmd, now, draw).outcome == Completed <==> AlreadyDone(d, s, cmd)
    ensures FollowsCourse(d, s, cmd, now, draw)
  {}

  lemma OneWrite(d: Disk, s: Shape, cmd: Command, now: Time, draw: Option<string>, w: Write)
    requires HasShape(d, s) && Course(d, s, cmd, now, draw) == [ShapeAfter(cmd)]
    requires PlanOf(d, cmd, now, draw) == Plan([w], Completed)
    requires Reaches(Apply(d, w), ShapeAfter(cmd), now)
    ensures FollowsCourse(d, s, cmd, now, draw)
  {
    assert AfterWrites(d, [w], 1) == Apply(AfterWrites(d, [w], 0), w);
  }

  lemma FailsAfterWrite(d: Disk, s: Shape, cmd: Command, now: Time, draw: Option<string>, w: Write, t: Shape)
    requires HasShape(d, s) && Course(d, s, cmd, now, draw) == [t] && t != ShapeAfter(cmd) && !AlreadyDone(d, s, cmd)
    requires PlanOf(d, cmd, now, draw).writes == [w] && PlanOf(d, cmd, now, draw).outcome.Failed?
    requires Reaches(Apply(d, w), t, now)
    ensures FollowsCourse(d, s, cmd, now, draw)
  {
    assert AfterWrites(d, [w], 1) == Apply(AfterWrites(d, [w], 0), w);
  }

  lemma TwoWrites(d: Disk, s: Shape, cmd: Command, now: Time, draw: Option<string>, v: Write, w: Write)
    requires HasShape(d, s) && |Course(d, s, cmd, now, draw)| == 2
    requires Course(d, s, cmd, now, draw)[1] == ShapeAfter(cmd)
    requires PlanOf(d, cmd, now, draw) == Plan([v, w], Completed)
    requires Reaches(Apply(d, v), Course(d, s, cmd, now, draw)[0], now)
    requires Reaches(Apply(Apply(d, v), w), ShapeAfter(cmd), now)
    ensures FollowsCourse(d, s, cmd, now, draw)
  {
    assert AfterWrites(d, [v, w], 1) == Apply(AfterWrites(d, [v, w], 0), v);
    assert AfterWrites(d, [v, w], 2) == Apply(AfterWrites(d, [v, w], 1), w);
  }

  lemma BootstrapCourse(d: Disk, s: Shape, cmd: Command, now: Time, draw: Option<string>)
    requires Ready(d, s, now, draw) && cmd.Bootstrap?
    ensures FollowsCourse(d, s, cmd, now, draw)
  {
    var k := Keyset(KEYSET_VERSION, cmd.kid, cmd.kid, map[cmd.kid := cmd.secret]);
    assert |k.keys| == |k.keys.Keys| && k.keys.Keys == {cmd.kid};
    var plan := PlanOf(d, cmd, now, draw);
    if plan.writes != [] {
      assert AfterWrites(d, plan.writes, 1) == Apply(d, plan.writes[0]);
    }
  }

  lemma KeyAdded(k: Keyset, m: Metadata, draw: Option<string>)
    requires ValidKeyset(k) && ValidMetadata(m) && m.phase.Prepared?
    requires Holds(k, {m.previous}, m.previous, m.previous)
    requires draw.Some? && GeneratedSecret(draw.value)
    ensures var k' := k.(keys := k.keys[m.next := draw.value]);
            && (CheckRotationState(k', Some(m)) == Completed <==> Usable(k, draw))
            && Holds(k', {m.previous, m.next}, m.previous, m.previous)
  {
    var k' := k.(keys := k.keys[m.next := draw.value]);
    assert k'.keys.Keys == {m.previous, m.next};
    Cardinalities(k', m.previous, m.next);
    assert k'.keys[m.previous] == k.keys[m.previous] && k'.keys[m.next] == draw.value;
  }

  /** From a one-key disk prepare records the rotation, then adds the key when the draw is usable. */
  lemma StartCourse(d: Disk, s: Shape, newKid: string, now: Time, draw: Option<string>)
    requires Ready(d, s, now, draw) && (s.Fresh? || s.IsRetired?)
    requires ValidKid(newKid) && newKid !in d.keyset.value.keys
    ensures FollowsCourse(d, s, Prepare(newKid), now, draw)
  {
    var k := d.keyset.value;
    var m := PreparedMetadata(k, newKid, now);
    StartPlan(d, s, newKid, now, draw);
    FinishedPlan(k, m, now, draw, [PutMetadata(m)]);
    OneKeyShapes(k, m, now);
    hide PlanOf, FinishPrepare, ValidKeyset, ValidMetadata, Sound;
    if Usable(k, draw) {
      var k' := k.(keys := k.keys[m.next := draw.value]);
      TwoWrites(d, s, Prepare(newKid), now, draw, PutMetadata(m), PutKeyset(k'));
    } else {
      FailsAfterWrite(d, s, Prepare(newKid), now, draw, PutMetadata(m), PrepareCut);
    }
  }

  /** The tail of prepare succeeds, and gives a prepared disk, exactly when the draw is usable. */
  lemma FinishedPlan(k: Keyset, m: Metadata, now: Time, draw: Option<string>, before: seq<Write>)
    requires ValidKeyset(k) && ValidMetadata(m) && m.phase.Prepared? && m.preparedAt <= now
    requires Holds(k, {m.previous}, m.previous, m.previous)
    requires draw.Some? ==> GeneratedSecret(draw.value)
    ensures var plan := FinishPrepare(k, m, draw, before);
            if Usable(k, draw) then
              var k' := k.(keys := k.keys[m.next := draw.value]);
              plan == Plan(before + [PutKeyset(k')], Completed) && Reaches(Disk(Some(k'), Some(m)), IsPrepared, now)
            else plan.writes == before && plan.outcome.Failed?
  {
    if Usable(k, draw) {
      AddedKey(k, m, now, draw);
    } else if draw.Some? {
      KeyAdded(k, m, draw);
    }
  }

  lemma StartPlan(d: Disk, s: Shape, newKid: string, now: Time, draw: Option<string>)
    requires Ready(d, s, now, draw) && (s.Fresh? || s.IsRetired?)
    requires ValidKid(newKid) && newKid !in d.keyset.value.keys
    ensures var m := PreparedMetadata(d.keyset.value, newKid, now);
            && PlanOf(d, Prepare(newKid), now, draw) == FinishPrepare(d.keyset.value, m, draw, [PutMetadata(m)])
            && ValidMetadata(m)
            && Holds(d.keyset.value, {m.previous}, m.previous, m.previous)
  {
    var k := d.keyset.value;
    Cardinalities(k, k.activeKid, newKid);
    assert StableForPrepare(k, d.metadata);
  }

  lemma AddedKey(k: Keyset, m: Metadata, now: Time, draw: Option<string>)
    requires ValidKeyset(k) && ValidMetadata(m) && m.phase.Prepared? && m.preparedAt <= now
    requires Holds(k, {m.previous}, m.previous, m.previous)
    requires Usable(k, draw) && GeneratedSecret(draw.value)
    ensures var k' := k.(keys := k.keys[m.next := draw.value]);
            && CheckRotationState(k', Some(m)) == Completed
            && Reaches(Disk(Some(k'), Some(m)), IsPrepared, now)
  {
    KeyAdded(k, m, draw);
    TwoKeyShapes(k.(keys := k.keys[m.next := draw.value]), m, m.previous, now);
  }

  /** An interrupted prepare goes on with the recorded kid. */
  lemma ResumeCourse(d: Disk, newKid: string, now: Time, draw: Option<string>)
    requires Ready(d, PrepareCut, now, draw) && newKid == d.metadata.value.next
    ensures FollowsCourse(d, PrepareCut, Prepare(newKid), now, draw)
  {
    var k, m := d.keyset.value, d.metadata.value;
    Cardinalities(k, m.previous, m.next);
    assert PreparedFiles(k, m);
    assert PlanOf(d, Prepare(newKid), now, draw) == FinishPrepare(k, m, draw, []);
    FinishedPlan(k, m, now, draw, []);
    hide PlanOf, FinishPrepare, ValidKeyset;
    if Usable(k, draw) {
      OneWrite(d, PrepareCut, Prepare(newKid), now, draw, PutKeyset(k.(keys := k.keys[m.next := draw.value])));
    }
  }

  lemma PrepareCourse(d: Disk, s: Shape, cmd: Command, now: Time, draw: Option<string>)
    requires Ready(d, s, now, draw) && cmd.Prepare?
    ensures FollowsCourse(d, s, cmd, now, draw)
  {
    if s.Absent? || !ValidKid(cmd.newKid) {
      return;
    }
    var k := d.keyset.value;
    assert PlanOf(d, cmd, now, draw) == PreparePlan(k, d.metadata, cmd.newKid, now, draw);
    if (s.Fresh? || s.IsRetired?) && cmd.newKid !in k.keys {
      StartCourse(d, s, cmd.newKid, now, draw);
    } else if s.PrepareCut? && cmd.newKid == d.metadata.value.next {
      ResumeCourse(d, cmd.newKid, now, draw);
    } else {
      if s.IsPrepared? {
        Cardinalities(k, d.metadata.value.previous, d.metadata.value.next);
      }
      assert PlanOf(d, cmd, now, draw).writes == [];
    }
  }

  lemma ActivateWrites(k: Keyset, m: Metadata, overlap: Time, now: Time)
    requires ValidKeyset(k) && ValidMetadata(m) && !m.phase.Retired? && m.preparedAt <= now && 0 < overlap
    requires DualKeys(k, m) && !(m.phase.Active? && k.activeKid == m.next)
    ensures var m' := ActivatedMetadata(m, now, overlap);
            var k' := k.(activeKid := m.next);
            && ActivatePlan(k, Some(m), overlap, now) == Plan([PutMetadata(m'), PutKeyset(k')], Completed)
            && ValidMetadata(m') && ValidKeyset(k')
  {}

  /** Replacing the signer and the metadata of a two-key disk gives the shape their phase says. */
  lemma TwoKeyShapes(k: Keyset, m: Metadata, kid: string, now: Time)
    requires ValidKeyset(k) && ValidMetadata(m) && Holds(k, {m.previous, m.next}, kid, m.previous)
    requires m.preparedAt <= now && (m.activatedAt.Some? ==> m.activatedAt.value <= now)
    requires !m.phase.Retired? && (m.phase.Prepared? ==> kid == m.previous)
    ensures var d := Disk(Some(k), Some(m));
            && (kid == m.next && m.phase.Active? ==> Reaches(d, IsActive, now))
            && (kid == m.next && m.phase.RolledBack? ==> Reaches(d, RollbackCut, now))
            && (kid == m.previous && m.phase.Active? ==> Reaches(d, ActivateCut, now))
            && (kid == m.previous && m.phase.RolledBack? ==> Reaches(d, IsRolledBack, now))
            && (kid == m.previous && m.phase.Prepared? ==> Reaches(d, IsPrepared, now))
  {
    assert m.previous in k.keys.Keys && m.previous !in {m.next};
  }

  /** A one-key disk has the shape its phase and its signer say. */
  lemma OneKeyShapes(k: Keyset, m: Metadata, now: Time)
    requires ValidKeyset(k) && ValidMetadata(m)
    requires m.preparedAt <= now && (m.activatedAt.Some? ==> m.activatedAt.value <= now)
    requires if m.phase.Prepared? then Holds(k, {m.previous}, m.previous, m.previous)
             else Holds(k, {m.next}, m.next, "") && !m.phase.RolledBack? && m.retireNotBefore.value <= now
    ensures Reaches(Disk(Some(k), Some(m)), if m.phase.Prepared? then PrepareCut else if m.phase.Active? then RetireCut else IsRetired, now)
  {}

  lemma ActivateRefused(d: Disk, s: Shape, cmd: Command, now: Time, draw: Option<string>)
    requires Ready(d, s, now, draw) && d.metadata.Some? && cmd.Activate? && ValidOptions(cmd)
    requires Course(d, s, cmd, now, draw) == []
    ensures FollowsCourse(d, s, cmd, now, draw)
  {
    var k, m := d.keyset.value, d.metadata.value;
    Cardinalities(k, m.previous, m.next);
    assert ActivatePlan(k, Some(m), cmd.overlap, now) == if s.IsActive? then Plan([], Completed) else Refuse(InvalidState);
    NoWrites(d, s, cmd, now, draw);
  }

  lemma ActivateCourse(d: Disk, s: Shape, cmd: Command, now: Time, draw: Option<string>)
    requires Ready(d, s, now, draw) && cmd.Activate? && ValidOptions(cmd) && d.metadata.Some?
    ensures FollowsCourse(d, s, cmd, now, draw)
  {
    hide BootstrapPlan, PreparePlan, ActivatePlan, RollbackPlan, RetirePlan;
    var k, m := d.keyset.value, d.metadata.value;
    if s.IsPrepared? || s.ActivateCut? || s.IsRolledBack? || s.RollbackCut? {
      Cardinalities(k, m.previous, m.next);
      assert DualKeys(k, m);
      ActivateWrites(k, m, cmd.overlap, now);
      var m' := ActivatedMetadata(m, now, cmd.overlap);
      var k' := k.(activeKid := m.next);
      TwoKeyShapes(k, m', k.activeKid, now);
      TwoKeyShapes(k', m', m.next, now);
      TwoWrites(d, s, cmd, now, draw, PutMetadata(m'), PutKeyset(k'));
    } else {
      ActivateRefused(d, s, cmd, now, draw);
    }
  }

  lemma RollbackWrites(k: Keyset, m: Metadata, now: Time)
    requires ValidKeyset(k) && ValidMetadata(m) && DualKeys(k, m)
    requires m.phase.Active? && m.activatedAt.value <= now < m.retireNotBefore.value
    ensures var m' := RolledBackMetadata(m, now);
            var k' := k.(activeKid := m.previous);
            && RollbackPlan(k, Some(m), now) == Plan([PutMetadata(m'), PutKeyset(k')], Completed)
            && ValidMetadata(m') && ValidKeyset(k')
  {}

  lemma RollbackRefused(d: Disk, s: Shape, cmd: Command, now: Time, draw: Option<string>)
    requires Ready(d, s, now, draw) && d.metadata.Some? && cmd.Rollback? && ValidOptions(cmd)
    requires Course(d, s, cmd, now, draw) == []
    ensures FollowsCourse(d, s, cmd, now, draw)
  {
    var k, m := d.keyset.value, d.metadata.value;
    Cardinalities(k, m.previous, m.next);
    assert RollbackPlan(k, Some(m), now) == if s.IsRolledBack? then Plan([], Completed) else Refuse(InvalidState);
    NoWrites(d, s, cmd, now, draw);
  }

  lemma RollbackCourse(d: Disk, s: Shape, cmd: Command, now: Time, draw: Option<string>)
    requires Ready(d, s, now, draw) && cmd.Rollback? && ValidOptions(cmd) && d.metadata.Some?
    ensures FollowsCourse(d, s, cmd, now, draw)
  {
    hide BootstrapPlan, PreparePlan, ActivatePlan, RollbackPlan, RetirePlan;
    var k, m := d.keyset.value, d.metadata.value;
    var k' := k.(activeKid := m.previous);
    if (s.IsActive? || s.ActivateCut?) && now < m.retireNotBefore.value {
      Cardinalities(k, m.previous, m.next);
      RollbackWrites(k, m, now);
      var m' := RolledBackMetadata(m, now);
      TwoKeyShapes(k, m', k.activeKid, now);
      TwoKeyShapes(k', m', m.previous, now);
      TwoWrites(d, s, cmd, now, draw, PutMetadata(m'), PutKeyset(k'));
    } else if s.RollbackCut? {
      Cardinalities(k, m.previous, m.next);
      RollbackFinish(k, m, now);
      TwoKeyShapes(k', m, m.previous, now);
      OneWrite(d, s, cmd, now, draw, PutKeyset(k'));
    } else {
      RollbackRefused(d, s, cmd, now, draw);
    }
  }

  lemma RollbackFinish(k: Keyset, m: Metadata, now: Time)
    requires ValidKeyset(k) && ValidMetadata(m) && NextSigner(k, m) && m.phase.RolledBack?
    ensures var k' := k.(activeKid := m.previous);
            RollbackPlan(k, Some(m), now) == Plan([PutKeyset(k')], Completed) && ValidKeyset(k')
  {}

  lemma RetireWrites(k: Keyset, m: Metadata, now: Time)
    requires ValidKeyset(k) && ValidMetadata(m) && NextSigner(k, m)
    requires m.phase.Active? && m.retireNotBefore.value <= now
    ensures var m' := RetiredMetadata(m, now);
            var k' := RetiredKeyset(k, m);
            && RetirePlan(k, Some(m), now) == Plan([PutKeyset(k'), PutMetadata(m')], Completed)
            && ValidMetadata(m') && ValidKeyset(k') && k'.keys.Keys == {m.next} && k'.legacyKid == ""
  {
    var k' := RetiredKeyset(k, m);
    Cardinalities(k, m.previous, m.next);
    assert k'.keys.Keys == {m.next};
    Cardinalities(k', m.next, m.previous);
  }

  lemma RetireCourse(d: Disk, s: Shape, cmd: Command, now: Time, draw: Option<string>)
    requires Ready(d, s, now, draw) && cmd.Retire? && ValidOptions(cmd) && d.metadata.Some?
    ensures FollowsCourse(d, s, cmd, now, draw)
  {
    hide BootstrapPlan, PreparePlan, ActivatePlan, RollbackPlan, RetirePlan;
    var k, m := d.keyset.value, d.metadata.value;
    if s.IsActive? && m.retireNotBefore.value <= now {
      RetireFromActive(d, now, draw);
    } else if s.RetireCut? {
      RetireFinish(k, m, now);
      var m' := RetiredMetadata(m, now);
      assert Reaches(Disk(Some(k), Some(m')), IsRetired, now);
      OneWrite(d, s, cmd, now, draw, PutMetadata(m'));
    } else {
      RetireRefused(d, s, now, draw);
    }
  }

  lemma RetireFromActive(d: Disk, now: Time, draw: Option<string>)
    requires Ready(d, IsActive, now, draw) && d.metadata.value.retireNotBefore.value <= now
    ensures FollowsCourse(d, IsActive, Retire, now, draw)
  {
    var k, m := d.keyset.value, d.metadata.value;
    Cardinalities(k, m.previous, m.next);
    RetireWrites(k, m, now);
    var k', m' := RetiredKeyset(k, m), RetiredMetadata(m, now);
    OneKeyShapes(k', m, now);
    OneKeyShapes(k', m', now);
    hide RetirePlan, RetiredKeyset;
    TwoWrites(d, IsActive, Retire, now, draw, PutKeyset(k'), PutMetadata(m'));
  }

  lemma RetireRefused(d: Disk, s: Shape, now: Time, draw: Option<string>)
    requires Ready(d, s, now, draw) && d.metadata.Some? && Course(d, s, Retire, now, draw) == []
    ensures FollowsCourse(d, s, Retire, now, draw)
  {
    var k, m := d.keyset.value, d.metadata.value;
    if s.IsRetired? {
      Cardinalities(k, m.next, m.previous);
    }
    assert RetirePlan(k, Some(m), now) == if s.IsRetired? then Plan([], Completed) else Refuse(InvalidState);
    NoWrites(d, s, Retire, now, draw);
  }

  lemma RetireFinish(k: Keyset, m: Metadata, now: Time)
    requires ValidKeyset(k) && ValidMetadata(m) && Holds(k, {m.next}, m.next, "")
    requires m.phase.Active? && m.retireNotBefore.value <= now
    ensures RetirePlan(k, Some(m), now) == Plan([PutMetadata(RetiredMetadata(m, now))], Completed)
    ensures ValidMetadata(RetiredMetadata(m, now))
  {
    Cardinalities(k, m.next, m.previous);
  }

  /** Without metadata, or with options the command line refuses, nothing can be rotated. */
  lemma NothingToRotate(d: Disk, s: Shape, cmd: Command, now: Time, draw: Option<string>)
    requires Ready(d, s, now, draw) && (cmd.Activate? || cmd.Rollback? || cmd.Retire?)
    requires d.metadata.None? || !ValidOptions(cmd)
    ensures FollowsCourse(d, s, cmd, now, draw)
  {
    NoWrites(d, s, cmd, now, draw);
  }

  /** The table is right: on every good disk every command does exactly what its course says. */
  lemma TableIsRight(d: Disk, s: Shape, cmd: Command, now: Time, draw: Option<string>)
    requires Ready(d, s, now, draw)
    ensures FollowsCourse(d, s, cmd, now, draw)
  {
    hide PlanOf, Course;
    if cmd.Bootstrap? {
      BootstrapCourse(d, s, cmd, now, draw);
    } else if cmd.Prepare? {
      PrepareCourse(d, s, cmd, now, draw);
    } else if d.metadata.None? || !ValidOptions(cmd) {
      NothingToRotate(d, s, cmd, now, draw);
    } else {
      match cmd
      case Activate(_) => ActivateCourse(d, s, cmd, now, draw);
      case Rollback => RollbackCourse(d, s, cmd, now, draw);
      case Retire => RetireCourse(d, s, cmd, now, draw);
    }
  }
}
