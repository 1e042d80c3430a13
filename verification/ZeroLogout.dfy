/**
 Rotation as a system: commands make their writes one at a time and may be cut at any moment, the
 clock never goes back, and tokens are signed under whatever signer is on disk. A run is a sequence
 of events from an empty disk.
 */
module ZeroLogout {
  import opened Common
  import opened Keysets
  import opened Rotation
  import opened RotationShapes

  /** A command under way: what it read, and how many of its writes took effect. */
  datatype Flight = Flight(cmd: Command, readAt: Time, draw: Option<string>, origin: Disk, done: nat)

  datatype Sys = Sys(disk: Disk, clock: Time, flight: Option<Flight>, tokens: set<Token>)

  /**
   `Begin` loads the files and reads the clock; the lock admits one command at a time. `Land` makes
   the next write take effect. `Stop` ends the command wherever it is: after its last write, by a
   crash, by a write that left no trace, or by one that took effect and reported an error. `Issue`
   signs a token, with a key ID or, while the signer is the legacy key, without.
   */
  datatype Event = Tick(to: Time) | Begin(cmd: Command, draw: Option<string>) | Land | Stop | Issue(named: bool)

  function Writes(f: Flight): seq<Write> {
    PlanOf(f.origin, f.cmd, f.readAt, f.draw).writes
  }

  predicate Enabled(s: Sys, e: Event) {
    match e
    case Tick(to) => s.clock <= to
    case Begin(_, draw) => s.flight.None? && (draw.Some? ==> GeneratedSecret(draw.value))
    case Land => s.flight.Some? && s.flight.value.done < |Writes(s.flight.value)|
    case Stop => s.flight.Some?
    case Issue(named) =>
      && s.disk.keyset.Some?
      && s.disk.keyset.value.activeKid in s.disk.keyset.value.keys
      && (!named ==> s.disk.keyset.value.legacyKid == s.disk.keyset.value.activeKid)
  }

  function Signed(k: Keyset, named: bool, expiresAt: Time): Token
    requires k.activeKid in k.keys
  {
    Token(if named then Some(k.activeKid) else None, k.keys[k.activeKid], expiresAt)
  }

  function Next(s: Sys, e: Event, lifetime: Time): Sys
    requires Enabled(s, e)
  {
    match e
    case Tick(to) => s.(clock := to)
    case Begin(cmd, draw) => s.(flight := Some(Flight(cmd, s.clock, draw, s.disk, 0)))
    case Land =>
      var f := s.flight.value;
      s.(disk := Apply(s.disk, Writes(f)[f.done]), flight := Some(f.(done := f.done + 1)))
    case Stop => s.(flight := None)
    case Issue(named) => s.(tokens := s.tokens + {Signed(s.disk.keyset.value, named, s.clock + lifetime)})
  }

  /** The new key of the rotation signs already. */
  predicate NextSigns(d: Disk) {
    d.keyset.Some? && d.metadata.Some? && d.keyset.value.activeKid == d.metadata.value.next
  }

  /**
   The operator's obligation. When an activate moves the signer, its overlap covers a token's lifetime
   and the time since that activate read the clock. When it writes while the new key signs already,
   after a rollback that was cut, its overlap covers a token's lifetime. Metadata written ahead of the
   signer oblige to nothing.
   */
  predicate Punctual(s: Sys, e: Event, lifetime: Time)
    requires Enabled(s, e)
  {
    e.Land? && s.flight.value.cmd.Activate? ==>
      var f := s.flight.value;
      if NextSigns(s.disk) then lifetime <= f.cmd.overlap
      else Writes(f)[f.done].PutKeyset? ==> lifetime + (s.clock - f.readAt) <= f.cmd.overlap
  }

  predicate IsRun(s: Sys, es: seq<Event>, lifetime: Time)
    decreases |es|
  {
    es == [] || (Enabled(s, es[0]) && IsRun(Next(s, es[0], lifetime), es[1..], lifetime))
  }

  predicate PunctualRun(s: Sys, es: seq<Event>, lifetime: Time)
    requires IsRun(s, es, lifetime)
    decreases |es|
  {
    es == [] || (Punctual(s, es[0], lifetime) && PunctualRun(Next(s, es[0], lifetime), es[1..], lifetime))
  }

  function End(s: Sys, es: seq<Event>, lifetime: Time): Sys
    requires IsRun(s, es, lifetime)
    decreases |es|
  {
    if es == [] then s else End(Next(s, es[0], lifetime), es[1..], lifetime)
  }

  function Start(clock: Time): Sys {
    Sys(Disk(None, None), clock, None, {})
  }

  // ---- The invariant -----------------------------------------------------------------------

  /** The disk is where the command under way has brought it. */
  ghost predicate OnCourse(s: Sys) {
    && 0 < s.clock
    && Good(s.disk, s.clock)
    && (s.flight.Some? ==>
          var f := s.flight.value;
          && 0 < f.readAt <= s.clock
          && (f.draw.Some? ==> GeneratedSecret(f.draw.value))
          && Good(f.origin, f.readAt)
          && f.done <= |Writes(f)|
          && s.disk == AfterWrites(f.origin, Writes(f), f.done))
  }

  predicate Live(s: Sys, t: Token) {
    t in s.tokens && s.clock < t.expiresAt
  }

  /** Every live token is accepted. */
  ghost predicate Accepted(s: Sys) {
    forall t :: Live(s, t) ==> s.disk.keyset.Some? && Verifies(s.disk.keyset.value, t)
  }

  /** The token is one the retirement of this rotation will reject. */
  predicate Outgoing(m: Metadata, t: Token) {
    t.kid == None || t.kid == Some(m.previous)
  }

  /** Once the new key signs, outgoing tokens expire before the gate. */
  ghost predicate Gated(s: Sys) {
    HasShape(s.disk, IsActive) && ValidMetadata(s.disk.metadata.value) ==>
      forall t :: t in s.tokens && Outgoing(s.disk.metadata.value, t) ==>
        t.expiresAt <= s.disk.metadata.value.retireNotBefore.value
  }

  ghost predicate Bounded(s: Sys, lifetime: Time) {
    forall t :: t in s.tokens ==> t.expiresAt <= s.clock + lifetime
  }

  /** While an activate is under way that began with the new key signing, no outgoing token is signed. */
  ghost predicate Quiet(s: Sys, lifetime: Time) {
    s.flight.Some? && s.flight.value.cmd.Activate? && NextSigns(s.flight.value.origin) ==>
      forall t :: t in s.tokens && Outgoing(s.flight.value.origin.metadata.value, t) ==>
        t.expiresAt <= s.flight.value.readAt + lifetime
  }

  ghost predicate Inv(s: Sys, lifetime: Time) {
    OnCourse(s) && Accepted(s) && Gated(s) && Bounded(s, lifetime) && Quiet(s, lifetime)
  }

  // ---- What a write does to the keyset -------------------------------------------------------

  /** Every secret of `k` is kept by `k'` under the same kid, and so is the legacy key. */
  predicate Extends(k: Keyset, k': Keyset) {
    && (forall kid | kid in k.keys :: kid in k'.keys && k'.keys[kid] == k.keys[kid])
    && k'.legacyKid == k.legacyKid
  }

  /** Retirement drops the previous key and the legacy key, at or after the gate. */
  predicate Drops(k: Keyset, m: Metadata, now: Time, k': Keyset) {
    && m.retireNotBefore.Some? && m.retireNotBefore.value <= now
    && m.previous in k.keys && k.activeKid == m.next
    && k' == RetiredKeyset(k, m)
  }

  /** A plan writes the keyset once, from the keyset it read; only retirement drops a key. */
  ghost predicate WritesOnce(d: Disk, cmd: Command, writes: seq<Write>, now: Time) {
    forall n: nat | n < |writes| && writes[n].PutKeyset? ::
      && (forall i: nat | i < n :: writes[i].PutMetadata?)
      && if d.keyset.None? then cmd.Bootstrap?
         else if cmd.Retire? then n == 0 && d.metadata.Some? && Drops(d.keyset.value, d.metadata.value, now, writes[n].keyset)
         else Extends(d.keyset.value, writes[n].keyset)
  }

  lemma PrepareWritesOnce(k: Keyset, m: Option<Metadata>, newKid: string, now: Time, draw: Option<string>)
    ensures WritesOnce(Disk(Some(k), m), Prepare(newKid), PreparePlan(k, m, newKid, now, draw).writes, now)
  {}

  lemma ActivateWritesOnce(k: Keyset, m: Option<Metadata>, overlap: Time, now: Time)
    ensures WritesOnce(Disk(Some(k), m), Activate(overlap), ActivatePlan(k, m, overlap, now).writes, now)
  {}

  lemma RollbackWritesOnce(k: Keyset, m: Option<Metadata>, now: Time)
    requires m.Some? ==> ValidMetadata(m.value)
    ensures WritesOnce(Disk(Some(k), m), Rollback, RollbackPlan(k, m, now).writes, now)
  {}

  lemma RetireWritesOnce(k: Keyset, m: Option<Metadata>, now: Time)
    requires m.Some? ==> ValidMetadata(m.value)
    ensures WritesOnce(Disk(Some(k), m), Retire, RetirePlan(k, m, now).writes, now)
  {}

  lemma PlanWritesOnce(d: Disk, cmd: Command, now: Time, draw: Option<string>)
    ensures WritesOnce(d, cmd, PlanOf(d, cmd, now, draw).writes, now)
  {
    hide PreparePlan, ActivatePlan, RollbackPlan, RetirePlan;
    if ValidOptions(cmd) && CheckFiles(d).Completed? {
      var k, m := d.keyset.value, d.metadata;
      assert d == Disk(Some(k), m);
      match cmd
      case Bootstrap(_, _, _) =>
      case Prepare(newKid) => PrepareWritesOnce(k, m, newKid, now, draw);
      case Activate(overlap) => ActivateWritesOnce(k, m, overlap, now);
      case Rollback => RollbackWritesOnce(k, m, now);
      case Retire => RetireWritesOnce(k, m, now);
    }
  }

  lemma MetadataWritesKeepKeyset(d: Disk, writes: seq<Write>, n: nat)
    requires n <= |writes| && forall i: nat | i < n :: writes[i].PutMetadata?
    ensures AfterWrites(d, writes, n).keyset == d.keyset
  {}

  /** An activate records the gate it promises, and keeps it on disk while it moves the signer. */
  lemma ActivateGate(d: Disk, cmd: Command, now: Time, draw: Option<string>, n: nat)
    requires cmd.Activate? && 0 < n <= |PlanOf(d, cmd, now, draw).writes|
    ensures var d' := AfterWrites(d, PlanOf(d, cmd, now, draw).writes, n);
            d'.metadata.Some? && d'.metadata.value.retireNotBefore == Some(now + cmd.overlap)
  {
    var writes := PlanOf(d, cmd, now, draw).writes;
    assert writes[0].PutMetadata? && writes[0].metadata.retireNotBefore == Some(now + cmd.overlap);
    assert AfterWrites(d, writes, 1) == Apply(AfterWrites(d, writes, 0), writes[0]);
  }

  /** An activate keeps the rotation's two kids, and the new key signing if it does. */
  lemma ActivateKeepsNext(d: Disk, cmd: Command, now: Time, draw: Option<string>, n: nat)
    requires cmd.Activate? && n <= |PlanOf(d, cmd, now, draw).writes| && d.keyset.Some? && d.metadata.Some?
    ensures var writes := PlanOf(d, cmd, now, draw).writes;
            var d' := AfterWrites(d, writes, n);
            && d'.keyset.Some? && d'.metadata.Some?
            && d'.metadata.value.previous == d.metadata.value.previous && d'.metadata.value.next == d.metadata.value.next
            && (NextSigns(d) ==> NextSigns(d'))
            && (n < |writes| ==> (NextSigns(d') ==> NextSigns(d)))
            && (n < |writes| && writes[n].PutMetadata? ==> (NextSigns(Apply(d', writes[n])) ==> NextSigns(d)))
  {
    hide CheckRotationState, ValidMetadata, CheckFiles;
    var writes := PlanOf(d, cmd, now, draw).writes;
    if writes != [] {
      var m' := ActivatedMetadata(d.metadata.value, now, cmd.overlap);
      assert writes[0] == PutMetadata(m') && |writes| <= 2;
      assert AfterWrites(d, writes, 1) == Apply(AfterWrites(d, writes, 0), writes[0]);
      if |writes| == 2 {
        assert writes[1] == PutKeyset(d.keyset.value.(activeKid := m'.next));
        assert AfterWrites(d, writes, 2) == Apply(AfterWrites(d, writes, 1), writes[1]);
      }
    }
  }

  /** A token the new key signs is not outgoing. */
  lemma NextIsNotOutgoing(d: Disk, now: Time, named: bool, expiresAt: Time)
    requires Good(d, now) && NextSigns(d) && d.keyset.value.activeKid in d.keyset.value.keys
    requires !named ==> d.keyset.value.legacyKid == d.keyset.value.activeKid
    ensures !Outgoing(d.metadata.value, Signed(d.keyset.value, named, expiresAt))
  {
    var s :| HasShape(d, s);
  }

  // ---- Preservation ------------------------------------------------------------------------

  lemma LaterIsGood(d: Disk, now: Time, later: Time)
    requires Good(d, now) && now <= later
    ensures Good(d, later)
  {
    var s :| HasShape(d, s);
  }

  /** The disk after the next write, and the shape it has. */
  lemma LandingShape(f: Flight, now: Time) returns (s: Shape, t: Shape)
    requires 0 < f.readAt <= now && Good(f.origin, f.readAt) && f.done < |Writes(f)|
    requires f.draw.Some? ==> GeneratedSecret(f.draw.value)
    ensures HasShape(f.origin, s)
    ensures |Course(f.origin, s, f.cmd, f.readAt, f.draw)| == |Writes(f)|
    ensures t == Course(f.origin, s, f.cmd, f.readAt, f.draw)[f.done]
    ensures Sound(AfterWrites(f.origin, Writes(f), f.done + 1), f.readAt)
    ensures HasShape(AfterWrites(f.origin, Writes(f), f.done + 1), t)
  {
    hide PlanOf, Course, Sound, HasShape;
    s :| HasShape(f.origin, s);
    TableIsRight(f.origin, s, f.cmd, f.readAt, f.draw);
    var course := Course(f.origin, s, f.cmd, f.readAt, f.draw);
    t := course[f.done];
    TracedShape(f.origin, Writes(f), s, course, f.readAt, f.done + 1);
  }

  lemma LandKeepsCourse(s: Sys, lifetime: Time)
    requires OnCourse(s) && Enabled(s, Land)
    ensures OnCourse(Next(s, Land, lifetime))
  {
    hide PlanOf, Course, Sound, HasShape;
    var f := s.flight.value;
    var shape, t := LandingShape(f, s.clock);
    var d := AfterWrites(f.origin, Writes(f), f.done + 1);
    assert d == Apply(s.disk, Writes(f)[f.done]);
    LaterIsGood(d, f.readAt, s.clock);
  }

  /** Only an activate leads into the active shape, and retirement drops a key only from there. */
  lemma CourseEnds(d: Disk, s: Shape, cmd: Command, now: Time, draw: Option<string>, n: nat)
    requires HasShape(d, s) && n < |Course(d, s, cmd, now, draw)|
    ensures Course(d, s, cmd, now, draw)[n].IsActive? ==> cmd.Activate?
    ensures cmd.Retire? ==> s.IsActive? || s.RetireCut?
  {}

  lemma RetireCutHasNoPrevious(d: Disk)
    requires HasShape(d, RetireCut) && ValidMetadata(d.metadata.value)
    ensures d.metadata.value.previous !in d.keyset.value.keys
  {
    assert d.metadata.value.previous !in d.keyset.value.keys.Keys;
  }

  lemma ExtendsVerifies(k: Keyset, k': Keyset, t: Token)
    requires Extends(k, k') && Verifies(k, t)
    ensures Verifies(k', t)
  {}

  lemma DropsOnlyOutgoing(k: Keyset, m: Metadata, now: Time, k': Keyset, t: Token)
    requires Drops(k, m, now, k') && Verifies(k, t) && !Outgoing(m, t)
    ensures Verifies(k', t)
  {}

  /** The keyset a landing write replaces, and what the write does to it. */
  lemma LandingKeyset(s: Sys)
    requires OnCourse(s) && Enabled(s, Land)
    ensures var f := s.flight.value;
            var w := Writes(f)[f.done];
            w.PutKeyset? ==>
              if s.disk.keyset.None? then f.cmd.Bootstrap?
              else if f.cmd.Retire? then
                && s.disk == f.origin && HasShape(s.disk, IsActive) && ValidMetadata(s.disk.metadata.value)
                && Drops(s.disk.keyset.value, s.disk.metadata.value, f.readAt, w.keyset)
              else Extends(s.disk.keyset.value, w.keyset)
  {
    hide PlanOf, Course;
    var f := s.flight.value;
    var w := Writes(f)[f.done];
    if w.PutKeyset? {
      PlanWritesOnce(f.origin, f.cmd, f.readAt, f.draw);
      MetadataWritesKeepKeyset(f.origin, Writes(f), f.done);
      if s.disk.keyset.Some? && f.cmd.Retire? {
        var shape, t := LandingShape(f, s.clock);
        CourseEnds(f.origin, shape, f.cmd, f.readAt, f.draw, f.done);
        if shape.RetireCut? {
          RetireCutHasNoPrevious(f.origin);
        }
      }
    }
  }

  lemma LandKeepsAccepted(s: Sys, lifetime: Time)
    requires Inv(s, lifetime) && Enabled(s, Land)
    ensures Accepted(Next(s, Land, lifetime))
  {
    hide PlanOf, ValidMetadata, Sound, Extends, Verifies;
    var f := s.flight.value;
    var w := Writes(f)[f.done];
    LandingKeyset(s);
    assert forall t :: Live(Next(s, Land, lifetime), t) ==> Live(s, t);
    if w.PutKeyset? {
      forall t | Live(s, t) ensures Verifies(w.keyset, t) {
        assert s.disk.keyset.Some? && Verifies(s.disk.keyset.value, t);
        if f.cmd.Retire? {
          GateHasPassed(s, t);
          DropsOnlyOutgoing(s.disk.keyset.value, s.disk.metadata.value, f.readAt, w.keyset, t);
        } else {
          ExtendsVerifies(s.disk.keyset.value, w.keyset, t);
        }
      }
    }
  }

  lemma GateHasPassed(s: Sys, t: Token)
    requires Gated(s) && Live(s, t) && s.flight.Some? && s.flight.value.readAt <= s.clock
    requires HasShape(s.disk, IsActive) && ValidMetadata(s.disk.metadata.value)
    requires s.disk.metadata.value.retireNotBefore.value <= s.flight.value.readAt
    ensures !Outgoing(s.disk.metadata.value, t)
  {}

  lemma LandKeepsGated(s: Sys, lifetime: Time)
    requires Inv(s, lifetime) && Enabled(s, Land) && Punctual(s, Land, lifetime)
    ensures Gated(Next(s, Land, lifetime))
  {
    hide PlanOf, Course, Verifies;
    var s' := Next(s, Land, lifetime);
    var f := s.flight.value;
    if HasShape(s'.disk, IsActive) && ValidMetadata(s'.disk.metadata.value) {
      var shape, t := LandingShape(f, s.clock);
      assert s'.disk == AfterWrites(f.origin, Writes(f), f.done + 1);
      ShapeIsUnique(s'.disk, t, IsActive);
      CourseEnds(f.origin, shape, f.cmd, f.readAt, f.draw, f.done);
      ActivateGate(f.origin, f.cmd, f.readAt, f.draw, f.done + 1);
      ActivateStartsWithBoth(f.origin, f.cmd, f.readAt, f.draw);
      ActivateKeepsNext(f.origin, f.cmd, f.readAt, f.draw, f.done);
      ActivateKeepsNext(f.origin, f.cmd, f.readAt, f.draw, f.done + 1);
      assert NextSigns(s'.disk);
    }
  }

  lemma ActivateStartsWithBoth(d: Disk, cmd: Command, now: Time, draw: Option<string>)
    requires cmd.Activate? && PlanOf(d, cmd, now, draw).writes != []
    ensures d.keyset.Some? && d.metadata.Some?
  {}

  lemma IssueKeeps(s: Sys, named: bool, lifetime: Time)
    requires Inv(s, lifetime) && Enabled(s, Issue(named))
    ensures Inv(Next(s, Issue(named), lifetime), lifetime)
  {
    hide PlanOf;
    var s' := Next(s, Issue(named), lifetime);
    var token := Signed(s.disk.keyset.value, named, s.clock + lifetime);
    assert Accepted(s') by {
      assert Verifies(s.disk.keyset.value, token);
      forall t | Live(s', t) ensures Verifies(s.disk.keyset.value, t) {
        assert t == token || Live(s, t);
      }
    }
    assert HasShape(s.disk, IsActive) && ValidMetadata(s.disk.metadata.value) ==> !Outgoing(s.disk.metadata.value, token);
    if s.flight.Some? && s.flight.value.cmd.Activate? && NextSigns(s.flight.value.origin) {
      var f := s.flight.value;
      ActivateKeepsNext(f.origin, f.cmd, f.readAt, f.draw, f.done);
      NextIsNotOutgoing(s.disk, s.clock, named, s.clock + lifetime);
    }
  }

  lemma StepKeeps(s: Sys, e: Event, lifetime: Time)
    requires Inv(s, lifetime) && Enabled(s, e) && Punctual(s, e, lifetime)
    ensures Inv(Next(s, e, lifetime), lifetime)
  {
    hide PlanOf, Verifies;
    match e
    case Tick(to) =>
      LaterIsGood(s.disk, s.clock, to);
      assert forall t :: Live(Next(s, e, lifetime), t) ==> Live(s, t);
    case Begin(_, _) =>
      assert forall t :: Live(Next(s, e, lifetime), t) ==> Live(s, t);
    case Land =>
      LandKeepsCourse(s, lifetime);
      LandKeepsAccepted(s, lifetime);
      LandKeepsGated(s, lifetime);
    case Stop =>
      assert forall t :: Live(Next(s, e, lifetime), t) ==> Live(s, t);
    case Issue(named) => IssueKeeps(s, named, lifetime);
  }

  // ---- Whole runs --------------------------------------------------------------------------

  lemma StepKeepsCourse(s: Sys, e: Event, lifetime: Time)
    requires OnCourse(s) && Enabled(s, e)
    ensures OnCourse(Next(s, e, lifetime))
  {
    hide PlanOf;
    match e
    case Tick(to) => LaterIsGood(s.disk, s.clock, to);
    case Begin(_, _) =>
    case Land => LandKeepsCourse(s, lifetime);
    case Stop =>
    case Issue(_) =>
  }

  lemma {:induction false} RunKeepsCourse(s: Sys, es: seq<Event>, lifetime: Time)
    requires OnCourse(s) && IsRun(s, es, lifetime)
    ensures OnCourse(End(s, es, lifetime))
    decreases |es|
  {
    if es != [] {
      StepKeepsCourse(s, es[0], lifetime);
      RunKeepsCourse(Next(s, es[0], lifetime), es[1..], lifetime);
    }
  }

  lemma StartIsOnCourse(clock: Time)
    requires 0 < clock
    ensures OnCourse(Start(clock))
  {
    assert HasShape(Start(clock).disk, Absent);
  }

  /**
   Every disk reached from nothing, whatever was cut and whenever, has one of the nine shapes (or
   none yet), and its keyset holds one or two keys, the signer's among them, with a legacy key that
   is absent or held too.
   */
  lemma ReachableDisks(clock: Time, es: seq<Event>, lifetime: Time)
    requires 0 < clock && IsRun(Start(clock), es, lifetime)
    ensures var d := End(Start(clock), es, lifetime).disk;
            && Shaped(d)
            && (d.keyset.Some? ==>
                  var k := d.keyset.value;
                  && 1 <= |k.keys| <= 2 && k.activeKid in k.keys
                  && (k.legacyKid == "" || k.legacyKid in k.keys))
  {
    StartIsOnCourse(clock);
    RunKeepsCourse(Start(clock), es, lifetime);
    var s := End(Start(clock), es, lifetime);
    assert OnCourse(s);
  }

  /** On every reachable disk, status and export-worker accept exactly the stable shapes. */
  lemma ReachableLoads(clock: Time, es: seq<Event>, lifetime: Time, shape: Shape)
    requires 0 < clock && IsRun(Start(clock), es, lifetime)
    requires HasShape(End(Start(clock), es, lifetime).disk, shape)
    ensures CheckState(End(Start(clock), es, lifetime).disk) == Completed <==> Stable(shape)
  {
    StartIsOnCourse(clock);
    RunKeepsCourse(Start(clock), es, lifetime);
    var s := End(Start(clock), es, lifetime);
    LoadAcceptsStableShapes(s.disk, shape, s.clock);
  }

  /** No step changes the secret of a kid that stays. */
  lemma StepKeepsSecrets(s: Sys, e: Event, lifetime: Time)
    requires OnCourse(s) && Enabled(s, e)
    ensures var s' := Next(s, e, lifetime);
            s.disk.keyset.Some? ==>
              && s'.disk.keyset.Some?
              && forall kid :: kid in s.disk.keyset.value.keys && kid in s'.disk.keyset.value.keys ==>
                   s'.disk.keyset.value.keys[kid] == s.disk.keyset.value.keys[kid]
  {
    hide PlanOf, Sound;
    if e.Land? {
      LandingKeyset(s);
    }
  }

  /** In every run, the next event changes the secret of no kid that stays. */
  lemma SecretsNeverChange(clock: Time, es: seq<Event>, e: Event, lifetime: Time)
    requires 0 < clock && IsRun(Start(clock), es, lifetime) && Enabled(End(Start(clock), es, lifetime), e)
    ensures var s := End(Start(clock), es, lifetime);
            var s' := Next(s, e, lifetime);
            s.disk.keyset.Some? ==>
              && s'.disk.keyset.Some?
              && forall kid :: kid in s.disk.keyset.value.keys && kid in s'.disk.keyset.value.keys ==>
                   s'.disk.keyset.value.keys[kid] == s.disk.keyset.value.keys[kid]
  {
    StartIsOnCourse(clock);
    RunKeepsCourse(Start(clock), es, lifetime);
    StepKeepsSecrets(End(Start(clock), es, lifetime), e, lifetime);
  }

  lemma {:induction false} RunKeeps(s: Sys, es: seq<Event>, lifetime: Time)
    requires Inv(s, lifetime) && IsRun(s, es, lifetime) && PunctualRun(s, es, lifetime)
    ensures Inv(End(s, es, lifetime), lifetime)
    decreases |es|
  {
    if es != [] {
      StepKeeps(s, es[0], lifetime);
      RunKeeps(Next(s, es[0], lifetime), es[1..], lifetime);
    }
  }

  /**
   Zero logout: at the end of every run of commands, cuts, waits and sign-ins in which each
   activate is punctual, every unexpired token is accepted by the keyset on disk.
   */
  lemma ZeroLogout(clock: Time, es: seq<Event>, lifetime: Time)
    requires 0 < clock && IsRun(Start(clock), es, lifetime) && PunctualRun(Start(clock), es, lifetime)
    ensures var s := End(Start(clock), es, lifetime);
            forall t :: t in s.tokens && s.clock < t.expiresAt ==>
              s.disk.keyset.Some? && Verifies(s.disk.keyset.value, t)
  {
    StartIsOnCourse(clock);
    RunKeeps(Start(clock), es, lifetime);
    var s := End(Start(clock), es, lifetime);
    forall t | t in s.tokens && s.clock < t.expiresAt
      ensures s.disk.keyset.Some? && Verifies(s.disk.keyset.value, t)
    {
      assert Live(s, t);
    }
  }

  // ---- The obligation is needed --------------------------------------------------------------

  lemma RunOn(s: Sys, es: seq<Event>, more: seq<Event>, lifetime: Time)
    requires IsRun(s, es, lifetime) && IsRun(End(s, es, lifetime), more, lifetime)
    ensures IsRun(s, es + more, lifetime)
    ensures End(s, es + more, lifetime) == End(End(s, es, lifetime), more, lifetime)
    decreases |es|
  {
    if es == [] {
      assert es + more == more;
    } else {
      assert (es + more)[1..] == es[1..] + more;
      RunOn(Next(s, es[0], lifetime), es[1..], more, lifetime);
    }
  }

  /** The last event of a run. */
  lemma RunStep(s: Sys, es: seq<Event>, e: Event, lifetime: Time)
    requires IsRun(s, es, lifetime) && Enabled(End(s, es, lifetime), e)
    ensures IsRun(s, es + [e], lifetime)
    ensures End(s, es + [e], lifetime) == Next(End(s, es, lifetime), e, lifetime)
  {
    var m := End(s, es, lifetime);
    assert IsRun(Next(m, e, lifetime), [e][1..], lifetime);
    assert IsRun(m, [e], lifetime) && End(m, [e], lifetime) == Next(m, e, lifetime);
    RunOn(s, es, [e], lifetime);
  }

  /** A command whose first `n` writes land, one after the other, and which then stops. */
  function Uninterrupted(cmd: Command, draw: Option<string>, n: nat): seq<Event> {
    [Begin(cmd, draw)] + seq(n, _ => Land) + [Stop]
  }

  lemma LandAll(s: Sys, cmd: Command, draw: Option<string>, n: nat, lifetime: Time)
    requires s.flight.None? && (draw.Some? ==> GeneratedSecret(draw.value))
    requires n <= |PlanOf(s.disk, cmd, s.clock, draw).writes|
    ensures var es := [Begin(cmd, draw)] + seq(n, _ => Land);
            && IsRun(s, es, lifetime)
            && End(s, es, lifetime) == s.(
                 disk := AfterWrites(s.disk, PlanOf(s.disk, cmd, s.clock, draw).writes, n),
                 flight := Some(Flight(cmd, s.clock, draw, s.disk, n)))
  {
    hide PlanOf;
    if n == 0 {
      RunStep(s, [], Begin(cmd, draw), lifetime);
      assert [Begin(cmd, draw)] + seq(0, _ => Land) == [] + [Begin(cmd, draw)];
    } else {
      LandAll(s, cmd, draw, n - 1, lifetime);
      var es := [Begin(cmd, draw)] + seq(n - 1, _ => Land);
      RunStep(s, es, Land, lifetime);
      assert es + [Land] == [Begin(cmd, draw)] + seq(n, _ => Land);
    }
  }

  lemma RunsUninterrupted(s: Sys, cmd: Command, draw: Option<string>, lifetime: Time)
    requires s.flight.None? && (draw.Some? ==> GeneratedSecret(draw.value))
    ensures var es := Uninterrupted(cmd, draw, |PlanOf(s.disk, cmd, s.clock, draw).writes|);
            && IsRun(s, es, lifetime)
            && End(s, es, lifetime) == s.(disk := Completion(s.disk, cmd, s.clock, draw))
  {
    hide PlanOf;
    var n := |PlanOf(s.disk, cmd, s.clock, draw).writes|;
    LandAll(s, cmd, draw, n, lifetime);
    RunStep(s, [Begin(cmd, draw)] + seq(n, _ => Land), Stop, lifetime);
  }

  /** The one token of the unpunctual run: signed under the old key just before the signer moves. */
  function LateToken(kid: string, secret: string, lag: Time, lifetime: Time): Token {
    Token(Some(kid), secret, 1 + lag + lifetime)
  }

  function LateSwitch(overlap: Time, lag: Time): seq<Event> {
    [Begin(Activate(overlap), None), Land] + [Tick(1 + lag)] + [Issue(true)] + [Land] + [Stop]
  }

  /**
   A whole rotation from an empty disk in which the activate lands its keyset write `lag` after it
   read the clock, and the operator retires as soon as the gate and the clock allow.
   */
  function LateRun(kid: string, secret: string, newKid: string, draw: string, overlap: Time, lag: Time): seq<Event> {
    (Uninterrupted(Bootstrap(kid, secret, true), None, 1) + Uninterrupted(Prepare(newKid), Some(draw), 2))
    + LateSwitch(overlap, lag)
    + ([Tick(Max(1 + lag, 1 + overlap))] + [Begin(Retire, None), Land])
  }

  /** What an unpunctual rotation is started with. */
  predicate LateInput(kid: string, secret: string, newKid: string, draw: string, overlap: Time, lag: Time, lifetime: Time) {
    && ValidKid(kid) && ValidKid(newKid) && kid != newKid
    && MIN_SECRET_BYTES <= |secret| && GeneratedSecret(draw) && draw != secret
    && 0 < lifetime && 0 <= lag && 0 < overlap < lifetime + lag
  }

  function Bootstrapped(kid: string, secret: string): Keyset {
    Keyset(KEYSET_VERSION, kid, kid, map[kid := secret])
  }

  function Overlapped(kid: string, secret: string, newKid: string, draw: string): Keyset {
    Keyset(KEYSET_VERSION, kid, kid, map[kid := secret, newKid := draw])
  }

  lemma LatePreparation(kid: string, secret: string, newKid: string, draw: string, lifetime: Time)
    requires ValidKid(kid) && ValidKid(newKid) && kid != newKid
    requires MIN_SECRET_BYTES <= |secret| && GeneratedSecret(draw) && draw != secret
    ensures var es := Uninterrupted(Bootstrap(kid, secret, true), None, 1) + Uninterrupted(Prepare(newKid), Some(draw), 2);
            var m := Metadata(METADATA_VERSION, Prepared, kid, newKid, 1, None, None, None, None);
            && IsRun(Start(1), es, lifetime) && PunctualRun(Start(1), es, lifetime)
            && End(Start(1), es, lifetime) == Sys(Disk(Some(Overlapped(kid, secret, newKid, draw)), Some(m)), 1, None, {})
            && ValidKeyset(Overlapped(kid, secret, newKid, draw))
  {
    var k := Bootstrapped(kid, secret);
    assert k.keys.Keys == {kid};
    Cardinalities(k, kid, newKid);
    var b := Bootstrap(kid, secret, true);
    assert PlanOf(Disk(None, None), b, 1, None) == Plan([PutKeyset(k)], Completed);
    RunsUninterrupted(Start(1), b, None, lifetime);
    var d := Disk(Some(k), None);
    assert Completion(Disk(None, None), b, 1, None) == d by {
      assert AfterWrites(Disk(None, None), [PutKeyset(k)], 1) == Apply(AfterWrites(Disk(None, None), [PutKeyset(k)], 0), PutKeyset(k));
    }
    var m := PreparedMetadata(k, newKid, 1);
    StartPlan(d, Fresh, newKid, 1, Some(draw));
    KeyAdded(k, m, Some(draw));
    var k' := k.(keys := k.keys[newKid := draw]);
    assert k' == Overlapped(kid, secret, newKid, draw);
    var writes := [PutMetadata(m), PutKeyset(k')];
    assert PlanOf(d, Prepare(newKid), 1, Some(draw)).writes == writes;
    assert AfterWrites(d, writes, 1) == Apply(AfterWrites(d, writes, 0), writes[0]);
    RunsUninterrupted(Sys(d, 1, None, {}), Prepare(newKid), Some(draw), lifetime);
    PromptRuns(Start(1), b, None, 1, lifetime);
    PromptRuns(Sys(d, 1, None, {}), Prepare(newKid), Some(draw), 2, lifetime);
    PunctualOn(Start(1), Uninterrupted(b, None, 1), Uninterrupted(Prepare(newKid), Some(draw), 2), lifetime);
  }

  lemma ActivationWrites(d: Disk, overlap: Time, now: Time)
    requires HasShape(d, IsPrepared) && Sound(d, now) && 0 < overlap
    ensures var k, m := d.keyset.value, d.metadata.value;
            PlanOf(d, Activate(overlap), now, None).writes
            == [PutMetadata(ActivatedMetadata(m, now, overlap)), PutKeyset(k.(activeKid := m.next))]
    ensures d.keyset.value.activeKid in d.keyset.value.keys
  {
    var k, m := d.keyset.value, d.metadata.value;
    Cardinalities(k, m.previous, m.next);
    ActivateWrites(k, m, overlap, now);
  }

  /** The activation of the late run, up to the moment a token signed late is about to be outlived. */
  lemma LateActivation(d: Disk, overlap: Time, lag: Time, lifetime: Time)
    requires d.keyset.Some? && d.metadata.Some? && d.keyset.value.activeKid in d.keyset.value.keys
    requires HasShape(d, IsPrepared) && Sound(d, 1) && 0 < overlap && 0 <= lag
    ensures var es := LateSwitch(overlap, lag);
            var k, m := d.keyset.value, d.metadata.value;
            var s := Sys(d, 1, None, {});
            && IsRun(s, es, lifetime)
            && End(s, es, lifetime) == Sys(Disk(Some(k.(activeKid := m.next)), Some(ActivatedMetadata(m, 1, overlap))), 1 + lag,
                                           None, {Signed(k, true, 1 + lag + lifetime)})
  {
    hide PlanOf, HasShape, Sound;
    var k, m := d.keyset.value, d.metadata.value;
    var s := Sys(d, 1, None, {});
    var cmd := Activate(overlap);
    ActivationWrites(d, overlap, 1);
    var m' := ActivatedMetadata(m, 1, overlap);
    var writes := [PutMetadata(m'), PutKeyset(k.(activeKid := m.next))];
    assert AfterWrites(d, writes, 1) == Apply(AfterWrites(d, writes, 0), writes[0]);
    LandAll(s, cmd, None, 1, lifetime);
    assert [Begin(cmd, None)] + seq(1, _ => Land) == [Begin(cmd, None), Land];
    var es := [Begin(cmd, None), Land];
    RunStep(s, es, Tick(1 + lag), lifetime);
    RunStep(s, es + [Tick(1 + lag)], Issue(true), lifetime);
    RunStep(s, es + [Tick(1 + lag)] + [Issue(true)], Land, lifetime);
    RunStep(s, es + [Tick(1 + lag)] + [Issue(true)] + [Land], Stop, lifetime);
  }

  lemma RetirementWrites(d: Disk, since: Time, at: Time)
    requires Sound(d, since) && HasShape(d, IsActive) && since <= at && !BeforeGate(d, at)
    ensures d.keyset.Some? && d.metadata.Some?
    ensures var k, m := d.keyset.value, d.metadata.value;
            PlanOf(d, Retire, at, None).writes == [PutKeyset(RetiredKeyset(k, m)), PutMetadata(RetiredMetadata(m, at))]
  {
    var k, m := d.keyset.value, d.metadata.value;
    Cardinalities(k, m.previous, m.next);
    RetireWrites(k, m, at);
  }

  /** Retirement drops the old key at the first write, as soon as the gate has passed. */
  lemma LateRetirement(s: Sys, at: Time, lifetime: Time)
    requires s.flight.None? && Sound(s.disk, s.clock) && HasShape(s.disk, IsActive)
    requires s.clock <= at && !BeforeGate(s.disk, at)
    ensures var es := [Tick(at)] + [Begin(Retire, None), Land];
            && IsRun(s, es, lifetime) && PunctualRun(s, es, lifetime)
            && var s' := End(s, es, lifetime);
               && s'.clock == at && s'.tokens == s.tokens
               && s'.disk.keyset == Some(RetiredKeyset(s.disk.keyset.value, s.disk.metadata.value))
  {
    hide PlanOf, HasShape, Sound, GeneratedSecret, IsRun, PunctualRun, End, BeforeGate, RetiredKeyset, RetiredMetadata;
    RetirementWrites(s.disk, s.clock, at);
    var k, m := s.disk.keyset.value, s.disk.metadata.value;
    var writes := [PutKeyset(RetiredKeyset(k, m)), PutMetadata(RetiredMetadata(m, at))];
    assert AfterWrites(s.disk, writes, 1) == Apply(AfterWrites(s.disk, writes, 0), writes[0]);
    var s' := s.(clock := at);
    EmptyRun(s, lifetime);
    PunctualStep(s, [], Tick(at), lifetime);
    assert [] + [Tick(at)] == [Tick(at)];
    PromptIsPunctual(s', Retire, None, 1, lifetime);
    assert [Begin(Retire, None)] + seq(1, _ => Land) == [Begin(Retire, None), Land];
    PunctualOn(s, [Tick(at)], [Begin(Retire, None), Land], lifetime);
  }

  lemma OneStep(s: Sys, e: Event, lifetime: Time)
    requires Enabled(s, e)
    ensures IsRun(s, [e], lifetime) && End(s, [e], lifetime) == Next(s, e, lifetime)
  {
    RunStep(s, [], e, lifetime);
    assert [] + [e] == [e];
  }

  /** The system when the late run has moved its signer. */
  function Switched(kid: string, secret: string, newKid: string, draw: string,
                    overlap: Time, lag: Time, lifetime: Time): Sys
  {
    var k := Overlapped(kid, secret, newKid, draw);
    var m := ActivatedMetadata(PreparedMetadata(k, newKid, 1), 1, overlap);
    Sys(Disk(Some(k.(activeKid := newKid)), Some(m)), 1 + lag, None, {LateToken(kid, secret, lag, lifetime)})
  }

  lemma LateSwitched(kid: string, secret: string, newKid: string, draw: string,
                     overlap: Time, lag: Time, lifetime: Time)
    requires LateInput(kid, secret, newKid, draw, overlap, lag, lifetime)
    ensures var es := (Uninterrupted(Bootstrap(kid, secret, true), None, 1) + Uninterrupted(Prepare(newKid), Some(draw), 2))
                      + LateSwitch(overlap, lag);
            && IsRun(Start(1), es, lifetime)
            && End(Start(1), es, lifetime) == Switched(kid, secret, newKid, draw, overlap, lag, lifetime)
    ensures var s := Switched(kid, secret, newKid, draw, overlap, lag, lifetime);
            Sound(s.disk, s.clock) && HasShape(s.disk, IsActive)
  {
    hide PlanOf, GeneratedSecret, IsRun, End;
    LatePreparation(kid, secret, newKid, draw, lifetime);
    var k := Overlapped(kid, secret, newKid, draw);
    var m := PreparedMetadata(k, newKid, 1);
    var d := Disk(Some(k), Some(m));
    assert k.keys.Keys == {kid, newKid};
    assert HasShape(d, IsPrepared) && Sound(d, 1);
    LateActivation(d, overlap, lag, lifetime);
    var m' := ActivatedMetadata(m, 1, overlap);
    TwoKeyShapes(k.(activeKid := newKid), m', newKid, 1 + lag);
    var es := Uninterrupted(Bootstrap(kid, secret, true), None, 1) + Uninterrupted(Prepare(newKid), Some(draw), 2);
    RunOn(Start(1), es, LateSwitch(overlap, lag), lifetime);
  }

  /**
   The obligation cannot be weakened: for every overlap shorter than the lifetime plus the lag of
   the activate, there is a run whose only activate has that overlap and that lag and whose last
   state rejects an unexpired token.
   */
  lemma ShortOverlapLogsOut(kid: string, secret: string, newKid: string, draw: string,
                            overlap: Time, lag: Time, lifetime: Time)
    requires LateInput(kid, secret, newKid, draw, overlap, lag, lifetime)
    ensures var es := LateRun(kid, secret, newKid, draw, overlap, lag);
            && IsRun(Start(1), es, lifetime)
            && var s := End(Start(1), es, lifetime);
               var t := LateToken(kid, secret, lag, lifetime);
               && t in s.tokens && s.clock < t.expiresAt
               && s.disk.keyset.Some? && !Verifies(s.disk.keyset.value, t)
  {
    hide PlanOf, Sound, HasShape;
    LateSwitched(kid, secret, newKid, draw, overlap, lag, lifetime);
    var s := Switched(kid, secret, newKid, draw, overlap, lag, lifetime);
    var at := Max(1 + lag, 1 + overlap);
    LateRetirement(s, at, lifetime);
    var es := Uninterrupted(Bootstrap(kid, secret, true), None, 1) + Uninterrupted(Prepare(newKid), Some(draw), 2);
    RunOn(Start(1), es + LateSwitch(overlap, lag), [Tick(at)] + [Begin(Retire, None), Land], lifetime);
  }

  // ---- The other half of the obligation ------------------------------------------------------

  lemma {:induction false} PunctualOn(s: Sys, es: seq<Event>, more: seq<Event>, lifetime: Time)
    requires IsRun(s, es, lifetime) && IsRun(End(s, es, lifetime), more, lifetime)
    requires PunctualRun(s, es, lifetime) && PunctualRun(End(s, es, lifetime), more, lifetime)
    ensures IsRun(s, es + more, lifetime) && PunctualRun(s, es + more, lifetime)
    ensures End(s, es + more, lifetime) == End(End(s, es, lifetime), more, lifetime)
    decreases |es|
  {
    hide Punctual, Next, Enabled;
    RunOn(s, es, more, lifetime);
    if es == [] {
      assert es + more == more;
    } else {
      assert (es + more)[1..] == es[1..] + more;
      PunctualOn(Next(s, es[0], lifetime), es[1..], more, lifetime);
    }
  }

  lemma PunctualStep(s: Sys, es: seq<Event>, e: Event, lifetime: Time)
    requires IsRun(s, es, lifetime) && PunctualRun(s, es, lifetime)
    requires Enabled(End(s, es, lifetime), e) && Punctual(End(s, es, lifetime), e, lifetime)
    ensures IsRun(s, es + [e], lifetime) && PunctualRun(s, es + [e], lifetime)
    ensures End(s, es + [e], lifetime) == Next(End(s, es, lifetime), e, lifetime)
  {
    hide Punctual, Next, Enabled;
    var m := End(s, es, lifetime);
    OneStep(m, e, lifetime);
    assert PunctualRun(Next(m, e, lifetime), [e][1..], lifetime);
    assert PunctualRun(m, [e], lifetime);
    PunctualOn(s, es, [e], lifetime);
  }

  /** A command that lands at once is punctual if it promises a lifetime. */
  lemma {:induction false} PromptIsPunctual(s: Sys, cmd: Command, draw: Option<string>, n: nat, lifetime: Time)
    requires s.flight.None? && (draw.Some? ==> GeneratedSecret(draw.value))
    requires n <= |PlanOf(s.disk, cmd, s.clock, draw).writes|
    requires cmd.Activate? ==> lifetime <= cmd.overlap
    ensures var es := [Begin(cmd, draw)] + seq(n, _ => Land);
            && IsRun(s, es, lifetime) && PunctualRun(s, es, lifetime)
            && End(s, es, lifetime) == s.(
                 disk := AfterWrites(s.disk, PlanOf(s.disk, cmd, s.clock, draw).writes, n),
                 flight := Some(Flight(cmd, s.clock, draw, s.disk, n)))
  {
    hide PlanOf, IsRun, PunctualRun, End;
    LandAll(s, cmd, draw, n, lifetime);
    if n == 0 {
      EmptyRun(s, lifetime);
      PunctualStep(s, [], Begin(cmd, draw), lifetime);
      assert [Begin(cmd, draw)] + seq(0, _ => Land) == [] + [Begin(cmd, draw)];
    } else {
      PromptIsPunctual(s, cmd, draw, n - 1, lifetime);
      var es := [Begin(cmd, draw)] + seq(n - 1, _ => Land);
      PunctualStep(s, es, Land, lifetime);
      assert es + [Land] == [Begin(cmd, draw)] + seq(n, _ => Land);
    }
  }

  lemma EmptyRun(s: Sys, lifetime: Time)
    ensures IsRun(s, [], lifetime) && PunctualRun(s, [], lifetime) && End(s, [], lifetime) == s
  {}

  lemma PromptRuns(s: Sys, cmd: Command, draw: Option<string>, n: nat, lifetime: Time)
    requires s.flight.None? && (draw.Some? ==> GeneratedSecret(draw.value))
    requires n <= |PlanOf(s.disk, cmd, s.clock, draw).writes|
    requires cmd.Activate? ==> lifetime <= cmd.overlap
    ensures var es := Uninterrupted(cmd, draw, n);
            && IsRun(s, es, lifetime) && PunctualRun(s, es, lifetime)
            && End(s, es, lifetime) == s.(disk := AfterWrites(s.disk, PlanOf(s.disk, cmd, s.clock, draw).writes, n))
  {
    hide PlanOf, IsRun, PunctualRun, End;
    PromptIsPunctual(s, cmd, draw, n, lifetime);
    PunctualStep(s, [Begin(cmd, draw)] + seq(n, _ => Land), Stop, lifetime);
  }

  /**
   The rotation of the second witness: a token is signed, an activate with an overlap of one lifetime
   moves the signer at once, and a rollback is cut after its metadata write.
   */
  function UpToCutRollback(kid: string, secret: string, newKid: string, draw: string, lifetime: Time): seq<Event> {
    (Uninterrupted(Bootstrap(kid, secret, true), None, 1) + Uninterrupted(Prepare(newKid), Some(draw), 2))
    + [Issue(true)] + Uninterrupted(Activate(lifetime), None, 2) + Uninterrupted(Rollback, None, 1)
  }

  /** The system after the cut rollback: the new key signs, under rolled-back metadata. */
  function CutRollback(kid: string, secret: string, newKid: string, draw: string, lifetime: Time): Sys {
    var k := Overlapped(kid, secret, newKid, draw);
    var m := ActivatedMetadata(PreparedMetadata(k, newKid, 1), 1, lifetime);
    Sys(Disk(Some(k.(activeKid := newKid)), Some(RolledBackMetadata(m, 1))), 1, None, {Token(Some(kid), secret, 1 + lifetime)})
  }

  /** Signing, activating at once and rolling back up to the metadata, from the prepared disk. */
  lemma SignAndSwitch(k: Keyset, m: Metadata, lifetime: Time)
    requires ValidKeyset(k) && ValidMetadata(m) && m.phase.Prepared? && m.preparedAt <= 1 && 0 < lifetime
    requires k.activeKid == m.previous && k.keys.Keys == {m.previous, m.next}
    ensures var s := Sys(Disk(Some(k), Some(m)), 1, None, {});
            var es := [Issue(true)] + Uninterrupted(Activate(lifetime), None, 2) + Uninterrupted(Rollback, None, 1);
            && IsRun(s, es, lifetime) && PunctualRun(s, es, lifetime)
            && End(s, es, lifetime) == Sys(
                 Disk(Some(k.(activeKid := m.next)), Some(RolledBackMetadata(ActivatedMetadata(m, 1, lifetime), 1))), 1, None,
                 {Token(Some(m.previous), k.keys[m.previous], 1 + lifetime)})
  {
    var s := Sys(Disk(Some(k), Some(m)), 1, None, {});
    var m', k' := ActivatedMetadata(m, 1, lifetime), k.(activeKid := m.next);
    var m'' := RolledBackMetadata(m', 1);
    Cardinalities(k, m.previous, m.next);
    Cardinalities(k', m.previous, m.next);
    ActivateWrites(k, m, lifetime, 1);
    RollbackWrites(k', m', 1);
    var s1 := Next(s, Issue(true), lifetime);
    var s2 := s1.(disk := Disk(Some(k'), Some(m')));
    assert PlanOf(s1.disk, Activate(lifetime), 1, None).writes == [PutMetadata(m'), PutKeyset(k')];
    assert PlanOf(s2.disk, Rollback, 1, None).writes[0] == PutMetadata(m'');
    SwitchRuns(s, s1, s2, m', k', m'', lifetime);
  }

  lemma SwitchRuns(s: Sys, s1: Sys, s2: Sys, m': Metadata, k': Keyset, m'': Metadata, lifetime: Time)
    requires s.clock == 1 && s.flight.None? && 0 < lifetime && Enabled(s, Issue(true)) && s1 == Next(s, Issue(true), lifetime)
    requires s2 == s1.(disk := Disk(Some(k'), Some(m')))
    requires PlanOf(s1.disk, Activate(lifetime), 1, None).writes == [PutMetadata(m'), PutKeyset(k')]
    requires var writes := PlanOf(s2.disk, Rollback, 1, None).writes; |writes| > 0 && writes[0] == PutMetadata(m'')
    ensures var es := [Issue(true)] + Uninterrupted(Activate(lifetime), None, 2) + Uninterrupted(Rollback, None, 1);
            && IsRun(s, es, lifetime) && PunctualRun(s, es, lifetime)
            && End(s, es, lifetime) == s2.(disk := Disk(Some(k'), Some(m'')))
  {
    hide PlanOf, IsRun, PunctualRun, End, ActivatedMetadata, RolledBackMetadata;
    EmptyRun(s, lifetime);
    PunctualStep(s, [], Issue(true), lifetime);
    assert [] + [Issue(true)] == [Issue(true)];
    MetadataThenKeyset(s1.disk, m', k');
    PromptRuns(s1, Activate(lifetime), None, 2, lifetime);
    PunctualOn(s, [Issue(true)], Uninterrupted(Activate(lifetime), None, 2), lifetime);
    FirstLands(s2.disk, PlanOf(s2.disk, Rollback, 1, None).writes);
    PromptRuns(s2, Rollback, None, 1, lifetime);
    PunctualOn(s, [Issue(true)] + Uninterrupted(Activate(lifetime), None, 2), Uninterrupted(Rollback, None, 1), lifetime);
  }

  /** What the second witness ends with: an activate cut after its metadata write, and the retirement at its gate. */
  function AfterCutActivate(overlap: Time): seq<Event> {
    [Stop] + ([Tick(1 + overlap)] + [Begin(Retire, None), Land])
  }

  lemma PrimedByRollback(kid: string, secret: string, newKid: string, draw: string, lifetime: Time)
    requires ValidKid(kid) && ValidKid(newKid) && kid != newKid && 0 < lifetime
    requires MIN_SECRET_BYTES <= |secret| && GeneratedSecret(draw) && draw != secret
    ensures var es := UpToCutRollback(kid, secret, newKid, draw, lifetime);
            && IsRun(Start(1), es, lifetime) && PunctualRun(Start(1), es, lifetime)
            && End(Start(1), es, lifetime) == CutRollback(kid, secret, newKid, draw, lifetime)
  {
    hide PlanOf, GeneratedSecret, IsRun, PunctualRun, End;
    var k := Overlapped(kid, secret, newKid, draw);
    var m := PreparedMetadata(k, newKid, 1);
    LatePreparation(kid, secret, newKid, draw, lifetime);
    assert k.keys.Keys == {kid, newKid};
    SignAndSwitch(k, m, lifetime);
    var first := Uninterrupted(Bootstrap(kid, secret, true), None, 1) + Uninterrupted(Prepare(newKid), Some(draw), 2);
    var second := [Issue(true)] + Uninterrupted(Activate(lifetime), None, 2) + Uninterrupted(Rollback, None, 1);
    PunctualOn(Start(1), first, second, lifetime);
    assert first + second == UpToCutRollback(kid, secret, newKid, draw, lifetime);
  }

  /** After the cut rollback another activate, with whatever overlap, writes metadata under which the disk is active. */
  lemma CutActivate(s: Sys, overlap: Time, lifetime: Time)
    requires s.flight.None? && s.clock == 1 && HasShape(s.disk, RollbackCut) && Sound(s.disk, 1) && 0 < overlap
    ensures var m := ActivatedMetadata(s.disk.metadata.value, 1, overlap);
            && PlanOf(s.disk, Activate(overlap), 1, None).writes
               == [PutMetadata(m), PutKeyset(s.disk.keyset.value.(activeKid := m.next))]
            && NextSigns(s.disk)
            && var d := Disk(s.disk.keyset, Some(m));
               HasShape(d, IsActive) && Sound(d, 1) && d == Apply(s.disk, PutMetadata(m))
  {
    var k, m := s.disk.keyset.value, s.disk.metadata.value;
    Cardinalities(k, m.previous, m.next);
    ActivateWrites(k, m, overlap, 1);
    TwoKeyShapes(k, ActivatedMetadata(m, 1, overlap), m.next, 1);
  }

  lemma CutActivateRuns(s: Sys, overlap: Time, lifetime: Time)
    requires s.flight.None? && s.clock == 1 && HasShape(s.disk, RollbackCut) && Sound(s.disk, 1) && 0 < overlap
    ensures var begun := Next(s, Begin(Activate(overlap), None), lifetime);
            && Enabled(begun, Land) && Writes(begun.flight.value)[0].PutMetadata?
            && (Punctual(begun, Land, lifetime) <==> lifetime <= overlap)
            && var landed := Next(begun, Land, lifetime);
               && IsRun(landed, AfterCutActivate(overlap), lifetime)
               && PunctualRun(landed, AfterCutActivate(overlap), lifetime)
               && var s' := End(landed, AfterCutActivate(overlap), lifetime);
                  && s'.clock == 1 + overlap && s'.tokens == s.tokens
                  && s'.disk.keyset == Some(RetiredKeyset(s.disk.keyset.value, s.disk.metadata.value))
  {
    hide HasShape, Sound, PlanOf;
    CutActivate(s, overlap, lifetime);
    var begun := Next(s, Begin(Activate(overlap), None), lifetime);
    var landed := Next(begun, Land, lifetime);
    var stopped := Next(landed, Stop, lifetime);
    assert stopped.disk.metadata.value.retireNotBefore == Some(1 + overlap);
    LateRetirement(stopped, 1 + overlap, lifetime);
    EmptyRun(landed, lifetime);
    PunctualStep(landed, [], Stop, lifetime);
    assert [] + [Stop] == [Stop];
    PunctualOn(landed, [Stop], [Tick(1 + overlap)] + [Begin(Retire, None), Land], lifetime);
  }

  /**
   The other half cannot be weakened either: for every overlap shorter than a lifetime there is a run,
   punctual but for the metadata write of an activate that is cut right after it, whose last state
   rejects an unexpired token.
   */
  lemma CutActivateLogsOut(kid: string, secret: string, newKid: string, draw: string, overlap: Time, lifetime: Time)
    requires LateInput(kid, secret, newKid, draw, overlap, 0, lifetime)
    ensures var before := UpToCutRollback(kid, secret, newKid, draw, lifetime) + [Begin(Activate(overlap), None)];
            && IsRun(Start(1), before, lifetime) && PunctualRun(Start(1), before, lifetime)
            && var s := End(Start(1), before, lifetime);
               && Enabled(s, Land) && Writes(s.flight.value)[0].PutMetadata? && !Punctual(s, Land, lifetime)
               && var landed, rest := Next(s, Land, lifetime), AfterCutActivate(overlap);
                  && IsRun(landed, rest, lifetime) && PunctualRun(landed, rest, lifetime)
                  && var s', t := End(landed, rest, lifetime), Token(Some(kid), secret, 1 + lifetime);
                     && t in s'.tokens && s'.clock < t.expiresAt
                     && s'.disk.keyset.Some? && !Verifies(s'.disk.keyset.value, t)
  {
    hide PlanOf, IsRun, PunctualRun, End;
    PrimedByRollback(kid, secret, newKid, draw, lifetime);
    var s := CutRollback(kid, secret, newKid, draw, lifetime);
    assert s.disk.keyset.value.keys.Keys == {kid, newKid};
    LatePreparation(kid, secret, newKid, draw, lifetime);
    TwoKeyShapes(s.disk.keyset.value, s.disk.metadata.value, newKid, 1);
    CutActivateRuns(s, overlap, lifetime);
    CutActivateRuns(s, lifetime, lifetime);
    PunctualStep(Start(1), UpToCutRollback(kid, secret, newKid, draw, lifetime), Begin(Activate(overlap), None), lifetime);
  }
}
