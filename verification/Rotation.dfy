/**
 The rotation commands of jwt-keyset, each described by the file writes it makes and by what it
 reports when all of them succeed.
 */
module Rotation {
  import opened Common
  import opened Keysets

  const METADATA_VERSION := 1
  const ZERO_TIME: Time := 0
  const GENERATED_SECRET_CHARS := 43

  datatype Phase = Prepared | Active | RolledBack | Retired | Unknown(name: string)

  datatype Metadata = Metadata(
    version: int,
    phase: Phase,
    previous: string,
    next: string,
    preparedAt: Time,
    activatedAt: Option<Time>,
    retireNotBefore: Option<Time>,
    rolledBackAt: Option<Time>,
    retiredAt: Option<Time>)

  /** The two files: each is replaced atomically, the pair is not. */
  datatype Disk = Disk(keyset: Option<Keyset>, metadata: Option<Metadata>)

  datatype Error = InvalidKeyset | InvalidState | Usage | NotFound | AlreadyExists | Random | WriteFailed

  datatype Outcome = Completed | Failed(error: Error)

  datatype Write = PutKeyset(keyset: Keyset) | PutMetadata(metadata: Metadata)

  /** What a command will write, in order, and what it reports once all its writes succeeded. */
  datatype Plan = Plan(writes: seq<Write>, outcome: Outcome)

  datatype Command =
    | Bootstrap(kid: string, secret: string, utf8: bool)
    | Prepare(newKid: string)
    | Activate(overlap: Time)
    | Rollback
    | Retire

  // ---- Validation -------------------------------------------------------------------------

  predicate ValidHeader(m: Metadata) {
    && m.version == METADATA_VERSION
    && ValidKid(m.previous)
    && ValidKid(m.next)
    && m.previous != m.next
    && m.preparedAt != ZERO_TIME
  }

  predicate ValidActivationTimes(m: Metadata) {
    && m.activatedAt.Some? && m.retireNotBefore.Some?
    && m.preparedAt <= m.activatedAt.value < m.retireNotBefore.value
  }

  predicate ValidMetadata(m: Metadata) {
    && ValidHeader(m)
    && match m.phase
       case Prepared =>
         m.activatedAt.None? && m.retireNotBefore.None? && m.rolledBackAt.None? && m.retiredAt.None?
       case Active =>
         ValidActivationTimes(m) && m.rolledBackAt.None? && m.retiredAt.None?
       case RolledBack =>
         && ValidActivationTimes(m)
         && m.rolledBackAt.Some? && m.activatedAt.value <= m.rolledBackAt.value
         && m.retiredAt.None?
       case Retired =>
         && ValidActivationTimes(m)
         && m.rolledBackAt.None?
         && m.retiredAt.Some? && m.retireNotBefore.value <= m.retiredAt.value
       case Unknown(_) => false
  }

  predicate BothKeys(k: Keyset, m: Metadata) {
    m.previous in k.keys && m.next in k.keys && |k.keys| == 2
  }

  predicate PreviousSigner(k: Keyset, m: Metadata) {
    k.activeKid == m.previous && BothKeys(k, m)
  }

  predicate NextSigner(k: Keyset, m: Metadata) {
    k.activeKid == m.next && BothKeys(k, m)
  }

  predicate RetiredSigner(k: Keyset, m: Metadata) {
    k.activeKid == m.next && m.previous !in k.keys && m.next in k.keys && |k.keys| == 1 && k.legacyKid == ""
  }

  /** validateRotationState: the check between the keyset and its metadata. */
  function CheckRotationState(k: Keyset, m: Option<Metadata>): Outcome {
    if !ValidKeyset(k) then Failed(InvalidKeyset)
    else if m.None? then (if |k.keys| == 1 then Completed else Failed(InvalidState))
    else if !ValidMetadata(m.value) then Failed(InvalidState)
    else
      var matches := match m.value.phase
        case Prepared => PreviousSigner(k, m.value)
        case RolledBack => PreviousSigner(k, m.value)
        case Active => NextSigner(k, m.value)
        case Retired => RetiredSigner(k, m.value)
        case Unknown(_) => true;
      if matches then Completed else Failed(InvalidState)
  }

  predicate StableForPrepare(k: Keyset, m: Option<Metadata>) {
    && |k.keys| == 1
    && (m.Some? ==> m.value.phase.Retired? && RetiredSigner(k, m.value))
  }

  predicate PreparedFiles(k: Keyset, m: Metadata) {
    && ValidKeyset(k)
    && m.phase.Prepared?
    && k.activeKid == m.previous
    && m.previous in k.keys
    && (if m.next in k.keys then |k.keys| == 2 else |k.keys| == 1)
  }

  predicate DualKeys(k: Keyset, m: Metadata) {
    ValidKeyset(k) && BothKeys(k, m) && (k.activeKid == m.previous || k.activeKid == m.next)
  }

  predicate GeneratedSecret(s: string) {
    |s| == GENERATED_SECRET_CHARS && forall i | 0 <= i < |s| :: KidChar(s[i])
  }

  // ---- Loading ----------------------------------------------------------------------------

  /** loadRotationFiles: each file on its own is readable and well formed. */
  function CheckFiles(d: Disk): Outcome {
    if d.keyset.None? then Failed(NotFound)
    else if !ValidKeyset(d.keyset.value) then Failed(InvalidKeyset)
    else if d.metadata.Some? && !ValidMetadata(d.metadata.value) then Failed(InvalidState)
    else Completed
  }

  /** loadRotationState: the two files also agree; status and export-worker start here. */
  function CheckState(d: Disk): Outcome {
    if CheckFiles(d).Failed? then CheckFiles(d) else CheckRotationState(d.keyset.value, d.metadata)
  }

  // ---- Commands ---------------------------------------------------------------------------

  function Refuse(error: Error): Plan {
    Plan([], Failed(error))
  }

  function PreparedMetadata(k: Keyset, newKid: string, now: Time): Metadata {
    Metadata(METADATA_VERSION, Prepared, k.activeKid, newKid, now, None, None, None, None)
  }

  function ActivatedMetadata(m: Metadata, now: Time, overlap: Time): Metadata {
    m.(phase := Active, activatedAt := Some(now), retireNotBefore := Some(now + overlap),
       rolledBackAt := None, retiredAt := None)
  }

  function RolledBackMetadata(m: Metadata, now: Time): Metadata {
    m.(phase := RolledBack, rolledBackAt := Some(now))
  }

  function RetiredMetadata(m: Metadata, now: Time): Metadata {
    if m.phase.Retired? then m else m.(phase := Retired, retiredAt := Some(now))
  }

  function RetiredKeyset(k: Keyset, m: Metadata): Keyset {
    if m.previous in k.keys then k.(keys := k.keys - {m.previous}, legacyKid := "") else k
  }

  function BootstrapPlan(d: Disk, kid: string, secret: string, utf8: bool): Plan {
    var k := Keyset(KEYSET_VERSION, kid, kid, map[kid := secret]);
    if |secret| < MIN_SECRET_BYTES || !utf8 || !ValidKeyset(k) then Refuse(InvalidKeyset)
    else if d.keyset.Some? then Refuse(AlreadyExists)
    else Plan([PutKeyset(k)], Completed)
  }

  /** The tail of prepare: draw a secret, add it under the next kid, write the keyset. */
  function FinishPrepare(k: Keyset, m: Metadata, draw: Option<string>, before: seq<Write>): Plan {
    if draw.None? then Plan(before, Failed(Random))
    else
      var k' := k.(keys := k.keys[m.next := draw.value]);
      var check := CheckRotationState(k', Some(m));
      if check.Failed? then Plan(before, check) else Plan(before + [PutKeyset(k')], Completed)
  }

  function PreparePlan(k: Keyset, m: Option<Metadata>, newKid: string, now: Time, draw: Option<string>): Plan {
    if m.Some? && m.value.phase.Prepared? then
      if m.value.next != newKid || !PreparedFiles(k, m.value) then Refuse(InvalidState)
      else if newKid in k.keys then Plan([], Completed)
      else FinishPrepare(k, m.value, draw, [])
    else if !StableForPrepare(k, m) || newKid in k.keys then Refuse(InvalidState)
    else
      var m' := PreparedMetadata(k, newKid, now);
      FinishPrepare(k, m', draw, [PutMetadata(m')])
  }

  function ActivatePlan(k: Keyset, m: Option<Metadata>, overlap: Time, now: Time): Plan {
    if m.None? then Refuse(InvalidState)
    else if m.value.phase.Active? && NextSigner(k, m.value) then Plan([], Completed)
    else if m.value.phase.Retired? || !DualKeys(k, m.value) then Refuse(InvalidState)
    else
      var m' := ActivatedMetadata(m.value, now, overlap);
      if !ValidMetadata(m') then Refuse(InvalidState)
      else
        var k' := k.(activeKid := m'.next);
        var check := CheckRotationState(k', Some(m'));
        if check.Failed? then Plan([PutMetadata(m')], check)
        else Plan([PutMetadata(m'), PutKeyset(k')], Completed)
  }

  function RollbackPlan(k: Keyset, m: Option<Metadata>, now: Time): Plan
    requires m.Some? ==> ValidMetadata(m.value)
  {
    if m.None? || !(m.value.phase.Active? || m.value.phase.RolledBack?) || !DualKeys(k, m.value) then
      Refuse(InvalidState)
    else if m.value.phase.RolledBack? && k.activeKid == m.value.previous then Plan([], Completed)
    else if m.value.phase.Active? && m.value.retireNotBefore.value <= now then Refuse(InvalidState)
    else
      var m' := if m.value.phase.Active? then RolledBackMetadata(m.value, now) else m.value;
      if !ValidMetadata(m') then Refuse(InvalidState)
      else
        var before := if m.value.phase.Active? then [PutMetadata(m')] else [];
        var k' := k.(activeKid := m'.previous);
        var check := CheckRotationState(k', Some(m'));
        if check.Failed? then Plan(before, check) else Plan(before + [PutKeyset(k')], Completed)
  }

  function RetirePlan(k: Keyset, m: Option<Metadata>, now: Time): Plan
    requires m.Some? ==> ValidMetadata(m.value)
  {
    if m.None? || !(m.value.phase.Active? || m.value.phase.Retired?) then Refuse(InvalidState)
    else if m.value.phase.Retired? && RetiredSigner(k, m.value) then Plan([], Completed)
    else if now < m.value.retireNotBefore.value || k.activeKid != m.value.next then Refuse(InvalidState)
    else
      var k' := RetiredKeyset(k, m.value);
      if m.value.previous in k.keys && !ValidKeyset(k') then Refuse(InvalidKeyset)
      else
        var before := if m.value.previous in k.keys then [PutKeyset(k')] else [];
        var m' := RetiredMetadata(m.value, now);
        var check := CheckRotationState(k', Some(m'));
        if check.Failed? then Plan(before, check) else Plan(before + [PutMetadata(m')], Completed)
  }

  predicate ValidOptions(cmd: Command) {
    match cmd
    case Bootstrap(kid, _, _) => ValidKid(kid)
    case Prepare(newKid) => ValidKid(newKid)
    case Activate(overlap) => 0 < overlap
    case Rollback => true
    case Retire => true
  }

  /** What a command does on a disk, when it reads the clock at `now` and draws `draw`. */
  function PlanOf(d: Disk, cmd: Command, now: Time, draw: Option<string>): Plan {
    if !ValidOptions(cmd) then Refuse(Usage)
    else if cmd.Bootstrap? then BootstrapPlan(d, cmd.kid, cmd.secret, cmd.utf8)
    else if CheckFiles(d).Failed? then Refuse(CheckFiles(d).error)
    else
      var k := d.keyset.value;
      match cmd
      case Prepare(newKid) => PreparePlan(k, d.metadata, newKid, now, draw)
      case Activate(overlap) => ActivatePlan(k, d.metadata, overlap, now)
      case Rollback => RollbackPlan(k, d.metadata, now)
      case Retire => RetirePlan(k, d.metadata, now)
  }

  // ---- Executing a plan -------------------------------------------------------------------

  function Apply(d: Disk, w: Write): Disk {
    match w
    case PutKeyset(k) => d.(keyset := Some(k))
    case PutMetadata(m) => d.(metadata := Some(m))
  }

  /** The disk once the first `n` of `writes` took effect. */
  function AfterWrites(d: Disk, writes: seq<Write>, n: nat): Disk
    requires n <= |writes|
  {
    if n == 0 then d else Apply(AfterWrites(d, writes, n - 1), writes[n - 1])
  }

  /** The disk after the command ran to its end with every write succeeding. */
  function Completion(d: Disk, cmd: Command, now: Time, draw: Option<string>): Disk {
    var writes := PlanOf(d, cmd, now, draw).writes;
    AfterWrites(d, writes, |writes|)
  }

  /** How many of `n <= 2` planned writes take effect; the command stops at the first error. */
  function Landed(n: nat, first: WriteResult, second: WriteResult): nat
    requires n <= 2
  {
    if n == 0 || first.Lost? then 0
    else if n == 1 || first.Unconfirmed? || second.Lost? then 1
    else 2
  }

  function Reported(plan: Plan, first: WriteResult, second: WriteResult): Outcome {
    if (|plan.writes| >= 1 && !first.Written?) || (|plan.writes| >= 2 && !second.Written?)
    then Failed(WriteFailed) else plan.outcome
  }

  lemma FirstLands(d: Disk, writes: seq<Write>)
    requires |writes| > 0
    ensures AfterWrites(d, writes, 1) == Apply(d, writes[0])
  {
    assert AfterWrites(d, writes, 1) == Apply(AfterWrites(d, writes, 0), writes[0]);
  }

  lemma WritesLand(d: Disk, writes: seq<Write>)
    ensures AfterWrites(d, writes, 0) == d
    ensures |writes| >= 1 ==> AfterWrites(d, writes, 1) == Apply(d, writes[0])
    ensures |writes| >= 2 ==> AfterWrites(d, writes, 2) == Apply(Apply(d, writes[0]), writes[1])
  {
    if |writes| >= 1 {
      FirstLands(d, writes);
    }
  }

  lemma MetadataThenKeyset(d: Disk, m: Metadata, k: Keyset)
    ensures AfterWrites(d, [PutMetadata(m), PutKeyset(k)], 2) == Disk(Some(k), Some(m))
  {
    FirstLands(d, [PutMetadata(m), PutKeyset(k)]);
  }

  lemma FinishAfterMetadata(d: Disk, k: Keyset, m: Metadata, draw: Option<string>, n: nat)
    requires n <= |FinishPrepare(k, m, draw, []).writes|
    ensures n + 1 <= |FinishPrepare(k, m, draw, [PutMetadata(m)]).writes|
    ensures AfterWrites(Apply(d, PutMetadata(m)), FinishPrepare(k, m, draw, []).writes, n)
         == AfterWrites(d, FinishPrepare(k, m, draw, [PutMetadata(m)]).writes, n + 1)
  {
    var writes := FinishPrepare(k, m, draw, [PutMetadata(m)]).writes;
    assert AfterWrites(d, writes, 1) == Apply(d, PutMetadata(m));
    if n == 1 {
      assert AfterWrites(d, writes, 2) == Apply(AfterWrites(d, writes, 1), writes[1]);
    }
  }
}
