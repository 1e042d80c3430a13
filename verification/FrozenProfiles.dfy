/**
 The normalization contract: once a search-key profile is on the base branch, its five artifacts are
 frozen, and the active selectors may only move to the next version together with its five artifacts.
 */
module FrozenProfiles {
  import opened Common
  import Decimals

  const ACTIVE_GO := "internal/quranutil/normalize.go"
  const ACTIVE_PYTHON := "scripts/langextract_kg/search_key.py"

  /** The files of one commit. */
  type Tree = map<string, string>

  /**
   How the selector files are read: the number after ProfileVersion in the Go selector, and whether a
   selector of either language picks a given version.
   */
  datatype Reader = Reader(
    profileVersion: string -> Option<nat>,
    goSelects: (string, nat) -> bool,
    pythonSelects: (string, nat) -> bool)

  datatype Violation =
    | InitialVersion | InitialMissing(path: string) | GoSelector | PythonSelector
    | IncompleteBaseline | Unreadable | BaseMissing(path: string) | FrozenChanged(path: string)
    | VersionOnlyChanged | WrongIncrement | AlreadyOnBase(path: string) | NewMissing(path: string)

  function VersionedPaths(version: nat): (r: seq<string>)
    ensures |r| == 5
  {
    var v := Decimals.Print(version);
    ["internal/quranutil/normalize_v" + v + ".go",
     "internal/quranutil/normalization_v" + v + "_vectors.json",
     "internal/quranutil/normalization_v" + v + "_unicode_ranges.json",
     "internal/quranutil/normalization_v" + v + "_unicode_ranges_gen.go",
     "scripts/langextract_kg/search_key_v" + v + ".py"]
  }

  function ReadAt(tree: Tree, path: string): Option<string> {
    if path in tree then Some(tree[path]) else None
  }

  function ProfileVersion(reader: Reader, tree: Tree): Option<nat> {
    if ACTIVE_GO in tree then reader.profileVersion(tree[ACTIVE_GO]) else None
  }

  predicate GoSelects(reader: Reader, tree: Tree, version: nat) {
    ACTIVE_GO in tree && reader.goSelects(tree[ACTIVE_GO], version)
  }

  predicate PythonSelects(reader: Reader, tree: Tree, version: nat) {
    ACTIVE_PYTHON in tree && reader.pythonSelects(tree[ACTIVE_PYTHON], version)
  }

  // ---- What an accepted change is ---------------------------------------------------------

  predicate Complete(tree: Tree, version: nat) {
    forall i :: 0 <= i < 5 ==> VersionedPaths(version)[i] in tree
  }

  predicate Absent(tree: Tree, version: nat) {
    forall i :: 0 <= i < 5 ==> VersionedPaths(version)[i] !in tree
  }

  /** All artifacts of a version are there, byte for byte as before. */
  predicate Kept(base: Tree, head: Tree, version: nat) {
    Complete(base, version)
    && forall i :: 0 <= i < 5 ==> ReadAt(head, VersionedPaths(version)[i]) == ReadAt(base, VersionedPaths(version)[i])
  }

  /** The tree is at `version`: both selectors pick it and its artifacts are there. */
  predicate At(reader: Reader, tree: Tree, version: nat) {
    && ProfileVersion(reader, tree) == Some(version)
    && Complete(tree, version) && GoSelects(reader, tree, version) && PythonSelects(reader, tree, version)
  }

  predicate SameSelectors(base: Tree, head: Tree) {
    ReadAt(head, ACTIVE_GO) == ReadAt(base, ACTIVE_GO) && ReadAt(head, ACTIVE_PYTHON) == ReadAt(base, ACTIVE_PYTHON)
  }

  ghost predicate Accepted(reader: Reader, base: Tree, head: Tree) {
    if Absent(base, 1) then At(reader, head, 1)
    else
      && Complete(base, 1)
      && ProfileVersion(reader, base).Some? && ProfileVersion(reader, head).Some?
      && var was, now := ProfileVersion(reader, base).value, ProfileVersion(reader, head).value;
         && (forall version: nat :: 1 <= version <= was ==> Kept(base, head, version))
         && (SameSelectors(base, head) || (now == was + 1 && Absent(base, now) && At(reader, head, now)))
  }

  /** The paths of different versions differ. */
  lemma PathsDiffer(v: nat, w: nat, i: nat)
    requires i < 5 && VersionedPaths(v)[i] == VersionedPaths(w)[i]
    ensures v == w
  {
    var a, b := Decimals.Print(v), Decimals.Print(w);
    var ends := [".go", "_vectors.json", "_unicode_ranges.json", "_unicode_ranges_gen.go", ".py"];
    var starts := ["internal/quranutil/normalize_v", "internal/quranutil/normalization_v", "internal/quranutil/normalization_v",
                   "internal/quranutil/normalization_v", "scripts/langextract_kg/search_key_v"];
    MiddleIsEqual(starts[i], a, b, ends[i]);
    Decimals.PrintIsNumeral(v);
    Decimals.PrintIsNumeral(w);
  }

  lemma MiddleIsEqual(start: string, a: string, b: string, end: string)
    requires start + a + end == start + b + end
    ensures a == b
  {
    assert |a| == |b|;
    assert (start + a + end)[|start|..|start| + |a|] == a;
    assert (start + b + end)[|start|..|start| + |b|] == b;
  }

  /**
   A change is accepted exactly when it introduces version 1 whole where none of it was, or leaves every
   artifact of the active version and those before it as it was and either keeps both selectors or moves
   both to the next version together with all its artifacts, none of which was there.
   */
  lemma AcceptedOnFiles(reader: Reader, base: Tree, head: Tree)
    ensures Accepted(reader, base, head) <==>
            if forall path :: path in VersionedPaths(1) ==> path !in base then Introduces(reader, head, 1)
            else
              && (forall path :: path in VersionedPaths(1) ==> path in base)
              && ACTIVE_GO in base && ACTIVE_GO in head
              && reader.profileVersion(base[ACTIVE_GO]).Some? && reader.profileVersion(head[ACTIVE_GO]).Some?
              && var was, now := reader.profileVersion(base[ACTIVE_GO]).value, reader.profileVersion(head[ACTIVE_GO]).value;
                 && (forall version: nat, path :: 1 <= version <= was && path in VersionedPaths(version) ==>
                       path in base && path in head && head[path] == base[path])
                 && (|| (head[ACTIVE_GO] == base[ACTIVE_GO]
                         && (if ACTIVE_PYTHON in base then ACTIVE_PYTHON in head && head[ACTIVE_PYTHON] == base[ACTIVE_PYTHON]
                             else ACTIVE_PYTHON !in head))
                     || (now == was + 1 && (forall path :: path in VersionedPaths(now) ==> path !in base)
                         && Introduces(reader, head, now)))
  {
    hide VersionedPaths;
    forall tree, version: nat
      ensures Absent(tree, version) <==> forall path :: path in VersionedPaths(version) ==> path !in tree
      ensures Complete(tree, version) <==> forall path :: path in VersionedPaths(version) ==> path in tree
    {
      PathsByPlace(tree, version);
    }
    forall version: nat
      ensures Kept(base, head, version) <==>
              forall path :: path in VersionedPaths(version) ==> path in base && path in head && head[path] == base[path]
    {
      KeptByPath(base, head, version);
    }
  }

  /** The tree has every artifact of the version, and both selectors pick it. */
  ghost predicate Introduces(reader: Reader, tree: Tree, version: nat) {
    && (forall path :: path in VersionedPaths(version) ==> path in tree)
    && "internal/quranutil/normalize.go" in tree && "scripts/langextract_kg/search_key.py" in tree
    && reader.profileVersion(tree["internal/quranutil/normalize.go"]) == Some(version)
    && reader.goSelects(tree["internal/quranutil/normalize.go"], version)
    && reader.pythonSelects(tree["scripts/langextract_kg/search_key.py"], version)
  }

  lemma PathsByPlace(tree: Tree, version: nat)
    ensures Absent(tree, version) <==> forall path :: path in VersionedPaths(version) ==> path !in tree
    ensures Complete(tree, version) <==> forall path :: path in VersionedPaths(version) ==> path in tree
  {
    hide VersionedPaths;
    var paths := VersionedPaths(version);
    assert forall i :: 0 <= i < 5 ==> paths[i] in paths;
  }

  lemma KeptByPath(base: Tree, head: Tree, version: nat)
    ensures Kept(base, head, version) <==>
            forall path :: path in VersionedPaths(version) ==> path in base && path in head && head[path] == base[path]
  {
    hide VersionedPaths;
    var paths := VersionedPaths(version);
    PathsByPlace(base, version);
    assert forall i :: 0 <= i < 5 ==> paths[i] in paths;
    if Kept(base, head, version) {
      forall path | path in paths ensures path in base && path in head && head[path] == base[path] {
        var i :| 0 <= i < 5 && paths[i] == path;
        assert ReadAt(head, VersionedPaths(version)[i]) == ReadAt(base, VersionedPaths(version)[i]);
      }
    }
  }

  // ---- check_contract ---------------------------------------------------------------------

  method CheckFrozen(base: Tree, head: Tree, version: nat, errors: seq<Violation>) returns (r: seq<Violation>)
    ensures errors <= r && (r == errors <==> Kept(base, head, version))
    ensures VersionOnlyChanged in r ==> VersionOnlyChanged in errors
  {
    r := errors;
    var paths := VersionedPaths(version);
    for i := 0 to 5
      invariant errors <= r && (VersionOnlyChanged in r ==> VersionOnlyChanged in errors)
      invariant r == errors <==>
                forall k :: 0 <= k < i ==> paths[k] in base && ReadAt(head, paths[k]) == ReadAt(base, paths[k])
    {
      var before, after := ReadAt(base, paths[i]), ReadAt(head, paths[i]);
      if before.None? {
        r := r + [BaseMissing(paths[i])];
      } else if after != before {
        r := r + [FrozenChanged(paths[i])];
      }
    }
  }

  method CheckSelectors(reader: Reader, head: Tree, version: nat, errors: seq<Violation>) returns (r: seq<Violation>)
    ensures errors <= r && (VersionOnlyChanged in r ==> VersionOnlyChanged in errors)
    ensures r == errors <==> GoSelects(reader, head, version) && PythonSelects(reader, head, version)
  {
    r := errors;
    if !GoSelects(reader, head, version) {
      r := r + [GoSelector];
    }
    if !PythonSelects(reader, head, version) {
      r := r + [PythonSelector];
    }
  }

  /** No violation is found exactly when the change is acceptable. */
  method CheckContract(reader: Reader, base: Tree, head: Tree) returns (errors: seq<Violation>)
    ensures errors == [] <==> Accepted(reader, base, head)
    ensures VersionOnlyChanged !in errors
  {
    errors := [];
    var first := VersionedPaths(1);
    var headVersion := ProfileVersion(reader, head);
    if Absent(base, 1) {
      if headVersion != Some(1) {
        errors := errors + [InitialVersion];
      }
      for i := 0 to 5
        invariant errors == [] <==> headVersion == Some(1) && forall k :: 0 <= k < i ==> first[k] in head
        invariant VersionOnlyChanged !in errors
      {
        if first[i] !in head {
          errors := errors + [InitialMissing(first[i])];
        }
      }
      errors := CheckSelectors(reader, head, 1, errors);
      return;
    }
    if !Complete(base, 1) {
      return [IncompleteBaseline];
    }
    var baseVersion := ProfileVersion(reader, base);
    if baseVersion.None? || headVersion.None? {
      return [Unreadable];
    }
    for version := 1 to baseVersion.value + 1
      invariant errors == [] <==> forall v: nat :: 1 <= v < version ==> Kept(base, head, v)
      invariant VersionOnlyChanged !in errors
    {
      errors := CheckFrozen(base, head, version, errors);
    }
    if SameSelectors(base, head) {
      if headVersion != baseVersion {
        errors := errors + [VersionOnlyChanged];
      }
      return;
    }
    if headVersion.value != baseVersion.value + 1 {
      errors := errors + [WrongIncrement];
      return;
    }
    var paths := VersionedPaths(headVersion.value);
    ghost var frozen := errors;
    for i := 0 to 5
      invariant frozen <= errors && VersionOnlyChanged !in errors
      invariant errors == frozen <==> forall k :: 0 <= k < i ==> paths[k] !in base && paths[k] in head
    {
      if paths[i] in base {
        errors := errors + [AlreadyOnBase(paths[i])];
      }
      if paths[i] !in head {
        errors := errors + [NewMissing(paths[i])];
      }
    }
    errors := CheckSelectors(reader, head, headVersion.value, errors);
  }

  // ---- Along a history --------------------------------------------------------------------

  /** Every commit was accepted with the one before it as merge base, and the first had no profile. */
  ghost predicate Chain(reader: Reader, trees: seq<Tree>) {
    && |trees| >= 1 && Absent(trees[0], 1)
    && forall i :: 0 < i < |trees| ==> Accepted(reader, trees[i - 1], trees[i])
  }

  /** A version is active, both selectors pick it, and every version up to it is complete. */
  ghost predicate Sound(reader: Reader, tree: Tree, version: nat) {
    version >= 1 && At(reader, tree, version) && forall v: nat :: 1 <= v <= version ==> Complete(tree, v)
  }

  lemma CompleteIsNotAbsent(tree: Tree, version: nat)
    requires Complete(tree, version)
    ensures !Absent(tree, version)
  {
    assert VersionedPaths(version)[0] in tree;
  }

  lemma AcceptedStep(reader: Reader, base: Tree, head: Tree, version: nat) returns (next: nat)
    requires Sound(reader, base, version) && Accepted(reader, base, head)
    ensures Sound(reader, head, next) && version <= next <= version + 1
    ensures forall v: nat :: 1 <= v <= version ==> Kept(base, head, v)
  {
    hide VersionedPaths, GoSelects, PythonSelects;
    assert Complete(base, 1);
    CompleteIsNotAbsent(base, 1);
    next := ProfileVersion(reader, head).value;
    if SameSelectors(base, head) {
      SameSelectorsSameChoice(reader, base, head, version);
    }
    forall v: nat | 1 <= v <= next ensures Complete(head, v) {
      if v <= version {
        KeptIsComplete(base, head, v);
      }
    }
  }

  lemma KeptIsComplete(base: Tree, head: Tree, version: nat)
    requires Kept(base, head, version)
    ensures Complete(head, version)
  {
    hide VersionedPaths;
    forall i | 0 <= i < 5 ensures VersionedPaths(version)[i] in head {
      assert ReadAt(head, VersionedPaths(version)[i]) == ReadAt(base, VersionedPaths(version)[i]);
    }
  }

  lemma SameSelectorsSameChoice(reader: Reader, base: Tree, head: Tree, version: nat)
    requires SameSelectors(base, head)
    ensures ProfileVersion(reader, head) == ProfileVersion(reader, base)
    ensures GoSelects(reader, base, version) ==> GoSelects(reader, head, version)
    ensures PythonSelects(reader, base, version) ==> PythonSelects(reader, head, version)
  {}

  /** The version active at the i-th commit of a chain. */
  lemma {:induction false} ActiveVersion(reader: Reader, trees: seq<Tree>, i: nat) returns (version: nat)
    requires Chain(reader, trees) && 1 <= i < |trees|
    ensures Sound(reader, trees[i], version) && 1 <= version <= i
    ensures i == 1 ==> version == 1
  {
    if i == 1 {
      assert Accepted(reader, trees[0], trees[1]);
      version := 1;
    } else {
      var before := ActiveVersion(reader, trees, i - 1);
      version := AcceptedStep(reader, trees[i - 1], trees[i], before);
    }
  }

  /**
   Along any chain of accepted changes the active version starts at 1 and rises by at most one per
   change, both selectors always pick it, and every artifact once introduced keeps its bytes for ever.
   */
  lemma {:induction false} FrozenForever(reader: Reader, trees: seq<Tree>, i: nat, j: nat) returns (early: nat, late: nat)
    requires Chain(reader, trees) && 1 <= i <= j < |trees|
    ensures Sound(reader, trees[i], early) && Sound(reader, trees[j], late)
    ensures early <= late <= early + (j - i) && (i == 1 ==> early == 1)
    ensures forall v: nat :: 1 <= v <= early ==> Kept(trees[i], trees[j], v)
    decreases j
  {
    hide Sound, Accepted, Kept;
    if j == i {
      early := ActiveVersion(reader, trees, i);
      late := early;
      KeptByItself(reader, trees[i], early);
    } else {
      var middle: nat;
      early, middle := FrozenForever(reader, trees, i, j - 1);
      late := AcceptedStep(reader, trees[j - 1], trees[j], middle);
      forall v: nat | 1 <= v <= early ensures Kept(trees[i], trees[j], v) {
        KeptTwice(trees[i], trees[j - 1], trees[j], v);
      }
    }
  }

  lemma KeptByItself(reader: Reader, tree: Tree, version: nat)
    requires Sound(reader, tree, version)
    ensures forall v: nat :: 1 <= v <= version ==> Kept(tree, tree, v)
  {}

  lemma KeptTwice(a: Tree, b: Tree, c: Tree, version: nat)
    requires Kept(a, b, version) && Kept(b, c, version)
    ensures Kept(a, c, version)
  {}

  /**
   A file of the next version that reaches the base ahead of the selectors blocks that version: no
   change of the selectors is acceptable while it is there.
   */
  lemma EarlyFileBlocksNextVersion(reader: Reader, base: Tree, head: Tree, version: nat, i: nat)
    requires Sound(reader, base, version) && i < 5 && VersionedPaths(version + 1)[i] in base
    ensures Accepted(reader, base, head) ==> SameSelectors(base, head)
  {
    hide VersionedPaths;
    assert Complete(base, 1);
    assert VersionedPaths(1)[0] in base;
  }
}
