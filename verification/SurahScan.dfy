/**
 The two surah jobs: the derivation job wraps around until no surah is stale, the rederivation job
 passes over the derived surahs once. Surahs may become stale, or be derived elsewhere, at any time.
 */
module SurahScan {
  import opened Common
  import opened OrderedScan

  datatype Surah = Surah(id: int, derived: bool, stale: bool)

  /** Wrapping: never derived or stale. Not wrapping: derived. */
  predicate Wanted(wrap: bool, s: Surah) {
    if wrap then !s.derived || s.stale else s.derived
  }

  function WantedIds(wrap: bool, surahs: seq<Surah>): seq<int> {
    if surahs == [] then []
    else if Wanted(wrap, surahs[0]) then [surahs[0].id] + WantedIds(wrap, surahs[1..])
    else WantedIds(wrap, surahs[1..])
  }

  predicate InOrder(surahs: seq<Surah>) {
    forall i, j :: 0 <= i < j < |surahs| ==> surahs[i].id < surahs[j].id
  }

  /** The first wanted surah after the cursor; when wrapping, the first wanted one of all if there is none. */
  function Next(wrap: bool, surahs: seq<Surah>, cursor: int): Option<int> {
    var wanted := WantedIds(wrap, surahs);
    var later := Above(Self, wanted, cursor);
    if later != [] then Some(later[0])
    else if wrap && wanted != [] then Some(wanted[0])
    else None
  }

  function Reconciled(surahs: seq<Surah>, id: int): seq<Surah> {
    if surahs == [] then []
    else [if surahs[0].id == id then Surah(id, true, false) else surahs[0]] + Reconciled(surahs[1..], id)
  }

  function Invalidated(surahs: seq<Surah>, id: int): seq<Surah> {
    if surahs == [] then []
    else [if surahs[0].id == id then surahs[0].(stale := true) else surahs[0]] + Invalidated(surahs[1..], id)
  }

  lemma {:induction false} WantedMembers(wrap: bool, surahs: seq<Surah>, id: int)
    ensures id in WantedIds(wrap, surahs) <==> exists i :: 0 <= i < |surahs| && surahs[i].id == id && Wanted(wrap, surahs[i])
  {
    if surahs != [] {
      WantedMembers(wrap, surahs[1..], id);
      if id in WantedIds(wrap, surahs[1..]) {
        var i :| 0 <= i < |surahs[1..]| && surahs[1..][i].id == id && Wanted(wrap, surahs[1..][i]);
        assert surahs[i + 1].id == id && Wanted(wrap, surahs[i + 1]);
      }
      if i :| 0 <= i < |surahs| && surahs[i].id == id && Wanted(wrap, surahs[i]) {
        if i > 0 {
          assert surahs[1..][i - 1].id == id && Wanted(wrap, surahs[1..][i - 1]);
        }
      }
    }
  }

  /** The derivation job wants a surah that was never derived or is stale, the rederivation job a derived one. */
  ghost predicate Waits(wrap: bool, surahs: seq<Surah>, id: int) {
    exists i :: 0 <= i < |surahs| && surahs[i].id == id && (if wrap then !surahs[i].derived || surahs[i].stale else surahs[i].derived)
  }

  lemma WantedExactly(wrap: bool, surahs: seq<Surah>, id: int)
    ensures id in WantedIds(wrap, surahs) <==> Waits(wrap, surahs, id)
  {
    WantedMembers(wrap, surahs, id);
  }

  lemma {:induction false} WantedAscend(wrap: bool, surahs: seq<Surah>)
    requires InOrder(surahs)
    ensures Ascending(Self, WantedIds(wrap, surahs))
  {
    if surahs != [] {
      WantedAscend(wrap, surahs[1..]);
      forall id | id in WantedIds(wrap, surahs[1..]) ensures surahs[0].id < id {
        WantedMembers(wrap, surahs[1..], id);
      }
      if Wanted(wrap, surahs[0]) {
        AscendingCons(Self, surahs[0].id, WantedIds(wrap, surahs[1..]));
      }
    }
  }

  /** Reconciling a surah takes exactly it out of the stale ones. */
  lemma {:induction false} ReconcileRemoves(surahs: seq<Surah>, id: int)
    ensures WantedIds(true, Reconciled(surahs, id)) == Without(WantedIds(true, surahs), [id])
  {
    if surahs != [] {
      ReconcileRemoves(surahs[1..], id);
      assert Reconciled(surahs, id)[1..] == Reconciled(surahs[1..], id);
      var wanted := WantedIds(true, surahs[1..]);
      assert ([surahs[0].id] + wanted)[1..] == wanted;
    }
  }

  lemma {:induction false} SameIds(surahs: seq<Surah>, id: int)
    ensures |Reconciled(surahs, id)| == |surahs| == |Invalidated(surahs, id)|
    ensures forall i :: 0 <= i < |surahs| ==>
              && Reconciled(surahs, id)[i] == (if surahs[i].id == id then Surah(id, true, false) else surahs[i])
              && Invalidated(surahs, id)[i] == (if surahs[i].id == id then surahs[i].(stale := true) else surahs[i])
  {
    if surahs != [] {
      SameIds(surahs[1..], id);
    }
  }

  /** One invalidation makes at most one more surah wanted. */
  lemma {:induction false} InvalidationAddsOne(surahs: seq<Surah>, id: int)
    requires InOrder(surahs)
    ensures |WantedIds(true, Invalidated(surahs, id))| <= |WantedIds(true, surahs)| + 1
  {
    if surahs != [] {
      assert Invalidated(surahs, id)[1..] == Invalidated(surahs[1..], id);
      if surahs[0].id == id {
        InvalidationElsewhere(surahs[1..], id);
      } else {
        InvalidationAddsOne(surahs[1..], id);
      }
    }
  }

  lemma {:induction false} InvalidationElsewhere(surahs: seq<Surah>, id: int)
    requires forall i :: 0 <= i < |surahs| ==> surahs[i].id != id
    ensures Invalidated(surahs, id) == surahs
  {
    if surahs != [] {
      InvalidationElsewhere(surahs[1..], id);
    }
  }

  lemma {:induction false} RemovingOne(keys: seq<int>, key: int)
    requires Ascending(Self, keys) && key in keys
    ensures |Without(keys, [key])| == |keys| - 1
  {
    AscendingHead(Self, keys);
    if keys[0] == key {
      NothingTaken(keys[1..], [key]);
    } else {
      RemovingOne(keys[1..], key);
    }
  }

  /** Nothing is next exactly when nothing is left to do, and the next surah is the first one behind the cursor. */
  lemma NextIsFirst(wrap: bool, surahs: seq<Surah>, cursor: int)
    requires InOrder(surahs)
    ensures var next := Next(wrap, surahs, cursor);
            && (next.None? <==> forall i :: 0 <= i < |surahs| && (wrap || surahs[i].id > cursor) ==> !Wanted(wrap, surahs[i]))
            && (next.Some? ==>
                  && next.value in WantedIds(wrap, surahs)
                  && (next.value <= cursor ==> wrap)
                  && (forall k :: k in WantedIds(wrap, surahs) && k > cursor ==> cursor < next.value <= k)
                  && (next.value <= cursor ==> forall k :: k in WantedIds(wrap, surahs) ==> next.value <= k <= cursor))
  {
    hide WantedIds, Above, Wanted;
    var wanted := WantedIds(wrap, surahs);
    var later := Above(Self, wanted, cursor);
    WantedAscend(wrap, surahs);
    AboveAscends(Self, wanted, cursor);
    forall i | 0 <= i < |surahs| && Wanted(wrap, surahs[i]) ensures surahs[i].id in wanted {
      WantedMembers(wrap, surahs, surahs[i].id);
    }
    if later != [] {
      var first := later[0];
      assert first in later;
      WantedMembers(wrap, surahs, first);
      forall k | k in wanted && k > cursor ensures first <= k {
        assert k in later;
        var j :| 0 <= j < |later| && later[j] == k;
      }
    } else if wanted != [] {
      var first := wanted[0];
      assert first in wanted;
      WantedMembers(wrap, surahs, first);
      forall k | k in wanted ensures first <= k <= cursor {
        assert k !in later;
        var j :| 0 <= j < |wanted| && wanted[j] == k;
      }
    }
  }

  /** What the step reconciles: the first surah that waits behind the cursor, or when wrapping and none does, of all. */
  ghost predicate IsNext(wrap: bool, surahs: seq<Surah>, cursor: int, id: int) {
    && Waits(wrap, surahs, id)
    && (forall k :: Waits(wrap, surahs, k) && k > cursor ==> cursor < id <= k)
    && (id <= cursor ==> wrap && forall k :: Waits(wrap, surahs, k) ==> id <= k <= cursor)
  }

  lemma NextExactly(wrap: bool, surahs: seq<Surah>, cursor: int)
    requires InOrder(surahs)
    ensures Next(wrap, surahs, cursor).None? <==> forall k :: Waits(wrap, surahs, k) ==> !wrap && k <= cursor
    ensures Next(wrap, surahs, cursor).Some? ==> IsNext(wrap, surahs, cursor, Next(wrap, surahs, cursor).value)
  {
    hide WantedIds, Next, Waits;
    NextIsFirst(wrap, surahs, cursor);
    forall k ensures k in WantedIds(wrap, surahs) <==> Waits(wrap, surahs, k) {
      WantedExactly(wrap, surahs, k);
    }
    NoneWaits(wrap, surahs, cursor);
  }

  lemma NoneWaits(wrap: bool, surahs: seq<Surah>, cursor: int)
    ensures (forall i :: 0 <= i < |surahs| && (wrap || surahs[i].id > cursor) ==> !Wanted(wrap, surahs[i]))
            <==> forall k :: Waits(wrap, surahs, k) ==> !wrap && k <= cursor
  {
    if forall k :: Waits(wrap, surahs, k) ==> !wrap && k <= cursor {
      forall i | 0 <= i < |surahs| && (wrap || surahs[i].id > cursor) ensures !Wanted(wrap, surahs[i]) {
        if Wanted(wrap, surahs[i]) {
          assert Waits(wrap, surahs, surahs[i].id);
        }
      }
    }
  }

  function LastId(surahs: seq<Surah>): int {
    if surahs == [] then 0 else surahs[|surahs| - 1].id
  }

  /** What others may do to a surah while a job runs. */
  datatype Happening = DerivedElsewhere(id: int) | TurnedStale(id: int)

  function Happened(surahs: seq<Surah>, h: Happening): seq<Surah> {
    match h
    case DerivedElsewhere(id) => Reconciled(surahs, id)
    case TurnedStale(id) => Invalidated(surahs, id)
  }

  /** How far a pass that started on `first`, and during which `happenings` may occur, has come. */
  ghost predicate Passed(first: seq<Surah>, surahs: seq<Surah>, visited: seq<int>, cursor: int, happenings: seq<Happening>) {
    && |surahs| == |first|
    && (forall i :: 0 <= i < |surahs| ==> surahs[i].id == first[i].id && (first[i].derived ==> surahs[i].derived))
    && Ascending(Self, visited) && (forall k :: 0 <= k < |visited| ==> visited[k] <= cursor)
    && (forall i :: 0 <= i < |surahs| && first[i].derived && 0 < surahs[i].id <= cursor ==> surahs[i].id in visited)
    && (forall i :: 0 <= i < |surahs| && surahs[i].id in visited ==>
          surahs[i].derived && (TurnedStale(surahs[i].id) in happenings || !surahs[i].stale))
  }

  lemma PassBegins(surahs: seq<Surah>, happenings: seq<Happening>)
    ensures Passed(surahs, surahs, [], 0, happenings)
  {}

  lemma PassEnds(first: seq<Surah>, surahs: seq<Surah>, visited: seq<int>, cursor: int, happenings: seq<Happening>)
    requires Passed(first, surahs, visited, cursor, happenings)
    requires forall i :: 0 <= i < |surahs| && surahs[i].id > cursor ==> !surahs[i].derived
    ensures |surahs| == |first| && Ascending(Self, visited)
    ensures forall i :: 0 <= i < |first| && first[i].derived && first[i].id > 0 ==> first[i].id in visited
    ensures forall i :: 0 <= i < |surahs| && surahs[i].id in visited ==>
              surahs[i].derived && (TurnedStale(surahs[i].id) in happenings || !surahs[i].stale)
  {}

  lemma PassGoesOn(first: seq<Surah>, surahs: seq<Surah>, visited: seq<int>, cursor: int, happenings: seq<Happening>, h: Happening)
    requires InOrder(surahs) && Passed(first, surahs, visited, cursor, happenings) && h in happenings
    ensures var s' := Happened(surahs, h);
            InOrder(s') && LastId(s') == LastId(surahs) && Passed(first, s', visited, cursor, happenings)
  {
    hide Reconciled, Invalidated, Ascending;
    SameIds(surahs, h.id);
    var s' := Happened(surahs, h);
    forall i | 0 <= i < |s'| && s'[i].id in visited
      ensures s'[i].derived && (TurnedStale(s'[i].id) in happenings || !s'[i].stale)
    {
      assert surahs[i].id in visited;
    }
  }

  lemma Visited(first: seq<Surah>, surahs: seq<Surah>, visited: seq<int>, cursor: int, happenings: seq<Happening>, id: int)
    requires InOrder(surahs) && Passed(first, surahs, visited, cursor, happenings)
    requires id in WantedIds(false, surahs) && id > cursor
    requires forall k :: k in WantedIds(false, surahs) && k > cursor ==> id <= k
    ensures Passed(first, Reconciled(surahs, id), visited + [id], id, happenings)
    ensures id <= LastId(surahs)
  {
    hide WantedIds, Reconciled;
    SameIds(surahs, id);
    WantedMembers(false, surahs, id);
    var s' := Reconciled(surahs, id);
    forall i | 0 <= i < |s'| && first[i].derived && cursor < s'[i].id <= id
      ensures s'[i].id == id
    {
      WantedMembers(false, surahs, surahs[i].id);
    }
    var visited' := visited + [id];
    forall i | 0 <= i < |s'| && s'[i].id in visited'
      ensures s'[i].derived && (TurnedStale(s'[i].id) in happenings || !s'[i].stale)
    {
      if s'[i].id != id {
        assert surahs[i].id in visited;
      }
    }
  }

  lemma ReconcileKeepsOrder(surahs: seq<Surah>, id: int)
    requires InOrder(surahs)
    ensures InOrder(Reconciled(surahs, id)) && LastId(Reconciled(surahs, id)) == LastId(surahs)
  {
    SameIds(surahs, id);
  }

  datatype Step = Advanced(cursor: int) | NothingLeft | ReconcileFailed

  class SurahTable {
    var surahs: seq<Surah>

    constructor (surahs: seq<Surah>)
      ensures this.surahs == surahs
    {
      this.surahs := surahs;
    }

    ghost predicate Valid()
      reads this
    {
      InOrder(surahs)
    }

    /** Select the next surah, reconcile it, and return it as the new cursor. */
    method ProcessNextSurah(cursor: int, wrap: bool, reconciles: bool) returns (r: Step)
      requires Valid()
      modifies this
      ensures Valid()
      ensures wrap ==> (r.NothingLeft? <==> forall i :: 0 <= i < |old(surahs)| ==> !Wanted(true, old(surahs)[i]))
      ensures !wrap ==> (r.NothingLeft? <==> forall i :: 0 <= i < |old(surahs)| && old(surahs)[i].id > cursor ==> !old(surahs)[i].derived)
      ensures r.Advanced? ==> IsNext(wrap, old(surahs), cursor, r.cursor) && |surahs| == |old(surahs)|
      ensures r.Advanced? ==> forall i :: 0 <= i < |surahs| ==>
                surahs[i] == if old(surahs)[i].id == r.cursor then Surah(r.cursor, true, false) else old(surahs)[i]
      ensures r.Advanced? ==>
                && reconciles && surahs == Reconciled(old(surahs), r.cursor)
                && r.cursor in WantedIds(wrap, old(surahs))
                && (r.cursor <= cursor ==> wrap)
                && (forall k :: k in WantedIds(wrap, old(surahs)) && k > cursor ==> cursor < r.cursor <= k)
      ensures !r.Advanced? ==> surahs == old(surahs)
      ensures reconciles ==> !r.ReconcileFailed?
    {
      var next := Next(wrap, surahs, cursor);
      NextIsFirst(wrap, surahs, cursor);
      NextExactly(wrap, surahs, cursor);
      if next.None? {
        return NothingLeft;
      }
      if !reconciles {
        return ReconcileFailed;
      }
      SameIds(surahs, next.value);
      surahs := Reconciled(surahs, next.value);
      r := Advanced(next.value);
    }

    /**
     The derivation job, while surahs keep turning stale: it ends as soon as nothing is stale, and it
     takes no more steps than there were stale surahs and invalidations.
     */
    method DrainStale(start: int, invalidations: seq<int>) returns (steps: nat)
      requires Valid()
      modifies this
      ensures Valid()
      ensures forall i :: 0 <= i < |surahs| ==> surahs[i].derived && !surahs[i].stale
      ensures steps <= |WantedIds(true, old(surahs))| + |invalidations|
    {
      hide WantedIds, Reconciled, Invalidated, Above, Without;
      var cursor, arrived := start, 0;
      steps := 0;
      while true
        invariant Valid() && arrived <= |invalidations|
        invariant steps + |WantedIds(true, surahs)| <= |WantedIds(true, old(surahs))| + arrived
        decreases |invalidations| - arrived + |WantedIds(true, surahs)|
      {
        ghost var measure := |invalidations| - arrived + |WantedIds(true, surahs)|;
        var more: bool := *;
        while arrived < |invalidations| && more
          invariant Valid() && arrived <= |invalidations|
          invariant steps + |WantedIds(true, surahs)| <= |WantedIds(true, old(surahs))| + arrived
          invariant |invalidations| - arrived + |WantedIds(true, surahs)| <= measure
        {
          InvalidationAddsOne(surahs, invalidations[arrived]);
          SameIds(surahs, invalidations[arrived]);
          surahs := Invalidated(surahs, invalidations[arrived]);
          arrived := arrived + 1;
          more := *;
        }
        ghost var before := surahs;
        var r := ProcessNextSurah(cursor, true, true);
        if r.NothingLeft? {
          return;
        }
        WantedAscend(true, before);
        RemovingOne(WantedIds(true, before), r.cursor);
        ReconcileRemoves(before, r.cursor);
        cursor := r.cursor;
        steps := steps + 1;
      }
    }

    /**
     The rederivation job, while surahs are derived elsewhere or turn stale, any number of them between two
     steps: it visits surahs in strictly growing order, so none twice, misses none that was derived when it
     began, and leaves no visited surah stale but those that turned stale meanwhile.
     */
    method Rederive(happenings: seq<Happening>) returns (visited: seq<int>)
      requires Valid()
      modifies this
      ensures Valid() && Ascending(Self, visited) && |surahs| == |old(surahs)|
      ensures forall i :: 0 <= i < |surahs| && old(surahs)[i].derived && old(surahs)[i].id > 0 ==> old(surahs)[i].id in visited
      ensures forall i :: 0 <= i < |surahs| && surahs[i].id in visited ==>
                surahs[i].derived && (TurnedStale(surahs[i].id) in happenings || !surahs[i].stale)
    {
      hide WantedIds, Reconciled, Invalidated, Above, Passed, Wanted, Ascending, InOrder, LastId, Happened;
      var cursor, arrived := 0, 0;
      visited := [];
      PassBegins(surahs, happenings);
      while true
        invariant Valid() && arrived <= |happenings|
        invariant Passed(old(surahs), surahs, visited, cursor, happenings)
        decreases LastId(surahs) - cursor
      {
        ghost var last := LastId(surahs);
        var more: bool := *;
        while arrived < |happenings| && more
          invariant Valid() && arrived <= |happenings| && LastId(surahs) == last
          invariant Passed(old(surahs), surahs, visited, cursor, happenings)
        {
          PassGoesOn(old(surahs), surahs, visited, cursor, happenings, happenings[arrived]);
          surahs := Happened(surahs, happenings[arrived]);
          arrived := arrived + 1;
          more := *;
        }
        ghost var before := surahs;
        var r := ProcessNextSurah(cursor, false, true);
        if r.NothingLeft? {
          PassEnds(old(surahs), surahs, visited, cursor, happenings);
          return;
        }
        Visited(old(surahs), before, visited, cursor, happenings, r.cursor);
        ReconcileKeepsOrder(before, r.cursor);
        visited := visited + [r.cursor];
        cursor := r.cursor;
      }
    }
  }
}
