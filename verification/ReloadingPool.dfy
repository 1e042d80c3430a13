/**
 The hot-swapped database pool of the collaboration server. Between two awaits the program runs
 alone; every method below is one such stretch, and they interleave in any order that the awaits allow.
 */
module ReloadingPool {
  import opened Common

  datatype Pool = Pool(url: string, passed: bool, ended: bool)

  /** Where a run of reloadCandidate stands. */
  datatype Reload =
    | Reading
    | Preflighting(candidate: nat)
    | EndingCandidate(candidate: nat)
    | Settling
    | Over

  /** Where a query stands; `Issued` remembers its pool and whether that pool had been ended. */
  datatype Query = AwaitingReload(reload: nat) | AtPool | Issued(pool: nat, ended: bool)

  datatype Event =
    | QueryBegins | QueryResumes(q: nat) | QueryIssued(q: nat)
    | FileRead(url: Option<string>) | Preflighted(ok: bool) | CandidateDrained | ReloadSettles

  class Pools {
    const watching: bool
    var pools: seq<Pool>
    var active: nat
    var activeUrl: string
    var reloads: seq<Reload>
    var reloadPromise: Option<nat>
    var queries: seq<Query>

    constructor (watching: bool, url: string)
      ensures Valid() && queries == [] && reloads == [] && activeUrl == url
      ensures this.watching == watching && pools == [Pool(url, false, false)]
    {
      this.watching := watching;
      pools, active, activeUrl := [Pool(url, false, false)], 0, url;
      reloads, reloadPromise, queries := [], None, [];
    }

    /** The pool the reload in flight has created and neither activated nor ended yet. */
    ghost function Candidate(): Option<nat>
      reads this
    {
      if reloadPromise.Some? && reloadPromise.value < |reloads| && reloads[reloadPromise.value].Preflighting?
      then Some(reloads[reloadPromise.value].candidate) else None
    }

    /** The active pool lives, and every other pool is the candidate or has been ended. */
    ghost predicate PoolsHold()
      reads this
    {
      && active < |pools| && pools[active].url == activeUrl && !pools[active].ended
      && (active != 0 ==> pools[active].passed)
      && (forall p :: 0 <= p < |pools| ==> p == active || pools[p].ended || Candidate() == Some(p))
      && (Candidate().Some? ==>
            && Candidate().value < |pools| && !pools[Candidate().value].ended
            && Candidate().value != active && Candidate().value != 0)
    }

    /** At most one reload is in flight, and it is the one the promise stands for. */
    ghost predicate ReloadsHold()
      reads this
    {
      && (forall i :: 0 <= i < |reloads| && !reloads[i].Over? ==> reloadPromise == Some(i))
      && (reloadPromise.Some? ==> reloadPromise.value < |reloads| && !reloads[reloadPromise.value].Over?)
    }

    /** Every query went to a living pool, and to none that had not passed its preflight but the first. */
    ghost predicate QueriesHold()
      reads this
    {
      forall q :: 0 <= q < |queries| ==>
        && (queries[q].Issued? ==> queries[q].pool < |pools| && !queries[q].ended
                                   && (queries[q].pool == 0 || pools[queries[q].pool].passed))
        && (queries[q].AwaitingReload? ==> queries[q].reload < |reloads|)
    }

    ghost predicate Valid()
      reads this
    {
      PoolsHold() && ReloadsHold() && QueriesHold()
    }

    // ---- query ----------------------------------------------------------------------------

    /** query up to its await: join the reload in flight or begin one. */
    method Begin() returns (q: nat)
      requires Valid()
      modifies `queries, `reloads, `reloadPromise
      ensures Valid()
      ensures q == |old(queries)| && |queries| == q + 1 && queries[..q] == old(queries)
      ensures !watching ==> queries[q] == AtPool && reloads == old(reloads)
      ensures watching ==> reloadPromise.Some? && queries[q] == AwaitingReload(reloadPromise.value)
      ensures watching && old(reloadPromise).Some? ==> reloads == old(reloads) && reloadPromise == old(reloadPromise)
      ensures watching && old(reloadPromise).None? ==> reloads == old(reloads) + [Reading]
    {
      q := |queries|;
      if !watching {
        queries := queries + [AtPool];
        return;
      }
      if reloadPromise.None? {
        reloadPromise := Some(|reloads|);
        reloads := reloads + [Reading];
      }
      queries := queries + [AwaitingReload(reloadPromise.value)];
    }

    /** The awaited reload has settled: the query goes on to the pool that is active now. */
    method Resume(q: nat)
      requires Valid() && q < |queries|
      requires queries[q].AwaitingReload? && queries[q].reload < |reloads| && reloads[queries[q].reload].Over?
      modifies `queries
      ensures Valid() && queries == old(queries)[q := AtPool]
    {
      queries := queries[q := AtPool];
    }

    method Issue(q: nat)
      requires Valid() && q < |queries| && queries[q].AtPool?
      modifies `queries
      ensures Valid() && queries == old(queries)[q := Issued(active, false)]
    {
      queries := queries[q := Issued(active, pools[active].ended)];
    }

    // ---- reloadCandidate ------------------------------------------------------------------

    /** The credential file was read, or could not be: an unreadable or unchanged URL ends the reload. */
    method ReadDone(r: nat, url: Option<string>)
      requires Valid() && r < |reloads| && reloads[r].Reading?
      modifies `reloads, `pools
      ensures Valid()
      ensures url.None? || url.value == activeUrl ==> pools == old(pools) && reloads == old(reloads)[r := Settling]
      ensures url.Some? && url.value != activeUrl ==>
                && pools == old(pools) + [Pool(url.value, false, false)]
                && reloads == old(reloads)[r := Preflighting(|old(pools)|)]
    {
      if url.None? || url.value == activeUrl {
        reloads := reloads[r := Settling];
        return;
      }
      pools := pools + [Pool(url.value, false, false)];
      reloads := reloads[r := Preflighting(|pools| - 1)];
    }

    /** The preflight answered: swap the pools and end the old one, or end the candidate. */
    method PreflightDone(r: nat, ok: bool)
      requires Valid() && r < |reloads| && reloads[r].Preflighting?
      modifies `reloads, `pools, `active, `activeUrl
      ensures Valid()
      ensures var candidate := old(reloads)[r].candidate;
              if ok then
                && active == candidate && activeUrl == old(pools)[candidate].url
                && pools == old(pools)[candidate := old(pools)[candidate].(passed := true)]
                                      [old(active) := old(pools)[old(active)].(ended := true)]
                && reloads == old(reloads)[r := Settling]
              else
                && active == old(active) && activeUrl == old(activeUrl)
                && pools == old(pools)[candidate := old(pools)[candidate].(ended := true)]
                && reloads == old(reloads)[r := EndingCandidate(candidate)]
    {
      var candidate := reloads[r].candidate;
      if !ok {
        pools := pools[candidate := pools[candidate].(ended := true)];
        reloads := reloads[r := EndingCandidate(candidate)];
        return;
      }
      var previous := active;
      pools := pools[candidate := pools[candidate].(passed := true)];
      active, activeUrl := candidate, pools[candidate].url;
      pools := pools[previous := pools[previous].(ended := true)];
      reloads := reloads[r := Settling];
    }

    /** The rejected candidate has drained, with or without an error. */
    method CandidateEnded(r: nat)
      requires Valid() && r < |reloads| && reloads[r].EndingCandidate?
      modifies `reloads
      ensures Valid() && reloads == old(reloads)[r := Settling]
    {
      reloads := reloads[r := Settling];
    }

    /** The finally callback: only now can the next query begin another reload. */
    method Settle(r: nat)
      requires Valid() && r < |reloads| && reloads[r].Settling?
      modifies `reloads, `reloadPromise
      ensures Valid() && reloads == old(reloads)[r := Over] && reloadPromise == None
      ensures forall p :: 0 <= p < |pools| ==> p == active || pools[p].ended
    {
      reloads := reloads[r := Over];
      reloadPromise := None;
    }

    // ---- Interleavings --------------------------------------------------------------------

    /** One stretch of the program, if it is its turn. */
    method Step(event: Event)
      requires Valid()
      modifies this
      ensures Valid() && |old(pools)| <= |pools|
      ensures forall q :: 0 <= q < |old(queries)| && old(queries)[q].Issued? ==> q < |queries| && queries[q] == old(queries)[q]
      ensures forall p :: 0 <= p < |old(pools)| && old(pools)[p].ended ==> pools[p].ended
    {
      match event
      case QueryBegins =>
        var q := Begin();
      case QueryResumes(q) =>
        if q < |queries| && queries[q].AwaitingReload? && reloads[queries[q].reload].Over? {
          Resume(q);
        }
      case QueryIssued(q) =>
        if q < |queries| && queries[q].AtPool? {
          Issue(q);
        }
      case FileRead(url) =>
        if reloadPromise.Some? && reloads[reloadPromise.value].Reading? {
          ReadDone(reloadPromise.value, url);
        }
      case Preflighted(ok) =>
        if reloadPromise.Some? && reloads[reloadPromise.value].Preflighting? {
          PreflightDone(reloadPromise.value, ok);
        }
      case CandidateDrained =>
        if reloadPromise.Some? && reloads[reloadPromise.value].EndingCandidate? {
          CandidateEnded(reloadPromise.value);
        }
      case ReloadSettles =>
        if reloadPromise.Some? && reloads[reloadPromise.value].Settling? {
          Settle(reloadPromise.value);
        }
    }

    /**
     Any interleaving: every query that was issued went to a pool that had not been ended and that is
     the first one or passed its preflight; no two reloads are in flight; and when none is, every pool
     ever created is the active one or has been ended.
     */
    method Interleave(events: seq<Event>)
      requires Valid()
      modifies this
      ensures Valid()
      ensures forall q :: 0 <= q < |queries| && queries[q].Issued? ==>
                !queries[q].ended && queries[q].pool < |pools| && (queries[q].pool == 0 || pools[queries[q].pool].passed)
      ensures forall i, j :: 0 <= i < j < |reloads| ==> reloads[i].Over? || reloads[j].Over?
      ensures (forall i :: 0 <= i < |reloads| ==> reloads[i].Over?) ==> forall p :: 0 <= p < |pools| ==> p == active || pools[p].ended
    {
      for k := 0 to |events|
        invariant Valid()
      {
        Step(events[k]);
      }
    }
  }
}
