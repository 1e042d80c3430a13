/** The authors table, the two jobs that fill its search column, and their statements. */
module AuthorTable {
  import opened Common
  import opened OrderedScan

  const PROFILE_VERSION := 1

  /** authors-name-search and authors-name-search-v1-version. */
  datatype Job = FillNameSearch | StampVersion

  datatype Author = Author(id: int, name: string, search: Option<string>, version: Option<int>)

  type Normalizer = string -> string

  /** Rows in primary key order, under the CHECK that a version comes with a text. */
  predicate Table(rows: seq<Author>) {
    && (forall i, j :: 0 <= i < j < |rows| ==> rows[i].id < rows[j].id)
    && (forall i :: 0 <= i < |rows| && rows[i].version.Some? ==> rows[i].search.Some?)
  }

  predicate Pending(job: Job, a: Author) {
    match job
    case FillNameSearch => a.search.None?
    case StampVersion => a.version.None?
  }

  /** A text written before versions existed that is not what the profile derives from the name. */
  predicate Drifts(job: Job, normalize: Normalizer, a: Author) {
    job.StampVersion? && a.search.Some? && a.search.value != normalize(a.name)
  }

  /** SELECT ... WHERE id > cursor AND pending ORDER BY id, before the LIMIT. */
  function Select(job: Job, rows: seq<Author>, cursor: int): seq<Author> {
    if rows == [] then []
    else if rows[0].id > cursor && Pending(job, rows[0]) then [rows[0]] + Select(job, rows[1..], cursor)
    else Select(job, rows[1..], cursor)
  }

  function Ids(rows: seq<Author>): (r: seq<int>)
    ensures |r| == |rows| && forall i :: 0 <= i < |r| ==> r[i] == rows[i].id
  {
    seq(|rows|, i requires 0 <= i < |rows| => rows[i].id)
  }

  function UpdateRow(a: Author, values: map<int, string>): Author {
    if a.id in values && a.version.None?
    then a.(search := Some(values[a.id]), version := Some(PROFILE_VERSION))
    else a
  }

  /** UPDATE ... FROM (VALUES ...) WHERE t.id = v.id AND t.version IS NULL. */
  function UpdateRows(rows: seq<Author>, values: map<int, string>): seq<Author> {
    if rows == [] then [] else [UpdateRow(rows[0], values)] + UpdateRows(rows[1..], values)
  }

  function Affected(rows: seq<Author>, values: map<int, string>): nat {
    if rows == [] then 0
    else (if rows[0].id in values && rows[0].version.None? then 1 else 0) + Affected(rows[1..], values)
  }

  // ---- What the jobs are for --------------------------------------------------------------

  /** The keys a job still has to process. */
  function PendingKeys(job: Job, rows: seq<Author>): seq<int> {
    if rows == [] then []
    else if Pending(job, rows[0]) then [rows[0].id] + PendingKeys(job, rows[1..])
    else PendingKeys(job, rows[1..])
  }

  function Stamp(normalize: Normalizer, a: Author): Author {
    a.(search := Some(normalize(a.name)), version := Some(PROFILE_VERSION))
  }

  /** The table with the rows of `ids` carrying the derived text and its version, and no other change. */
  function StampAll(normalize: Normalizer, rows: seq<Author>, ids: seq<int>): seq<Author> {
    if rows == [] then []
    else [if rows[0].id in ids then Stamp(normalize, rows[0]) else rows[0]] + StampAll(normalize, rows[1..], ids)
  }

  lemma {:induction false} StampAllAt(normalize: Normalizer, rows: seq<Author>, ids: seq<int>)
    ensures |StampAll(normalize, rows, ids)| == |rows|
    ensures forall i :: 0 <= i < |rows| ==>
              StampAll(normalize, rows, ids)[i] == if rows[i].id in ids then Stamp(normalize, rows[i]) else rows[i]
  {
    if rows != [] {
      StampAllAt(normalize, rows[1..], ids);
    }
  }

  lemma StampKeepsTable(normalize: Normalizer, rows: seq<Author>, ids: seq<int>)
    requires Table(rows)
    ensures Table(StampAll(normalize, rows, ids))
  {
    StampAllAt(normalize, rows, ids);
  }

  lemma StampTwice(normalize: Normalizer, rows: seq<Author>, first: seq<int>, second: seq<int>)
    ensures StampAll(normalize, StampAll(normalize, rows, first), second)
         == StampAll(normalize, rows, first + second)
  {
    StampAllAt(normalize, rows, first);
    StampAllAt(normalize, StampAll(normalize, rows, first), second);
    StampAllAt(normalize, rows, first + second);
  }

  lemma StampNone(normalize: Normalizer, rows: seq<Author>)
    ensures StampAll(normalize, rows, []) == rows
  {
    StampAllAt(normalize, rows, []);
  }

  /** Stamping rows takes exactly them out of either job's pending set. */
  lemma {:induction false} StampRemoves(job: Job, normalize: Normalizer, rows: seq<Author>, ids: seq<int>)
    ensures PendingKeys(job, StampAll(normalize, rows, ids)) == Without(PendingKeys(job, rows), ids)
  {
    if rows != [] {
      StampRemoves(job, normalize, rows[1..], ids);
      var rest := StampAll(normalize, rows[1..], ids);
      assert StampAll(normalize, rows, ids)[1..] == rest;
      var keys := PendingKeys(job, rows[1..]);
      assert ([rows[0].id] + keys)[1..] == keys;
    }
  }

  lemma {:induction false} PendingKeysAscend(job: Job, rows: seq<Author>)
    requires Table(rows)
    ensures Ascending(Self, PendingKeys(job, rows))
    ensures forall k :: k in PendingKeys(job, rows) ==> exists i :: 0 <= i < |rows| && rows[i].id == k && Pending(job, rows[i])
  {
    if rows != [] {
      PendingKeysAscend(job, rows[1..]);
      forall k | k in PendingKeys(job, rows[1..])
        ensures rows[0].id < k
        ensures exists i :: 0 <= i < |rows| && rows[i].id == k && Pending(job, rows[i])
      {
        var i :| 0 <= i < |rows[1..]| && rows[1..][i].id == k && Pending(job, rows[1..][i]);
        assert rows[i + 1].id == k;
      }
      if Pending(job, rows[0]) {
        AscendingCons(Self, rows[0].id, PendingKeys(job, rows[1..]));
      }
    }
  }

  lemma {:induction false} SelectIsAbove(job: Job, rows: seq<Author>, cursor: int)
    ensures Ids(Select(job, rows, cursor)) == Above(Self, PendingKeys(job, rows), cursor)
    ensures forall a :: a in Select(job, rows, cursor) ==> a in rows && Pending(job, a) && a.id > cursor
  {
    if rows != [] {
      SelectIsAbove(job, rows[1..], cursor);
      assert forall a :: a in rows[1..] ==> a in rows;
      var keys := PendingKeys(job, rows[1..]);
      assert ([rows[0].id] + keys)[1..] == keys;
    }
  }

  /** No two rows share an id. */
  lemma SameIdSameRow(rows: seq<Author>, a: Author, b: Author)
    requires Table(rows) && a in rows && b in rows && a.id == b.id
    ensures a == b
  {
    var i :| 0 <= i < |rows| && rows[i] == a;
    var j :| 0 <= j < |rows| && rows[j] == b;
  }

  /** The values the UPDATE carries belong to these ids and are derived from the names of their rows. */
  predicate ValuesOf(normalize: Normalizer, rows: seq<Author>, ids: seq<int>, values: map<int, string>) {
    && values.Keys == (set id | id in ids)
    && (forall i :: 0 <= i < |rows| && rows[i].id in values ==> values[rows[i].id] == normalize(rows[i].name))
  }

  /**
   The UPDATE stamps exactly the rows it carries, and affects every one of them, when they are all
   pending: the version is then NULL, for either job.
   */
  lemma {:induction false} UpdateIsStamp(job: Job, normalize: Normalizer, rows: seq<Author>, ids: seq<int>,
                                         values: map<int, string>)
    requires ValuesOf(normalize, rows, ids, values)
    requires forall i :: 0 <= i < |rows| && rows[i].version.Some? ==> rows[i].search.Some?
    requires forall i :: 0 <= i < |rows| && rows[i].id in ids ==> Pending(job, rows[i])
    ensures UpdateRows(rows, values) == StampAll(normalize, rows, ids)
    ensures Affected(rows, values) + |Without(PendingKeys(job, rows), ids)| == |PendingKeys(job, rows)|
  {
    if rows != [] {
      assert forall i :: 0 <= i < |rows[1..]| ==> rows[1..][i] == rows[i + 1];
      UpdateIsStamp(job, normalize, rows[1..], ids, values);
      assert rows[0] == rows[..][0];
      var keys := PendingKeys(job, rows[1..]);
      assert ([rows[0].id] + keys)[1..] == keys;
    }
  }
}
