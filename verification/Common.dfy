/** Types shared by every module of the project. */
module Common {

  datatype Option<+T> = None | Some(value: T)

  /**
   The three outcomes of an atomic write: it left no trace, it took effect but an error was reported
   (a directory sync or an acknowledgement failed after it), or it succeeded.
   */
  datatype WriteResult = Lost | Unconfirmed | Written

  function Max(a: int, b: int): (r: int)
    ensures r >= a && r >= b && (r == a || r == b)
  {
    if a < b then b else a
  }

  function Min(a: int, b: int): (r: int)
    ensures r <= a && r <= b && (r == a || r == b)
  {
    if a < b then a else b
  }

  method Any<T>(items: set<T>) returns (item: T)
    requires items != {}
    ensures item in items
  {
    item :| item in items;
  }

  /** A set with two given distinct members and no room for a third holds exactly these two. */
  lemma TwoMembers<T>(s: set<T>, a: T, b: T)
    requires a in s && b in s && a != b && |s| == 2
    ensures s == {a, b}
  {
    var rest := s - {a, b};
    assert s == {a, b} + rest;
    assert |s| == |{a, b}| + |rest|;
  }

  /** A set with one given member and no room for a second holds exactly that one. */
  lemma OneMember<T>(s: set<T>, a: T)
    requires a in s && |s| == 1
    ensures s == {a}
  {
    var rest := s - {a};
    assert s == {a} + rest;
    assert |s| == |{a}| + |rest|;
  }
}
