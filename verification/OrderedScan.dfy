/**
 Cursor scans: rows wait in an order, each step takes the first few whose cursor is above the stored
 one and stores the cursor of the last one taken. `at` gives the cursor of a row.
 */
module OrderedScan {

  /** A row that is its own cursor. */
  function Self(key: int): int {
    key
  }

  predicate Ascending<T(!new)>(at: T -> int, keys: seq<T>) {
    forall i, j :: 0 <= i < j < |keys| ==> at(keys[i]) < at(keys[j])
  }

  predicate Distinct<T(==)>(keys: seq<T>) {
    forall i, j :: 0 <= i < j < |keys| ==> keys[i] != keys[j]
  }

  /** WHERE cursor > the stored one, for keys already in order. */
  function Above<T(!new)>(at: T -> int, keys: seq<T>, cursor: int): (r: seq<T>)
    ensures forall k :: k in r <==> k in keys && at(k) > cursor
    ensures |r| <= |keys|
  {
    if keys == [] then []
    else if at(keys[0]) > cursor then [keys[0]] + Above(at, keys[1..], cursor)
    else Above(at, keys[1..], cursor)
  }

  /** What is left of `keys` once `taken` are gone. */
  function Without<T(==, !new)>(keys: seq<T>, taken: seq<T>): (r: seq<T>)
    ensures forall k :: k in r <==> k in keys && k !in taken
  {
    if keys == [] then []
    else if keys[0] in taken then Without(keys[1..], taken)
    else [keys[0]] + Without(keys[1..], taken)
  }

  lemma AscendingHead<T(!new)>(at: T -> int, keys: seq<T>)
    requires Ascending(at, keys) && keys != []
    ensures Ascending(at, keys[1..])
    ensures forall k :: k in keys[1..] ==> k in keys && at(keys[0]) < at(k)
  {}

  lemma AscendingCons<T(!new)>(at: T -> int, head: T, tail: seq<T>)
    requires Ascending(at, tail) && forall k :: k in tail ==> at(head) < at(k)
    ensures Ascending(at, [head] + tail)
  {
    var keys := [head] + tail;
    forall i, j | 0 <= i < j < |keys| ensures at(keys[i]) < at(keys[j]) {
      assert keys[j] == tail[j - 1];
      assert tail[j - 1] in tail;
    }
  }

  lemma AscendingIsDistinct<T(!new)>(at: T -> int, keys: seq<T>)
    requires Ascending(at, keys)
    ensures Distinct(keys)
  {
    forall i, j | 0 <= i < j < |keys| ensures keys[i] != keys[j] {
      assert at(keys[i]) < at(keys[j]);
    }
  }

  lemma {:induction false} AboveAscends<T(!new)>(at: T -> int, keys: seq<T>, cursor: int)
    requires Ascending(at, keys)
    ensures Ascending(at, Above(at, keys, cursor))
  {
    if keys != [] {
      AscendingHead(at, keys);
      AboveAscends(at, keys[1..], cursor);
      if at(keys[0]) > cursor {
        AscendingCons(at, keys[0], Above(at, keys[1..], cursor));
      }
    }
  }

  lemma {:induction false} AllAbove<T(!new)>(at: T -> int, keys: seq<T>, cursor: int)
    requires forall k :: k in keys ==> at(k) > cursor
    ensures Above(at, keys, cursor) == keys
  {
    if keys != [] {
      var head := keys[0];
      assert head in keys && forall k :: k in keys[1..] ==> k in keys;
      AllAbove(at, keys[1..], cursor);
    }
  }

  lemma {:induction false} NothingTaken<T(!new)>(keys: seq<T>, taken: seq<T>)
    requires forall k :: k in keys ==> k !in taken
    ensures Without(keys, taken) == keys
  {
    if keys != [] {
      var head := keys[0];
      assert head in keys && forall k :: k in keys[1..] ==> k in keys;
      NothingTaken(keys[1..], taken);
    }
  }

  lemma {:induction false} WithoutPrefix<T(!new)>(keys: seq<T>, n: nat)
    requires Distinct(keys) && n <= |keys|
    ensures Without(keys, keys[..n]) == keys[n..]
  {
    if n == 0 {
      NothingTaken(keys, []);
    } else {
      var head, tail := keys[0], keys[1..];
      assert forall i :: 0 <= i < |tail| ==> tail[i] == keys[i + 1];
      WithoutFirst(tail, head, tail[..n - 1]);
      assert keys[..n] == [head] + tail[..n - 1];
      WithoutPrefix(tail, n - 1);
      assert tail[n - 1..] == keys[n..];
    }
  }

  lemma {:induction false} WithoutSome<T(!new)>(keys: seq<T>, taken: seq<T>, key: T)
    requires key in keys && key in taken
    ensures |Without(keys, taken)| < |keys|
  {
    if keys[0] != key {
      WithoutSome(keys[1..], taken, key);
    } else {
      WithoutAtMost(keys[1..], taken);
    }
  }

  lemma {:induction false} WithoutAtMost<T(!new)>(keys: seq<T>, taken: seq<T>)
    ensures |Without(keys, taken)| <= |keys|
  {
    if keys != [] {
      WithoutAtMost(keys[1..], taken);
    }
  }

  /** Taking the keys in two rounds is taking them all at once. */
  lemma {:induction false} WithoutTwice<T(!new)>(keys: seq<T>, first: seq<T>, second: seq<T>)
    ensures Without(Without(keys, first), second) == Without(keys, first + second)
  {
    if keys != [] {
      WithoutTwice(keys[1..], first, second);
      var rest := Without(keys[1..], first);
      if keys[0] !in first {
        assert ([keys[0]] + rest)[1..] == rest;
      }
    }
  }

  /** A key that is not waiting makes no difference among the taken ones. */
  lemma {:induction false} WithoutFirst<T(!new)>(keys: seq<T>, absent: T, taken: seq<T>)
    requires absent !in keys
    ensures Without(keys, [absent] + taken) == Without(keys, taken)
  {
    if keys != [] {
      WithoutFirst(keys[1..], absent, taken);
    }
  }

  /** Taking keys and selecting above a cursor commute. */
  lemma {:induction false} AboveWithout<T(!new)>(at: T -> int, keys: seq<T>, cursor: int, taken: seq<T>)
    ensures Above(at, Without(keys, taken), cursor) == Without(Above(at, keys, cursor), taken)
  {
    if keys != [] {
      AboveWithout(at, keys[1..], cursor, taken);
      var rest := Without(keys[1..], taken);
      if keys[0] !in taken {
        assert ([keys[0]] + rest)[1..] == rest;
      }
      if at(keys[0]) > cursor {
        var above := Above(at, keys[1..], cursor);
        assert ([keys[0]] + above)[1..] == above;
      }
    }
  }

  /** A step takes as many keys away as it selects. */
  lemma {:induction false} WithoutShrinks<T(!new)>(at: T -> int, keys: seq<T>, cursor: int, n: nat)
    requires Distinct(keys) && n <= |Above(at, keys, cursor)|
    ensures |Without(keys, Above(at, keys, cursor)[..n])| == |keys| - n
  {
    if n == 0 {
      NothingTaken(keys, []);
    } else {
      var head, tail := keys[0], keys[1..];
      assert forall i :: 0 <= i < |tail| ==> tail[i] == keys[i + 1];
      var above := Above(at, tail, cursor);
      if at(head) > cursor {
        WithoutShrinks(at, tail, cursor, n - 1);
        assert Above(at, keys, cursor)[..n] == [head] + above[..n - 1];
        WithoutFirst(tail, head, above[..n - 1]);
      } else {
        WithoutShrinks(at, tail, cursor, n);
        assert forall i :: 0 <= i < n ==> above[..n][i] in above;
        assert head !in above[..n];
      }
    }
  }

  lemma {:induction false} WithoutAscends<T(!new)>(at: T -> int, keys: seq<T>, taken: seq<T>)
    requires Ascending(at, keys)
    ensures Ascending(at, Without(keys, taken))
  {
    if keys != [] {
      AscendingHead(at, keys);
      WithoutAscends(at, keys[1..], taken);
      if keys[0] !in taken {
        AscendingCons(at, keys[0], Without(keys[1..], taken));
      }
    }
  }

  /**
   One step of a scan. Whatever waits above `floor` waits above the cursor too; the step takes the
   first `n` of it. Afterwards exactly the rest waits above `floor`, and all of it above the new cursor.
   */
  lemma ScanStep<T(!new)>(at: T -> int, keys: seq<T>, floor: int, cursor: int, n: nat)
    requires Ascending(at, keys)
    requires Above(at, keys, floor) == Above(at, keys, cursor)
    requires 0 < n <= |Above(at, keys, cursor)|
    ensures var waiting := Above(at, keys, cursor);
            var left := Without(keys, waiting[..n]);
            && Ascending(at, left) && |left| == |keys| - n
            && Above(at, left, floor) == waiting[n..]
            && Above(at, left, at(waiting[n - 1])) == waiting[n..]
            && at(waiting[n - 1]) > cursor
  {
    var waiting := Above(at, keys, cursor);
    var taken := waiting[..n];
    AboveAscends(at, keys, cursor);
    AscendingIsDistinct(at, keys);
    AscendingIsDistinct(at, waiting);
    WithoutAscends(at, keys, taken);
    WithoutShrinks(at, keys, cursor, n);
    AboveWithout(at, keys, floor, taken);
    WithoutPrefix(waiting, n);
    var left := Without(keys, taken);
    var last := at(waiting[n - 1]);
    assert waiting[n - 1] in waiting;
    AboveFromLower(at, left, cursor, last) by {
      AboveWithout(at, keys, cursor, taken);
      assert Above(at, left, cursor) == waiting[n..];
      forall k | k in waiting[n..] ensures at(k) > last {
      }
    }
    AboveWithout(at, keys, cursor, taken);
  }

  /** Raising the cursor past no waiting key changes nothing. */
  lemma {:induction false} AboveFromLower<T(!new)>(at: T -> int, keys: seq<T>, lower: int, upper: int)
    requires lower <= upper
    requires forall k :: k in keys && at(k) > lower ==> at(k) > upper
    ensures Above(at, keys, upper) == Above(at, keys, lower)
  {
    if keys != [] {
      var head := keys[0];
      assert head in keys && forall k :: k in keys[1..] ==> k in keys;
      AboveFromLower(at, keys[1..], lower, upper);
    }
  }
}
