/** Sequence utilities: order-preserving filtering (`Array.prototype.filter`)
  * and listing a keyed table in ascending key order (`OrderBy(x => x.Id)`). */
module Seqs {

  /** `s.filter(p)`: the elements satisfying `p`, in their original order. */
  function Keep<T(==,!new)>(s: seq<T>, p: T -> bool): (r: seq<T>)
    ensures |r| <= |s|
    ensures forall i :: 0 <= i < |r| ==> r[i] in s && p(r[i])
    ensures forall i :: 0 <= i < |s| && p(s[i]) ==> s[i] in r
    ensures forall x :: multiset(r)[x] == if p(x) then multiset(s)[x] else 0
  {
    if s == [] then []
    else
      assert s == [s[0]] + s[1..];
      if p(s[0]) then [s[0]] + Keep(s[1..], p) else Keep(s[1..], p)
  }

  /** `a` can be obtained from `b` by deleting elements. */
  predicate IsSubsequence<T(==)>(a: seq<T>, b: seq<T>)
    decreases |b|
  {
    a == [] || (b != [] && ((a[0] == b[0] && IsSubsequence(a[1..], b[1..])) || IsSubsequence(a, b[1..])))
  }

  /** Filtering keeps the relative order of what it keeps. */
  lemma {:induction false} KeepIsSubsequence<T(!new)>(s: seq<T>, p: T -> bool)
    ensures IsSubsequence(Keep(s, p), s)
  {
    if s != [] {
      KeepIsSubsequence(s[1..], p);
      if p(s[0]) {
        assert Keep(s, p)[1..] == Keep(s[1..], p);
      }
    }
  }

  /** Every sequence is a subsequence of itself. */
  lemma {:induction false} SubsequenceOfSelf<T>(s: seq<T>)
    ensures IsSubsequence(s, s)
  {
    if s != [] {
      SubsequenceOfSelf(s[1..]);
    }
  }

  /** Filtering with a predicate every element satisfies changes nothing. */
  lemma {:induction false} KeepAll<T(!new)>(s: seq<T>, p: T -> bool)
    requires forall i :: 0 <= i < |s| ==> p(s[i])
    ensures Keep(s, p) == s
  {
    if s != [] {
      KeepAll(s[1..], p);
    }
  }

  /** A non-empty finite set of integers has a least element. */
  lemma {:induction false} LeastElement(s: set<int>) returns (m: int)
    requires s != {}
    ensures m in s && forall k :: k in s ==> m <= k
  {
    if forall y :: y !in s {
      assert false;
    }
    var x :| x in s;
    var rest := s - {x};
    if rest == {} {
      m := x;
      forall k | k in s ensures m <= k {
        assert k !in rest;
      }
    } else {
      var least := LeastElement(rest);
      m := if x < least then x else least;
      forall k | k in s ensures m <= k {
        if k != x {
          assert k in rest;
        }
      }
    }
  }

  lemma HasMin(s: set<int>)
    requires s != {}
    ensures exists m :: m in s && forall k :: k in s ==> m <= k
  {
    var m := LeastElement(s);
  }

  function Min(s: set<int>): (m: int)
    requires s != {}
    ensures m in s && forall k :: k in s ==> m <= k
  {
    HasMin(s);
    var m :| m in s && forall k :: k in s ==> m <= k;
    m
  }

  predicate StrictlyIncreasing(s: seq<int>) {
    forall i, j :: 0 <= i < j < |s| ==> s[i] < s[j]
  }

  /** The elements of `s` in ascending order, each once. */
  function SortedKeys(s: set<int>): (r: seq<int>)
    ensures |r| == |s|
    ensures StrictlyIncreasing(r)
    ensures forall k :: k in r <==> k in s
    decreases |s|
  {
    if s == {} then []
    else
      var m := Min(s);
      [m] + SortedKeys(s - {m})
  }

  /** `rows` lists every entry of `table` exactly once, in ascending key order,
    * where `key` reads the key an entry carries. */
  predicate ListsInKeyOrder<T(==)>(rows: seq<T>, table: map<int, T>, key: T -> int) {
    && |rows| == |table|
    && (forall i :: 0 <= i < |rows| ==> key(rows[i]) in table && table[key(rows[i])] == rows[i])
    && (forall i, j :: 0 <= i < j < |rows| ==> key(rows[i]) < key(rows[j]))
    && (forall k :: k in table ==> exists i :: 0 <= i < |rows| && key(rows[i]) == k)
  }

  /** `table.OrderBy(x => key(x)).ToList()` for a table whose entries carry their own key. */
  function InKeyOrder<T(==)>(table: map<int, T>, key: T -> int): (rows: seq<T>)
    requires forall k :: k in table ==> key(table[k]) == k
    ensures ListsInKeyOrder(rows, table, key)
  {
    var ks := SortedKeys(table.Keys);
    assert forall i :: 0 <= i < |ks| ==> ks[i] in table;
    var rows := seq(|ks|, i requires 0 <= i < |ks| => table[ks[i]]);
    assert forall i :: 0 <= i < |ks| ==> rows[i] == table[ks[i]];
    RowsInKeyOrder(table, key, ks, rows);
    rows
  }

  /** The rows read off an ascending enumeration of the keys are in key order. */
  lemma RowsInKeyOrder<T>(table: map<int, T>, key: T -> int, ks: seq<int>, rows: seq<T>)
    requires forall k :: k in table ==> key(table[k]) == k
    requires |ks| == |table| && StrictlyIncreasing(ks) && forall k :: k in ks <==> k in table
    requires |rows| == |ks| && forall i :: 0 <= i < |ks| ==> ks[i] in table && rows[i] == table[ks[i]]
    ensures ListsInKeyOrder(rows, table, key)
  {
    assert forall i :: 0 <= i < |rows| ==> key(rows[i]) == ks[i];
    forall k | k in table ensures exists i :: 0 <= i < |rows| && key(rows[i]) == k {
      var i :| 0 <= i < |ks| && ks[i] == k;
      assert key(rows[i]) == k;
    }
  }

  /** Of two key-ordered listings of one table that agree below `i`, the
    * second's key at `i` is no larger than the first's. */
  lemma KeyNotAbove<T>(a: seq<T>, b: seq<T>, table: map<int, T>, key: T -> int, i: int)
    requires ListsInKeyOrder(a, table, key) && ListsInKeyOrder(b, table, key)
    requires 0 <= i < |a|
    requires forall h :: 0 <= h < i ==> key(a[h]) == key(b[h])
    ensures key(b[i]) <= key(a[i])
  {
    var j :| 0 <= j < |b| && key(b[j]) == key(a[i]);
    assert i <= j;
    assert key(b[i]) <= key(b[j]);
  }

  /** Two key-ordered listings of one table carry the same key at every place. */
  lemma {:induction false} KeyAt<T>(a: seq<T>, b: seq<T>, table: map<int, T>, key: T -> int, i: int)
    requires ListsInKeyOrder(a, table, key) && ListsInKeyOrder(b, table, key)
    requires 0 <= i < |a|
    ensures key(a[i]) == key(b[i])
    decreases i
  {
    forall h | 0 <= h < i ensures key(a[h]) == key(b[h]) {
      KeyAt(a, b, table, key, h);
    }
    KeyNotAbove(a, b, table, key, i);
    KeyNotAbove(b, a, table, key, i);
  }

  /** A table has exactly one listing in key order. */
  lemma KeyOrderUnique<T>(a: seq<T>, b: seq<T>, table: map<int, T>, key: T -> int)
    requires ListsInKeyOrder(a, table, key) && ListsInKeyOrder(b, table, key)
    ensures a == b
  {
    forall h | 0 <= h < |a| ensures a[h] == b[h] {
      KeyAt(a, b, table, key, h);
    }
  }

  /** A one-row table is listed as that row. */
  lemma SingletonInKeyOrder<T>(x: T, key: T -> int)
    ensures ListsInKeyOrder([x], map[key(x) := x], key)
  {
    var table := map[key(x) := x];
    assert table.Keys == {key(x)};
    forall k | k in table ensures exists i :: 0 <= i < |[x]| && key([x][i]) == k {
      assert key([x][0]) == k;
    }
  }

  /** Adding a fresh key and removing it again gives the table back. */
  lemma RemoveFresh<T>(table: map<int, T>, k: int, x: T)
    requires k !in table
    ensures table[k := x] - {k} == table
  {
  }

  /** Adding an entry under a key above all present ones appends it to the listing. */
  lemma AppendInKeyOrder<T>(rows: seq<T>, table: map<int, T>, key: T -> int, x: T)
    requires ListsInKeyOrder(rows, table, key)
    requires forall k :: k in table ==> k < key(x)
    ensures ListsInKeyOrder(rows + [x], table[key(x) := x], key)
  {
    var rows' := rows + [x];
    var table' := table[key(x) := x];
    assert key(x) !in table by {
      assert forall k :: k in table ==> k != key(x);
    }
    assert |table'| == |table| + 1;
    AppendedRowsStored(rows, table, key, x);
    forall i, j | 0 <= i < j < |rows'| ensures key(rows'[i]) < key(rows'[j]) {
      assert rows'[i] == rows[i];
      if j < |rows| {
        assert rows'[j] == rows[j];
      } else {
        assert key(rows[i]) in table;
      }
    }
    forall k | k in table' ensures exists i :: 0 <= i < |rows'| && key(rows'[i]) == k {
      if k == key(x) {
        assert key(rows'[|rows|]) == k;
      } else {
        var i :| 0 <= i < |rows| && key(rows[i]) == k;
        assert key(rows'[i]) == k;
      }
    }
  }

  lemma AppendedRowsStored<T>(rows: seq<T>, table: map<int, T>, key: T -> int, x: T)
    requires forall i :: 0 <= i < |rows| ==> key(rows[i]) in table && table[key(rows[i])] == rows[i]
    requires key(x) !in table
    ensures var rows', table' := rows + [x], table[key(x) := x];
      forall i :: 0 <= i < |rows'| ==> key(rows'[i]) in table' && table'[key(rows'[i])] == rows'[i]
  {
    var rows', table' := rows + [x], table[key(x) := x];
    forall i | 0 <= i < |rows'| ensures key(rows'[i]) in table' && table'[key(rows'[i])] == rows'[i] {
      if i < |rows| {
        assert rows'[i] == rows[i];
      }
    }
  }

  /** A listing whose rows carry the same keys as a key-ordered listing of
    * `table`, and which are the entries of an equally large `table'` whose
    * keys are all `table`'s, lists `table'` in key order. */
  lemma SameKeysInKeyOrder<T>(rows: seq<T>, table: map<int, T>, rows': seq<T>, table': map<int, T>, key: T -> int)
    requires ListsInKeyOrder(rows, table, key)
    requires |rows'| == |rows| && |table'| == |table| && forall k :: k in table' ==> k in table
    requires forall j :: 0 <= j < |rows| ==> key(rows'[j]) == key(rows[j])
    requires forall j :: 0 <= j < |rows'| ==> key(rows'[j]) in table' && table'[key(rows'[j])] == rows'[j]
    ensures ListsInKeyOrder(rows', table', key)
  {
    forall k | k in table' ensures exists j :: 0 <= j < |rows'| && key(rows'[j]) == k {
      var j :| 0 <= j < |rows| && key(rows[j]) == k;
      assert key(rows'[j]) == k;
    }
  }

  /** Overwriting the entry under a present key replaces it in place in the
    * listing; the result is that entry's position. */
  lemma ReplaceInKeyOrder<T>(rows: seq<T>, table: map<int, T>, key: T -> int, x: T) returns (i: int)
    requires ListsInKeyOrder(rows, table, key)
    requires key(x) in table
    ensures 0 <= i < |rows| && rows[i] == table[key(x)]
    ensures ListsInKeyOrder(rows[i := x], table[key(x) := x], key)
  {
    i :| 0 <= i < |rows| && key(rows[i]) == key(x);
    var rows' := rows[i := x];
    var table' := table[key(x) := x];
    assert |table'| == |table| && forall k :: k in table' ==> k in table;
    forall j | 0 <= j < |rows'| ensures key(rows'[j]) in table' && table'[key(rows'[j])] == rows'[j] {
      if j != i {
        assert key(rows[j]) != key(x);
      }
    }
    SameKeysInKeyOrder(rows, table, rows', table', key);
  }

  /** The listing after overwriting a present entry is the listing before
    * with that entry replaced in place. */
  lemma ReplacedListing<T>(before: seq<T>, after: seq<T>, table: map<int, T>, key: T -> int, x: T) returns (i: int)
    requires key(x) in table
    requires ListsInKeyOrder(before, table, key) && ListsInKeyOrder(after, table[key(x) := x], key)
    ensures 0 <= i < |before| && before[i] == table[key(x)] && after == before[i := x]
  {
    i := ReplaceInKeyOrder(before, table, key, x);
    KeyOrderUnique(after, before[i := x], table[key(x) := x], key);
  }

  /** The listing after adding an entry under a key above all present ones
    * is the listing before with that entry appended. */
  lemma AppendedListing<T>(before: seq<T>, after: seq<T>, table: map<int, T>, key: T -> int, x: T)
    requires forall k :: k in table ==> k < key(x)
    requires ListsInKeyOrder(before, table, key) && ListsInKeyOrder(after, table[key(x) := x], key)
    ensures after == before + [x]
  {
    AppendInKeyOrder(before, table, key, x);
    KeyOrderUnique(after, before + [x], table[key(x) := x], key);
  }

  /** Where a present key's entry sits in a key-ordered listing. */
  lemma PositionOf<T>(rows: seq<T>, table: map<int, T>, key: T -> int, k: int) returns (i: int)
    requires ListsInKeyOrder(rows, table, key) && k in table
    ensures 0 <= i < |rows| && rows[i] == table[k]
  {
    i :| 0 <= i < |rows| && key(rows[i]) == k;
  }
}
