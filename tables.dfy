/** Helpers shared by every page that keeps a small keyed table in component state:
    the `Math.max(0, ...ids) + 1` id allocator, the `rows.map(r => r.id === id ? f(r) : r)`
    update, `filter`, `find` and `reduce`-to-a-sum. */
module Tables {

  datatype Option<T> = None | Some(value: T)

  /** The outcome of a handler that may turn its input down. */
  datatype Result<T, E> = Success(value: T) | Failure(error: E)

  /** `Math.max(0, ...ids)`: the largest id, or 0 for an empty table. */
  function MaxOf(ids: seq<int>): (m: int)
    ensures 0 <= m
    ensures forall i :: 0 <= i < |ids| ==> ids[i] <= m
    ensures m == 0 || m in ids
  {
    if ids == [] then 0
    else
      var rest := MaxOf(ids[1..]);
      if ids[0] > rest then ids[0] else rest
  }

  /** The id the pages give a new row: `Math.max(0, ...ids) + 1`. */
  function NextId(ids: seq<int>): (id: int)
    ensures 1 <= id
    ensures forall i :: 0 <= i < |ids| ==> ids[i] < id
    ensures id !in ids
  {
    MaxOf(ids) + 1
  }

  /** `rows.map(r => r.id)` for a key projection. */
  function Keys<T>(rows: seq<T>, key: T -> int): (ks: seq<int>)
    ensures |ks| == |rows|
    ensures forall i :: 0 <= i < |rows| ==> ks[i] == key(rows[i])
  {
    if rows == [] then [] else [key(rows[0])] + Keys(rows[1..], key)
  }

  /** A freshly allocated id clashes with no existing row. */
  lemma NextIdIsFresh<T>(rows: seq<T>, key: T -> int)
    ensures forall r :: r in rows ==> key(r) < NextId(Keys(rows, key))
  {
    var ks := Keys(rows, key);
    forall r | r in rows
      ensures key(r) < NextId(ks)
    {
      var i :| 0 <= i < |rows| && rows[i] == r;
      assert ks[i] == key(r);
    }
  }

  /** `rows.map(r => (r.id === id ? f(r) : r))`. */
  function UpdateWhere<T>(rows: seq<T>, key: T -> int, id: int, f: T -> T): (r: seq<T>)
    ensures |r| == |rows|
    ensures forall i :: 0 <= i < |rows| ==> r[i] == (if key(rows[i]) == id then f(rows[i]) else rows[i])
  {
    if rows == [] then []
    else [if key(rows[0]) == id then f(rows[0]) else rows[0]] + UpdateWhere(rows[1..], key, id, f)
  }

  /** No two rows share a key. */
  predicate UniqueKeys<T>(rows: seq<T>, key: T -> int)
  {
    forall i, j :: 0 <= i < j < |rows| ==> key(rows[i]) != key(rows[j])
  }

  /** With unique keys a key names one row. */
  lemma UniqueKeysSame<T>(rows: seq<T>, key: T -> int, a: T, b: T)
    requires UniqueKeys(rows, key) && a in rows && b in rows && key(a) == key(b)
    ensures a == b
  {
    var i :| 0 <= i < |rows| && rows[i] == a;
    var j :| 0 <= j < |rows| && rows[j] == b;
    assert i == j;
  }

  /** Appending a row under the freshly allocated id keeps the keys unique. */
  lemma UniqueAfterAppend<T>(rows: seq<T>, x: T, key: T -> int)
    requires UniqueKeys(rows, key) && key(x) == NextId(Keys(rows, key))
    ensures UniqueKeys(rows + [x], key)
  {
    var r := rows + [x];
    var ks := Keys(rows, key);
    forall i, j | 0 <= i < j < |r|
      ensures key(r[i]) != key(r[j])
    {
      assert r[i] == rows[i];
      if j == |rows| {
        assert ks[i] == key(rows[i]);
      } else {
        assert r[j] == rows[j];
      }
    }
  }

  /** An update that keeps the key of the rows it touches keeps the keys unique. */
  lemma UniqueAfterUpdate<T>(rows: seq<T>, key: T -> int, id: int, f: T -> T)
    requires UniqueKeys(rows, key)
    requires forall x :: key(x) == id ==> key(f(x)) == id
    ensures UniqueKeys(UpdateWhere(rows, key, id, f), key)
  {
    var r := UpdateWhere(rows, key, id, f);
    assert forall i :: 0 <= i < |rows| ==> key(r[i]) == key(rows[i]);
  }

  /** With unique keys the update touches exactly the one row carrying `id`. */
  lemma UpdateWhereAt<T>(rows: seq<T>, key: T -> int, id: int, f: T -> T, k: int)
    requires UniqueKeys(rows, key) && 0 <= k < |rows| && key(rows[k]) == id
    ensures UpdateWhere(rows, key, id, f) == rows[k := f(rows[k])]
  {
    OthersDiffer(rows, key, id, k);
  }

  /** An update undone by `g` on every row it touches leaves the table as it was; toggling a
      flag twice is the instance `g == f`. */
  lemma UpdateWhereUndo<T>(rows: seq<T>, key: T -> int, id: int, f: T -> T, g: T -> T)
    requires forall x :: key(x) == id ==> key(f(x)) == id
    requires forall i :: 0 <= i < |rows| && key(rows[i]) == id ==> g(f(rows[i])) == rows[i]
    ensures UpdateWhere(UpdateWhere(rows, key, id, f), key, id, g) == rows
  {
    var once := UpdateWhere(rows, key, id, f);
    var twice := UpdateWhere(once, key, id, g);
    forall i | 0 <= i < |rows|
      ensures twice[i] == rows[i]
    {
      if key(rows[i]) == id {
        assert once[i] == f(rows[i]);
      }
    }
  }

  /** Updating an id that no row carries changes nothing. */
  lemma UpdateWhereAbsent<T>(rows: seq<T>, key: T -> int, id: int, f: T -> T)
    requires id !in Keys(rows, key)
    ensures UpdateWhere(rows, key, id, f) == rows
  {
    var r := UpdateWhere(rows, key, id, f);
    forall i | 0 <= i < |rows|
      ensures r[i] == rows[i]
    {
      assert Keys(rows, key)[i] == key(rows[i]);
    }
  }

  /** `s.filter(p)`. */
  function Filter<T(!new)>(s: seq<T>, p: T -> bool): (r: seq<T>)
    ensures |r| <= |s|
    ensures forall x :: x in r <==> x in s && p(x)
  {
    if s == [] then []
    else (if p(s[0]) then [s[0]] else []) + Filter(s[1..], p)
  }

  /** Filtering a sequence with a given first element: that element, if it passes, then the
      survivors of the rest. */
  lemma FilterCons<T(!new)>(x: T, t: seq<T>, p: T -> bool)
    ensures Filter([x] + t, p) == (if p(x) then [x] else []) + Filter(t, p)
  {
    assert ([x] + t)[1..] == t;
  }

  /** Filtering distributes over concatenation, so it keeps the survivors in their original order. */
  lemma {:induction false} FilterAppend<T(!new)>(a: seq<T>, b: seq<T>, p: T -> bool)
    ensures Filter(a + b, p) == Filter(a, p) + Filter(b, p)
  {
    if a == [] {
      assert a + b == b;
    } else {
      assert (a + b)[0] == a[0];
      assert (a + b)[1..] == a[1..] + b;
      FilterAppend(a[1..], b, p);
    }
  }

  /** Keeping everything is the identity. */
  lemma {:induction false} FilterKeepsAll<T(!new)>(s: seq<T>, p: T -> bool)
    requires forall i :: 0 <= i < |s| ==> p(s[i])
    ensures Filter(s, p) == s
  {
    if s != [] {
      assert forall i :: 0 <= i < |s| - 1 ==> s[1..][i] == s[i + 1];
      FilterKeepsAll(s[1..], p);
    }
  }

  /** With unique keys, no row but the k-th carries the k-th row's key. */
  lemma OthersDiffer<T>(rows: seq<T>, key: T -> int, id: int, k: int)
    requires UniqueKeys(rows, key) && 0 <= k < |rows| && key(rows[k]) == id
    ensures forall i :: 0 <= i < |rows| && i != k ==> key(rows[i]) != id
  {
    forall i | 0 <= i < |rows| && i != k
      ensures key(rows[i]) != id
    {
      if i < k { assert key(rows[i]) != key(rows[k]); } else { assert key(rows[k]) != key(rows[i]); }
    }
  }

  /** With unique keys, a filter that drops exactly the rows carrying `id` removes the one row
      carrying it and keeps the others in order. */
  lemma FilterKeyAt<T(!new)>(rows: seq<T>, key: T -> int, id: int, p: T -> bool, k: int)
    requires forall x :: p(x) <==> key(x) != id
    requires UniqueKeys(rows, key) && 0 <= k < |rows| && key(rows[k]) == id
    ensures Filter(rows, p) == rows[..k] + rows[k + 1..]
  {
    OthersDiffer(rows, key, id, k);
    assert forall i :: 0 <= i < |rows| && i != k ==> p(rows[i]);
    FilterAllBut(rows, p, k);
  }

  /** When only the k-th row fails the test, filtering removes just that row. */
  lemma {:induction false} FilterAllBut<T(!new)>(rows: seq<T>, p: T -> bool, k: int)
    requires 0 <= k < |rows| && !p(rows[k])
    requires forall i :: 0 <= i < |rows| && i != k ==> p(rows[i])
    ensures Filter(rows, p) == rows[..k] + rows[k + 1..]
  {
    var tail := rows[1..];
    TailPasses(rows, p, k);
    FilterCons(rows[0], tail, p);
    SplitHead(rows);
    if k == 0 {
      FilterKeepsAll(tail, p);
      DropFirst(rows);
    } else {
      FilterAllBut(tail, p, k - 1);
      DropInner(rows, k);
    }
  }

  /** The rest of a sequence passes wherever the sequence itself passes. */
  lemma TailPasses<T>(rows: seq<T>, p: T -> bool, k: int)
    requires 0 <= k < |rows| && !p(rows[k])
    requires forall i :: 0 <= i < |rows| && i != k ==> p(rows[i])
    ensures k == 0 ==> forall i :: 0 <= i < |rows[1..]| ==> p(rows[1..][i])
    ensures 0 < k ==> p(rows[0]) && !p(rows[1..][k - 1])
    ensures 0 < k ==> forall i :: 0 <= i < |rows[1..]| && i != k - 1 ==> p(rows[1..][i])
  {
    assert forall i :: 0 <= i < |rows[1..]| ==> rows[1..][i] == rows[i + 1];
  }

  lemma SplitHead<T>(rows: seq<T>)
    requires rows != []
    ensures rows == [rows[0]] + rows[1..]
  {
  }

  lemma DropFirst<T>(rows: seq<T>)
    requires rows != []
    ensures rows[..0] + rows[1..] == rows[1..]
  {
  }

  /** Removing the k-th element of a non-empty sequence, seen from its first element. */
  lemma DropInner<T>(rows: seq<T>, k: int)
    requires 0 < k < |rows|
    ensures [rows[0]] + (rows[1..][..k - 1] + rows[1..][k..]) == rows[..k] + rows[k + 1..]
  {
    assert rows[1..][..k - 1] == rows[1..k] && rows[1..][k..] == rows[k + 1..];
    assert [rows[0]] + rows[1..k] == rows[..k];
  }

  /** Removing one row keeps the remaining keys unique. */
  lemma UniqueAfterRemove<T>(rows: seq<T>, key: T -> int, k: int)
    requires UniqueKeys(rows, key) && 0 <= k < |rows|
    ensures UniqueKeys(rows[..k] + rows[k + 1..], key)
  {
    var r := rows[..k] + rows[k + 1..];
    assert forall i :: 0 <= i < |r| ==> r[i] == rows[if i < k then i else i + 1];
  }

  /** Filtering out an id no row carries keeps the whole table. */
  lemma FilterKeyAbsent<T(!new)>(rows: seq<T>, key: T -> int, id: int, p: T -> bool)
    requires forall x :: p(x) <==> key(x) != id
    requires id !in Keys(rows, key)
    ensures Filter(rows, p) == rows
  {
    assert forall i :: 0 <= i < |rows| ==> Keys(rows, key)[i] == key(rows[i]);
    FilterKeepsAll(rows, p);
  }

  /** `s.find(p)`: the first element satisfying `p`, if any. */
  function Find<T(!new)>(s: seq<T>, p: T -> bool): (r: Option<T>)
    ensures r.Some? ==> r.value in s && p(r.value)
    ensures r.None? ==> forall x :: x in s ==> !p(x)
  {
    if s == [] then None
    else if p(s[0]) then Some(s[0])
    else Find(s[1..], p)
  }

  /** `find` returns the FIRST match: an element preceded by no other match is the one returned. */
  lemma {:induction false} FindFirst<T(!new)>(s: seq<T>, p: T -> bool, i: int)
    requires 0 <= i < |s| && p(s[i])
    requires forall j :: 0 <= j < i ==> !p(s[j])
    ensures Find(s, p) == Some(s[i])
  {
    if i > 0 {
      assert !p(s[0]);
      assert forall j :: 0 <= j < i - 1 ==> s[1..][j] == s[j + 1];
      FindFirst(s[1..], p, i - 1);
    }
  }

  /** `s.reduce((sum, x) => sum + f(x), 0)`. */
  function SumOf<T(!new)>(s: seq<T>, f: T -> int): (total: int)
    ensures (forall x :: x in s ==> 0 <= f(x)) ==> 0 <= total
  {
    if s == [] then 0
    else
      assert forall x :: x in s[1..] ==> x in s;
      f(s[0]) + SumOf(s[1..], f)
  }

  /** A sum over a concatenation is the sum of the two parts. */
  lemma {:induction false} SumOfAppend<T(!new)>(a: seq<T>, b: seq<T>, f: T -> int)
    ensures SumOf(a + b, f) == SumOf(a, f) + SumOf(b, f)
  {
    if a == [] {
      assert a + b == b;
    } else {
      assert (a + b)[0] == a[0];
      assert (a + b)[1..] == a[1..] + b;
      SumOfAppend(a[1..], b, f);
    }
  }
}
