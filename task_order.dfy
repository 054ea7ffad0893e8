/** The order in which the scheduler considers tasks: by arrival time, ties
    broken by task id, where ids compare as Python strings do (code point by
    code point, a proper prefix first). The sort is the stable insertion
    sort, so it yields the same list as Python's stable list.sort. */
module TaskOrder {
  import opened Tasks

  /** Python's a <= b on strings. */
  predicate StrLe(a: string, b: string)
  {
    a == [] || (b != [] && (a[0] < b[0] || (a[0] == b[0] && StrLe(a[1..], b[1..]))))
  }

  lemma {:induction false} StrLeTotal(a: string, b: string)
    ensures StrLe(a, b) || StrLe(b, a)
  {
    if a != [] && b != [] && a[0] == b[0] {
      StrLeTotal(a[1..], b[1..]);
    }
  }

  lemma {:induction false} StrLeTransitive(a: string, b: string, c: string)
    requires StrLe(a, b) && StrLe(b, c)
    ensures StrLe(a, c)
  {
    if a != [] && a[0] == b[0] && b[0] == c[0] {
      StrLeTransitive(a[1..], b[1..], c[1..]);
    }
  }

  lemma {:induction false} StrLeAntisymmetric(a: string, b: string)
    requires StrLe(a, b) && StrLe(b, a)
    ensures a == b
  {
    if a != [] {
      StrLeAntisymmetric(a[1..], b[1..]);
      assert a == [a[0]] + a[1..] && b == [b[0]] + b[1..];
    }
  }

  /** The sort key (arrival_time, task_id) compared as a Python tuple. */
  predicate KeyLe(a: Task, b: Task)
  {
    a.arrival < b.arrival || (a.arrival == b.arrival && StrLe(a.id, b.id))
  }

  lemma KeyLeTotal(a: Task, b: Task)
    ensures KeyLe(a, b) || KeyLe(b, a)
  {
    StrLeTotal(a.id, b.id);
  }

  lemma KeyLeTransitive(a: Task, b: Task, c: Task)
    requires KeyLe(a, b) && KeyLe(b, c)
    ensures KeyLe(a, c)
  {
    if a.arrival == b.arrival == c.arrival {
      StrLeTransitive(a.id, b.id, c.id);
    }
  }

  /** Every task is at or before every later one in key order. */
  ghost predicate Ordered(s: seq<Task>)
  {
    forall i, j :: 0 <= i < j < |s| ==> KeyLe(s[i], s[j])
  }

  /** Puts t in front of the first element it is at or before in key order,
      so that among equal keys the earlier input stays first. */
  function Insert(t: Task, s: seq<Task>): (r: seq<Task>)
    ensures multiset(r) == multiset(s) + multiset{t}
  {
    if s == [] then [t]
    else if KeyLe(t, s[0]) then [t] + s
    else
      assert s == [s[0]] + s[1..];
      [s[0]] + Insert(t, s[1..])
  }

  /** The task list in key order; a permutation of the input. */
  function SortByKey(s: seq<Task>): (r: seq<Task>)
    ensures multiset(r) == multiset(s)
  {
    if s == [] then []
    else
      assert s == [s[0]] + s[1..];
      Insert(s[0], SortByKey(s[1..]))
  }

  lemma {:induction false} InsertOrdered(t: Task, s: seq<Task>)
    requires Ordered(s)
    ensures Ordered(Insert(t, s))
  {
    if s != [] {
      var r := Insert(t, s);
      if KeyLe(t, s[0]) {
        forall j | 0 < j < |r| ensures KeyLe(r[0], r[j]) {
          if j > 1 { KeyLeTransitive(t, s[0], r[j]); }
        }
      } else {
        var rest := Insert(t, s[1..]);
        assert r == [s[0]] + rest;
        InsertOrdered(t, s[1..]);
        KeyLeTotal(t, s[0]);
        forall j | 0 < j < |r| ensures KeyLe(r[0], r[j]) {
          assert r[j] == rest[j - 1];
          assert r[j] in multiset(rest);
          if r[j] != t {
            assert r[j] in multiset(s[1..]);
            var m :| 0 <= m < |s[1..]| && s[1..][m] == r[j];
            assert s[m + 1] == r[j];
          }
        }
      }
    }
  }

  /** The sort result is in key order. */
  lemma {:induction false} SortByKeyOrdered(s: seq<Task>)
    ensures Ordered(SortByKey(s))
  {
    if s != [] {
      SortByKeyOrdered(s[1..]);
      InsertOrdered(s[0], SortByKey(s[1..]));
    }
  }

  /** Sorting a list that is already in key order leaves it as it is. */
  lemma {:induction false} SortByKeyOfOrdered(s: seq<Task>)
    requires Ordered(s)
    ensures SortByKey(s) == s
  {
    if s != [] {
      assert Ordered(s[1..]);
      SortByKeyOfOrdered(s[1..]);
      if |s| > 1 {
        assert KeyLe(s[0], s[1]);
      }
    }
  }
}
