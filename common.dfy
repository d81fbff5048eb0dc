/** Values and sequence helpers shared by the backend and the frontend models.

    A calendar day is a day number. The source passes days around as
    fixed-width ISO `YYYY-MM-DD` strings; for those strings lexicographic
    order is chronological order, so comparing or sorting the strings is
    comparing or sorting the day numbers. */
module Common {

  /** A calendar day (date only, no time of day). */
  type Day = int

  datatype Option<+T> = None | Some(value: T)

  /** Ascending order (duplicates allowed). */
  predicate Sorted(s: seq<Day>) {
    forall i, j :: 0 <= i < j < |s| ==> s[i] <= s[j]
  }

  /** No value occurs twice. */
  predicate NoDup<T(==)>(s: seq<T>) {
    forall i, j :: 0 <= i < j < |s| ==> s[i] != s[j]
  }

  /** Strictly ascending order: sorted and duplicate-free at once. */
  predicate StrictlySorted(s: seq<Day>) {
    forall i, j :: 0 <= i < j < |s| ==> s[i] < s[j]
  }

  lemma StrictlySortedIff(s: seq<Day>)
    ensures StrictlySorted(s) <==> Sorted(s) && NoDup(s)
  {
    if Sorted(s) && NoDup(s) {
      forall i, j | 0 <= i < j < |s| ensures s[i] < s[j] {
        assert s[i] <= s[j] && s[i] != s[j];
      }
    }
  }

  /** Inserts `x` into a sorted sequence before the first element not smaller than it. */
  function Insert(x: Day, s: seq<Day>): (r: seq<Day>)
    requires Sorted(s)
    ensures Sorted(r)
    ensures multiset(r) == multiset(s) + multiset{x}
    ensures |r| == |s| + 1
    ensures forall y :: y in r <==> y == x || y in s
  {
    if s == [] then [x]
    else if x <= s[0] then [x] + s
    else
      assert s == [s[0]] + s[1..];
      var t := Insert(x, s[1..]);
      assert forall k :: 0 <= k < |t| ==> s[0] <= t[k] by {
        forall k | 0 <= k < |t| ensures s[0] <= t[k] {
          assert t[k] == x || t[k] in s[1..];
        }
      }
      assert multiset([s[0]] + t) == multiset{s[0]} + multiset(t);
      assert forall y :: y in [s[0]] + t <==> y == s[0] || y in t;
      [s[0]] + t
  }

  /** The ascending sort of `s`: an insertion sort that takes the elements from the back. */
  function SortSeq(s: seq<Day>): (r: seq<Day>)
    ensures Sorted(r)
    ensures multiset(r) == multiset(s)
    ensures |r| == |s|
  {
    if s == [] then []
    else
      assert s == s[..|s| - 1] + [s[|s| - 1]];
      Insert(s[|s| - 1], SortSeq(s[..|s| - 1]))
  }

  /** Inserting a value no smaller than every element appends it. */
  lemma {:induction false} InsertAtEnd(x: Day, s: seq<Day>)
    requires Sorted(s)
    requires forall i :: 0 <= i < |s| ==> s[i] <= x
    ensures Insert(x, s) == s + [x]
  {
    if s == [] {
    } else if x <= s[0] {
      assert s[0] == x;
      forall i | 0 <= i < |s| ensures s[i] == x {
        assert s[0] <= s[i];
      }
      assert [x] + s == s + [x];
    } else {
      InsertAtEnd(x, s[1..]);
      assert [s[0]] + (s[1..] + [x]) == s + [x];
    }
  }

  /** Sorting a sorted sequence changes nothing. */
  lemma {:induction false} SortSorted(s: seq<Day>)
    requires Sorted(s)
    ensures SortSeq(s) == s
  {
    if s != [] {
      var init := s[..|s| - 1];
      SortSorted(init);
      InsertAtEnd(s[|s| - 1], init);
      assert init + [s[|s| - 1]] == s;
    }
  }

  /** Inserting a new value into a strictly sorted sequence keeps it strictly sorted. */
  lemma {:induction false} InsertStrict(x: Day, s: seq<Day>)
    requires StrictlySorted(s)
    requires x !in s
    ensures StrictlySorted(Insert(x, s))
  {
    if s != [] && x > s[0] {
      InsertStrict(x, s[1..]);
      var t := Insert(x, s[1..]);
      forall k | 0 <= k < |t| ensures s[0] < t[k] {
        assert t[k] in t;
        if t[k] != x {
          var m :| 0 <= m < |s[1..]| && s[1..][m] == t[k];
          assert s[0] < s[m + 1];
        }
      }
    }
  }

  /** Sorting a strictly sorted sequence with one new value appended inserts
      that value: the result is strictly sorted and holds exactly the old values and the new one. */
  lemma SortSnocStrict(s: seq<Day>, x: Day)
    requires StrictlySorted(s) && x !in s
    ensures StrictlySorted(SortSeq(s + [x]))
    ensures forall y :: y in SortSeq(s + [x]) <==> y == x || y in s
  {
    assert (s + [x])[..|s + [x]| - 1] == s;
    StrictlySortedIff(s);
    SortSorted(s);
    InsertStrict(x, s);
  }

  /** The tail of a strictly sorted sequence holds every value but the first. */
  lemma StrictTail(s: seq<Day>)
    requires StrictlySorted(s) && s != []
    ensures forall x :: x in s[1..] <==> x in s && x != s[0]
  {
    forall x | x in s && x != s[0] ensures x in s[1..] {
      var k :| 0 <= k < |s| && s[k] == x;
      assert s[1..][k - 1] == x;
    }
    forall x | x in s[1..] ensures x != s[0] {
      var k :| 0 <= k < |s[1..]| && s[1..][k] == x;
      assert s[0] < s[k + 1];
    }
  }

  /** A strictly sorted sequence is determined by the values it holds. */
  lemma {:induction false} StrictlySortedEqual(a: seq<Day>, b: seq<Day>)
    requires StrictlySorted(a) && StrictlySorted(b)
    requires forall x :: x in a <==> x in b
    ensures a == b
  {
    if b != [] {
      assert b[0] in b;
    }
    if a != [] {
      assert a[0] in a;
      assert b != [];
      var i :| 0 <= i < |b| && b[i] == a[0];
      var j :| 0 <= j < |a| && a[j] == b[0];
      assert a[0] <= a[j] && b[0] <= b[i];
      StrictTail(a);
      StrictTail(b);
      StrictlySortedEqual(a[1..], b[1..]);
      assert a == [a[0]] + a[1..] && b == [b[0]] + b[1..];
    }
  }

  /** The first element of the sorted sequence is the least element of the input. */
  lemma SortSeqFirstIsMin(s: seq<Day>)
    requires |s| > 0
    ensures SortSeq(s)[0] in s
    ensures forall x :: x in s ==> SortSeq(s)[0] <= x
  {
    var t := SortSeq(s);
    assert t[0] in multiset(s);
    forall x | x in s ensures t[0] <= x {
      assert x in multiset(t);
    }
  }

  /** The least element of a sorted non-empty sequence is its first. */
  lemma SortedFirstIsMin(s: seq<Day>)
    requires Sorted(s) && |s| > 0
    ensures forall d :: d in s ==> s[0] <= d
  {
  }

  /** The element of `rows` stored under id `id` when the rows get consecutive ids from `base`. */
  function At<T>(rows: seq<T>, base: nat, id: nat): T
    requires base <= id < base + |rows|
  {
    rows[id - base]
  }

  /** `rows` stored under consecutive ids from `base`, as one multi-row insert into an auto-increment table stores them. */
  function Keyed<T>(base: nat, rows: seq<T>): map<nat, T> {
    map id: nat | base <= id < base + |rows| :: At(rows, base, id)
  }

  /** Storing one more row extends the stored prefix by one id. */
  lemma KeyedSnoc<T>(base: nat, rows: seq<T>, k: nat)
    requires k < |rows|
    ensures Keyed(base, rows[..k + 1]) == Keyed(base, rows[..k])[base + k := rows[k]]
  {
    var lhs, rhs := Keyed(base, rows[..k + 1]), Keyed(base, rows[..k])[base + k := rows[k]];
    assert lhs.Keys == rhs.Keys;
    forall id | id in lhs ensures lhs[id] == rhs[id] {
      if id < base + k {
        assert rows[..k][id - base] == rows[id - base];
      }
    }
  }

  /** A table holding the first `k` rows stored from `base` takes the next row under id `base + k`. */
  lemma KeyedExtend<T>(table: map<nat, T>, before: map<nat, T>, base: nat, rows: seq<T>, k: nat)
    requires k < |rows| && forall id :: id in before ==> id < base
    requires table == before + Keyed(base, rows[..k])
    ensures table[base + k := rows[k]] == before + Keyed(base, rows[..k + 1])
  {
    KeyedSnoc(base, rows, k);
  }

  /** The elements of `s` that do not occur in `drop`, in their order
      (JavaScript `s.filter((d) => !drop.includes(d))`). */
  function FilterNotIn<T(==,!new)>(s: seq<T>, drop: seq<T>): (r: seq<T>)
    ensures |r| <= |s|
    ensures forall x :: x in r <==> x in s && x !in drop
    ensures (forall i :: 0 <= i < |s| ==> s[i] in drop) ==> r == []
  {
    if s == [] then []
    else if s[0] in drop then FilterNotIn(s[1..], drop)
    else [s[0]] + FilterNotIn(s[1..], drop)
  }

  /** Filtering works element by element: the kept elements of a concatenation
      are the kept elements of each part, in order and with their repeats. */
  lemma {:induction false} FilterNotInAppend<T(!new)>(a: seq<T>, b: seq<T>, drop: seq<T>)
    ensures FilterNotIn(a + b, drop) == FilterNotIn(a, drop) + FilterNotIn(b, drop)
  {
    if a == [] {
      assert a + b == b;
    } else {
      assert (a + b)[0] == a[0];
      assert (a + b)[1..] == a[1..] + b;
      FilterNotInAppend(a[1..], b, drop);
    }
  }

  /** Filtering removes nothing exactly when no element is in `drop`, and then it is the identity. */
  lemma {:induction false} FilterNotInLength<T(!new)>(s: seq<T>, drop: seq<T>)
    ensures |FilterNotIn(s, drop)| == |s| <==> forall i :: 0 <= i < |s| ==> s[i] !in drop
    ensures |FilterNotIn(s, drop)| == |s| ==> FilterNotIn(s, drop) == s
  {
    if s != [] {
      FilterNotInLength(s[1..], drop);
      if s[0] !in drop {
        assert forall i :: 1 <= i < |s| ==> s[i] == s[1..][i - 1];
      }
    }
  }

  /** Filtering keeps strict order (every kept pair keeps its relative order). */
  lemma {:induction false} FilterNotInStrict(s: seq<Day>, drop: seq<Day>)
    requires StrictlySorted(s)
    ensures StrictlySorted(FilterNotIn(s, drop))
  {
    if s != [] {
      FilterNotInStrict(s[1..], drop);
      var t := FilterNotIn(s[1..], drop);
      forall k | 0 <= k < |t| ensures s[0] < t[k] {
        assert t[k] in s[1..];
      }
    }
  }

  /** Keeps the first occurrence of every value, in order (Laravel `unique()->values()`). */
  function Unique<T(==,!new)>(s: seq<T>): (r: seq<T>)
    ensures NoDup(r)
    ensures forall x :: x in r <==> x in s
  {
    if s == [] then []
    else
      var init := Unique(s[..|s| - 1]);
      assert forall x :: x in s <==> x in s[..|s| - 1] || x == s[|s| - 1];
      if s[|s| - 1] in s[..|s| - 1] then init else init + [s[|s| - 1]]
  }
}
