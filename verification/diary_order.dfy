/**
 Newest-first ordering of diaries, shared by the timeline and by the
 recent-memory context of the AI requests. Both call `Array.prototype.sort`
 with a comparator that subtracts `new Date(...)` values: the date first and,
 on the timeline only, `createdAt` as a tie-break when both entries carry it.
 For `yyyy-MM-dd` dates and `toISOString` timestamps that subtraction has the
 sign of the string comparison (`Dates.FormatOrder` proves it for dates), so
 the strings are compared. `Array.prototype.sort` is stable; a stable
 insertion sort stands in for the engine's algorithm.
 */
module DiaryOrder {
  import opened Common
  import DiaryStore

  type Diary = DiaryStore.Diary

  /** The comparator returns a negative number: `a` belongs strictly before `b`. */
  predicate Precedes(a: Diary, b: Diary, byCreated: bool) {
    StrLt(b.date, a.date)
    || (byCreated && a.date == b.date && TruthyStr(a.createdAt) && TruthyStr(b.createdAt)
        && StrLt(b.createdAt.value, a.createdAt.value))
  }

  /** Newest day first. */
  predicate DateDescending(s: seq<Diary>) {
    forall i, j :: 0 <= i < j < |s| ==> !StrLt(s[i].date, s[j].date)
  }

  /** Place `x` in front of the first element that does not strictly precede it. */
  function Insert(x: Diary, t: seq<Diary>, byCreated: bool): (r: seq<Diary>)
    ensures multiset(r) == multiset(t) + multiset{x}
  {
    if |t| == 0 then [x]
    else if Precedes(t[0], x, byCreated) then
      assert t == [t[0]] + t[1..];
      [t[0]] + Insert(x, t[1..], byCreated)
    else [x] + t
  }

  /** An element that strictly precedes `x` is not on an earlier day than `x`. */
  lemma PrecedesNotEarlier(a: Diary, x: Diary, byCreated: bool)
    requires Precedes(a, x, byCreated)
    ensures !StrLt(a.date, x.date)
  {
    if StrLt(x.date, a.date) {
      StrLtAsymmetric(x.date, a.date);
    } else {
      StrLtIrreflexive(x.date);
    }
  }

  /** "Not on an earlier day" is transitive. */
  lemma NotEarlierTransitive(a: string, b: string, c: string)
    requires !StrLt(a, b) && !StrLt(b, c)
    ensures !StrLt(a, c)
  {
    if StrLt(a, c) {
      StrLtTotal(a, b);
      if StrLt(b, a) {
        StrLtTransitive(b, a, c);
      }
    }
  }

  /** Insertion keeps a date-descending list date-descending. */
  lemma {:induction false} InsertDescending(x: Diary, t: seq<Diary>, byCreated: bool)
    requires DateDescending(t)
    ensures DateDescending(Insert(x, t, byCreated))
    decreases |t|
  {
    if |t| > 0 {
      if Precedes(t[0], x, byCreated) {
        var rest := Insert(x, t[1..], byCreated);
        InsertDescending(x, t[1..], byCreated);
        forall k | 0 <= k < |rest| ensures !StrLt(t[0].date, rest[k].date) {
          assert rest[k] in multiset(t[1..]) + multiset{x};
          if rest[k] == x {
            PrecedesNotEarlier(t[0], x, byCreated);
          } else {
            assert rest[k] in t[1..];
          }
        }
      } else {
        forall k | 0 < k < |t| ensures !StrLt(x.date, t[k].date) {
          NotEarlierTransitive(x.date, t[0].date, t[k].date);
        }
      }
    }
  }

  /**
   `[...diaries].sort(comparator)`. With the `createdAt` tie-break the
   comparator is not a consistent order when only some entries carry
   `createdAt`, so the arrangement of same-day entries is then
   engine-specific; the day order and the multiset of entries hold for every
   engine. When every entry carries `createdAt` (as every diary `addDiary`
   stores does) the comparator is a consistent order and
   `SortByCreatedWithinDay` states the same-day order.
   */
  function Sort(ds: seq<Diary>, byCreated: bool): (r: seq<Diary>)
    ensures multiset(r) == multiset(ds)
    ensures |r| == |ds|
    ensures DateDescending(r)
  {
    if |ds| == 0 then []
    else
      assert ds == [ds[0]] + ds[1..];
      InsertDescending(ds[0], Sort(ds[1..], byCreated), byCreated);
      Insert(ds[0], Sort(ds[1..], byCreated), byCreated)
  }

  /** Sorting a list whose days are already strictly descending changes nothing. */
  lemma {:induction false} SortStrictlyDescendingIsIdentity(ds: seq<Diary>, byCreated: bool)
    requires forall i, j :: 0 <= i < j < |ds| ==> StrLt(ds[j].date, ds[i].date)
    ensures Sort(ds, byCreated) == ds
    decreases |ds|
  {
    if |ds| > 0 {
      SortStrictlyDescendingIsIdentity(ds[1..], byCreated);
      if |ds| > 1 {
        StrLtAsymmetric(ds[1].date, ds[0].date);
        StrLtIrreflexive(ds[0].date);
        assert !Precedes(ds[1], ds[0], byCreated);
      }
      assert ds == [ds[0]] + ds[1..];
    }
  }

  /** Position of a diary in a list, when it occurs. */
  function IndexOfDiary(s: seq<Diary>, x: Diary): (k: nat)
    requires x in s
    ensures k < |s| && s[k] == x
    ensures forall m :: 0 <= m < k ==> s[m] != x
  {
    if s[0] == x then 0 else 1 + IndexOfDiary(s[1..], x)
  }

  /** Insertion puts `x` before every same-day element of the list it is inserted into. */
  lemma {:induction false} InsertBeforeSameDay(x: Diary, t: seq<Diary>, y: Diary)
    requires y in t && y.date == x.date && x != y
    ensures x in Insert(x, t, false) && y in Insert(x, t, false)
    ensures IndexOfDiary(Insert(x, t, false), x) < IndexOfDiary(Insert(x, t, false), y)
    decreases |t|
  {
    var r := Insert(x, t, false);
    assert x in multiset(r) && y in multiset(r);
    if Precedes(t[0], x, false) {
      assert t[0] != y by { StrLtIrreflexive(x.date); }
      assert y in t[1..];
      InsertBeforeSameDay(x, t[1..], y);
      var rest := Insert(x, t[1..], false);
      assert r == [t[0]] + rest;
      assert t[0] != x by { StrLtIrreflexive(x.date); }
      assert r[1..] == rest;
    } else {
      assert r == [x] + t;
    }
  }

  /** Insertion keeps the relative order of two elements already in the list. */
  lemma {:induction false} InsertKeepsOrder(x: Diary, t: seq<Diary>, a: Diary, b: Diary)
    requires a in t && b in t && a != x && b != x && a != b
    requires IndexOfDiary(t, a) < IndexOfDiary(t, b)
    ensures a in Insert(x, t, false) && b in Insert(x, t, false)
    ensures IndexOfDiary(Insert(x, t, false), a) < IndexOfDiary(Insert(x, t, false), b)
    decreases |t|
  {
    var r := Insert(x, t, false);
    assert a in multiset(r) && b in multiset(r);
    if Precedes(t[0], x, false) {
      var rest := Insert(x, t[1..], false);
      assert r == [t[0]] + rest;
      assert r[1..] == rest;
      if t[0] != a {
        assert a in t[1..] && b in t[1..];
        assert IndexOfDiary(t, a) == 1 + IndexOfDiary(t[1..], a);
        assert IndexOfDiary(t, b) == 1 + IndexOfDiary(t[1..], b);
        InsertKeepsOrder(x, t[1..], a, b);
      }
    } else {
      assert r == [x] + t;
      assert r[1..] == t;
    }
  }

  /** Sorting a non-empty list inserts its head into the sorted tail. */
  lemma SortUnfold(ds: seq<Diary>, byCreated: bool)
    requires |ds| > 0
    ensures Sort(ds, byCreated) == Insert(ds[0], Sort(ds[1..], byCreated), byCreated)
  {
  }

  lemma NoDuplicatesTail(ds: seq<Diary>)
    requires |ds| > 0 && NoDuplicates(ds)
    ensures NoDuplicates(ds[1..])
    ensures ds[0] !in ds[1..]
  {
    forall p, q | 0 <= p < q < |ds[1..]| ensures ds[1..][p] != ds[1..][q] {
      assert ds[1..][p] == ds[p + 1] && ds[1..][q] == ds[q + 1];
    }
  }

  /** Sorting keeps every element. */
  lemma InSorted(ds: seq<Diary>, x: Diary, byCreated: bool)
    requires x in ds
    ensures x in Sort(ds, byCreated)
  {
    assert x in multiset(ds);
  }

  /** The first entry comes out before every later entry of the same day. */
  lemma StableAtHead(ds: seq<Diary>, j: nat)
    requires NoDuplicates(ds)
    requires 0 < j < |ds| && ds[0].date == ds[j].date
    ensures ds[0] in Sort(ds, false) && ds[j] in Sort(ds, false)
    ensures IndexOfDiary(Sort(ds, false), ds[0]) < IndexOfDiary(Sort(ds, false), ds[j])
  {
    SortUnfold(ds, false);
    assert ds[1..][j - 1] == ds[j];
    InSorted(ds[1..], ds[j], false);
    InsertBeforeSameDay(ds[0], Sort(ds[1..], false), ds[j]);
  }

  /** Two later entries keep the order the sorted tail gives them when the head is inserted. */
  lemma StableInTail(ds: seq<Diary>, i: nat, j: nat)
    requires NoDuplicates(ds)
    requires 0 < i < j < |ds|
    requires ds[i] in Sort(ds[1..], false) && ds[j] in Sort(ds[1..], false)
    requires IndexOfDiary(Sort(ds[1..], false), ds[i]) < IndexOfDiary(Sort(ds[1..], false), ds[j])
    ensures ds[i] in Sort(ds, false) && ds[j] in Sort(ds, false)
    ensures IndexOfDiary(Sort(ds, false), ds[i]) < IndexOfDiary(Sort(ds, false), ds[j])
  {
    SortUnfold(ds, false);
    assert ds[i] != ds[0] && ds[j] != ds[0] && ds[i] != ds[j];
    InsertKeepsOrder(ds[0], Sort(ds[1..], false), ds[i], ds[j]);
  }

  /** Two distinct same-day entries come out of the date-only sort in their input order: the sort is stable. */
  lemma {:induction false} SortByDateIsStable(ds: seq<Diary>, i: nat, j: nat)
    requires NoDuplicates(ds)
    requires i < j < |ds| && ds[i].date == ds[j].date
    ensures ds[i] in Sort(ds, false) && ds[j] in Sort(ds, false)
    ensures IndexOfDiary(Sort(ds, false), ds[i]) < IndexOfDiary(Sort(ds, false), ds[j])
    decreases |ds|
  {
    if i == 0 {
      StableAtHead(ds, j);
    } else {
      NoDuplicatesTail(ds);
      assert ds[1..][i - 1] == ds[i] && ds[1..][j - 1] == ds[j];
      SortByDateIsStable(ds[1..], i - 1, j - 1);
      StableInTail(ds, i, j);
    }
  }

  /** Every entry carries a truthy `createdAt`. */
  predicate AllCreated(ds: seq<Diary>) {
    forall d :: d in ds ==> TruthyStr(d.createdAt)
  }

  /** No entry strictly precedes an entry placed before it under the timeline comparator. */
  predicate CreatedDescending(s: seq<Diary>) {
    forall i, j :: 0 <= i < j < |s| ==> !Precedes(s[j], s[i], true)
  }

  /** Two entries never strictly precede each other. */
  lemma PrecedesAsymmetric(a: Diary, b: Diary)
    requires Precedes(a, b, true)
    ensures !Precedes(b, a, true)
  {
    if StrLt(b.date, a.date) {
      StrLtAsymmetric(b.date, a.date);
      StrLtIrreflexive(a.date);
    } else {
      StrLtIrreflexive(a.date);
      StrLtAsymmetric(b.createdAt.value, a.createdAt.value);
    }
  }

  /** With `createdAt` on the middle entry, "does not strictly precede" is transitive. */
  lemma NotPrecedesTransitive(a: Diary, b: Diary, c: Diary)
    requires TruthyStr(b.createdAt)
    requires !Precedes(b, a, true) && !Precedes(c, b, true)
    ensures !Precedes(c, a, true)
  {
    NotEarlierTransitive(a.date, b.date, c.date);
    if a.date == c.date && TruthyStr(a.createdAt) && TruthyStr(c.createdAt) {
      if a.date != b.date {
        StrLtTotal(a.date, b.date);
        assert false;
      }
      NotEarlierTransitive(a.createdAt.value, b.createdAt.value, c.createdAt.value);
    }
  }

  /** Insertion keeps a consistently ordered list consistently ordered when every entry carries `createdAt`. */
  lemma {:induction false} InsertCreatedDescending(x: Diary, t: seq<Diary>)
    requires AllCreated(t) && TruthyStr(x.createdAt)
    requires CreatedDescending(t)
    ensures CreatedDescending(Insert(x, t, true))
    decreases |t|
  {
    if |t| > 0 {
      if Precedes(t[0], x, true) {
        var rest := Insert(x, t[1..], true);
        assert AllCreated(t[1..]) by {
          forall d | d in t[1..] ensures TruthyStr(d.createdAt) { assert d in t; }
        }
        InsertCreatedDescending(x, t[1..]);
        assert Insert(x, t, true) == [t[0]] + rest;
        forall k | 0 <= k < |rest| ensures !Precedes(rest[k], t[0], true) {
          assert rest[k] in multiset(t[1..]) + multiset{x};
          if rest[k] == x {
            PrecedesAsymmetric(t[0], x);
          } else {
            assert rest[k] in t[1..];
          }
        }
      } else {
        assert Insert(x, t, true) == [x] + t;
        forall k | 0 < k < |t| ensures !Precedes(t[k], x, true) {
          NotPrecedesTransitive(x, t[0], t[k]);
        }
      }
    }
  }

  /** Sorting with the tie-break gives a consistent order when every entry carries `createdAt`. */
  lemma {:induction false} SortCreatedDescending(ds: seq<Diary>)
    requires AllCreated(ds)
    ensures CreatedDescending(Sort(ds, true))
    decreases |ds|
  {
    if |ds| > 0 {
      var tail := Sort(ds[1..], true);
      assert AllCreated(ds[1..]) by {
        forall d | d in ds[1..] ensures TruthyStr(d.createdAt) { assert d in ds; }
      }
      SortCreatedDescending(ds[1..]);
      assert AllCreated(tail) by {
        forall d | d in tail ensures TruthyStr(d.createdAt) {
          assert d in multiset(ds[1..]);
        }
      }
      assert ds[0] in ds;
      InsertCreatedDescending(ds[0], tail);
    }
  }

  /** Entries of the same day carry `createdAt`, the newest first. */
  predicate SameDayNewestCreatedFirst(r: seq<Diary>) {
    forall i, j :: 0 <= i < j < |r| && r[i].date == r[j].date ==>
      TruthyStr(r[i].createdAt) && TruthyStr(r[j].createdAt) && !StrLt(r[i].createdAt.value, r[j].createdAt.value)
  }

  /**
   When every entry carries `createdAt`, entries of the same day come out of
   the timeline sort newest `createdAt` first.
   */
  lemma SortByCreatedWithinDay(ds: seq<Diary>)
    ensures AllCreated(ds) ==> SameDayNewestCreatedFirst(Sort(ds, true))
  {
    if AllCreated(ds) {
      var r := Sort(ds, true);
      SortCreatedDescending(ds);
      forall i, j | 0 <= i < j < |r| && r[i].date == r[j].date
        ensures TruthyStr(r[i].createdAt) && TruthyStr(r[j].createdAt) && !StrLt(r[i].createdAt.value, r[j].createdAt.value)
      {
        assert r[i] in multiset(ds) && r[j] in multiset(ds);
        assert !Precedes(r[j], r[i], true);
      }
    }
  }
}
