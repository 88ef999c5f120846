/** Python's sorted() and statistics.median applied to a list of datetimes. */
module Statistics {
  import opened Basics
  import opened Events

  /** The exceptions statistics.median raises: StatisticsError for no data, and
      TypeError when an even count makes it add two datetimes. */
  datatype MedianError = StatisticsError | TypeError

  predicate SortedByInstant(s: seq<Event>) {
    forall i, j :: 0 <= i < j < |s| ==> s[i].instant <= s[j].instant
  }

  /** Places x after every element whose instant is not later than x's, so that
      events with equal instants keep their arrival order. */
  function Insert(s: seq<Event>, x: Event): (r: seq<Event>)
    ensures |r| == |s| + 1
  {
    if s == [] then [x]
    else if x.instant < s[0].instant then [x] + s
    else [s[0]] + Insert(s[1..], x)
  }

  /** sorted(xs) under the instant order: a stable insertion sort. */
  function SortByInstant(xs: seq<Event>): (r: seq<Event>)
    ensures |r| == |xs|
    decreases |xs|
  {
    if xs == [] then [] else Insert(SortByInstant(xs[..|xs| - 1]), xs[|xs| - 1])
  }

  lemma ConsSorted(a: Event, tail: seq<Event>)
    requires SortedByInstant(tail) && (tail == [] || a.instant <= tail[0].instant)
    ensures SortedByInstant([a] + tail)
  {
    var r := [a] + tail;
    forall i, j | 0 <= i < j < |r|
      ensures r[i].instant <= r[j].instant
    {
      if i == 0 && j > 1 {
        assert r[j] == tail[j - 1] && tail[0].instant <= tail[j - 1].instant;
      }
    }
  }

  /** Inserting into a sorted sequence keeps it sorted. */
  lemma {:induction false} InsertSorted(s: seq<Event>, x: Event)
    requires SortedByInstant(s)
    ensures SortedByInstant(Insert(s, x))
    ensures Insert(s, x)[0] == x || (s != [] && Insert(s, x)[0] == s[0])
  {
    if s == [] {
    } else if x.instant < s[0].instant {
      ConsSorted(x, s);
    } else {
      var tail := Insert(s[1..], x);
      assert SortedByInstant(s[1..]);
      InsertSorted(s[1..], x);
      assert |s| > 1 ==> s[0].instant <= s[1].instant;
      ConsSorted(s[0], tail);
    }
  }

  /** Inserting adds x and loses nothing. */
  lemma {:induction false} InsertPermutes(s: seq<Event>, x: Event)
    ensures multiset(Insert(s, x)) == multiset(s) + multiset{x}
  {
    if s != [] && x.instant >= s[0].instant {
      InsertPermutes(s[1..], x);
      assert s == [s[0]] + s[1..];
    }
  }

  /** The sort's result is sorted by instant. */
  lemma {:induction false} SortSorted(xs: seq<Event>)
    ensures SortedByInstant(SortByInstant(xs))
    decreases |xs|
  {
    if xs != [] {
      SortSorted(xs[..|xs| - 1]);
      InsertSorted(SortByInstant(xs[..|xs| - 1]), xs[|xs| - 1]);
    }
  }

  /** The sort's result is a permutation of its input. */
  lemma {:induction false} SortPermutes(xs: seq<Event>)
    ensures multiset(SortByInstant(xs)) == multiset(xs)
    decreases |xs|
  {
    if xs != [] {
      var init, last := xs[..|xs| - 1], xs[|xs| - 1];
      SortPermutes(init);
      InsertPermutes(SortByInstant(init), last);
      assert xs == init + [last];
    }
  }

  /** statistics.median: the middle of sorted(xs) for an odd count; for an even
      count Python evaluates (a + b) / 2 on two datetimes, which raises TypeError. */
  function Median(xs: seq<Event>): (r: Result<Event, MedianError>)
    ensures r.Ok? <==> |xs| % 2 == 1
    ensures |xs| == 0 ==> r == Err(StatisticsError)
    ensures |xs| > 0 && |xs| % 2 == 0 ==> r == Err(TypeError)
  {
    var data := SortByInstant(xs);
    var n := |data|;
    if n == 0 then Err(StatisticsError)
    else if n % 2 == 1 then Ok(data[n / 2])
    else Err(TypeError)
  }

  /** The conditions under which events are counted. */
  datatype Criterion = NotAfter(t: int) | NotBefore(t: int) | At(t: int)

  predicate Meets(e: Event, c: Criterion) {
    match c
    case NotAfter(t) => e.instant <= t
    case NotBefore(t) => e.instant >= t
    case At(t) => e.instant == t
  }

  /** The events of s that meet c, in their order in s. */
  function Select(s: seq<Event>, c: Criterion): (r: seq<Event>)
    ensures |r| <= |s|
  {
    if s == [] then [] else (if Meets(s[0], c) then [s[0]] else []) + Select(s[1..], c)
  }

  /** Select keeps only events of s, and only those that meet c. */
  lemma {:induction false} SelectFrom(s: seq<Event>, c: Criterion)
    ensures forall e :: e in Select(s, c) ==> e in s && Meets(e, c)
  {
    if s != [] {
      SelectFrom(s[1..], c);
    }
  }

  lemma AppendAssociates(a: seq<Event>, b: seq<Event>, c: seq<Event>)
    ensures a + (b + c) == (a + b) + c
  {
  }

  /** Select over a non-empty sequence: the first event's part, then the rest's. */
  lemma SelectCons(s: seq<Event>, c: Criterion)
    requires s != []
    ensures Select(s, c) == Select([s[0]], c) + Select(s[1..], c)
  {
    var head := if Meets(s[0], c) then [s[0]] else [];
    assert [s[0]][1..] == [];
    assert Select([s[0]], c) == head + [];
    assert head + [] == head;
  }

  lemma {:induction false} SelectAppend(a: seq<Event>, b: seq<Event>, c: Criterion)
    ensures Select(a + b, c) == Select(a, c) + Select(b, c)
    decreases |a|
  {
    if a == [] {
      assert a + b == b;
    } else {
      var ab := a + b;
      assert ab[0] == a[0] && ab[1..] == a[1..] + b;
      SelectAppend(a[1..], b, c);
      SelectCons(ab, c);
      SelectCons(a, c);
      AppendAssociates(Select([a[0]], c), Select(a[1..], c), Select(b, c));
    }
  }

  lemma {:induction false} SelectAll(a: seq<Event>, c: Criterion)
    requires forall i :: 0 <= i < |a| ==> Meets(a[i], c)
    ensures Select(a, c) == a
  {
    if a != [] {
      SelectAll(a[1..], c);
    }
  }

  lemma {:induction false} SelectNone(s: seq<Event>, c: Criterion)
    requires forall i :: 0 <= i < |s| ==> !Meets(s[i], c)
    ensures Select(s, c) == []
  {
    if s != [] {
      SelectNone(s[1..], c);
    }
  }

  /** Inserting an event earlier than all of s puts it in front, and it shares its
      instant with none of them. */
  lemma InsertSelectFront(s: seq<Event>, x: Event, c: Criterion)
    requires SortedByInstant(s) && s != [] && x.instant < s[0].instant
    ensures |Select(Insert(s, x), c)| == |Select(s, c)| + |Select([x], c)|
    ensures c.At? ==> Select(Insert(s, x), c) == Select(s, c) + Select([x], c)
  {
    assert Insert(s, x) == [x] + s;
    SelectAppend([x], s, c);
    if c.At? && Meets(x, c) {
      forall i | 0 <= i < |s|
        ensures !Meets(s[i], c)
      {
        assert s[0].instant <= s[i].instant;
      }
      SelectNone(s, c);
    }
  }

  /** Inserting behind the first event of s keeps that event in front. */
  lemma InsertSelectBehind(s: seq<Event>, x: Event, c: Criterion)
    requires s != [] && x.instant >= s[0].instant
    requires |Select(Insert(s[1..], x), c)| == |Select(s[1..], c)| + |Select([x], c)|
    requires c.At? ==> Select(Insert(s[1..], x), c) == Select(s[1..], c) + Select([x], c)
    ensures |Select(Insert(s, x), c)| == |Select(s, c)| + |Select([x], c)|
    ensures c.At? ==> Select(Insert(s, x), c) == Select(s, c) + Select([x], c)
  {
    var r, tail := Insert(s, x), Insert(s[1..], x);
    assert r[0] == s[0] && r[1..] == tail;
    SelectCons(r, c);
    SelectCons(s, c);
    AppendAssociates(Select([s[0]], c), Select(s[1..], c), Select([x], c));
  }

  /** Inserting x adds x to the events meeting c and, for the events of one
      instant, adds it after those already there. */
  lemma {:induction false} InsertSelect(s: seq<Event>, x: Event, c: Criterion)
    requires SortedByInstant(s)
    ensures |Select(Insert(s, x), c)| == |Select(s, c)| + |Select([x], c)|
    ensures c.At? ==> Select(Insert(s, x), c) == Select(s, c) + Select([x], c)
  {
    if s == [] {
    } else if x.instant < s[0].instant {
      InsertSelectFront(s, x, c);
    } else {
      assert SortedByInstant(s[1..]);
      InsertSelect(s[1..], x, c);
      InsertSelectBehind(s, x, c);
    }
  }

  /** Sorting keeps how many events meet any criterion, and it is stable: the
      events sharing one instant come out in the order they went in. */
  lemma {:induction false} SortSelect(xs: seq<Event>, c: Criterion)
    ensures |Select(SortByInstant(xs), c)| == |Select(xs, c)|
    ensures c.At? ==> Select(SortByInstant(xs), c) == Select(xs, c)
  {
    if xs != [] {
      var init, last := xs[..|xs| - 1], xs[|xs| - 1];
      SortSelect(init, c);
      SortSorted(init);
      InsertSelect(SortByInstant(init), last, c);
      assert xs == init + [last];
      SelectAppend(init, [last], c);
    }
  }

  ghost predicate SameAtEveryInstant(r: seq<Event>, xs: seq<Event>) {
    forall t :: Select(r, At(t)) == Select(xs, At(t))
  }

  /** A sorted sequence begins with an event of its earliest instant. */
  lemma FirstIsEarliest(r: seq<Event>, e: Event)
    requires SortedByInstant(r) && e in r
    ensures r[0].instant <= e.instant
  {
    var j :| 0 <= j < |r| && r[j] == e;
  }

  lemma HeadsAgree(r1: seq<Event>, r2: seq<Event>)
    requires SortedByInstant(r1) && SortedByInstant(r2) && r1 != [] && r2 != []
    requires SameAtEveryInstant(r1, r2)
    ensures r1[0] == r2[0]
  {
    var t1, t2 := r1[0].instant, r2[0].instant;
    assert Select(r1, At(t1))[0] == r1[0];
    assert Select(r2, At(t2))[0] == r2[0];
    SelectFrom(r1, At(t2));
    SelectFrom(r2, At(t1));
    FirstIsEarliest(r2, Select(r2, At(t1))[0]);
    FirstIsEarliest(r1, Select(r1, At(t2))[0]);
  }

  lemma TailsAgree(r1: seq<Event>, r2: seq<Event>)
    requires r1 != [] && r2 != [] && r1[0] == r2[0]
    requires SameAtEveryInstant(r1, r2)
    ensures SameAtEveryInstant(r1[1..], r2[1..])
  {
    forall t
      ensures Select(r1[1..], At(t)) == Select(r2[1..], At(t))
    {
      var head := if Meets(r1[0], At(t)) then [r1[0]] else [];
      assert Select(r1, At(t)) == head + Select(r1[1..], At(t));
      assert Select(r2, At(t)) == head + Select(r2[1..], At(t));
      assert Select(r1[1..], At(t)) == Select(r1, At(t))[|head|..];
      assert Select(r2[1..], At(t)) == Select(r2, At(t))[|head|..];
    }
  }

  lemma BothEmptyOrNeither(r1: seq<Event>, r2: seq<Event>)
    requires SameAtEveryInstant(r1, r2)
    ensures r1 == [] <==> r2 == []
  {
    if r1 != [] {
      assert Select(r1, At(r1[0].instant)) != [];
    }
    if r2 != [] {
      assert Select(r2, At(r2[0].instant)) != [];
    }
  }

  /** A sorted sequence that agrees with xs at every instant is unique, so any
      stable sort by instant, Python's sorted among them, yields SortByInstant(xs). */
  lemma {:induction false} StableSortIsUnique(r1: seq<Event>, r2: seq<Event>)
    requires SortedByInstant(r1) && SortedByInstant(r2)
    requires SameAtEveryInstant(r1, r2)
    ensures r1 == r2
    decreases |r1|
  {
    if r1 != [] && r2 != [] {
      HeadsAgree(r1, r2);
      TailsAgree(r1, r2);
      StableSortIsUnique(r1[1..], r2[1..]);
      assert r1 == [r1[0]] + r1[1..];
      assert r2 == [r2[0]] + r2[1..];
    } else {
      BothEmptyOrNeither(r1, r2);
    }
  }

  /** With an odd count, the median is the middle element of any stable sort of xs
      by instant. */
  lemma MedianIsMiddleOfSorted(xs: seq<Event>, sorted: seq<Event>)
    requires SortedByInstant(sorted) && SameAtEveryInstant(sorted, xs)
    requires |xs| % 2 == 1
    ensures |sorted| == |xs| && Median(xs) == Ok(sorted[|xs| / 2])
  {
    forall t
      ensures Select(SortByInstant(xs), At(t)) == Select(sorted, At(t))
    {
      SortSelect(xs, At(t));
    }
    SortSorted(xs);
    StableSortIsUnique(SortByInstant(xs), sorted);
  }

  /** In a sorted sequence, the first k + 1 events are not later than the k-th. */
  lemma SortedRankBelow(s: seq<Event>, k: nat)
    requires SortedByInstant(s) && k < |s|
    ensures |Select(s, NotAfter(s[k].instant))| >= k + 1
  {
    var t := s[k].instant;
    var below, above := s[..k + 1], s[k + 1..];
    assert s == below + above;
    forall i | 0 <= i < |below|
      ensures Meets(below[i], NotAfter(t))
    {
      assert below[i] == s[i];
    }
    SelectAppend(below, above, NotAfter(t));
    SelectAll(below, NotAfter(t));
  }

  /** In a sorted sequence, the events from the k-th on are not earlier than it. */
  lemma SortedRankAbove(s: seq<Event>, k: nat)
    requires SortedByInstant(s) && k < |s|
    ensures |Select(s, NotBefore(s[k].instant))| >= |s| - k
  {
    var t := s[k].instant;
    var below, above := s[..k], s[k..];
    assert s == below + above;
    forall i | 0 <= i < |above|
      ensures Meets(above[i], NotBefore(t))
    {
      assert above[i] == s[k + i];
    }
    SelectAppend(below, above, NotBefore(t));
    SelectAll(above, NotBefore(t));
  }

  /** The median of an odd count is one of the values, and at least half of the
      values (rounded up) are not later than it and at least as many not earlier. */
  lemma MedianRank(xs: seq<Event>)
    requires Median(xs).Ok?
    ensures Median(xs).value in xs
    ensures |Select(xs, NotAfter(Median(xs).value.instant))| >= (|xs| + 1) / 2
    ensures |Select(xs, NotBefore(Median(xs).value.instant))| >= (|xs| + 1) / 2
  {
    var s := SortByInstant(xs);
    SortSorted(xs);
    SortPermutes(xs);
    var m := s[|s| / 2];
    assert Median(xs).value == m;
    assert m in multiset(s);
    SortSelect(xs, NotAfter(m.instant));
    SortSelect(xs, NotBefore(m.instant));
    SortedRankBelow(s, |s| / 2);
    SortedRankAbove(s, |s| / 2);
  }
}
