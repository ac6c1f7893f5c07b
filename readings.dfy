/**
 * Step 1 of `kwh2kw` (src/lib/utils.ts): copy the readings, sort them by timestamp and keep one
 * point per timestamp. Both the sort and the filter are expression-style array operations
 * there, so they are functions here.
 */
module Readings {

  /** `Point` of src/lib/utils.ts: a timestamp in whole seconds and a value (kWh in, kW out). */
  datatype Point = Point(ts: int, pt: real)

  ghost predicate SortedByTs(s: seq<Point>)
  {
    forall i, k :: 0 <= i < k < |s| ==> s[i].ts <= s[k].ts
  }

  ghost predicate StrictlyIncreasing(s: seq<Point>)
  {
    forall i, k :: 0 <= i < k < |s| ==> s[i].ts < s[k].ts
  }

  /** The distinct timestamps occurring in `s`. */
  function Timestamps(s: seq<Point>): set<int>
  {
    set p | p in s :: p.ts
  }

  /** Each point of `r` is the first point of `a` that carries its timestamp. */
  ghost predicate FirstPerTimestamp(r: seq<Point>, a: seq<Point>)
  {
    forall i :: 0 <= i < |r| ==> WithTs(a, r[i].ts) != [] && r[i] == WithTs(a, r[i].ts)[0]
  }

  /** The points of `s` stamped `t`, in their order in `s`. */
  function WithTs(s: seq<Point>, t: int): seq<Point>
  {
    if |s| == 0 then []
    else WithTs(s[..|s| - 1], t) + (if s[|s| - 1].ts == t then [s[|s| - 1]] else [])
  }

  /** Places `p` after every point whose timestamp is at most `p.ts`. */
  function InsertByTs(s: seq<Point>, p: Point): seq<Point>
  {
    if |s| == 0 || s[|s| - 1].ts <= p.ts then s + [p]
    else InsertByTs(s[..|s| - 1], p) + [s[|s| - 1]]
  }

  /**
   * `[...history].sort((a, b) => a.ts - b.ts)`. `Array.prototype.sort` is stable, and a stable
   * sort has only one possible result, so a stable insertion sort computes exactly that result.
   */
  function SortByTs(h: seq<Point>): seq<Point>
  {
    if |h| == 0 then [] else InsertByTs(SortByTs(h[..|h| - 1]), h[|h| - 1])
  }

  /** `.filter((p, i, arr) => i === 0 || p.ts !== arr[i - 1].ts)`: keeps a point unless its predecessor has the same timestamp. */
  function DropRepeatedTs(a: seq<Point>): seq<Point>
  {
    if |a| == 0 then []
    else
      DropRepeatedTs(a[..|a| - 1])
      + (if |a| == 1 || a[|a| - 1].ts != a[|a| - 2].ts then [a[|a| - 1]] else [])
  }

  /** The array `sorted` of `kwh2kw`: sorted, then filtered. */
  function Working(history: seq<Point>): seq<Point>
  {
    DropRepeatedTs(SortByTs(history))
  }

  lemma {:induction false} InsertByTsPermutes(s: seq<Point>, p: Point)
    ensures multiset(InsertByTs(s, p)) == multiset(s) + multiset{p}
    decreases |s|
  {
    if !(|s| == 0 || s[|s| - 1].ts <= p.ts) {
      InsertByTsPermutes(s[..|s| - 1], p);
      assert s[..|s| - 1] + [s[|s| - 1]] == s;
    }
  }

  lemma {:induction false} InsertByTsSorted(s: seq<Point>, p: Point)
    requires SortedByTs(s)
    ensures SortedByTs(InsertByTs(s, p))
    decreases |s|
  {
    if !(|s| == 0 || s[|s| - 1].ts <= p.ts) {
      var s', x := s[..|s| - 1], s[|s| - 1];
      InsertByTsSorted(s', p);
      InsertByTsPermutes(s', p);
      var r' := InsertByTs(s', p);
      forall i | 0 <= i < |r'| ensures r'[i].ts <= x.ts {
        assert r'[i] in multiset(r');
        assert r'[i] == p || r'[i] in s';
      }
    }
  }

  /** The sort returns the readings themselves, in ascending timestamp order. */
  lemma {:induction false} SortByTsSortsAndPermutes(h: seq<Point>)
    ensures SortedByTs(SortByTs(h))
    ensures multiset(SortByTs(h)) == multiset(h)
    decreases |h|
  {
    if |h| > 0 {
      SortByTsSortsAndPermutes(h[..|h| - 1]);
      InsertByTsSorted(SortByTs(h[..|h| - 1]), h[|h| - 1]);
      InsertByTsPermutes(SortByTs(h[..|h| - 1]), h[|h| - 1]);
      assert h[..|h| - 1] + [h[|h| - 1]] == h;
    }
  }

  lemma {:induction false} InsertByTsWithTs(s: seq<Point>, p: Point, t: int)
    requires SortedByTs(s)
    ensures WithTs(InsertByTs(s, p), t) == WithTs(s, t) + (if p.ts == t then [p] else [])
    decreases |s|
  {
    if |s| == 0 || s[|s| - 1].ts <= p.ts {
      assert (s + [p])[..|s|] == s;
    } else {
      var s', x := s[..|s| - 1], s[|s| - 1];
      InsertByTsWithTs(s', p, t);
      var r := InsertByTs(s', p) + [x];
      assert r[..|r| - 1] == InsertByTs(s', p);
    }
  }

  /** Stability: for every timestamp, the points carrying it keep their input order. */
  lemma {:induction false} SortByTsStable(h: seq<Point>, t: int)
    ensures WithTs(SortByTs(h), t) == WithTs(h, t)
    decreases |h|
  {
    if |h| > 0 {
      SortByTsStable(h[..|h| - 1], t);
      SortByTsSortsAndPermutes(h[..|h| - 1]);
      InsertByTsWithTs(SortByTs(h[..|h| - 1]), h[|h| - 1], t);
    }
  }

  lemma {:induction false} WithTsAbsent(s: seq<Point>, t: int)
    requires forall i :: 0 <= i < |s| ==> s[i].ts != t
    ensures WithTs(s, t) == []
    decreases |s|
  {
    if |s| > 0 {
      WithTsAbsent(s[..|s| - 1], t);
    }
  }

  lemma {:induction false} DropRepeatedTsSubset(a: seq<Point>)
    ensures forall e :: e in DropRepeatedTs(a) ==> e in a
    decreases |a|
  {
    if |a| > 0 {
      DropRepeatedTsSubset(a[..|a| - 1]);
      assert a[..|a| - 1] + [a[|a| - 1]] == a;
    }
  }

  /** In a sorted array, every point before the last has a timestamp below a last one that differs from its predecessor. */
  lemma SortedLastIsNew(a: seq<Point>)
    requires SortedByTs(a) && |a| >= 1
    requires |a| == 1 || a[|a| - 1].ts != a[|a| - 2].ts
    ensures forall i :: 0 <= i < |a| - 1 ==> a[i].ts < a[|a| - 1].ts
  {
    forall i | 0 <= i < |a| - 1 ensures a[i].ts < a[|a| - 1].ts {
      assert a[i].ts <= a[|a| - 2].ts;
    }
  }

  lemma {:induction false} DropRepeatedTsStrict(a: seq<Point>)
    requires SortedByTs(a)
    ensures StrictlyIncreasing(DropRepeatedTs(a))
    decreases |a|
  {
    if |a| > 0 {
      var a', x := a[..|a| - 1], a[|a| - 1];
      DropRepeatedTsStrict(a');
      if |a| == 1 || x.ts != a'[|a'| - 1].ts {
        var r' := DropRepeatedTs(a');
        SortedLastIsNew(a);
        DropRepeatedTsSubset(a');
        forall i | 0 <= i < |r'| ensures r'[i].ts < x.ts {
          assert r'[i] in a';
        }
      }
    }
  }

  lemma {:induction false} DropRepeatedTsTimestamps(a: seq<Point>)
    ensures Timestamps(DropRepeatedTs(a)) == Timestamps(a)
    decreases |a|
  {
    if |a| > 0 {
      var a', x := a[..|a| - 1], a[|a| - 1];
      assert a' + [x] == a;
      DropRepeatedTsTimestamps(a');
      var r' := DropRepeatedTs(a');
      assert Timestamps(a) == Timestamps(a') + {x.ts};
      if |a| == 1 || x.ts != a'[|a'| - 1].ts {
        assert Timestamps(r' + [x]) == Timestamps(r') + {x.ts};
      } else {
        assert a'[|a'| - 1] in a';
      }
    }
  }

  /** Appending a point to `a` does not change which point comes first for a timestamp already present. */
  lemma FirstPerTimestampAppend(r: seq<Point>, a: seq<Point>, x: Point)
    requires FirstPerTimestamp(r, a)
    ensures FirstPerTimestamp(r, a + [x])
  {
    forall i | 0 <= i < |r| ensures WithTs(a + [x], r[i].ts) != [] && r[i] == WithTs(a + [x], r[i].ts)[0] {
      assert (a + [x])[..|a|] == a;
      var w := WithTs(a, r[i].ts);
      assert WithTs(a + [x], r[i].ts) == w + (if x.ts == r[i].ts then [x] else []);
    }
  }

  /** A point whose timestamp is new to `a` is the first with that timestamp in `a + [x]`. */
  lemma FirstPerTimestampNew(r: seq<Point>, a: seq<Point>, x: Point)
    requires FirstPerTimestamp(r, a + [x])
    requires forall i :: 0 <= i < |a| ==> a[i].ts != x.ts
    ensures FirstPerTimestamp(r + [x], a + [x])
  {
    WithTsAbsent(a, x.ts);
    assert (a + [x])[..|a|] == a;
    assert WithTs(a + [x], x.ts) == [x];
  }

  lemma {:induction false} DropRepeatedTsFirst(a: seq<Point>)
    requires SortedByTs(a)
    ensures FirstPerTimestamp(DropRepeatedTs(a), a)
    decreases |a|
  {
    if |a| > 0 {
      var a', x := a[..|a| - 1], a[|a| - 1];
      assert SortedByTs(a');
      DropRepeatedTsFirst(a');
      assert a' + [x] == a;
      var r' := DropRepeatedTs(a');
      FirstPerTimestampAppend(r', a', x);
      if |a| == 1 || x.ts != a'[|a'| - 1].ts {
        SortedLastIsNew(a);
        FirstPerTimestampNew(r', a', x);
      }
    }
  }

  /** For sorted input the filter keeps the first point of each run of equal timestamps, and only those. */
  lemma DropRepeatedTsKeepsFirst(a: seq<Point>)
    requires SortedByTs(a)
    ensures var r := DropRepeatedTs(a);
      && StrictlyIncreasing(r)
      && Timestamps(r) == Timestamps(a)
      && FirstPerTimestamp(r, a)
  {
    DropRepeatedTsStrict(a);
    DropRepeatedTsTimestamps(a);
    DropRepeatedTsFirst(a);
  }

  lemma MultisetSameTimestamps(a: seq<Point>, b: seq<Point>)
    requires multiset(a) == multiset(b)
    ensures Timestamps(a) == Timestamps(b)
  {
    forall p ensures p in a <==> p in b {
      assert p in a <==> p in multiset(a);
      assert p in b <==> p in multiset(b);
    }
  }

  /**
   * The working array has strictly increasing timestamps, one point for every timestamp of the
   * input, and for a repeated timestamp it holds the point that came FIRST in the input.
   */
  lemma WorkingKeepsFirstPerTimestamp(h: seq<Point>)
    ensures var w := Working(h);
      && StrictlyIncreasing(w)
      && Timestamps(w) == Timestamps(h)
      && FirstPerTimestamp(w, h)
  {
    var sorted := SortByTs(h);
    SortByTsSortsAndPermutes(h);
    MultisetSameTimestamps(sorted, h);
    DropRepeatedTsKeepsFirst(sorted);
    var w := Working(h);
    forall i | 0 <= i < |w| ensures WithTs(h, w[i].ts) != [] && w[i] == WithTs(h, w[i].ts)[0] {
      SortByTsStable(h, w[i].ts);
    }
    assert FirstPerTimestamp(w, h);
  }

  /** Every working point is one of the input readings. */
  lemma WorkingFromHistory(h: seq<Point>)
    ensures forall e :: e in Working(h) ==> e in h
  {
    SortByTsSortsAndPermutes(h);
    DropRepeatedTsSubset(SortByTs(h));
    forall e | e in Working(h) ensures e in h {
      assert e in multiset(SortByTs(h));
    }
  }

  lemma {:induction false} StrictlyIncreasingCount(w: seq<Point>)
    requires StrictlyIncreasing(w)
    ensures |Timestamps(w)| == |w|
    decreases |w|
  {
    if |w| > 0 {
      var w', x := w[..|w| - 1], w[|w| - 1];
      StrictlyIncreasingCount(w');
      assert w' + [x] == w;
      assert Timestamps(w) == Timestamps(w') + {x.ts};
      assert x.ts !in Timestamps(w');
    }
  }

  /** Exactly one working point per distinct input timestamp. */
  lemma WorkingSize(h: seq<Point>)
    ensures |Working(h)| == |Timestamps(h)|
    ensures |Working(h)| <= |h|
  {
    WorkingKeepsFirstPerTimestamp(h);
    StrictlyIncreasingCount(Working(h));
    TimestampsAtMostLength(h);
  }

  lemma {:induction false} TimestampsAtMostLength(s: seq<Point>)
    ensures |Timestamps(s)| <= |s|
    decreases |s|
  {
    if |s| > 0 {
      TimestampsAtMostLength(s[..|s| - 1]);
      assert s[..|s| - 1] + [s[|s| - 1]] == s;
      assert Timestamps(s) == Timestamps(s[..|s| - 1]) + {s[|s| - 1].ts};
    }
  }

  /** Two readings at one timestamp: the first one given is kept, although the source comment says "the last". */
  lemma KeepsFirstNotLast()
    ensures Working([Point(0, 1.0), Point(0, 2.0), Point(900, 3.0)]) == [Point(0, 1.0), Point(900, 3.0)]
  {
    var h := [Point(0, 1.0), Point(0, 2.0), Point(900, 3.0)];
    assert h[..2] == [Point(0, 1.0), Point(0, 2.0)];
    assert h[..2][..1] == [Point(0, 1.0)];
    assert SortByTs(h[..1]) == [Point(0, 1.0)];
    assert SortByTs(h[..2]) == [Point(0, 1.0), Point(0, 2.0)];
    var s := SortByTs(h);
    assert s == [Point(0, 1.0), Point(0, 2.0), Point(900, 3.0)];
    assert s[..2] == [Point(0, 1.0), Point(0, 2.0)];
    assert s[..2][..1] == [Point(0, 1.0)];
    assert DropRepeatedTs(s[..2][..1]) == [Point(0, 1.0)];
    assert DropRepeatedTs(s[..2]) == [Point(0, 1.0)];
  }
}
