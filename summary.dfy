/** What a flush of statsdpy/statsd.py reports: the order statistics of one
    timer bucket, and the `(name, value)` entries that `pickle_payload` and
    `plain_payload` build from the three buckets. The entries are the same
    in both formats except for the name of the sixth timer entry; the plain
    format then renders each entry as one text line. */
module Summary {
  import opened PyText

  // ----- sorting and summing a timer bucket -----

  predicate Sorted(s: seq<real>)
  {
    forall i, j :: 0 <= i < j < |s| ==> s[i] <= s[j]
  }

  function Insert(x: real, s: seq<real>): (r: seq<real>)
    requires Sorted(s)
    ensures Sorted(r) && multiset(r) == multiset(s) + multiset{x}
    ensures |r| == |s| + 1 && (r[0] == x || (s != [] && r[0] == s[0]))
  {
    if s == [] || x <= s[0] then [x] + s
    else
      assert multiset(s) == multiset{s[0]} + multiset(s[1..]) by {
        assert s == [s[0]] + s[1..];
      }
      [s[0]] + Insert(x, s[1..])
  }

  /** `list.sort()` on floats: the samples in ascending order. */
  function Sort(s: seq<real>): (r: seq<real>)
    ensures Sorted(r) && multiset(r) == multiset(s) && |r| == |s|
  {
    if s == [] then []
    else
      assert multiset(s) == multiset(s[..|s| - 1]) + multiset{s[|s| - 1]} by {
        assert s == s[..|s| - 1] + [s[|s| - 1]];
      }
      Insert(s[|s| - 1], Sort(s[..|s| - 1]))
  }

  /** There is only one ascending arrangement of a bag of numbers, so `Sort`
      is the reference: any sorted permutation equals it. */
  lemma {:induction false} SortedUnique(a: seq<real>, b: seq<real>)
    requires Sorted(a) && Sorted(b) && multiset(a) == multiset(b)
    ensures a == b
    decreases |a|
  {
    if a != [] {
      assert |b| == |a| by {
        assert |multiset(a)| == |a| && |multiset(b)| == |b|;
      }
      MinOfSorted(a, b[0]);
      MinOfSorted(b, a[0]);
      assert a[0] == b[0];
      DropFirst(a);
      DropFirst(b);
      SortedUnique(a[1..], b[1..]);
    }
  }

  lemma DropFirst(s: seq<real>)
    requires s != []
    ensures multiset(s[1..]) == multiset(s) - multiset{s[0]}
  {
    assert s == [s[0]] + s[1..];
    assert multiset(s) == multiset{s[0]} + multiset(s[1..]);
  }

  lemma DropAt(s: seq<real>, i: nat)
    requires i < |s|
    ensures multiset(s[..i] + s[i + 1..]) == multiset(s) - multiset{s[i]}
  {
    assert s == s[..i] + [s[i]] + s[i + 1..];
    assert multiset(s) == multiset(s[..i]) + multiset{s[i]} + multiset(s[i + 1..]);
  }

  /** The first element of a sorted sequence is below every member. */
  lemma MinOfSorted(s: seq<real>, x: real)
    requires Sorted(s) && x in multiset(s)
    ensures s != [] && s[0] <= x
  {
    assert x in s;
  }

  lemma SortOfSorted(s: seq<real>)
    requires Sorted(s)
    ensures Sort(s) == s
  {
    SortedUnique(Sort(s), s);
  }

  /** `sum()` of a list of floats. */
  function Sum(s: seq<real>): real
  {
    if s == [] then 0.0 else s[0] + Sum(s[1..])
  }

  lemma {:induction false} SumAppend(a: seq<real>, b: seq<real>)
    ensures Sum(a + b) == Sum(a) + Sum(b)
  {
    if a != [] {
      assert (a + b)[1..] == a[1..] + b;
      SumAppend(a[1..], b);
    } else {
      assert a + b == b;
    }
  }

  /** The sum does not depend on the order of the samples. */
  lemma {:induction false} SumPermutation(a: seq<real>, b: seq<real>)
    requires multiset(a) == multiset(b)
    ensures Sum(a) == Sum(b)
    decreases |a|
  {
    if a != [] {
      assert a[0] in multiset(b);
      var i :| 0 <= i < |b| && b[i] == a[0];
      var rest := b[..i] + b[i + 1..];
      assert b == b[..i] + ([b[i]] + b[i + 1..]);
      SumAppend(b[..i], [b[i]] + b[i + 1..]);
      SumAppend(b[..i], b[i + 1..]);
      assert Sum([b[i]] + b[i + 1..]) == b[i] + Sum(b[i + 1..]) by {
        assert ([b[i]] + b[i + 1..])[1..] == b[i + 1..];
      }
      DropFirst(a);
      DropAt(b, i);
      SumPermutation(a[1..], rest);
    } else {
      assert |multiset(b)| == 0;
    }
  }

  /** A sum of `n` samples within `[lo, hi]` lies within `[n * lo, n * hi]`. */
  lemma {:induction false} SumBounds(s: seq<real>, lo: real, hi: real)
    requires forall i :: 0 <= i < |s| ==> lo <= s[i] <= hi
    ensures |s| as real * lo <= Sum(s) <= |s| as real * hi
  {
    if s != [] {
      SumBounds(s[1..], lo, hi);
    }
  }

  // ----- the percentile threshold -----

  /** Python's `s[i]`: a negative index counts from the end; `None` where it
      raises `IndexError`. */
  function PyIndex(s: seq<real>, i: int): (r: Option<real>)
    ensures r.Some? <==> -|s| <= i < |s|
    ensures r.Some? ==> r.value in s
  {
    if 0 <= i < |s| then Some(s[i])
    else if -|s| <= i < 0 then Some(s[|s| + i])
    else None
  }

  /** `int(x)` for a quotient: truncation toward zero. */
  function TruncDiv(a: int, b: int): int
    requires b > 0
  {
    if a >= 0 then a / b else -((-a) / b)
  }

  /** `int((pct_threshold / 100.0) * count)`, computed exactly. */
  function ThresholdIndex(pct: int, count: nat): int
  {
    TruncDiv(Times(pct, count), 100)
  }

  /** `a * b` as repeated addition, so that the product only enters a proof
      through `TimesIsProduct`. */
  function Times(a: int, b: nat): int
  {
    if b == 0 then 0 else Times(a, b - 1) + a
  }

  lemma {:induction false} TimesIsProduct(a: int, b: nat)
    ensures Times(a, b) == a * b
  {
    if b > 0 {
      TimesIsProduct(a, b - 1);
      assert a * b == a * (b - 1) + a;
    }
  }

  /** A threshold between 0 and 100 gives an index between 0 and the count;
      the index is the count scaled by the threshold, rounded toward zero. */
  lemma ThresholdBounds(pct: int, count: nat)
    ensures var k := ThresholdIndex(pct, count);
      && (pct >= 0 ==> 100 * k <= pct * count < 100 * (k + 1))
      && (pct < 0 ==> 100 * (k - 1) < pct * count <= 100 * k)
      && (0 <= pct <= 100 ==> 0 <= k <= count)
  {
    TimesIsProduct(pct, count);
    var p := pct * count;
    if 0 <= pct <= 100 {
      MulBounds(pct, count);
    }
    if pct < 0 {
      assert p <= 0 by {
        MulBounds(-pct, count);
      }
    }
  }

  /** A threshold between 0 and 100 gives an index between 0 and the count. */
  lemma ThresholdRange(pct: int, count: nat)
    requires 0 <= pct <= 100
    ensures 0 <= ThresholdIndex(pct, count) <= count
  {
    ThresholdBounds(pct, count);
  }

  lemma MulBounds(a: nat, b: nat)
    ensures 0 <= a * b
    ensures a <= 100 ==> a * b <= 100 * b
  {
  }

  /** The six statistics the flush reports for one non-empty timer. */
  datatype TimerStats = TimerStats(mean: real, upper: real, upperPct: real, lower: real, count: nat, total: real)

  /** The statistics of one timer bucket, or `None` where reading the
      threshold element raises `IndexError`. */
  function Summarise(samples: seq<real>, pct: int): Option<TimerStats>
    requires samples != []
  {
    SortedStats(Sort(samples), pct)
  }

  /** The statistics computed from the sorted bucket `s`. With one sample
      the mean is that sample and the threshold value is the maximum. */
  function SortedStats(s: seq<real>, pct: int): Option<TimerStats>
    requires s != []
  {
    var n := |s|;
    var low := s[0];
    var high := s[n - 1];
    var total := Sum(s);
    if n > 1 then
      match PyIndex(s, ThresholdIndex(pct, n) - 1)
      case None => None
      case Some(t) => Some(TimerStats(total / n as real, high, t, low, n, total))
    else Some(TimerStats(low, high, high, low, 1, total))
  }

  lemma SortedStatsFacts(s: seq<real>, pct: int)
    requires s != [] && Sorted(s)
    ensures var r := SortedStats(s, pct);
      r.Some? ==>
        && r.value.lower == s[0] && r.value.upper == s[|s| - 1] && r.value.upperPct in s
        && r.value.lower <= r.value.upperPct <= r.value.upper
        && r.value.lower <= r.value.mean <= r.value.upper
        && r.value.count == |s|
        && r.value.total == Sum(s)
  {
    var r := SortedStats(s, pct);
    if r.Some? {
      var j :| 0 <= j < |s| && s[j] == r.value.upperPct;
      if |s| > 1 {
        MeanBounds(s);
      }
    }
  }

  /** The mean of a sorted sequence lies between its first and last element. */
  lemma MeanBounds(s: seq<real>)
    requires s != [] && Sorted(s)
    ensures s[0] <= Sum(s) / |s| as real <= s[|s| - 1]
  {
    SumBounds(s, s[0], s[|s| - 1]);
    MeanBetween(Sum(s), |s|, s[0], s[|s| - 1]);
  }

  lemma MeanBetween(total: real, n: nat, lo: real, hi: real)
    requires n > 0 && n as real * lo <= total <= n as real * hi
    ensures lo <= total / n as real <= hi
  {
  }

  /** Lower and upper are the minimum and the maximum, the total is the sum
      and the count the number of samples; the threshold value is a sample
      between the two bounds, and so is the mean. */
  lemma SummariseFacts(samples: seq<real>, pct: int)
    requires samples != []
    ensures var r := Summarise(samples, pct);
      r.Some? ==>
        && r.value.lower in samples && r.value.upper in samples && r.value.upperPct in samples
        && (forall i :: 0 <= i < |samples| ==> r.value.lower <= samples[i] <= r.value.upper)
        && r.value.lower <= r.value.upperPct <= r.value.upper
        && r.value.lower <= r.value.mean <= r.value.upper
        && r.value.count == |samples|
        && r.value.total == Sum(samples)
  {
    var s := Sort(samples);
    SortedStatsFacts(s, pct);
    SumPermutation(s, samples);
    SameMembers(s, samples);
    SortedBounds(s);
    forall i | 0 <= i < |samples|
      ensures s[0] <= samples[i] <= s[|s| - 1]
    {
      assert samples[i] in samples;
    }
  }

  lemma SortedBounds(s: seq<real>)
    requires s != [] && Sorted(s)
    ensures forall x :: x in s ==> s[0] <= x <= s[|s| - 1]
  {
  }

  lemma SameMembers(a: seq<real>, b: seq<real>)
    requires multiset(a) == multiset(b)
    ensures forall x :: x in a <==> x in b
  {
    forall x
      ensures x in a <==> x in b
    {
      assert x in a <==> x in multiset(a);
      assert x in b <==> x in multiset(b);
    }
  }

  /** The only failure is an out-of-range threshold index; a threshold
      between 0 and 100 never fails. */
  lemma SummariseDefined(samples: seq<real>, pct: int)
    requires samples != []
    ensures Summarise(samples, pct).Some? <==> IndexFits(|samples|, pct)
    ensures 0 <= pct <= 100 ==> Summarise(samples, pct).Some?
  {
    if 0 <= pct <= 100 {
      ThresholdRange(pct, |samples|);
    }
    assert |Sort(samples)| == |samples|;
  }

  /** Whether the threshold element of a bucket of `n` samples can be read:
      a single sample needs no index, otherwise `ThresholdIndex - 1` must
      be a valid Python index. */
  predicate IndexFits(n: nat, pct: int)
  {
    n == 1 || -(n as int) <= ThresholdIndex(pct, n) - 1 < n
  }

  /** The threshold value is the `k`-th smallest sample of the sorted
      bucket (the one `Summarise` passes on) for the index `k` the source
      computes; when `k` is 0 (a threshold below one sample's share) the
      index `-1` reads the maximum instead. */
  lemma ThresholdValue(s: seq<real>, pct: int)
    requires |s| > 1 && Sorted(s) && 0 <= pct <= 100
    ensures var k, r := ThresholdIndex(pct, |s|), SortedStats(s, pct);
      && 0 <= k <= |s|
      && r.Some?
      && (k >= 1 ==> r.value.upperPct == s[k - 1])
      && (k == 0 ==> r.value.upperPct == r.value.upper)
  {
    var k := ThresholdIndex(pct, |s|);
    ThresholdRange(pct, |s|);
    if k >= 1 {
      assert PyIndex(s, k - 1) == Some(s[k - 1]);
    } else {
      assert PyIndex(s, k - 1) == Some(s[|s| - 1]);
    }
  }

  /** A bucket of one sample reports that sample as its mean, upper,
      threshold value, lower and total, whatever the threshold. */
  lemma SingleSample(x: real, pct: int)
    ensures Summarise([x], pct) == Some(TimerStats(x, x, x, x, 1, x))
  {
    assert Sort([x]) == [x] by {
      SortOfSorted([x]);
    }
    assert Sum([x]) == x by {
      assert [x][1..] == [];
    }
  }

  /** With more than one sample the mean is the sum over the count. */
  lemma MeanOfMany(samples: seq<real>, pct: int)
    requires |samples| > 1
    ensures var r := Summarise(samples, pct);
      r.Some? ==> r.value.mean == Sum(samples) / |samples| as real
  {
    var s := Sort(samples);
    SumPermutation(s, samples);
    assert |s| == |samples|;
  }

  /** `[1, 2, 3, 4, 5]` with the default threshold of 90: index 4, so the
      threshold value is the fourth smallest sample. */
  lemma SummariseExample(samples: seq<real>)
    requires samples == [1.0, 2.0, 3.0, 4.0, 5.0]
    ensures Summarise(samples, 90) == Some(TimerStats(3.0, 5.0, 4.0, 1.0, 5, 15.0))
  {
    ExampleSorted(samples);
    ExampleStats(samples);
  }

  lemma ExampleStats(s: seq<real>)
    requires s == [1.0, 2.0, 3.0, 4.0, 5.0]
    ensures SortedStats(s, 90) == Some(TimerStats(3.0, 5.0, 4.0, 1.0, 5, 15.0))
  {
    ExampleSum(s);
    TimesIsProduct(90, 5);
    var k := ThresholdIndex(90, 5);
    assert k == 4;
    assert PyIndex(s, k - 1) == Some(4.0);
  }

  lemma ExampleSorted(samples: seq<real>)
    requires samples == [1.0, 2.0, 3.0, 4.0, 5.0]
    ensures Sort(samples) == samples
  {
    assert Sorted(samples);
    SortOfSorted(samples);
  }

  lemma ExampleSum(samples: seq<real>)
    requires samples == [1.0, 2.0, 3.0, 4.0, 5.0]
    ensures Sum(samples) == 15.0
  {
    assert [5.0][1..] == [];
    assert Sum([5.0]) == 5.0;
    assert [4.0, 5.0][1..] == [5.0];
    assert Sum([4.0, 5.0]) == 9.0;
    assert [3.0, 4.0, 5.0][1..] == [4.0, 5.0];
    assert Sum([3.0, 4.0, 5.0]) == 12.0;
    assert [2.0, 3.0, 4.0, 5.0][1..] == [3.0, 4.0, 5.0];
    assert Sum([2.0, 3.0, 4.0, 5.0]) == 14.0;
    assert samples[1..] == [2.0, 3.0, 4.0, 5.0];
  }

  // ----- flush entries -----

  /** How `plain_payload` renders an entry's value: `%s` (counters) or `%d`. */
  datatype Style = AsStr | AsInt

  /** One reported metric: its name and value. The plain format adds the
      timestamp; the pickle format pairs the name with `(timestamp, value)`. */
  datatype Entry = Entry(name: string, value: real, style: Style)

  /** The two entries of one counter: the per-second rate and the raw count. */
  function CounterPair(key: string, value: real, flushInterval: int): (es: seq<Entry>)
    requires flushInterval != 0
    ensures |es| == 2
    ensures es[0].name == "stats." + key && es[0].value * flushInterval as real == value
    ensures es[1].name == "stats_counts." + key && es[1].value == value
  {
    [Entry("stats." + key, value / flushInterval as real, AsStr),
     Entry("stats_counts." + key, value, AsStr)]
  }

  /** `stats.timers.<key>.`, the prefix of every timer entry. */
  function TimerPrefix(key: string): string
  {
    "stats.timers." + key + "."
  }

  /** The six entries of one timer, in the source's order: mean, upper,
      upper_<pct>, lower, count and the total, whose suffix `totalName` is
      `mean` in the pickle format and `total` in the plain one. */
  function TimerSix(key: string, t: TimerStats, pct: int, totalName: string): (es: seq<Entry>)
    ensures |es| == 6
    ensures forall i :: 0 <= i < 6 ==> es[i].style == AsInt
  {
    var p := TimerPrefix(key);
    [Entry(p + "mean", t.mean, AsInt),
     Entry(p + "upper", t.upper, AsInt),
     Entry(p + "upper_" + IntToString(pct), t.upperPct, AsInt),
     Entry(p + "lower", t.lower, AsInt),
     Entry(p + "count", t.count as real, AsInt),
     Entry(p + totalName, t.total, AsInt)]
  }

  predicate Distinct(order: seq<string>)
  {
    forall i, j :: 0 <= i < j < |order| ==> order[i] != order[j]
  }

  /** In an order without repeats, a key has not been visited before its turn. */
  lemma NotVisitedBefore(order: seq<string>, i: nat)
    requires Distinct(order) && i < |order|
    ensures order[i] !in order[..i]
  {
  }

  /** `order` is one iteration order of a dictionary with these keys. */
  predicate Enumerates<V>(order: seq<string>, m: map<string, V>)
  {
    Distinct(order) && (forall k :: k in order ==> k in m) && (forall k :: k in m ==> k in order)
  }

  /** The counter loop's entries, for the keys visited in `order`. */
  function CounterEntries(counters: map<string, real>, order: seq<string>, flushInterval: int): seq<Entry>
    requires flushInterval != 0
    requires forall k :: k in order ==> k in counters
  {
    if order == [] then []
    else
      var last := order[|order| - 1];
      CounterEntries(counters, order[..|order| - 1], flushInterval) + CounterPair(last, counters[last], flushInterval)
  }

  /** The timer loop's entries; empty buckets are skipped and `None` stands
      for the `IndexError` of an out-of-range threshold index. */
  function TimerEntries(timers: map<string, seq<real>>, order: seq<string>, pct: int, totalName: string): Option<seq<Entry>>
    requires forall k :: k in order ==> k in timers
  {
    if order == [] then Some([])
    else
      var last := order[|order| - 1];
      match TimerEntries(timers, order[..|order| - 1], pct, totalName)
      case None => None
      case Some(prev) =>
        if timers[last] == [] then Some(prev)
        else
          match Summarise(timers[last], pct)
          case None => None
          case Some(t) => Some(prev + TimerSix(last, t, pct, totalName))
  }

  /** The gauge loop's entries. */
  function GaugeEntries(gauges: map<string, real>, order: seq<string>): seq<Entry>
    requires forall k :: k in order ==> k in gauges
  {
    if order == [] then []
    else
      var last := order[|order| - 1];
      GaugeEntries(gauges, order[..|order| - 1]) + [Entry("stats.gauges." + last, gauges[last], AsInt)]
  }

  /** The keys of `order` whose bucket holds samples. */
  function Busy(timers: map<string, seq<real>>, order: seq<string>): seq<string>
    requires forall k :: k in order ==> k in timers
  {
    if order == [] then []
    else
      var last := order[|order| - 1];
      Busy(timers, order[..|order| - 1]) + (if timers[last] == [] then [] else [last])
  }

  /** Each counter gives two entries. */
  lemma {:induction false} CounterEntriesCount(counters: map<string, real>, order: seq<string>, flushInterval: int)
    requires flushInterval != 0
    requires forall k :: k in order ==> k in counters
    ensures |CounterEntries(counters, order, flushInterval)| == 2 * |order|
  {
    if order != [] {
      CounterEntriesCount(counters, order[..|order| - 1], flushInterval);
    }
  }

  /** The counters' entries come in visiting order, two per counter: its
      per-second rate and its raw count. */
  lemma {:induction false} CounterEntriesShape(counters: map<string, real>, order: seq<string>, flushInterval: int)
    requires flushInterval != 0
    requires forall k :: k in order ==> k in counters
    ensures var es := CounterEntries(counters, order, flushInterval);
      && |es| == 2 * |order|
      && forall i :: 0 <= i < |order| ==>
           es[2 * i..2 * i + 2] == CounterPair(order[i], counters[order[i]], flushInterval)
  {
    if order != [] {
      var front, last := order[..|order| - 1], order[|order| - 1];
      CounterEntriesShape(counters, front, flushInterval);
      var es, prev := CounterEntries(counters, order, flushInterval), CounterEntries(counters, front, flushInterval);
      var pair := CounterPair(last, counters[last], flushInterval);
      assert es == prev + pair;
      forall i | 0 <= i < |order|
        ensures es[2 * i..2 * i + 2] == CounterPair(order[i], counters[order[i]], flushInterval)
      {
        if i < |front| {
          assert order[i] == front[i];
          assert es[2 * i..2 * i + 2] == prev[2 * i..2 * i + 2];
        } else {
          assert es[2 * i..2 * i + 2] == pair;
        }
      }
    }
  }

  /** Each gauge gives one entry holding its last value. */
  lemma {:induction false} GaugeEntriesShape(gauges: map<string, real>, order: seq<string>)
    requires forall k :: k in order ==> k in gauges
    ensures var es := GaugeEntries(gauges, order);
      && |es| == |order|
      && forall i :: 0 <= i < |order| ==> es[i] == Entry("stats.gauges." + order[i], gauges[order[i]], AsInt)
  {
    if order != [] {
      GaugeEntriesShape(gauges, order[..|order| - 1]);
    }
  }

  /** The timer loop fails exactly when the summary of one of the non-empty
      timers it visits does. */
  lemma {:induction false} TimerEntriesFail(timers: map<string, seq<real>>, order: seq<string>, pct: int, totalName: string)
    requires forall k :: k in order ==> k in timers
    ensures TimerEntries(timers, order, pct, totalName).Some? <==> AllFit(timers, order, pct)
  {
    if order != [] {
      var front, last := order[..|order| - 1], order[|order| - 1];
      TimerEntriesLast(timers, order, pct, totalName);
      TimerEntriesFail(timers, front, pct, totalName);
      AllFitSnoc(timers, order, pct);
      if timers[last] != [] {
        SummariseDefined(timers[last], pct);
      }
    }
  }

  /** Every non-empty bucket visited in `order` has a readable threshold
      element. */
  predicate AllFit(timers: map<string, seq<real>>, order: seq<string>, pct: int)
    requires forall k :: k in order ==> k in timers
  {
    forall k :: k in order && timers[k] != [] ==> IndexFits(|timers[k]|, pct)
  }

  lemma AllFitSnoc(timers: map<string, seq<real>>, order: seq<string>, pct: int)
    requires forall k :: k in order ==> k in timers
    requires order != []
    ensures var last := order[|order| - 1];
      AllFit(timers, order, pct) <==>
        AllFit(timers, order[..|order| - 1], pct) && (timers[last] == [] || IndexFits(|timers[last]|, pct))
  {
    var front, last := order[..|order| - 1], order[|order| - 1];
    assert order == front + [last];
    assert forall k :: k in order <==> k in front || k == last;
  }

  lemma TimerEntriesLast(timers: map<string, seq<real>>, order: seq<string>, pct: int, totalName: string)
    requires forall k :: k in order ==> k in timers
    requires order != []
    ensures var last := order[|order| - 1];
      TimerEntries(timers, order, pct, totalName).Some? <==>
        TimerEntries(timers, order[..|order| - 1], pct, totalName).Some? &&
        (timers[last] == [] || Summarise(timers[last], pct).Some?)
  {
  }

  /** One more key visited by the timer loop. */
  lemma TimerEntriesStep(timers: map<string, seq<real>>, order: seq<string>, i: nat, pct: int, totalName: string)
    requires forall k :: k in order ==> k in timers
    requires i < |order|
    ensures TimerEntries(timers, order[..i + 1], pct, totalName) ==
      match TimerEntries(timers, order[..i], pct, totalName)
      case None => None
      case Some(prev) =>
        if timers[order[i]] == [] then Some(prev)
        else
          match Summarise(timers[order[i]], pct)
          case None => None
          case Some(t) => Some(prev + TimerSix(order[i], t, pct, totalName))
  {
    assert order[..i + 1][..i] == order[..i];
  }

  /** Once a prefix of the order fails, the whole timer loop fails. */
  lemma {:induction false} TimerEntriesPrefixFails(timers: map<string, seq<real>>, order: seq<string>, j: nat, pct: int, totalName: string)
    requires forall k :: k in order ==> k in timers
    requires j <= |order| && TimerEntries(timers, order[..j], pct, totalName).None?
    ensures TimerEntries(timers, order, pct, totalName).None?
    decreases |order| - j
  {
    if j < |order| {
      TimerEntriesStep(timers, order, j, pct, totalName);
      TimerEntriesPrefixFails(timers, order, j + 1, pct, totalName);
    } else {
      assert order[..j] == order;
    }
  }

  /** Each non-empty timer gives six entries. */
  lemma {:induction false} TimerEntriesCount(timers: map<string, seq<real>>, order: seq<string>, pct: int, totalName: string)
    requires forall k :: k in order ==> k in timers
    ensures var r := TimerEntries(timers, order, pct, totalName);
      r.Some? ==> |r.value| == 6 * |Busy(timers, order)|
  {
    if order != [] {
      TimerEntriesCount(timers, order[..|order| - 1], pct, totalName);
    }
  }

  /** The busy keys are the visited keys whose bucket holds samples. */
  lemma {:induction false} BusyMembers(timers: map<string, seq<real>>, order: seq<string>)
    requires forall k :: k in order ==> k in timers
    ensures forall k :: k in Busy(timers, order) <==> k in order && timers[k] != []
  {
    if order != [] {
      var front := order[..|order| - 1];
      BusyMembers(timers, front);
      assert order == front + [order[|order| - 1]];
    }
  }

  /** With a threshold between 0 and 100 the timer loop never fails. */
  lemma {:induction false} TimerEntriesDefined(timers: map<string, seq<real>>, order: seq<string>, pct: int, totalName: string)
    requires forall k :: k in order ==> k in timers
    requires 0 <= pct <= 100
    ensures TimerEntries(timers, order, pct, totalName).Some?
  {
    if order != [] {
      TimerEntriesDefined(timers, order[..|order| - 1], pct, totalName);
      var last := order[|order| - 1];
      if timers[last] != [] {
        SummariseDefined(timers[last], pct);
      }
    }
  }

  /** The entries of a whole flush, or `None` where it raises: the counter
      loop divides by `flush_interval`, so a zero interval fails on the first
      counter, and the timer loop fails on a bad threshold index. */
  function FlushEntries(
    counters: map<string, real>, timers: map<string, seq<real>>, gauges: map<string, real>,
    co: seq<string>, to: seq<string>, go: seq<string>,
    flushInterval: int, pct: int, totalName: string): Option<seq<Entry>>
    requires forall k :: k in co ==> k in counters
    requires forall k :: k in to ==> k in timers
    requires forall k :: k in go ==> k in gauges
  {
    if flushInterval == 0 then
      if co == [] then
        match TimerEntries(timers, to, pct, totalName)
        case None => None
        case Some(ts) => Some(ts + GaugeEntries(gauges, go))
      else None
    else
      match TimerEntries(timers, to, pct, totalName)
      case None => None
      case Some(ts) => Some(CounterEntries(counters, co, flushInterval) + ts + GaugeEntries(gauges, go))
  }

  /** The three ways a flush's entry list comes out. */
  lemma FlushEntriesCases(
    counters: map<string, real>, timers: map<string, seq<real>>, gauges: map<string, real>,
    co: seq<string>, to: seq<string>, go: seq<string>,
    flushInterval: int, pct: int, totalName: string)
    requires forall k :: k in co ==> k in counters
    requires forall k :: k in to ==> k in timers
    requires forall k :: k in go ==> k in gauges
    ensures flushInterval == 0 && co != [] ==>
      FlushEntries(counters, timers, gauges, co, to, go, flushInterval, pct, totalName) == None
    ensures TimerEntries(timers, to, pct, totalName).None? ==>
      FlushEntries(counters, timers, gauges, co, to, go, flushInterval, pct, totalName) == None
    ensures !(flushInterval == 0 && co != []) && TimerEntries(timers, to, pct, totalName).Some? ==>
      FlushEntries(counters, timers, gauges, co, to, go, flushInterval, pct, totalName) ==
        Some((if flushInterval == 0 then [] else CounterEntries(counters, co, flushInterval))
             + TimerEntries(timers, to, pct, totalName).value + GaugeEntries(gauges, go))
  {
    if flushInterval == 0 && TimerEntries(timers, to, pct, totalName).Some? {
      var ts := TimerEntries(timers, to, pct, totalName).value;
      assert [] + ts == ts;
    }
  }

  /** A flush that does not fail reports nothing exactly when there is no
      counter, no timer sample and no gauge. */
  lemma FlushEntriesEmpty(
    counters: map<string, real>, timers: map<string, seq<real>>, gauges: map<string, real>,
    co: seq<string>, to: seq<string>, go: seq<string>,
    flushInterval: int, pct: int, totalName: string)
    requires Enumerates(co, counters) && Enumerates(to, timers) && Enumerates(go, gauges)
    requires FlushEntries(counters, timers, gauges, co, to, go, flushInterval, pct, totalName).Some?
    ensures FlushEntries(counters, timers, gauges, co, to, go, flushInterval, pct, totalName).value == [] <==>
      counters == map[] && gauges == map[] && forall k :: k in timers ==> timers[k] == []
  {
    var ts := TimerEntries(timers, to, pct, totalName);
    TimerEntriesCount(timers, to, pct, totalName);
    GaugeEntriesShape(gauges, go);
    if flushInterval != 0 {
      CounterEntriesCount(counters, co, flushInterval);
    }
    EmptyOrder(co, counters);
    EmptyOrder(go, gauges);
    BusyEmpty(timers, to);
  }

  lemma EmptyOrder<V>(order: seq<string>, m: map<string, V>)
    requires Enumerates(order, m)
    ensures order == [] <==> m == map[]
  {
    if order != [] {
      assert order[0] in m;
    }
    if m != map[] {
      var k :| k in m;
      assert k in order;
    }
  }

  lemma BusyEmpty(timers: map<string, seq<real>>, order: seq<string>)
    requires Enumerates(order, timers)
    ensures Busy(timers, order) == [] <==> forall k :: k in timers ==> timers[k] == []
  {
    var busy := Busy(timers, order);
    BusyMembers(timers, order);
    if busy != [] {
      assert busy[0] in busy;
    }
    if exists k :: k in timers && timers[k] != [] {
      var k :| k in timers && timers[k] != [];
      assert k in busy;
    }
  }

  /** The dictionary values a successful flush leaves behind: every counter
      and gauge at zero, every timer bucket empty, and no key removed. */
  function Zeroed(m: map<string, real>): (z: map<string, real>)
    ensures z.Keys == m.Keys && forall k :: k in z ==> z[k] == 0.0
  {
    map k | k in m :: 0.0
  }

  function Emptied(m: map<string, seq<real>>): (z: map<string, seq<real>>)
    ensures z.Keys == m.Keys && forall k :: k in z ==> z[k] == []
  {
    map k | k in m :: []
  }

  /** The counters or gauges after the loop has visited the keys in `done`. */
  function ZeroedAt(m: map<string, real>, done: seq<string>): (z: map<string, real>)
    ensures z.Keys == m.Keys
  {
    map k | k in m :: if k in done then 0.0 else m[k]
  }

  /** The timers after the loop has visited the keys in `done`. */
  function ClearedAt(m: map<string, seq<real>>, done: seq<string>): (z: map<string, seq<real>>)
    ensures z.Keys == m.Keys
  {
    map k | k in m :: if k in done then [] else m[k]
  }

  /** The dictionaries `c`, `t`, `g` after the flush loops ran over the key
      orders `co` and `to` starting from `c0`, `t0`, `g0`. When the loops
      completed, every bucket is reset. When a zero `flush_interval` raised
      on the first counter, nothing changed. Otherwise the timer at
      `failedAt` raised its `IndexError`: the counters are zeroed, the
      gauges untouched, the timers before it emptied and that one left
      sorted in place. */
  predicate FlushReset(c0: map<string, real>, t0: map<string, seq<real>>, g0: map<string, real>,
                       co: seq<string>, to: seq<string>, interval: int, pct: int,
                       completed: bool, failedAt: int,
                       c: map<string, real>, t: map<string, seq<real>>, g: map<string, real>)
  {
    if completed then
      c == Zeroed(c0) && t == Emptied(t0) && g == Zeroed(g0)
    else if interval == 0 && co != [] then
      c == c0 && t == t0 && g == g0
    else
      && c == Zeroed(c0) && g == g0
      && 0 <= failedAt < |to| && to[failedAt] in t0 && t0[to[failedAt]] != []
      && Summarise(t0[to[failedAt]], pct).None?
      && t == ClearedAt(t0, to[..failedAt])[to[failedAt] := Sort(t0[to[failedAt]])]
  }

  lemma ZeroedAtStep(m: map<string, real>, done: seq<string>, k: string)
    requires k in m
    ensures ZeroedAt(m, done + [k]) == ZeroedAt(m, done)[k := 0.0]
  {
  }

  lemma ClearedAtStep(m: map<string, seq<real>>, done: seq<string>, k: string)
    requires k in m
    ensures ClearedAt(m, done + [k]) == ClearedAt(m, done)[k := []]
  {
  }

  /** The `i`-th visit of the timer loop finds the bucket untouched and
      empties it; an empty bucket stays as it was. */
  lemma ClearedVisit(m: map<string, seq<real>>, order: seq<string>, i: nat)
    requires Distinct(order) && i < |order| && order[i] in m
    ensures ClearedAt(m, order[..i])[order[i]] == m[order[i]]
    ensures ClearedAt(m, order[..i + 1]) == ClearedAt(m, order[..i])[order[i] := []]
    ensures m[order[i]] == [] ==> ClearedAt(m, order[..i + 1]) == ClearedAt(m, order[..i])
  {
    var key := order[i];
    NotVisitedBefore(order, i);
    assert order[..i + 1] == order[..i] + [key];
    ClearedAtStep(m, order[..i], key);
  }

  /** The `i`-th visit of the counter or gauge loop finds the value
      untouched and sets it to 0. */
  lemma ZeroedVisit(m: map<string, real>, order: seq<string>, i: nat)
    requires Distinct(order) && i < |order| && order[i] in m
    ensures ZeroedAt(m, order[..i])[order[i]] == m[order[i]]
    ensures ZeroedAt(m, order[..i + 1]) == ZeroedAt(m, order[..i])[order[i] := 0.0]
  {
    var key := order[i];
    NotVisitedBefore(order, i);
    assert order[..i + 1] == order[..i] + [key];
    ZeroedAtStep(m, order[..i], key);
  }

  lemma CounterEntriesStep(counters: map<string, real>, order: seq<string>, i: nat, flushInterval: int)
    requires flushInterval != 0
    requires forall k :: k in order ==> k in counters
    requires i < |order|
    ensures CounterEntries(counters, order[..i + 1], flushInterval) ==
      CounterEntries(counters, order[..i], flushInterval) + CounterPair(order[i], counters[order[i]], flushInterval)
  {
    assert order[..i + 1][..i] == order[..i];
  }

  lemma GaugeEntriesStep(gauges: map<string, real>, order: seq<string>, i: nat)
    requires forall k :: k in order ==> k in gauges
    requires i < |order|
    ensures GaugeEntries(gauges, order[..i + 1]) ==
      GaugeEntries(gauges, order[..i]) + [Entry("stats.gauges." + order[i], gauges[order[i]], AsInt)]
  {
    assert order[..i + 1][..i] == order[..i];
  }

  lemma ZeroedAtAll(m: map<string, real>, order: seq<string>)
    requires Enumerates(order, m)
    ensures ZeroedAt(m, order) == Zeroed(m)
  {
  }

  lemma ClearedAtAll(m: map<string, seq<real>>, order: seq<string>)
    requires Enumerates(order, m)
    ensures ClearedAt(m, order) == Emptied(m)
  {
  }

  /** One element of a pickled batch: `(name, (timestamp, value))`. */
  datatype Metric = Metric(name: string, ts: int, value: real)

  function Stamp(es: seq<Entry>, ts: int): (ms: seq<Metric>)
    ensures |ms| == |es|
    ensures forall i :: 0 <= i < |es| ==> ms[i] == Metric(es[i].name, ts, es[i].value)
  {
    if es == [] then [] else [Metric(es[0].name, ts, es[0].value)] + Stamp(es[1..], ts)
  }

  // ----- the plain text format -----

  /** `%d` of a float: truncation toward zero. */
  function Trunc(x: real): (i: int)
    ensures x >= 0.0 ==> i as real <= x < i as real + 1.0
    ensures x < 0.0 ==> i as real - 1.0 < x <= i as real
  {
    if x >= 0.0 then x.Floor else -((-x).Floor)
  }

  /** One line of `plain_payload` without its final `\n`: name, value and
      timestamp separated by single spaces. `formatFloat` stands for `%s`
      of a float. */
  function RenderBody(e: Entry, ts: int, formatFloat: real -> string): string
  {
    e.name + " " + (match e.style case AsStr => formatFloat(e.value) case AsInt => IntToString(Trunc(e.value))) +
    " " + IntToString(ts)
  }

  /** `"".join(payload)`: each entry's line followed by `\n`. */
  function PlainText(es: seq<Entry>, ts: int, formatFloat: real -> string): string
  {
    if es == [] then "" else RenderBody(es[0], ts, formatFloat) + "\n" + PlainText(es[1..], ts, formatFloat)
  }

  /** The rendered lines of `es`, one per entry, in order. */
  function Rendered(es: seq<Entry>, ts: int, formatFloat: real -> string): (ls: seq<string>)
    ensures |ls| == |es|
    ensures forall i :: 0 <= i < |es| ==> ls[i] == RenderBody(es[i], ts, formatFloat)
  {
    if es == [] then [] else [RenderBody(es[0], ts, formatFloat)] + Rendered(es[1..], ts, formatFloat)
  }

  lemma RenderBodyNonEmpty(e: Entry, ts: int, formatFloat: real -> string)
    ensures |RenderBody(e, ts, formatFloat)| > |e.name|
  {
  }

  /** The lines of a plain payload are exactly the rendered entries, one per
      entry, as long as no name or formatted value holds a line break. */
  lemma {:induction false} PlainTextLines(es: seq<Entry>, ts: int, formatFloat: real -> string)
    requires forall e :: e in es ==> NoBreak(RenderBody(e, ts, formatFloat))
    ensures Chunks(PlainText(es, ts, formatFloat)) == Rendered(es, ts, formatFloat)
  {
    if es != [] {
      var b := RenderBody(es[0], ts, formatFloat);
      var rest := PlainText(es[1..], ts, formatFloat);
      assert es[0] in es;
      PlainTextLines(es[1..], ts, formatFloat);
      ChunksAppend(b, rest);
      RenderBodyNonEmpty(es[0], ts, formatFloat);
      SingleChunk(b);
    }
  }

  predicate NoBreak(s: string)
  {
    forall i :: 0 <= i < |s| ==> !IsLineBreak(s[i])
  }

  /** The value column of a `%d` line reads back as the truncated value. */
  lemma RenderedValue(e: Entry, ts: int, formatFloat: real -> string)
    requires e.style == AsInt
    ensures RenderBody(e, ts, formatFloat) == e.name + " " + IntToString(Trunc(e.value)) + " " + IntToString(ts)
    ensures ParseInt(IntToString(Trunc(e.value))) == Some(Trunc(e.value))
  {
    IntToStringRoundTrip(Trunc(e.value));
  }
}
