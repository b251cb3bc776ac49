/** The ingest path of statsdpy/statsd.py as functions on a value: the line
    router of `decode_recvd`, the three per-type update rules
    `process_counter`, `process_timer` and `process_gauge`, and the loop of
    `run` that feeds every non-empty line of a datagram to the router.
    The class `Server.StatsdServer` performs the same updates in place and
    is specified by these functions. */
module Events {
  import opened PyText
  import Keys

  /** `sys.maxint` of a 64-bit CPython 2. */
  const MAXINT: int := 0x7FFF_FFFF_FFFF_FFFF

  /** Python's `float()` applied to a text field: `None` where it raises. */
  type Parser = string -> Option<real>

  /** The three buckets and the `stats_seen` counter. */
  datatype Store = Store(
    counters: map<string, real>,
    timers: map<string, seq<real>>,
    gauges: map<string, real>,
    seen: int)

  /** Every bucket key is a normalised key and `stats_seen` is in range. */
  predicate Good(st: Store)
  {
    && 0 <= st.seen <= MAXINT
    && (forall k :: k in st.counters ==> Keys.IsKey(k))
    && (forall k :: k in st.timers ==> Keys.IsKey(k))
    && (forall k :: k in st.gauges ==> Keys.IsKey(k))
  }

  /** `stats_seen` after a successful event: reset to 0 once it reached
      `maxint`, then incremented. */
  function NextSeen(seen: int): (n: int)
    ensures seen < MAXINT ==> n == seen + 1
    ensures seen >= MAXINT ==> n == 1
    ensures 0 <= seen <= MAXINT ==> 0 < n <= MAXINT
  {
    if seen >= MAXINT then 1 else seen + 1
  }

  datatype Kind = Timer | Counter | Gauge

  /** The three debug messages of `decode_recvd`. */
  datatype Rejection = InvalidRequest | NotEnoughFields | UnsupportedType

  datatype Route = Accept(key: string, kind: Kind, fields: seq<string>) | Reject(why: Rejection)

  function KindOf(tag: string): Option<Kind>
  {
    if tag == "ms" then Some(Timer)
    else if tag == "c" then Some(Counter)
    else if tag == "g" then Some(Gauge)
    else None
  }

  /** The gates of `decode_recvd`: exactly two `:`-separated parts, at least
      two `|`-separated fields, and a known type tag in `fields[1]`. */
  function RouteLine(line: string): (r: Route)
    ensures r.Accept? ==> Keys.IsKey(r.key) && |r.fields| >= 2 && KindOf(r.fields[1]) == Some(r.kind)
    ensures r.Accept? ==> |Split(line, ':')| == 2 && r.fields == Split(Split(line, ':')[1], '|')
    ensures r.Accept? ==> r.key == Keys.Normalize(Split(line, ':')[0])
  {
    var bits := Split(line, ':');
    if |bits| != 2 then Reject(InvalidRequest)
    else
      var key := Keys.Normalize(bits[0]);
      var fields := Split(bits[1], '|');
      if |fields| < 2 then Reject(NotEnoughFields)
      else
        match KindOf(fields[1])
        case None => Reject(UnsupportedType)
        case Some(kind) => Accept(key, kind, fields)
  }

  /** `ratecheck.match(f)`: `^@[\d.]+` matches a prefix of `f`. */
  predicate RateMatches(f: string)
  {
    |f| >= 2 && f[0] == '@' && (IsDigit(f[1]) || f[1] == '.')
  }

  /** The sample rate of a counter event: 1.0 unless there are exactly three
      fields, in which case the third must pass the rate check and parse. */
  function SampleRate(fields: seq<string>, parse: Parser): Option<real>
  {
    if |fields| == 3 then
      if RateMatches(fields[2]) then parse(LStrip(fields[2], '@')) else None
    else Some(1.0)
  }

  /** `float(fields[0] or 1) * (1 / float(sample_rate))`, or `None` where
      that raises (bad rate, zero rate, unparsable value). */
  function CounterDelta(fields: seq<string>, parse: Parser): Option<real>
  {
    var value := if |fields| == 0 then None else if fields[0] == "" then Some(1.0) else parse(fields[0]);
    var rate := SampleRate(fields, parse);
    if value.Some? && rate.Some? && rate.value != 0.0 then Some(value.value * (1.0 / rate.value))
    else None
  }

  function ProcessCounter(st: Store, key: string, fields: seq<string>, parse: Parser): Store
  {
    match CounterDelta(fields, parse)
    case None => st
    case Some(d) =>
      var before := if key in st.counters then st.counters[key] else 0.0;
      st.(counters := st.counters[key := before + d], seen := NextSeen(st.seen))
  }

  /** The bucket is created before the value is parsed, so a failed event
      can leave an empty list behind. */
  function ProcessTimer(st: Store, key: string, fields: seq<string>, parse: Parser): Store
  {
    var timers := if key in st.timers then st.timers else st.timers[key := []];
    var value := if |fields| == 0 then None else parse(fields[0]);
    match value
    case None => st.(timers := timers)
    case Some(v) => st.(timers := timers[key := timers[key] + [v]], seen := NextSeen(st.seen))
  }

  function ProcessGauge(st: Store, key: string, fields: seq<string>, parse: Parser): Store
  {
    var value := if |fields| == 0 then None else parse(fields[0]);
    match value
    case None => st
    case Some(v) => st.(gauges := st.gauges[key := v], seen := NextSeen(st.seen))
  }

  /** `decode_recvd(line)`. */
  function Decode(st: Store, line: string, parse: Parser): Store
  {
    match RouteLine(line)
    case Reject(_) => st
    case Accept(key, kind, fields) =>
      match kind
      case Timer => ProcessTimer(st, key, fields, parse)
      case Counter => ProcessCounter(st, key, fields, parse)
      case Gauge => ProcessGauge(st, key, fields, parse)
  }

  /** The body of the loop `for metric in lines: if metric: decode_recvd(metric)`. */
  function ApplyLines(st: Store, lines: seq<string>, parse: Parser): Store
  {
    if lines == [] then st
    else
      var prev := ApplyLines(st, lines[..|lines| - 1], parse);
      var line := lines[|lines| - 1];
      if line == [] then prev else Decode(prev, line, parse)
  }

  lemma ApplyLinesStep(st: Store, lines: seq<string>, i: nat, parse: Parser)
    requires i < |lines|
    ensures ApplyLines(st, lines[..i + 1], parse) ==
      if lines[i] == [] then ApplyLines(st, lines[..i], parse) else Decode(ApplyLines(st, lines[..i], parse), lines[i], parse)
  {
    assert lines[..i + 1][..i] == lines[..i];
  }

  /** One datagram received by `run`. */
  function Ingest(st: Store, data: string, parse: Parser): Store
  {
    ApplyLines(st, SplitLines(data), parse)
  }

  // ----- the gate -----

  /** A line is refused as an invalid request exactly when it does not hold
      exactly one `:`. */
  lemma InvalidRequestIff(line: string)
    ensures RouteLine(line) == Reject(InvalidRequest) <==> multiset(line)[':'] != 1
  {
    SplitCount(line, ':');
  }

  /** A line changes nothing unless it has exactly one `:`, at least two
      `|`-separated fields after it, and a type tag `ms`, `c` or `g`. */
  lemma DecodeGate(st: Store, line: string, parse: Parser)
    ensures Decode(st, line, parse) != st ==>
      && multiset(line)[':'] == 1
      && |Split(Split(line, ':')[1], '|')| >= 2
      && Split(Split(line, ':')[1], '|')[1] in {"ms", "c", "g"}
  {
    InvalidRequestIff(line);
  }

  // ----- per-type rules -----

  /** With exactly three fields the third must be `@` and a parsable non-zero
      rate; any other number of fields counts at rate 1.0. An empty value
      counts as 1. */
  lemma CounterDeltaSpec(fields: seq<string>, parse: Parser)
    requires |fields| >= 1
    ensures |fields| != 3 ==>
      CounterDelta(fields, parse) == (if fields[0] == "" then Some(1.0) else parse(fields[0]))
    ensures |fields| == 3 ==>
      (CounterDelta(fields, parse).Some? <==>
        && RateMatches(fields[2])
        && parse(fields[2][1..]).Some? && parse(fields[2][1..]).value != 0.0
        && (fields[0] == "" || parse(fields[0]).Some?))
    ensures |fields| == 3 && CounterDelta(fields, parse).Some? ==>
      CounterDelta(fields, parse).value ==
        (if fields[0] == "" then 1.0 else parse(fields[0]).value) / parse(fields[2][1..]).value
  {
    if |fields| == 3 && RateMatches(fields[2]) {
      assert LStrip(fields[2], '@') == fields[2][1..] by {
        assert fields[2][1..][0] != '@';
      }
      var value := if fields[0] == "" then Some(1.0) else parse(fields[0]);
      var rate := parse(fields[2][1..]);
      assert SampleRate(fields, parse) == rate;
      if value.Some? && rate.Some? && rate.value != 0.0 {
        var v, r := value.value, rate.value;
        assert CounterDelta(fields, parse).value == v * (1.0 / r);
        assert v * (1.0 / r) == v / r;
      }
    }
    if |fields| != 3 {
      var v := if fields[0] == "" then Some(1.0) else parse(fields[0]);
      if v.Some? {
        assert v.value * (1.0 / 1.0) == v.value;
      }
    }
  }

  /** A counter event that fails changes nothing; one that succeeds adds its
      delta to the key's total (created at 0) and touches nothing else. */
  lemma CounterRule(st: Store, key: string, fields: seq<string>, parse: Parser)
    ensures var r := ProcessCounter(st, key, fields, parse);
      match CounterDelta(fields, parse)
      case None => r == st
      case Some(d) =>
        && r.counters.Keys == st.counters.Keys + {key}
        && r.counters[key] == (if key in st.counters then st.counters[key] else 0.0) + d
        && (forall k :: k in st.counters && k != key ==> r.counters[k] == st.counters[k])
        && r.timers == st.timers && r.gauges == st.gauges
        && r.seen == NextSeen(st.seen)
  {
  }

  /** A timer event makes its key present and appends the parsed value at the
      end; if parsing fails nothing is appended and `seen` is unchanged. */
  lemma TimerRule(st: Store, key: string, fields: seq<string>, parse: Parser)
    requires |fields| >= 1
    ensures var r := ProcessTimer(st, key, fields, parse);
      && r.timers.Keys == st.timers.Keys + {key}
      && r.timers[key] == (if key in st.timers then st.timers[key] else [])
                           + (if parse(fields[0]).Some? then [parse(fields[0]).value] else [])
      && (forall k :: k in st.timers && k != key ==> r.timers[k] == st.timers[k])
      && r.counters == st.counters && r.gauges == st.gauges
      && r.seen == (if parse(fields[0]).Some? then NextSeen(st.seen) else st.seen)
  {
  }

  /** A gauge event whose value fails to parse changes nothing; one that
      parses sets the key to that value, keeps every other gauge, counter
      and timer, and bumps `seen`. */
  lemma GaugeRule(st: Store, key: string, fields: seq<string>, parse: Parser)
    ensures var r := ProcessGauge(st, key, fields, parse);
      match (if |fields| == 0 then None else parse(fields[0]))
      case None => r == st
      case Some(v) =>
        && r.gauges.Keys == st.gauges.Keys + {key}
        && r.gauges[key] == v
        && (forall k :: k in st.gauges && k != key ==> r.gauges[k] == st.gauges[k])
        && r.counters == st.counters && r.timers == st.timers
        && r.seen == NextSeen(st.seen)
  {
  }

  /** Gauges keep the last value written. */
  lemma GaugeLastWriteWins(st: Store, key: string, f1: seq<string>, f2: seq<string>, parse: Parser)
    requires |f2| >= 1 && parse(f2[0]).Some?
    ensures ProcessGauge(ProcessGauge(st, key, f1, parse), key, f2, parse).gauges
            == ProcessGauge(st, key, f2, parse).gauges
    ensures ProcessGauge(st, key, f2, parse).gauges[key] == parse(f2[0]).value
  {
  }

  /** An event that fails leaves `seen`, the counters and the gauges as they
      were; the only trace it can leave is a new, empty timer list. A
      successful one advances `seen` by one step. */
  lemma FailureChangesNothing(st: Store, line: string, parse: Parser)
    ensures var r := Decode(st, line, parse);
      && (r.seen == st.seen || r.seen == NextSeen(st.seen))
      && (r.seen == st.seen ==>
            && r.counters == st.counters && r.gauges == st.gauges
            && st.timers.Keys <= r.timers.Keys
            && forall k :: k in r.timers ==> r.timers[k] == if k in st.timers then st.timers[k] else [])
  {
  }

  // ----- invariants -----

  lemma {:induction false} DecodePreservesGood(st: Store, line: string, parse: Parser)
    requires Good(st)
    ensures Good(Decode(st, line, parse))
  {
    var route := RouteLine(line);
    if route.Accept? {
      assert Keys.IsKey(route.key);
    }
  }

  /** Every key ever stored is normalised and `stats_seen` stays within
      `[0, maxint]`, whatever the datagrams. */
  lemma {:induction false} ApplyLinesPreservesGood(st: Store, lines: seq<string>, parse: Parser)
    requires Good(st)
    ensures Good(ApplyLines(st, lines, parse))
  {
    if lines != [] {
      ApplyLinesPreservesGood(st, lines[..|lines| - 1], parse);
      DecodePreservesGood(ApplyLines(st, lines[..|lines| - 1], parse), lines[|lines| - 1], parse);
    }
  }

  // ----- the datagram loop -----

  lemma {:induction false} ApplyLinesAppend(st: Store, a: seq<string>, b: seq<string>, parse: Parser)
    ensures ApplyLines(st, a + b, parse) == ApplyLines(ApplyLines(st, a, parse), b, parse)
    decreases |b|
  {
    if b == [] {
      assert a + b == a;
    } else {
      assert (a + b)[..|a + b| - 1] == a + b[..|b| - 1];
      ApplyLinesAppend(st, a, b[..|b| - 1], parse);
    }
  }

  lemma {:induction false} ApplyLinesSkipsEmpty(st: Store, lines: seq<string>, parse: Parser)
    ensures ApplyLines(st, lines, parse) == ApplyLines(st, NonEmpty(lines), parse)
    decreases |lines|
  {
    if lines != [] {
      var init := lines[..|lines| - 1];
      var last := lines[|lines| - 1];
      ApplyLinesSkipsEmpty(st, init, parse);
      if last != [] {
        ApplyLinesAppend(st, NonEmpty(init), [last], parse);
        assert [last][..0] == [];
      }
    }
  }

  /** The lines of a datagram are applied independently and in order: a
      datagram `a \n b` has the effect of `a` followed by that of `b`. */
  lemma IngestSplits(st: Store, a: string, b: string, parse: Parser)
    ensures Ingest(st, a + "\n" + b, parse) == Ingest(Ingest(st, a, parse), b, parse)
  {
    var s := a + "\n" + b;
    ApplyLinesSkipsEmpty(st, SplitLines(s), parse);
    NonEmptyLinesAreChunks(s);
    ChunksAppend(a, b);
    NonEmptyLinesAreChunks(a);
    NonEmptyLinesAreChunks(b);
    ApplyLinesAppend(st, Chunks(a), Chunks(b), parse);
    ApplyLinesSkipsEmpty(st, SplitLines(a), parse);
    ApplyLinesSkipsEmpty(Ingest(st, a, parse), SplitLines(b), parse);
  }

  /** A line the router rejects does not stop the lines after it. */
  lemma BadLineIsSkipped(st: Store, bad: string, rest: string, parse: Parser)
    requires RouteLine(bad).Reject?
    requires forall i :: 0 <= i < |bad| ==> !IsLineBreak(bad[i])
    ensures Ingest(st, bad + "\n" + rest, parse) == Ingest(st, rest, parse)
  {
    IngestSplits(st, bad, rest, parse);
    ApplyLinesSkipsEmpty(st, SplitLines(bad), parse);
    NonEmptyLinesAreChunks(bad);
    if bad != [] {
      SingleChunk(bad);
      assert [bad][..0] == [];
    }
  }

  // ----- sample events -----

  /** A plain counter event counts its value at rate 1. */
  lemma CounterExample(line: string, parse: Parser)
    requires line == "foo:1|c"
    requires parse("1") == Some(1.0)
    ensures Decode(Store(map[], map[], map[], 0), line, parse) == Store(map["foo" := 1.0], map[], map[], 1)
  {
    var fields := ["1", "c"];
    JoinOfTwo("1", "c");
    CounterLineFields(line, "foo", fields);
    assert CounterDelta(fields, parse) == Some(1.0);
    FirstCount(line, fields, parse, 1.0);
  }

  /** `key:v|c|@r` adds `float(v) / float(r)` to the counter `key`: a
      sampled counter is scaled by the inverse of its rate. */
  lemma SampledCounterLine(st: Store, line: string, key: string, v: string, r: string, parse: Parser)
    requires Keys.IsKey(key) && v != []
    requires ':' !in v && '|' !in v && ':' !in r && '|' !in r
    requires r != [] && (IsDigit(r[0]) || r[0] == '.')
    requires line == key + ":" + v + "|c|@" + r
    requires parse(v).Some? && parse(r).Some? && parse(r).value != 0.0
    ensures var after := Decode(st, line, parse);
      && key in after.counters
      && after.counters[key] == (if key in st.counters then st.counters[key] else 0.0) + parse(v).value / parse(r).value
      && after.seen == NextSeen(st.seen)
  {
    var fields := [v, "c", "@" + r];
    JoinOfThree(v, "c", "@" + r);
    CounterLineFields(line, key, fields);
    assert fields[2][1..] == r && fields[2][1] == r[0];
    CounterDeltaSpec(fields, parse);
    CounterRule(st, key, fields, parse);
  }

  /** With four or more fields the rate field is ignored: `key:v|c|@r|x`
      adds `float(v)` unscaled. */
  lemma FourFieldCounterLine(st: Store, line: string, key: string, v: string, r: string, x: string, parse: Parser)
    requires Keys.IsKey(key) && v != []
    requires ':' !in v && '|' !in v && ':' !in r && '|' !in r && ':' !in x && '|' !in x
    requires line == key + ":" + v + "|c|@" + r + "|" + x
    requires parse(v).Some?
    ensures var after := Decode(st, line, parse);
      && key in after.counters
      && after.counters[key] == (if key in st.counters then st.counters[key] else 0.0) + parse(v).value
      && after.seen == NextSeen(st.seen)
  {
    var fields := [v, "c", "@" + r, x];
    JoinOfThree("c", "@" + r, x);
    assert Join(fields, '|') == v + "|" + Join(fields[1..], '|');
    assert fields[1..] == ["c", "@" + r, x];
    CounterLineFields(line, key, fields);
    CounterDeltaSpec(fields, parse);
    CounterRule(st, key, fields, parse);
  }

  lemma JoinOfThree(a: string, b: string, c: string)
    ensures Join([a, b, c], '|') == a + "|" + b + "|" + c
  {
    assert [a, b, c][1..] == [b, c];
    assert [b, c][1..] == [c];
    assert Join([b, c], '|') == b + "|" + c;
    assert Join([a, b, c], '|') == a + "|" + (b + "|" + c);
  }

  /** The routing of `key:f0|f1|...` whose second field is the counter tag. */
  lemma CounterLineFields(line: string, key: string, fields: seq<string>)
    requires Keys.IsKey(key) && |fields| >= 2 && fields[1] == "c"
    requires forall i :: 0 <= i < |fields| ==> ':' !in fields[i] && '|' !in fields[i]
    requires line == key + ":" + Join(fields, '|')
    ensures RouteLine(line) == Accept(key, Counter, fields)
  {
    LineSplits(line, key, fields);
    Keys.NormalizeKeepsKeys(key);
  }

  /** `key:f0|f1|...` splits into the key and the joined fields, and those
      split back into the fields. */
  lemma LineSplits(line: string, key: string, fields: seq<string>)
    requires Keys.IsKey(key) && |fields| >= 1
    requires forall i :: 0 <= i < |fields| ==> ':' !in fields[i] && '|' !in fields[i]
    requires line == key + ":" + Join(fields, '|')
    ensures Split(line, ':') == [key, Join(fields, '|')]
    ensures Split(Join(fields, '|'), '|') == fields
  {
    ColonSplit(line, key, Join(fields, '|'), fields);
    SplitJoin(fields, '|');
  }

  lemma ColonSplit(line: string, key: string, rest: string, fields: seq<string>)
    requires Keys.IsKey(key)
    requires forall i :: 0 <= i < |fields| ==> ':' !in fields[i]
    requires rest == Join(fields, '|') && line == key + ":" + rest
    ensures Split(line, ':') == [key, rest]
  {
    assert ':' !in key;
    JoinAvoids(fields, '|', ':');
    SplitSample(line, key, rest, ':');
    SplitNone(rest, ':');
  }

  lemma FirstCount(line: string, fields: seq<string>, parse: Parser, d: real)
    requires RouteLine(line) == Accept("foo", Counter, fields)
    requires CounterDelta(fields, parse) == Some(d)
    ensures Decode(Store(map[], map[], map[], 0), line, parse) == Store(map["foo" := d], map[], map[], 1)
  {
    CounterRule(Store(map[], map[], map[], 0), "foo", fields, parse);
  }

  lemma JoinOfTwo(a: string, b: string)
    ensures Join([a, b], '|') == a + "|" + b
  {
    assert [a, b][1..] == [b];
  }

  /** An unknown type tag changes nothing. */
  lemma UnknownTypeExample(st: Store, line: string, parse: Parser)
    requires line == "bad:1|k"
    ensures Decode(st, line, parse) == st
  {
    UnknownTypeLine(st, line, "bad", "1", "k", parse);
  }

  /** `key:v|tag` with a tag other than `ms`, `c` and `g` changes nothing. */
  lemma UnknownTypeLine(st: Store, line: string, key: string, v: string, tag: string, parse: Parser)
    requires Keys.IsKey(key) && KindOf(tag).None?
    requires ':' !in v && '|' !in v && ':' !in tag && '|' !in tag
    requires line == key + ":" + v + "|" + tag
    ensures Decode(st, line, parse) == st
  {
    var fields := [v, tag];
    JoinOfTwo(v, tag);
    LineSplits(line, key, fields);
    RouteUnsupported(line, key, v + "|" + tag, fields);
  }

  lemma RouteUnsupported(line: string, raw: string, rest: string, fields: seq<string>)
    requires Split(line, ':') == [raw, rest] && Split(rest, '|') == fields
    requires |fields| >= 2 && KindOf(fields[1]).None?
    ensures RouteLine(line) == Reject(UnsupportedType)
  {
  }

  /** Splitting `a c b` where `a` holds no `c`: the first piece is `a`. */
  lemma SplitSample(s: string, a: string, b: string, c: char)
    requires s == a + [c] + b && c !in a
    ensures Split(s, c) == [a] + Split(b, c)
  {
    FindFirst(a, [c] + b, c);
    assert s == a + ([c] + b);
    assert s[..|a|] == a && s[|a| + 1..] == b;
  }

  lemma SplitNone(s: string, c: char)
    requires c !in s
    ensures Split(s, c) == [s]
  {
    FindFirst(s, [], c);
    assert s + [] == s;
  }
}
