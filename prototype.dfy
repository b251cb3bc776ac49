/** The first, counters-only server of statsd.py. It shares the name
    normaliser and the rate check with statsdpy/statsd.py but differs in
    four ways that this module keeps:
    - a datagram is decoded as one line;
    - only the `c` type is handled;
    - `stats_seen` counts every routed counter line, whatever its fate;
    - the flush loop keeps one payload list, and one timestamp, for its
      whole life, so every report repeats all the earlier ones. */
module Prototype {
  import opened PyText
  import Keys
  import Events
  import Summary
  import Server

  /** `flush_interval = 10` of `stats_flush`. */
  const FLUSH_INTERVAL: int := 10

  /** The counters and `stats_seen` of the prototype. */
  datatype Proto = Proto(counters: map<string, real>, seen: int)

  /** The value added by a counter line, or `None` where the `try` block
      raises. `sample_rate` is a local of `decode_recvd` that only the
      three-field path binds, so any other field count raises
      `UnboundLocalError` when the product is formed. */
  function Delta(fields: seq<string>, parse: Events.Parser): (r: Option<real>)
    requires |fields| >= 2
    ensures r.Some? ==> |fields| == 3 && Events.RateMatches(fields[2])
  {
    var value := if fields[0] == "" then Some(1.0) else parse(fields[0]);
    if |fields| != 3 || !Events.RateMatches(fields[2]) then None
    else
      var rate := parse(LStrip(fields[2], '@'));
      if value.None? || rate.None? || rate.value == 0.0 then None
      else Some(value.value * (1.0 / rate.value))
  }

  /** `decode_recvd(data)` of the prototype: the key is created at 0 before
      the `try`, and `stats_seen` is bumped after it, with no wrap. */
  function Decode(st: Proto, data: string, parse: Events.Parser): Proto
  {
    var bits := Split(data, ':');
    if |bits| != 2 then st
    else
      var key := Keys.Normalize(bits[0]);
      var fields := Split(bits[1], '|');
      if |fields| < 2 || fields[1] != "c" then st
      else
        var before := if key in st.counters then st.counters[key] else 0.0;
        var after := match Delta(fields, parse) case None => before case Some(d) => before + d;
        Proto(st.counters[key := after], st.seen + 1)
  }

  /** Every key is normalised and `stats_seen` is not negative. */
  predicate Good(st: Proto)
  {
    st.seen >= 0 && forall k :: k in st.counters ==> Keys.IsKey(k)
  }

  /** A datagram changes the store exactly when the full server's router
      would accept it as a counter; it then bumps `stats_seen` once and
      makes sure the key exists, whether or not a value was added. */
  lemma DecodeRoute(st: Proto, data: string, parse: Events.Parser)
    ensures var r := Decode(st, data, parse);
      match Events.RouteLine(data)
      case Accept(key, Counter, fields) =>
        && r.seen == st.seen + 1
        && r.counters.Keys == st.counters.Keys + {key}
        && (forall k :: k in st.counters && k != key ==> r.counters[k] == st.counters[k])
        && r.counters[key] == (if key in st.counters then st.counters[key] else 0.0) +
             (match Delta(fields, parse) case None => 0.0 case Some(d) => d)
      case _ => r == st
  {
    var bits := Split(data, ':');
    if |bits| == 2 {
      var fields := Split(bits[1], '|');
      if |fields| >= 2 && fields[1] != "c" {
        assert Events.KindOf(fields[1]) != Some(Events.Counter);
      }
    }
  }

  /** Decoding keeps every key normalised. */
  lemma DecodeGood(st: Proto, data: string, parse: Events.Parser)
    requires Good(st)
    ensures Good(Decode(st, data, parse))
  {
  }

  /** A counter line without a sample rate is counted as seen but adds
      nothing: the product raises before the addition. */
  lemma UnsampledCounterAddsNothing(st: Proto, key: string, v: string, parse: Events.Parser)
    requires Keys.IsKey(key) && ':' !in v && '|' !in v
    ensures var r := Decode(st, key + ":" + v + "|c", parse);
      && r.seen == st.seen + 1
      && key in r.counters
      && r.counters[key] == (if key in st.counters then st.counters[key] else 0.0)
  {
    var fields := [v, "c"];
    assert [v, "c"][1..] == ["c"];
    assert Join(fields, '|') == v + "|c";
    assert key + ":" + v + "|c" == key + ":" + Join(fields, '|');
    Events.CounterLineFields(key + ":" + v + "|c", key, fields);
    DecodeRoute(st, key + ":" + v + "|c", parse);
  }

  /** On a line with a sample rate the prototype adds what the full
      server's `process_counter` adds. */
  lemma SampledDeltaAgrees(fields: seq<string>, parse: Events.Parser)
    requires |fields| == 3
    ensures Delta(fields, parse) == Events.CounterDelta(fields, parse)
  {
    var value := if fields[0] == "" then Some(1.0) else parse(fields[0]);
    if Events.RateMatches(fields[2]) {
      var rate := parse(LStrip(fields[2], '@'));
      assert Events.SampleRate(fields, parse) == rate;
      if value.Some? && rate.Some? && rate.value != 0.0 {
        var v, r := value.value, rate.value;
        assert Delta(fields, parse).value == v * (1.0 / r);
        assert Events.CounterDelta(fields, parse).value == v * (1.0 / r);
      }
    }
  }

  /** The two lines of one counter: the per-second rate over the fixed
      interval and the raw count, both stamped with `tstamp`. */
  function CounterLines(key: string, value: real, ts: int, formatFloat: real -> string): seq<string>
  {
    var stamp := " " + IntToString(ts) + "\n";
    ["stats." + key + " " + formatFloat(value / FLUSH_INTERVAL as real) + stamp,
     "stats_counts." + key + " " + formatFloat(value) + stamp]
  }

  /** The lines one flush pass appends, for the keys in `order`. */
  function FlushLines(counters: map<string, real>, order: seq<string>, ts: int, formatFloat: real -> string): seq<string>
    requires forall k :: k in order ==> k in counters
  {
    if order == [] then []
    else
      var last := order[|order| - 1];
      FlushLines(counters, order[..|order| - 1], ts, formatFloat) + CounterLines(last, counters[last], ts, formatFloat)
  }

  lemma FlushLinesStep(counters: map<string, real>, order: seq<string>, i: nat, ts: int, formatFloat: real -> string)
    requires forall k :: k in order ==> k in counters
    requires i < |order|
    ensures FlushLines(counters, order[..i + 1], ts, formatFloat) ==
      FlushLines(counters, order[..i], ts, formatFloat) + CounterLines(order[i], counters[order[i]], ts, formatFloat)
  {
    assert order[..i + 1][..i] == order[..i];
  }

  /** A pass appends two lines per counter; line `2i` is the rate of the
      `i`-th key and line `2i + 1` its raw count. */
  lemma {:induction false} FlushLinesShape(counters: map<string, real>, order: seq<string>, ts: int, formatFloat: real -> string)
    requires forall k :: k in order ==> k in counters
    ensures var ls := FlushLines(counters, order, ts, formatFloat);
      && |ls| == 2 * |order|
      && forall i :: 0 <= i < |order| ==> ls[2 * i .. 2 * i + 2] == CounterLines(order[i], counters[order[i]], ts, formatFloat)
  {
    if order != [] {
      var front := order[..|order| - 1];
      FlushLinesShape(counters, front, ts, formatFloat);
      var prev := FlushLines(counters, front, ts, formatFloat);
      var ls := FlushLines(counters, order, ts, formatFloat);
      forall i | 0 <= i < |order|
        ensures ls[2 * i .. 2 * i + 2] == CounterLines(order[i], counters[order[i]], ts, formatFloat)
      {
        if i < |front| {
          assert ls[2 * i .. 2 * i + 2] == prev[2 * i .. 2 * i + 2];
          assert front[i] == order[i];
        }
      }
    }
  }

  /** Every line ends with the stamp ` <tstamp>\n`. */
  predicate Stamped(lines: seq<string>, ts: int)
  {
    forall i :: 0 <= i < |lines| ==> EndsWith(lines[i], " " + IntToString(ts) + "\n")
  }

  predicate EndsWith(s: string, suffix: string)
  {
    |suffix| <= |s| && s[|s| - |suffix|..] == suffix
  }

  lemma {:induction false} FlushLinesStamped(counters: map<string, real>, order: seq<string>, ts: int, formatFloat: real -> string)
    requires forall k :: k in order ==> k in counters
    ensures Stamped(FlushLines(counters, order, ts, formatFloat), ts)
  {
    if order != [] {
      var front := order[..|order| - 1];
      FlushLinesStamped(counters, front, ts, formatFloat);
      var last := order[|order| - 1];
      var cl := CounterLines(last, counters[last], ts, formatFloat);
      var stamp := " " + IntToString(ts) + "\n";
      assert EndsWith(cl[0], stamp) by {
        var head := "stats." + last + " " + formatFloat(counters[last] / FLUSH_INTERVAL as real);
        assert cl[0] == head + stamp;
      }
      assert EndsWith(cl[1], stamp) by {
        var head := "stats_counts." + last + " " + formatFloat(counters[last]);
        assert cl[1] == head + stamp;
      }
    }
  }

  /** `"".join(parts)`. */
  function Concat(parts: seq<string>): string
  {
    if parts == [] then [] else Concat(parts[..|parts| - 1]) + parts[|parts| - 1]
  }

  lemma {:induction false} ConcatAppend(a: seq<string>, b: seq<string>)
    ensures Concat(a + b) == Concat(a) + Concat(b)
    decreases |b|
  {
    if b == [] {
      assert a + b == a;
    } else {
      var front, last := b[..|b| - 1], b[|b| - 1];
      ConcatAppend(a, front);
      assert (a + b)[..|a + b| - 1] == a + front && (a + b)[|a + b| - 1] == last;
      assert Concat(a + b) == Concat(a + front) + last;
      assert Concat(b) == Concat(front) + last;
    }
  }

  /** Because the payload list is never cleared, each report starts with
      the whole previous report. */
  lemma ReportsRepeat(before: seq<string>, added: seq<string>)
    ensures Concat(before) <= Concat(before + added)
  {
    ConcatAppend(before, added);
  }

  /** `StatsdServer` of statsd.py, with the two locals of its `stats_flush`
      greenthread (`tstamp` and `payload`) kept beside its own fields. */
  class ProtoServer {
    var counters: map<string, real>
    var statsSeen: int
    /** The `payload` list of `stats_flush`, kept across passes. */
    var payload: seq<string>
    /** `int(time.time())`, read once when `stats_flush` starts. */
    const tstamp: int
    const parse: Events.Parser
    /** `%s` of a float. */
    const formatFloat: real -> string

    function State(): Proto
      reads this
    {
      Proto(counters, statsSeen)
    }

    predicate Valid()
      reads this
    {
      Good(State()) && Stamped(payload, tstamp)
    }

    constructor(tstamp: int, parse: Events.Parser, formatFloat: real -> string)
      ensures counters == map[] && statsSeen == 0 && payload == [] && Valid()
      ensures this.tstamp == tstamp && this.parse == parse && this.formatFloat == formatFloat
    {
      this.tstamp := tstamp;
      this.parse := parse;
      this.formatFloat := formatFloat;
      counters := map[];
      statsSeen := 0;
      payload := [];
    }

    method DecodeRecvd(data: string)
      modifies this
      ensures State() == Decode(old(State()), data, parse)
      ensures payload == old(payload)
    {
      var bits := Split(data, ':');
      if |bits| == 2 {
        var key := Keys.Normalize(bits[0]);
        var fields := Split(bits[1], '|');
        if |fields| >= 2 && fields[1] == "c" {
          ghost var before := if key in counters then counters[key] else 0.0;
          if key !in counters {
            counters := counters[key := 0.0];
          }
          assert counters[key] == before;
          var delta := Delta(fields, parse);
          if delta.Some? {
            counters := counters[key := counters[key] + delta.value];
          }
          statsSeen := statsSeen + 1;
        }
      }
    }

    /** One pass of the receive loop of `run`: an empty datagram ends the
        loop; any other is decoded whole, without splitting it into lines. */
    method Receive(data: string) returns (stop: bool)
      requires Valid()
      modifies this
      ensures stop <==> data == []
      ensures State() == (if data == [] then old(State()) else Decode(old(State()), data, parse))
      ensures payload == old(payload) && Valid()
    {
      if data == [] {
        return true;
      }
      DecodeRecvd(data);
      DecodeGood(old(State()), data, parse);
      return false;
    }

    /** One pass of `stats_flush` after its sleep: append the lines of
        every counter, reset each to 0, and report the joined list when it
        is not empty. */
    method FlushPass() returns (report: Option<string>, ghost order: seq<string>)
      requires Valid()
      modifies this
      ensures Summary.Enumerates(order, old(counters))
      ensures payload == old(payload) + FlushLines(old(counters), order, tstamp, formatFloat)
      ensures counters == Summary.Zeroed(old(counters)) && statsSeen == old(statsSeen)
      ensures report == if payload == [] then None else Some(Concat(payload))
      ensures Valid()
    {
      var keys := Server.StatsdServer.KeyOrder(counters);
      order := keys;
      var c, lines := CounterLoop(counters, keys, tstamp, formatFloat);
      FlushLinesStamped(counters, keys, tstamp, formatFloat);
      StampedAppend(payload, lines, tstamp);
      counters, payload := c, payload + lines;
      report := if payload == [] then None else Some(Concat(payload));
    }

    /** The `for item in self.counters` loop: two lines per counter, each
        counter reset to 0. */
    static method CounterLoop(c0: map<string, real>, keys: seq<string>, ts: int, formatFloat: real -> string)
      returns (c: map<string, real>, lines: seq<string>)
      requires Summary.Enumerates(keys, c0)
      ensures c == Summary.Zeroed(c0)
      ensures lines == FlushLines(c0, keys, ts, formatFloat)
    {
      c, lines := c0, [];
      for i := 0 to |keys|
        invariant c == Summary.ZeroedAt(c0, keys[..i])
        invariant lines == FlushLines(c0, keys[..i], ts, formatFloat)
      {
        var item := keys[i];
        Summary.ZeroedVisit(c0, keys, i);
        FlushLinesStep(c0, keys, i, ts, formatFloat);
        lines := lines + CounterLines(item, c[item], ts, formatFloat);
        c := c[item := 0.0];
      }
      assert keys[..|keys|] == keys;
      Summary.ZeroedAtAll(c0, keys);
    }

    static lemma StampedAppend(a: seq<string>, b: seq<string>, ts: int)
      requires Stamped(a, ts) && Stamped(b, ts)
      ensures Stamped(a + b, ts)
    {
      forall i | 0 <= i < |a + b|
        ensures EndsWith((a + b)[i], " " + IntToString(ts) + "\n")
      {
        if i >= |a| {
          assert (a + b)[i] == b[i - |a|];
        }
      }
    }
  }
}
