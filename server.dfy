/** The class `StatsdServer` of statsdpy/statsd.py: three dictionaries and a
    counter updated in place by the ingest methods, and emptied by the two
    flush builders. Every method is specified by the functions of `Events`
    (ingest) and `Summary`/`Framing` (flush). */
module Server {
  import opened PyText
  import Keys
  import Events
  import Summary
  import Framing

  /** What one pass of the `stats_flush` loop hands to `report_stats`. */
  datatype Report = Text(text: string) | Frame(bytes: seq<Framing.byte>)

  /** A flush step sends its reports, or raises and ends the flush loop. */
  datatype FlushOutcome = Sent(reports: seq<Report>) | Crashed

  /** The payload `pickle_payload` builds from the collected entries (`None`
      when collecting raised): stamped, batched and framed. */
  function PickleOf(entries: Option<seq<Summary.Entry>>, ts: int, size: int,
                    serialise: seq<Summary.Metric> -> seq<Framing.byte>): Framing.Payload<seq<seq<Framing.byte>>>
  {
    match entries
    case None => Framing.Raised
    case Some(es) => Framing.PickleBatches(Summary.Stamp(es, ts), size, serialise)
  }

  /** The payload `plain_payload` builds from the collected entries. */
  function PlainOf(entries: Option<seq<Summary.Entry>>, ts: int, formatFloat: real -> string): Framing.Payload<string>
  {
    match entries
    case None => Framing.Raised
    case Some(es) => if es == [] then Framing.NoPayload else Framing.Payload(Summary.PlainText(es, ts, formatFloat))
  }

  /** What `stats_flush` does with a pickle payload: one report per frame,
      nothing for an empty payload, and an exception ends the loop. */
  function PickleOutcome(p: Framing.Payload<seq<seq<Framing.byte>>>): (o: FlushOutcome)
    ensures o.Crashed? <==> p.Raised?
    ensures o.Sent? ==> |o.reports| == (if p.Payload? then |p.value| else 0)
  {
    match p
    case Raised => Crashed
    case NoPayload => Sent([])
    case Payload(frames) => Sent(seq(|frames|, i requires 0 <= i < |frames| => Frame(frames[i])))
  }

  /** What `stats_flush` does with a plain payload: the text in one report. */
  function PlainOutcome(p: Framing.Payload<string>): (o: FlushOutcome)
    ensures o.Crashed? <==> p.Raised?
    ensures o.Sent? ==> |o.reports| <= 1
  {
    match p
    case Raised => Crashed
    case NoPayload => Sent([])
    case Payload(text) => Sent([Text(text)])
  }

  class StatsdServer {
    var counters: map<string, real>
    var timers: map<string, seq<real>>
    var gauges: map<string, real>
    var statsSeen: int

    const flushInterval: int
    const pctThreshold: int
    const maxBatchSize: int
    const pickleProto: bool
    /** `float()` on a text field. */
    const parse: Events.Parser
    /** `%s` of a float. */
    const formatFloat: real -> string
    /** `pickle.dumps(batch, protocol=-1)`. */
    const serialise: seq<Summary.Metric> -> seq<Framing.byte>

    function State(): Events.Store
      reads this
    {
      Events.Store(counters, timers, gauges, statsSeen)
    }

    /** Every key is normalised and `stats_seen` is within `[0, maxint]`. */
    predicate Valid()
      reads this
    {
      Events.Good(State())
    }

    /** `__init__` with the configuration already read: empty buckets and no
        event seen yet. */
    constructor(flushInterval: int, pctThreshold: int, maxBatchSize: int, pickleProto: bool,
                parse: Events.Parser, formatFloat: real -> string, serialise: seq<Summary.Metric> -> seq<Framing.byte>)
      ensures State() == Events.Store(map[], map[], map[], 0) && Valid()
      ensures this.flushInterval == flushInterval && this.pctThreshold == pctThreshold
      ensures this.maxBatchSize == maxBatchSize && this.pickleProto == pickleProto
      ensures this.parse == parse && this.formatFloat == formatFloat && this.serialise == serialise
    {
      this.flushInterval := flushInterval;
      this.pctThreshold := pctThreshold;
      this.maxBatchSize := maxBatchSize;
      this.pickleProto := pickleProto;
      this.parse := parse;
      this.formatFloat := formatFloat;
      this.serialise := serialise;
      counters := map[];
      timers := map[];
      gauges := map[];
      statsSeen := 0;
    }

    /** The three lines that end every successful `process_*`. */
    method BumpSeen()
      modifies this
      ensures statsSeen == Events.NextSeen(old(statsSeen))
      ensures counters == old(counters) && timers == old(timers) && gauges == old(gauges)
    {
      if statsSeen >= Events.MAXINT {
        statsSeen := 0;
      }
      statsSeen := statsSeen + 1;
    }

    method ProcessGauge(key: string, fields: seq<string>)
      modifies this
      ensures State() == Events.ProcessGauge(old(State()), key, fields, parse)
    {
      if |fields| == 0 {
        return;
      }
      var value := parse(fields[0]);
      if value.Some? {
        gauges := gauges[key := value.value];
        BumpSeen();
      }
    }

    method ProcessTimer(key: string, fields: seq<string>)
      modifies this
      ensures State() == Events.ProcessTimer(old(State()), key, fields, parse)
    {
      if key !in timers {
        timers := timers[key := []];
      }
      if |fields| == 0 {
        return;
      }
      var value := parse(fields[0]);
      if value.Some? {
        timers := timers[key := timers[key] + [value.value]];
        BumpSeen();
      }
    }

    method ProcessCounter(key: string, fields: seq<string>)
      modifies this
      ensures State() == Events.ProcessCounter(old(State()), key, fields, parse)
    {
      var counterValue := Events.CounterDelta(fields, parse);
      if counterValue.None? {
        return;
      }
      if key !in counters {
        counters := counters[key := 0.0];
      }
      counters := counters[key := counters[key] + counterValue.value];
      BumpSeen();
    }

    method DecodeRecvd(line: string)
      modifies this
      ensures State() == Events.Decode(old(State()), line, parse)
    {
      var bits := Split(line, ':');
      if |bits| == 2 {
        var key := Keys.Normalize(bits[0]);
        var fields := Split(bits[1], '|');
        if |fields| >= 2 {
          if fields[1] == "ms" {
            ProcessTimer(key, fields);
          } else if fields[1] == "c" {
            ProcessCounter(key, fields);
          } else if fields[1] == "g" {
            ProcessGauge(key, fields);
          }
        }
      }
    }

    /** One pass of the receive loop of `run`: an empty datagram ends the
        loop; otherwise every non-empty line is decoded, in order. */
    method Receive(data: string) returns (stop: bool)
      requires Valid()
      modifies this
      ensures stop <==> data == []
      ensures State() == Events.Ingest(old(State()), data, parse)
      ensures Valid()
    {
      if data == [] {
        return true;
      }
      var lines := SplitLines(data);
      for i := 0 to |lines|
        invariant State() == Events.ApplyLines(old(State()), lines[..i], parse)
      {
        Events.ApplyLinesStep(old(State()), lines, i, parse);
        if lines[i] != [] {
          DecodeRecvd(lines[i]);
        }
      }
      assert lines[..|lines|] == lines;
      Events.ApplyLinesPreservesGood(old(State()), lines, parse);
      return false;
    }

    /** The three loops shared by `pickle_payload` and `plain_payload`: they
        visit the keys in dictionary order (`co`, `to`, `go`), collect the
        entries and reset each bucket they visit. `None` is the exception
        that ends a flush: a zero `flush_interval` fails on the first
        counter before anything changes, and a bad threshold index fails on
        the first such timer after it has been sorted in place. */
    method CollectEntries(totalName: string)
      returns (outcome: Option<seq<Summary.Entry>>, co: seq<string>, to: seq<string>, go: seq<string>, ghost failedAt: int)
      modifies this
      ensures Summary.Enumerates(co, old(counters)) && Summary.Enumerates(to, old(timers)) && Summary.Enumerates(go, old(gauges))
      ensures outcome == Summary.FlushEntries(old(counters), old(timers), old(gauges), co, to, go,
                                              flushInterval, pctThreshold, totalName)
      ensures statsSeen == old(statsSeen)
      ensures Summary.FlushReset(old(counters), old(timers), old(gauges), co, to, flushInterval, pctThreshold,
                                 outcome.Some?, failedAt, counters, timers, gauges)
    {
      var c0, t0, g0 := counters, timers, gauges;
      co := KeyOrder(c0);
      to := KeyOrder(t0);
      go := KeyOrder(g0);
      var c, t, g;
      outcome, c, t, g, failedAt := Collect(c0, t0, g0, co, to, go, flushInterval, pctThreshold, totalName);
      counters, timers, gauges := c, t, g;
    }

    /** The body of `CollectEntries` on the snapshot `c0`, `t0`, `g0` of the
        three dictionaries, returning their new values. */
    static method Collect(c0: map<string, real>, t0: map<string, seq<real>>, g0: map<string, real>,
                          co: seq<string>, to: seq<string>, go: seq<string>,
                          interval: int, pct: int, totalName: string)
      returns (outcome: Option<seq<Summary.Entry>>, c: map<string, real>, t: map<string, seq<real>>, g: map<string, real>, ghost failedAt: int)
      requires Summary.Enumerates(co, c0) && Summary.Enumerates(to, t0) && Summary.Enumerates(go, g0)
      ensures outcome == Summary.FlushEntries(c0, t0, g0, co, to, go, interval, pct, totalName)
      ensures Summary.FlushReset(c0, t0, g0, co, to, interval, pct, outcome.Some?, failedAt, c, t, g)
    {
      failedAt := -1;
      c, t, g := c0, t0, g0;
      Summary.FlushEntriesCases(c0, t0, g0, co, to, go, interval, pct, totalName);
      if interval == 0 && co != [] {
        return None, c, t, g, failedAt;
      }
      var counterPart := [];
      if interval != 0 {
        c, counterPart := CounterLoop(c0, co, interval);
      } else {
        Summary.EmptyOrder(co, c0);
        assert c0 == map[];
      }
      var timerPart;
      t, timerPart, failedAt := TimerLoop(t0, to, pct, totalName);
      if timerPart.None? {
        return None, c, t, g, failedAt;
      }
      var gaugePart;
      g, gaugePart := GaugeLoop(g0, go);
      return Some(counterPart + timerPart.value + gaugePart), c, t, g, failedAt;
    }

    /** The counter loop: two entries per counter, each counter reset to 0. */
    static method CounterLoop(c0: map<string, real>, co: seq<string>, interval: int)
      returns (c: map<string, real>, payload: seq<Summary.Entry>)
      requires Summary.Enumerates(co, c0) && interval != 0
      ensures c == Summary.Zeroed(c0)
      ensures payload == Summary.CounterEntries(c0, co, interval)
    {
      payload := [];
      c := c0;
      for i := 0 to |co|
        invariant c == Summary.ZeroedAt(c0, co[..i])
        invariant payload == Summary.CounterEntries(c0, co[..i], interval)
      {
        var item := co[i];
        Summary.ZeroedVisit(c0, co, i);
        Summary.CounterEntriesStep(c0, co, i, interval);
        payload := payload + Summary.CounterPair(item, c[item], interval);
        c := c[item := 0.0];
      }
      assert co[..|co|] == co;
      Summary.ZeroedAtAll(c0, co);
    }

    /** The timer loop: each non-empty bucket is sorted in place, summarised
        into six entries and emptied; a bad threshold index raises after the
        sort, leaving the buckets visited before it emptied. */
    static method TimerLoop(t0: map<string, seq<real>>, to: seq<string>, pct: int, totalName: string)
      returns (t: map<string, seq<real>>, payload: Option<seq<Summary.Entry>>, ghost failedAt: int)
      requires Summary.Enumerates(to, t0)
      ensures payload == Summary.TimerEntries(t0, to, pct, totalName)
      ensures payload.Some? ==> t == Summary.Emptied(t0)
      ensures payload.None? ==>
        && 0 <= failedAt < |to| && t0[to[failedAt]] != []
        && Summary.Summarise(t0[to[failedAt]], pct).None?
        && t == Summary.ClearedAt(t0, to[..failedAt])[to[failedAt] := Summary.Sort(t0[to[failedAt]])]
    {
      failedAt := -1;
      var entries: seq<Summary.Entry> := [];
      t := t0;
      for i := 0 to |to|
        invariant t == Summary.ClearedAt(t0, to[..i])
        invariant Summary.TimerEntries(t0, to[..i], pct, totalName) == Some(entries)
      {
        var ok;
        t, entries, ok := TimerVisit(t0, to, i, pct, totalName, t, entries);
        if !ok {
          failedAt := i;
          Summary.TimerEntriesPrefixFails(t0, to, i + 1, pct, totalName);
          return t, None, failedAt;
        }
      }
      assert to[..|to|] == to;
      Summary.ClearedAtAll(t0, to);
      payload := Some(entries);
    }

    /** One pass of the timer loop, on the key `to[i]`. */
    static method TimerVisit(t0: map<string, seq<real>>, to: seq<string>, i: nat, pct: int, totalName: string,
                             t: map<string, seq<real>>, entries: seq<Summary.Entry>)
      returns (t': map<string, seq<real>>, entries': seq<Summary.Entry>, ok: bool)
      requires Summary.Distinct(to) && (forall k :: k in to ==> k in t0) && i < |to|
      requires t == Summary.ClearedAt(t0, to[..i])
      requires Summary.TimerEntries(t0, to[..i], pct, totalName) == Some(entries)
      ensures ok ==> t' == Summary.ClearedAt(t0, to[..i + 1])
      ensures ok ==> Summary.TimerEntries(t0, to[..i + 1], pct, totalName) == Some(entries')
      ensures !ok ==>
        && Summary.TimerEntries(t0, to[..i + 1], pct, totalName).None?
        && t0[to[i]] != [] && Summary.Summarise(t0[to[i]], pct).None?
        && t' == Summary.ClearedAt(t0, to[..i])[to[i] := Summary.Sort(t0[to[i]])]
    {
      var key := to[i];
      Summary.ClearedVisit(t0, to, i);
      Summary.TimerEntriesStep(t0, to, i, pct, totalName);
      if t[key] == [] {
        return t, entries, true;
      }
      var sorted := Summary.Sort(t[key]);
      var stats := Summary.SortedStats(sorted, pct);
      assert stats == Summary.Summarise(t0[key], pct);
      if stats.None? {
        return t[key := sorted], entries, false;
      }
      return t[key := []], entries + Summary.TimerSix(key, stats.value, pct, totalName), true;
    }

    /** The gauge loop: one entry per gauge, each gauge reset to 0. */
    static method GaugeLoop(g0: map<string, real>, go: seq<string>)
      returns (g: map<string, real>, payload: seq<Summary.Entry>)
      requires Summary.Enumerates(go, g0)
      ensures payload == Summary.GaugeEntries(g0, go)
      ensures g == Summary.Zeroed(g0)
    {
      payload := [];
      g := g0;
      for i := 0 to |go|
        invariant g == Summary.ZeroedAt(g0, go[..i])
        invariant payload == Summary.GaugeEntries(g0, go[..i])
      {
        var key := go[i];
        Summary.ZeroedVisit(g0, go, i);
        Summary.GaugeEntriesStep(g0, go, i);
        payload := payload + [Summary.Entry("stats.gauges." + key, g[key], Summary.AsInt)];
        g := g[key := 0.0];
      }
      assert go[..|go|] == go;
      Summary.ZeroedAtAll(g0, go);
    }

    /** `pickle_payload`: the collected entries, stamped, batched and framed. */
    method PicklePayload(ts: int)
      returns (payload: Framing.Payload<seq<seq<Framing.byte>>>, ghost co: seq<string>, ghost to: seq<string>, ghost go: seq<string>, ghost failedAt: int)
      requires Valid()
      modifies this
      ensures Valid() && statsSeen == old(statsSeen)
      ensures Summary.Enumerates(co, old(counters)) && Summary.Enumerates(to, old(timers)) && Summary.Enumerates(go, old(gauges))
      ensures var es := Summary.FlushEntries(old(counters), old(timers), old(gauges), co, to, go, flushInterval, pctThreshold, "mean");
        && payload == PickleOf(es, ts, maxBatchSize, serialise)
        && Summary.FlushReset(old(counters), old(timers), old(gauges), co, to, flushInterval, pctThreshold,
                              es.Some?, failedAt, counters, timers, gauges)
    {
      var entries, co', to', go', failed := CollectEntries("mean");
      co, to, go, failedAt := co', to', go', failed;
      if entries.None? {
        payload := Framing.Raised;
      } else {
        payload := FrameBatches(Summary.Stamp(entries.value, ts));
      }
      KeysKept(old(State()), State());
    }

    /** A flush keeps every key and `stats_seen`, so it keeps `Valid()`. */
    static lemma KeysKept(before: Events.Store, after: Events.Store)
      requires Events.Good(before)
      requires after.counters.Keys == before.counters.Keys && after.timers.Keys == before.timers.Keys
      requires after.gauges.Keys == before.gauges.Keys && after.seen == before.seen
      ensures Events.Good(after)
    {
    }

    /** The `if payload:` tail of `pickle_payload`: `_get_batches` and the
        framing loop. */
    method FrameBatches(items: seq<Summary.Metric>) returns (payload: Framing.Payload<seq<seq<Framing.byte>>>)
      ensures payload == Framing.PickleBatches(items, maxBatchSize, serialise)
    {
      if items == [] {
        return Framing.NoPayload;
      }
      var batches := Framing.Batches(items, maxBatchSize);
      if batches.None? {
        return Framing.Raised;
      }
      var framed: seq<seq<Framing.byte>> := [];
      for i := 0 to |batches.value|
        invariant Framing.FrameAll(batches.value[..i], serialise) == Some(framed)
      {
        var data := serialise(batches.value[i]);
        FrameAllStep(batches.value, i);
        if |data| >= Framing.LIMIT {
          FrameAllFails(batches.value, i);
          return Framing.Raised;
        }
        framed := framed + [Framing.Pack32BE(|data|) + data];
      }
      assert batches.value[..|batches.value|] == batches.value;
      return Framing.Payload(framed);
    }

    lemma FrameAllStep(bs: seq<seq<Summary.Metric>>, i: nat)
      requires i < |bs|
      ensures Framing.FrameAll(bs[..i + 1], serialise) ==
        match Framing.FrameAll(bs[..i], serialise)
        case None => None
        case Some(fs) => match Framing.Frame(serialise(bs[i])) case None => None case Some(f) => Some(fs + [f])
    {
      Framing.FrameAllSnoc(bs[..i], bs[i], serialise);
      assert bs[..i + 1] == bs[..i] + [bs[i]];
    }

    lemma FrameAllFails(bs: seq<seq<Summary.Metric>>, i: nat)
      requires i < |bs| && |serialise(bs[i])| >= Framing.LIMIT
      ensures Framing.FrameAll(bs, serialise) == None
    {
    }

    /** `plain_payload`: the collected entries rendered as text lines. */
    method PlainPayload(ts: int)
      returns (payload: Framing.Payload<string>, ghost co: seq<string>, ghost to: seq<string>, ghost go: seq<string>, ghost failedAt: int)
      requires Valid()
      modifies this
      ensures Valid() && statsSeen == old(statsSeen)
      ensures Summary.Enumerates(co, old(counters)) && Summary.Enumerates(to, old(timers)) && Summary.Enumerates(go, old(gauges))
      ensures var es := Summary.FlushEntries(old(counters), old(timers), old(gauges), co, to, go, flushInterval, pctThreshold, "total");
        && payload == PlainOf(es, ts, formatFloat)
        && Summary.FlushReset(old(counters), old(timers), old(gauges), co, to, flushInterval, pctThreshold,
                              es.Some?, failedAt, counters, timers, gauges)
    {
      var entries, co', to', go', failed := CollectEntries("total");
      co, to, go, failedAt := co', to', go', failed;
      if entries.None? {
        payload := Framing.Raised;
      } else if entries.value == [] {
        payload := Framing.NoPayload;
      } else {
        payload := Framing.Payload(Summary.PlainText(entries.value, ts, formatFloat));
      }
      KeysKept(old(State()), State());
    }

    /** One pass of `stats_flush` after its sleep: build the payload in the
        configured format and hand each batch (pickle) or the text (plain)
        to `report_stats`; an exception ends the loop. */
    method FlushStep(ts: int) returns (outcome: FlushOutcome, ghost co: seq<string>, ghost to: seq<string>, ghost go: seq<string>, ghost failedAt: int)
      requires Valid()
      modifies this
      ensures Valid() && statsSeen == old(statsSeen)
      ensures Summary.Enumerates(co, old(counters)) && Summary.Enumerates(to, old(timers)) && Summary.Enumerates(go, old(gauges))
      ensures var es := Summary.FlushEntries(old(counters), old(timers), old(gauges), co, to, go, flushInterval, pctThreshold,
                                             if pickleProto then "mean" else "total");
        && outcome == (if pickleProto then PickleOutcome(PickleOf(es, ts, maxBatchSize, serialise))
                       else PlainOutcome(PlainOf(es, ts, formatFloat)))
        && (outcome.Crashed? <==>
              es.None? || (pickleProto && Framing.PickleBatches(Summary.Stamp(es.value, ts), maxBatchSize, serialise).Raised?))
        && Summary.FlushReset(old(counters), old(timers), old(gauges), co, to, flushInterval, pctThreshold,
                              es.Some?, failedAt, counters, timers, gauges)
      ensures !pickleProto && outcome.Sent? ==> |outcome.reports| <= 1
      ensures outcome.Sent? && outcome.reports != [] ==>
        !(old(counters) == map[] && old(gauges) == map[] && forall k :: k in old(timers) ==> old(timers)[k] == [])
    {
      if pickleProto {
        var payload;
        payload, co, to, go, failedAt := PicklePayload(ts);
        outcome := PickleOutcome(payload);
        if payload.Payload? {
          Summary.FlushEntriesEmpty(old(counters), old(timers), old(gauges), co, to, go, flushInterval, pctThreshold, "mean");
        }
      } else {
        var payload;
        payload, co, to, go, failedAt := PlainPayload(ts);
        outcome := PlainOutcome(payload);
        if payload.Payload? {
          Summary.FlushEntriesEmpty(old(counters), old(timers), old(gauges), co, to, go, flushInterval, pctThreshold, "total");
        }
      }
    }

    /** One iteration order of a dictionary's keys. */
    static method KeyOrder<V>(m: map<string, V>) returns (order: seq<string>)
      ensures Summary.Enumerates(order, m)
    {
      order := [];
      var remaining := m.Keys;
      while remaining != {}
        invariant remaining <= m.Keys
        invariant Summary.Distinct(order)
        invariant forall k :: k in order ==> k in m && k !in remaining
        invariant forall k :: k in m ==> k in order || k in remaining
        decreases |remaining|
      {
        var k :| k in remaining;
        order := order + [k];
        remaining := remaining - {k};
      }
    }
  }
}
