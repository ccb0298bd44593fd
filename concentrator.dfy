/** The trace-stats concentrator: bucket alignment, the span-kind rule, the container-ID gate of a
    stats input, the payload key of a processed trace, and the tick/exit loop that flushes stats to
    the writer. The span concentrator the concentrator feeds is not part of this model: what the
    concentrator hands it is recorded, and what it flushes is an input. */
module Concentrator {
  import opened Common
  import opened Pb
  import opened Aggregation

  /** `alignTs`: the start of the bucket of width `bsize` holding `ts`. Go's `%` truncates, so a
      negative timestamp is rounded up toward zero. */
  function AlignTs(ts: int, bsize: int): (r: int)
    requires bsize > 0
    ensures r % bsize == 0
    ensures ts >= 0 ==> 0 <= r <= ts < r + bsize
    ensures ts < 0 ==> r - bsize < ts <= r <= 0
  {
    TruncToMultiple(ts, bsize)
  }

  /** Aligning an aligned timestamp changes nothing. */
  lemma AlignTsIdempotent(ts: int, bsize: int)
    requires bsize > 0
    ensures AlignTs(AlignTs(ts, bsize), bsize) == AlignTs(ts, bsize)
  {
    GoRemOfMultiple(AlignTs(ts, bsize), bsize);
  }

  /** Every non-negative timestamp of the bucket starting at `start` aligns to `start`. */
  lemma AlignTsSameBucket(ts: int, bsize: int, start: int)
    requires bsize > 0 && start >= 0 && start % bsize == 0 && start <= ts < start + bsize
    ensures AlignTs(ts, bsize) == start
  {
    var r := AlignTs(ts, bsize);
    DiffMultiple(r, start, bsize);
    SmallMultipleIsZero(r - start, bsize);
  }

  /** `computeStatsForSpanKind`: whether the lower-cased `span.kind` is one of the four kinds that
      get stats. A missing key reads as "". */
  predicate ComputeStatsForSpanKind(s: Span): (r: bool)
    ensures r ==> TagSpanKind in s.Meta
    ensures ShouldCalculateStatsOnPeerTags(Lookup(s.Meta, TagSpanKind)) ==> r
  {
    var k := Lower(Lookup(s.Meta, TagSpanKind));
    k == "server" || k == "consumer" || k == "client" || k == "producer"
  }

  function SpanOfKind(kind: string): Span {
    Span("", "", "", "", 0, map[TagSpanKind := kind], map[])
  }

  /** Kinds that carry peer tags are exactly the stats-eligible kinds other than server. */
  lemma PeerTagKindsAreStatsKinds(kind: string)
    ensures ShouldCalculateStatsOnPeerTags(kind) <==>
      ComputeStatsForSpanKind(SpanOfKind(kind)) && Lower(kind) != "server"
  {
  }

  /** A span without `span.kind`, and one whose kind is "internal", get no kind-based stats; any
      casing of server does. */
  lemma SpanKindTable()
    ensures !ComputeStatsForSpanKind(Span("", "", "", "", 0, map[], map[]))
    ensures !ComputeStatsForSpanKind(SpanOfKind("internal"))
    ensures ComputeStatsForSpanKind(SpanOfKind("SERVER"))
    ensures ComputeStatsForSpanKind(SpanOfKind("Consumer"))
  {
    assert Lower("internal")[0] == 'i';
    assert Lower("SERVER") == "server";
    assert Lower("Consumer") == "consumer";
  }

  /** `config.FargateOrchestrator`: unknown outside Fargate. */
  datatype Orchestrator = OrchestratorUnknown | OrchestratorECS | OrchestratorEKS

  /** The parts of `config.AgentConfig` the concentrator reads. `Features` is a set of flag names. */
  datatype AgentConfig = AgentConfig(
    BucketInterval: int,
    Features: set<string>,
    FargateOrchestrator: Orchestrator,
    DefaultEnv: string,
    Hostname: string,
    AgentVersion: string)

  datatype TraceChunk = TraceChunk(Origin: string, Spans: seq<Span>)

  /** `traceutil.ProcessedTrace`, reduced to what `addNow` reads. */
  datatype ProcessedTrace = ProcessedTrace(
    TraceChunk: TraceChunk,
    Root: Span,
    TracerEnv: string,
    TracerHostname: string,
    AppVersion: string,
    GitCommitSha: string,
    ImageTag: string)

  /** `Input`: the traces of one payload and its container. */
  datatype Input = Input(Traces: seq<ProcessedTrace>, ContainerID: string, ContainerTags: seq<string>)

  const FeatureEnableCIDStats: string := "enable_cid_stats"
  const FeatureDisableCIDStats: string := "disable_cid_stats"

  /** Whether the container-ID stats dimension is allowed by the configuration. */
  predicate ContainerStatsEnabled(conf: AgentConfig) {
    (FeatureEnableCIDStats in conf.Features || conf.FargateOrchestrator != OrchestratorUnknown)
    && FeatureDisableCIDStats !in conf.Features
  }

  /** `NewStatsInput`: an empty input. With client-computed stats it is the zero input; otherwise it
      keeps the container ID only when container stats are enabled and not prohibited. */
  function NewStatsInput(numChunks: nat, containerID: string, clientComputedStats: bool, conf: AgentConfig): (r: Input)
    ensures r.Traces == [] && r.ContainerTags == []
    ensures clientComputedStats ==> r.ContainerID == ""
    ensures r.ContainerID != "" ==> r.ContainerID == containerID
    ensures !clientComputedStats ==>
      (r.ContainerID == containerID <==> ContainerStatsEnabled(conf) || containerID == "")
  {
    if clientComputedStats then Input([], "", [])
    else if ContainerStatsEnabled(conf) then Input([], containerID, [])
    else Input([], "", [])
  }

  /** The flags decide the dimension: `disable_cid_stats` always drops it, and `enable_cid_stats`
      alone, or a known Fargate orchestrator alone, keeps it. */
  lemma ContainerGateTable(numChunks: nat, cid: string, env: string, host: string, version: string)
    requires cid != ""
    ensures NewStatsInput(numChunks, cid, false,
      AgentConfig(10, {FeatureEnableCIDStats}, OrchestratorUnknown, env, host, version)).ContainerID == cid
    ensures NewStatsInput(numChunks, cid, false,
      AgentConfig(10, {}, OrchestratorECS, env, host, version)).ContainerID == cid
    ensures NewStatsInput(numChunks, cid, false,
      AgentConfig(10, {}, OrchestratorUnknown, env, host, version)).ContainerID == ""
    ensures NewStatsInput(numChunks, cid, false,
      AgentConfig(10, {FeatureEnableCIDStats, FeatureDisableCIDStats}, OrchestratorEKS, env, host, version)).ContainerID == ""
    ensures NewStatsInput(numChunks, cid, true,
      AgentConfig(10, {FeatureEnableCIDStats}, OrchestratorECS, env, host, version)).ContainerID == ""
  {
    assert FeatureEnableCIDStats != FeatureDisableCIDStats;
  }

  /** The span concentrator's sampling weight of a trace root; its float definition is not part of
      this model. */
  type Weigher = Span -> real

  /** One call of the span concentrator's `addSpan`, with everything passed to it. */
  datatype SpanAddition = SpanAddition(
    Span: Span,
    Key: PayloadAggregationKey,
    ContainerID: string,
    ContainerTags: seq<string>,
    Origin: string,
    Weight: real)

  /** The payload key `addNow` builds: the tracer's env and hostname, each falling back to the
      agent's own value only when the tracer left it empty. */
  function PayloadKeyFor(agentEnv: string, agentHostname: string, pt: ProcessedTrace, containerID: string)
    : (r: PayloadAggregationKey)
    ensures r.Hostname != pt.TracerHostname ==> pt.TracerHostname == "" && r.Hostname == agentHostname
    ensures r.Env != pt.TracerEnv ==> pt.TracerEnv == "" && r.Env == agentEnv
    ensures r.Hostname == "" ==> pt.TracerHostname == "" && agentHostname == ""
    ensures r.Env == "" ==> pt.TracerEnv == "" && agentEnv == ""
    ensures r.Version == pt.AppVersion && r.ContainerID == containerID
    ensures r.GitCommitSha == pt.GitCommitSha && r.ImageTag == pt.ImageTag
  {
    var hostname := if pt.TracerHostname == "" then agentHostname else pt.TracerHostname;
    var env := if pt.TracerEnv == "" then agentEnv else pt.TracerEnv;
    PayloadAggregationKey(env, hostname, pt.AppVersion, containerID, pt.GitCommitSha, pt.ImageTag)
  }

  /** The additions made for a list of spans sharing one context: one per span, in order, each with
      the same key, container, origin and weight. */
  function SpanAdditions(
    spans: seq<Span>, key: PayloadAggregationKey, cid: string, tags: seq<string>, origin: string, w: real)
    : (r: seq<SpanAddition>)
    ensures |r| == |spans|
    ensures forall i :: 0 <= i < |spans| ==> r[i] == SpanAddition(spans[i], key, cid, tags, origin, w)
  {
    if spans == [] then []
    else
      SpanAdditions(spans[..|spans| - 1], key, cid, tags, origin, w)
      + [SpanAddition(spans[|spans| - 1], key, cid, tags, origin, w)]
  }

  /** A flush request made to the span concentrator. */
  datatype FlushCall = FlushCall(Now: int, Force: bool)

  /** What the flush loop reacts to: a tick of the flush ticker, or the exit signal. `Flushed` is
      what the span concentrator returns for that flush. */
  datatype Event =
    | Tick(Now: int, Flushed: seq<ClientStatsPayload>)
    | Exit(Now: int, Flushed: seq<ClientStatsPayload>)

  /** The events the loop handles: everything up to and including the first exit. */
  function Handled(events: seq<Event>): (r: seq<Event>)
    ensures |r| <= |events| && r == events[..|r|]
    ensures forall i :: 0 <= i < |r| - 1 ==> r[i].Tick?
    ensures r == events || (r != [] && r[|r| - 1].Exit?)
  {
    if events == [] then []
    else if events[0].Exit? then [events[0]]
    else [events[0]] + Handled(events[1..])
  }

  /** The loop stops at the first exit: its handled events are the ticks before it and the exit. */
  lemma HandledStopsAtFirstExit(events: seq<Event>, k: nat)
    requires k < |events| && events[k].Exit?
    requires forall i :: 0 <= i < k ==> events[i].Tick?
    ensures Handled(events) == events[..k + 1]
  {
    var r := Handled(events);
    if |r| <= k {
      assert false;
    } else if |r| > k + 1 {
      assert false;
    }
  }

  /** The flush requests of a run of handled events: forced exactly for the exit. */
  function FlushCalls(events: seq<Event>): (r: seq<FlushCall>)
    ensures |r| == |events|
  {
    seq(|events|, i requires 0 <= i < |events| => FlushCall(events[i].Now, events[i].Exit?))
  }

  /** Only the last flush of a run can be forced, and it is forced exactly when the run saw an exit. */
  lemma OnlyLastFlushForced(events: seq<Event>)
    ensures forall i :: 0 <= i < |Handled(events)| - 1 ==> !FlushCalls(Handled(events))[i].Force
    ensures (exists i :: 0 <= i < |events| && events[i].Exit?) <==>
      Handled(events) != [] && FlushCalls(Handled(events))[|Handled(events)| - 1].Force
  {
    var h := Handled(events);
    if exists i :: 0 <= i < |events| && events[i].Exit? {
      var i :| 0 <= i < |events| && events[i].Exit?;
      if h == events {
        if i < |h| - 1 {
          assert false;
        }
      }
    }
  }

  /** The concentrator: the agent identity fixed at construction, and, standing for the owned span
      concentrator and the writer, the spans added, the flushes requested and the payloads written. */
  class Concentrator {
    const bsize: int
    const agentEnv: string
    const agentHostname: string
    const agentVersion: string
    const weight: Weigher
    var additions: seq<SpanAddition>
    var flushes: seq<FlushCall>
    var written: seq<StatsPayload>

    /** `NewConcentrator`. */
    constructor (conf: AgentConfig, weight: Weigher)
      ensures bsize == conf.BucketInterval
      ensures agentEnv == conf.DefaultEnv && agentHostname == conf.Hostname && agentVersion == conf.AgentVersion
      ensures this.weight == weight
      ensures additions == [] && flushes == [] && written == []
    {
      bsize := conf.BucketInterval;
      agentEnv := conf.DefaultEnv;
      agentHostname := conf.Hostname;
      agentVersion := conf.AgentVersion;
      this.weight := weight;
      additions := [];
      flushes := [];
      written := [];
    }

    /** The payload `flushNow` returns around what the span concentrator flushed. */
    function Stamp(flushed: seq<ClientStatsPayload>): (r: StatsPayload)
      ensures r.Stats == flushed && !r.ClientComputed
      ensures r.AgentHostname == agentHostname && r.AgentEnv == agentEnv && r.AgentVersion == agentVersion
    {
      StatsPayload(agentHostname, agentEnv, agentVersion, false, flushed)
    }

    /** `addNow`: every span of the chunk goes to the span concentrator, in order, under one payload
        key and one weight. */
    method AddNow(pt: ProcessedTrace, containerID: string, containerTags: seq<string>)
      modifies this
      ensures additions == old(additions) + SpanAdditions(pt.TraceChunk.Spans,
        PayloadKeyFor(agentEnv, agentHostname, pt, containerID), containerID, containerTags,
        pt.TraceChunk.Origin, weight(pt.Root))
      ensures flushes == old(flushes) && written == old(written)
    {
      var hostname := pt.TracerHostname;
      if hostname == "" {
        hostname := agentHostname;
      }
      var env := pt.TracerEnv;
      if env == "" {
        env := agentEnv;
      }
      var w := weight(pt.Root);
      var aggKey := PayloadAggregationKey(env, hostname, pt.AppVersion, containerID, pt.GitCommitSha, pt.ImageTag);
      var spans := pt.TraceChunk.Spans;
      var j := 0;
      while j < |spans|
        invariant 0 <= j <= |spans|
        invariant additions == old(additions) + SpanAdditions(spans[..j], aggKey, containerID, containerTags, pt.TraceChunk.Origin, w)
        invariant flushes == old(flushes) && written == old(written)
      {
        assert spans[..j + 1][..j] == spans[..j];
        additions := additions + [SpanAddition(spans[j], aggKey, containerID, containerTags, pt.TraceChunk.Origin, w)];
        j := j + 1;
      }
      assert spans[..j] == spans;
    }

    /** The additions `Add` makes for a list of traces, trace after trace. */
    function InputAdditions(traces: seq<ProcessedTrace>, containerID: string, containerTags: seq<string>)
      : (r: seq<SpanAddition>)
    {
      if traces == [] then []
      else
        var pt := traces[|traces| - 1];
        InputAdditions(traces[..|traces| - 1], containerID, containerTags)
        + SpanAdditions(pt.TraceChunk.Spans, PayloadKeyFor(agentEnv, agentHostname, pt, containerID),
                        containerID, containerTags, pt.TraceChunk.Origin, weight(pt.Root))
    }

    /** One more trace appends its own additions after those of the earlier traces. */
    lemma InputAdditionsSnoc(
      base: seq<SpanAddition>, traces: seq<ProcessedTrace>, pt: ProcessedTrace, cid: string, tags: seq<string>,
      a: seq<SpanAddition>)
      requires a == base + InputAdditions(traces, cid, tags)
        + SpanAdditions(pt.TraceChunk.Spans, PayloadKeyFor(agentEnv, agentHostname, pt, cid),
                        cid, tags, pt.TraceChunk.Origin, weight(pt.Root))
      ensures a == base + InputAdditions(traces + [pt], cid, tags)
    {
      assert (traces + [pt])[..|traces|] == traces;
    }

    /** Every trace contributes exactly its spans: the additions number the spans of all traces. */
    lemma {:induction false} InputAdditionsCount(traces: seq<ProcessedTrace>, cid: string, tags: seq<string>)
      ensures |InputAdditions(traces, cid, tags)| == SpanCount(traces)
    {
      if traces != [] {
        InputAdditionsCount(traces[..|traces| - 1], cid, tags);
      }
    }

    /** Every addition carries the container of the input and the key of its own trace, whose host
        and env are never empty when the agent's are not. */
    lemma {:induction false} InputAdditionsKeys(traces: seq<ProcessedTrace>, cid: string, tags: seq<string>)
      ensures forall a :: a in InputAdditions(traces, cid, tags) ==>
        a.ContainerID == cid && a.ContainerTags == tags && a.Key.ContainerID == cid
        && (agentHostname != "" ==> a.Key.Hostname != "") && (agentEnv != "" ==> a.Key.Env != "")
    {
      if traces != [] {
        InputAdditionsKeys(traces[..|traces| - 1], cid, tags);
      }
    }

    /** `Add`: the traces of the input in order, each with the input's container. */
    method Add(t: Input)
      modifies this
      ensures additions == old(additions) + InputAdditions(t.Traces, t.ContainerID, t.ContainerTags)
      ensures flushes == old(flushes) && written == old(written)
    {
      var i := 0;
      while i < |t.Traces|
        invariant 0 <= i <= |t.Traces|
        invariant additions == old(additions) + InputAdditions(t.Traces[..i], t.ContainerID, t.ContainerTags)
        invariant flushes == old(flushes) && written == old(written)
      {
        AddNow(t.Traces[i], t.ContainerID, t.ContainerTags);
        InputAdditionsSnoc(old(additions), t.Traces[..i], t.Traces[i], t.ContainerID, t.ContainerTags, additions);
        assert t.Traces[..i + 1] == t.Traces[..i] + [t.Traces[i]];
        i := i + 1;
      }
      assert t.Traces[..i] == t.Traces;
    }

    /** `flushNow`: asks the span concentrator for its buckets at `now` and wraps them with the
        agent identity. `flushed` is the span concentrator's answer. */
    method FlushNow(now: int, force: bool, flushed: seq<ClientStatsPayload>) returns (p: StatsPayload)
      modifies this
      ensures p == Stamp(flushed)
      ensures flushes == old(flushes) + [FlushCall(now, force)]
      ensures additions == old(additions) && written == old(written)
    {
      flushes := flushes + [FlushCall(now, force)];
      p := StatsPayload(AgentHostname := agentHostname, AgentEnv := agentEnv, AgentVersion := agentVersion,
                        ClientComputed := false, Stats := flushed);
    }

    /** One iteration of the flush loop: a tick writes a non-forced flush and carries on; the exit
        signal writes a forced flush and stops. */
    method Handle(e: Event) returns (stop: bool)
      modifies this
      ensures stop == e.Exit?
      ensures flushes == old(flushes) + [FlushCall(e.Now, e.Exit?)]
      ensures written == old(written) + [Stamp(e.Flushed)]
      ensures additions == old(additions)
    {
      var p := FlushNow(e.Now, e.Exit?, e.Flushed);
      written := written + [p];
      stop := e.Exit?;
    }

    /** The payloads written for a run of handled events. */
    function Writes(events: seq<Event>): (r: seq<StatsPayload>)
      ensures |r| == |events|
    {
      seq(|events|, i requires 0 <= i < |events| => Stamp(events[i].Flushed))
    }

    /** `Run` over a finite stream of events: one write per handled event, stopping after the first
        exit. */
    method Run(events: seq<Event>)
      modifies this
      ensures flushes == old(flushes) + FlushCalls(Handled(events))
      ensures written == old(written) + Writes(Handled(events))
      ensures additions == old(additions)
    {
      var i := 0;
      while i < |events|
        invariant 0 <= i <= |events|
        invariant forall k :: 0 <= k < i ==> events[k].Tick?
        invariant flushes == old(flushes) + FlushCalls(events[..i])
        invariant written == old(written) + Writes(events[..i])
        invariant additions == old(additions)
      {
        var stop := Handle(events[i]);
        assert FlushCalls(events[..i + 1]) == FlushCalls(events[..i]) + [FlushCall(events[i].Now, events[i].Exit?)];
        assert Writes(events[..i + 1]) == Writes(events[..i]) + [Stamp(events[i].Flushed)];
        if stop {
          HandledStopsAtFirstExit(events, i);
          return;
        }
        i := i + 1;
      }
      assert events[..i] == events;
      assert Handled(events) == events by {
        var r := Handled(events);
        if r != events {
          assert false;
        }
      }
    }

    /** Every payload the loop writes carries the agent identity fixed at construction. */
    lemma WrittenIsStamped(events: seq<Event>)
      ensures forall p :: p in Writes(Handled(events)) ==>
        p.AgentHostname == agentHostname && p.AgentEnv == agentEnv && p.AgentVersion == agentVersion
    {
      var w := Writes(Handled(events));
      forall p | p in w
        ensures p.AgentHostname == agentHostname && p.AgentEnv == agentEnv && p.AgentVersion == agentVersion
      {
        var i :| 0 <= i < |w| && w[i] == p;
      }
    }
  }

  function SpanCount(traces: seq<ProcessedTrace>): nat {
    if traces == [] then 0 else SpanCount(traces[..|traces| - 1]) + |traces[|traces| - 1].TraceChunk.Spans|
  }
}
