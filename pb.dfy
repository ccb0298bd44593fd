/** The wire records the trace-stats core reads and writes: spans, and the stats payloads handed to
    the writer. Integers stand for Go's fixed-width fields; timestamps and durations are nanoseconds. */
module Pb {
  import opened Common

  /** `pb.Trilean`: whether a stat is known to describe trace-root spans. */
  datatype Trilean = NotSet | True | False

  /** The fields of `pb.Span` the core looks at. A metric value stands for the float64 the span
      carries, already known to be integral. */
  datatype Span = Span(
    Service: string,
    Name: string,
    Resource: string,
    Type: string,
    ParentID: uint64,
    Meta: map<string, string>,
    Metrics: map<string, int>)

  /** `pb.ClientGroupedStats`: counts for one aggregation key. Summaries are opaque bytes. */
  datatype ClientGroupedStats = ClientGroupedStats(
    Service: string,
    Name: string,
    Resource: string,
    HTTPStatusCode: uint32,
    Type: string,
    DBType: string,
    Hits: nat,
    Errors: nat,
    Duration: nat,
    Synthetics: bool,
    TopLevelHits: nat,
    SpanKind: string,
    PeerTags: seq<string>,
    IsTraceRoot: Trilean,
    OkSummary: seq<bv8>,
    ErrorSummary: seq<bv8>)

  /** `pb.ClientStatsBucket`. A grouped stat may be nil (`None`) in malformed input. */
  datatype ClientStatsBucket = ClientStatsBucket(
    Start: int,
    Duration: int,
    AgentTimeShift: int,
    Stats: seq<Option<ClientGroupedStats>>)

  /** `pb.ClientStatsPayload`. */
  datatype ClientStatsPayload = ClientStatsPayload(
    Hostname: string,
    Env: string,
    Version: string,
    Lang: string,
    TracerVersion: string,
    RuntimeID: string,
    Sequence: nat,
    AgentAggregation: string,
    Service: string,
    ContainerID: string,
    Tags: seq<string>,
    GitCommitSha: string,
    ImageTag: string,
    Stats: seq<ClientStatsBucket>)

  /** `pb.StatsPayload`: what a writer receives. */
  datatype StatsPayload = StatsPayload(
    AgentHostname: string,
    AgentEnv: string,
    AgentVersion: string,
    ClientComputed: bool,
    Stats: seq<ClientStatsPayload>)

  const KeyDistributions: string := "distributions"
  const KeyCounts: string := "counts"
}
