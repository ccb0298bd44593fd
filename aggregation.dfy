/** Aggregation keys of the trace-stats core: how a span is mapped to the key its counts are
    summed under, including the HTTP status code, the span kind and the optional peer-tag hash. */
module Aggregation {
  import opened Common
  import opened Pb

  const TagStatusCode: string := "http.status_code"
  const TagSpanKind: string := "span.kind"
  const TagSynthetics: string := "synthetics"

  /** The per-span grouping dimensions. Equality is structural. */
  datatype BucketsAggregationKey = BucketsAggregationKey(
    Service: string,
    Name: string,
    Resource: string,
    Type: string,
    SpanKind: string,
    StatusCode: uint32,
    Synthetics: bool,
    IsTraceRoot: Trilean,
    PeerTagsHash: nat)

  /** The payload-level grouping dimensions. */
  datatype PayloadAggregationKey = PayloadAggregationKey(
    Env: string,
    Hostname: string,
    Version: string,
    ContainerID: string,
    GitCommitSha: string,
    ImageTag: string)

  datatype Aggregation = Aggregation(BucketsKey: BucketsAggregationKey, PayloadKey: PayloadAggregationKey)

  /** The 64-bit hash folded over resolved peer tags (FNV-1a upstream). Its byte-level definition is
      not part of this model: it is supplied by the caller. */
  type PeerTagsHasher = seq<string> -> nat

  /** The hash stored as `PeerTagsHash`: zero, the "disabled" value, when no tag was resolved. */
  function PeerTagsHash(hasher: PeerTagsHasher, tags: seq<string>): (r: nat)
    ensures tags == [] ==> r == 0
    ensures tags != [] ==> r == hasher(tags)
  {
    if |tags| == 0 then 0 else hasher(tags)
  }

  /** `getStatusCode`: the numeric metric wins; otherwise the meta string parsed as a 32-bit
      unsigned decimal, with 0 for a missing or unparsable value. */
  function GetStatusCode(s: Span): (r: uint32)
    ensures TagStatusCode in s.Metrics && 0 <= s.Metrics[TagStatusCode] < Uint32Limit ==> r == s.Metrics[TagStatusCode]
    ensures TagStatusCode !in s.Metrics && r != 0 ==>
      AllDigits(Lookup(s.Meta, TagStatusCode)) && DigitsValue(Lookup(s.Meta, TagStatusCode)) == r
    ensures TagStatusCode !in s.Metrics && !AllDigits(Lookup(s.Meta, TagStatusCode)) ==> r == 0
  {
    if TagStatusCode in s.Metrics then s.Metrics[TagStatusCode] % Uint32Limit
    else ParseUint32(Lookup(s.Meta, TagStatusCode)).GetOr(0)
  }

  /** Whatever the meta map says, a status-code metric decides the status code. */
  lemma StatusCodeMetricWins(s: Span, meta: map<string, string>)
    requires TagStatusCode in s.Metrics
    ensures GetStatusCode(s.(Meta := meta)) == GetStatusCode(s)
    ensures 0 <= s.Metrics[TagStatusCode] < Uint32Limit ==> GetStatusCode(s) == s.Metrics[TagStatusCode]
  {
  }

  /** Without a metric, any 32-bit code written in decimal in the meta map is read back exactly. */
  lemma StatusCodeFromMeta(s: Span, code: nat)
    requires TagStatusCode !in s.Metrics
    requires code < Uint32Limit && Lookup(s.Meta, TagStatusCode) == Decimal(code)
    ensures GetStatusCode(s) == code
  {
    ParseDecimalRoundTrip(code);
  }

  function SpanWith(meta: map<string, string>, metrics: map<string, int>): Span {
    Span("", "", "", "", 0, meta, metrics)
  }

  /** The table of status-code cases: nothing gives 0, meta "200" gives 200, metric 302 gives 302,
      the metric beats the meta value, and an unparsable "x" gives 0. */
  lemma StatusCodeTable()
    ensures GetStatusCode(SpanWith(map[], map[])) == 0
    ensures GetStatusCode(SpanWith(map[TagStatusCode := "200"], map[])) == 200
    ensures GetStatusCode(SpanWith(map[], map[TagStatusCode := 302])) == 302
    ensures GetStatusCode(SpanWith(map[TagStatusCode := "200"], map[TagStatusCode := 302])) == 302
    ensures GetStatusCode(SpanWith(map[TagStatusCode := "x"], map[])) == 0
  {
    assert Decimal(200) == "200";
    StatusCodeFromMeta(SpanWith(map[TagStatusCode := "200"], map[]), 200);
    assert !IsDigit("x"[0]);
  }

  /** `shouldCalculateStatsOnPeerTags`: only client, producer and consumer spans, compared without
      regard to case, carry a peer-tag dimension. */
  predicate ShouldCalculateStatsOnPeerTags(kind: string): (r: bool)
    ensures r ==> kind != "" && Lower(kind) != "server" && Lower(kind) != "internal"
  {
    var k := Lower(kind);
    k == "client" || k == "producer" || k == "consumer"
  }

  /** Eligibility depends on the kind only up to case. */
  lemma PeerTagEligibilityIgnoresCase(a: string, b: string)
    requires Lower(a) == Lower(b)
    ensures ShouldCalculateStatsOnPeerTags(a) == ShouldCalculateStatsOnPeerTags(b)
  {
  }

  /** The eligible rows of the table of span kinds: client, producer and consumer, in any casing. */
  lemma PeerTagEligibilityTable()
    ensures ShouldCalculateStatsOnPeerTags("client") && ShouldCalculateStatsOnPeerTags("producer")
    ensures ShouldCalculateStatsOnPeerTags("consumer")
    ensures ShouldCalculateStatsOnPeerTags("CLIENT") && ShouldCalculateStatsOnPeerTags("cLient")
  {
  }

  /** Producer spans are eligible in any casing too. */
  lemma PeerTagEligibilityProducerCase()
    ensures ShouldCalculateStatsOnPeerTags("PRODUCER") && ShouldCalculateStatsOnPeerTags("pRoducer")
  {
  }

  /** Server, internal and empty kinds are not eligible. */
  lemma PeerTagIneligibilityTable()
    ensures !ShouldCalculateStatsOnPeerTags("server")
    ensures !ShouldCalculateStatsOnPeerTags("internal")
    ensures !ShouldCalculateStatsOnPeerTags("")
  {
    assert Lower("server")[0] == 's';
    assert Lower("internal")[0] == 'i';
  }

  /** Whether peer tag `key` has a non-empty value in the span's meta map. */
  predicate TagPresent(meta: map<string, string>, key: string) {
    key in meta && meta[key] != ""
  }

  /** The configured peer tags that have a non-empty value, as "name:value", in configured order. */
  function MatchingPeerTags(meta: map<string, string>, keys: seq<string>): (r: seq<string>)
    ensures |r| <= |keys|
    ensures forall t :: t in r ==> exists k :: k in keys && TagPresent(meta, k) && t == k + ":" + meta[k]
  {
    if keys == [] then [] else PeerTagPiece(meta, keys[0]) + MatchingPeerTags(meta, keys[1..])
  }

  /** The contribution of one configured peer tag: its "name:value" when present, else nothing. */
  function PeerTagPiece(meta: map<string, string>, key: string): seq<string>
  {
    if TagPresent(meta, key) then [key + ":" + meta[key]] else []
  }

  /** Three configured tags resolve to their pieces, concatenated in order. */
  lemma MatchingPeerTagsThree(meta: map<string, string>, a: string, b: string, c: string)
    ensures MatchingPeerTags(meta, [a, b, c]) == PeerTagPiece(meta, a) + PeerTagPiece(meta, b) + PeerTagPiece(meta, c)
  {
    assert [a, b, c][1..] == [b, c];
    assert [b, c][1..] == [c];
    assert [c][1..] == [];
    assert MatchingPeerTags(meta, [c]) == PeerTagPiece(meta, c);
    assert MatchingPeerTags(meta, [b, c]) == PeerTagPiece(meta, b) + PeerTagPiece(meta, c);
  }

  /** How many of the configured peer tags are present. */
  function PresentCount(meta: map<string, string>, keys: seq<string>): nat
  {
    if keys == [] then 0
    else (if TagPresent(meta, keys[0]) then 1 else 0) + PresentCount(meta, keys[1..])
  }

  lemma {:induction false} PresentCountSplit(meta: map<string, string>, keys: seq<string>, i: nat)
    requires i < |keys|
    ensures PresentCount(meta, keys[..i + 1]) == PresentCount(meta, keys[..i]) + (if TagPresent(meta, keys[i]) then 1 else 0)
    ensures PresentCount(meta, keys[..i + 1]) <= PresentCount(meta, keys)
  {
    if i == 0 {
      assert keys[..1][1..] == [];
      assert keys[..0] == [];
      PresentCountPrefix(meta, keys, 1);
    } else {
      assert keys[..i + 1][1..] == keys[1..][..i];
      assert keys[..i][1..] == keys[1..][..i - 1];
      PresentCountSplit(meta, keys[1..], i - 1);
    }
  }

  lemma {:induction false} PresentCountPrefix(meta: map<string, string>, keys: seq<string>, n: nat)
    requires n <= |keys|
    ensures PresentCount(meta, keys[..n]) <= PresentCount(meta, keys)
  {
    if n > 0 {
      assert keys[..n][1..] == keys[1..][..n - 1];
      PresentCountPrefix(meta, keys[1..], n - 1);
    }
  }

  /** The resolved tags are exactly the present configured tags, each rendered "name:value", in
      configured order: the tag of the i-th configured key sits after the tags of the present keys
      before it, and nothing else is in the list. */
  lemma {:induction false} MatchingPeerTagsOrder(meta: map<string, string>, keys: seq<string>, i: nat)
    requires i < |keys| && TagPresent(meta, keys[i])
    ensures |MatchingPeerTags(meta, keys)| == PresentCount(meta, keys)
    ensures PresentCount(meta, keys[..i]) < |MatchingPeerTags(meta, keys)|
    ensures MatchingPeerTags(meta, keys)[PresentCount(meta, keys[..i])] == keys[i] + ":" + meta[keys[i]]
  {
    MatchingPeerTagsLength(meta, keys);
    if i == 0 {
      assert keys[..0] == [];
    } else {
      MatchingPeerTagsOrder(meta, keys[1..], i - 1);
      assert keys[..i][1..] == keys[1..][..i - 1];
    }
  }

  lemma {:induction false} MatchingPeerTagsLength(meta: map<string, string>, keys: seq<string>)
    ensures |MatchingPeerTags(meta, keys)| == PresentCount(meta, keys)
  {
    if keys != [] {
      MatchingPeerTagsLength(meta, keys[1..]);
    }
  }

  /** No tag is resolved exactly when every configured tag is absent or empty. */
  lemma {:induction false} MatchingPeerTagsEmpty(meta: map<string, string>, keys: seq<string>)
    ensures MatchingPeerTags(meta, keys) == [] <==> forall i :: 0 <= i < |keys| ==> !TagPresent(meta, keys[i])
  {
    if keys != [] {
      MatchingPeerTagsEmpty(meta, keys[1..]);
      assert forall i :: 1 <= i < |keys| ==> keys[i] == keys[1..][i - 1];
    }
  }

  /** `NewAggregationFromSpan`: the key of a span, and the peer tags resolved for it. Peer tags are
      resolved only when a peer-tag list is configured and the kind is eligible. */
  function NewAggregationFromSpan(
    s: Span, origin: string, aggKey: PayloadAggregationKey, peerTagKeys: seq<string>, hasher: PeerTagsHasher)
    : (r: (Aggregation, seq<string>))
    ensures r.0.PayloadKey == aggKey
    ensures r.0.BucketsKey.Service == s.Service && r.0.BucketsKey.Name == s.Name
    ensures r.0.BucketsKey.Resource == s.Resource && r.0.BucketsKey.Type == s.Type
    ensures r.0.BucketsKey.SpanKind == Lookup(s.Meta, TagSpanKind)
    ensures r.0.BucketsKey.StatusCode == GetStatusCode(s)
    ensures r.0.BucketsKey.Synthetics <==> HasPrefix(origin, TagSynthetics)
    ensures r.0.BucketsKey.IsTraceRoot == True <==> s.ParentID == 0
    ensures r.0.BucketsKey.IsTraceRoot != NotSet
    ensures peerTagKeys == [] || !ShouldCalculateStatsOnPeerTags(Lookup(s.Meta, TagSpanKind)) ==> r.1 == []
    ensures peerTagKeys != [] && ShouldCalculateStatsOnPeerTags(Lookup(s.Meta, TagSpanKind)) ==>
      r.1 == MatchingPeerTags(s.Meta, peerTagKeys)
    ensures r.1 == [] ==> r.0.BucketsKey.PeerTagsHash == 0
    ensures r.1 != [] ==> r.0.BucketsKey.PeerTagsHash == hasher(r.1)
  {
    var kind := Lookup(s.Meta, TagSpanKind);
    var peerTags := if ShouldCalculateStatsOnPeerTags(kind) && |peerTagKeys| > 0
                    then MatchingPeerTags(s.Meta, peerTagKeys) else [];
    var key := BucketsAggregationKey(
      Service := s.Service,
      Name := s.Name,
      Resource := s.Resource,
      Type := s.Type,
      SpanKind := kind,
      StatusCode := GetStatusCode(s),
      Synthetics := HasPrefix(origin, TagSynthetics),
      IsTraceRoot := if s.ParentID == 0 then True else False,
      PeerTagsHash := PeerTagsHash(hasher, peerTags));
    (Aggregation(key, aggKey), peerTags)
  }

  const EmptyPayloadKey: PayloadAggregationKey := PayloadAggregationKey("", "", "", "", "", "")
  const DbPeerTags: seq<string> := ["db.instance", "db.system", "peer.service"]

  function ServiceSpan(meta: map<string, string>): Span {
    Span("a", "", "", "", 0, meta, map[])
  }

  /** The hash is a function of the resolved tag list only: two eligible spans that resolve the
      same tags (a client and a producer, say) get the same hash. */
  lemma PeerTagsHashDependsOnTagsOnly(s1: Span, s2: Span, keys: seq<string>, hasher: PeerTagsHasher)
    requires keys != []
    requires ShouldCalculateStatsOnPeerTags(Lookup(s1.Meta, TagSpanKind))
    requires ShouldCalculateStatsOnPeerTags(Lookup(s2.Meta, TagSpanKind))
    requires MatchingPeerTags(s1.Meta, keys) == MatchingPeerTags(s2.Meta, keys)
    ensures NewAggregationFromSpan(s1, "", EmptyPayloadKey, keys, hasher).0.BucketsKey.PeerTagsHash
         == NewAggregationFromSpan(s2, "", EmptyPayloadKey, keys, hasher).0.BucketsKey.PeerTagsHash
  {
  }

  /** Rows of the aggregation table without resolution: an empty span resolves nothing with or
      without a peer-tag list; with no list, the kind is kept but nothing is resolved; an empty
      kind resolves nothing. */
  lemma NewAggregationTable(hasher: PeerTagsHasher)
    ensures var r := NewAggregationFromSpan(Span("", "", "", "", 0, map[], map[]), "", EmptyPayloadKey, [], hasher);
      r.0.BucketsKey.Service == "" && r.0.BucketsKey.SpanKind == "" && r.0.BucketsKey.PeerTagsHash == 0 && r.1 == []
    ensures var r := NewAggregationFromSpan(Span("", "", "", "", 0, map[], map[]), "", EmptyPayloadKey, DbPeerTags, hasher);
      r.0.BucketsKey.Service == "" && r.0.BucketsKey.SpanKind == "" && r.0.BucketsKey.PeerTagsHash == 0 && r.1 == []
    ensures var r := NewAggregationFromSpan(ServiceSpan(map[TagSpanKind := "client", "peer.service" := "remote-service"]), "", EmptyPayloadKey, [], hasher);
      r.0.BucketsKey.Service == "a" && r.0.BucketsKey.SpanKind == "client" && r.0.BucketsKey.PeerTagsHash == 0 && r.1 == []
    ensures var r := NewAggregationFromSpan(ServiceSpan(map[TagSpanKind := "", "peer.service" := "remote-service"]), "", EmptyPayloadKey, DbPeerTags, hasher);
      r.0.BucketsKey.Service == "a" && r.0.BucketsKey.SpanKind == "" && r.0.BucketsKey.PeerTagsHash == 0 && r.1 == []
  {
    assert Lower("client") == "client";
  }

  /** A client or producer span with only `peer.service` set resolves that one tag, and its hash is
      the hasher's value on it. */
  lemma NewAggregationPeerService(hasher: PeerTagsHasher, kind: string)
    requires kind == "client" || kind == "producer"
    ensures var r := NewAggregationFromSpan(ServiceSpan(map[TagSpanKind := kind, "peer.service" := "remote-service"]), "", EmptyPayloadKey, DbPeerTags, hasher);
      r.0.BucketsKey.SpanKind == kind && r.1 == ["peer.service:remote-service"]
      && r.0.BucketsKey.PeerTagsHash == hasher(["peer.service:remote-service"])
  {
    assert Lower("client") == "client";
    assert Lower("producer") == "producer";
    var m := map[TagSpanKind := kind, "peer.service" := "remote-service"];
    assert Lookup(m, TagSpanKind) == kind && ShouldCalculateStatsOnPeerTags(kind);
    NewAggregationPeerServiceTags(kind);
  }

  /** The tags resolved for the span of the lemma above. */
  lemma NewAggregationPeerServiceTags(kind: string)
    requires kind == "client" || kind == "producer"
    ensures MatchingPeerTags(map[TagSpanKind := kind, "peer.service" := "remote-service"], DbPeerTags) == ["peer.service:remote-service"]
  {
    var m := map[TagSpanKind := kind, "peer.service" := "remote-service"];
    assert "peer.service" + ":" + "remote-service" == "peer.service:remote-service";
    MatchingPeerTagsThree(m, "db.instance", "db.system", "peer.service");
    assert PeerTagPiece(m, "db.instance") == [] && PeerTagPiece(m, "db.system") == [];
    assert PeerTagPiece(m, "peer.service") == ["peer.service:remote-service"];
  }

  /** A consumer span resolves its messaging tags, skipping the configured database tags it lacks. */
  lemma PeerTagsConsumer(hasher: PeerTagsHasher)
    ensures var r := NewAggregationFromSpan(ServiceSpan(map[TagSpanKind := "consumer", "messaging.destination" := "topic-foo", "messaging.system" := "kafka"]), "", EmptyPayloadKey, ["db.instance", "db.system", "messaging.destination", "messaging.system"], hasher);
      r.0.BucketsKey.SpanKind == "consumer"
      && r.1 == ["messaging.destination:topic-foo", "messaging.system:kafka"] && r.0.BucketsKey.PeerTagsHash == hasher(r.1)
  {
    assert Lower("consumer") == "consumer";
    var m := map[TagSpanKind := "consumer", "messaging.destination" := "topic-foo", "messaging.system" := "kafka"];
    assert Lookup(m, TagSpanKind) == "consumer" && ShouldCalculateStatsOnPeerTags("consumer");
    PeerTagsConsumerTags();
  }

  /** The tags resolved for the span of the lemma above. */
  lemma PeerTagsConsumerTags()
    ensures MatchingPeerTags(map[TagSpanKind := "consumer", "messaging.destination" := "topic-foo", "messaging.system" := "kafka"], ["db.instance", "db.system", "messaging.destination", "messaging.system"]) == ["messaging.destination:topic-foo", "messaging.system:kafka"]
  {
    var m := map[TagSpanKind := "consumer", "messaging.destination" := "topic-foo", "messaging.system" := "kafka"];
    var keys := ["db.instance", "db.system", "messaging.destination", "messaging.system"];
    assert "messaging.destination" + ":" + "topic-foo" == "messaging.destination:topic-foo";
    assert "messaging.system" + ":" + "kafka" == "messaging.system:kafka";
    assert MatchingPeerTags(m, keys) == PeerTagPiece(m, "db.instance") + MatchingPeerTags(m, keys[1..]);
    assert keys[1..] == ["db.system", "messaging.destination", "messaging.system"];
    MatchingPeerTagsThree(m, "db.system", "messaging.destination", "messaging.system");
    assert PeerTagPiece(m, "db.instance") == [] && PeerTagPiece(m, "db.system") == [];
    assert PeerTagPiece(m, "messaging.destination") == ["messaging.destination:topic-foo"];
    assert PeerTagPiece(m, "messaging.system") == ["messaging.system:kafka"];
  }

  /** Several matching tags resolve in configured order. */
  lemma PeerTagsAllResolved(hasher: PeerTagsHasher)
    ensures var r := NewAggregationFromSpan(ServiceSpan(map[TagSpanKind := "client", "field1" := "val1", "peer.service" := "remote-service", "db.instance" := "i-1234", "db.system" := "postgres"]), "", EmptyPayloadKey, DbPeerTags, hasher);
      r.1 == ["db.instance:i-1234", "db.system:postgres", "peer.service:remote-service"]
      && r.0.BucketsKey.PeerTagsHash == hasher(r.1)
  {
    assert Lower("client") == "client";
    var m := map[TagSpanKind := "client", "field1" := "val1", "peer.service" := "remote-service", "db.instance" := "i-1234", "db.system" := "postgres"];
    assert Lookup(m, TagSpanKind) == "client" && ShouldCalculateStatsOnPeerTags("client");
    PeerTagsAllResolvedTags();
  }

  /** The tags resolved for the span of the lemma above. */
  lemma PeerTagsAllResolvedTags()
    ensures MatchingPeerTags(map[TagSpanKind := "client", "field1" := "val1", "peer.service" := "remote-service", "db.instance" := "i-1234", "db.system" := "postgres"], DbPeerTags) == ["db.instance:i-1234", "db.system:postgres", "peer.service:remote-service"]
  {
    var m := map[TagSpanKind := "client", "field1" := "val1", "peer.service" := "remote-service", "db.instance" := "i-1234", "db.system" := "postgres"];
    assert "peer.service" + ":" + "remote-service" == "peer.service:remote-service";
    assert "db.instance" + ":" + "i-1234" == "db.instance:i-1234";
    assert "db.system" + ":" + "postgres" == "db.system:postgres";
    MatchingPeerTagsThree(m, "db.instance", "db.system", "peer.service");
    assert PeerTagPiece(m, "db.instance") == ["db.instance:i-1234"];
    assert PeerTagPiece(m, "db.system") == ["db.system:postgres"];
    assert PeerTagPiece(m, "peer.service") == ["peer.service:remote-service"];
  }

  /** When every configured tag is empty nothing is resolved and the hash is the "disabled" value 0. */
  lemma PeerTagsNoneResolved(hasher: PeerTagsHasher)
    ensures var r := NewAggregationFromSpan(ServiceSpan(map[TagSpanKind := "client", "field1" := "val1", "peer.service" := "", "db.instance" := "", "db.system" := ""]), "", EmptyPayloadKey, DbPeerTags, hasher);
      r.1 == [] && r.0.BucketsKey.PeerTagsHash == 0
  {
    assert Lower("client") == "client";
    var m := map[TagSpanKind := "client", "field1" := "val1", "peer.service" := "", "db.instance" := "", "db.system" := ""];
    assert Lookup(m, TagSpanKind) == "client" && ShouldCalculateStatsOnPeerTags("client");
    MatchingPeerTagsEmpty(m, DbPeerTags);
  }

  /** Empty values are skipped while the others resolve. */
  lemma PeerTagsEmptySkipped(hasher: PeerTagsHasher)
    ensures var r := NewAggregationFromSpan(ServiceSpan(map[TagSpanKind := "client", "field1" := "val1", "peer.service" := "remote-service", "db.instance" := "", "db.system" := ""]), "", EmptyPayloadKey, DbPeerTags, hasher);
      r.1 == ["peer.service:remote-service"] && r.0.BucketsKey.PeerTagsHash == hasher(r.1)
  {
    assert Lower("client") == "client";
    var m := map[TagSpanKind := "client", "field1" := "val1", "peer.service" := "remote-service", "db.instance" := "", "db.system" := ""];
    assert Lookup(m, TagSpanKind) == "client" && ShouldCalculateStatsOnPeerTags("client");
    PeerTagsEmptySkippedTags();
  }

  /** The tags resolved for the span of the lemma above. */
  lemma PeerTagsEmptySkippedTags()
    ensures MatchingPeerTags(map[TagSpanKind := "client", "field1" := "val1", "peer.service" := "remote-service", "db.instance" := "", "db.system" := ""], DbPeerTags) == ["peer.service:remote-service"]
  {
    var m := map[TagSpanKind := "client", "field1" := "val1", "peer.service" := "remote-service", "db.instance" := "", "db.system" := ""];
    assert "peer.service" + ":" + "remote-service" == "peer.service:remote-service";
    MatchingPeerTagsThree(m, "db.instance", "db.system", "peer.service");
    assert PeerTagPiece(m, "db.instance") == [] && PeerTagPiece(m, "db.system") == [];
    assert PeerTagPiece(m, "peer.service") == ["peer.service:remote-service"];
  }

  /** A span is a trace root exactly when it has no parent. */
  lemma IsTraceRootTable(hasher: PeerTagsHasher, parent: uint64)
    ensures NewAggregationFromSpan(Span("", "", "", "", 0, map[], map[]), "", EmptyPayloadKey, [], hasher).0.BucketsKey.IsTraceRoot == True
    ensures parent != 0 ==>
      NewAggregationFromSpan(Span("", "", "", "", parent, map[], map[]), "", EmptyPayloadKey, [], hasher).0.BucketsKey.IsTraceRoot == False
  {
  }
}
