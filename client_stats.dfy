/** The merge logic of the client-stats aggregator: the aggregator's own time grid, the clamping of
    skewed client timestamps, the version data taken from container tags, the "distributions"
    copies emitted while a bucket is fresh, the summed counts kept per key, and the "counts"
    payloads a merged bucket is demoted to when it is flushed. */
module ClientStats {
  import opened Common
  import opened Pb
  import opened Aggregation

  /** The aggregator's timing constants, in nanoseconds: the width of an aggregator bucket, the
      duration stamped on demoted buckets, the retention horizon, and the offset that keeps
      aggregator timestamps off the concentrator's grid. */
  datatype AggregatorConfig = AggregatorConfig(
    BucketDuration: int,
    ClientBucketDuration: int,
    OldestBucketStart: int,
    AlignOffset: int)

  predicate ValidConfig(c: AggregatorConfig) {
    0 < c.AlignOffset < c.BucketDuration < c.OldestBucketStart
    && c.OldestBucketStart % c.BucketDuration == 0
    && c.ClientBucketDuration > 0
  }

  /** `alignAggTs`: the time truncated to the bucket width (since the Unix epoch, which is itself on
      the grid), plus the offset. */
  function AlignAgg(c: AggregatorConfig, t: int): (r: int)
    requires ValidConfig(c)
    ensures r % c.BucketDuration == c.AlignOffset
    ensures r - c.AlignOffset <= t < r - c.AlignOffset + c.BucketDuration
  {
    var b := c.BucketDuration;
    assert t == b * (t / b) + t % b;
    MulAddMod(b, t / b, c.AlignOffset);
    t - t % b + c.AlignOffset
  }

  /** A time on the aggregator grid aligns to itself. */
  lemma AlignAggOnGrid(c: AggregatorConfig, t: int)
    requires ValidConfig(c) && t % c.BucketDuration == c.AlignOffset
    ensures AlignAgg(c, t) == t
  {
  }

  /** Moving a time by whole buckets moves its aligned time by the same amount. */
  lemma AlignAggShift(c: AggregatorConfig, t: int, k: int)
    requires ValidConfig(c)
    ensures AlignAgg(c, t + c.BucketDuration * k) == AlignAgg(c, t) + c.BucketDuration * k
  {
    ModShift(t, c.BucketDuration, k);
  }

  /** Alignment is monotonic. */
  lemma AlignAggMono(c: AggregatorConfig, s: int, t: int)
    requires ValidConfig(c) && s <= t
    ensures AlignAgg(c, s) <= AlignAgg(c, t)
  {
    var b := c.BucketDuration;
    var rs := AlignAgg(c, s);
    var rt := AlignAgg(c, t);
    if rs > rt {
      assert rs - c.AlignOffset == b * (rs / b);
      assert rt - c.AlignOffset == b * (rt / b);
      MultipleMod(b, rs / b);
      MultipleMod(b, rt / b);
      DiffMultiple(rs - c.AlignOffset, rt - c.AlignOffset, b);
      SmallMultipleIsZero(rs - rt, b);
      assert false;
    }
  }

  /** Every time in the bucket-wide window starting at a Unix-grid point aligns to that point plus
      the offset. */
  lemma AlignAggWithin(c: AggregatorConfig, base: int, d: int)
    requires ValidConfig(c) && base % c.BucketDuration == 0 && 0 <= d < c.BucketDuration
    ensures AlignAgg(c, base + d) == base + c.AlignOffset
  {
    var b := c.BucketDuration;
    var r := AlignAgg(c, base + d);
    assert r - c.AlignOffset == b * (r / b);
    MultipleMod(b, r / b);
    DiffMultiple(r - c.AlignOffset, base, b);
    SmallMultipleIsZero(r - c.AlignOffset - base, b);
  }

  /** Times less than a bucket apart after a Unix-grid point share one aggregator bucket, and a
      time just before that point belongs to the previous bucket. */
  lemma SameAggregatorBucket(c: AggregatorConfig, base: int)
    requires ValidConfig(c) && base % c.BucketDuration == 0
    ensures forall t :: base <= t < base + c.BucketDuration ==> AlignAgg(c, t) == AlignAgg(c, base)
    ensures AlignAgg(c, base - 1) == AlignAgg(c, base) - c.BucketDuration
  {
    var b := c.BucketDuration;
    AlignAggWithin(c, base, 0);
    forall t | base <= t < base + b
      ensures AlignAgg(c, t) == AlignAgg(c, base)
    {
      AlignAggWithin(c, base, t - base);
    }
    ModShift(base, b, -1);
    AlignAggWithin(c, base - b, b - 1);
  }

  /** An aggregator timestamp is never on the grid of client buckets when that grid is a multiple
      of the aggregator grid, while the concentrator's `alignTs` always is. */
  lemma AggregatorNotAligned(c: AggregatorConfig, t: int)
    requires ValidConfig(c) && c.ClientBucketDuration % c.BucketDuration == 0
    ensures AlignAgg(c, t) % c.ClientBucketDuration != 0
  {
    var r := AlignAgg(c, t);
    var b := c.BucketDuration;
    var m := c.ClientBucketDuration;
    if r % m == 0 {
      assert r == m * (r / m);
      assert m == b * (m / b);
      assert r == b * ((m / b) * (r / m));
      MultipleMod(b, (m / b) * (r / m));
      assert false;
    }
  }

  /** `getAggregationBucketTime`: the aggregator bucket a client bucket starting at `bs` goes to,
      and whether its start had to be moved. A start before the oldest open bucket is clamped to
      it; a start in the future is clamped to the current bucket; any other start keeps its own
      bucket and is not moved. */
  function BucketTime(c: AggregatorConfig, oldestTs: int, now: int, bs: int): (r: (int, bool))
    requires ValidConfig(c)
    ensures r.1 <==> bs < oldestTs || bs > now
    ensures !r.1 ==> r.0 == AlignAgg(c, bs)
    ensures bs < oldestTs ==> r.0 == oldestTs
    ensures oldestTs <= bs && bs > now ==> r.0 == AlignAgg(c, now)
  {
    if bs < oldestTs then (oldestTs, true)
    else if bs > now then (AlignAgg(c, now), true)
    else (AlignAgg(c, bs), false)
  }

  /** With the oldest bucket on the grid and not after now, every client bucket lands on the grid
      between the oldest bucket and the current one. */
  lemma BucketTimeInWindow(c: AggregatorConfig, oldestTs: int, now: int, bs: int)
    requires ValidConfig(c) && oldestTs % c.BucketDuration == c.AlignOffset && oldestTs <= now
    ensures var r := BucketTime(c, oldestTs, now, bs);
      oldestTs <= r.0 <= AlignAgg(c, now) && r.0 % c.BucketDuration == c.AlignOffset
  {
    AlignAggOnGrid(c, oldestTs);
    AlignAggMono(c, oldestTs, now);
    if oldestTs <= bs <= now {
      AlignAggMono(c, oldestTs, bs);
      AlignAggMono(c, bs, now);
    }
  }

  /** The client bucket as stored: when its start was moved, the start becomes the aggregator
      bucket and the move is recorded in `AgentTimeShift`. */
  function ShiftBucket(b: ClientStatsBucket, ts: int, shifted: bool): (r: ClientStatsBucket)
    ensures r.Stats == b.Stats && r.Duration == b.Duration
    ensures shifted ==> r.Start == ts && r.Start - r.AgentTimeShift == b.Start
    ensures !shifted ==> r == b
  {
    if shifted then b.(AgentTimeShift := ts - b.Start, Start := ts) else b
  }

  /** A start `h` ahead of the current aggregator bucket is stored at that bucket with a shift of
      minus `h`. */
  lemma FutureStartClamped(c: AggregatorConfig, oldestTs: int, now: int, b: ClientStatsBucket, h: int)
    requires ValidConfig(c) && oldestTs <= now && h > 0
    requires b.Start == AlignAgg(c, now) + h && b.Start > now
    ensures var r := BucketTime(c, oldestTs, now, b.Start);
      ShiftBucket(b, r.0, r.1).Start == b.Start - h && ShiftBucket(b, r.0, r.1).AgentTimeShift == -h
  {
  }

  /** A start `h` before the current aggregator bucket, with `h` beyond the horizon, is moved
      forward to the oldest bucket, `oldestBucketStart - bucketDuration` before the current one:
      by `h - oldestBucketStart + bucketDuration`. */
  lemma PastStartClamped(c: AggregatorConfig, now: int, b: ClientStatsBucket, h: int)
    requires ValidConfig(c) && h > c.OldestBucketStart - c.BucketDuration
    requires b.Start == AlignAgg(c, now) - h
    ensures var oldestTs := AlignAgg(c, now + c.BucketDuration - c.OldestBucketStart);
      var r := BucketTime(c, oldestTs, now, b.Start);
      var expected := -h + c.OldestBucketStart - c.BucketDuration;
      ShiftBucket(b, r.0, r.1).Start == b.Start - expected && ShiftBucket(b, r.0, r.1).AgentTimeShift == -expected
  {
    var k := c.OldestBucketStart / c.BucketDuration;
    assert c.OldestBucketStart == c.BucketDuration * k;
    AlignAggShift(c, now, 1 - k);
    assert c.BucketDuration * (1 - k) == c.BucketDuration - c.OldestBucketStart;
  }

  /** The collaborator that returns the tags of a container, or fails. */
  type ContainerTagsLookup = string -> Option<seq<string>>

  const TagImageTag: string := "image_tag"
  const TagGitCommitSha: string := "git.commit.sha"

  /** The value of the first "name:value" tag, or "" when there is none. */
  function TagValue(tags: seq<string>, name: string): (r: string)
    ensures r != "" ==> exists i :: 0 <= i < |tags| && tags[i] == name + ":" + r
    ensures (forall i :: 0 <= i < |tags| ==> !HasPrefix(tags[i], name + ":")) ==> r == ""
    ensures (exists i :: 0 <= i < |tags| && HasPrefix(tags[i], name + ":")) ==>
      exists i :: (0 <= i < |tags| && HasPrefix(tags[i], name + ":") && r == tags[i][|name| + 1..]
                   && forall j :: 0 <= j < i ==> !HasPrefix(tags[j], name + ":"))
  {
    if tags == [] then ""
    else if HasPrefix(tags[0], name + ":") then
      var v := tags[0][|name| + 1..];
      assert tags[0] == name + ":" + v;
      v
    else
      var v := TagValue(tags[1..], name);
      assert v != "" ==> exists i :: 0 <= i < |tags[1..]| && tags[1..][i] == name + ":" + v;
      assert (forall i :: 0 <= i < |tags| ==> !HasPrefix(tags[i], name + ":")) ==>
        forall i :: 0 <= i < |tags[1..]| ==> !HasPrefix(tags[1..][i], name + ":");
      assert (exists i :: 0 <= i < |tags| && HasPrefix(tags[i], name + ":")) ==>
        exists i :: 0 <= i < |tags[1..]| && HasPrefix(tags[1..][i], name + ":");
      assert (exists i :: (0 <= i < |tags[1..]| && HasPrefix(tags[1..][i], name + ":") && v == tags[1..][i][|name| + 1..]
                           && forall j :: 0 <= j < i ==> !HasPrefix(tags[1..][j], name + ":"))) ==>
        exists i :: (0 <= i < |tags| && HasPrefix(tags[i], name + ":") && v == tags[i][|name| + 1..]
                     && forall j :: 0 <= j < i ==> !HasPrefix(tags[j], name + ":"));
      v
  }

  /** Version data from container tags: image tag and git commit SHA that the payload leaves empty
      are taken from the tags of its container. Values the payload carries take precedence; no
      lookup happens when both are set or when there is no container; a failed lookup changes
      nothing. */
  function SetVersionData(p: ClientStatsPayload, lookup: ContainerTagsLookup): (r: ClientStatsPayload)
    ensures r.(ImageTag := p.ImageTag, GitCommitSha := p.GitCommitSha) == p
    ensures r.Stats == p.Stats
    ensures p.ImageTag != "" ==> r.ImageTag == p.ImageTag
    ensures p.GitCommitSha != "" ==> r.GitCommitSha == p.GitCommitSha
    ensures r.ImageTag != p.ImageTag ==>
      (p.ImageTag == "" && p.ContainerID != "" && lookup(p.ContainerID).Some?
       && r.ImageTag == TagValue(lookup(p.ContainerID).value, TagImageTag))
    ensures r.GitCommitSha != p.GitCommitSha ==>
      (p.GitCommitSha == "" && p.ContainerID != "" && lookup(p.ContainerID).Some?
       && r.GitCommitSha == TagValue(lookup(p.ContainerID).value, TagGitCommitSha))
    ensures p.ImageTag == "" && p.ContainerID != "" && lookup(p.ContainerID).Some? ==>
      r.ImageTag == TagValue(lookup(p.ContainerID).value, TagImageTag)
    ensures p.GitCommitSha == "" && p.ContainerID != "" && lookup(p.ContainerID).Some? ==>
      r.GitCommitSha == TagValue(lookup(p.ContainerID).value, TagGitCommitSha)
    ensures (p.ImageTag != "" && p.GitCommitSha != "") || p.ContainerID == "" || lookup(p.ContainerID).None? ==> r == p
  {
    if p.ImageTag != "" && p.GitCommitSha != "" then p
    else if p.ContainerID == "" then p
    else
      match lookup(p.ContainerID)
      case None => p
      case Some(tags) =>
        p.(ImageTag := if p.ImageTag == "" then TagValue(tags, TagImageTag) else p.ImageTag,
           GitCommitSha := if p.GitCommitSha == "" then TagValue(tags, TagGitCommitSha) else p.GitCommitSha)
  }

  /** The three cases of version data: all set in the payload (kept, whatever the container says),
      none set (both taken from the container's tags), and the payload's values overriding the
      container's. */
  lemma VersionDataTable(p: ClientStatsPayload, lookup: ContainerTagsLookup, sha: string, img: string)
    requires p.ContainerID != "" && lookup(p.ContainerID) == Some([TagGitCommitSha + ":" + sha, TagImageTag + ":" + img])
    ensures p.ImageTag == "" && p.GitCommitSha == "" ==>
      SetVersionData(p, lookup).ImageTag == img && SetVersionData(p, lookup).GitCommitSha == sha
      && SetVersionData(p, lookup).Version == p.Version
    ensures p.ImageTag != "" && p.GitCommitSha != "" ==> SetVersionData(p, lookup) == p
  {
    var tags := [TagGitCommitSha + ":" + sha, TagImageTag + ":" + img];
    assert !HasPrefix(tags[0], TagImageTag + ":") by {
      assert tags[0][0] == 'g';
    }
    assert tags[1..] == [TagImageTag + ":" + img];
    assert HasPrefix(tags[1..][0], TagImageTag + ":");
    assert tags[1..][0][|TagImageTag| + 1..] == img;
    assert TagValue(tags[1..], TagImageTag) == img;
    assert TagValue(tags, TagImageTag) == img;
    assert HasPrefix(tags[0], TagGitCommitSha + ":");
    assert tags[0][|TagGitCommitSha| + 1..] == sha;
    assert TagValue(tags, TagGitCommitSha) == sha;
  }

  /** A grouped stat with its counts zeroed. */
  function TrimStat(s: Option<ClientGroupedStats>): Option<ClientGroupedStats> {
    match s
    case None => None
    case Some(g) => Some(g.(Hits := 0, Errors := 0, Duration := 0))
  }

  function TrimBucket(b: ClientStatsBucket): ClientStatsBucket {
    b.(Stats := seq(|b.Stats|, j requires 0 <= j < |b.Stats| => TrimStat(b.Stats[j])))
  }

  /** `trimCounts`: the copy of a payload emitted while its bucket is fresh, marked "distributions"
      and with the counts zeroed, since the counts go on in the bucket's running sums. Nil stats stay
      nil and nothing else changes. */
  function Trim(p: ClientStatsPayload): (r: ClientStatsPayload)
    ensures r.AgentAggregation == KeyDistributions
    ensures r.(AgentAggregation := p.AgentAggregation, Stats := p.Stats) == p
    ensures |r.Stats| == |p.Stats|
    ensures forall i :: 0 <= i < |p.Stats| ==>
      r.Stats[i].(Stats := p.Stats[i].Stats) == p.Stats[i] && |r.Stats[i].Stats| == |p.Stats[i].Stats|
    ensures forall i, j :: 0 <= i < |p.Stats| && 0 <= j < |p.Stats[i].Stats| ==>
      (r.Stats[i].Stats[j].None? <==> p.Stats[i].Stats[j].None?)
    ensures forall i, j :: 0 <= i < |p.Stats| && 0 <= j < |p.Stats[i].Stats| && p.Stats[i].Stats[j].Some? ==>
      var g := r.Stats[i].Stats[j].value;
      g.Hits == 0 && g.Errors == 0 && g.Duration == 0
      && g.(Hits := p.Stats[i].Stats[j].value.Hits, Errors := p.Stats[i].Stats[j].value.Errors,
            Duration := p.Stats[i].Stats[j].value.Duration) == p.Stats[i].Stats[j].value
  {
    p.(AgentAggregation := KeyDistributions,
       Stats := seq(|p.Stats|, i requires 0 <= i < |p.Stats| => TrimBucket(p.Stats[i])))
  }

  /** Trimming twice is trimming once. */
  lemma TrimIdempotent(p: ClientStatsPayload)
    ensures Trim(Trim(p)) == Trim(p)
  {
    var t := Trim(p);
    assert |Trim(t).Stats| == |t.Stats|;
    forall i | 0 <= i < |t.Stats|
      ensures Trim(t).Stats[i] == t.Stats[i]
    {
      var a := Trim(t).Stats[i];
      var b := t.Stats[i];
      assert |a.Stats| == |b.Stats|;
      forall j | 0 <= j < |b.Stats|
        ensures a.Stats[j] == b.Stats[j]
      {
        if b.Stats[j].Some? {
          assert a.Stats[j].value.(Hits := 0, Errors := 0, Duration := 0) == b.Stats[j].value;
        }
      }
      assert a.Stats == b.Stats;
    }
    assert Trim(t).Stats == t.Stats;
  }

  /** `newBucketAggregationKey`: the key a client's grouped stat is summed under. */
  function NewBucketAggregationKey(g: ClientGroupedStats, hasher: PeerTagsHasher): (r: BucketsAggregationKey)
    ensures r.Service == g.Service && r.Name == g.Name && r.Resource == g.Resource && r.Type == g.Type
    ensures r.SpanKind == g.SpanKind && r.StatusCode == g.HTTPStatusCode && r.Synthetics == g.Synthetics
    ensures r.IsTraceRoot == g.IsTraceRoot
    ensures r.PeerTagsHash == PeerTagsHash(hasher, g.PeerTags)
  {
    BucketsAggregationKey(g.Service, g.Name, g.Resource, g.Type, g.SpanKind, g.HTTPStatusCode,
                          g.Synthetics, g.IsTraceRoot, PeerTagsHash(hasher, g.PeerTags))
  }

  function GroupedStatsOf(service: string, peerTags: seq<string>): ClientGroupedStats {
    ClientGroupedStats(service, "", "", 0, "", "", 0, 0, 0, false, 0, "", peerTags, NotSet, [], [])
  }

  /** Without peer tags the key carries the hash 0; with them, the hash of the list. */
  lemma NewBucketAggregationKeyPeerTags(hasher: PeerTagsHasher)
    ensures NewBucketAggregationKey(GroupedStatsOf("a", []), hasher)
      == BucketsAggregationKey("a", "", "", "", "", 0, false, NotSet, 0)
    ensures NewBucketAggregationKey(GroupedStatsOf("a", ["peer.service:remote-service"]), hasher)
      == BucketsAggregationKey("a", "", "", "", "", 0, false, NotSet, hasher(["peer.service:remote-service"]))
  {
  }

  /** The payload-level key of a client payload. */
  function PayloadKeyOf(p: ClientStatsPayload): PayloadAggregationKey {
    PayloadAggregationKey(p.Env, p.Hostname, p.Version, p.ContainerID, p.GitCommitSha, p.ImageTag)
  }

  /** Summed counts of one aggregation key. */
  datatype Counts = Counts(Hits: nat, Errors: nat, Duration: nat)

  const NoCounts: Counts := Counts(0, 0, 0)

  function Plus(a: Counts, b: Counts): Counts {
    Counts(a.Hits + b.Hits, a.Errors + b.Errors, a.Duration + b.Duration)
  }

  function CountsOfStat(g: ClientGroupedStats): Counts {
    Counts(g.Hits, g.Errors, g.Duration)
  }

  /** One aggregation key of a bucket: its running counts, and the peer tags of the first stat
      that created it. */
  datatype Entry = Entry(Key: BucketsAggregationKey, Counts: Counts, PeerTags: seq<string>)

  function EntryKeys(es: seq<Entry>): set<BucketsAggregationKey> {
    if es == [] then {} else {es[0].Key} + EntryKeys(es[1..])
  }

  /** No key appears twice, as in the map the entries stand for. */
  predicate DistinctEntries(es: seq<Entry>) {
    es == [] || (es[0].Key !in EntryKeys(es[1..]) && DistinctEntries(es[1..]))
  }

  /** The counts kept for `k`, none when it has no entry. */
  function CountsFor(es: seq<Entry>, k: BucketsAggregationKey): (r: Counts)
    ensures k !in EntryKeys(es) ==> r == NoCounts
  {
    if es == [] then NoCounts else if es[0].Key == k then es[0].Counts else CountsFor(es[1..], k)
  }

  /** With distinct keys, every entry holds the counts looked up under its key. */
  lemma {:induction false} CountsForEntry(es: seq<Entry>, j: nat)
    requires DistinctEntries(es) && j < |es|
    ensures CountsFor(es, es[j].Key) == es[j].Counts
  {
    if j > 0 {
      CountsForEntry(es[1..], j - 1);
      EntryKeysMember(es[1..], j - 1);
    }
  }

  lemma {:induction false} EntryKeysMember(es: seq<Entry>, j: nat)
    requires j < |es|
    ensures es[j].Key in EntryKeys(es)
  {
    if j > 0 {
      EntryKeysMember(es[1..], j - 1);
    }
  }

  /** Adding one grouped stat under `k`: its counts are added to those of `k`, every other key keeps
      its counts, and `k` gets an entry if it had none. */
  function AddToEntries(es: seq<Entry>, k: BucketsAggregationKey, g: ClientGroupedStats): (r: seq<Entry>)
    ensures CountsFor(r, k) == Plus(CountsFor(es, k), CountsOfStat(g))
    ensures forall k' :: k' != k ==> CountsFor(r, k') == CountsFor(es, k')
    ensures EntryKeys(r) == EntryKeys(es) + {k}
    ensures DistinctEntries(es) ==> DistinctEntries(r)
  {
    if es == [] then
      var r := [Entry(k, CountsOfStat(g), g.PeerTags)];
      assert CountsFor(r, k) == CountsOfStat(g) == Plus(NoCounts, CountsOfStat(g));
      r
    else if es[0].Key == k then
      var r := [es[0].(Counts := Plus(es[0].Counts, CountsOfStat(g)))] + es[1..];
      assert r[1..] == es[1..];
      assert EntryKeys(r) == EntryKeys(es);
      assert CountsFor(r, k) == r[0].Counts && CountsFor(es, k) == es[0].Counts;
      r
    else
      var rest := AddToEntries(es[1..], k, g);
      var r := [es[0]] + rest;
      assert r[1..] == rest;
      assert EntryKeys(r) == {es[0].Key} + EntryKeys(rest);
      assert CountsFor(r, k) == CountsFor(rest, k) && CountsFor(es, k) == CountsFor(es[1..], k);
      r
  }

  /** The counts of the non-nil stats summed under `k`. */
  function Total(stats: seq<Option<ClientGroupedStats>>, k: BucketsAggregationKey, hasher: PeerTagsHasher): Counts {
    if stats == [] then NoCounts
    else
      var t := Total(stats[..|stats| - 1], k, hasher);
      match stats[|stats| - 1]
      case None => t
      case Some(g) => if NewBucketAggregationKey(g, hasher) == k then Plus(t, CountsOfStat(g)) else t
  }

  /** `aggregateCounts` over a list of grouped stats: nil stats are skipped, and each key ends with
      its old counts plus the total of the stats under it. */
  function AddStats(es: seq<Entry>, stats: seq<Option<ClientGroupedStats>>, hasher: PeerTagsHasher): (r: seq<Entry>)
    ensures forall k :: CountsFor(r, k) == Plus(CountsFor(es, k), Total(stats, k, hasher))
    ensures DistinctEntries(es) ==> DistinctEntries(r)
  {
    if stats == [] then es
    else
      var r0 := AddStats(es, stats[..|stats| - 1], hasher);
      match stats[|stats| - 1]
      case None => r0
      case Some(g) => AddToEntries(r0, NewBucketAggregationKey(g, hasher), g)
  }

  /** The aggregated counts of one payload key. */
  datatype Group = Group(Key: PayloadAggregationKey, Entries: seq<Entry>)

  function GroupKeys(gs: seq<Group>): set<PayloadAggregationKey> {
    if gs == [] then {} else {gs[0].Key} + GroupKeys(gs[1..])
  }

  predicate DistinctGroups(gs: seq<Group>) {
    gs == [] || (gs[0].Key !in GroupKeys(gs[1..]) && DistinctGroups(gs[1..]))
  }

  /** Every group's entries have distinct keys. */
  predicate GroupsWellFormed(gs: seq<Group>) {
    DistinctGroups(gs) && forall i :: 0 <= i < |gs| ==> DistinctEntries(gs[i].Entries)
  }

  /** The entries kept under payload key `pk`, none when it has no group. */
  function EntriesFor(gs: seq<Group>, pk: PayloadAggregationKey): (r: seq<Entry>)
    ensures pk !in GroupKeys(gs) ==> r == []
  {
    if gs == [] then [] else if gs[0].Key == pk then gs[0].Entries else EntriesFor(gs[1..], pk)
  }

  /** Adding the stats of a payload with key `pk`: the group of `pk`, created if needed even when
      there are no stats, receives them; other groups are untouched. */
  function AddToGroups(gs: seq<Group>, pk: PayloadAggregationKey, stats: seq<Option<ClientGroupedStats>>, hasher: PeerTagsHasher)
    : (r: seq<Group>)
    ensures EntriesFor(r, pk) == AddStats(EntriesFor(gs, pk), stats, hasher)
    ensures forall pk' :: pk' != pk ==> EntriesFor(r, pk') == EntriesFor(gs, pk')
    ensures GroupKeys(r) == GroupKeys(gs) + {pk}
    ensures |r| <= |gs| + 1
    ensures GroupsWellFormed(gs) ==> GroupsWellFormed(r)
  {
    if gs == [] then
      [Group(pk, AddStats([], stats, hasher))]
    else if gs[0].Key == pk then
      var r := [gs[0].(Entries := AddStats(gs[0].Entries, stats, hasher))] + gs[1..];
      assert r[1..] == gs[1..];
      r
    else
      var rest := AddToGroups(gs[1..], pk, stats, hasher);
      var r := [gs[0]] + rest;
      assert r[1..] == rest;
      assert GroupsWellFormed(gs) ==> GroupsWellFormed(gs[1..]) by {
        if GroupsWellFormed(gs) {
          forall i | 0 <= i < |gs[1..]|
            ensures DistinctEntries(gs[1..][i].Entries)
          {
            assert gs[1..][i] == gs[i + 1];
          }
        }
      }
      assert GroupsWellFormed(gs) ==> forall i :: 0 <= i < |r| ==> DistinctEntries(r[i].Entries) by {
        if GroupsWellFormed(gs) {
          forall i | 0 <= i < |r|
            ensures DistinctEntries(r[i].Entries)
          {
            if i > 0 {
              assert r[i] == rest[i - 1];
            }
          }
        }
      }
      r
  }

  /** All grouped stats of a payload, bucket after bucket. */
  function PayloadStats(buckets: seq<ClientStatsBucket>): seq<Option<ClientGroupedStats>> {
    if buckets == [] then [] else PayloadStats(buckets[..|buckets| - 1]) + buckets[|buckets| - 1].Stats
  }

  /** `bucket.aggregateCounts`. */
  function AggregateCounts(gs: seq<Group>, p: ClientStatsPayload, hasher: PeerTagsHasher): seq<Group> {
    AddToGroups(gs, PayloadKeyOf(p), PayloadStats(p.Stats), hasher)
  }

  /** An aggregator bucket: a single payload kept as it came, or the summed counts of two or more. */
  datatype Bucket =
    | Single(Ts: int, First: ClientStatsPayload)
    | Merged(Ts: int, Groups: seq<Group>)

  /** `bucket.add` on an existing bucket: the second payload sums both payloads' counts and emits
      both as "distributions" copies, the first before the new one; every later payload adds its
      counts and emits its own copy. */
  function BucketAdd(b: Bucket, p: ClientStatsPayload, hasher: PeerTagsHasher): (r: (Bucket, seq<ClientStatsPayload>))
    ensures r.0.Merged? && r.0.Ts == b.Ts
    ensures b.Single? ==> r.1 == [Trim(b.First), Trim(p)]
    ensures b.Merged? ==> r.1 == [Trim(p)]
    ensures b.Merged? ==> r.0.Groups == AggregateCounts(b.Groups, p, hasher)
    ensures b.Single? ==> r.0.Groups == AggregateCounts(AggregateCounts([], b.First, hasher), p, hasher)
  {
    match b
    case Single(ts, first) =>
      (Merged(ts, AggregateCounts(AggregateCounts([], first, hasher), p, hasher)), [Trim(first), Trim(p)])
    case Merged(ts, gs) =>
      (Merged(ts, AggregateCounts(gs, p, hasher)), [Trim(p)])
  }

  /** The bucket built at `ts` from payloads arriving in order. */
  function BucketOf(ts: int, ps: seq<ClientStatsPayload>, hasher: PeerTagsHasher): Bucket
    requires ps != []
  {
    if |ps| == 1 then Single(ts, ps[0]) else BucketAdd(BucketOf(ts, ps[..|ps| - 1], hasher), ps[|ps| - 1], hasher).0
  }

  /** What the payloads emit as they arrive. */
  function EmittedOf(ts: int, ps: seq<ClientStatsPayload>, hasher: PeerTagsHasher): seq<ClientStatsPayload>
    requires ps != []
  {
    if |ps| == 1 then [] else EmittedOf(ts, ps[..|ps| - 1], hasher) + BucketAdd(BucketOf(ts, ps[..|ps| - 1], hasher), ps[|ps| - 1], hasher).1
  }

  /** The counts payloads `pk` contributes under `k`: the total of each payload with that key. */
  function Contribution(ps: seq<ClientStatsPayload>, pk: PayloadAggregationKey, k: BucketsAggregationKey, hasher: PeerTagsHasher)
    : Counts
  {
    if ps == [] then NoCounts
    else
      var q := ps[|ps| - 1];
      var c := Contribution(ps[..|ps| - 1], pk, k, hasher);
      if PayloadKeyOf(q) == pk then Plus(c, Total(PayloadStats(q.Stats), k, hasher)) else c
  }

  function PayloadKeys(ps: seq<ClientStatsPayload>): set<PayloadAggregationKey> {
    set i | 0 <= i < |ps| :: PayloadKeyOf(ps[i])
  }

  /** A bucket that received two payloads or more is merged, at the time it was created. */
  lemma {:induction false} MergedAfterTwo(ts: int, ps: seq<ClientStatsPayload>, hasher: PeerTagsHasher)
    requires |ps| >= 2
    ensures BucketOf(ts, ps, hasher).Merged? && BucketOf(ts, ps, hasher).Ts == ts
    ensures BucketOf(ts, ps, hasher).Groups ==
      AggregateCounts(if |ps| == 2 then AggregateCounts([], ps[0], hasher) else BucketOf(ts, ps[..|ps| - 1], hasher).Groups,
                      ps[|ps| - 1], hasher)
  {
    if |ps| > 2 {
      MergedAfterTwo(ts, ps[..|ps| - 1], hasher);
    } else {
      assert ps[..1] == [ps[0]];
    }
  }

  /** A merged bucket holds, for every payload key and aggregation key, the sum of the counts all
      its payloads reported there. */
  lemma {:induction false} MergedBucketSums(
    ts: int, ps: seq<ClientStatsPayload>, hasher: PeerTagsHasher, pk: PayloadAggregationKey, k: BucketsAggregationKey)
    requires |ps| >= 2
    ensures CountsFor(EntriesFor(BucketOf(ts, ps, hasher).Groups, pk), k) == Contribution(ps, pk, k, hasher)
  {
    var n := |ps|;
    MergedAfterTwo(ts, ps, hasher);
    var q := ps[n - 1];
    var init := ps[..n - 1];
    var gs0 := if n == 2 then AggregateCounts([], ps[0], hasher) else BucketOf(ts, init, hasher).Groups;
    var before := CountsFor(EntriesFor(gs0, pk), k);
    assert before == Contribution(init, pk, k, hasher) by {
      if n == 2 {
        assert init == [ps[0]];
        assert init[..0] == [];
        var stats0 := PayloadStats(ps[0].Stats);
        assert EntriesFor(gs0, PayloadKeyOf(ps[0])) == AddStats([], stats0, hasher);
        assert EntriesFor([], pk) == [] && CountsFor([], k) == NoCounts;
        if PayloadKeyOf(ps[0]) == pk {
          assert before == Plus(NoCounts, Total(stats0, k, hasher));
        } else {
          assert EntriesFor(gs0, pk) == EntriesFor([], pk);
        }
      } else {
        MergedBucketSums(ts, init, hasher, pk, k);
      }
    }
    var gs := AggregateCounts(gs0, q, hasher);
    assert BucketOf(ts, ps, hasher).Groups == gs;
    var total := Total(PayloadStats(q.Stats), k, hasher);
    if PayloadKeyOf(q) == pk {
      assert EntriesFor(gs, pk) == AddStats(EntriesFor(gs0, pk), PayloadStats(q.Stats), hasher);
      assert CountsFor(EntriesFor(gs, pk), k) == Plus(before, total);
    } else {
      assert EntriesFor(gs, pk) == EntriesFor(gs0, pk);
    }
    assert Contribution(ps, pk, k, hasher) ==
      if PayloadKeyOf(q) == pk then Plus(Contribution(init, pk, k, hasher), total)
      else Contribution(init, pk, k, hasher);
  }

  /** A merged bucket has exactly one group per payload key it received, and no aggregation key
      twice within a group. */
  lemma {:induction false} MergedBucketGroups(ts: int, ps: seq<ClientStatsPayload>, hasher: PeerTagsHasher)
    requires |ps| >= 2
    ensures GroupKeys(BucketOf(ts, ps, hasher).Groups) == PayloadKeys(ps)
    ensures GroupsWellFormed(BucketOf(ts, ps, hasher).Groups)
  {
    var n := |ps|;
    MergedAfterTwo(ts, ps, hasher);
    var init := ps[..n - 1];
    if n == 2 {
      assert init == [ps[0]];
      FirstPayloadGroup(ps[0], hasher);
      assert PayloadKeys(init) == {PayloadKeyOf(ps[0])};
      GroupsStep(AggregateCounts([], ps[0], hasher), ps, hasher);
    } else {
      MergedBucketGroups(ts, init, hasher);
      GroupsStep(BucketOf(ts, init, hasher).Groups, ps, hasher);
    }
  }

  /** The groups of a bucket's first payload: one group, under that payload's key. */
  lemma FirstPayloadGroup(p: ClientStatsPayload, hasher: PeerTagsHasher)
    ensures GroupKeys(AggregateCounts([], p, hasher)) == {PayloadKeyOf(p)}
    ensures GroupsWellFormed(AggregateCounts([], p, hasher))
  {
    assert GroupsWellFormed([]);
    assert GroupKeys([]) == {};
  }

  /** Adding the last payload of `ps` to groups that cover the earlier ones covers all of them. */
  lemma GroupsStep(gs0: seq<Group>, ps: seq<ClientStatsPayload>, hasher: PeerTagsHasher)
    requires ps != []
    requires GroupKeys(gs0) == PayloadKeys(ps[..|ps| - 1]) && GroupsWellFormed(gs0)
    ensures GroupKeys(AggregateCounts(gs0, ps[|ps| - 1], hasher)) == PayloadKeys(ps)
    ensures GroupsWellFormed(AggregateCounts(gs0, ps[|ps| - 1], hasher))
  {
    PayloadKeysSnoc(ps);
  }

  lemma PayloadKeysSnoc(ps: seq<ClientStatsPayload>)
    requires ps != []
    ensures PayloadKeys(ps) == PayloadKeys(ps[..|ps| - 1]) + {PayloadKeyOf(ps[|ps| - 1])}
  {
    var n := |ps|;
    var init := ps[..n - 1];
    forall x | x in PayloadKeys(ps)
      ensures x in PayloadKeys(init) + {PayloadKeyOf(ps[n - 1])}
    {
      var i :| 0 <= i < n && PayloadKeyOf(ps[i]) == x;
      if i < n - 1 {
        assert init[i] == ps[i];
      }
    }
    forall x | x in PayloadKeys(init)
      ensures x in PayloadKeys(ps)
    {
      var i :| 0 <= i < n - 1 && PayloadKeyOf(init[i]) == x;
      assert ps[i] == init[i];
    }
  }

  /** Once a bucket holds two payloads or more, every payload it received has been emitted exactly
      once as a "distributions" copy, in arrival order. */
  lemma {:induction false} EmittedAreTrimmedCopies(ts: int, ps: seq<ClientStatsPayload>, hasher: PeerTagsHasher)
    requires |ps| >= 2
    ensures EmittedOf(ts, ps, hasher) == TrimAll(ps)
  {
    var n := |ps|;
    var init := ps[..n - 1];
    if n == 2 {
      assert init == [ps[0]];
      assert init[..0] == [];
      assert EmittedOf(ts, init, hasher) == [];
      assert BucketOf(ts, init, hasher) == Single(ts, ps[0]);
      assert TrimAll(ps) == [Trim(ps[0]), Trim(ps[1])];
    } else {
      EmittedAreTrimmedCopies(ts, init, hasher);
      MergedAfterTwo(ts, init, hasher);
    }
  }

  /** The "distributions" copies of a list of payloads, in order. */
  function TrimAll(ps: seq<ClientStatsPayload>): (r: seq<ClientStatsPayload>)
    ensures |r| == |ps|
    ensures forall i :: 0 <= i < |ps| ==> r[i] == Trim(ps[i])
  {
    if ps == [] then [] else TrimAll(ps[..|ps| - 1]) + [Trim(ps[|ps| - 1])]
  }

  /** The stat a demoted bucket reports for one entry: the key's fields and the summed counts, with
      no database type, no top-level hits and no summaries. */
  function StatOfEntry(e: Entry): ClientGroupedStats {
    ClientGroupedStats(
      Service := e.Key.Service,
      Name := e.Key.Name,
      Resource := e.Key.Resource,
      HTTPStatusCode := e.Key.StatusCode,
      Type := e.Key.Type,
      DBType := "",
      Hits := e.Counts.Hits,
      Errors := e.Counts.Errors,
      Duration := e.Counts.Duration,
      Synthetics := e.Key.Synthetics,
      TopLevelHits := 0,
      SpanKind := e.Key.SpanKind,
      PeerTags := e.PeerTags,
      IsTraceRoot := e.Key.IsTraceRoot,
      OkSummary := [],
      ErrorSummary := [])
  }

  /** The "counts" payload of one group: the payload key's host, env, version, image tag and commit,
      one bucket at the aggregator time with the client bucket duration and no shift. */
  function CountsPayload(c: AggregatorConfig, ts: int, g: Group): (r: ClientStatsPayload)
    ensures PayloadKeyOf(r) == g.Key.(ContainerID := "")
    ensures r.AgentAggregation == KeyCounts && |r.Stats| == 1 && r.Stats[0].Start == ts
    ensures |r.Stats[0].Stats| == |g.Entries|
    ensures forall j :: 0 <= j < |g.Entries| ==>
      r.Stats[0].Stats[j].Some? && CountsOfStat(r.Stats[0].Stats[j].value) == g.Entries[j].Counts
  {
    ClientStatsPayload(
      Hostname := g.Key.Hostname,
      Env := g.Key.Env,
      Version := g.Key.Version,
      Lang := "",
      TracerVersion := "",
      RuntimeID := "",
      Sequence := 0,
      AgentAggregation := KeyCounts,
      Service := "",
      ContainerID := "",
      Tags := [],
      GitCommitSha := g.Key.GitCommitSha,
      ImageTag := g.Key.ImageTag,
      Stats := [ClientStatsBucket(ts, c.ClientBucketDuration, 0,
                 seq(|g.Entries|, j requires 0 <= j < |g.Entries| => Some(StatOfEntry(g.Entries[j]))))])
  }

  /** `bucket.flush`: a single payload goes out as it came; a merged bucket is demoted to one
      "counts" payload per payload key. */
  function BucketFlush(c: AggregatorConfig, b: Bucket): (r: seq<ClientStatsPayload>)
    ensures b.Single? ==> r == [b.First]
    ensures b.Merged? ==> |r| == |b.Groups|
  {
    match b
    case Single(_, first) => [first]
    case Merged(ts, gs) => seq(|gs|, i requires 0 <= i < |gs| => CountsPayload(c, ts, gs[i]))
  }

  /** The shape of a demoted bucket: every payload is a "counts" payload with the client-side
      identity cleared, one bucket at the aggregator time, and one stat per entry carrying the
      entry's key and summed counts, with no database type, top-level hits or summaries. */
  lemma DemotedShape(c: AggregatorConfig, ts: int, gs: seq<Group>, i: nat)
    requires i < |gs|
    ensures var q := BucketFlush(c, Merged(ts, gs))[i];
      q.AgentAggregation == KeyCounts && q.Lang == "" && q.TracerVersion == "" && q.RuntimeID == ""
      && q.Sequence == 0 && q.Service == "" && q.ContainerID == ""
      && q.Hostname == gs[i].Key.Hostname && q.Env == gs[i].Key.Env && q.Version == gs[i].Key.Version
      && q.ImageTag == gs[i].Key.ImageTag && q.GitCommitSha == gs[i].Key.GitCommitSha
      && |q.Stats| == 1 && q.Stats[0].Start == ts && q.Stats[0].Duration == c.ClientBucketDuration
      && q.Stats[0].AgentTimeShift == 0 && |q.Stats[0].Stats| == |gs[i].Entries|
      && forall j :: 0 <= j < |gs[i].Entries| ==>
           q.Stats[0].Stats[j].Some?
           && var st := q.Stats[0].Stats[j].value;
           CountsOfStat(st) == gs[i].Entries[j].Counts
           && st.DBType == "" && st.TopLevelHits == 0 && st.OkSummary == [] && st.ErrorSummary == []
           && st.Service == gs[i].Entries[j].Key.Service && st.Name == gs[i].Entries[j].Key.Name
           && st.Resource == gs[i].Entries[j].Key.Resource && st.HTTPStatusCode == gs[i].Entries[j].Key.StatusCode
           && st.Type == gs[i].Entries[j].Key.Type && st.Synthetics == gs[i].Entries[j].Key.Synthetics
           && st.SpanKind == gs[i].Entries[j].Key.SpanKind && st.IsTraceRoot == gs[i].Entries[j].Key.IsTraceRoot
           && st.PeerTags == gs[i].Entries[j].PeerTags
  {
  }

  /** What a bucket that received two payloads or more reports when flushed: for each payload key
      seen, one "counts" payload whose stat for each aggregation key holds the sum of everything the
      payloads reported under that pair of keys. */
  lemma DemotedCountsAreSums(c: AggregatorConfig, ts: int, ps: seq<ClientStatsPayload>, hasher: PeerTagsHasher, i: nat, j: nat)
    requires |ps| >= 2
    requires i < |BucketOf(ts, ps, hasher).Groups|
    requires j < |BucketOf(ts, ps, hasher).Groups[i].Entries|
    ensures var g := BucketOf(ts, ps, hasher).Groups[i];
      var st := BucketFlush(c, BucketOf(ts, ps, hasher))[i].Stats[0].Stats[j].value;
      CountsOfStat(st) == Contribution(ps, g.Key, g.Entries[j].Key, hasher)
      && g.Key in PayloadKeys(ps)
  {
    var gs := BucketOf(ts, ps, hasher).Groups;
    MergedAfterTwo(ts, ps, hasher);
    MergedBucketGroups(ts, ps, hasher);
    MergedBucketSums(ts, ps, hasher, gs[i].Key, gs[i].Entries[j].Key);
    GroupEntriesAt(gs, i);
    CountsForEntry(gs[i].Entries, j);
    GroupKeysMember(gs, i);
  }

  lemma {:induction false} GroupEntriesAt(gs: seq<Group>, i: nat)
    requires GroupsWellFormed(gs) && i < |gs|
    ensures EntriesFor(gs, gs[i].Key) == gs[i].Entries
  {
    if i > 0 {
      assert GroupsWellFormed(gs[1..]) by {
        forall m | 0 <= m < |gs[1..]|
          ensures DistinctEntries(gs[1..][m].Entries)
        {
          assert gs[1..][m] == gs[m + 1];
        }
      }
      GroupEntriesAt(gs[1..], i - 1);
      GroupKeysMember(gs[1..], i - 1);
    }
  }

  lemma {:induction false} GroupKeysMember(gs: seq<Group>, i: nat)
    requires i < |gs|
    ensures gs[i].Key in GroupKeys(gs)
  {
    if i > 0 {
      GroupKeysMember(gs[1..], i - 1);
    }
  }
}
