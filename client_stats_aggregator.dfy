/** The client-stats aggregator: client payloads are split per bucket, clamped onto the
    aggregator's time grid and merged into the bucket map; `FlushOnTime` walks the grid from the
    oldest open bucket and writes out, then deletes, every bucket past the retention horizon. */
module ClientStatsAggregator {
  import opened Common
  import opened Pb
  import opened Aggregation
  import opened ClientStats

  /** The agent identity every written payload carries. */
  datatype AgentIdentity = AgentIdentity(Env: string, Hostname: string, Version: string)

  /** `flush`: nothing is written for an empty list; otherwise one client-computed payload with the
      agent identity. */
  function Emit(id: AgentIdentity, ps: seq<ClientStatsPayload>): (r: seq<StatsPayload>)
    ensures ps == [] <==> r == []
    ensures |r| <= 1
    ensures forall w :: w in r ==>
      w.ClientComputed && w.Stats == ps && w.AgentEnv == id.Env && w.AgentHostname == id.Hostname
      && w.AgentVersion == id.Version
  {
    if ps == [] then [] else [StatsPayload(id.Hostname, id.Env, id.Version, true, ps)]
  }

  /** The bucket map and what has been written so far. */
  datatype AggState = AggState(Buckets: map<int, Bucket>, Written: seq<StatsPayload>)

  /** One client bucket of payload `q`, added at `now`: it is clamped onto the grid, wrapped in a
      payload of its own, and either starts a new bucket or merges into the existing one, whose
      "distributions" copies are written. */
  function AddClientBucket(
    c: AggregatorConfig, id: AgentIdentity, hasher: PeerTagsHasher, oldestTs: int, now: int,
    q: ClientStatsPayload, st: AggState, cb: ClientStatsBucket): (r: AggState)
    requires ValidConfig(c)
    ensures var t := BucketTime(c, oldestTs, now, cb.Start);
      t.0 in r.Buckets && r.Buckets == st.Buckets[t.0 := r.Buckets[t.0]]
    ensures var t := BucketTime(c, oldestTs, now, cb.Start);
      t.0 !in st.Buckets ==> r.Written == st.Written && r.Buckets[t.0] == Single(t.0, q.(Stats := [ShiftBucket(cb, t.0, t.1)]))
    ensures var t := BucketTime(c, oldestTs, now, cb.Start);
      t.0 in st.Buckets ==> (r.Buckets[t.0].Merged? && r.Buckets[t.0].Ts == st.Buckets[t.0].Ts
        && |r.Written| == |st.Written| + 1 && r.Written[..|st.Written|] == st.Written)
    ensures var t := BucketTime(c, oldestTs, now, cb.Start);
      t.0 in st.Buckets ==>
        var added := BucketAdd(st.Buckets[t.0], q.(Stats := [ShiftBucket(cb, t.0, t.1)]), hasher);
        r.Buckets[t.0] == added.0 && r.Written == st.Written + Emit(id, added.1)
  {
    var t := BucketTime(c, oldestTs, now, cb.Start);
    var single := q.(Stats := [ShiftBucket(cb, t.0, t.1)]);
    if t.0 in st.Buckets then
      var added := BucketAdd(st.Buckets[t.0], single, hasher);
      AggState(st.Buckets[t.0 := added.0], st.Written + Emit(id, added.1))
    else
      AggState(st.Buckets[t.0 := Single(t.0, single)], st.Written)
  }

  /** The client buckets of a payload, added in order. */
  function AddClientBuckets(
    c: AggregatorConfig, id: AgentIdentity, hasher: PeerTagsHasher, oldestTs: int, now: int,
    q: ClientStatsPayload, st: AggState, cbs: seq<ClientStatsBucket>): AggState
    requires ValidConfig(c)
  {
    if cbs == [] then st
    else AddClientBucket(c, id, hasher, oldestTs, now, q,
                         AddClientBuckets(c, id, hasher, oldestTs, now, q, st, cbs[..|cbs| - 1]), cbs[|cbs| - 1])
  }

  /** Adding never loses a bucket and never rewrites what was written. */
  lemma {:induction false} AddClientBucketsMonotone(
    c: AggregatorConfig, id: AgentIdentity, hasher: PeerTagsHasher, oldestTs: int, now: int,
    q: ClientStatsPayload, st: AggState, cbs: seq<ClientStatsBucket>)
    requires ValidConfig(c)
    ensures var r := AddClientBuckets(c, id, hasher, oldestTs, now, q, st, cbs);
      st.Buckets.Keys <= r.Buckets.Keys && |st.Written| <= |r.Written| && r.Written[..|st.Written|] == st.Written
  {
    if cbs != [] {
      AddClientBucketsMonotone(c, id, hasher, oldestTs, now, q, st, cbs[..|cbs| - 1]);
    }
  }

  /** With the oldest open bucket on the grid and not after now, adding client buckets opens no
      bucket before it. */
  lemma {:induction false} AddClientBucketsNotBefore(
    c: AggregatorConfig, id: AgentIdentity, hasher: PeerTagsHasher, oldestTs: int, now: int,
    q: ClientStatsPayload, st: AggState, cbs: seq<ClientStatsBucket>)
    requires ValidConfig(c) && oldestTs % c.BucketDuration == c.AlignOffset && oldestTs <= now
    requires forall k :: k in st.Buckets ==> k >= oldestTs
    ensures forall k :: k in AddClientBuckets(c, id, hasher, oldestTs, now, q, st, cbs).Buckets ==> k >= oldestTs
  {
    if cbs != [] {
      AddClientBucketsNotBefore(c, id, hasher, oldestTs, now, q, st, cbs[..|cbs| - 1]);
      BucketTimeInWindow(c, oldestTs, now, cbs[|cbs| - 1].Start);
    }
  }

  /** Adding one more client bucket adds it to the state the earlier ones left. */
  lemma AddClientBucketsSnoc(
    c: AggregatorConfig, id: AgentIdentity, hasher: PeerTagsHasher, oldestTs: int, now: int,
    q: ClientStatsPayload, st: AggState, cbs: seq<ClientStatsBucket>, cb: ClientStatsBucket)
    requires ValidConfig(c)
    ensures AddClientBuckets(c, id, hasher, oldestTs, now, q, st, cbs + [cb])
      == AddClientBucket(c, id, hasher, oldestTs, now, q, AddClientBuckets(c, id, hasher, oldestTs, now, q, st, cbs), cb)
  {
    assert (cbs + [cb])[..|cbs|] == cbs;
  }

  /** What `Add` does to payload `p` at `now`: version data filled in, then its client buckets
      added in order. */
  function AddPayload(
    c: AggregatorConfig, id: AgentIdentity, hasher: PeerTagsHasher, lookup: ContainerTagsLookup, oldestTs: int,
    now: int, st: AggState, p: ClientStatsPayload): (r: AggState)
    requires ValidConfig(c)
    ensures p.Stats == [] ==> r == st
    ensures st.Buckets.Keys <= r.Buckets.Keys
    ensures |st.Written| <= |r.Written| && r.Written[..|st.Written|] == st.Written
  {
    AddClientBucketsMonotone(c, id, hasher, oldestTs, now, SetVersionData(p, lookup), st, p.Stats);
    AddClientBuckets(c, id, hasher, oldestTs, now, SetVersionData(p, lookup), st, p.Stats)
  }

  /** Payloads passed to `Add` one after the other, at the same `now` and with no flush between. */
  function AddPayloads(
    c: AggregatorConfig, id: AgentIdentity, hasher: PeerTagsHasher, lookup: ContainerTagsLookup, oldestTs: int,
    now: int, st: AggState, ps: seq<ClientStatsPayload>): AggState
    requires ValidConfig(c)
  {
    if ps == [] then st
    else AddPayload(c, id, hasher, lookup, oldestTs, now,
                    AddPayloads(c, id, hasher, lookup, oldestTs, now, st, ps[..|ps| - 1]), ps[|ps| - 1])
  }

  /** The payload a one-bucket client payload is stored as: version data filled in and its bucket
      clamped onto the grid. */
  function Stored(c: AggregatorConfig, lookup: ContainerTagsLookup, oldestTs: int, now: int, p: ClientStatsPayload)
    : (r: ClientStatsPayload)
    requires ValidConfig(c) && |p.Stats| == 1
    ensures |r.Stats| == 1 && PayloadKeyOf(r) == PayloadKeyOf(SetVersionData(p, lookup))
  {
    var t := BucketTime(c, oldestTs, now, p.Stats[0].Start);
    SetVersionData(p, lookup).(Stats := [ShiftBucket(p.Stats[0], t.0, t.1)])
  }

  /** Every payload of `ps` carries a single client bucket, which lands at aggregator time `ts`. */
  predicate AllLandAt(c: AggregatorConfig, oldestTs: int, now: int, ps: seq<ClientStatsPayload>, ts: int)
    requires ValidConfig(c)
  {
    forall i :: 0 <= i < |ps| ==> |ps[i].Stats| == 1 && BucketTime(c, oldestTs, now, ps[i].Stats[0].Start).0 == ts
  }

  function StoredAll(c: AggregatorConfig, lookup: ContainerTagsLookup, oldestTs: int, now: int, ps: seq<ClientStatsPayload>)
    : (r: seq<ClientStatsPayload>)
    requires ValidConfig(c) && forall i :: 0 <= i < |ps| ==> |ps[i].Stats| == 1
    ensures |r| == |ps| && forall i :: 0 <= i < |ps| ==> r[i] == Stored(c, lookup, oldestTs, now, ps[i])
  {
    if ps == [] then [] else StoredAll(c, lookup, oldestTs, now, ps[..|ps| - 1]) + [Stored(c, lookup, oldestTs, now, ps[|ps| - 1])]
  }

  /** What the bucket built at `ts` from `ps` writes as they arrive: one client-computed payload per
      arrival after the first. */
  function WritesOf(id: AgentIdentity, ts: int, ps: seq<ClientStatsPayload>, hasher: PeerTagsHasher): seq<StatsPayload>
    requires ps != []
  {
    if |ps| == 1 then []
    else WritesOf(id, ts, ps[..|ps| - 1], hasher) + Emit(id, BucketAdd(BucketOf(ts, ps[..|ps| - 1], hasher), ps[|ps| - 1], hasher).1)
  }

  /** The client payloads carried by a list of written payloads, in order. */
  function Carried(ws: seq<StatsPayload>): seq<ClientStatsPayload> {
    if ws == [] then [] else Carried(ws[..|ws| - 1]) + ws[|ws| - 1].Stats
  }

  /** A one-bucket payload whose bucket lands at a time not yet open opens it with the stored
      payload, and writes nothing. */
  lemma AddIntoNew(
    c: AggregatorConfig, id: AgentIdentity, hasher: PeerTagsHasher, lookup: ContainerTagsLookup, oldestTs: int,
    now: int, st: AggState, p: ClientStatsPayload, ts: int)
    requires ValidConfig(c) && |p.Stats| == 1 && BucketTime(c, oldestTs, now, p.Stats[0].Start).0 == ts
    requires ts !in st.Buckets
    ensures AddPayload(c, id, hasher, lookup, oldestTs, now, st, p)
      == AggState(st.Buckets[ts := Single(ts, Stored(c, lookup, oldestTs, now, p))], st.Written)
  {
    OneBucketPayload(c, id, hasher, lookup, oldestTs, now, st, p);
  }

  /** A one-bucket payload whose bucket lands at an open time is added to that bucket, and what
      the bucket emits is written. */
  lemma AddIntoOpen(
    c: AggregatorConfig, id: AgentIdentity, hasher: PeerTagsHasher, lookup: ContainerTagsLookup, oldestTs: int,
    now: int, st: AggState, p: ClientStatsPayload, ts: int)
    requires ValidConfig(c) && |p.Stats| == 1 && BucketTime(c, oldestTs, now, p.Stats[0].Start).0 == ts
    requires ts in st.Buckets
    ensures var added := BucketAdd(st.Buckets[ts], Stored(c, lookup, oldestTs, now, p), hasher);
      AddPayload(c, id, hasher, lookup, oldestTs, now, st, p)
        == AggState(st.Buckets[ts := added.0], st.Written + Emit(id, added.1))
  {
    OneBucketPayload(c, id, hasher, lookup, oldestTs, now, st, p);
  }

  /** Adding a one-bucket payload is adding its single client bucket. */
  lemma OneBucketPayload(
    c: AggregatorConfig, id: AgentIdentity, hasher: PeerTagsHasher, lookup: ContainerTagsLookup, oldestTs: int,
    now: int, st: AggState, p: ClientStatsPayload)
    requires ValidConfig(c) && |p.Stats| == 1
    ensures AddPayload(c, id, hasher, lookup, oldestTs, now, st, p)
      == AddClientBucket(c, id, hasher, oldestTs, now, SetVersionData(p, lookup), st, p.Stats[0])
  {
    var q := SetVersionData(p, lookup);
    var cb := p.Stats[0];
    assert p.Stats == [cb];
    assert [cb][..0] == [];
    assert AddClientBuckets(c, id, hasher, oldestTs, now, q, st, []) == st;
  }

  /** Payloads passed to `Add` that all land in one aggregator bucket not yet open leave that bucket
      as `BucketOf` the stored payloads, and write exactly what that bucket emits. */
  lemma {:induction false} SameBucketPayloads(
    c: AggregatorConfig, id: AgentIdentity, hasher: PeerTagsHasher, lookup: ContainerTagsLookup, oldestTs: int,
    now: int, st: AggState, ps: seq<ClientStatsPayload>, ts: int)
    requires ValidConfig(c) && ps != [] && ts !in st.Buckets && AllLandAt(c, oldestTs, now, ps, ts)
    ensures var r := AddPayloads(c, id, hasher, lookup, oldestTs, now, st, ps);
      var stored := StoredAll(c, lookup, oldestTs, now, ps);
      r.Buckets == st.Buckets[ts := BucketOf(ts, stored, hasher)]
      && r.Written == st.Written + WritesOf(id, ts, stored, hasher)
  {
    var n := |ps|;
    var p := ps[n - 1];
    var init := ps[..n - 1];
    if n == 1 {
      assert init == [];
      AddIntoNew(c, id, hasher, lookup, oldestTs, now, st, p, ts);
      assert StoredAll(c, lookup, oldestTs, now, ps) == [Stored(c, lookup, oldestTs, now, p)];
    } else {
      assert AllLandAt(c, oldestTs, now, init, ts) by {
        forall i | 0 <= i < |init| ensures |init[i].Stats| == 1 && BucketTime(c, oldestTs, now, init[i].Stats[0].Start).0 == ts {
          assert init[i] == ps[i];
        }
      }
      SameBucketPayloads(c, id, hasher, lookup, oldestTs, now, st, init, ts);
      SameBucketStep(c, id, hasher, lookup, oldestTs, now, st,
                     AddPayloads(c, id, hasher, lookup, oldestTs, now, st, init), p, ts, StoredAll(c, lookup, oldestTs, now, init));
    }
  }

  /** One more payload landing in the bucket: the bucket is `BucketOf` one more stored payload, and
      its write is appended. */
  lemma SameBucketStep(
    c: AggregatorConfig, id: AgentIdentity, hasher: PeerTagsHasher, lookup: ContainerTagsLookup, oldestTs: int,
    now: int, st: AggState, r0: AggState, p: ClientStatsPayload, ts: int, storedInit: seq<ClientStatsPayload>)
    requires ValidConfig(c) && |p.Stats| == 1 && BucketTime(c, oldestTs, now, p.Stats[0].Start).0 == ts
    requires storedInit != []
    requires r0.Buckets == st.Buckets[ts := BucketOf(ts, storedInit, hasher)]
    requires r0.Written == st.Written + WritesOf(id, ts, storedInit, hasher)
    ensures var stored := storedInit + [Stored(c, lookup, oldestTs, now, p)];
      var r := AddPayload(c, id, hasher, lookup, oldestTs, now, r0, p);
      r.Buckets == st.Buckets[ts := BucketOf(ts, stored, hasher)]
      && r.Written == st.Written + WritesOf(id, ts, stored, hasher)
  {
    var q := Stored(c, lookup, oldestTs, now, p);
    var stored := storedInit + [q];
    var b0 := BucketOf(ts, storedInit, hasher);
    var added := BucketAdd(b0, q, hasher);
    assert BucketOf(ts, stored, hasher) == added.0 && WritesOf(id, ts, stored, hasher) == WritesOf(id, ts, storedInit, hasher) + Emit(id, added.1) by {
      assert stored[..|stored| - 1] == storedInit && stored[|stored| - 1] == q;
    }
    AddIntoOpen(c, id, hasher, lookup, oldestTs, now, r0, p, ts);
    ReplaceAgain(st, r0, ts, b0, added.0, WritesOf(id, ts, storedInit, hasher), Emit(id, added.1));
  }

  lemma ReplaceAgain(st: AggState, r0: AggState, ts: int, b0: Bucket, b1: Bucket, w0: seq<StatsPayload>, e: seq<StatsPayload>)
    requires r0.Buckets == st.Buckets[ts := b0] && r0.Written == st.Written + w0
    ensures r0.Buckets[ts := b1] == st.Buckets[ts := b1] && r0.Written + e == st.Written + (w0 + e)
  {
  }

  /** Each write of a bucket carries the "distributions" copies of one arrival, so together the
      writes carry everything the bucket emitted, in order, each with the agent identity. */
  lemma {:induction false} WritesCarryEmitted(id: AgentIdentity, ts: int, ps: seq<ClientStatsPayload>, hasher: PeerTagsHasher)
    requires ps != []
    ensures |WritesOf(id, ts, ps, hasher)| == |ps| - 1
    ensures Carried(WritesOf(id, ts, ps, hasher)) == EmittedOf(ts, ps, hasher)
    ensures forall w :: w in WritesOf(id, ts, ps, hasher) ==>
      w.ClientComputed && w.AgentEnv == id.Env && w.AgentHostname == id.Hostname && w.AgentVersion == id.Version
  {
    if |ps| > 1 {
      var init := ps[..|ps| - 1];
      WritesCarryEmitted(id, ts, init, hasher);
      var a := WritesOf(id, ts, init, hasher);
      var e := BucketAdd(BucketOf(ts, init, hasher), ps[|ps| - 1], hasher).1;
      assert e != [];
      var w := StatsPayload(id.Hostname, id.Env, id.Version, true, e);
      assert WritesOf(id, ts, ps, hasher) == a + [w];
      assert (a + [w])[..|a|] == a;
    }
  }

  /** Two or more payloads passed to `Add` that land in one new aggregator bucket: the writes carry
      the "distributions" copy of every stored payload, in arrival order, and the bucket holds, for
      every payload key and aggregation key, the sum of what the stored payloads reported. */
  lemma MergedAtOneTime(
    c: AggregatorConfig, id: AgentIdentity, hasher: PeerTagsHasher, lookup: ContainerTagsLookup, oldestTs: int,
    now: int, st: AggState, ps: seq<ClientStatsPayload>, ts: int)
    requires ValidConfig(c) && |ps| >= 2 && ts !in st.Buckets && AllLandAt(c, oldestTs, now, ps, ts)
    ensures var r := AddPayloads(c, id, hasher, lookup, oldestTs, now, st, ps);
      var stored := StoredAll(c, lookup, oldestTs, now, ps);
      ts in r.Buckets && r.Buckets[ts].Merged?
      && |r.Written| == |st.Written| + |ps| - 1 && r.Written[..|st.Written|] == st.Written
      && Carried(r.Written[|st.Written|..]) == TrimAll(stored)
      && forall pk, k :: CountsFor(EntriesFor(r.Buckets[ts].Groups, pk), k) == Contribution(stored, pk, k, hasher)
  {
    var r := AddPayloads(c, id, hasher, lookup, oldestTs, now, st, ps);
    var stored := StoredAll(c, lookup, oldestTs, now, ps);
    SameBucketPayloads(c, id, hasher, lookup, oldestTs, now, st, ps, ts);
    WritesCarryEmitted(id, ts, stored, hasher);
    EmittedAreTrimmedCopies(ts, stored, hasher);
    MergedAfterTwo(ts, stored, hasher);
    assert r.Written[|st.Written|..] == WritesOf(id, ts, stored, hasher);
    forall pk, k ensures CountsFor(EntriesFor(r.Buckets[ts].Groups, pk), k) == Contribution(stored, pk, k, hasher) {
      MergedBucketSums(ts, stored, hasher, pk, k);
    }
  }

  /** The time up to which `flushOnTime` at `now` writes buckets out: the horizon, less one
      bucket, aligned. */
  function FlushTs(c: AggregatorConfig, now: int): (r: int)
    requires ValidConfig(c)
    ensures r % c.BucketDuration == c.AlignOffset
    ensures now - c.OldestBucketStart < r - c.AlignOffset <= now + c.BucketDuration - c.OldestBucketStart
  {
    AlignAgg(c, now + c.BucketDuration - c.OldestBucketStart)
  }

  /** Whether `k` is a grid point visited by a sweep from `from` up to, not including, `stop`. */
  predicate OnGrid(c: AggregatorConfig, k: int, from: int, stop: int)
    requires ValidConfig(c)
  {
    from <= k < stop && (k - from) % c.BucketDuration == 0
  }

  /** What a sweep of the grid from `t` to `stop` writes: the flush of every bucket it meets, in
      time order. */
  function Sweep(c: AggregatorConfig, id: AgentIdentity, b: map<int, Bucket>, t: int, stop: int): (r: seq<StatsPayload>)
    requires ValidConfig(c)
    ensures forall w :: w in r ==>
      w.ClientComputed && w.AgentEnv == id.Env && w.AgentHostname == id.Hostname && w.AgentVersion == id.Version
    decreases stop - t
  {
    if t >= stop then []
    else (if t in b then Emit(id, BucketFlush(c, b[t])) else []) + Sweep(c, id, b, t + c.BucketDuration, stop)
  }

  /** A grid point of the sweep that starts one bucket later is a grid point of this one. */
  lemma GridNext(c: AggregatorConfig, t: int, stop: int)
    requires ValidConfig(c)
    ensures forall k :: OnGrid(c, k, t + c.BucketDuration, stop) ==> OnGrid(c, k, t, stop)
  {
    forall k | OnGrid(c, k, t + c.BucketDuration, stop)
      ensures OnGrid(c, k, t, stop)
    {
      ModShift(k - t - c.BucketDuration, c.BucketDuration, 1);
    }
  }

  /** A sweep that meets no bucket on its grid writes nothing. */
  lemma {:induction false} SweepWritesNothingOffGrid(c: AggregatorConfig, id: AgentIdentity, b: map<int, Bucket>, t: int, stop: int)
    requires ValidConfig(c)
    ensures (forall k :: k in b ==> !OnGrid(c, k, t, stop)) ==> Sweep(c, id, b, t, stop) == []
    decreases stop - t
  {
    if t < stop && forall k :: k in b ==> !OnGrid(c, k, t, stop) {
      assert OnGrid(c, t, t, stop);
      GridNext(c, t, stop);
      SweepWritesNothingOffGrid(c, id, b, t + c.BucketDuration, stop);
    }
  }

  /** `w` is the flush of a bucket of `b` on the grid from `t` to `stop`. */
  ghost predicate FlushOnGrid(c: AggregatorConfig, id: AgentIdentity, b: map<int, Bucket>, t: int, stop: int, w: StatsPayload)
    requires ValidConfig(c)
  {
    exists k :: k in b && OnGrid(c, k, t, stop) && w in Emit(id, BucketFlush(c, b[k]))
  }

  /** Everything a sweep writes is the flush of a bucket it meets on the grid. */
  lemma {:induction false} SweepWritesGridFlushes(c: AggregatorConfig, id: AgentIdentity, b: map<int, Bucket>, t: int, stop: int)
    requires ValidConfig(c)
    ensures forall w :: w in Sweep(c, id, b, t, stop) ==> FlushOnGrid(c, id, b, t, stop, w)
    decreases stop - t
  {
    if t < stop {
      var e := if t in b then Emit(id, BucketFlush(c, b[t])) else [];
      var rest := Sweep(c, id, b, t + c.BucketDuration, stop);
      SweepWritesGridFlushes(c, id, b, t + c.BucketDuration, stop);
      var r := Sweep(c, id, b, t, stop);
      assert r == e + rest;
      forall w | w in r
        ensures FlushOnGrid(c, id, b, t, stop, w)
      {
        if w in e {
          assert OnGrid(c, t, t, stop);
        } else {
          assert w in rest;
          var k :| k in b && OnGrid(c, k, t + c.BucketDuration, stop) && w in Emit(id, BucketFlush(c, b[k]));
          GridNext(c, t, stop);
        }
      }
    }
  }

  /** The buckets a sweep from `from` to `stop` leaves behind. */
  function Unswept(c: AggregatorConfig, b: map<int, Bucket>, from: int, stop: int): (r: map<int, Bucket>)
    requires ValidConfig(c)
    ensures r.Keys <= b.Keys
    ensures forall k :: k in b && !OnGrid(c, k, from, stop) ==> k in r && r[k] == b[k]
  {
    map k | k in b && !OnGrid(c, k, from, stop) :: b[k]
  }

  /** Between two consecutive grid points there is no other grid point. */
  lemma GridGap(c: AggregatorConfig, k: int, from: int, t: int)
    requires ValidConfig(c) && (t - from) % c.BucketDuration == 0 && t < k < t + c.BucketDuration
    ensures (k - from) % c.BucketDuration != 0
  {
    if (k - from) % c.BucketDuration == 0 {
      DiffMultiple(k - from, t - from, c.BucketDuration);
      SmallMultipleIsZero(k - t, c.BucketDuration);
      assert false;
    }
  }

  /** A sweep from the oldest open bucket leaves no bucket before where it stopped. */
  lemma UnsweptNotBefore(c: AggregatorConfig, b: map<int, Bucket>, start: int, stop: int)
    requires ValidConfig(c) && start % c.BucketDuration == c.AlignOffset
    requires forall k :: k in b ==> k >= start && k % c.BucketDuration == c.AlignOffset
    ensures forall k :: k in Unswept(c, b, start, stop) ==> k >= stop
  {
    forall k | k in Unswept(c, b, start, stop)
      ensures k >= stop
    {
      SameOffsetDiff(c, k, start);
    }
  }

  /** Flushing an empty aggregator writes nothing. */
  lemma {:induction false} EmptyFlushWritesNothing(c: AggregatorConfig, id: AgentIdentity, t: int, stop: int)
    requires ValidConfig(c)
    ensures Sweep(c, id, map[], t, stop) == []
    decreases stop - t
  {
    if t < stop {
      EmptyFlushWritesNothing(c, id, t + c.BucketDuration, stop);
    }
  }

  /** A sweep meets a lone bucket on its grid exactly when the bucket starts before the sweep's
      end: it then writes that bucket's flush and leaves nothing; otherwise it writes nothing and
      keeps the bucket. */
  lemma {:induction false} SweepOneBucket(c: AggregatorConfig, id: AgentIdentity, ts: int, bk: Bucket, from: int, stop: int)
    requires ValidConfig(c) && from <= ts && (ts - from) % c.BucketDuration == 0
    ensures Sweep(c, id, map[ts := bk], from, stop) == (if ts < stop then Emit(id, BucketFlush(c, bk)) else [])
    ensures Unswept(c, map[ts := bk], from, stop) == (if ts < stop then map[] else map[ts := bk])
    decreases stop - from
  {
    var b := c.BucketDuration;
    if from < stop {
      if from == ts {
        EmptyFlushAfter(c, id, ts, bk, from + b, stop);
      } else {
        assert ts - from >= b by {
          if ts - from < b {
            GridGap(c, ts, from, from);
            assert false;
          }
        }
        ModShift(ts - from, b, -1);
        assert ts - (from + b) == (ts - from) + b * -1;
        SweepOneBucket(c, id, ts, bk, from + b, stop);
      }
    }
    if ts < stop {
      assert OnGrid(c, ts, from, stop);
      assert Unswept(c, map[ts := bk], from, stop) == map[];
    } else {
      assert !OnGrid(c, ts, from, stop);
    }
  }

  /** A sweep that starts after the only bucket meets nothing. */
  lemma {:induction false} EmptyFlushAfter(c: AggregatorConfig, id: AgentIdentity, ts: int, bk: Bucket, t: int, stop: int)
    requires ValidConfig(c) && ts < t
    ensures Sweep(c, id, map[ts := bk], t, stop) == []
    decreases stop - t
  {
    if t < stop {
      EmptyFlushAfter(c, id, ts, bk, t + c.BucketDuration, stop);
    }
  }

  /** The client-stats aggregator: its timing constants, agent identity, peer-tag hasher and
      container-tag lookup, the start of the oldest open bucket, the bucket map, and what has been
      written. */
  class Aggregator {
    const cfg: AggregatorConfig
    const id: AgentIdentity
    const hasher: PeerTagsHasher
    const containerTags: ContainerTagsLookup
    var oldestTs: int
    var buckets: map<int, Bucket>
    var written: seq<StatsPayload>

    /** Every bucket and the oldest start lie on the aggregator grid, and each bucket is filed
        under its own time. */
    predicate Valid()
      reads this
    {
      ValidConfig(cfg)
      && oldestTs % cfg.BucketDuration == cfg.AlignOffset
      && forall ts :: ts in buckets ==> ts % cfg.BucketDuration == cfg.AlignOffset && buckets[ts].Ts == ts
    }

    /** No open bucket is older than the oldest open bucket time. */
    predicate NoneBefore()
      reads this
    {
      forall ts :: ts in buckets ==> ts >= oldestTs
    }

    /** `NewClientStatsAggregator`: no buckets; the oldest open bucket is the flush time of `now`. */
    constructor (cfg: AggregatorConfig, id: AgentIdentity, hasher: PeerTagsHasher, containerTags: ContainerTagsLookup, now: int)
      requires ValidConfig(cfg)
      ensures Valid()
      ensures this.cfg == cfg && this.id == id && this.hasher == hasher && this.containerTags == containerTags
      ensures oldestTs == FlushTs(cfg, now) && buckets == map[] && written == []
    {
      this.cfg := cfg;
      this.id := id;
      this.hasher := hasher;
      this.containerTags := containerTags;
      oldestTs := AlignAgg(cfg, now + cfg.BucketDuration - cfg.OldestBucketStart);
      buckets := map[];
      written := [];
    }

    /** One client bucket of payload `q`, added at `now`. */
    method AddBucket(now: int, q: ClientStatsPayload, cb: ClientStatsBucket)
      requires Valid()
      modifies this
      ensures Valid() && oldestTs == old(oldestTs)
      ensures AggState(buckets, written) == AddClientBucket(cfg, id, hasher, oldestTs, now, q, AggState(old(buckets), old(written)), cb)
      ensures old(NoneBefore()) && oldestTs <= now ==> NoneBefore()
    {
      if oldestTs <= now {
        BucketTimeInWindow(cfg, oldestTs, now, cb.Start);
      }
      var t := BucketTime(cfg, oldestTs, now, cb.Start);
      var ts := t.0;
      var single := q.(Stats := [ShiftBucket(cb, ts, t.1)]);
      if ts in buckets {
        var added := BucketAdd(buckets[ts], single, hasher);
        buckets := buckets[ts := added.0];
        written := written + Emit(id, added.1);
      } else {
        buckets := buckets[ts := Single(ts, single)];
      }
    }

    /** `add`: version data is filled in from the container, then each client bucket of the
        payload is added on its own. */
    method Add(now: int, p: ClientStatsPayload)
      requires Valid()
      modifies this
      ensures Valid()
      ensures AggState(buckets, written) == AddClientBuckets(cfg, id, hasher, oldestTs, now,
        SetVersionData(p, containerTags), AggState(old(buckets), old(written)), p.Stats)
      ensures oldestTs == old(oldestTs)
      ensures old(NoneBefore()) && oldestTs <= now ==> NoneBefore()
    {
      var q := SetVersionData(p, containerTags);
      AddBuckets(now, q, p.Stats);
    }

    /** The loop of `add`: the client buckets `cbs` of payload `q`, added in order. */
    method AddBuckets(now: int, q: ClientStatsPayload, cbs: seq<ClientStatsBucket>)
      requires Valid()
      modifies this
      ensures Valid() && oldestTs == old(oldestTs)
      ensures AggState(buckets, written) == AddClientBuckets(cfg, id, hasher, oldestTs, now, q, AggState(old(buckets), old(written)), cbs)
      ensures old(NoneBefore()) && oldestTs <= now ==> NoneBefore()
    {
      ghost var st0 := AggState(buckets, written);
      var i := 0;
      while i < |cbs|
        invariant 0 <= i <= |cbs|
        invariant Valid() && oldestTs == old(oldestTs)
        invariant AggState(buckets, written) == AddClientBuckets(cfg, id, hasher, oldestTs, now, q, st0, cbs[..i])
      {
        AddBucket(now, q, cbs[i]);
        AddClientBucketsSnoc(cfg, id, hasher, oldestTs, now, q, st0, cbs[..i], cbs[i]);
        assert cbs[..i + 1] == cbs[..i] + [cbs[i]];
        i := i + 1;
      }
      assert cbs[..i] == cbs;
      if oldestTs <= now && old(NoneBefore()) {
        AddClientBucketsNotBefore(cfg, id, hasher, oldestTs, now, q, st0, cbs);
      }
    }

    /** The bucket at `t`, if any, is written out and deleted. */
    method FlushBucket(t: int)
      requires Valid()
      modifies this
      ensures Valid() && oldestTs == old(oldestTs)
      ensures written == old(written) + (if t in old(buckets) then Emit(id, BucketFlush(cfg, old(buckets)[t])) else [])
      ensures buckets == old(buckets) - {t}
    {
      if t in buckets {
        written := written + Emit(id, BucketFlush(cfg, buckets[t]));
        buckets := buckets - {t};
      }
    }

    /** `flushOnTime`: every bucket on the grid from the oldest open bucket up to the flush time of
        `now` is written out in time order and deleted; the flush time becomes the oldest open
        bucket. */
    method FlushOnTime(now: int)
      requires Valid()
      modifies this
      ensures Valid()
      ensures written == old(written) + Sweep(cfg, id, old(buckets), old(oldestTs), FlushTs(cfg, now))
      ensures buckets == Unswept(cfg, old(buckets), old(oldestTs), FlushTs(cfg, now))
      ensures oldestTs == FlushTs(cfg, now)
      ensures old(NoneBefore()) ==> NoneBefore()
    {
      var b := cfg.BucketDuration;
      var flushTs := FlushTs(cfg, now);
      var t := oldestTs;
      ghost var start := oldestTs;
      ghost var b0 := buckets;
      ghost var w0 := written;
      MultipleMod(b, 0);
      while t < flushTs
        invariant start <= t && (t - start) % b == 0
        invariant t == start || t < flushTs + b
        invariant w0 + Sweep(cfg, id, b0, start, flushTs) == written + Sweep(cfg, id, b0, t, flushTs)
        invariant buckets == Unswept(cfg, b0, start, t)
        invariant Valid() && oldestTs == start
        decreases flushTs - t
      {
        UnsweptStep(cfg, b0, start, t);
        ghost var w := written;
        FlushBucket(t);
        SweepAdvance(cfg, id, b0, t, flushTs, w, written);
        t := t + b;
      }
      UnsweptEnd(cfg, b0, start, t, flushTs);
      if forall k :: k in b0 ==> k >= start {
        UnsweptNotBefore(cfg, b0, start, flushTs);
      }
      oldestTs := flushTs;
    }
  }

  /** Writing the flush of the current grid point advances a sweep by one step. */
  lemma SweepAdvance(
    c: AggregatorConfig, id: AgentIdentity, b: map<int, Bucket>, t: int, stop: int, w: seq<StatsPayload>, w': seq<StatsPayload>)
    requires ValidConfig(c) && t < stop
    requires w' == w + (if t in b then Emit(id, BucketFlush(c, b[t])) else [])
    ensures w + Sweep(c, id, b, t, stop) == w' + Sweep(c, id, b, t + c.BucketDuration, stop)
  {
    var e := if t in b then Emit(id, BucketFlush(c, b[t])) else [];
    var rest := Sweep(c, id, b, t + c.BucketDuration, stop);
    assert Sweep(c, id, b, t, stop) == e + rest;
    assert w + (e + rest) == (w + e) + rest;
  }

  /** One grid step of a sweep removes exactly the bucket at that step. */
  lemma UnsweptStep(c: AggregatorConfig, b: map<int, Bucket>, start: int, t: int)
    requires ValidConfig(c) && start <= t && (t - start) % c.BucketDuration == 0
    ensures (t + c.BucketDuration - start) % c.BucketDuration == 0
    ensures t in Unswept(c, b, start, t) <==> t in b
    ensures t in b ==> Unswept(c, b, start, t)[t] == b[t]
    ensures Unswept(c, b, start, t + c.BucketDuration) == Unswept(c, b, start, t) - {t}
  {
    ModShift(t - start, c.BucketDuration, 1);
    forall k | k in b
      ensures OnGrid(c, k, start, t + c.BucketDuration) <==> OnGrid(c, k, start, t) || k == t
    {
      if t < k < t + c.BucketDuration {
        GridGap(c, k, start, t);
      }
    }
  }

  /** A sweep that stops at the first grid point at or past `stop` leaves what a sweep up to
      `stop` leaves. */
  lemma UnsweptEnd(c: AggregatorConfig, b: map<int, Bucket>, start: int, t: int, stop: int)
    requires ValidConfig(c) && start <= t && (t - start) % c.BucketDuration == 0
    requires stop <= t && (t == start || t < stop + c.BucketDuration)
    ensures Unswept(c, b, start, t) == Unswept(c, b, start, stop)
  {
    forall k | k in b
      ensures OnGrid(c, k, start, t) <==> OnGrid(c, k, start, stop)
    {
      if stop <= k < t && t != start {
        ModShift(t - start, c.BucketDuration, -1);
        assert t - start + c.BucketDuration * -1 == t - c.BucketDuration - start;
        GridGap(c, k, start, t - c.BucketDuration);
      }
    }
  }

  /** The flush times around a bucket at `ts = AlignAgg(t)`: flushing at `t` stops one retention
      window before it, at `t + oldestBucketStart - bucketDuration` exactly at it, and at
      `t + oldestBucketStart` just after it; an aggregator created at or before `t` starts on the
      same grid, before `t`. */
  lemma FlushTimes(c: AggregatorConfig, created: int, t: int)
    requires ValidConfig(c) && created <= t
    ensures var ts := AlignAgg(c, t);
      var f0 := FlushTs(c, created);
      var f1 := FlushTs(c, t);
      f0 < t && f0 <= f1 && (ts - f0) % c.BucketDuration == 0 && (ts - f1) % c.BucketDuration == 0
      && f1 == ts + c.BucketDuration - c.OldestBucketStart && f1 < ts
      && FlushTs(c, t + c.OldestBucketStart - c.BucketDuration) == ts
      && FlushTs(c, t + c.OldestBucketStart) == ts + c.BucketDuration
  {
    var b := c.BucketDuration;
    var o := c.OldestBucketStart;
    RetentionSpansTwoBuckets(c);
    MultipleMod(b, 1);
    DiffMultiple(b, o, b);
    AlignAggShiftBy(c, t, b - o);
    AlignAggShiftBy(c, t, b);
    assert t + o - b + b - o == t;
    AlignAggMono(c, created + b - o, t + b - o);
    var ts := AlignAgg(c, t);
    SameOffsetDiff(c, ts, FlushTs(c, created));
    SameOffsetDiff(c, ts, FlushTs(c, t));
  }

  /** The retention window spans at least two buckets. */
  lemma RetentionSpansTwoBuckets(c: AggregatorConfig)
    requires ValidConfig(c)
    ensures c.OldestBucketStart >= 2 * c.BucketDuration
  {
    var b := c.BucketDuration;
    var n := c.OldestBucketStart / b;
    assert c.OldestBucketStart == b * n;
    if n <= 1 {
      if n <= 0 {
        MulMono(b, 1 - n);
      }
      assert false;
    }
    MulMono(b, n - 1);
    assert b * n == b * (n - 1) + b;
  }

  /** Shifting a time by a multiple of the bucket width shifts its aligned time by the same. */
  lemma AlignAggShiftBy(c: AggregatorConfig, t: int, d: int)
    requires ValidConfig(c) && d % c.BucketDuration == 0
    ensures AlignAgg(c, t + d) == AlignAgg(c, t) + d
  {
    var k := d / c.BucketDuration;
    assert d == c.BucketDuration * k;
    AlignAggShift(c, t, k);
  }

  /** Two times with the same offset on the grid are a whole number of buckets apart. */
  lemma SameOffsetDiff(c: AggregatorConfig, x: int, y: int)
    requires ValidConfig(c) && x % c.BucketDuration == c.AlignOffset && y % c.BucketDuration == c.AlignOffset
    ensures (x - y) % c.BucketDuration == 0
  {
    var b := c.BucketDuration;
    assert x == b * (x / b) + c.AlignOffset;
    assert y == b * (y / b) + c.AlignOffset;
    assert x - y == b * (x / b - y / b);
    MultipleMod(b, x / b - y / b);
  }

  /** A payload of one client bucket starting at `t`, added at `t` after the oldest open bucket,
      becomes, unmoved, the single bucket at the aligned time. */
  lemma AddUnmoved(
    c: AggregatorConfig, id: AgentIdentity, hasher: PeerTagsHasher, oldestTs: int, t: int, q: ClientStatsPayload)
    requires ValidConfig(c) && oldestTs <= t && |q.Stats| == 1 && q.Stats[0].Start == t
    ensures AddClientBuckets(c, id, hasher, oldestTs, t, q, AggState(map[], []), q.Stats)
      == AggState(map[AlignAgg(c, t) := Single(AlignAgg(c, t), q)], [])
  {
    assert q.Stats[..0] == [];
    assert q.(Stats := [q.Stats[0]]) == q;
  }

  /** A payload of one client bucket starting at `t`, added at `t` to an aggregator created at or
      before `t`, is kept unmoved as a single bucket at the aligned time; flushes at `t` and at
      `t + oldestBucketStart - bucketDuration` write nothing, and the flush at
      `t + oldestBucketStart` writes it unchanged and leaves no bucket. */
  lemma FlushTimeScenario(
    c: AggregatorConfig, id: AgentIdentity, hasher: PeerTagsHasher, lookup: ContainerTagsLookup,
    created: int, t: int, p: ClientStatsPayload)
    requires ValidConfig(c) && created <= t && |p.Stats| == 1 && p.Stats[0].Start == t
    ensures var q := SetVersionData(p, lookup);
      var ts := AlignAgg(c, t);
      var f0 := FlushTs(c, created);
      var st := AddClientBuckets(c, id, hasher, f0, t, q, AggState(map[], []), p.Stats);
      var f1 := FlushTs(c, t);
      var f2 := FlushTs(c, t + c.OldestBucketStart - c.BucketDuration);
      var f3 := FlushTs(c, t + c.OldestBucketStart);
      st == AggState(map[ts := Single(ts, q)], [])
      && Sweep(c, id, st.Buckets, f0, f1) == [] && Unswept(c, st.Buckets, f0, f1) == st.Buckets
      && Sweep(c, id, st.Buckets, f1, f2) == [] && Unswept(c, st.Buckets, f1, f2) == st.Buckets
      && Sweep(c, id, st.Buckets, f2, f3) == [StatsPayload(id.Hostname, id.Env, id.Version, true, [q])]
      && Unswept(c, st.Buckets, f2, f3) == map[]
  {
    var q := SetVersionData(p, lookup);
    var ts := AlignAgg(c, t);
    FlushTimes(c, created, t);
    var f0 := FlushTs(c, created);
    var f1 := FlushTs(c, t);
    var f2 := FlushTs(c, t + c.OldestBucketStart - c.BucketDuration);
    var f3 := FlushTs(c, t + c.OldestBucketStart);
    AddUnmoved(c, id, hasher, f0, t, q);
    SweepOneBucket(c, id, ts, Single(ts, q), f0, f1);
    SweepOneBucket(c, id, ts, Single(ts, q), f1, f2);
    MultipleMod(c.BucketDuration, 0);
    assert ts - f2 == 0;
    SweepOneBucket(c, id, ts, Single(ts, q), f2, f3);
  }
}
