/** Rollup of sladu buckets into the next tier (src/sladu/storage/redis/rollup.go).
    Collection markers that are due are read from a granularity's marker set; each
    marked bucket is read, its metric and granularity are recovered from its name,
    and its values are written again at the next coarser tier. */
module Rollup {
  import opened Wrappers
  import opened Decimal
  import opened Bags
  import opened Commands
  import opened Tiers
  import opened TierSets
  import ChronoRedis
  import SladuQuery
  import SladuPersist

  const MAX_MARKERS: int := 4096

  /** What getBucketForMetric (not part of this model) returns for a metric name, a
      granularity in seconds and a timestamp. */
  datatype Address = Address(key: string, bucket: int, offset: int)

  type BucketForMetric = (string, int, int) -> Address

  /** A bucket-key parser; rollupBucket uses ChronoRedis.ParseRedisKey. */
  type KeyParser = string -> Result<ChronoRedis.BucketName, string>

  /** bucketValueTuple. */
  datatype BucketValue = BucketValue(value: real, bucket: int)

  // ---- getGranularities ----

  /** Whether some tier of some set has a granularity of `g` whole seconds. */
  ghost predicate UsedGranularity(sets: seq<TierSet>, g: int)
    requires forall i :: 0 <= i < |sets| ==> null !in sets[i].tiers
    reads sets, set i, k | 0 <= i < |sets| && 0 <= k < |sets[i].tiers| :: sets[i].tiers[k]
  {
    exists i, k :: 0 <= i < |sets| && 0 <= k < |sets[i].tiers| && Seconds(sets[i].tiers[k].granularity) == g
  }

  /** getGranularities: the distinct granularities of all tiers, in map order. */
  method Granularities(sets: seq<TierSet>) returns (out: seq<int>)
    requires forall i :: 0 <= i < |sets| ==> null !in sets[i].tiers
    ensures forall g :: g in out <==> UsedGranularity(sets, g)
    ensures forall i, j :: 0 <= i < j < |out| ==> out[i] != out[j]
  {
    var tmp: set<int> := {};
    for i := 0 to |sets|
      invariant forall g :: g in tmp <==> exists i', k :: 0 <= i' < i && 0 <= k < |sets[i'].tiers| && Seconds(sets[i'].tiers[k].granularity) == g
    {
      var tiers := sets[i].tiers;
      for k := 0 to |tiers|
        invariant forall g :: g in tmp <==>
          (exists i', k' :: 0 <= i' < i && 0 <= k' < |sets[i'].tiers| && Seconds(sets[i'].tiers[k'].granularity) == g) ||
          (exists k' :: 0 <= k' < k && Seconds(tiers[k'].granularity) == g)
      {
        tmp := tmp + {Seconds(tiers[k].granularity)};
      }
    }
    out := Listing(tmp);
  }

  /** `for g := range tmp { out = append(out, g) }`. */
  method Listing(tmp: set<int>) returns (out: seq<int>)
    ensures ListsOnce(out, tmp)
  {
    var remaining := tmp;
    out := [];
    while remaining != {}
      invariant remaining <= tmp
      invariant forall g :: g in tmp ==> (g in out <==> g !in remaining)
      invariant forall g :: g in out ==> g in tmp
      invariant forall i, j :: 0 <= i < j < |out| ==> out[i] != out[j]
      decreases remaining
    {
      NonEmptyInts(remaining);
      var g :| g in remaining;
      out := out + [g];
      remaining := remaining - {g};
    }
  }

  // ---- rollupBucket ----

  /** The single entry created for a target key by the timestamp `ts`. */
  ghost predicate SeededBy(data: map<int, BucketValue>, metrics: map<int, real>, ts: int, a: Address) {
    ts in metrics && data == map[a.offset := BucketValue(metrics[ts], a.bucket)]
  }

  /** The `buckets` map after the loop: every timestamp's target key is present, and
      each key holds the one entry made by the first timestamp that reached it. A
      later timestamp for the same key updates a copy, so it adds neither its value
      nor its offset. */
  ghost predicate Readdressed(buckets: map<string, map<int, BucketValue>>, metrics: map<int, real>,
                              name: string, gs: int, bucketFor: BucketForMetric) {
    && (forall ts :: ts in metrics ==> bucketFor(name, gs, ts).key in buckets)
    && (forall k :: k in buckets ==> exists ts :: bucketFor(name, gs, ts).key == k && SeededBy(buckets[k], metrics, ts, bucketFor(name, gs, ts)))
  }

  /** Every target key holds a single offset, whatever number of timestamps reached it. */
  lemma SingleEntryPerKey(buckets: map<string, map<int, BucketValue>>, metrics: map<int, real>,
                          name: string, gs: int, bucketFor: BucketForMetric, k: string)
    requires Readdressed(buckets, metrics, name, gs, bucketFor) && k in buckets
    ensures |buckets[k]| == 1
    ensures exists ts :: ts in metrics && buckets[k].Values == {BucketValue(metrics[ts], bucketFor(name, gs, ts).bucket)}
  {
    var ts :| bucketFor(name, gs, ts).key == k && SeededBy(buckets[k], metrics, ts, bucketFor(name, gs, ts));
    var a := bucketFor(name, gs, ts);
    assert buckets[k].Keys == {a.offset};
    assert buckets[k].Values == {BucketValue(metrics[ts], a.bucket)};
  }

  /** One iteration of the first loop of rollupBucket. */
  method ReaddressOne(buckets: map<string, map<int, BucketValue>>, metrics: map<int, real>, timestamp: int, a: Address)
    returns (next: map<string, map<int, BucketValue>>)
    requires timestamp in metrics
    ensures next.Keys == buckets.Keys + {a.key}
    ensures forall k :: k in buckets ==> next[k] == buckets[k]
    ensures a.key !in buckets ==> SeededBy(next[a.key], metrics, timestamp, a)
  {
    next := buckets;
    if a.key in next {
      // The tuple is a copy: adding the measurement to it leaves the map unchanged.
      var bucketData := if a.offset in next[a.key] then next[a.key][a.offset] else BucketValue(0.0, 0);
      bucketData := bucketData.(value := bucketData.value + metrics[timestamp]);
    } else {
      next := next[a.key := map[a.offset := BucketValue(metrics[timestamp], a.bucket)]];
    }
  }

  /** The first loop of rollupBucket. */
  method Readdress(metrics: map<int, real>, name: string, gs: int, bucketFor: BucketForMetric)
    returns (buckets: map<string, map<int, BucketValue>>)
    ensures Readdressed(buckets, metrics, name, gs, bucketFor)
  {
    buckets := map[];
    var remaining := metrics.Keys;
    while remaining != {}
      invariant remaining <= metrics.Keys
      invariant forall ts :: ts in metrics && ts !in remaining ==> bucketFor(name, gs, ts).key in buckets
      invariant forall k :: k in buckets ==> exists ts :: bucketFor(name, gs, ts).key == k && SeededBy(buckets[k], metrics, ts, bucketFor(name, gs, ts))
      decreases remaining
    {
      NonEmptyInts(remaining);
      var timestamp :| timestamp in remaining;
      buckets := ReaddressOne(buckets, metrics, timestamp, bucketFor(name, gs, timestamp));
      remaining := remaining - {timestamp};
    }
  }

  /** The three commands for one (key, offset) entry, at the next tier. */
  function OffsetCommands(key: string, offset: int, v: BucketValue, next: TierView): (cmds: seq<Command>)
    ensures |cmds| == 3 && cmds[0].ZIncrBy? && cmds[1].ZAdd? && cmds[2].Expire?
  {
    [ ZIncrBy(key, v.value, FormatInt(offset)),
      ZAdd(ChronoRedis.GcKey(Seconds(next.granularity)), v.bucket as real + next.collectOffset, key),
      Expire(key, next.ttl) ]
  }

  /** The commands for the entries of one key, taken in the order `offs`. */
  function KeyCommands(key: string, offs: seq<int>, data: map<int, BucketValue>, next: TierView): (cmds: seq<Command>)
    requires forall o :: o in offs ==> o in data
    ensures |cmds| == 3 * |offs|
  {
    if offs == [] then []
    else
      var last := offs[|offs| - 1];
      KeyCommands(key, offs[..|offs| - 1], data, next) + OffsetCommands(key, last, data[last], next)
  }

  /** `keys` and `offs` list the whole buckets map once, in some iteration order. */
  predicate Enumerates(keys: seq<string>, offs: seq<seq<int>>, buckets: map<string, map<int, BucketValue>>) {
    && |keys| == |offs|
    && ListsOnce(keys, buckets.Keys)
    && (forall i :: 0 <= i < |keys| ==> ListsOnce(offs[i], buckets[keys[i]].Keys))
  }

  /** The commands for all keys, in the order `keys`. */
  function EmitCommands(keys: seq<string>, offs: seq<seq<int>>, buckets: map<string, map<int, BucketValue>>, next: TierView): seq<Command>
    requires |keys| == |offs|
    requires forall i :: 0 <= i < |keys| ==> keys[i] in buckets && forall o :: o in offs[i] ==> o in buckets[keys[i]]
  {
    if keys == [] then []
    else
      var n := |keys| - 1;
      EmitCommands(keys[..n], offs[..n], buckets, next) + KeyCommands(keys[n], offs[n], buckets[keys[n]], next)
  }

  /** Dropping the last key from an enumeration enumerates the map without it. */
  lemma EnumeratesInit(keys: seq<string>, offs: seq<seq<int>>, buckets: map<string, map<int, BucketValue>>)
    requires Enumerates(keys, offs, buckets) && keys != []
    ensures Enumerates(keys[..|keys| - 1], offs[..|offs| - 1], buckets - {keys[|keys| - 1]})
  {
    var n := |keys| - 1;
    assert keys[n] !in keys[..n];
    assert ListsOnce(keys[..n], buckets.Keys - {keys[n]});
    assert (buckets - {keys[n]}).Keys == buckets.Keys - {keys[n]};
  }

  /** With one entry per key, rollupBucket queues three commands per target key. */
  lemma {:induction false} EmitCount(keys: seq<string>, offs: seq<seq<int>>, buckets: map<string, map<int, BucketValue>>, next: TierView)
    requires Enumerates(keys, offs, buckets)
    requires forall k :: k in buckets ==> |buckets[k]| == 1
    ensures |EmitCommands(keys, offs, buckets, next)| == 3 * |keys|
    decreases |keys|
  {
    if keys != [] {
      var n := |keys| - 1;
      ListsOnceSize(offs[n], buckets[keys[n]].Keys);
      var rest := buckets - {keys[n]};
      EnumeratesInit(keys, offs, buckets);
      EmitCount(keys[..n], offs[..n], rest, next);
      EmitSameMap(keys[..n], offs[..n], rest, buckets, next);
    }
  }

  lemma {:induction false} EmitSameMap(keys: seq<string>, offs: seq<seq<int>>, small: map<string, map<int, BucketValue>>,
                                       big: map<string, map<int, BucketValue>>, next: TierView)
    requires |keys| == |offs|
    requires forall i :: 0 <= i < |keys| ==> keys[i] in small && forall o :: o in offs[i] ==> o in small[keys[i]]
    requires forall k :: k in small ==> k in big && big[k] == small[k]
    ensures EmitCommands(keys, offs, small, next) == EmitCommands(keys, offs, big, next)
    decreases |keys|
  {
    if keys != [] {
      EmitSameMap(keys[..|keys| - 1], offs[..|offs| - 1], small, big, next);
    }
  }

  /** The three commands of one inner iteration. */
  method QueueOffset(p: Pipeline, key: string, offset: int, v: BucketValue, next: TierView)
    modifies p
    ensures p.queued == old(p.queued) + OffsetCommands(key, offset, v, next)
    ensures p.executed == old(p.executed)
  {
    p.Queue(ZIncrBy(key, v.value, FormatInt(offset)));
    p.Queue(ZAdd(ChronoRedis.GcKey(Seconds(next.granularity)), v.bucket as real + next.collectOffset, key));
    p.Queue(Expire(key, next.ttl));
  }

  /** Taking one more offset extends a key's commands by that offset's three. */
  lemma KeyStep(key: string, offs: seq<int>, o: int, data: map<int, BucketValue>, next: TierView, queued: seq<Command>)
    requires forall o' :: o' in offs ==> o' in data
    requires o in data
    ensures queued + KeyCommands(key, offs + [o], data, next)
         == queued + KeyCommands(key, offs, data, next) + OffsetCommands(key, o, data[o], next)
  {
    assert (offs + [o])[..|offs|] == offs;
    var before, own := KeyCommands(key, offs, data, next), OffsetCommands(key, o, data[o], next);
    assert KeyCommands(key, offs + [o], data, next) == before + own;
    assert queued + (before + own) == queued + before + own;
  }

  /** The inner loop of the second loop of rollupBucket. */
  method EmitKey(p: Pipeline, key: string, data: map<int, BucketValue>, next: TierView) returns (ghost offs: seq<int>)
    modifies p
    ensures ListsOnce(offs, data.Keys)
    ensures p.queued == old(p.queued) + KeyCommands(key, offs, data, next)
    ensures p.executed == old(p.executed)
  {
    offs := [];
    var remaining := data.Keys;
    while remaining != {}
      invariant remaining <= data.Keys
      invariant forall o :: o in data ==> (o in offs <==> o !in remaining)
      invariant forall o :: o in offs ==> o in data
      invariant forall i, j :: 0 <= i < j < |offs| ==> offs[i] != offs[j]
      invariant p.queued == old(p.queued) + KeyCommands(key, offs, data, next)
      invariant p.executed == old(p.executed)
      decreases remaining
    {
      NonEmptyInts(remaining);
      var offset :| offset in remaining;
      QueueOffset(p, key, offset, data[offset], next);
      KeyStep(key, offs, offset, data, next, old(p.queued));
      offs := offs + [offset];
      remaining := remaining - {offset};
    }
  }

  /** Part way through the second loop of rollupBucket: the keys taken so far, each
      with the listing of its offsets, and the keys still to come. */
  ghost predicate EmittedSoFar(keys: seq<string>, offs: seq<seq<int>>, buckets: map<string, map<int, BucketValue>>,
                               remaining: set<string>) {
    && remaining <= buckets.Keys
    && (forall k :: k in buckets ==> (k in keys <==> k !in remaining))
    && (forall k :: k in keys ==> k in buckets)
    && (forall i, j :: 0 <= i < j < |keys| ==> keys[i] != keys[j])
    && |keys| == |offs|
    && (forall i :: 0 <= i < |keys| ==> ListsOnce(offs[i], buckets[keys[i]].Keys))
  }

  /** Taking one more key keeps the enumeration so far. */
  lemma EmittedStep(keys: seq<string>, offs: seq<seq<int>>, buckets: map<string, map<int, BucketValue>>,
                    remaining: set<string>, k: string, o: seq<int>)
    requires EmittedSoFar(keys, offs, buckets, remaining)
    requires k in remaining && ListsOnce(o, buckets[k].Keys)
    ensures EmittedSoFar(keys + [k], offs + [o], buckets, remaining - {k})
  {
  }

  /** Taking one more key extends the commands by that key's commands. */
  lemma EmitStep(keys: seq<string>, offs: seq<seq<int>>, buckets: map<string, map<int, BucketValue>>,
                 k: string, o: seq<int>, next: TierView, queued: seq<Command>)
    requires |keys| == |offs|
    requires forall i :: 0 <= i < |keys| ==> keys[i] in buckets && forall o' :: o' in offs[i] ==> o' in buckets[keys[i]]
    requires k in buckets && forall o' :: o' in o ==> o' in buckets[k]
    ensures queued + EmitCommands(keys + [k], offs + [o], buckets, next)
         == queued + EmitCommands(keys, offs, buckets, next) + KeyCommands(k, o, buckets[k], next)
  {
    assert (keys + [k])[..|keys|] == keys;
    assert (offs + [o])[..|offs|] == offs;
    var before, own := EmitCommands(keys, offs, buckets, next), KeyCommands(k, o, buckets[k], next);
    assert EmitCommands(keys + [k], offs + [o], buckets, next) == before + own;
    assert queued + (before + own) == queued + before + own;
  }

  /** The second loop of rollupBucket. */
  method EmitAll(p: Pipeline, buckets: map<string, map<int, BucketValue>>, next: TierView)
    returns (ghost keys: seq<string>, ghost offs: seq<seq<int>>)
    modifies p
    ensures Enumerates(keys, offs, buckets)
    ensures p.queued == old(p.queued) + EmitCommands(keys, offs, buckets, next)
    ensures p.executed == old(p.executed)
  {
    keys, offs := [], [];
    var remaining := buckets.Keys;
    while remaining != {}
      invariant EmittedSoFar(keys, offs, buckets, remaining)
      invariant p.queued == old(p.queued) + EmitCommands(keys, offs, buckets, next)
      invariant p.executed == old(p.executed)
      decreases remaining
    {
      var redisKey :| redisKey in remaining;
      var o := EmitKey(p, redisKey, buckets[redisKey], next);
      EmittedStep(keys, offs, buckets, remaining, redisKey, o);
      EmitStep(keys, offs, buckets, redisKey, o, next, old(p.queued));
      keys, offs := keys + [redisKey], offs + [o];
      remaining := remaining - {redisKey};
    }
  }

  // ---- rollupBucket ----

  /** Where rollupBucket sends a bucket: its timestamp→value map, its metric name and
      the tier after its own. */
  datatype Route = Route(metrics: map<int, real>, metric: string, next: TierView)

  /** The route of the bucket named `marker`, or none when the bucket cannot be read,
      its name does not parse or no tier follows its granularity. */
  ghost function RouteOf(marker: string, read: SortedSets, parse: KeyParser, sets: seq<ChronoRedis.SetView>,
                         matches: ChronoRedis.Matcher): Option<Route> {
    if read(marker).Err? then None
    else match parse(marker)
      case Err(_) => None
      case Ok(n) =>
        match ChronoRedis.NextTierSpec(sets, n.metric, n.granularity, matches, 0)
        case None => None
        case Some(next) => Some(Route(SladuQuery.PairsMap(read(marker).value, |read(marker).value|), n.metric, next))
  }

  /** The two loops of rollupBucket as they ran: the buckets map built by the first
      and the order in which the second visited its keys and offsets. */
  datatype Emission = Emission(buckets: map<string, map<int, BucketValue>>, keys: seq<string>, offs: seq<seq<int>>)

  /** What rollupBucket queues for the bucket named `marker`, given how its loops ran:
      nothing without a route; otherwise the commands for the readdressed buckets. */
  ghost predicate RolledUp(e: Emission, cmds: seq<Command>, marker: string, read: SortedSets, parse: KeyParser,
                           sets: seq<ChronoRedis.SetView>, matches: ChronoRedis.Matcher, bucketFor: BucketForMetric)
  {
    match RouteOf(marker, read, parse, sets, matches)
    case None => cmds == []
    case Some(r) =>
      && Readdressed(e.buckets, r.metrics, r.metric, Seconds(r.next.granularity), bucketFor)
      && Enumerates(e.keys, e.offs, e.buckets)
      && cmds == EmitCommands(e.keys, e.offs, e.buckets, r.next)
  }

  /** The first half of rollupBucket: read the bucket, parse its name and find the
      tier after its own; `ok` is false exactly when the bucket has no route. */
  method FindRoute(read: SortedSets, parse: KeyParser, sets: seq<TierSet>, ghost snap: seq<ChronoRedis.SetView>,
                   matches: ChronoRedis.Matcher, bucketName: string)
    returns (ok: bool, metrics: map<int, real>, metric: string, next: Tier?)
    requires ChronoRedis.Resolved(sets) && snap == ChronoRedis.Snapshot(sets, 0)
    ensures !ok <==> RouteOf(bucketName, read, parse, snap, matches).None?
    ensures ok ==> next != null
                   && RouteOf(bucketName, read, parse, snap, matches) == Some(Route(metrics, metric, next.View()))
  {
    var parsed: ChronoRedis.BucketName;
    ok, metrics, parsed := ReadBucket(read, parse, bucketName);
    metric, next := parsed.metric, null;
    if !ok {
      RouteOfUnroutable(bucketName, read, parse, snap, matches);
      return;
    }
    next := ChronoRedis.NextTier(sets, snap, parsed.metric, parsed.granularity, matches);
    ok := next != null;
    ghost var spec := if ok then Some(next.View()) else None;
    RouteOfParsed(bucketName, read, parse, snap, matches, parsed, metrics, spec);
  }

  /** Reading the bucket and parsing its name, the steps of rollupBucket before the
      tier lookup; `ok` is false when either fails. */
  method ReadBucket(read: SortedSets, parse: KeyParser, bucketName: string)
    returns (ok: bool, metrics: map<int, real>, parsed: ChronoRedis.BucketName)
    ensures ok <==> read(bucketName).Ok? && parse(bucketName).Ok?
    ensures ok ==> metrics == SladuQuery.PairsMap(read(bucketName).value, |read(bucketName).value|)
                   && parse(bucketName) == Ok(parsed)
  {
    ok, parsed := false, ChronoRedis.BucketName("", 0, 0);
    var err;
    metrics, err := SladuQuery.QueryBucket(read, bucketName);
    if err.Some? {
      return;
    }
    var r := parse(bucketName);
    if r.Err? {
      return;
    }
    ok, parsed := true, r.value;
  }

  lemma RouteOfUnroutable(marker: string, read: SortedSets, parse: KeyParser, sets: seq<ChronoRedis.SetView>, matches: ChronoRedis.Matcher)
    requires read(marker).Err? || parse(marker).Err?
    ensures RouteOf(marker, read, parse, sets, matches) == None
  {
  }

  lemma RouteOfParsed(marker: string, read: SortedSets, parse: KeyParser, sets: seq<ChronoRedis.SetView>, matches: ChronoRedis.Matcher,
                      n: ChronoRedis.BucketName, metrics: map<int, real>, spec: Option<TierView>)
    requires read(marker).Ok? && parse(marker) == Ok(n)
    requires metrics == SladuQuery.PairsMap(read(marker).value, |read(marker).value|)
    requires spec == ChronoRedis.NextTierSpec(sets, n.metric, n.granularity, matches, 0)
    ensures spec.None? ==> RouteOf(marker, read, parse, sets, matches) == None
    ensures spec.Some? ==> RouteOf(marker, read, parse, sets, matches) == Some(Route(metrics, n.metric, spec.value))
  {
  }

  /** The second half of rollupBucket: readdress every timestamp at the next tier's
      granularity and queue three commands per resulting bucket. */
  method Forward(p: Pipeline, metrics: map<int, real>, metric: string, view: TierView, bucketFor: BucketForMetric)
    returns (ghost e: Emission, ghost cmds: seq<Command>)
    modifies p
    ensures p.queued == old(p.queued) + cmds
    ensures p.executed == old(p.executed)
    ensures Readdressed(e.buckets, metrics, metric, Seconds(view.granularity), bucketFor)
    ensures Enumerates(e.keys, e.offs, e.buckets)
    ensures cmds == EmitCommands(e.keys, e.offs, e.buckets, view)
  {
    var buckets := Readdress(metrics, metric, Seconds(view.granularity), bucketFor);
    ghost var keys, offs := EmitAll(p, buckets, view);
    e, cmds := Emission(buckets, keys, offs), EmitCommands(keys, offs, buckets, view);
  }

  /** rollupBucket: read the bucket, find the next tier, readdress every timestamp at
      that tier's granularity and queue three commands per entry. */
  method RollupBucket(p: Pipeline, read: SortedSets, sets: seq<TierSet>, ghost snap: seq<ChronoRedis.SetView>,
                      matches: ChronoRedis.Matcher, bucketFor: BucketForMetric, bucketName: string)
    returns (ghost e: Emission, ghost cmds: seq<Command>)
    requires ChronoRedis.Resolved(sets) && snap == ChronoRedis.Snapshot(sets, 0)
    modifies p
    ensures p.queued == old(p.queued) + cmds
    ensures p.executed == old(p.executed)
    ensures RolledUp(e, cmds, bucketName, read, ChronoRedis.ParseRedisKey, snap, matches, bucketFor)
  {
    e, cmds := Emission(map[], [], []), [];
    var ok, metrics, metric, next := FindRoute(read, ChronoRedis.ParseRedisKey, sets, snap, matches, bucketName);
    if !ok {
      return;
    }
    e, cmds := Forward(p, metrics, metric, next.View(), bucketFor);
  }

  /** The sladu buckets are named "sladu-1-{metric-…}-…", which the chronodium key
      parser never accepts: they have no route, so rolling one up queues nothing. */
  lemma SladuBucketHasNoRoute(key: string, skewed: int, gs: int, read: SortedSets,
                              sets: seq<ChronoRedis.SetView>, matches: ChronoRedis.Matcher)
    ensures RouteOf(SladuPersist.BucketKey(key, skewed, gs), read, ChronoRedis.ParseRedisKey, sets, matches) == None
  {
    SladuPersist.BucketKeyPrefix(key, skewed, gs);
    ChronoRedis.ForeignPrefixNeverParses(SladuPersist.BucketKey(key, skewed, gs));
  }

  /** The distinct keys the timestamps of a bucket are readdressed to. */
  ghost function TargetKeys(metrics: map<int, real>, name: string, gs: int, bucketFor: BucketForMetric): set<string> {
    set ts | ts in metrics :: bucketFor(name, gs, ts).key
  }

  /** With a route, rollupBucket queues three commands per distinct target key,
      however many timestamps reach each key. */
  lemma RolledUpCount(e: Emission, cmds: seq<Command>, marker: string, read: SortedSets, parse: KeyParser,
                      sets: seq<ChronoRedis.SetView>, matches: ChronoRedis.Matcher, bucketFor: BucketForMetric, r: Route)
    requires RolledUp(e, cmds, marker, read, parse, sets, matches, bucketFor)
    requires RouteOf(marker, read, parse, sets, matches) == Some(r)
    ensures |cmds| == 3 * |TargetKeys(r.metrics, r.metric, Seconds(r.next.granularity), bucketFor)|
  {
    var gs := Seconds(r.next.granularity);
    forall k | k in e.buckets
      ensures |e.buckets[k]| == 1
    {
      SingleEntryPerKey(e.buckets, r.metrics, r.metric, gs, bucketFor, k);
    }
    EmitCount(e.keys, e.offs, e.buckets, r.next);
    ListsOnceSize(e.keys, e.buckets.Keys);
    assert e.buckets.Keys == TargetKeys(r.metrics, r.metric, gs, bucketFor);
  }

  // ---- rollupGranularity ----

  /** The sorted-set elements with a score of at most `now`, in order: the
      `-inf`..now range of ZRangeByScore. */
  function Due(zs: seq<Z>, now: int): (r: seq<Z>)
    ensures forall z :: z in r <==> z in zs && z.score <= now as real
    ensures |r| <= |zs|
  {
    if zs == [] then []
    else
      var rest := Due(zs[..|zs| - 1], now);
      var last := zs[|zs| - 1];
      assert zs == zs[..|zs| - 1] + [last];
      if last.score <= now as real then rest + [last] else rest
  }

  /** The markers rollupGranularity processes: the first MAX_MARKERS due members, or
      none when the read fails. */
  function Markers(ret: Result<seq<Z>, string>, now: int): (ms: seq<string>)
    ensures ret.Err? ==> ms == []
    ensures ret.Ok? ==> |ms| == if |Due(ret.value, now)| < MAX_MARKERS then |Due(ret.value, now)| else MAX_MARKERS
    ensures ret.Ok? ==> forall i :: 0 <= i < |ms| ==> ms[i] == Due(ret.value, now)[i].member
  {
    if ret.Err? then []
    else
      var due := Due(ret.value, now);
      var n := if |due| < MAX_MARKERS then |due| else MAX_MARKERS;
      seq(n, i requires 0 <= i < n => due[i].member)
  }

  /** The commands of the markers loop: each marker's rollup commands followed by
      the ZRem of that marker. */
  function Interleave(chunks: seq<seq<Command>>, ms: seq<string>, gcKey: string): (cmds: seq<Command>)
    requires |chunks| == |ms|
  {
    if ms == [] then []
    else
      var n := |ms| - 1;
      Interleave(chunks[..n], ms[..n], gcKey) + chunks[n] + [ZRem(gcKey, ms[n])]
  }

  /** Every marker gets its ZRem, once per position, whatever its rollup queued. */
  lemma {:induction false} InterleaveRemovesAll(chunks: seq<seq<Command>>, ms: seq<string>, gcKey: string)
    requires |chunks| == |ms|
    ensures forall i :: 0 <= i < |ms| ==> ZRem(gcKey, ms[i]) in Interleave(chunks, ms, gcKey)
    ensures |Interleave(chunks, ms, gcKey)| >= |ms|
    decreases |ms|
  {
    if ms != [] {
      var n := |ms| - 1;
      var before := Interleave(chunks[..n], ms[..n], gcKey);
      var all := Interleave(chunks, ms, gcKey);
      assert all == before + chunks[n] + [ZRem(gcKey, ms[n])];
      InterleaveRemovesAll(chunks[..n], ms[..n], gcKey);
      forall i | 0 <= i < |ms|
        ensures ZRem(gcKey, ms[i]) in all
      {
        if i < n {
          assert ms[..n][i] == ms[i];
          assert ZRem(gcKey, ms[i]) in before;
        } else {
          assert all[|all| - 1] == ZRem(gcKey, ms[n]);
        }
      }
    }
  }

  /** One more marker extends the loop's commands by its rollup and its ZRem. */
  lemma InterleaveStep(chunks: seq<seq<Command>>, ms: seq<string>, i: nat, c: seq<Command>, gcKey: string, queued: seq<Command>)
    requires |chunks| == i < |ms|
    ensures queued + Interleave(chunks + [c], ms[..i + 1], gcKey)
         == queued + Interleave(chunks, ms[..i], gcKey) + c + [ZRem(gcKey, ms[i])]
  {
    assert (chunks + [c])[..i] == chunks && ms[..i + 1][..i] == ms[..i];
    var before := Interleave(chunks, ms[..i], gcKey);
    assert Interleave(chunks + [c], ms[..i + 1], gcKey) == before + c + [ZRem(gcKey, ms[i])];
    assert queued + (before + c + [ZRem(gcKey, ms[i])]) == queued + before + c + [ZRem(gcKey, ms[i])];
  }

  /** The rollups of the first |ms| markers. */
  ghost predicate AllRolledUp(es: seq<Emission>, chunks: seq<seq<Command>>, ms: seq<string>, read: SortedSets, parse: KeyParser,
                              sets: seq<ChronoRedis.SetView>, matches: ChronoRedis.Matcher, bucketFor: BucketForMetric)
    decreases |ms|
  {
    && |es| == |chunks| == |ms|
    && (ms != [] ==>
         var n := |ms| - 1;
         AllRolledUp(es[..n], chunks[..n], ms[..n], read, parse, sets, matches, bucketFor)
         && RolledUp(es[n], chunks[n], ms[n], read, parse, sets, matches, bucketFor))
  }

  /** Each marker's chunk is its rollup. */
  lemma {:induction false} AllRolledUpAt(es: seq<Emission>, chunks: seq<seq<Command>>, ms: seq<string>, read: SortedSets,
                                         parse: KeyParser, sets: seq<ChronoRedis.SetView>, matches: ChronoRedis.Matcher,
                                         bucketFor: BucketForMetric, j: nat)
    requires AllRolledUp(es, chunks, ms, read, parse, sets, matches, bucketFor) && j < |ms|
    ensures RolledUp(es[j], chunks[j], ms[j], read, parse, sets, matches, bucketFor)
    decreases |ms|
  {
    var n := |ms| - 1;
    if j < n {
      AllRolledUpAt(es[..n], chunks[..n], ms[..n], read, parse, sets, matches, bucketFor, j);
      assert es[..n][j] == es[j] && chunks[..n][j] == chunks[j] && ms[..n][j] == ms[j];
    }
  }

  lemma AllRolledUpStep(es: seq<Emission>, chunks: seq<seq<Command>>, ms: seq<string>, i: nat, read: SortedSets,
                        parse: KeyParser, sets: seq<ChronoRedis.SetView>, matches: ChronoRedis.Matcher,
                        bucketFor: BucketForMetric, e: Emission, c: seq<Command>)
    requires i < |ms| && AllRolledUp(es, chunks, ms[..i], read, parse, sets, matches, bucketFor)
    requires RolledUp(e, c, ms[i], read, parse, sets, matches, bucketFor)
    ensures AllRolledUp(es + [e], chunks + [c], ms[..i + 1], read, parse, sets, matches, bucketFor)
  {
    assert (es + [e])[..i] == es && (chunks + [c])[..i] == chunks && ms[..i + 1][..i] == ms[..i];
  }

  /** One iteration of the markers loop. */
  method RollupMarker(p: Pipeline, read: SortedSets, sets: seq<TierSet>, ghost snap: seq<ChronoRedis.SetView>,
                      ghost parse: KeyParser, matches: ChronoRedis.Matcher, bucketFor: BucketForMetric,
                      gcKey: string, marker: string)
    returns (ghost e: Emission, ghost cmds: seq<Command>)
    requires ChronoRedis.Resolved(sets) && snap == ChronoRedis.Snapshot(sets, 0)
    requires parse == ChronoRedis.ParseRedisKey
    modifies p
    ensures p.queued == old(p.queued) + cmds + [ZRem(gcKey, marker)]
    ensures p.executed == old(p.executed)
    ensures RolledUp(e, cmds, marker, read, parse, snap, matches, bucketFor)
  {
    e, cmds := RollupBucket(p, read, sets, snap, matches, bucketFor, marker);
    p.Queue(ZRem(gcKey, marker));
  }

  /** The markers loop of rollupGranularity. */
  method RollupMarkers(p: Pipeline, read: SortedSets, sets: seq<TierSet>, ghost snap: seq<ChronoRedis.SetView>,
                       ghost parse: KeyParser, matches: ChronoRedis.Matcher, bucketFor: BucketForMetric,
                       gcKey: string, ms: seq<string>)
    returns (ghost es: seq<Emission>, ghost chunks: seq<seq<Command>>)
    requires ChronoRedis.Resolved(sets) && snap == ChronoRedis.Snapshot(sets, 0)
    requires parse == ChronoRedis.ParseRedisKey
    modifies p
    ensures |chunks| == |ms|
    ensures p.queued == old(p.queued) + Interleave(chunks, ms, gcKey)
    ensures p.executed == old(p.executed)
    ensures AllRolledUp(es, chunks, ms, read, parse, snap, matches, bucketFor)
  {
    es, chunks := [], [];
    ghost var queued := p.queued;
    for i := 0 to |ms|
      invariant |chunks| == i
      invariant p.queued == queued + Interleave(chunks, ms[..i], gcKey)
      invariant p.executed == old(p.executed)
      invariant AllRolledUp(es, chunks, ms[..i], read, parse, snap, matches, bucketFor)
    {
      var e, cmds := RollupMarker(p, read, sets, snap, parse, matches, bucketFor, gcKey, ms[i]);
      InterleaveStep(chunks, ms, i, cmds, gcKey, queued);
      AllRolledUpStep(es, chunks, ms, i, read, parse, snap, matches, bucketFor, e, cmds);
      es, chunks := es + [e], chunks + [cmds];
    }
    assert ms[..|ms|] == ms;
  }

  /** rollupGranularity: roll up every due marker of the granularity's collection
      set, remove each marker, execute the pipeline once and report the number of
      markers. */
  method RollupGranularity(p: Pipeline, read: SortedSets, sets: seq<TierSet>, matches: ChronoRedis.Matcher,
                           bucketFor: BucketForMetric, granularity: int, now: int)
    returns (amount: int, ghost ms: seq<string>, ghost es: seq<Emission>, ghost chunks: seq<seq<Command>>)
    requires ChronoRedis.Resolved(sets)
    modifies p
    ensures ms == Markers(read(ChronoRedis.GcKey(granularity)), now)
    ensures amount == |ms| && amount <= MAX_MARKERS
    ensures |chunks| == |ms|
    ensures p.executed == old(p.executed) + [old(p.queued) + Interleave(chunks, ms, ChronoRedis.GcKey(granularity))]
    ensures p.queued == []
    ensures AllRolledUp(es, chunks, ms, read, ChronoRedis.ParseRedisKey, old(ChronoRedis.Snapshot(sets, 0)), matches, bucketFor)
  {
    var gcKey := ChronoRedis.GcKey(granularity);
    var ret := read(gcKey);
    var markers := Markers(ret, now);
    ghost var snap := ChronoRedis.Snapshot(sets, 0);
    es, chunks := RollupMarkers(p, read, sets, snap, ChronoRedis.ParseRedisKey, matches, bucketFor, gcKey, markers);
    p.Exec();
    ms := markers;
    amount := |markers|;
  }
}
