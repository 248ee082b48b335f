/** The sladu tiered writer (src/sladu/storage/redis/persist.go). A measurement is
    written once per tier: a bucket holds VALUES_PER_BUCKET slots of one tier
    granularity each; the bucket key is skewed by the key's hash so that buckets of
    different metrics do not all start at the same instant, and a marker in a
    per-granularity collection set records when the bucket is due for rollup. */
module SladuPersist {
  import opened Wrappers
  import opened GoInt
  import opened Decimal
  import opened Tiers
  import opened Commands

  const SCHEMA_VERSION: int := 1

  /** A sladu measurement: a key, a value and a time in Unix seconds. */
  datatype Metric = Metric(key: string, value: real, unix: int)

  /** murmur3.Sum32 over the bytes of a string. */
  type Hasher = string -> Uint32

  /** `int(g.Seconds())`: the tier's granularity in whole seconds, truncated toward
      zero, as the bucket width, the key and the marker set use it. */
  function TierSeconds(t: TierView): int {
    Seconds(t.granularity)
  }

  /** A tier shorter than a second, in either direction: `128 * int64(g.Seconds())` is
      0, and the remainder by it panics. */
  predicate SubSecond(t: TierView) {
    TierSeconds(t) == 0
  }

  /** `t % (128 * int64(g.Seconds()))` with Go's remainder, for a granularity of g
      nanoseconds. */
  function BucketOffset(t: int, g: int): int
    requires Seconds(g) != 0
  {
    Rem(t, VALUES_PER_BUCKET * Seconds(g))
  }

  function Bucket(t: int, g: int): int
    requires Seconds(g) != 0
  {
    t - BucketOffset(t, g)
  }

  /** `int(float64(offset) / g.Seconds())`: the offset divided by the granularity in
      seconds and truncated toward zero, which with g in nanoseconds is Go's integer
      quotient of offset·10^9 by g. */
  function Slot(t: int, g: int): int
    requires Seconds(g) != 0
  {
    Quot(BucketOffset(t, g) * SECOND, g)
  }

  function BucketKey(key: string, skewed: int, gs: int): string {
    "sladu-" + FormatInt(SCHEMA_VERSION) + "-{metric-" + key + "}-" + FormatInt(skewed) + "-" + FormatInt(gs)
  }

  /** Every bucket key starts with "sladu-1-{me". */
  lemma BucketKeyPrefix(key: string, skewed: int, gs: int)
    ensures |BucketKey(key, skewed, gs)| >= 11 && BucketKey(key, skewed, gs)[..11] == "sladu-1-{me"
  {
    var k0 := "sladu-" + FormatInt(SCHEMA_VERSION) + "-{metric-";
    assert k0 == "sladu-1-{metric-";
    var k1 := k0 + key;
    var k2 := k1 + "}-";
    var k3 := k2 + FormatInt(skewed);
    var k4 := k3 + "-";
    assert k1[..11] == k0[..11];
    assert k2[..11] == k1[..11];
    assert k3[..11] == k2[..11];
    assert k4[..11] == k3[..11];
    assert (k4 + FormatInt(gs))[..11] == k4[..11];
  }

  function GcKey(gs: int): string {
    "sladu-" + FormatInt(SCHEMA_VERSION) + "-gc-" + FormatInt(gs)
  }

  /** The three commands persistMetricInTier queues for one tier, or None when its
      remainder by zero panics before it queues anything. */
  function TierCommands(m: Metric, t: TierView, sum32: Hasher): (r: Option<seq<Command>>)
    ensures r.None? <==> SubSecond(t)
    ensures r.Some? ==> var cmds := r.value;
      && |cmds| == 3 && cmds[0].ZIncrBy? && cmds[1].ZAdd?
      && cmds[1].member == cmds[0].key && cmds[2] == Expire(cmds[0].key, t.ttl)
  {
    if SubSecond(t) then None
    else
      var g := t.granularity;
      var key := BucketKey(m.key, Bucket(m.unix, g) - Skew(sum32(m.key)), TierSeconds(t));
      Some([ ZIncrBy(key, m.value, FormatInt(Slot(m.unix, g))),
             ZAdd(GcKey(TierSeconds(t)), Bucket(m.unix, g) as real + t.collectOffset, key),
             Expire(key, t.ttl) ])
  }

  /** What each tier's goroutine has to queue: its three commands, or nothing for a
      tier whose goroutine panics. */
  function TriplesOf(m: Metric, tiers: seq<TierView>, sum32: Hasher): (parts: seq<seq<Command>>)
    ensures |parts| == |tiers|
    ensures forall i :: 0 <= i < |tiers| ==>
      parts[i] == if SubSecond(tiers[i]) then [] else TierCommands(m, tiers[i], sum32).value
  {
    seq(|tiers|, i requires 0 <= i < |tiers| =>
      if SubSecond(tiers[i]) then [] else TierCommands(m, tiers[i], sum32).value)
  }

  /** Every goroutine at its first command. */
  function Zeros(n: nat): (pos: seq<nat>)
    ensures |pos| == n && forall g :: 0 <= g < n ==> pos[g] == 0
  {
    seq(n, _ => 0)
  }

  /** The number of steps a schedule gives goroutine `g`. */
  function Steps(sched: seq<nat>, g: nat): nat {
    if sched == [] then 0 else (if sched[0] == g then 1 else 0) + Steps(sched[1..], g)
  }

  /** `sched` is an order in which the goroutines of n tiers run: every step names one
      of them, and each has one step for each of the three commands it would queue. */
  predicate Runs(n: nat, sched: seq<nat>) {
    && (forall k :: 0 <= k < |sched| ==> sched[k] < n)
    && (forall g :: 0 <= g < n ==> Steps(sched, g) == 3)
  }

  /** `sched` can run goroutines that each queue the commands of one part: every step
      names a goroutine that still has a command of parts[g] from position pos[g] on. */
  predicate Fits<T>(parts: seq<seq<T>>, pos: seq<nat>, sched: seq<nat>) {
    && |pos| == |parts|
    && (forall k :: 0 <= k < |sched| ==> sched[k] < |parts|)
    && (forall g :: 0 <= g < |parts| ==> pos[g] + Steps(sched, g) <= |parts[g]|)
  }

  /** A schedule that runs every goroutine to its last command. */
  predicate Schedules<T>(parts: seq<seq<T>>, pos: seq<nat>, sched: seq<nat>) {
    && Fits(parts, pos, sched)
    && (forall g :: 0 <= g < |parts| ==> pos[g] + Steps(sched, g) == |parts[g]|)
  }

  /** The commands in the order the schedule queues them: each step queues the next
      command of the goroutine it names. */
  function Interleave<T>(parts: seq<seq<T>>, pos: seq<nat>, sched: seq<nat>): (q: seq<T>)
    requires Fits(parts, pos, sched)
    ensures |q| == |sched|
    decreases |sched|
  {
    if sched == [] then []
    else
      var g := sched[0];
      [parts[g][pos[g]]] + Interleave(parts, pos[g := pos[g] + 1], sched[1..])
  }

  /** The first step whose goroutine belongs to a sub-second tier: there the process
      panics. |sched| when no step does. */
  function FirstPanic(tiers: seq<TierView>, sched: seq<nat>): (c: nat)
    requires forall k :: 0 <= k < |sched| ==> sched[k] < |tiers|
    ensures c <= |sched|
    ensures forall j :: 0 <= j < c ==> !SubSecond(tiers[sched[j]])
    ensures c < |sched| ==> SubSecond(tiers[sched[c]])
  {
    if sched == [] || SubSecond(tiers[sched[0]]) then 0 else 1 + FirstPanic(tiers, sched[1..])
  }

  /** A goroutine with a step has a first one. */
  lemma {:induction false} StepsPositive(sched: seq<nat>, g: nat)
    requires Steps(sched, g) > 0
    ensures exists k :: 0 <= k < |sched| && sched[k] == g
  {
    if sched[0] != g {
      StepsPositive(sched[1..], g);
      var k :| 0 <= k < |sched[1..]| && sched[1..][k] == g;
      assert sched[k + 1] == g;
    }
  }

  /** A goroutine no step names has no steps. */
  lemma {:induction false} StepsAbsent(sched: seq<nat>, g: nat)
    requires forall k :: 0 <= k < |sched| ==> sched[k] != g
    ensures Steps(sched, g) == 0
  {
    if sched != [] {
      assert forall k :: 0 <= k < |sched[1..]| ==> sched[1..][k] == sched[k + 1];
      StepsAbsent(sched[1..], g);
    }
  }

  /** A prefix of a schedule gives no goroutine more steps than the whole. */
  lemma {:induction false} StepsPrefix(sched: seq<nat>, c: nat, g: nat)
    requires c <= |sched|
    ensures Steps(sched[..c], g) <= Steps(sched, g)
  {
    if c > 0 {
      assert sched[..c][0] == sched[0];
      assert sched[..c][1..] == sched[1..][..c - 1];
      StepsPrefix(sched[1..], c - 1, g);
    }
  }

  /** The process panics under a schedule exactly when some tier is sub-second: that
      tier's goroutine runs, and its first step panics. */
  lemma PanicsIffSubSecond(tiers: seq<TierView>, sched: seq<nat>)
    requires Runs(|tiers|, sched)
    ensures FirstPanic(tiers, sched) < |sched| <==> exists i :: 0 <= i < |tiers| && SubSecond(tiers[i])
  {
    if i :| 0 <= i < |tiers| && SubSecond(tiers[i]) {
      StepsPositive(sched, i);
    }
  }

  /** The steps before the panic, if any, fit the tiers' parts: a sub-second tier's
      goroutine has no step there, the others at most their three. */
  lemma PrefixFits(m: Metric, tiers: seq<TierView>, sum32: Hasher, sched: seq<nat>)
    requires Runs(|tiers|, sched)
    ensures Fits(TriplesOf(m, tiers, sum32), Zeros(|tiers|), sched[..FirstPanic(tiers, sched)])
  {
    var parts := TriplesOf(m, tiers, sum32);
    var c := FirstPanic(tiers, sched);
    var pre := sched[..c];
    forall g | 0 <= g < |parts|
      ensures Zeros(|tiers|)[g] + Steps(pre, g) <= |parts[g]|
    {
      if SubSecond(tiers[g]) {
        assert forall k :: 0 <= k < |pre| ==> pre[k] != g;
        StepsAbsent(pre, g);
      } else {
        StepsPrefix(sched, c, g);
      }
    }
  }

  /** What the goroutines queue on the pipeline: every command up to the first panic,
      or all of them. */
  function Queued(m: Metric, tiers: seq<TierView>, sum32: Hasher, sched: seq<nat>): (q: seq<Command>)
    requires Runs(|tiers|, sched)
    ensures |q| == FirstPanic(tiers, sched)
  {
    PrefixFits(m, tiers, sum32, sched);
    Interleave(TriplesOf(m, tiers, sum32), Zeros(|tiers|), sched[..FirstPanic(tiers, sched)])
  }

  /** Whatever order the goroutines run in, the steps of tier g's goroutine queue a
      prefix of that tier's ZIncrBy, ZAdd and Expire, in that order; when no goroutine
      panics, all three. */
  lemma EachTierInOrder(m: Metric, tiers: seq<TierView>, sum32: Hasher, sched: seq<nat>, g: nat)
    requires Runs(|tiers|, sched) && g < |tiers|
    ensures var c := FirstPanic(tiers, sched);
      Pick(Queued(m, tiers, sum32, sched), sched[..c], g) <= TriplesOf(m, tiers, sum32)[g]
    ensures FirstPanic(tiers, sched) == |sched| ==>
      && TierCommands(m, tiers[g], sum32).Some?
      && Pick(Queued(m, tiers, sum32, sched), sched, g) == TierCommands(m, tiers[g], sum32).value
  {
    var parts := TriplesOf(m, tiers, sum32);
    var c := FirstPanic(tiers, sched);
    PrefixFits(m, tiers, sum32, sched);
    PickInterleave(parts, Zeros(|tiers|), sched[..c], g);
    if c == |sched| {
      assert sched[..c] == sched;
      StepsPositive(sched, g);
    }
  }

  /** One step of a schedule: the goroutine it names still has a command to queue,
      and what is left fits the rest. */
  lemma InterleaveStep<T>(parts: seq<seq<T>>, pos: seq<nat>, sched: seq<nat>, k: nat)
    requires k < |sched| && Fits(parts, pos, sched[k..])
    ensures var g := sched[k];
      && g < |parts| && pos[g] < |parts[g]|
      && Fits(parts, pos[g := pos[g] + 1], sched[k + 1..])
      && Interleave(parts, pos, sched[k..]) == [parts[g][pos[g]]] + Interleave(parts, pos[g := pos[g] + 1], sched[k + 1..])
  {
    assert sched[k..][0] == sched[k];
    assert sched[k..][1..] == sched[k + 1..];
  }

  /** The steps of goroutine g, in the order they ran. */
  function Pick<T>(q: seq<T>, sched: seq<nat>, g: nat): seq<T>
    requires |q| == |sched|
  {
    if sched == [] then [] else (if sched[0] == g then [q[0]] else []) + Pick(q[1..], sched[1..], g)
  }

  /** Whatever the schedule, every goroutine's commands reach the pipeline in their
      own order, as many as it had steps; under a complete schedule all of them: the
      queue is an interleaving of the parts. */
  lemma {:induction false} PickInterleave<T>(parts: seq<seq<T>>, pos: seq<nat>, sched: seq<nat>, g: nat)
    requires Fits(parts, pos, sched) && g < |parts|
    ensures Pick(Interleave(parts, pos, sched), sched, g) == parts[g][pos[g]..pos[g] + Steps(sched, g)]
    ensures Schedules(parts, pos, sched) ==> Pick(Interleave(parts, pos, sched), sched, g) == parts[g][pos[g]..]
    decreases |sched|
  {
    if sched != [] {
      var h := sched[0];
      var next := pos[h := pos[h] + 1];
      var q := Interleave(parts, pos, sched);
      assert q[1..] == Interleave(parts, next, sched[1..]);
      PickInterleave(parts, next, sched[1..], g);
      if h == g {
        assert parts[g][pos[g]..pos[g] + Steps(sched, g)]
          == [parts[g][pos[g]]] + parts[g][pos[g] + 1..pos[g] + Steps(sched, g)];
      }
    }
  }

  /** `a·c / (b·c) == a / b` on non-negative integers. */
  lemma ScaledDiv(a: int, b: int, c: int)
    requires a >= 0 && b > 0 && c > 0
    ensures (a * c) / (b * c) == a / b
  {
    var q, r := a / b, a % b;
    assert a * c == q * (b * c) + r * c;
    assert 0 <= r * c < b * c;
    DivUnique(a * c, b * c, q, r * c);
  }

  lemma DivUnique(x: int, y: int, q: int, r: int)
    requires y > 0 && 0 <= r < y && x == q * y + r
    ensures x / y == q
  {
    var d := q - x / y;
    assert d * y == x % y - r;
  }

  /** For a whole-second granularity the truncation is exact and the float quotient
      is Go's integer division of the offset by the number of seconds. */
  lemma WholeSecondSlot(t: int, s: int)
    requires s != 0
    ensures Seconds(s * SECOND) == s
    ensures Slot(t, s * SECOND) == Quot(BucketOffset(t, s * SECOND), s)
  {
    ScaledDiv(Abs(s), 1, SECOND);
    assert Abs(s * SECOND) == Abs(s) * SECOND;
    var o := BucketOffset(t, s * SECOND);
    ScaledDiv(Abs(o), Abs(s), SECOND);
    assert Abs(o * SECOND) == Abs(o) * SECOND;
  }

  /** For a non-negative time and a granularity of at least a second: the offset lies
      in the bucket, the bucket starts at a multiple of the bucket width no later than
      the time, the slot is one of the 128 slots, and in nanoseconds the time lies in
      the slot's window of one granularity. */
  lemma AddressBounds(t: int, g: int)
    requires t >= 0 && g >= SECOND
    ensures Seconds(g) >= 1
    ensures var w := VALUES_PER_BUCKET * Seconds(g);
      && 0 <= BucketOffset(t, g) < w
      && Bucket(t, g) <= t && Bucket(t, g) == (t / w) * w
    ensures 0 <= Slot(t, g) < VALUES_PER_BUCKET
    ensures Bucket(t, g) * SECOND + Slot(t, g) * g <= t * SECOND < Bucket(t, g) * SECOND + (Slot(t, g) + 1) * g
  {
    var gs := Seconds(g);
    QuotRemNonNegative(g, SECOND);
    assert g == gs * SECOND + g % SECOND;
    var w := VALUES_PER_BUCKET * gs;
    QuotRemNonNegative(t, w);
    var offset := BucketOffset(t, g);
    assert t == (t / w) * w + offset;
    var n := offset * SECOND;
    QuotRemNonNegative(n, g);
    var s := n / g;
    assert n == s * g + n % g;
    assert n < w * SECOND <= VALUES_PER_BUCKET * g;
    SlotBelow(s, g, n % g);
    assert (s + 1) * g == s * g + g;
    assert t * SECOND == Bucket(t, g) * SECOND + n;
  }

  lemma SlotBelow(s: int, g: int, r: int)
    requires g >= 1 && r >= 0 && s * g + r < VALUES_PER_BUCKET * g
    ensures s < VALUES_PER_BUCKET
  {
    assert (s - VALUES_PER_BUCKET) * g == s * g - VALUES_PER_BUCKET * g;
  }

  /** For any time, also before 1970, and any granularity that does not panic: Go's
      remainder keeps the sign of the time, so the offset is non-positive then, and
      offset and slot stay bounded. */
  lemma AddressBoundsAnySign(t: int, g: int)
    requires Seconds(g) != 0
    ensures Abs(BucketOffset(t, g)) < VALUES_PER_BUCKET * Abs(Seconds(g))
    ensures Abs(Slot(t, g)) < VALUES_PER_BUCKET
    ensures t < 0 ==> BucketOffset(t, g) <= 0 && Bucket(t, g) >= t
    ensures t < 0 && g > 0 ==> Slot(t, g) <= 0
  {
    var gs := Abs(Seconds(g));
    var a := Abs(g);
    assert gs == a / SECOND;
    assert a == gs * SECOND + a % SECOND;
    var n := Abs(BucketOffset(t, g));
    assert n == Abs(t) % (VALUES_PER_BUCKET * gs);
    var m := n * SECOND;
    assert Abs(BucketOffset(t, g) * SECOND) == m;
    var s := m / a;
    assert Abs(Slot(t, g)) == s;
    assert m == s * a + m % a;
    assert m < VALUES_PER_BUCKET * gs * SECOND <= VALUES_PER_BUCKET * a;
    SlotBelow(s, a, m % a);
  }

  /** The skew only moves the key, not the marker: the key names the bucket start
      minus the hash's upper 16 bits and the granularity's whole seconds, the slot is
      counted in whole granularities, and the marker is scored with the unskewed start. */
  lemma SkewedKeyUnskewedScore(m: Metric, t: TierView, sum32: Hasher)
    ensures TierCommands(m, t, sum32).Some? ==>
      var g := t.granularity;
      var cmds := TierCommands(m, t, sum32).value;
      && cmds[0].key == BucketKey(m.key, Bucket(m.unix, g) - Skew(sum32(m.key)), TierSeconds(t))
      && cmds[0].member == FormatInt(Slot(m.unix, g))
      && cmds[1].key == GcKey(TierSeconds(t))
      && cmds[1].score - t.collectOffset == Bucket(m.unix, g) as real
      && 0 <= Bucket(m.unix, g) - (Bucket(m.unix, g) - Skew(sum32(m.key))) <= 65535
  {
  }

  /** One step of the writer's loop: queueing the next command of the goroutine the
      step names leaves the queue followed by what is still to come unchanged. */
  lemma QueueStep<T>(parts: seq<seq<T>>, pos: seq<nat>, sched: seq<nat>, k: nat, queued: seq<T>, total: seq<T>)
    requires k < |sched| && Fits(parts, pos, sched[k..])
    requires queued + Interleave(parts, pos, sched[k..]) == total
    ensures var g := sched[k];
      && g < |parts| && pos[g] < |parts[g]|
      && Fits(parts, pos[g := pos[g] + 1], sched[k + 1..])
      && (queued + [parts[g][pos[g]]]) + Interleave(parts, pos[g := pos[g] + 1], sched[k + 1..]) == total
  {
    InterleaveStep(parts, pos, sched, k);
    var g := sched[k];
    var rest := Interleave(parts, pos[g := pos[g] + 1], sched[k + 1..]);
    assert (queued + [parts[g][pos[g]]]) + rest == queued + ([parts[g][pos[g]]] + rest);
  }

  /** persistMetricInTier: queues the tier's three commands on the pipeline, or panics
      on the remainder by zero of a sub-second tier before queueing anything. */
  method PersistMetricInTier(p: Pipeline, m: Metric, t: TierView, sum32: Hasher) returns (panicked: bool)
    modifies p
    ensures panicked <==> SubSecond(t)
    ensures p.queued == old(p.queued) + if panicked then [] else TierCommands(m, t, sum32).value
    ensures p.executed == old(p.executed)
  {
    var gs := Seconds(t.granularity);
    if VALUES_PER_BUCKET * gs == 0 {
      return true;
    }
    var offset := Rem(m.unix, VALUES_PER_BUCKET * gs);
    var bucket := m.unix - offset;
    var bucketOffset := Quot(offset * SECOND, t.granularity);
    var bucketSkewed := bucket - Skew(sum32(m.key));
    var redisKey := BucketKey(m.key, bucketSkewed, gs);
    p.Queue(ZIncrBy(redisKey, m.value, FormatInt(bucketOffset)));
    p.Queue(ZAdd(GcKey(gs), bucket as real + t.collectOffset, redisKey));
    p.Queue(Expire(redisKey, t.ttl));
    panicked := false;
  }

  /** persistMetric: one goroutine per tier queues the tier's commands on the shared
      pipeline, and Exec runs once all of them are done. The goroutines run in the order
      `sched` gives, one queued command per step; `tiers` lists the tier map's values in
      its iteration order. The first step of a sub-second tier's goroutine panics, which
      ends the process: the pipeline is then never executed. */
  method PersistMetric(p: Pipeline, m: Metric, tiers: seq<TierView>, sum32: Hasher, sched: seq<nat>)
      returns (panicked: bool)
    requires Runs(|tiers|, sched)
    modifies p
    ensures panicked <==> exists i :: 0 <= i < |tiers| && SubSecond(tiers[i])
    ensures panicked ==> p.queued == old(p.queued) + Queued(m, tiers, sum32, sched) && p.executed == old(p.executed)
    ensures !panicked ==> p.executed == old(p.executed) + [old(p.queued) + Queued(m, tiers, sum32, sched)] && p.queued == []
  {
    var parts := TriplesOf(m, tiers, sum32);
    ghost var c := FirstPanic(tiers, sched);
    ghost var pre := sched[..c];
    PrefixFits(m, tiers, sum32, sched);
    ghost var all := Interleave(parts, Zeros(|tiers|), pre);
    assert all == Queued(m, tiers, sum32, sched);
    var pos: seq<nat> := Zeros(|tiers|);
    var k := 0;
    while k < |sched|
      invariant 0 <= k <= c
      invariant Fits(parts, pos, pre[k..])
      invariant p.queued + Interleave(parts, pos, pre[k..]) == old(p.queued) + all
      invariant p.executed == old(p.executed)
    {
      var g := sched[k];
      if SubSecond(tiers[g]) {
        // `128 * int64(g.Seconds())` is 0: the goroutine's remainder panics.
        assert pre[k..] == [];
        assert p.queued == old(p.queued) + all;
        PanicsIffSubSecond(tiers, sched);
        return true;
      }
      assert k != c;
      assert pre[k] == g;
      QueueStep(parts, pos, pre, k, p.queued, old(p.queued) + all);
      p.Queue(parts[g][pos[g]]);
      pos := pos[g := pos[g] + 1];
      k := k + 1;
    }
    assert pre[k..] == [];
    assert p.queued == old(p.queued) + all;
    PanicsIffSubSecond(tiers, sched);
    p.Exec();
    panicked := false;
  }
}
