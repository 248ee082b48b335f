/** The chronodium raw writer (src/chronodium/storage/redis/persist.go). Points are
    kept in 14400-second buckets per shard key; within a bucket, points with the
    same metadata go to one data key named by the hash of the metadata's canonical
    JSON, and a sorted set per bucket indexes the metadata by that hash. Instants are
    Go time.Time values, in nanoseconds since 1970. */
module ChronoPersist {
  import opened Wrappers
  import opened GoInt
  import opened Decimal
  import opened Strs
  import opened Sorting
  import opened Binary
  import opened Commands

  const SCHEMA_VERSION: int := 1
  const BUCKET_WINDOW: int := 14400
  const SECOND: int := 1_000_000_000
  const HOUR: int := 3600 * SECOND

  /** A chronodium measurement: value as a float64 bit pattern, time in nanoseconds. */
  datatype Metric = Metric(key: string, value: Bits64, time: int, metadata: map<string, string>)

  /** murmur3.Sum32 over the bytes of a string. */
  type Hasher = string -> Uint32

  /** time.Time.Unix: whole seconds, rounded down. */
  function Unix(nanos: int): int {
    nanos / SECOND
  }

  /** getBucket: the skewed Unix time truncated to a multiple of the window. */
  function GetBucket(shardKey: string, unix: int, sum32: Hasher): (b: int)
    ensures b % BUCKET_WINDOW == 0
  {
    Quot(unix - Skew(sum32(shardKey)), BUCKET_WINDOW) * BUCKET_WINDOW
  }

  lemma GetBucketMultiple(shardKey: string, unix: int, sum32: Hasher)
    ensures GetBucket(shardKey, unix, sum32) % BUCKET_WINDOW == 0
    ensures var skewed := unix - Skew(sum32(shardKey));
      skewed >= 0 ==> GetBucket(shardKey, unix, sum32) <= skewed < GetBucket(shardKey, unix, sum32) + BUCKET_WINDOW
  {
    var skewed := unix - Skew(sum32(shardKey));
    if skewed >= 0 {
      QuotRemNonNegative(skewed, BUCKET_WINDOW);
    }
  }

  // ---- canonical JSON of the metadata ----

  /** The least key of a non-empty set of keys in Go's string order. */
  ghost function MinKey(keys: set<string>): (k: string)
    requires keys != {}
    ensures k in keys && forall j :: j in keys && j != k ==> StrLess(k, j)
  {
    MinKeyExists(keys);
    var k :| k in keys && forall j :: j in keys && j != k ==> StrLess(k, j); k
  }

  lemma {:induction false} MinKeyExists(keys: set<string>)
    requires keys != {}
    ensures exists k :: k in keys && forall j :: j in keys && j != k ==> StrLess(k, j)
    decreases keys
  {
    var x :| x in keys;
    if keys != {x} {
      MinKeyExists(keys - {x});
      var y :| y in keys - {x} && forall j :: j in keys - {x} && j != y ==> StrLess(y, j);
      StrLessTrichotomy(x, y);
      if StrLess(x, y) {
        forall j | j in keys && j != x
          ensures StrLess(x, j)
        {
          if j != y {
            StrLessTransitive(x, y, j);
          }
        }
      } else {
        assert forall j :: j in keys && j != y ==> StrLess(y, j);
      }
    }
  }

  /** The keys in ascending order. */
  ghost function CanonicalKeys(keys: set<string>): (ks: seq<string>)
    ensures |ks| == |keys|
    decreases keys
  {
    if keys == {} then [] else [MinKey(keys)] + CanonicalKeys(keys - {MinKey(keys)})
  }

  predicate StrictlyAscending(ks: seq<string>) {
    forall i, j :: 0 <= i < j < |ks| ==> StrLess(ks[i], ks[j])
  }

  lemma {:induction false} CanonicalKeysShape(keys: set<string>)
    ensures StrictlyAscending(CanonicalKeys(keys))
    ensures forall k :: k in CanonicalKeys(keys) <==> k in keys
    decreases keys
  {
    if keys != {} {
      var k := MinKey(keys);
      CanonicalKeysShape(keys - {k});
      var ks := CanonicalKeys(keys);
      assert ks == [k] + CanonicalKeys(keys - {k});
      forall i, j | 0 <= i < j < |ks|
        ensures StrLess(ks[i], ks[j])
      {
        if i > 0 {
          assert ks[i] == CanonicalKeys(keys - {k})[i - 1];
        }
      }
    }
  }

  /** A strictly ascending listing of a key set is its canonical order. */
  lemma {:induction false} AscendingIsCanonical(ks: seq<string>, keys: set<string>)
    requires StrictlyAscending(ks)
    requires forall k :: k in ks <==> k in keys
    ensures ks == CanonicalKeys(keys)
    decreases |ks|
  {
    if ks == [] {
      assert keys == {};
    } else {
      assert ks[0] in keys;
      var m := MinKey(keys);
      if ks[0] != m {
        assert m in ks;
        var i :| 0 <= i < |ks| && ks[i] == m;
        StrLessTrichotomy(ks[0], m);
      }
      assert forall k :: k in ks[1..] <==> k in keys - {m} by {
        forall k | k in ks[1..]
          ensures k != ks[0]
        {
          var i :| 0 <= i < |ks[1..]| && ks[1..][i] == k;
          assert StrLess(ks[0], ks[i + 1]);
          StrLessTrichotomy(ks[0], k);
        }
        assert forall k :: k in ks <==> k == ks[0] || k in ks[1..];
      }
      AscendingIsCanonical(ks[1..], keys - {m});
    }
  }

  function Entry(k: string, v: string): string {
    "\"" + k + "\":\"" + v + "\""
  }

  /** The first `n` entries of the object body, each but the last followed by ','. */
  function Entries(ks: seq<string>, m: map<string, string>, n: nat): string
    requires n <= |ks|
    requires forall k :: k in ks ==> k in m
  {
    if n == 0 then ""
    else Entries(ks, m, n - 1) + Entry(ks[n - 1], m[ks[n - 1]]) + (if n - 1 < |ks| - 1 then "," else "")
  }

  /** orderableMap.ToJson's output: `{"k":"v",...}` with the keys ascending. */
  ghost function Json(m: map<string, string>): string {
    CanonicalKeysShape(m.Keys);
    var ks := CanonicalKeys(m.Keys);
    "{" + Entries(ks, m, |ks|) + "}"
  }

  lemma JsonEmpty()
    ensures Json(map[]) == "{}"
  {
    assert CanonicalKeys({}) == [];
  }

  /** A one-entry map renders as a single pair. */
  lemma JsonSingle(k: string, v: string)
    ensures Json(map[k := v]) == "{\"" + k + "\":\"" + v + "\"}"
  {
    var m := map[k := v];
    assert m.Keys == {k};
    assert MinKey({k}) == k;
    assert {k} - {k} == {};
    assert CanonicalKeys(m.Keys) == [k];
    assert Entries([k], m, 1) == Entries([k], m, 0) + Entry(k, v) + "";
  }

  method CollectKeys(m: map<string, string>) returns (order: seq<string>)
    ensures forall k :: k in order <==> k in m
    ensures forall i, j :: 0 <= i < j < |order| ==> order[i] != order[j]
  {
    var remaining := m.Keys;
    order := [];
    while remaining != {}
      invariant remaining <= m.Keys
      invariant forall k :: k in m ==> (k in order <==> k !in remaining)
      invariant forall k :: k in order ==> k in m
      invariant forall i, j :: 0 <= i < j < |order| ==> order[i] != order[j]
      decreases remaining
    {
      var k :| k in remaining;
      order := order + [k];
      remaining := remaining - {k};
    }
  }

  lemma StrLessIsStrictWeak(keys: set<string>)
    ensures StrictWeakOrderOn(keys, StrLess)
  {
    forall x, y | x in keys && y in keys && StrLess(x, y)
      ensures !StrLess(y, x)
    {
      StrLessTrichotomy(x, y);
    }
    forall x, y, z | x in keys && y in keys && z in keys && !StrLess(x, y) && !StrLess(y, z)
      ensures !StrLess(x, z)
    {
      StrLessTrichotomy(x, y);
      StrLessTrichotomy(y, z);
      StrLessTrichotomy(x, z);
      if StrLess(x, z) {
        if x != y {
          StrLessTransitive(y, x, z);
        }
      }
    }
  }

  /** Sorts the distinct keys in place with sort.Strings. */
  method SortKeys(order: seq<string>) returns (sorted: seq<string>)
    requires forall i, j :: 0 <= i < j < |order| ==> order[i] != order[j]
    ensures StrictlyAscending(sorted)
    ensures forall k :: k in sorted <==> k in order
  {
    var a := new string[|order|](i requires 0 <= i < |order| => order[i]);
    assert a[..] == order;
    StrLessIsStrictWeak(set k | 0 <= k < a.Length :: a[k]);
    InsertionSort(a, StrLess);
    sorted := a[..];
    assert forall k :: k in sorted <==> k in multiset(order);
    forall i, j | 0 <= i < j < |sorted|
      ensures StrLess(sorted[i], sorted[j])
    {
      DistinctAfterSort(order, sorted, i, j);
      StrLessTrichotomy(sorted[i], sorted[j]);
    }
  }

  lemma DistinctAfterSort(order: seq<string>, sorted: seq<string>, i: int, j: int)
    requires forall p, q :: 0 <= p < q < |order| ==> order[p] != order[q]
    requires multiset(sorted) == multiset(order)
    requires 0 <= i < j < |sorted|
    ensures sorted[i] != sorted[j]
  {
    if sorted[i] == sorted[j] {
      var x := sorted[i];
      assert multiset(sorted)[x] >= 2 by {
        assert sorted == sorted[..i] + [x] + sorted[i + 1..j] + [x] + sorted[j + 1..];
      }
      DistinctOnce(order, x);
      assert false;
    }
  }

  lemma {:induction false} DistinctOnce(s: seq<string>, x: string)
    requires forall p, q :: 0 <= p < q < |s| ==> s[p] != s[q]
    ensures multiset(s)[x] <= 1
    decreases |s|
  {
    if s != [] {
      DistinctOnce(s[1..], x);
      assert s == [s[0]] + s[1..];
      if s[0] == x {
        assert x !in s[1..];
      }
    }
  }

  /** orderableMap.ToJson: collects the keys, sorts them and writes the object. */
  method ToJson(m: map<string, string>) returns (buf: string)
    ensures buf == Json(m)
  {
    var order := CollectKeys(m);
    order := SortKeys(order);
    CanonicalKeysShape(m.Keys);
    AscendingIsCanonical(order, m.Keys);
    var body := WriteEntries(order, m);
    buf := "{" + body + "}";
  }

  /** ToJson's loop: each entry, then a ',' unless it is the last. */
  method WriteEntries(order: seq<string>, m: map<string, string>) returns (body: string)
    requires forall k :: k in order ==> k in m
    ensures body == Entries(order, m, |order|)
  {
    body := "";
    var l := |order|;
    var i := 0;
    while i < l
      invariant 0 <= i <= l
      invariant body == Entries(order, m, i)
    {
      var k := order[i];
      body := body + Entry(k, m[k]);
      if i < l - 1 {
        body := body + ",";
      }
      i := i + 1;
    }
  }

  // ---- the commands ----

  /** `chronodium-1-{metric-K}-14400-B-raw`: the bucket's metadata index. */
  function IndexKey(shardKey: string, bucket: int): string {
    "chronodium-" + FormatInt(SCHEMA_VERSION) + "-{metric-" + shardKey + "}-" + FormatInt(BUCKET_WINDOW) + "-" + FormatInt(bucket) + "-raw"
  }

  /** `chronodium-1-{metric-K}-14400-B-raw-H`: the points of one metadata hash. */
  function DataKey(shardKey: string, bucket: int, hash: int): string {
    IndexKey(shardKey, bucket) + "-" + FormatInt(hash)
  }

  /** The 16 bytes appended per point: the time and the value, little-endian. */
  function PackPoint(time: int, value: Bits64): (b: seq<Byte>)
    requires IsInt64(time)
    ensures |b| == 16
  {
    PutInt64LE(time) + PutUint64LE(value)
  }

  /** The four commands persistMetric queues. */
  ghost function PersistCommands(m: Metric, sum32: Hasher): (cmds: seq<Command>)
    requires IsInt64(m.time)
    ensures |cmds| == 4 && cmds[0].Append? && cmds[2].ZAdd?
    ensures cmds[1] == Expire(cmds[0].key, 25 * HOUR) && cmds[3] == Expire(cmds[2].key, 25 * HOUR)
  {
    var bucket := GetBucket(m.key, Unix(m.time), sum32);
    var json := Json(m.metadata);
    var hash := sum32(json);
    [ Append(DataKey(m.key, bucket, hash), PackPoint(m.time, m.value)),
      Expire(DataKey(m.key, bucket, hash), 25 * HOUR),
      ZAdd(IndexKey(m.key, bucket), hash as real, FormatInt(bucket) + "-" + json),
      Expire(IndexKey(m.key, bucket), 25 * HOUR) ]
  }

  /** Metrics with the same key, the same bucket and equal metadata append to the same
      data key and index the same member. */
  lemma SameSeriesSameKey(m1: Metric, m2: Metric, sum32: Hasher)
    requires IsInt64(m1.time) && IsInt64(m2.time)
    requires m1.key == m2.key && m1.metadata == m2.metadata
    requires GetBucket(m1.key, Unix(m1.time), sum32) == GetBucket(m2.key, Unix(m2.time), sum32)
    ensures PersistCommands(m1, sum32)[0].key == PersistCommands(m2, sum32)[0].key
    ensures PersistCommands(m1, sum32)[2] == PersistCommands(m2, sum32)[2]
  {
  }

  /** persistMetric: queues the four commands; nothing is executed here. */
  method PersistMetric(p: Pipeline, m: Metric, sum32: Hasher)
    requires IsInt64(m.time)
    modifies p
    ensures p.queued == old(p.queued) + PersistCommands(m, sum32)
    ensures p.executed == old(p.executed)
  {
    var bucket := GetBucket(m.key, Unix(m.time), sum32);
    var metadata := ToJson(m.metadata);
    var metadataHash := sum32(metadata);
    var redisKey := DataKey(m.key, bucket, metadataHash);
    p.Queue(Append(redisKey, PackPoint(m.time, m.value)));
    p.Queue(Expire(redisKey, 25 * HOUR));
    redisKey := IndexKey(m.key, bucket);
    p.Queue(ZAdd(redisKey, metadataHash as real, FormatInt(bucket) + "-" + metadata));
    p.Queue(Expire(redisKey, 25 * HOUR));
  }
}
