/** The chronodium query engine (src/chronodium/storage/redis/query.go): the buckets
    covering a time range are enumerated, each bucket's metadata index is filtered,
    the points of the surviving metadata hashes are fetched and unpacked, and all
    points are returned sorted by time, each carrying its group's metadata. */
module ChronoQuery {
  import opened Wrappers
  import opened GoInt
  import opened Binary
  import opened Bags
  import opened Seqs
  import opened Sorting
  import opened Decimal
  import opened Commands
  import opened ChronoPersist
  import ChronoStorage

  /** One point: a time in nanoseconds, a float64 bit pattern and, once it is part of
      a result, the metadata of its group (nil before). */
  datatype Datapoint = Datapoint(timestamp: int, value: Bits64, metadata: Option<map<string, string>>)

  /** The points stored under one metadata hash of one bucket. */
  datatype DatapointGroup = DatapointGroup(points: seq<Datapoint>, metadata: map<string, string>, metadataHash: int)

  /** json.Unmarshal of a sorted-set member into a string map; None when it fails. */
  type JsonDecoder = string -> Option<map<string, string>>

  /** GET of a key as bytes, or the client's error. */
  type ByteReader = string -> Result<seq<Byte>, string>

  /** The distance between two bucket starts: 14400 seconds. */
  const STEP: int := BUCKET_WINDOW * SECOND

  // ---- getBucketsInWindow ----

  lemma StepMonotone(start: int, i: int, j: int)
    requires i <= j
    ensures start + i * STEP <= start + j * STEP
  {
  }

  /** The buckets of a window: one per STEP from `start` up to and including `end`,
      the k-th holding the instant start + k * STEP. */
  ghost predicate WindowBuckets(buckets: seq<int>, start: int, end: int, shardKey: string, sum32: Hasher) {
    && (forall k :: 0 <= k < |buckets| ==> buckets[k] == GetBucket(shardKey, Unix(start + k * STEP), sum32))
    && (forall k: nat :: k < |buckets| <==> start + k * STEP <= end)
  }

  /** getBucketsInWindow: the bucket of every instant from `start` in steps of 14400
      seconds up to `end`; an error when the range is reversed. */
  method BucketsInWindow(start: int, end: int, shardKey: string, sum32: Hasher)
    returns (buckets: seq<int>, err: Option<string>)
    ensures start > end ==> buckets == [] && err == Some("Start time must be smaller than or equal to end time")
    ensures start <= end ==> err == None
    ensures WindowBuckets(buckets, start, end, shardKey, sum32)
  {
    buckets := [];
    if start > end {
      return buckets, Some("Start time must be smaller than or equal to end time");
    }
    var startTime := start;
    while startTime <= end
      invariant startTime == start + |buckets| * STEP
      invariant |buckets| > 0 ==> start + (|buckets| - 1) * STEP <= end
      invariant forall k :: 0 <= k < |buckets| ==> buckets[k] == GetBucket(shardKey, Unix(start + k * STEP), sum32)
      decreases end - startTime
    {
      buckets := buckets + [GetBucket(shardKey, Unix(startTime), sum32)];
      startTime := startTime + STEP;
    }
    forall k: nat
      ensures k < |buckets| <==> start + k * STEP <= end
    {
      if k < |buckets| {
        StepMonotone(start, k, |buckets| - 1);
      } else {
        StepMonotone(start, |buckets|, k);
      }
    }
    return buckets, None;
  }

  // ---- getFilteredMetadataHashes ----

  /** Every filter key is present in the metadata with the same value. */
  predicate FilterMatches(filter: map<string, string>, metadata: map<string, string>) {
    forall k :: k in filter ==> k in metadata && metadata[k] == filter[k]
  }

  /** The filter loop inside the RowLoop: it gives up on the entry at the first filter
      key that is missing or has another value. */
  method MatchFilter(filter: map<string, string>, metadata: map<string, string>) returns (ok: bool)
    ensures ok <==> FilterMatches(filter, metadata)
  {
    var remaining := filter.Keys;
    while remaining != {}
      invariant remaining <= filter.Keys
      invariant forall k :: k in filter && k !in remaining ==> k in metadata && metadata[k] == filter[k]
      decreases remaining
    {
      var k :| k in remaining;
      if k !in metadata || metadata[k] != filter[k] {
        return false;
      }
      remaining := remaining - {k};
    }
    return true;
  }

  /** The hash → metadata map after the first `n` index entries: entries whose member
      does not decode or whose metadata fails the filter are skipped, and an entry
      overwrites an earlier one with the same (truncated) score. */
  function Kept(zs: seq<Z>, n: nat, decode: JsonDecoder, filter: map<string, string>): (kept: map<int, map<string, string>>)
    requires n <= |zs|
    ensures forall h :: h in kept ==> FilterMatches(filter, kept[h])
  {
    if n == 0 then map[]
    else
      var prev := Kept(zs, n - 1, decode, filter);
      var z := zs[n - 1];
      match decode(z.member)
      case None => prev
      case Some(md) => if FilterMatches(filter, md) then prev[TruncReal(z.score) := md] else prev
  }

  /** An index entry that the loop keeps. */
  predicate Survives(z: Z, decode: JsonDecoder, filter: map<string, string>) {
    decode(z.member).Some? && FilterMatches(filter, decode(z.member).value)
  }

  /** Filter correctness: every kept metadata map satisfies the whole filter, and the
      kept hashes are exactly those of the surviving entries. */
  lemma {:induction false} KeptMatches(zs: seq<Z>, n: nat, decode: JsonDecoder, filter: map<string, string>)
    requires n <= |zs|
    ensures forall h :: h in Kept(zs, n, decode, filter) ==> FilterMatches(filter, Kept(zs, n, decode, filter)[h])
    ensures forall h :: h in Kept(zs, n, decode, filter) <==>
      exists i :: 0 <= i < n && Survives(zs[i], decode, filter) && TruncReal(zs[i].score) == h
  {
    if n > 0 {
      KeptMatches(zs, n - 1, decode, filter);
      var prev := Kept(zs, n - 1, decode, filter);
      var z := zs[n - 1];
      forall h
        ensures h in Kept(zs, n, decode, filter) <==>
          exists i :: 0 <= i < n && Survives(zs[i], decode, filter) && TruncReal(zs[i].score) == h
      {
        if h in prev {
          var i :| 0 <= i < n - 1 && Survives(zs[i], decode, filter) && TruncReal(zs[i].score) == h;
          assert 0 <= i < n;
        }
        if exists i :: 0 <= i < n && Survives(zs[i], decode, filter) && TruncReal(zs[i].score) == h {
          var i :| 0 <= i < n && Survives(zs[i], decode, filter) && TruncReal(zs[i].score) == h;
          if i < n - 1 {
            assert h in prev;
          }
        }
      }
    }
  }

  /** A later surviving entry with the same hash overwrites an earlier one. */
  lemma {:induction false} KeptLastWins(zs: seq<Z>, n: nat, decode: JsonDecoder, filter: map<string, string>, i: nat)
    requires i < n <= |zs| && Survives(zs[i], decode, filter)
    requires forall j :: i < j < n && Survives(zs[j], decode, filter) ==> TruncReal(zs[j].score) != TruncReal(zs[i].score)
    ensures TruncReal(zs[i].score) in Kept(zs, n, decode, filter)
    ensures Kept(zs, n, decode, filter)[TruncReal(zs[i].score)] == decode(zs[i].member).value
  {
    if i < n - 1 {
      KeptLastWins(zs, n - 1, decode, filter, i);
    }
  }

  /** getFilteredMetadataHashes: the bucket's metadata index, decoded and filtered. A
      failed read of the index gives no entries. */
  method FilteredMetadataHashes(read: SortedSets, decode: JsonDecoder, shardKey: string, bucket: int,
                                filter: map<string, string>)
    returns (hashes: map<int, map<string, string>>)
    ensures var res := read(IndexKey(shardKey, bucket));
      hashes == if res.Err? then map[] else Kept(res.value, |res.value|, decode, filter)
  {
    var ret := read(IndexKey(shardKey, bucket));
    var res := if ret.Err? then [] else ret.value;
    hashes := map[];
    for i := 0 to |res|
      invariant hashes == Kept(res, i, decode, filter)
    {
      var z := res[i];
      var hash := TruncReal(z.score);
      var metadata := decode(z.member);
      if metadata.None? {
        continue;
      }
      var ok := MatchFilter(filter, metadata.value);
      if !ok {
        continue;
      }
      hashes := hashes[hash := metadata.value];
    }
  }

  /** decode only accepts text that starts like a JSON object or the literal `null`,
      possibly after white space, as json.Unmarshal into a map does. */
  ghost predicate ObjectDecoder(decode: JsonDecoder) {
    forall s :: decode(s).Some? ==>
      s != [] && (s[0] == '{' || s[0] == 'n' || s[0] == ' ' || s[0] == '\t' || s[0] == '\n' || s[0] == '\r')
  }

  /** The member the writer puts in the index starts with the bucket number, so the
      reader, which decodes members as they are, never decodes an entry the writer
      made: such entries are all skipped. */
  lemma WrittenMembersNeverDecode(m: Metric, sum32: Hasher, decode: JsonDecoder)
    requires IsInt64(m.time) && ObjectDecoder(decode)
    ensures decode(PersistCommands(m, sum32)[2].member).None?
  {
    var bucket := GetBucket(m.key, Unix(m.time), sum32);
    var member := PersistCommands(m, sum32)[2].member;
    assert member == FormatInt(bucket) + "-" + Json(m.metadata);
    if bucket < 0 {
      assert member[0] == '-';
    } else {
      NatDigitsValue(bucket);
      assert member[0] == NatDigits(bucket)[0];
      assert IsDigit(member[0]);
    }
  }

  // ---- unpackPoints ----

  /** One binary.Read of an eight-byte word from the buffer: the word and the rest of
      the buffer, or, when fewer than eight bytes are left, the previous value of the
      variable read into and an exhausted buffer (io.ReadFull fails and binary.Read
      leaves the variable alone). */
  function ReadWord(buf: seq<Byte>, prev: Bits64): (r: (Bits64, seq<Byte>))
    ensures |buf| >= 8 ==> r == (Uint64LE(buf[..8]), buf[8..])
    ensures |buf| < 8 ==> r == (prev, [])
  {
    if |buf| >= 8 then (Uint64LE(buf[..8]), buf[8..]) else (prev, [])
  }

  /** The int64 a stored timestamp word stands for. */
  function AsInt64(w: Bits64): (x: int)
    ensures IsInt64(x)
  {
    if w > MAX_INT64 then w - TWO_64 else w
  }

  /** The int64 variable of the loop as a word, so that ReadWord can keep it. */
  function AsWord(x: int): (w: Bits64)
    requires IsInt64(x)
    ensures AsInt64(w) == x
  {
    if x < 0 then x + TWO_64 else x
  }

  /** The points unpackPoints decodes from `buf`, one per started 16-byte record,
      continuing from the values `ts` and `val` its two variables hold. */
  function UnpackFrom(buf: seq<Byte>, ts: Bits64, val: Bits64): (out: seq<Datapoint>)
    decreases |buf|
  {
    if buf == [] then []
    else
      var (ts', rest) := ReadWord(buf, ts);
      var (val', rest') := ReadWord(rest, val);
      [Datapoint(AsInt64(ts'), val', None)] + UnpackFrom(rest', ts', val')
  }

  /** The point whose record starts at byte 16·i. */
  function RecordAt(raw: seq<Byte>, i: nat): Datapoint
    requires 16 * i + 16 <= |raw|
  {
    Datapoint(Int64LE(raw[16 * i..16 * i + 8]), Uint64LE(raw[16 * i + 8..16 * i + 16]), None)
  }

  lemma Int64LEIsAsInt64(b: seq<Byte>)
    requires |b| == 8
    ensures Int64LE(b) == AsInt64(Uint64LE(b))
  {
  }

  /** One point per started record: len/16 points for a whole number of records, and
      every complete record decodes to its little-endian timestamp and value with no
      metadata. */
  lemma {:induction false} UnpackRecords(raw: seq<Byte>, ts: Bits64, val: Bits64)
    ensures |UnpackFrom(raw, ts, val)| == (|raw| + 15) / 16
    ensures forall i: nat :: 16 * i + 16 <= |raw| ==> UnpackFrom(raw, ts, val)[i] == RecordAt(raw, i)
    decreases |raw|
  {
    if raw != [] {
      var (ts', rest) := ReadWord(raw, ts);
      var (val', rest') := ReadWord(rest, val);
      UnpackRecords(rest', ts', val');
      if |raw| >= 16 {
        assert rest' == raw[16..];
        UnpackFirst(raw, ts, val);
        forall i: nat | 0 < i && 16 * i + 16 <= |raw|
          ensures UnpackFrom(raw, ts, val)[i] == RecordAt(raw, i)
        {
          RecordShift(raw, i);
        }
      } else {
        assert rest' == [];
      }
    }
  }

  /** The first point of a whole record is that record. */
  lemma UnpackFirst(raw: seq<Byte>, ts: Bits64, val: Bits64)
    requires |raw| >= 16
    ensures |UnpackFrom(raw, ts, val)| > 0 && UnpackFrom(raw, ts, val)[0] == RecordAt(raw, 0)
  {
    Int64LEIsAsInt64(raw[..8]);
    assert raw[8..][..8] == raw[8..16];
  }

  /** Record i of a buffer is record i - 1 of the buffer without its first record. */
  lemma RecordShift(raw: seq<Byte>, i: nat)
    requires 0 < i && 16 * i + 16 <= |raw|
    ensures RecordAt(raw[16..], i - 1) == RecordAt(raw, i)
  {
    var rest := raw[16..];
    assert rest[16 * (i - 1)..16 * (i - 1) + 8] == raw[16 * i..16 * i + 8];
    assert rest[16 * (i - 1) + 8..16 * (i - 1) + 16] == raw[16 * i + 8..16 * i + 16];
  }

  /** A trailing partial record of fewer than 16 bytes still yields a point: its
      timestamp is read when eight bytes are left, and whatever cannot be read keeps
      the value of the point before (or 0 for the first). */
  lemma {:induction false} UnpackTail(raw: seq<Byte>, ts: Bits64, val: Bits64)
    requires 0 < |raw| < 16
    ensures UnpackFrom(raw, ts, val) ==
      [Datapoint(if |raw| >= 8 then Int64LE(raw[..8]) else AsInt64(ts), val, None)]
  {
    var (ts', rest) := ReadWord(raw, ts);
    if |raw| >= 8 {
      Int64LEIsAsInt64(raw[..8]);
    }
    assert ReadWord(rest, val) == (val, []);
  }

  /** The 16-byte records the writer appends, one after the other. */
  function Packed(points: seq<(int, Bits64)>): (b: seq<Byte>)
    requires forall i :: 0 <= i < |points| ==> IsInt64(points[i].0)
    ensures |b| == 16 * |points|
  {
    if points == [] then [] else PackPoint(points[0].0, points[0].1) + Packed(points[1..])
  }

  /** Round trip: unpacking the appended records gives back every (timestamp, value)
      pair, in order. */
  lemma {:induction false} UnpackPacked(points: seq<(int, Bits64)>, ts: Bits64, val: Bits64)
    requires forall i :: 0 <= i < |points| ==> IsInt64(points[i].0)
    ensures UnpackFrom(Packed(points), ts, val) == seq(|points|, i requires 0 <= i < |points| => Datapoint(points[i].0, points[i].1, None))
    decreases |points|
  {
    if points != [] {
      var (t, v) := points[0];
      var b := Packed(points);
      var first := PackPoint(t, v);
      assert b[..8] == PutInt64LE(t) && b[8..][..8] == PutUint64LE(v);
      assert b[8..][8..] == Packed(points[1..]);
      Pow256Eight();
      LittleEndianRoundTrip(if t < 0 then t + TWO_64 else t, 8);
      Uint64RoundTrip(v);
      assert AsInt64(Uint64LE(PutInt64LE(t))) == t;
      UnpackPacked(points[1..], Uint64LE(PutInt64LE(t)), v);
    }
  }

  /** unpackPoints: reads the buffer sixteen bytes at a time, while bytes are left. */
  method UnpackPoints(rawPoints: seq<Byte>) returns (out: seq<Datapoint>)
    ensures out == UnpackFrom(rawPoints, 0, 0)
    ensures |out| == (|rawPoints| + 15) / 16
    ensures forall i: nat :: 16 * i + 16 <= |rawPoints| ==> out[i] == RecordAt(rawPoints, i)
  {
    out := [];
    var buf := rawPoints;
    var timestamp: Bits64 := 0;
    var value: Bits64 := 0;
    var length := |rawPoints|;
    var i := 0;
    while i < length
      invariant |buf| == if i < length then length - i else 0
      invariant out + UnpackFrom(buf, timestamp, value) == UnpackFrom(rawPoints, 0, 0)
      decreases length - i
    {
      ghost var before := UnpackFrom(buf, timestamp, value);
      var r1 := ReadWord(buf, timestamp);
      timestamp, buf := r1.0, r1.1;
      var r2 := ReadWord(buf, value);
      value, buf := r2.0, r2.1;
      assert before == [Datapoint(AsInt64(timestamp), value, None)] + UnpackFrom(buf, timestamp, value);
      out := out + [Datapoint(AsInt64(timestamp), value, None)];
      i := i + 16;
    }
    assert UnpackFrom(buf, timestamp, value) == [];
    UnpackRecords(rawPoints, 0, 0);
  }

  // ---- queryBucket ----

  /** The surviving metadata hashes of a bucket, as getFilteredMetadataHashes finds them. */
  function MetadataIndex(read: SortedSets, decode: JsonDecoder, shardKey: string, bucket: int,
                         filter: map<string, string>): map<int, map<string, string>>
  {
    var res := read(IndexKey(shardKey, bucket));
    if res.Err? then map[] else Kept(res.value, |res.value|, decode, filter)
  }

  /** `out` is what queryBucket has gathered after visiting the hashes `visited` of
      `hashes` in map order: one group per fetched hash, distinct hashes, and at most
      one more visited hash, whose fetch failed. */
  ghost predicate GroupsSoFar(out: seq<DatapointGroup>, visited: seq<int>, hashes: map<int, map<string, string>>,
                              get: ByteReader, shardKey: string, bucket: int)
  {
    && (forall i, j :: 0 <= i < j < |visited| ==> visited[i] != visited[j])
    && (forall i :: 0 <= i < |visited| ==> visited[i] in hashes)
    && |out| <= |visited| <= |out| + 1
    && (forall i :: 0 <= i < |out| ==>
          var raw := get(DataKey(shardKey, bucket, visited[i]));
          raw.Ok? && out[i] == DatapointGroup(UnpackFrom(raw.value, 0, 0), hashes[visited[i]], visited[i]))
    && (|visited| == |out| + 1 ==> get(DataKey(shardKey, bucket, visited[|out|])).Err?)
  }

  /** What queryBucket returns: either every hash was visited and fetched, or the last
      one visited could not be fetched. */
  ghost predicate BucketGroups(out: seq<DatapointGroup>, visited: seq<int>, hashes: map<int, map<string, string>>,
                               get: ByteReader, shardKey: string, bucket: int)
  {
    && GroupsSoFar(out, visited, hashes, get, shardKey, bucket)
    && (|visited| == |out| ==> ListsOnce(visited, hashes.Keys))
  }

  lemma GroupsFetched(out: seq<DatapointGroup>, visited: seq<int>, hashes: map<int, map<string, string>>,
                      get: ByteReader, shardKey: string, bucket: int, h: int, g: DatapointGroup)
    requires GroupsSoFar(out, visited, hashes, get, shardKey, bucket) && |out| == |visited|
    requires h in hashes && h !in visited
    requires get(DataKey(shardKey, bucket, h)).Ok?
    requires g == DatapointGroup(UnpackFrom(get(DataKey(shardKey, bucket, h)).value, 0, 0), hashes[h], h)
    ensures GroupsSoFar(out + [g], visited + [h], hashes, get, shardKey, bucket)
  {
    var out', visited' := out + [g], visited + [h];
    forall i | 0 <= i < |out'|
      ensures var raw := get(DataKey(shardKey, bucket, visited'[i]));
        raw.Ok? && out'[i] == DatapointGroup(UnpackFrom(raw.value, 0, 0), hashes[visited'[i]], visited'[i])
    {
      if i < |out| {
        assert out'[i] == out[i] && visited'[i] == visited[i];
      }
    }
  }

  lemma GroupsFailed(out: seq<DatapointGroup>, visited: seq<int>, hashes: map<int, map<string, string>>,
                     get: ByteReader, shardKey: string, bucket: int, h: int)
    requires GroupsSoFar(out, visited, hashes, get, shardKey, bucket) && |out| == |visited|
    requires h in hashes && h !in visited
    requires get(DataKey(shardKey, bucket, h)).Err?
    ensures BucketGroups(out, visited + [h], hashes, get, shardKey, bucket)
  {
    var visited' := visited + [h];
    assert forall i :: 0 <= i < |out| ==> visited'[i] == visited[i];
  }

  /** queryBucket: fetches and unpacks the points of every surviving hash, in map
      order, stopping at the first fetch that fails. */
  method QueryBucket(read: SortedSets, get: ByteReader, decode: JsonDecoder, shardKey: string, bucket: int,
                     filter: map<string, string>)
    returns (out: seq<DatapointGroup>, ghost visited: seq<int>)
    ensures BucketGroups(out, visited, MetadataIndex(read, decode, shardKey, bucket, filter), get, shardKey, bucket)
    ensures AllMatch(filter, out)
  {
    out, visited := [], [];
    var metadataHashes := FilteredMetadataHashes(read, decode, shardKey, bucket, filter);
    assert metadataHashes == MetadataIndex(read, decode, shardKey, bucket, filter);
    ghost var res := read(IndexKey(shardKey, bucket));
    if res.Ok? {
      KeptMatches(res.value, |res.value|, decode, filter);
    }
    var remaining := metadataHashes.Keys;
    while remaining != {}
      invariant remaining <= metadataHashes.Keys
      invariant |out| == |visited|
      invariant forall h :: h in metadataHashes ==> (h in visited <==> h !in remaining)
      invariant GroupsSoFar(out, visited, metadataHashes, get, shardKey, bucket)
      invariant forall i :: 0 <= i < |out| ==> FilterMatches(filter, out[i].metadata)
      decreases remaining
    {
      NonEmptyInts(remaining);
      var hash :| hash in remaining;
      var rawPoints := get(DataKey(shardKey, bucket, hash));
      if rawPoints.Err? {
        GroupsFailed(out, visited, metadataHashes, get, shardKey, bucket, hash);
        visited := visited + [hash];
        return;
      }
      var points := UnpackPoints(rawPoints.value);
      var group := DatapointGroup(points, metadataHashes[hash], hash);
      GroupsFetched(out, visited, metadataHashes, get, shardKey, bucket, hash, group);
      out, visited := out + [group], visited + [hash];
      remaining := remaining - {hash};
    }
  }

  // ---- Query ----

  /** ResultSet.Less: ordering by timestamp. */
  predicate TimestampLess(a: Datapoint, b: Datapoint) {
    a.timestamp < b.timestamp
  }

  lemma TimestampLessIsStrictWeak(elems: set<Datapoint>)
    ensures StrictWeakOrderOn(elems, TimestampLess)
  {
  }

  /** The points of a group as they appear in a result: each with the group's metadata. */
  function Tagged(g: DatapointGroup): (ps: seq<Datapoint>)
    ensures |ps| == |g.points|
    ensures forall i :: 0 <= i < |ps| ==> ps[i] == g.points[i].(metadata := Some(g.metadata))
    decreases |g.points|
  {
    if g.points == [] then []
    else
      var last := g.points[|g.points| - 1];
      Tagged(g.(points := g.points[..|g.points| - 1])) + [last.(metadata := Some(g.metadata))]
  }

  /** The tagged points of a list of groups, group after group. */
  function AllTagged(gs: seq<DatapointGroup>): seq<Datapoint> {
    if gs == [] then [] else AllTagged(gs[..|gs| - 1]) + Tagged(gs[|gs| - 1])
  }

  lemma {:induction false} AllTaggedAppend(a: seq<DatapointGroup>, b: seq<DatapointGroup>)
    ensures AllTagged(a + b) == AllTagged(a) + AllTagged(b)
    decreases |b|
  {
    if b == [] {
      assert a + b == a;
    } else {
      var n := |b| - 1;
      DropLastOfAppend(a, b);
      assert AllTagged(a + b) == AllTagged(a + b[..n]) + Tagged(b[n]);
      AllTaggedAppend(a, b[..n]);
      assert AllTagged(b) == AllTagged(b[..n]) + Tagged(b[n]);
    }
  }

  /** Reordering the groups reorders the result points and nothing else. */
  lemma {:induction false} AllTaggedPermutation(a: seq<DatapointGroup>, b: seq<DatapointGroup>)
    requires multiset(a) == multiset(b)
    ensures multiset(AllTagged(a)) == multiset(AllTagged(b))
    decreases |a|
  {
    if a != [] {
      var x := a[0];
      assert x in multiset(b);
      var j :| 0 <= j < |b| && b[j] == x;
      TaggedRemove(a, 0);
      TaggedRemove(b, j);
      assert a[..0] + a[1..] == a[1..];
      AllTaggedPermutation(a[1..], b[..j] + b[j + 1..]);
    }
  }

  /** Taking group j out of a list takes it out of the groups' multiset and its points
      out of the points' multiset. */
  lemma TaggedRemove(b: seq<DatapointGroup>, j: int)
    requires 0 <= j < |b|
    ensures multiset(b[..j] + b[j + 1..]) == multiset(b) - multiset{b[j]}
    ensures multiset(AllTagged(b)) == multiset(Tagged(b[j])) + multiset(AllTagged(b[..j] + b[j + 1..]))
  {
    var x, l, r := b[j], b[..j], b[j + 1..];
    SplitAround(b, j);
    MultisetMiddle(l, [x], r);
    TaggedSplit(l, x, r);
    MultisetMiddle(AllTagged(l), Tagged(x), AllTagged(r));
  }

  /** The points of l, x, r are those of l, then x's, then those of r. */
  lemma TaggedSplit(l: seq<DatapointGroup>, x: DatapointGroup, r: seq<DatapointGroup>)
    ensures AllTagged(l + [x] + r) == AllTagged(l) + Tagged(x) + AllTagged(r)
    ensures AllTagged(l + r) == AllTagged(l) + AllTagged(r)
  {
    AllTaggedAppend(l + [x], r);
    AllTaggedAppend(l, [x]);
    AllTaggedAppend(l, r);
    assert [x][..0] == [];
  }

  /** What every bucket of the window gave: bucket k's groups and the hashes visited
      for them, as queryBucket returns them. */
  ghost predicate AllBuckets(perBucket: seq<seq<DatapointGroup>>, visits: seq<seq<int>>, buckets: seq<int>,
                             read: SortedSets, get: ByteReader, decode: JsonDecoder, shardKey: string,
                             filter: map<string, string>)
    decreases |buckets|
  {
    && |perBucket| == |visits| == |buckets|
    && (buckets != [] ==>
         var n := |buckets| - 1;
         && AllBuckets(perBucket[..n], visits[..n], buckets[..n], read, get, decode, shardKey, filter)
         && BucketGroups(perBucket[n], visits[n], MetadataIndex(read, decode, shardKey, buckets[n], filter), get, shardKey, buckets[n]))
  }

  /** Bucket k's groups are what queryBucket returns for bucket k. */
  lemma {:induction false} AllBucketsAt(perBucket: seq<seq<DatapointGroup>>, visits: seq<seq<int>>, buckets: seq<int>,
                                        read: SortedSets, get: ByteReader, decode: JsonDecoder, shardKey: string,
                                        filter: map<string, string>, k: nat)
    requires AllBuckets(perBucket, visits, buckets, read, get, decode, shardKey, filter) && k < |buckets|
    ensures BucketGroups(perBucket[k], visits[k], MetadataIndex(read, decode, shardKey, buckets[k], filter), get, shardKey, buckets[k])
    decreases |buckets|
  {
    var n := |buckets| - 1;
    if k < n {
      var ps, vs, bs := perBucket[..n], visits[..n], buckets[..n];
      assert ps[k] == perBucket[k] && vs[k] == visits[k] && bs[k] == buckets[k];
      AllBucketsAt(ps, vs, bs, read, get, decode, shardKey, filter, k);
    } else {
      assert k == n;
    }
  }

  lemma AllBucketsStep(perBucket: seq<seq<DatapointGroup>>, visits: seq<seq<int>>, buckets: seq<int>,
                       read: SortedSets, get: ByteReader, decode: JsonDecoder, shardKey: string,
                       filter: map<string, string>, groups: seq<DatapointGroup>, visited: seq<int>)
    requires |perBucket| < |buckets|
    requires AllBuckets(perBucket, visits, buckets[..|perBucket|], read, get, decode, shardKey, filter)
    requires BucketGroups(groups, visited, MetadataIndex(read, decode, shardKey, buckets[|perBucket|], filter),
                          get, shardKey, buckets[|perBucket|])
    ensures AllBuckets(perBucket + [groups], visits + [visited], buckets[..|perBucket| + 1], read, get, decode, shardKey, filter)
  {
    var n := |perBucket|;
    assert (perBucket + [groups])[..n] == perBucket && (visits + [visited])[..n] == visits;
    assert buckets[..n + 1][..n] == buckets[..n] && buckets[..n + 1][n] == buckets[n];
  }

  /** The key a group is filed under in Query: its metadata hash. */
  function HashOf(g: DatapointGroup): int {
    g.metadataHash
  }

  /** The inner loop of Query's first loop: each group is appended under its own hash. */
  method AddGroups(dg: map<int, seq<DatapointGroup>>, groups: seq<DatapointGroup>)
    returns (dg': map<int, seq<DatapointGroup>>)
    ensures dg' == AppendAll(dg, groups, HashOf)
  {
    dg' := dg;
    for i := 0 to |groups|
      invariant dg' == AppendAll(dg, groups[..i], HashOf)
    {
      assert groups[..i + 1][..i] == groups[..i];
      var group := groups[i];
      var hash := group.metadataHash;
      dg' := dg'[hash := (if hash in dg' then dg'[hash] else []) + [group]];
    }
    assert groups[..|groups|] == groups;
  }

  /** The first loop of Query: the groups of every bucket, collected under their
      metadata hash. */
  method CollectGroups(read: SortedSets, get: ByteReader, decode: JsonDecoder, shardKey: string,
                       buckets: seq<int>, filter: map<string, string>)
    returns (datapointGroups: map<int, seq<DatapointGroup>>, ghost perBucket: seq<seq<DatapointGroup>>,
             ghost visits: seq<seq<int>>, ghost fetched: seq<DatapointGroup>)
    ensures AllBuckets(perBucket, visits, buckets, read, get, decode, shardKey, filter)
    ensures fetched == Concat(perBucket)
    ensures datapointGroups == AppendAll(map[], fetched, HashOf)
    ensures AllMatch(filter, fetched)
  {
    datapointGroups, perBucket, visits, fetched := map[], [], [], [];
    for k := 0 to |buckets|
      invariant |perBucket| == k
      invariant Collected(datapointGroups, perBucket, visits, fetched, buckets[..k], read, get, decode, shardKey, filter)
    {
      var groups, visited := QueryBucket(read, get, decode, shardKey, buckets[k], filter);
      datapointGroups := AddGroups(datapointGroups, groups);
      CollectStep(datapointGroups, perBucket, visits, fetched, buckets, read, get, decode, shardKey, filter, groups, visited);
      perBucket, visits := perBucket + [groups], visits + [visited];
      fetched := fetched + groups;
    }
    assert buckets[..|buckets|] == buckets;
  }

  /** The state of the first loop of Query after the buckets `buckets`. */
  ghost predicate Collected(datapointGroups: map<int, seq<DatapointGroup>>, perBucket: seq<seq<DatapointGroup>>,
                            visits: seq<seq<int>>, fetched: seq<DatapointGroup>, buckets: seq<int>,
                            read: SortedSets, get: ByteReader, decode: JsonDecoder, shardKey: string,
                            filter: map<string, string>)
  {
    && AllBuckets(perBucket, visits, buckets, read, get, decode, shardKey, filter)
    && fetched == Concat(perBucket)
    && datapointGroups == AppendAll(map[], fetched, HashOf)
    && AllMatch(filter, fetched)
  }

  /** One more bucket's groups, filed under their hashes, extend the loop's state. */
  lemma CollectStep(dg': map<int, seq<DatapointGroup>>, perBucket: seq<seq<DatapointGroup>>, visits: seq<seq<int>>,
                    fetched: seq<DatapointGroup>, buckets: seq<int>, read: SortedSets, get: ByteReader,
                    decode: JsonDecoder, shardKey: string, filter: map<string, string>,
                    groups: seq<DatapointGroup>, visited: seq<int>)
    requires |perBucket| < |buckets|
    requires Collected(AppendAll(map[], fetched, HashOf), perBucket, visits, fetched, buckets[..|perBucket|],
                       read, get, decode, shardKey, filter)
    requires BucketGroups(groups, visited, MetadataIndex(read, decode, shardKey, buckets[|perBucket|], filter),
                          get, shardKey, buckets[|perBucket|])
    requires AllMatch(filter, groups)
    requires dg' == AppendAll(AppendAll(map[], fetched, HashOf), groups, HashOf)
    ensures Collected(dg', perBucket + [groups], visits + [visited], fetched + groups, buckets[..|perBucket| + 1],
                      read, get, decode, shardKey, filter)
  {
    AppendAllConcat(map[], fetched, groups, HashOf);
    AllBucketsStep(perBucket, visits, buckets, read, get, decode, shardKey, filter, groups, visited);
    ConcatStep(perBucket, groups);
    AllMatchAppend(filter, fetched, groups);
  }

  /** Every group's metadata satisfies the filter. */
  predicate AllMatch(filter: map<string, string>, gs: seq<DatapointGroup>) {
    forall i :: 0 <= i < |gs| ==> FilterMatches(filter, gs[i].metadata)
  }

  lemma AllMatchAppend(filter: map<string, string>, a: seq<DatapointGroup>, b: seq<DatapointGroup>)
    requires AllMatch(filter, a) && AllMatch(filter, b)
    ensures AllMatch(filter, a + b)
  {
    forall i | 0 <= i < |a + b|
      ensures FilterMatches(filter, (a + b)[i].metadata)
    {
      if i < |a| {
        assert (a + b)[i] == a[i];
      } else {
        assert (a + b)[i] == b[i - |a|];
      }
    }
  }

  /** The groups of every bucket, one bucket after the other. */
  function Concat(perBucket: seq<seq<DatapointGroup>>): seq<DatapointGroup> {
    if perBucket == [] then [] else Concat(perBucket[..|perBucket| - 1]) + perBucket[|perBucket| - 1]
  }

  lemma ConcatStep(perBucket: seq<seq<DatapointGroup>>, groups: seq<DatapointGroup>)
    ensures Concat(perBucket + [groups]) == Concat(perBucket) + groups
  {
    assert (perBucket + [groups])[..|perBucket|] == perBucket;
  }

  /** The second loop of Query: the points of every group of every hash, in map order,
      each given its group's metadata. */
  method FlattenGroups(datapointGroups: map<int, seq<DatapointGroup>>) returns (out: seq<Datapoint>, ghost order: seq<DatapointGroup>)
    ensures multiset(order) == FlatBag(datapointGroups, datapointGroups.Keys)
    ensures out == AllTagged(order)
  {
    out, order := [], [];
    var remaining := datapointGroups.Keys;
    while remaining != {}
      invariant remaining <= datapointGroups.Keys
      invariant multiset(order) + FlatBag(datapointGroups, remaining) == FlatBag(datapointGroups, datapointGroups.Keys)
      invariant out == AllTagged(order)
      decreases remaining
    {
      NonEmptyInts(remaining);
      var hash :| hash in remaining;
      FlatBagVisit(datapointGroups, remaining, hash, order);
      var tagged := TagGroups(datapointGroups[hash]);
      AllTaggedAppend(order, datapointGroups[hash]);
      out, order := out + tagged, order + datapointGroups[hash];
      remaining := remaining - {hash};
    }
  }

  /** The middle loop of Query: the groups of one hash, one after the other. */
  method TagGroups(dpgs: seq<DatapointGroup>) returns (out: seq<Datapoint>)
    ensures out == AllTagged(dpgs)
  {
    out := [];
    for i := 0 to |dpgs|
      invariant out == AllTagged(dpgs[..i])
    {
      var tagged := TagPoints(dpgs[i]);
      assert dpgs[..i + 1][..i] == dpgs[..i];
      out := out + tagged;
    }
    assert dpgs[..|dpgs|] == dpgs;
  }

  /** The innermost loop of Query: `point.metadata = dpg.metadata; out = append(out, point)`. */
  method TagPoints(dpg: DatapointGroup) returns (out: seq<Datapoint>)
    ensures out == Tagged(dpg)
  {
    out := [];
    for i := 0 to |dpg.points|
      invariant |out| == i
      invariant forall j :: 0 <= j < i ==> out[j] == dpg.points[j].(metadata := Some(dpg.metadata))
    {
      var point := dpg.points[i].(metadata := Some(dpg.metadata));
      out := out + [point];
    }
  }

  /** sort.Sort(out) with ResultSet.Less. */
  method SortByTimestamp(points: seq<Datapoint>) returns (sorted: seq<Datapoint>)
    ensures SortedBy(sorted, TimestampLess)
    ensures multiset(sorted) == multiset(points)
  {
    var a := new Datapoint[|points|](i requires 0 <= i < |points| => points[i]);
    assert a[..] == points;
    TimestampLessIsStrictWeak(set k | 0 <= k < a.Length :: a[k]);
    InsertionSort(a, TimestampLess);
    sorted := a[..];
  }

  /** Query: the points of every group fetched from every bucket of the window, each
      once and with its group's metadata, sorted by timestamp. An unset start date is
      defaulted from the clock reading `startNow` and an unset end date from the later
      reading `endNow`, one reading each as GetStartDate and GetEndDate take them. A
      reversed window reads no bucket. */
  method Query(query: ChronoStorage.Query, startNow: int, endNow: int, read: SortedSets, get: ByteReader, decode: JsonDecoder, sum32: Hasher)
    returns (out: seq<Datapoint>, ghost buckets: seq<int>, ghost perBucket: seq<seq<DatapointGroup>>, ghost visits: seq<seq<int>>)
    modifies query`startDate, query`endDate
    ensures query.startDate.Some? && query.endDate.Some?
    ensures old(query.startDate).Some? ==> query.startDate == old(query.startDate)
    ensures old(query.startDate).None? ==> query.startDate == Some(startNow - ChronoStorage.HOUR)
    ensures old(query.endDate).Some? ==> query.endDate == old(query.endDate)
    ensures old(query.endDate).None? ==> query.endDate == Some(endNow)
    ensures WindowBuckets(buckets, query.startDate.value, query.endDate.value, query.shardKey, sum32)
    ensures AllBuckets(perBucket, visits, buckets, read, get, decode, query.shardKey, query.filter)
    ensures multiset(out) == multiset(AllTagged(Concat(perBucket)))
    ensures SortedBy(out, TimestampLess)
  {
    var start := query.GetStartDate(startNow);
    var end := query.GetEndDate(endNow);
    var bs, _ := BucketsInWindow(start, end, query.shardKey, sum32);
    buckets := bs;
    var datapointGroups;
    ghost var fetched;
    datapointGroups, perBucket, visits, fetched := CollectGroups(read, get, decode, query.shardKey, bs, query.filter);
    var flat, order := FlattenGroups(datapointGroups);
    AppendAllBag(map[], fetched, HashOf);
    ghost var empty: map<int, seq<DatapointGroup>> := map[];
    assert FlatBag(empty, empty.Keys) == multiset{};
    AllTaggedPermutation(order, fetched);
    out := SortByTimestamp(flat);
  }
}
