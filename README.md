# Chrono-TS and sladu time-series core, in Dafny

This project models the deterministic core of the sladu / chronodium time-series
store, a Go system that files graphite, InfluxDB and HTTP metric samples into Redis
(and MongoDB) buckets, rolls them up into coarser tiers and reads them back.

- **Tiers and configuration** (`tier.dfy`, `tierset.dfy`, `config.dfy`, `sorting.dfy`).
  Tiers derive a granularity, a TTL and a collect offset from their configured texts.
  Tier sets resolve a strictly increasing chain of tiers. The chronodium configuration
  validates all tiers, then all tier sets, then orders the sets with an in-place
  insertion sort.
- **Writers.**
  - `sladu_persist.dfy`: the sladu tiered Redis writer, with its slot and bucket
    arithmetic for any granularity and three commands per tier, queued under any
    goroutine schedule. A tier shorter than a second panics on a remainder by zero.
  - `chrono_persist.dfy`: the chronodium raw writer, with 14400-second buckets,
    canonical metadata JSON, 16-byte points and four commands.
  - `mongo_persist.dfy`: the MongoDB upsert into 512-slot documents.
  - The backing stores are a log of command values (`commands.dfy`) and a map of
    documents.
- **Rollup** (`rollup.dfy`, `chrono_redis.dfy`, `sladu_query.dfy`).
  - The distinct granularities, and the due markers of a granularity.
  - Re-addressing each bucket at the next tier, and the commands queued for it.
  - The bucket-key parser, the next-tier lookup and the source registry.
- **Query engine** (`chrono_query.dfy`, `query_dates.dfy`, `groupby.dfy`).
  - The bucket window and the filter over the metadata index.
  - Unpacking 16-byte little-endian points, and the merge sorted by timestamp.
  - Lazy defaulting of the query dates.
  - The group-by tree, its rows and the render-key partition.
- **Input parsing** (`graphite.dfy`, `influx.dfy`, `http.dfy`).
  - The graphite line parser and its queue.
  - InfluxDB metric metadata and keys, cached on first use.
  - HTTP query-parameter and filter validation, and the JSONP wrapping.
- **Shared value layers.**
  - `goint.dfy`: Go's truncating integer division.
  - `decimal.dfy`: `strconv.FormatInt` and `ParseInt`, and `strconv.Quote` for their error texts.
  - `strs.dfy`: `strings.Split`, `SplitN` and `TrimSpace`.
  - `binary.dfy`: little-endian words.
  - `bags.dfy`: multisets of listed map values.
  - `seqs.dfy`: slices and concatenations at any element type.
  - `wrappers.dfy`: `Option` and `Result`.

Durations and chronodium instants are integer nanoseconds; Unix times are integer
seconds. Foreign pieces are parameters of function type:
- murmur3 `Sum32`;
- tier-set regular expressions;
- `time.ParseDuration`, `strconv.ParseFloat` and RFC 3339 parsing;
- JSON decoding;
- `getBucketForMetric`;
- InfluxDB's `Point.Split`.

Go map iteration is an arbitrary choice, and every contract over it holds for any
iteration order. Several behaviours of the code that are probably unintended are
modelled as written, each stated by a lemma:
- a rollup hit on an existing target key is lost, because it updates a copy;
- the time grouper keeps no points in its map;
- the chronodium index member is written as `<bucket>-<json>` but decoded as JSON;
- the sladu key is skewed while its marker score is not;
- the default TTL adds `seconds*128` as nanoseconds;
- the next-tier lookup skips matching sets that lack the granularity.

## Model

| member | source | states |
|---|---|---|
| Tiers.CalculateTtlWholeSeconds | src/sladu/server/tier/tier.go:65-67 | the default TTL of an s-second tier is 300 s plus 128·s nanoseconds (the `seconds*128` term is converted to a Duration unscaled), so it is 300 whole seconds below 7 812 500 s |
| Tiers.CalculateTtl | src/sladu/server/tier/tier.go:65-67 | the default TTL of a non-negative granularity is never below the 300-second term |
| Tiers.CollectOffsetWholeSeconds | src/sladu/server/tier/tier.go:25-61 | the collect offset of an s-second tier is 128·s + 30 |
| Tiers.DefaultTtlBeforeCollection | src/sladu/server/tier/tier.go:61-67 | from 3-second granularities on, the default TTL in seconds is shorter than the collect offset |
| Tiers.ValidateError | src/sladu/server/tier/tier.go:49-63 | Validate fails exactly when the granularity does not parse, or the TTL is non-empty and does not parse |
| Tiers.Tier.constructor | src/sladu/server/tier/tier.go:28-35 | a tier starts with its raw texts and zero derived fields |
| Tiers.Tier.Validate | src/sladu/server/tier/tier.go:49-63 | "Invalid Granularity" first, leaving TTL and offset untouched; an empty TTL becomes calculateTtl(); a bad TTL gives "Invalid TTL" with no offset set; on success the collect offset is 128·s + 30 |
| TierSets.ChainErrorIff | src/sladu/server/tier/tierSet.go:49-62 | the tier loop passes exactly when every name is a known tier and the granularities strictly increase from 0 |
| TierSets.ChainError | src/sladu/server/tier/tierSet.go:49-62 | a tier list that passes names only configured tiers |
| TierSets.SetError | src/sladu/server/tier/tierSet.go:36-65 | no error exactly when the pattern compiles, the list is non-empty and the chain strictly increases; the regex error comes first, then "No Tiers have been defined", then the first unknown or non-increasing tier |
| TierSets.TierSet.constructor | src/sladu/server/tier/tierSet.go:26-34 | a tier set starts with its configured fields and no resolved tiers |
| TierSets.TierSet.Validate | src/sladu/server/tier/tierSet.go:36-65 | returns SetError's verdict, stores the compiled regex, and on success `Tiers[k]` is the tier named `RawTiers[k]` for every k |
| TierSets.NameOne | src/sladu/server/tier/tierSet.go:71-73 | one iteration sets the set's Id to its key and appends it |
| TierSets.NameTierSets | src/sladu/server/tier/tierSet.go:67-74 | every map value is listed once per key, each named after a key it is stored under |
| TierSets.GetOrderedTierSets | src/sladu/server/tier/tierSet.go:67-88 | the output is a permutation of the map's values, each Id names its key, and no later set has a smaller Order |
| Sorting.Swap | src/sladu/server/tier/tierSet.go:83-85 | exchanges two elements and keeps the multiset |
| Sorting.Insert | src/sladu/server/tier/tierSet.go:76 | one insertion step extends the sorted prefix and keeps the multiset |
| Sorting.InsertionSort | src/sladu/server/tier/tierSet.go:76 | sort.Sort leaves the array sorted under a strict weak order and a permutation of its input |
| ChronoConfig.Config.constructor | src/chronodium/server/config.go:26-38 | a configuration starts with its tiers, its unordered tier sets and no ordered sets |
| ChronoConfig.Config.Validate | src/chronodium/server/config.go:41-57 | a failing tier gives an error naming that tier; tier sets are validated only after every tier validated and a failing set gives an error naming it; on any error TierSets is unchanged; on success TierSets is every set once, named and sorted by Order |
| ChronoConfig.Config.ValidateTiers | src/chronodium/server/config.go:42-46 | succeeds exactly when every tier validates, and then every tier holds its validated state |
| ChronoConfig.Config.ValidateSet | src/chronodium/server/config.go:49-51 | one tier set's verdict against the configured tiers |
| ChronoConfig.Config.ValidateTierSets | src/chronodium/server/config.go:48-52 | succeeds exactly when every tier set validates, and then each has its tiers resolved |
| ChronoConfig.Config.Order | src/chronodium/server/config.go:54 | TierSets becomes the ordered, named list of the unordered tier sets |
| SladuPersist.BucketKeyPrefix | src/sladu/storage/redis/persist.go:59 | every bucket key starts with "sladu-1-{me" |
| SladuPersist.AddressBounds | src/sladu/storage/redis/persist.go:51-54 | for t ≥ 0 and a granularity g of at least a second: the offset lies in [0, 128·s) for s the whole seconds of g, the bucket is the multiple of 128·s at or below t, the slot lies in [0, 128), and in nanoseconds t lies in the slot's window of width g from the bucket start |
| SladuPersist.AddressBoundsAnySign | src/sladu/storage/redis/persist.go:52-54 | for any t and any granularity that does not panic, of either sign, Go's remainder keeps the offset below 128 buckets of whole seconds and the slot below 128 in size, both non-positive before 1970 for a positive granularity |
| SladuPersist.WholeSecondSlot | src/sladu/storage/redis/persist.go:51-54 | for a whole-second granularity the truncated seconds are exact and the slot is Go's integer quotient of the offset by the seconds |
| SladuPersist.SkewedKeyUnskewedScore | src/sladu/storage/redis/persist.go:51-61 | for every tier that does not panic, the key names the bucket minus the hash's upper 16 bits (a skew in [0, 65535]) and the granularity's whole seconds, the slot is counted in whole granularities, and the marker goes to the whole-seconds gc set scored with the unskewed bucket plus the collect offset |
| SladuPersist.PersistMetricInTier | src/sladu/storage/redis/persist.go:50-63 | panics, queueing nothing, exactly for a tier shorter than a second; otherwise queues exactly ZIncrBy(key, value, slot), ZAdd(gc key, bucket + collect offset, key), Expire(key, ttl), in that order |
| SladuPersist.TierCommands | src/sladu/storage/redis/persist.go:50-63 | none exactly for a tier shorter than a second, where the remainder by zero panics; otherwise three commands: the increment's key is the member of the collection marker and is the key that gets the tier's TTL |
| SladuPersist.TriplesOf | src/sladu/storage/redis/persist.go:39-44 | one part per tier: the tier's own three commands, or nothing for a goroutine that panics |
| SladuPersist.Interleave | src/sladu/storage/redis/persist.go:39-44 | every step of the goroutine schedule queues exactly one command |
| SladuPersist.FirstPanic | src/sladu/storage/redis/persist.go:39-44 | the first step run by a sub-second tier's goroutine, every earlier step belonging to a tier that does not panic |
| SladuPersist.PanicsIffSubSecond | src/sladu/storage/redis/persist.go:38-52 | since every goroutine runs, a schedule reaches a panic exactly when some tier is shorter than a second |
| SladuPersist.Queued | src/sladu/storage/redis/persist.go:39-44 | one queued command per step before the panic, or per step of the whole schedule |
| SladuPersist.PickInterleave | src/sladu/storage/redis/persist.go:39-46 | under any schedule, the commands queued by one goroutine are the next ones of its own part, in order, one per step; under a complete schedule all of them |
| SladuPersist.EachTierInOrder | src/sladu/storage/redis/persist.go:39-63 | under any schedule, one tier's goroutine queues a prefix of that tier's ZIncrBy, ZAdd and Expire in that order; when no goroutine panics, all three |
| SladuPersist.PersistMetric | src/sladu/storage/redis/persist.go:34-48 | panics exactly when some tier is shorter than a second, leaving the commands queued before the panicking step and executing nothing; otherwise queues the tiers' commands in the order the schedule gives, one per step, and executes the pipeline once |
| ChronoPersist.GetBucketMultiple | src/chronodium/storage/redis/persist.go:33-54 | getBucket is a multiple of 14400, and for a non-negative skewed time it is the window start at or below that time |
| ChronoPersist.GetBucket | src/chronodium/storage/redis/persist.go:51-54 | the bucket is a multiple of the 14400-second window |
| ChronoPersist.MinKey | src/chronodium/storage/redis/persist.go:84 | the least key of a non-empty key set in Go's byte order |
| ChronoPersist.CanonicalKeysShape | src/chronodium/storage/redis/persist.go:80-84 | the canonical listing of the keys is strictly ascending and holds exactly the keys |
| ChronoPersist.AscendingIsCanonical | src/chronodium/storage/redis/persist.go:80-84 | any strictly ascending listing of a key set is the canonical one, so equal maps give equal key orders |
| ChronoPersist.CollectKeys | src/chronodium/storage/redis/persist.go:80-83 | the collected keys are exactly the map's keys, each once |
| ChronoPersist.SortKeys | src/chronodium/storage/redis/persist.go:84 | sorting distinct keys gives a strictly ascending listing of the same keys |
| ChronoPersist.ToJson | src/chronodium/storage/redis/persist.go:79-98 | the output is the canonical JSON object: keys ascending, each `"k":"v"`, separated by ',' inside braces |
| ChronoPersist.WriteEntries | src/chronodium/storage/redis/persist.go:88-95 | the loop writes each entry, followed by ',' unless it is the last |
| ChronoPersist.PackPoint | src/chronodium/storage/redis/persist.go:65-67 | a point is 16 bytes: the time, then the value |
| ChronoPersist.PersistCommands | src/chronodium/storage/redis/persist.go:56-74 | four commands: an append to the data key and a ZAdd to the index key, each followed by a 25-hour Expire of that same key |
| ChronoPersist.SameSeriesSameKey | src/chronodium/storage/redis/persist.go:58-72 | two metrics with the same key, bucket and metadata append to the same data key and issue the same index ZAdd |
| ChronoPersist.PersistMetric | src/chronodium/storage/redis/persist.go:56-74 | queues exactly Append(data key, 16 bytes), Expire 25 h, ZAdd(index key, hash, "bucket-json"), Expire 25 h, in that order, and executes nothing |
| Binary.LittleEndianRoundTrip | src/chronodium/storage/redis/query.go:127-128 | reading back k little-endian bytes written from n < 256^k gives n |
| Binary.Uint64RoundTrip | src/chronodium/storage/redis/persist.go:67 | an unsigned 64-bit word survives its 8-byte little-endian layout |
| Binary.Int64RoundTrip | src/chronodium/storage/redis/persist.go:66 | a signed 64-bit word survives its two's-complement 8-byte little-endian layout |
| Binary.Int64LE | src/chronodium/storage/redis/query.go:127 | eight bytes read as a two's-complement word give an int64 |
| ChronoQuery.StepMonotone | src/chronodium/storage/redis/query.go:171-174 | the instants visited advance monotonically in steps of 14400 s |
| ChronoQuery.BucketsInWindow | src/chronodium/storage/redis/query.go:164-177 | start after end gives no buckets and the error; otherwise element k is getBucket of start + k·14400 s, for exactly the k whose instant is not after end |
| ChronoQuery.MatchFilter | src/chronodium/storage/redis/query.go:152-156 | an entry is kept iff every filter key is present with an equal value |
| ChronoQuery.KeptMatches | src/chronodium/storage/redis/query.go:141-159 | every kept metadata map satisfies the whole filter, and a hash is kept iff some entry with that score decodes and matches |
| ChronoQuery.Kept | src/chronodium/storage/redis/query.go:141-159 | every kept metadata map satisfies the whole filter |
| ChronoQuery.KeptLastWins | src/chronodium/storage/redis/query.go:142-158 | the last surviving entry with a given score decides that hash's metadata |
| ChronoQuery.FilteredMetadataHashes | src/chronodium/storage/redis/query.go:136-162 | the result is the decoded, filtered index; a failed read gives the empty map |
| ChronoQuery.WrittenMembersNeverDecode | src/chronodium/storage/redis/persist.go:72 | a member the writer stores starts with the bucket digits or a minus sign, so a decoder that accepts only a JSON object or `null` rejects it (the query side decodes the member as-is, query.go:146) |
| ChronoQuery.ReadWord | src/chronodium/storage/redis/query.go:127-128 | binary.Read takes the next 8 little-endian bytes, or leaves the variable as it was when fewer remain |
| ChronoQuery.AsWord | src/chronodium/storage/redis/query.go:122 | the int64 loop variable as a 64-bit word reads back as itself |
| ChronoQuery.Int64LEIsAsInt64 | src/chronodium/storage/redis/query.go:127 | reading a timestamp word agrees with the two's-complement reading |
| ChronoQuery.UnpackRecords | src/chronodium/storage/redis/query.go:118-134 | one point per started 16-byte record; point i of every whole record is the little-endian time and value at bytes 16i..16i+15, with nil metadata |
| ChronoQuery.UnpackTail | src/chronodium/storage/redis/query.go:126-131 | a trailing partial record still yields a point, reusing the previous values |
| ChronoQuery.UnpackPacked | src/chronodium/storage/redis/persist.go:65-68 | unpacking the appended 16-byte records gives back every (time, value) in order |
| ChronoQuery.UnpackPoints | src/chronodium/storage/redis/query.go:118-134 | the loop returns ⌈len/16⌉ points, record i decoded from bytes 16i.. |
| ChronoQuery.GroupsFetched | src/chronodium/storage/redis/query.go:104-112 | fetching one more hash appends its unpacked points with that hash's metadata |
| ChronoQuery.GroupsFailed | src/chronodium/storage/redis/query.go:106-110 | a fetch error ends the bucket with the groups gathered so far |
| ChronoQuery.QueryBucket | src/chronodium/storage/redis/query.go:100-116 | one group per surviving hash until the first fetch error, each group carrying metadata that matches the filter |
| ChronoQuery.TimestampLessIsStrictWeak | src/chronodium/storage/redis/query.go:80-82 | ResultSet.Less is a strict weak order, so sort.Sort's result is well defined up to ties |
| ChronoQuery.Tagged | src/chronodium/storage/redis/query.go:57-64 | a group's points appear in the result with the group's metadata and otherwise unchanged |
| ChronoQuery.AllTaggedAppend | src/chronodium/storage/redis/query.go:55-66 | the result of two group lists is the concatenation of their results |
| ChronoQuery.AllTaggedPermutation | src/chronodium/storage/redis/query.go:55-66 | visiting the groups in another order yields the same points in another order |
| ChronoQuery.AllBucketsAt | src/chronodium/storage/redis/query.go:47-48 | bucket k's groups are what queryBucket returns for bucket k |
| ChronoQuery.AddGroups | src/chronodium/storage/redis/query.go:49-51 | every group is appended to the list under its metadata hash |
| ChronoQuery.CollectGroups | src/chronodium/storage/redis/query.go:44-52 | the groups of every bucket of the window, in bucket order, filed under their hashes, each matching the filter |
| ChronoQuery.ConcatStep | src/chronodium/storage/redis/query.go:47-52 | one more bucket appends its groups |
| ChronoQuery.FlattenGroups | src/chronodium/storage/redis/query.go:54-66 | the output is every stored group's tagged points, the groups in some map order, each exactly once |
| ChronoQuery.TagGroups | src/chronodium/storage/redis/query.go:56-65 | the groups of one hash, tagged, one after the other |
| ChronoQuery.TagPoints | src/chronodium/storage/redis/query.go:57-64 | each point of a group, tagged with its metadata |
| ChronoQuery.SortByTimestamp | src/chronodium/storage/redis/query.go:68-86 | the output is sorted by timestamp and a permutation of its input |
| ChronoQuery.Query | src/chronodium/storage/redis/query.go:35-72 | an unset start date becomes an hour before its own clock reading and an unset end date the later reading, each set once; the window's buckets are enumerated, and the output is sorted by timestamp and holds every point of every fetched group exactly once, each tagged with its group's metadata |
| ChronoRedis.Redis.constructor | src/chronodium/storage/redis/redis.go:66-71 | the source registry starts empty |
| ChronoRedis.Redis.AddSource | src/chronodium/storage/redis/redis.go:66-71 | a new name is added with its source and every other entry is unchanged; an existing name panics in Go, so the model requires a new name |
| ChronoRedis.GcKeyDistinct | src/chronodium/storage/redis/redis.go:144-146 | the marker key of a granularity is "chronodium-1-gc-" and its decimal, so distinct granularities never share a marker set |
| ChronoRedis.GcKey | src/chronodium/storage/redis/redis.go:144-146 | the marker key is "chronodium-1-gc-" followed by the granularity in decimal |
| ChronoRedis.FormatRedisKey | src/chronodium/storage/redis/redis.go:150 | a formatted key starts with the schema-1 metric prefix and the metric name between the braces the parser reads |
| ChronoRedis.DigitRun | src/chronodium/storage/redis/redis.go:150 | the `[0-9]+` run at the start of a string: all digits, followed by a non-digit or the end |
| ChronoRedis.LastIndexOf | src/chronodium/storage/redis/redis.go:150 | the last occurrence of a character, absent exactly when the character is |
| ChronoRedis.SplitPrefix | src/chronodium/storage/redis/redis.go:150 | a key accepted by `^chronodium-([0-9]+)-\{metric-` is that prefix with a non-empty digit version, then the rest |
| ChronoRedis.SplitSuffix | src/chronodium/storage/redis/redis.go:150 | a body accepted by `(.+)\}-([0-9]{10})-([0-9]+)$` is a non-empty name without line feeds, "}-", ten digits, "-" and a non-empty digit run |
| ChronoRedis.Submatches | src/chronodium/storage/redis/redis.go:150-154 | a key matches only in the shape `chronodium-<digits>-{metric-<name>}-<10 digits>-<digits>` |
| ChronoRedis.ParseRedisKey | src/chronodium/storage/redis/redis.go:148-165 | the only errors are the no-match error and "Unsupported schema version: <key>" |
| ChronoRedis.TenDigits | src/chronodium/storage/redis/redis.go:150 | a bucket in [10^9, 10^10) is written with exactly ten digits |
| ChronoRedis.SplitPrefixVersionOne | src/chronodium/storage/redis/redis.go:150-159 | a version-1 key splits into version "1" and its body |
| ChronoRedis.SplitSuffixFormatted | src/chronodium/storage/redis/redis.go:150 | a formatted body splits back into its name, bucket and granularity |
| ChronoRedis.ParseFormatRoundTrip | src/chronodium/storage/redis/redis.go:148-165 | formatting a non-empty name, a ten-digit bucket and a granularity with version 1, then parsing, gives back exactly those three values |
| ChronoRedis.ForeignPrefixNeverParses | src/chronodium/storage/redis/redis.go:150-154 | a key that does not start with "chronodium-" never parses |
| ChronoRedis.FirstAt | src/chronodium/storage/redis/redis.go:173-176 | the first tier at or after a position whose whole seconds equal the granularity, none when no such tier |
| ChronoRedis.NextTierSpec | src/chronodium/storage/redis/redis.go:167-185 | a next tier found is always a non-first tier of some set |
| ChronoRedis.NextTierNone | src/chronodium/storage/redis/redis.go:167-185 | when no set both matches the name and has the granularity there is no next tier |
| ChronoRedis.NextTierFirstServing | src/chronodium/storage/redis/redis.go:167-185 | otherwise the first set that matches and has the granularity decides: the tier after its first tier of that granularity, none when that is the last; matching sets without it are skipped |
| ChronoRedis.NextTier | src/chronodium/storage/redis/redis.go:167-185 | the nested loops return null exactly when the lookup finds nothing, and otherwise the tier it finds |
| Rollup.Granularities | src/sladu/storage/redis/rollup.go:114-129 | every granularity used by some tier of some set, each exactly once |
| Rollup.Listing | src/sladu/storage/redis/rollup.go:123-126 | appending the keys of a set in map order lists each element once |
| Rollup.SingleEntryPerKey | src/sladu/storage/redis/rollup.go:94-103 | every target key holds a single offset, with the value of the one timestamp that created it: a later timestamp reaching the same key adds to a copy and is lost |
| Rollup.ReaddressOne | src/sladu/storage/redis/rollup.go:95-102 | a new target key is created with the timestamp's value and bucket; an existing key is left as it was |
| Rollup.Readdress | src/sladu/storage/redis/rollup.go:93-103 | every timestamp's target key is present and every key was created by some timestamp |
| Rollup.OffsetCommands | src/sladu/storage/redis/rollup.go:107-109 | one entry gives a ZIncrBy, a ZAdd on the next tier's marker set and an Expire, in that order |
| Rollup.KeyCommands | src/sladu/storage/redis/rollup.go:106-110 | three commands per offset of a key |
| Rollup.EmitCount | src/sladu/storage/redis/rollup.go:105-111 | with one entry per key, three commands per key |
| Rollup.EnumeratesInit | src/sladu/storage/redis/rollup.go:105 | dropping the last key of an enumeration enumerates the map without it |
| Rollup.EmitSameMap | src/sladu/storage/redis/rollup.go:105-111 | the commands depend only on the entries of the keys taken |
| Rollup.QueueOffset | src/sladu/storage/redis/rollup.go:107-109 | the pipeline gains exactly the entry's three commands and nothing is executed |
| Rollup.KeyStep | src/sladu/storage/redis/rollup.go:106-110 | one more offset appends its three commands |
| Rollup.EmitKey | src/sladu/storage/redis/rollup.go:106-110 | the inner loop takes every offset of the key once and queues its commands in that order |
| Rollup.EmitStep | src/sladu/storage/redis/rollup.go:105-111 | one more key appends that key's commands |
| Rollup.EmitAll | src/sladu/storage/redis/rollup.go:105-111 | the outer loop takes every key once and queues exactly their commands |
| Rollup.FindRoute | src/sladu/storage/redis/rollup.go:76-91 | given the key parser (RollupBucket passes the chronodium bucket-key parser), fails exactly when the bucket cannot be read, its name does not parse or no next tier exists; otherwise returns the bucket's values, its metric and the next tier |
| Rollup.ReadBucket | src/sladu/storage/redis/rollup.go:76-86 | succeeds exactly when the read and the name parse succeed, and returns the bucket's timestamp map |
| Rollup.RouteOfUnroutable | src/sladu/storage/redis/rollup.go:76-86 | an unreadable bucket or an unparsable name has no route |
| Rollup.RouteOfParsed | src/sladu/storage/redis/rollup.go:83-91 | a readable, parsable bucket is routed to the next tier of its metric and granularity, and has no route when there is none |
| Rollup.Forward | src/sladu/storage/redis/rollup.go:93-111 | readdresses every timestamp at the next tier's granularity and queues the commands of every resulting entry, executing nothing |
| Rollup.RollupBucket | src/sladu/storage/redis/rollup.go:75-112 | queues nothing without a route, and otherwise exactly the commands of the readdressed buckets |
| Rollup.SladuBucketHasNoRoute | src/sladu/storage/redis/rollup.go:83-86 | a bucket named by the sladu writer never parses as a chronodium key, so rolling it up queues nothing |
| Rollup.RolledUpCount | src/sladu/storage/redis/rollup.go:93-111 | with a route, three commands per distinct target key, however many timestamps reach it |
| Rollup.Due | src/sladu/storage/redis/rollup.go:48-54 | the members scored at most `now`, in order |
| Rollup.Markers | src/sladu/storage/redis/rollup.go:48-58 | no markers on a read error; otherwise the first 4096 due members |
| Rollup.InterleaveRemovesAll | src/sladu/storage/redis/rollup.go:61-64 | every marker processed is removed from the marker set |
| Rollup.InterleaveStep | src/sladu/storage/redis/rollup.go:61-64 | one more marker appends its rollup and its ZRem |
| Rollup.AllRolledUpAt | src/sladu/storage/redis/rollup.go:61-63 | each marker's commands are its rollup |
| Rollup.AllRolledUpStep | src/sladu/storage/redis/rollup.go:61-63 | one more marker rolled up extends the record |
| Rollup.RollupMarker | src/sladu/storage/redis/rollup.go:62-63 | queues the marker's rollup followed by its removal |
| Rollup.RollupMarkers | src/sladu/storage/redis/rollup.go:61-64 | queues the rollup and removal of every marker in order |
| Rollup.RollupGranularity | src/sladu/storage/redis/rollup.go:47-68 | processes the due markers of the granularity's marker set, executes the pipeline once and returns the number of markers |
| SladuQuery.NonNumericMemberIsZero | src/sladu/storage/redis/query.go:35 | a member that is not a decimal number is read as timestamp 0, its error being ignored |
| SladuQuery.PairsMapKeys | src/sladu/storage/redis/query.go:34-37 | the result holds exactly the timestamps of the members read |
| SladuQuery.PairsMapLastWins | src/sladu/storage/redis/query.go:34-37 | the last member with a given timestamp decides its value |
| SladuQuery.PairsMapSize | src/sladu/storage/redis/query.go:34-37 | no more entries than members |
| SladuQuery.QueryBucket | src/sladu/storage/redis/query.go:26-40 | a read error gives an empty map and that error; otherwise the map of the members read and no error |
| ChronoStorage.Query.constructor | src/chronodium/storage/storage.go:35-40 | a query holds its shard key, optional dates and filter |
| ChronoStorage.Query.GetStartDate | src/chronodium/storage/storage.go:42-49 | a missing start date becomes one hour before now and is stored; a set one is returned unchanged |
| ChronoStorage.Query.GetEndDate | src/chronodium/storage/storage.go:51-58 | a missing end date becomes now and is stored; a set one is returned unchanged |
| ChronoStorage.Query.GettersIdempotent | src/chronodium/storage/storage.go:42-58 | once filled in, the dates no longer depend on the clock: a second call returns what the first did |
| GroupBy.TimeKeyParses | src/chronodium/storage/redis/groupBy.go:210-212 | a time grouper's key is "__time_" followed by its window in decimal, which parses back to the window |
| GroupBy.TimeKeysDistinct | src/chronodium/storage/redis/groupBy.go:210-212 | time groupers with different windows have different keys |
| GroupBy.TimeSplitCoversPoint | src/chronodium/storage/redis/groupBy.go:216-217 | every point has an entry for its window, whose key parses to the point's time minus Go's remainder by the window |
| GroupBy.TimeBucketsStep | src/chronodium/storage/redis/groupBy.go:216-226 | one more point adds its window to the set of windows |
| GroupBy.TimeGroupByValue | src/chronodium/storage/redis/groupBy.go:214-231 | one entry per window of the points, each with the input's metadata and hash and no points, since the append updates a copy |
| GroupBy.TimeGrouperKeepsNoPoints | src/chronodium/storage/redis/groupBy.go:214-231 | the time grouper has an entry exactly when the group has points, and every entry holds no points, because the append updates a copy |
| GroupBy.GroupByValue | src/chronodium/storage/redis/groupBy.go:192-231 | every entry of either grouper carries the input group's metadata and metadata hash |
| GroupBy.SplitGroup | src/chronodium/storage/redis/groupBy.go:192-231 | a field grouper maps the group's field value ("" when missing) to the group; a time grouper splits by window |
| GroupBy.DistributeKeys | src/chronodium/storage/redis/groupBy.go:55-61 | fieldValues has a non-empty list for exactly the values some group splits into |
| GroupBy.DistributeAppend | src/chronodium/storage/redis/groupBy.go:57-59 | one more group appends each of its split entries to the list of its value |
| GroupBy.DistributeByString | src/chronodium/storage/redis/groupBy.go:57-59 | with a field grouper each group is appended to the list of its own value |
| GroupBy.ByStringPartition | src/chronodium/storage/redis/groupBy.go:55-61 | a field grouper partitions the groups: every group once, each in the list of its field value |
| GroupBy.AddSplit | src/chronodium/storage/redis/groupBy.go:57-59 | the inner loop appends every split entry to the list of its value |
| GroupBy.MergeNone | src/chronodium/storage/redis/groupBy.go:57-59 | appending no entries changes nothing |
| GroupBy.MergeAll | src/chronodium/storage/redis/groupBy.go:57-59 | appending all entries is the merge |
| GroupBy.MergeOneMore | src/chronodium/storage/redis/groupBy.go:57-59 | one more entry appends to its own list only |
| GroupBy.FieldValues | src/chronodium/storage/redis/groupBy.go:54-61 | fieldValues distributes every group of every shard, each once, in some iteration order |
| GroupBy.FileGroups | src/chronodium/storage/redis/groupBy.go:56-60 | filing one shard's groups extends the distribution by those groups |
| GroupBy.FirstLevel | src/chronodium/storage/redis/groupBy.go:63-72 | one node per value, holding that value's groups and the first group's metadata; together the nodes hold every filed group once |
| GroupBy.FirstLevelStep | src/chronodium/storage/redis/groupBy.go:65-71 | one more value appends its node |
| GroupBy.LaterLevel | src/chronodium/storage/redis/groupBy.go:73-82 | one node per value, each with the whole previous level as children |
| GroupBy.GroupsOfLater | src/chronodium/storage/redis/groupBy.go:73-82 | a later node reaches exactly the groups of the previous level |
| GroupBy.BuildLevel | src/chronodium/storage/redis/groupBy.go:53-83 | one iteration over a grouper: the first level from the groups, a later level from its parent |
| GroupBy.ParentsKept | src/chronodium/storage/redis/groupBy.go:53 | building a level leaves the parents of earlier levels unchanged |
| GroupBy.BuildLevels | src/chronodium/storage/redis/groupBy.go:51-84 | every grouper gets its level, built on the previous one, and the last level is returned |
| GroupBy.AllGroups | src/chronodium/storage/redis/groupBy.go:42-47 | every group of every shard, once |
| GroupBy.NewGroupByGroup | src/chronodium/storage/redis/groupBy.go:34-88 | the root holds every group without groupers; otherwise its children are the last level and it holds no groups |
| GroupBy.SecondLevelHoldsAllGroups | src/chronodium/storage/redis/groupBy.go:63-82 | with a field grouper first, every second-level node reaches every group exactly once |
| GroupBy.GroupsOfAllAppend | src/chronodium/storage/redis/groupBy.go:176-178 | the groups of a list of nodes concatenate node by node |
| GroupBy.GetDataPointGroups | src/chronodium/storage/redis/groupBy.go:170-181 | a node's own groups when it has them, otherwise its children's in order |
| GroupBy.BuildRows | src/chronodium/storage/redis/groupBy.go:104-128 | one row per leaf, and every field name met is added to the keys |
| GroupBy.RowsCount | src/chronodium/storage/redis/groupBy.go:115-127 | a node yields as many rows as it has leaves |
| GroupBy.RowsAllCount | src/chronodium/storage/redis/groupBy.go:122-126 | a list of nodes yields as many rows as their leaves together |
| GroupBy.ExtendsTrans | src/chronodium/storage/redis/groupBy.go:106-113 | a row built under a node keeps the fields it was given, overwritten only by names on the path |
| GroupBy.RowsExtend | src/chronodium/storage/redis/groupBy.go:106-127 | every row of a node extends the given fields and holds the node's own field |
| GroupBy.RowsAllExtend | src/chronodium/storage/redis/groupBy.go:122-126 | every row of a list of nodes extends the given fields |
| GroupBy.IsGroupKey | src/chronodium/storage/redis/groupBy.go:147-152 | true exactly when some grouper has the key |
| GroupBy.ListKeys | src/chronodium/storage/redis/groupBy.go:137-139 | lists every key once |
| GroupBy.BuildResultSet | src/chronodium/storage/redis/groupBy.go:130-154 | the rows of the tree; the render keys given, or every field name when none; split into grouper keys and the rest, disjoint and together all render keys |
| Graphite.ParseLineParts | src/sladu/protocol/graphite/protocol.go:54-57 | a line parses only with exactly two spaces; otherwise the error reports the parts SplitN made, one more than the spaces but at most four |
| Graphite.ParseLine | src/sladu/protocol/graphite/protocol.go:53-73 | a parsed metric has a space-free key and an int64 time |
| Graphite.SplitFields | src/sladu/protocol/graphite/protocol.go:54 | three space-free fields joined by single spaces split back into those three fields |
| Graphite.TimeField | src/sladu/protocol/graphite/protocol.go:66 | the time field of a sent line has no space and trims to the decimal time |
| Graphite.ParseFormatLine | src/sladu/protocol/graphite/protocol.go:53-73 | a line sent for a space-free key, a value the float parser accepts and an int64 time parses back to that key, value and time |
| Graphite.ParseBadValue | src/sladu/protocol/graphite/protocol.go:62-64 | a value the float parser refuses fails the line with the parser's error |
| Graphite.ParseBadTime | src/sladu/protocol/graphite/protocol.go:66-69 | a time that is not a decimal int64 once trimmed fails the line with ParseInt's error |
| Decimal.ParseInt | src/sladu/protocol/graphite/protocol.go:66 | the value is always an int64: 0 with a syntax error, the bound crossed with a range error |
| Decimal.FormatInt | src/sladu/storage/redis/persist.go:59-60 | the decimal spelling is non-empty and starts with a minus sign exactly for a negative number |
| Decimal.QuoteChar | src/sladu/protocol/graphite/protocol.go:66-69 | a character of the parse error's quoted input is written as itself exactly when it is printable and neither a quote nor a backslash; otherwise as an escape of two to four characters |
| Decimal.UnquoteQuote | src/sladu/protocol/graphite/protocol.go:66-69 | the quoted input in a parse error reads back, by Go's unquoting, to exactly the input |
| Decimal.QuotePlain | src/sladu/protocol/graphite/protocol.go:66-69 | an input of printable characters other than quote and backslash appears between plain quotes |
| Graphite.Server.constructor | src/sladu/protocol/graphite/protocol.go:49 | the storage queue starts empty |
| Graphite.Server.ProcessRawMetric | src/sladu/protocol/graphite/protocol.go:43-51 | a line that parses queues exactly its metric and returns no error; one that does not returns the parse error and queues nothing |
| Influx.MetadataOf | src/chronodium/protocol/influxdb/model.go:54-58 | the metadata always has "_key" and every tag key |
| Influx.MetadataKeys | src/chronodium/protocol/influxdb/model.go:54-58 | the metadata keys are exactly "_key" and the tag keys |
| Influx.MetadataLastWins | src/chronodium/protocol/influxdb/model.go:56-58 | the last tag with a key decides its value |
| Influx.MetadataName | src/chronodium/protocol/influxdb/model.go:55 | without a tag named "_key", "_key" holds the point's name |
| Influx.KeyNonEmpty | src/chronodium/protocol/influxdb/model.go:41-46 | a computed key holds at least the "__" separator, so it is never recomputed |
| Influx.Metric.constructor | src/chronodium/protocol/influxdb/model.go:81-84 | a metric holds its point and value, with no key and no metadata computed |
| Influx.Metric.Metadata | src/chronodium/protocol/influxdb/model.go:52-62 | the first call builds and caches the metadata of the point; later calls return the cached map |
| Influx.Metric.Key | src/chronodium/protocol/influxdb/model.go:40-50 | the first call stores the vhost (or host, "" when missing), "__" and the point's name; later calls return the stored key |
| Influx.Metric.KeyStable | src/chronodium/protocol/influxdb/model.go:40-62 | a second call of Key or Metadata returns what the first returned |
| Influx.ReadingsCover | src/chronodium/protocol/influxdb/model.go:67-87 | one metric per field of each split point, in order, carrying the point and the field's value |
| Influx.ReadingsCount | src/chronodium/protocol/influxdb/model.go:67-87 | as many metrics as fields across the split points |
| Influx.GetMetricsFromInfluxPoint | src/chronodium/protocol/influxdb/model.go:64-91 | a fresh metric for each Integer or Float field of each split point, in order, with nothing computed yet |
| Http.TimeFromInputCases | src/chronodium/protocol/http/http.go:104-118 | an RFC 3339 time is taken as such; otherwise a decimal integer is that many seconds; otherwise ParseInt's error is returned |
| Http.TimeFromInput | src/chronodium/protocol/http/http.go:104-118 | an error means neither parse succeeded; a time read as Unix seconds is a whole number of seconds within int64 |
| Http.FilterRoundTrip | src/chronodium/protocol/http/http.go:78-91 | "key:value" with a non-empty, colon-free key and value is a valid filter for that key and value |
| Http.ValidFilterColons | src/chronodium/protocol/http/http.go:78-79 | a valid filter holds exactly one colon |
| Http.KeysOfSnoc | src/chronodium/protocol/http/http.go:77-92 | one more filter adds its key when it is valid |
| Http.FiltersMap | src/chronodium/protocol/http/http.go:77-92 | accepted filters give a map with exactly their keys, each holding its filter's value |
| Http.FilterAdded | src/chronodium/protocol/http/http.go:91 | one more accepted filter adds its key and value |
| Http.FiltersOkAcceptable | src/chronodium/protocol/http/http.go:77-92 | accepted filters are all valid and have distinct keys |
| Http.AcceptableAdded | src/chronodium/protocol/http/http.go:79-85 | one more filter, valid and with a new key, keeps the list acceptable |
| Http.FiltersAcceptableOk | src/chronodium/protocol/http/http.go:77-92 | valid filters with distinct keys are accepted |
| Http.FiltersSpec | src/chronodium/protocol/http/http.go:76-93 | filters are accepted exactly when all are valid with distinct keys, and then give each key its value |
| Http.Filters | src/chronodium/protocol/http/http.go:77-92 | an accepted filter list gives a map with one key per filter |
| Http.FiltersErrSticks | src/chronodium/protocol/http/http.go:77-89 | the first bad filter decides the error, whatever follows |
| Http.ParseFilters | src/chronodium/protocol/http/http.go:77-92 | the loop returns the first error or the filter map |
| Http.ValidateQuerySpec | src/chronodium/protocol/http/http.go:47-93 | every error is a 400; an empty pk gives "No primary key specified"; the query is accepted exactly when pk is set, the dates given parse and the filters are acceptable, with the dates defaulting to an hour before now and now |
| Http.ValidateQuery | src/chronodium/protocol/http/http.go:47-93 | every rejection is a 400 with no content type set; an accepted query carries the non-empty pk |
| Http.BadStartDate | src/chronodium/protocol/http/http.go:56-63 | a start date that does not parse gives "Could not parse start-date: " and the error |
| Http.QueryHandler | src/chronodium/protocol/http/http.go:46-95 | an invalid request gets its 400 response; a valid one gets a fresh query with the shard key, both dates and the filters |
| Http.GraphiteResponseSpec | src/chronodium/protocol/http/http.go:120-133 | with jsonp the body is the callback, "(", the encoded list and ")" as application/javascript; otherwise the encoded list as application/json |
| Http.GraphiteResponse | src/chronodium/protocol/http/http.go:120-133 | the response is a 200 with a content type, and its body holds at least the encoded list |
| Http.GraphiteResponseInjective | src/chronodium/protocol/http/http.go:120-133 | different lists never give the same response |
| MongoPersist.ApplyEffect | src/sladu/storage/mongo/persist.go:48-60 | the upsert creates the document when missing, sets its timestamp, adds the value to the slot, and leaves other slots and documents alone |
| MongoPersist.Apply | src/sladu/storage/mongo/persist.go:48-60 | the upsert adds the change's document when missing, sets its timestamp, and leaves every other document as it was |
| MongoPersist.ApplySlot | src/sladu/storage/mongo/persist.go:48-60 | a write adds its value to the one slot of its document and field, a missing slot counting as zero, and to no other slot |
| MongoPersist.ApplyTwice | src/sladu/storage/mongo/persist.go:48-60 | repeating a write adds its value twice: the write is not idempotent |
| MongoPersist.ApplyCommutes | src/sladu/storage/mongo/persist.go:48-60 | two writes give the same slot sums in either order |
| MongoPersist.AddressBounds | src/sladu/storage/mongo/persist.go:41-46 | for a time since 1970 the offset is one of 512 slots, and bucket, offset and skew add up to the time, the unskewed start being a multiple of 512 |
| MongoPersist.SameWindowSameDocument | src/sladu/storage/mongo/persist.go:41-59 | writes of one key in the same 512-second window go to the same document, at the slot of their time |
| MongoPersist.Mongo.constructor | src/sladu/storage/mongo/persist.go:57-60 | the store starts empty |
| MongoPersist.Mongo.PersistMetric | src/sladu/storage/mongo/persist.go:40-67 | without a database error the store is the upsert of the metric's change; with one it is unchanged |

## Left out

- Goroutines, channels and tickers are not modelled, because their point is concurrency. This covers `persistMetrics` and its one-second flush, `Start`, `aggregateSources`, `monitorSourceSizes` and `persistRollups`. The per-tier goroutines of the sladu writer are the exception: their interleaving is a schedule parameter of SladuPersist.PersistMetric.
- SladuPersist.PersistMetric: each queued command is taken to reach the shared pipeline whole, so a schedule interleaves whole commands. Races inside the pipeline's own append are not modelled.
- SladuPersist.PersistMetric: a goroutine's panic ends the process. The model reports it as `panicked`, with the commands queued up to that step and nothing executed; the steps other goroutines might still take before the process dies are not modelled.
- SladuPersist.Slot: `float64(offset) / g.Seconds()` is taken as the exact quotient before truncation. Float64 rounding of `g.Seconds()` and of the division is not modelled.
- Decimal.NumErrorText: strconv.Quote is modelled exactly for ASCII. Characters beyond ASCII are written as themselves, while Go writes those that unicode.IsPrint rejects (such as U+00A0) as `\u` or `\U` escapes. Invalid UTF-8 cannot occur in a string of characters. The members below share this limit.
- Decimal.QuoteChar: writes characters beyond ASCII as themselves, the limit of Decimal.NumErrorText.
- Graphite.ParseBadTime: its error text quotes the input with the limit of Decimal.NumErrorText.
- Graphite.Server.ProcessRawMetric: its ParseInt error text quotes the input with the limit of Decimal.NumErrorText.
- Http.TimeFromInputCases: its error texts quote the input with the limit of Decimal.NumErrorText.
- Http.BadStartDate: the embedded ParseInt text quotes the input with the limit of Decimal.NumErrorText.
- Http.ValidateQuerySpec: its date error texts quote the input with the limit of Decimal.NumErrorText.
- Http.QueryHandler: its date error texts quote the input with the limit of Decimal.NumErrorText.
- ChronoPersist.PackPoint: `conversion.Int64ToBinary` and `conversion.Float64ToBinary` are not part of this model. They are taken to write eight little-endian bytes each, the 16-byte point layout the reader unpacks; ChronoQuery.UnpackPacked and the Binary round trips rest on that reading.
- GroupBy.TimeGroupByValue: a zero window makes Go's integer division panic (groupBy.go:217). The model requires a non-zero window through GroupBy.Splittable instead of modelling the panic.
- GroupBy.SplitGroup: requires a non-zero time window, for the same division panic.
- GroupBy.FieldValues: requires a non-zero time window through CanSplit, for the same division panic.
- GroupBy.BuildLevel: requires a non-zero time window through CanSplit, for the same division panic.
- GroupBy.BuildLevels: requires a non-zero time window through CanSplit, for the same division panic.
- GroupBy.NewGroupByGroup: requires a non-zero time window through CanSplit, for the same division panic.
- `purgeQueuedMetrics` is not modelled: it drains a live channel against a floating-point fill threshold.
- The TCP and HTTP servers, the InfluxDB line-protocol parser and the duplicate sladu JSONP handler are network plumbing and are not modelled. A graphite line, an InfluxDB point and the query parameters are inputs.
- Process lifecycle and configuration loading are outside the core: the daemon, the server, the sladu configuration and the stopper.
- Foreign libraries are parameters of function type, unconstrained except where the library guarantees something (a 32-bit hash): murmur3, `regexp`, `time.ParseDuration`, `strconv.ParseFloat`, RFC 3339 parsing, `json.Unmarshal`, `getBucketForMetric` and `getDbConnection`.
- Floating point: sample values are reals in sladu and 64-bit IEEE patterns in chronodium. Rounding, IEEE decoding, `float64(int64)` conversion and `MarshalJSON`'s float and time formatting are not modelled.
- `showTree` and the printing loop of `BuildResultSet` (groupBy.go:90-102, 156-166) produce console output only; the model stops at the rows and the two key sets.
- `queryHandler` runs the repository query and JSON-encodes the result (http.go:95-101). Both are left out: the model ends at the validated storage query.
- Http.QueryHandler: http.go:47 assigns `time.Time` values to the `*time.Time` date fields of the storage query. The model reads this as both dates being set. Go reads the clock twice on that line; the model takes one reading `now` for both defaults.
- Http.TimeFromInputCases: `time.Unix(n, 0)` is modelled as `n` seconds in nanoseconds, without the range limits of Go's `time.Time`.
- Influx.GetMetricsFromInfluxPoint: a field that is neither Integer nor Float panics in Go, so the model requires every field to be one of the two.
- ChronoRedis.Redis.AddSource: a name already registered panics in Go, so the model requires a new name.
- The scenarios of the two `persist_test.go` files are not proved. They need a live Redis, and their expected values do not match the code. For time 1485004710 and a 2-second tier, persist.go:52-54 gives slot 83 and marker score 1485004830, while the sladu test expects member 1485004876 and score 1.485004995e+09.
- The `AddSource` of the sladu Redis and Mongo stores is not modelled separately: it is the same as the chronodium one.
