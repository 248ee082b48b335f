/** sladu's MongoDB writer (src/sladu/storage/mongo/persist.go): a metric lands in a
    document of 512 one-second slots, addressed by key and skewed bucket start, through
    an upsert that sets the document's timestamp and adds the value to the slot. The
    database is a map from document id to document; which connection the key's hash
    selects is not part of this model. */
module MongoPersist {
  import opened Wrappers
  import opened GoInt
  import opened Decimal
  import opened SladuPersist

  const NR_REGULAR_VALUES: int := 512
  const GRANULARITY: int := 1

  /** `t % (512 * 1)` with Go's remainder. */
  function Offset(t: int): int {
    Rem(t, NR_REGULAR_VALUES * GRANULARITY)
  }

  /** `t - offset - int64(keyHash)>>16`: the bucket start, moved back by the skew. */
  function BucketStart(t: int, h: Uint32): int {
    t - Offset(t) - Skew(h)
  }

  /** `fmt.Sprintf("%s-%d-%d", key, granularity, bucket)`. */
  function DocId(key: string, bucket: int): string {
    key + "-" + FormatInt(GRANULARITY) + "-" + FormatInt(bucket)
  }

  /** The field `$inc` names: "values." and the offset in decimal. */
  function SlotField(offset: int): string {
    "values." + FormatInt(offset)
  }

  /** A stored bucket: the time of the last write and the value sum of each slot field. */
  datatype Document = Document(timestamp: int, values: map<string, real>)

  /** The upsert: the document it finds, the `$set` timestamp and the `$inc` field and amount. */
  datatype Change = Change(id: string, timestamp: int, field: string, amount: real)

  /** The change persistMetric sends for a metric. */
  function ChangeFor(m: Metric, sum32: Hasher): Change {
    var offset := Offset(m.unix);
    Change(DocId(m.key, BucketStart(m.unix, sum32(m.key))), m.unix, SlotField(offset), m.value)
  }

  /** A slot field's sum; a missing field counts as zero, as for `$inc`. */
  function SlotSum(values: map<string, real>, field: string): real {
    if field in values then values[field] else 0.0
  }

  /** Find-and-modify with upsert: a missing document is created empty first; then the
      timestamp is set and the amount added to the field. */
  function Apply(docs: map<string, Document>, c: Change): (r: map<string, Document>)
    ensures r.Keys == docs.Keys + {c.id} && r[c.id].timestamp == c.timestamp
    ensures forall id :: id in docs && id != c.id ==> r[id] == docs[id]
  {
    var values := if c.id in docs then docs[c.id].values else map[];
    docs[c.id := Document(c.timestamp, values[c.field := SlotSum(values, c.field) + c.amount])]
  }

  /** The upsert creates the document when missing, sets its timestamp, adds the amount
      to the one field it names, and leaves every other field and document as it was. */
  lemma ApplyEffect(docs: map<string, Document>, c: Change)
    ensures Apply(docs, c).Keys == docs.Keys + {c.id}
    ensures Apply(docs, c)[c.id].timestamp == c.timestamp
    ensures SlotSum(Apply(docs, c)[c.id].values, c.field)
         == SlotSum(if c.id in docs then docs[c.id].values else map[], c.field) + c.amount
    ensures forall f :: f != c.field ==>
      SlotSum(Apply(docs, c)[c.id].values, f) == SlotSum(if c.id in docs then docs[c.id].values else map[], f)
    ensures forall id :: id in docs && id != c.id ==> Apply(docs, c)[id] == docs[id]
  {
  }

  /** Applying the same change twice adds its amount twice: the write is not idempotent. */
  lemma ApplyTwice(docs: map<string, Document>, c: Change)
    ensures SlotSum(Apply(Apply(docs, c), c)[c.id].values, c.field)
         == SlotSum(if c.id in docs then docs[c.id].values else map[], c.field) + 2.0 * c.amount
  {
  }

  /** Two writes give the same slot sums in either order; only the timestamp depends on
      which came last. */
  lemma ApplyCommutes(docs: map<string, Document>, c1: Change, c2: Change)
    ensures Apply(Apply(docs, c1), c2).Keys == Apply(Apply(docs, c2), c1).Keys
    ensures forall id, f :: id in Apply(Apply(docs, c1), c2) ==>
      SlotSum(Apply(Apply(docs, c1), c2)[id].values, f) == SlotSum(Apply(Apply(docs, c2), c1)[id].values, f)
  {
    forall id, f | id in Apply(Apply(docs, c1), c2)
      ensures SlotSum(Apply(Apply(docs, c1), c2)[id].values, f) == SlotSum(Apply(Apply(docs, c2), c1)[id].values, f)
    {
      ApplySlot(docs, c1, id, f);
      ApplySlot(docs, c2, id, f);
      ApplySlot(Apply(docs, c1), c2, id, f);
      ApplySlot(Apply(docs, c2), c1, id, f);
    }
  }

  /** The sum of a slot of a document, zero when either is missing. */
  function SlotOf(docs: map<string, Document>, id: string, f: string): real {
    if id in docs then SlotSum(docs[id].values, f) else 0.0
  }

  /** A change adds its amount to its own slot and to no other. */
  lemma ApplySlot(docs: map<string, Document>, c: Change, id: string, f: string)
    ensures SlotOf(Apply(docs, c), id, f) == SlotOf(docs, id, f) + (if id == c.id && f == c.field then c.amount else 0.0)
  {
    ApplyEffect(docs, c);
  }

  /** For a time since 1970 the offset is one of the 512 slots, and bucket start, offset
      and skew add back up to the time, the unskewed start being a multiple of 512. */
  lemma AddressBounds(t: int, h: Uint32)
    requires t >= 0
    ensures 0 <= Offset(t) < NR_REGULAR_VALUES
    ensures BucketStart(t, h) + Offset(t) + Skew(h) == t
    ensures (BucketStart(t, h) + Skew(h)) % NR_REGULAR_VALUES == 0
    ensures t - NR_REGULAR_VALUES - 65535 < BucketStart(t, h) <= t
  {
    QuotRemNonNegative(t, NR_REGULAR_VALUES);
    assert t == (t / NR_REGULAR_VALUES) * NR_REGULAR_VALUES + Offset(t);
  }

  /** Two writes of one key within the same 512-second window go to the same document,
      at the offsets of their times. */
  lemma SameWindowSameDocument(m1: Metric, m2: Metric, sum32: Hasher)
    requires m1.key == m2.key && m1.unix >= 0 && m2.unix >= 0
    requires m1.unix / NR_REGULAR_VALUES == m2.unix / NR_REGULAR_VALUES
    ensures ChangeFor(m1, sum32).id == ChangeFor(m2, sum32).id
    ensures ChangeFor(m1, sum32).field == SlotField(m1.unix % NR_REGULAR_VALUES)
  {
    QuotRemNonNegative(m1.unix, NR_REGULAR_VALUES);
    QuotRemNonNegative(m2.unix, NR_REGULAR_VALUES);
    assert BucketStart(m1.unix, sum32(m1.key)) == BucketStart(m2.unix, sum32(m2.key));
  }

  /** The document store, one document per id. */
  class Mongo {
    var docs: map<string, Document>

    constructor()
      ensures docs == map[]
    {
      docs := map[];
    }

    /** persistMetric: the upsert for the metric; `dbError` is the error the database
        returns, if any, which is only logged. */
    method PersistMetric(m: Metric, sum32: Hasher, dbError: Option<string>)
      modifies this
      ensures dbError.None? ==> docs == Apply(old(docs), ChangeFor(m, sum32))
      ensures dbError.Some? ==> docs == old(docs)
    {
      var offset := Offset(m.unix);
      var keyHash := sum32(m.key);
      var bucket := m.unix - offset - Skew(keyHash);
      var change := Change(DocId(m.key, bucket), m.unix, SlotField(offset), m.value);
      if dbError.Some? {
        return;
      }
      docs := Apply(docs, change);
    }
  }
}
