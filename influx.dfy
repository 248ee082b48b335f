/** chronodium's InfluxDB line-protocol metrics (src/chronodium/protocol/influxdb/model.go).
    A parsed point is split into points of one field each, and each field becomes a
    metric whose metadata (the point's name under "_key", then its tags) and key are
    computed on first use and cached. The influxdb models package is foreign: points
    are values here and Point.Split(1) is a parameter. */
module Influx {
  import opened Wrappers

  /** A tag of a point, in the order the line gave it. */
  datatype Tag = Tag(key: string, value: string)

  /** The value of one field, by its influx type. */
  datatype FieldValue =
    | IntegerField(i: int)
    | FloatField(f: real)
    | UnsignedField(u: nat)
    | StringField(s: string)
    | BooleanField(b: bool)

  datatype Point = Point(name: string, tags: seq<Tag>, fields: seq<FieldValue>, time: int)

  /** models.Point.Split(1). */
  type Splitter = Point -> seq<Point>

  /** The metadata of a point: "_key" holds the name, then each tag is stored in turn,
      a later tag overwriting an earlier one (or the name) with the same key. */
  function MetadataOf(name: string, tags: seq<Tag>): (md: map<string, string>)
    ensures "_key" in md
    ensures forall i :: 0 <= i < |tags| ==> tags[i].key in md
  {
    if tags == [] then map["_key" := name]
    else
      var last := tags[|tags| - 1];
      MetadataOf(name, tags[..|tags| - 1])[last.key := last.value]
  }

  /** The keys of the metadata are "_key" and the tag keys. */
  lemma {:induction false} MetadataKeys(name: string, tags: seq<Tag>)
    ensures MetadataOf(name, tags).Keys == {"_key"} + set i | 0 <= i < |tags| :: tags[i].key
    decreases |tags|
  {
    if tags != [] {
      var init := tags[..|tags| - 1];
      MetadataKeys(name, init);
      var a := set i | 0 <= i < |tags| :: tags[i].key;
      var b := set i | 0 <= i < |init| :: init[i].key;
      forall k | k in a
        ensures k in b + {tags[|tags| - 1].key}
      {
        var i :| 0 <= i < |tags| && k == tags[i].key;
        if i < |init| {
          assert init[i] == tags[i];
        }
      }
      forall k | k in b
        ensures k in a
      {
        var i :| 0 <= i < |init| && k == init[i].key;
        assert init[i] == tags[i];
      }
    }
  }

  /** The last tag with a given key decides its value; with no tag named "_key" that key
      holds the point's name. */
  lemma {:induction false} MetadataLastWins(name: string, tags: seq<Tag>, i: int)
    requires 0 <= i < |tags|
    requires forall j :: i < j < |tags| ==> tags[j].key != tags[i].key
    ensures MetadataOf(name, tags)[tags[i].key] == tags[i].value
    decreases |tags|
  {
    if i < |tags| - 1 {
      var init := tags[..|tags| - 1];
      assert init[i] == tags[i];
      MetadataLastWins(name, init, i);
    }
  }

  lemma {:induction false} MetadataName(name: string, tags: seq<Tag>)
    requires forall j :: 0 <= j < |tags| ==> tags[j].key != "_key"
    ensures MetadataOf(name, tags)["_key"] == name
    decreases |tags|
  {
    if tags != [] {
      MetadataName(name, tags[..|tags| - 1]);
    }
  }

  /** `metadata[k]`: the empty string when absent. */
  function Lookup(metadata: map<string, string>, k: string): string {
    if k in metadata then metadata[k] else ""
  }

  /** The key of a metric: the vhost when the metadata has one, else the host ("" when
      absent), then "__" and the point's name. */
  function KeyOf(name: string, metadata: map<string, string>): string {
    (if "vhost" in metadata then metadata["vhost"] else Lookup(metadata, "host")) + "__" + name
  }

  /** A key is never empty, so once computed it is never recomputed. */
  lemma KeyNonEmpty(name: string, metadata: map<string, string>)
    ensures |KeyOf(name, metadata)| >= 2 && KeyOf(name, metadata) != ""
  {
  }

  /** One influx metric; `key` is "" and `tags` nil until first computed. */
  class Metric {
    const point: Point
    const value: real
    var key: string
    var tags: Option<map<string, string>>

    constructor(point: Point, value: real)
      ensures this.point == point && this.value == value
      ensures key == "" && tags == None
    {
      this.point := point;
      this.value := value;
      key := "";
      tags := None;
    }

    /** Metadata: built from the point on the first call, the cached map afterwards. */
    method Metadata() returns (md: map<string, string>)
      modifies this`tags
      ensures old(tags).Some? ==> md == old(tags).value
      ensures old(tags).None? ==> md == MetadataOf(point.name, point.tags)
      ensures tags == Some(md)
    {
      if tags.None? {
        var m := map["_key" := point.name];
        for i := 0 to |point.tags|
          invariant m == MetadataOf(point.name, point.tags[..i])
        {
          var tag := point.tags[i];
          assert point.tags[..i + 1][..i] == point.tags[..i];
          m := m[tag.key := tag.value];
        }
        assert point.tags[..|point.tags|] == point.tags;
        tags := Some(m);
      }
      md := tags.value;
    }

    /** Key: computed from the metadata on the first call, the cached key afterwards. */
    method Key() returns (k: string)
      modifies this`key, this`tags
      ensures old(key) != "" ==> k == old(key) && tags == old(tags)
      ensures old(key) == "" ==> k == KeyOf(point.name, if old(tags).Some? then old(tags).value else MetadataOf(point.name, point.tags))
      ensures old(key) == "" ==> tags == Some(if old(tags).Some? then old(tags).value else MetadataOf(point.name, point.tags))
      ensures key == k
    {
      if key == "" {
        var md := Metadata();
        if "vhost" in md {
          key := md["vhost"] + "__" + point.name;
        } else {
          var again := Metadata();
          key := Lookup(again, "host") + "__" + point.name;
        }
      }
      k := key;
    }

    /** Once computed, the key and the metadata do not change: a second call returns
        what the first returned. */
    method KeyStable() returns (k1: string, k2: string, m1: map<string, string>, m2: map<string, string>)
      modifies this`key, this`tags
      ensures k1 == k2 && m1 == m2
      ensures old(tags).None? ==> m1 == MetadataOf(point.name, point.tags)
      ensures old(key) == "" && old(tags).None? ==> k1 == KeyOf(point.name, MetadataOf(point.name, point.tags))
    {
      m1 := Metadata();
      k1 := Key();
      KeyNonEmpty(point.name, m1);
      k2 := Key();
      m2 := Metadata();
    }
  }

  /** Integer and Float are the field types a metric can carry; any other panics. */
  predicate Supported(f: FieldValue) {
    f.IntegerField? || f.FloatField?
  }

  predicate AllSupported(ps: seq<Point>) {
    forall i, k :: 0 <= i < |ps| && 0 <= k < |ps[i].fields| ==> Supported(ps[i].fields[k])
  }

  /** The float64 value of a field. */
  function Reading(f: FieldValue): real
    requires Supported(f)
  {
    if f.IntegerField? then f.i as real else f.f
  }

  /** The (point, value) of each metric, in order: every field of every split point. */
  function Readings(ps: seq<Point>): seq<(Point, real)>
    requires AllSupported(ps)
  {
    if ps == [] then []
    else
      var last := ps[|ps| - 1];
      Readings(ps[..|ps| - 1]) + seq(|last.fields|, k requires 0 <= k < |last.fields| => (last, Reading(last.fields[k])))
  }

  function FieldCount(ps: seq<Point>): nat {
    if ps == [] then 0 else FieldCount(ps[..|ps| - 1]) + |ps[|ps| - 1].fields|
  }

  /** There is one metric per field of each split point, and the metric at a position
      carries the point the field belongs to and the field's value. */
  lemma {:induction false} ReadingsCover(ps: seq<Point>, i: int, k: int)
    requires AllSupported(ps) && 0 <= i < |ps| && 0 <= k < |ps[i].fields|
    ensures |Readings(ps)| == FieldCount(ps)
    ensures FieldCount(ps[..i]) + k < |Readings(ps)|
    ensures Readings(ps)[FieldCount(ps[..i]) + k] == (ps[i], Reading(ps[i].fields[k]))
    decreases |ps|
  {
    var n := |ps| - 1;
    var init := ps[..n];
    assert AllSupported(init) by {
      forall a, b | 0 <= a < |init| && 0 <= b < |init[a].fields|
        ensures Supported(init[a].fields[b])
      {
        assert init[a] == ps[a];
      }
    }
    ReadingsCount(init);
    if i < n {
      assert init[i] == ps[i] && init[..i] == ps[..i];
      ReadingsCover(init, i, k);
    } else {
      assert ps[..i] == init;
    }
  }

  lemma {:induction false} ReadingsCount(ps: seq<Point>)
    requires AllSupported(ps)
    ensures |Readings(ps)| == FieldCount(ps)
    decreases |ps|
  {
    if ps != [] {
      var init := ps[..|ps| - 1];
      assert AllSupported(init) by {
        forall a, b | 0 <= a < |init| && 0 <= b < |init[a].fields|
          ensures Supported(init[a].fields[b])
        {
          assert init[a] == ps[a];
        }
      }
      ReadingsCount(init);
    }
  }

  /** getMetricsFromInfluxPoint: a fresh metric for each field of each split point, in
      order, with nothing computed yet. A field of another type than Integer or Float
      panics in Go, so the caller must not pass one. */
  method GetMetricsFromInfluxPoint(point: Point, split: Splitter) returns (metrics: seq<Metric>)
    requires AllSupported(split(point))
    ensures |metrics| == |Readings(split(point))|
    ensures forall j :: 0 <= j < |metrics| ==>
      fresh(metrics[j]) && (metrics[j].point, metrics[j].value) == Readings(split(point))[j]
    ensures forall j :: 0 <= j < |metrics| ==> metrics[j].key == "" && metrics[j].tags == None
  {
    var ps := split(point);
    metrics := [];
    for i := 0 to |ps|
      invariant AllSupported(ps[..i])
      invariant |metrics| == |Readings(ps[..i])|
      invariant forall j :: 0 <= j < |metrics| ==>
        fresh(metrics[j]) && (metrics[j].point, metrics[j].value) == Readings(ps[..i])[j]
      invariant forall j :: 0 <= j < |metrics| ==> metrics[j].key == "" && metrics[j].tags == None
    {
      var p := ps[i];
      assert ps[..i + 1][..i] == ps[..i] && ps[..i + 1][i] == p;
      ghost var before := Readings(ps[..i]);
      ghost var count := |metrics|;
      for k := 0 to |p.fields|
        invariant |metrics| == count + k
        invariant forall j :: 0 <= j < count ==>
          fresh(metrics[j]) && (metrics[j].point, metrics[j].value) == before[j]
        invariant forall j :: count <= j < |metrics| ==>
          fresh(metrics[j]) && metrics[j].point == p && metrics[j].value == Reading(p.fields[j - count])
        invariant forall j :: 0 <= j < |metrics| ==> metrics[j].key == "" && metrics[j].tags == None
      {
        var f := p.fields[k];
        var value := if f.IntegerField? then f.i as real else f.f;
        var m := new Metric(p, value);
        metrics := metrics + [m];
      }
    }
    assert ps[..|ps|] == ps;
  }
}
