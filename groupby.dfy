/** The group-by tree of chronodium's redis storage (src/chronodium/storage/redis/groupBy.go).
    Groupers split the fetched groups of points level by level: by the value of a
    metadata field, or by a time window. The tree is then flattened into one row per
    leaf. Go's structs are values, so the tree is a datatype here; the `keys` map that
    buildResultSet shares with its callers is threaded through as an in/out parameter. */
module GroupBy {
  import opened Wrappers
  import opened GoInt
  import opened Decimal
  import opened Bags
  import opened Seqs
  import opened ChronoQuery

  /** fieldName and fieldValue of the root node. */
  const ROOT: string := "__root"

  /** A nil child slice, or a non-nil (possibly empty) one. */
  datatype Children = NoChildren | Children(nodes: seq<Node>)

  /** groupByGroup. Go's nil metadata map and nil group slice are None. */
  datatype Node = Node(fieldName: string, fieldValue: string, metadata: Option<map<string, string>>,
                       subGroupBy: Children, datapointGroups: Option<seq<DatapointGroup>>)

  /** groupByString groups by one metadata field; groupByTime by a window in nanoseconds. */
  datatype Grouper = ByString(key: string) | ByTime(window: int)

  const TIME_PREFIX: string := "__time_"

  /** grouper.Key(): the field a grouper fills in a row. */
  function Key(g: Grouper): string {
    match g
    case ByString(key) => key
    case ByTime(window) => TIME_PREFIX + FormatInt(window)
  }

  /** A time grouper's key is its prefix followed by the decimal window, which parses
      back to the window. */
  lemma TimeKeyParses(w: int)
    requires IsInt64(w)
    ensures Key(ByTime(w))[..|TIME_PREFIX|] == TIME_PREFIX
    ensures ParseInt(Key(ByTime(w))[|TIME_PREFIX|..]) == ParsedInt(w, None)
  {
    assert Key(ByTime(w))[|TIME_PREFIX|..] == FormatInt(w);
    ParseIntFormatInt(w);
  }

  /** Time groupers with different windows have different keys. */
  lemma TimeKeysDistinct(w1: int, w2: int)
    requires IsInt64(w1) && IsInt64(w2) && Key(ByTime(w1)) == Key(ByTime(w2))
    ensures w1 == w2
  {
    TimeKeyParses(w1);
    TimeKeyParses(w2);
  }

  // ---- GroupByValue ----

  /** `metadata[key]`: the empty string when the field is missing. */
  function FieldOf(metadata: map<string, string>, key: string): string {
    if key in metadata then metadata[key] else ""
  }

  /** groupByTime divides every timestamp by the window: a zero window panics in Go as
      soon as there is a point. */
  predicate Splittable(g: Grouper, dpg: DatapointGroup) {
    g.ByTime? && |dpg.points| > 0 ==> g.window != 0
  }

  /** `strconv.Itoa((ts / w) * w)`: the start of the window holding `ts`, truncated
      toward zero. */
  function TimeBucket(ts: int, w: int): string
    requires w != 0
  {
    FormatInt(Quot(ts, w) * w)
  }

  function TimeBuckets(points: seq<Datapoint>, w: int): set<string>
    requires |points| > 0 ==> w != 0
  {
    set i | 0 <= i < |points| :: TimeBucket(points[i].timestamp, w)
  }

  /** Every group of the map carries the metadata and the metadata hash of `dpg`. */
  predicate SameSeries(groups: map<string, DatapointGroup>, dpg: DatapointGroup) {
    forall b :: b in groups ==> groups[b].metadata == dpg.metadata && groups[b].metadataHash == dpg.metadataHash
  }

  /** grouper.GroupByValue: a field grouper maps the group's value of the field to the
      group itself. A time grouper maps the window of each point to a group with the
      input's metadata and hash; the point is appended to a copy of that entry, so the
      entries in the map keep no points. */
  function GroupByValue(g: Grouper, dpg: DatapointGroup): (groups: map<string, DatapointGroup>)
    requires Splittable(g, dpg)
    ensures SameSeries(groups, dpg)
  {
    match g
    case ByString(key) => map[FieldOf(dpg.metadata, key) := dpg]
    case ByTime(w) => map b | b in TimeBuckets(dpg.points, w) :: dpg.(points := [])
  }

  /** The time grouper loses its points: it has an entry exactly when the group has a
      point, and every entry it returns holds no points. */
  lemma TimeGrouperKeepsNoPoints(w: int, dpg: DatapointGroup)
    requires Splittable(ByTime(w), dpg)
    ensures GroupByValue(ByTime(w), dpg) != map[] <==> dpg.points != []
    ensures forall b :: b in GroupByValue(ByTime(w), dpg) ==> GroupByValue(ByTime(w), dpg)[b].points == []
  {
    if dpg.points != [] {
      assert TimeBucket(dpg.points[0].timestamp, w) in GroupByValue(ByTime(w), dpg);
    }
  }

  /** Every point has an entry for its window. Parsing the entry's key gives the start
      of the window, and the point lies Go's remainder by the window past that start. */
  lemma TimeSplitCoversPoint(w: int, dpg: DatapointGroup, i: int)
    requires w != 0 && 0 <= i < |dpg.points| && IsInt64(dpg.points[i].timestamp)
    ensures var ts := dpg.points[i].timestamp;
      && TimeBucket(ts, w) in GroupByValue(ByTime(w), dpg)
      && ParseInt(TimeBucket(ts, w)) == ParsedInt(ts - Rem(ts, w), None)
      && Abs(Rem(ts, w)) < Abs(w)
  {
    var ts := dpg.points[i].timestamp;
    QuotRemIdentity(ts, w);
    assert Abs(ts) % Abs(w) <= Abs(ts);
    ParseIntFormatInt(ts - Rem(ts, w));
  }

  /** groupByTime.GroupByValue. */
  method TimeGroupByValue(w: int, dpg: DatapointGroup) returns (out: map<string, DatapointGroup>)
    requires Splittable(ByTime(w), dpg)
    ensures out == GroupByValue(ByTime(w), dpg)
  {
    out := map[];
    for i := 0 to |dpg.points|
      invariant out.Keys == TimeBuckets(dpg.points[..i], w)
      invariant forall b :: b in out ==> out[b] == dpg.(points := [])
    {
      var point := dpg.points[i];
      var bucket := FormatInt(Quot(point.timestamp, w) * w);
      var newPointGroup;
      if bucket in out {
        newPointGroup := out[bucket];
      } else {
        newPointGroup := DatapointGroup([], dpg.metadata, dpg.metadataHash);
        out := out[bucket := newPointGroup];
      }
      // The append lands in the local copy only; `out` is not written again.
      newPointGroup := newPointGroup.(points := out[bucket].points + [point]);
      TimeBucketsStep(dpg.points, w, i);
    }
    assert dpg.points[..|dpg.points|] == dpg.points;
    assert out == GroupByValue(ByTime(w), dpg);
  }

  lemma TimeBucketsStep(points: seq<Datapoint>, w: int, i: int)
    requires 0 <= i < |points| && w != 0
    ensures TimeBuckets(points[..i + 1], w) == TimeBuckets(points[..i], w) + {TimeBucket(points[i].timestamp, w)}
  {
    var a, b := points[..i + 1], points[..i];
    forall x | x in TimeBuckets(a, w)
      ensures x in TimeBuckets(b, w) + {TimeBucket(points[i].timestamp, w)}
    {
      var k :| 0 <= k < |a| && x == TimeBucket(a[k].timestamp, w);
      if k < i {
        assert a[k] == b[k];
      }
    }
    forall x | x in TimeBuckets(b, w)
      ensures x in TimeBuckets(a, w)
    {
      var k :| 0 <= k < |b| && x == TimeBucket(b[k].timestamp, w);
      assert a[k] == b[k];
    }
    assert a[i] == points[i];
  }

  /** grouper.GroupByValue for either grouper. */
  method SplitGroup(g: Grouper, dpg: DatapointGroup) returns (out: map<string, DatapointGroup>)
    requires Splittable(g, dpg)
    ensures out == GroupByValue(g, dpg)
  {
    match g
    case ByString(key) =>
      out := map[FieldOf(dpg.metadata, key) := dpg];
    case ByTime(w) =>
      out := TimeGroupByValue(w, dpg);
  }

  // ---- fieldValues of one grouper ----

  /** `fieldValues[v] = append(fieldValues[v], split[v])` for every entry of one split.
      The keys of one split are distinct, so the order of that inner range is immaterial. */
  function Merge(fv: map<string, seq<DatapointGroup>>, split: map<string, DatapointGroup>): map<string, seq<DatapointGroup>> {
    map v | v in fv.Keys + split.Keys :: (if v in fv then fv[v] else []) + (if v in split then [split[v]] else [])
  }

  /** The entries of `split` whose keys are in `keys`. */
  function Only(split: map<string, DatapointGroup>, keys: set<string>): map<string, DatapointGroup> {
    map v | v in split.Keys && v in keys :: split[v]
  }

  /** fieldValues after visiting the groups `gs` in this order. */
  function Distribute(g: Grouper, gs: seq<DatapointGroup>): map<string, seq<DatapointGroup>>
    requires forall i :: 0 <= i < |gs| ==> Splittable(g, gs[i])
  {
    if gs == [] then map[] else Merge(Distribute(g, gs[..|gs| - 1]), GroupByValue(g, gs[|gs| - 1]))
  }

  /** Every group the grouper can split. */
  ghost predicate CanSplit(g: Grouper, dg: map<int, seq<DatapointGroup>>) {
    forall h, j :: h in dg && 0 <= j < |dg[h]| ==> Splittable(g, dg[h][j])
  }

  /** `fv` has a non-empty list for exactly the values some group of `gs` splits into. */
  ghost predicate Covers(fv: map<string, seq<DatapointGroup>>, g: Grouper, gs: seq<DatapointGroup>)
    requires forall i :: 0 <= i < |gs| ==> Splittable(g, gs[i])
  {
    (forall v :: v in fv <==> exists i :: 0 <= i < |gs| && v in GroupByValue(g, gs[i])) &&
    (forall v :: v in fv ==> |fv[v]| > 0)
  }

  /** The keys of fieldValues are exactly the keys the grouper produces for some group,
      and every key holds at least one group. */
  lemma {:induction false} DistributeKeys(g: Grouper, gs: seq<DatapointGroup>)
    requires forall i :: 0 <= i < |gs| ==> Splittable(g, gs[i])
    ensures Covers(Distribute(g, gs), g, gs)
    decreases |gs|
  {
    if gs != [] {
      var n := |gs| - 1;
      var init := gs[..n];
      DistributeKeys(g, init);
      assert gs == init + [gs[n]];
      CoversStep(Distribute(g, init), g, init, gs[n]);
    }
  }

  /** Merging one more group's split keeps the cover. */
  lemma CoversStep(fv: map<string, seq<DatapointGroup>>, g: Grouper, init: seq<DatapointGroup>, x: DatapointGroup)
    requires forall i :: 0 <= i < |init| ==> Splittable(g, init[i])
    requires Splittable(g, x)
    requires Covers(fv, g, init)
    ensures Covers(Merge(fv, GroupByValue(g, x)), g, init + [x])
  {
    MergeShape(fv, GroupByValue(g, x));
    MergedFromGroups(fv, g, init, x);
    GroupsMerged(fv, g, init, x);
  }

  /** Every key of the merge is a value of one of the groups visited. */
  lemma MergedFromGroups(fv: map<string, seq<DatapointGroup>>, g: Grouper, init: seq<DatapointGroup>, x: DatapointGroup)
    requires forall i :: 0 <= i < |init| ==> Splittable(g, init[i])
    requires Splittable(g, x)
    requires forall v :: v in fv ==> exists i :: 0 <= i < |init| && v in GroupByValue(g, init[i])
    requires forall v :: v in Merge(fv, GroupByValue(g, x)) <==> v in fv || v in GroupByValue(g, x)
    ensures forall v :: v in Merge(fv, GroupByValue(g, x)) ==>
      exists i :: 0 <= i < |init + [x]| && v in GroupByValue(g, (init + [x])[i])
  {
    var gs := init + [x];
    forall v | v in Merge(fv, GroupByValue(g, x))
      ensures exists i :: 0 <= i < |gs| && v in GroupByValue(g, gs[i])
    {
      if v in fv {
        var i :| 0 <= i < |init| && v in GroupByValue(g, init[i]);
        assert gs[i] == init[i];
      } else {
        assert gs[|init|] == x;
      }
    }
  }

  /** Every value of a group visited is a key of the merge. */
  lemma GroupsMerged(fv: map<string, seq<DatapointGroup>>, g: Grouper, init: seq<DatapointGroup>, x: DatapointGroup)
    requires forall i :: 0 <= i < |init| ==> Splittable(g, init[i])
    requires Splittable(g, x)
    requires forall v, i :: 0 <= i < |init| && v in GroupByValue(g, init[i]) ==> v in fv
    requires forall v :: v in Merge(fv, GroupByValue(g, x)) <==> v in fv || v in GroupByValue(g, x)
    ensures forall v, i :: 0 <= i < |init + [x]| && v in GroupByValue(g, (init + [x])[i]) ==> v in Merge(fv, GroupByValue(g, x))
  {
    var gs := init + [x];
    forall v, i | 0 <= i < |gs| && v in GroupByValue(g, gs[i])
      ensures v in Merge(fv, GroupByValue(g, x))
    {
      if i < |init| {
        assert init[i] == gs[i];
      }
    }
  }

  /** The keys of a merge, each holding at least what it held before or the new entry. */
  lemma MergeShape(fv: map<string, seq<DatapointGroup>>, split: map<string, DatapointGroup>)
    requires forall v :: v in fv ==> |fv[v]| > 0
    ensures forall v :: v in Merge(fv, split) <==> v in fv || v in split
    ensures forall v :: v in Merge(fv, split) ==> |Merge(fv, split)[v]| > 0
  {
  }

  /** Visiting one more group merges its split into fieldValues. */
  lemma DistributeAppend(g: Grouper, gs: seq<DatapointGroup>, x: DatapointGroup)
    requires forall i :: 0 <= i < |gs| ==> Splittable(g, gs[i])
    requires Splittable(g, x)
    ensures Distribute(g, gs + [x]) == Merge(Distribute(g, gs), GroupByValue(g, x))
  {
    assert (gs + [x])[..|gs|] == gs;
  }

  /** For a field grouper, fieldValues files each group once, under its own value of the field. */
  lemma {:induction false} DistributeByString(key: string, gs: seq<DatapointGroup>, f: DatapointGroup -> string)
    requires forall x :: f(x) == FieldOf(x.metadata, key)
    ensures Distribute(ByString(key), gs) == AppendAll(map[], gs, f)
    decreases |gs|
  {
    if gs != [] {
      var n := |gs| - 1;
      DistributeByString(key, gs[..n], f);
      var before := AppendAll(map[], gs[..n], f);
      var merged := Merge(before, GroupByValue(ByString(key), gs[n]));
      var appended := AppendAt(before, f(gs[n]), gs[n]);
      assert merged.Keys == appended.Keys;
      forall v | v in merged
        ensures merged[v] == appended[v]
      {
        if v != f(gs[n]) {
          assert merged[v] == before[v] + [];
        }
      }
    }
  }

  /** A field grouper partitions the groups it is given: together the lists of
      fieldValues hold every group once, and each list holds only groups whose value
      of the field ("" when missing) is that list's key. */
  lemma ByStringPartition(key: string, gs: seq<DatapointGroup>)
    ensures var fv := Distribute(ByString(key), gs);
      && FlatBag(fv, fv.Keys) == multiset(gs)
      && forall v, j :: v in fv && 0 <= j < |fv[v]| ==> FieldOf(fv[v][j].metadata, key) == v
  {
    var f := (x: DatapointGroup) => FieldOf(x.metadata, key);
    DistributeByString(key, gs, f);
    var empty: map<string, seq<DatapointGroup>> := map[];
    assert FlatBag(empty, empty.Keys) == multiset{};
    AppendAllBag(empty, gs, f);
  }

  /** The innermost loop of newGroupByGroup: one split merged into fieldValues. */
  method AddSplit(fv: map<string, seq<DatapointGroup>>, split: map<string, DatapointGroup>) returns (out: map<string, seq<DatapointGroup>>)
    ensures out == Merge(fv, split)
  {
    out := fv;
    var remaining := split.Keys;
    MergeNone(fv, split);
    while remaining != {}
      invariant remaining <= split.Keys
      invariant out == Merge(fv, Only(split, split.Keys - remaining))
      decreases remaining
    {
      NonEmpty(remaining);
      var v :| v in remaining;
      MergeOneMore(fv, split, split.Keys - remaining, v, out);
      out := out[v := (if v in out then out[v] else []) + [split[v]]];
      assert split.Keys - (remaining - {v}) == (split.Keys - remaining) + {v};
      remaining := remaining - {v};
    }
    MergeAll(fv, split);
  }

  lemma MergeNone(fv: map<string, seq<DatapointGroup>>, split: map<string, DatapointGroup>)
    ensures Merge(fv, Only(split, split.Keys - split.Keys)) == fv
  {
    assert Only(split, split.Keys - split.Keys) == map[];
    forall v | v in fv
      ensures Merge(fv, map[])[v] == fv[v]
    {
      assert fv[v] + [] == fv[v];
    }
  }

  lemma MergeAll(fv: map<string, seq<DatapointGroup>>, split: map<string, DatapointGroup>)
    ensures Merge(fv, Only(split, split.Keys - {})) == Merge(fv, split)
  {
    assert Only(split, split.Keys - {}) == split;
  }

  lemma MergeOneMore(fv: map<string, seq<DatapointGroup>>, split: map<string, DatapointGroup>, done: set<string>, v: string,
                     out: map<string, seq<DatapointGroup>>)
    requires v in split && v !in done && out == Merge(fv, Only(split, done))
    ensures Merge(fv, Only(split, done + {v})) == out[v := (if v in out then out[v] else []) + [split[v]]]
  {
    var after := Merge(fv, Only(split, done + {v}));
    var expected := out[v := (if v in out then out[v] else []) + [split[v]]];
    assert after.Keys == expected.Keys;
    forall u | u in after
      ensures after[u] == expected[u]
    {
      if u == v && v !in fv {
        assert v !in out;
      }
    }
  }

  /** The loop over the hashes and groups in newGroupByGroup: fieldValues for one grouper,
      built from every group in some order. */
  method FieldValues(g: Grouper, dg: map<int, seq<DatapointGroup>>) returns (fv: map<string, seq<DatapointGroup>>, ghost order: seq<DatapointGroup>)
    requires CanSplit(g, dg)
    ensures multiset(order) == FlatBag(dg, dg.Keys)
    ensures forall i :: 0 <= i < |order| ==> Splittable(g, order[i])
    ensures fv == Distribute(g, order)
  {
    fv, order := map[], [];
    var remaining := dg.Keys;
    while remaining != {}
      invariant remaining <= dg.Keys
      invariant multiset(order) + FlatBag(dg, remaining) == FlatBag(dg, dg.Keys)
      invariant forall i :: 0 <= i < |order| ==> Splittable(g, order[i])
      invariant fv == Distribute(g, order)
      decreases remaining
    {
      NonEmptyInts(remaining);
      var hash :| hash in remaining;
      FlatBagVisit(dg, remaining, hash, order);
      fv := FileGroups(g, fv, order, dg[hash]);
      order := order + dg[hash];
      remaining := remaining - {hash};
    }
  }

  /** The loop over the groups of one hash in newGroupByGroup. */
  method FileGroups(g: Grouper, fv: map<string, seq<DatapointGroup>>, ghost order: seq<DatapointGroup>, groups: seq<DatapointGroup>)
    returns (fv': map<string, seq<DatapointGroup>>)
    requires forall i :: 0 <= i < |order| ==> Splittable(g, order[i])
    requires forall j :: 0 <= j < |groups| ==> Splittable(g, groups[j])
    requires fv == Distribute(g, order)
    ensures forall i :: 0 <= i < |order + groups| ==> Splittable(g, (order + groups)[i])
    ensures fv' == Distribute(g, order + groups)
  {
    fv' := fv;
    AppendPrefix(order, groups, 0);
    for j := 0 to |groups|
      invariant AllSplittable(g, order + groups[..j])
      invariant fv' == Distribute(g, order + groups[..j])
    {
      var split := SplitGroup(g, groups[j]);
      DistributeAppend(g, order + groups[..j], groups[j]);
      AllSplittableAppend(g, order + groups[..j], groups[j]);
      fv' := AddSplit(fv', split);
      AppendPrefix(order, groups, j + 1);
    }
    AppendPrefix(order, groups, |groups|);
  }

  predicate AllSplittable(g: Grouper, gs: seq<DatapointGroup>) {
    forall i :: 0 <= i < |gs| ==> Splittable(g, gs[i])
  }

  lemma AllSplittableAppend(g: Grouper, gs: seq<DatapointGroup>, x: DatapointGroup)
    requires AllSplittable(g, gs) && Splittable(g, x)
    ensures AllSplittable(g, gs + [x])
  {
    forall i | 0 <= i < |gs| + 1
      ensures Splittable(g, (gs + [x])[i])
    {
      if i < |gs| {
        assert (gs + [x])[i] == gs[i];
      }
    }
  }

  // ---- the levels of the tree ----

  /** A node of the first level: the groups filed under one value, with the metadata of
      the first of them. */
  function FirstNode(g: Grouper, v: string, groups: seq<DatapointGroup>): Node
    requires |groups| > 0
  {
    Node(Key(g), v, Some(groups[0].metadata), NoChildren, Some(groups))
  }

  /** A node of a later level: one value, whose children are the whole previous level. */
  function LaterNode(g: Grouper, v: string, parent: seq<Node>): Node {
    Node(Key(g), v, None, Children(parent), None)
  }

  /** A later node reaches the groups of the whole previous level. */
  lemma GroupsOfLater(g: Grouper, v: string, parent: seq<Node>)
    ensures GroupsOf(LaterNode(g, v, parent)) == GroupsOfAll(parent)
  {
  }

  /** The first level: one node per key of fieldValues, in map order. */
  method FirstLevel(g: Grouper, fv: map<string, seq<DatapointGroup>>) returns (level: seq<Node>, ghost keyOrder: seq<string>)
    requires forall v :: v in fv ==> |fv[v]| > 0
    ensures ListsOnce(keyOrder, fv.Keys) && |level| == |keyOrder|
    ensures forall j :: 0 <= j < |level| ==> level[j] == FirstNode(g, keyOrder[j], fv[keyOrder[j]])
    ensures multiset(GroupsOfAll(level)) == FlatBag(fv, fv.Keys)
  {
    level, keyOrder := [], [];
    var remaining := fv.Keys;
    while remaining != {}
      invariant FirstSoFar(g, fv, remaining, keyOrder, level)
      decreases remaining
    {
      NonEmpty(remaining);
      var v :| v in remaining;
      var groups := fv[v];
      var node := Node(Key(g), v, Some(groups[0].metadata), NoChildren, Some(groups));
      FirstLevelStep(g, fv, remaining, keyOrder, level, v);
      level, keyOrder := level + [node], keyOrder + [v];
      remaining := remaining - {v};
    }
  }

  /** The invariant of FirstLevel's loop: the keys visited so far are listed once each,
      with their nodes, and their groups have left the bag still to visit. */
  ghost predicate FirstSoFar(g: Grouper, fv: map<string, seq<DatapointGroup>>, remaining: set<string>,
                             keyOrder: seq<string>, level: seq<Node>)
  {
    && Visited(fv, remaining, keyOrder)
    && (forall v :: v in fv ==> |fv[v]| > 0)
    && FirstNodes(g, fv, keyOrder, level)
    && multiset(GroupsOfAll(level)) + FlatBag(fv, remaining) == FlatBag(fv, fv.Keys)
  }

  /** The keys visited so far, in visiting order, each once; `remaining` holds the rest. */
  ghost predicate Visited<V>(fv: map<string, V>, remaining: set<string>, keyOrder: seq<string>) {
    && remaining <= fv.Keys
    && (forall v :: v in fv ==> (v in keyOrder <==> v !in remaining))
    && (forall v :: v in keyOrder ==> v in fv)
    && (forall i, j :: 0 <= i < j < |keyOrder| ==> keyOrder[i] != keyOrder[j])
  }

  lemma VisitStep<V>(fv: map<string, V>, remaining: set<string>, keyOrder: seq<string>, v: string)
    requires Visited(fv, remaining, keyOrder) && v in remaining
    ensures Visited(fv, remaining - {v}, keyOrder + [v])
  {
  }

  /** The first-level node of each visited key, in the same order. */
  ghost predicate FirstNodes(g: Grouper, fv: map<string, seq<DatapointGroup>>, keyOrder: seq<string>, level: seq<Node>) {
    && |level| == |keyOrder|
    && (forall v :: v in keyOrder ==> v in fv)
    && (forall v :: v in fv ==> |fv[v]| > 0)
    && (forall j :: 0 <= j < |level| ==> level[j] == FirstNode(g, keyOrder[j], fv[keyOrder[j]]))
  }

  lemma FirstNodesStep(g: Grouper, fv: map<string, seq<DatapointGroup>>, keyOrder: seq<string>, level: seq<Node>, v: string)
    requires FirstNodes(g, fv, keyOrder, level) && v in fv
    ensures FirstNodes(g, fv, keyOrder + [v], level + [FirstNode(g, v, fv[v])])
  {
    var level', keyOrder' := level + [FirstNode(g, v, fv[v])], keyOrder + [v];
    forall j | 0 <= j < |level'|
      ensures level'[j] == FirstNode(g, keyOrder'[j], fv[keyOrder'[j]])
    {
      if j < |level| {
        assert level'[j] == level[j] && keyOrder'[j] == keyOrder[j];
      }
    }
  }

  lemma FirstLevelStep(g: Grouper, fv: map<string, seq<DatapointGroup>>, remaining: set<string>,
                       keyOrder: seq<string>, level: seq<Node>, v: string)
    requires FirstSoFar(g, fv, remaining, keyOrder, level) && v in remaining
    ensures FirstSoFar(g, fv, remaining - {v}, keyOrder + [v], level + [FirstNode(g, v, fv[v])])
  {
    var node := FirstNode(g, v, fv[v]);
    VisitStep(fv, remaining, keyOrder, v);
    FirstNodesStep(g, fv, keyOrder, level, v);
    FlatBagVisit(fv, remaining, v, GroupsOfAll(level));
    GroupsOfAllAppend(level, node);
  }

  /** A later level: one node per key of fieldValues, in map order, each with the whole
      previous level as children. */
  method LaterLevel(g: Grouper, fv: map<string, seq<DatapointGroup>>, parent: seq<Node>) returns (level: seq<Node>, ghost keyOrder: seq<string>)
    ensures ListsOnce(keyOrder, fv.Keys) && |level| == |keyOrder|
    ensures forall j :: 0 <= j < |level| ==> level[j] == LaterNode(g, keyOrder[j], parent)
  {
    level, keyOrder := [], [];
    var remaining := fv.Keys;
    while remaining != {}
      invariant Visited(fv, remaining, keyOrder)
      invariant |level| == |keyOrder|
      invariant forall j :: 0 <= j < |level| ==> level[j] == LaterNode(g, keyOrder[j], parent)
      decreases remaining
    {
      NonEmpty(remaining);
      var v :| v in remaining;
      VisitStep(fv, remaining, keyOrder, v);
      level, keyOrder := level + [Node(Key(g), v, None, Children(parent), None)], keyOrder + [v];
      remaining := remaining - {v};
    }
  }

  /** One level of the tree: built from fieldValues of grouper `g` over all the groups,
      visited in `order`, one node per key in the map order `keyOrder`. The first level
      (no parent) holds the groups; a later level holds its parent level as children. */
  ghost predicate LevelBuilt(g: Grouper, dg: map<int, seq<DatapointGroup>>, order: seq<DatapointGroup>,
                             keyOrder: seq<string>, level: seq<Node>, parent: Option<seq<Node>>)
  {
    && multiset(order) == FlatBag(dg, dg.Keys)
    && (forall k :: 0 <= k < |order| ==> Splittable(g, order[k]))
    && var fv := Distribute(g, order);
    && ListsOnce(keyOrder, fv.Keys)
    && |level| == |keyOrder|
    && (forall v :: v in fv ==> |fv[v]| > 0)
    && (forall j :: 0 <= j < |level| ==>
          level[j] == if parent.None? then FirstNode(g, keyOrder[j], fv[keyOrder[j]])
                      else LaterNode(g, keyOrder[j], parent.value))
    && (parent.None? ==> multiset(GroupsOfAll(level)) == FlatBag(fv, fv.Keys))
  }

  /** The level above level `i`: none for the first. */
  function Parent(levels: seq<seq<Node>>, i: int): Option<seq<Node>>
    requires 0 <= i <= |levels|
  {
    if i == 0 then None else Some(levels[i - 1])
  }

  /** newGroupByGroup. Without groupers the root holds every group. Otherwise level 0
      has one node per value of the first grouper, holding the groups filed under it,
      each later level has one node per value of its grouper whose children are the
      whole previous level, and the root's children are the last level. */
  method NewGroupByGroup(groupers: seq<Grouper>, dg: map<int, seq<DatapointGroup>>)
    returns (root: Node, ghost orders: seq<seq<DatapointGroup>>, ghost keyOrders: seq<seq<string>>, ghost levels: seq<seq<Node>>)
    requires forall i :: 0 <= i < |groupers| ==> CanSplit(groupers[i], dg)
    ensures root.fieldName == ROOT && root.fieldValue == ROOT && root.metadata == None
    ensures |groupers| == 0 ==> root.subGroupBy == Children([]) && root.datapointGroups.Some?
    ensures |groupers| == 0 ==> multiset(root.datapointGroups.value) == FlatBag(dg, dg.Keys)
    ensures |orders| == |keyOrders| == |levels| == |groupers|
    ensures forall i :: 0 <= i < |groupers| ==>
      LevelBuilt(groupers[i], dg, orders[i], keyOrders[i], levels[i], Parent(levels, i))
    ensures |groupers| > 0 ==> root.subGroupBy == Children(levels[|groupers| - 1]) && root.datapointGroups == Some([])
  {
    root := Node(ROOT, ROOT, None, Children([]), Some([]));
    if |groupers| == 0 {
      orders, keyOrders, levels := [], [], [];
      var all := AllGroups(dg);
      root := root.(datapointGroups := Some(all));
      return;
    }
    var last;
    last, orders, keyOrders, levels := BuildLevels(groupers, dg);
    root := root.(subGroupBy := Children(last));
  }

  /** The loop over the groupers in newGroupByGroup; `last` is the final level. */
  method BuildLevels(groupers: seq<Grouper>, dg: map<int, seq<DatapointGroup>>)
    returns (last: seq<Node>, ghost orders: seq<seq<DatapointGroup>>, ghost keyOrders: seq<seq<string>>, ghost levels: seq<seq<Node>>)
    requires |groupers| > 0
    requires forall i :: 0 <= i < |groupers| ==> CanSplit(groupers[i], dg)
    ensures |orders| == |keyOrders| == |levels| == |groupers|
    ensures forall i :: 0 <= i < |groupers| ==>
      LevelBuilt(groupers[i], dg, orders[i], keyOrders[i], levels[i], Parent(levels, i))
    ensures last == levels[|groupers| - 1]
  {
    orders, keyOrders, levels := [], [], [];
    var sub: Option<seq<Node>> := None;
    for i := 0 to |groupers|
      invariant |orders| == |keyOrders| == |levels| == i
      invariant sub == Parent(levels, i)
      invariant forall k :: 0 <= k < i ==>
        LevelBuilt(groupers[k], dg, orders[k], keyOrders[k], levels[k], Parent(levels, k))
    {
      var level, order, keyOrder := BuildLevel(groupers[i], dg, sub);
      ParentsKept(levels, level);
      sub := Some(level);
      orders, keyOrders, levels := orders + [order], keyOrders + [keyOrder], levels + [level];
    }
    last := sub.value;
  }

  /** One pass of the loop over the groupers in newGroupByGroup. */
  method BuildLevel(g: Grouper, dg: map<int, seq<DatapointGroup>>, parent: Option<seq<Node>>)
    returns (level: seq<Node>, ghost order: seq<DatapointGroup>, ghost keyOrder: seq<string>)
    requires CanSplit(g, dg)
    ensures LevelBuilt(g, dg, order, keyOrder, level, parent)
  {
    var fv;
    fv, order := FieldValues(g, dg);
    DistributeKeys(g, order);
    if parent.None? {
      level, keyOrder := FirstLevel(g, fv);
    } else {
      level, keyOrder := LaterLevel(g, fv, parent.value);
    }
  }

  /** Adding a level leaves the parents of the earlier levels as they were. */
  lemma ParentsKept(levels: seq<seq<Node>>, level: seq<Node>)
    ensures forall k :: 0 <= k <= |levels| ==> Parent(levels + [level], k) == Parent(levels, k)
    ensures Parent(levels + [level], |levels| + 1) == Some(level)
  {
  }

  /** The no-grouper branch of newGroupByGroup: every group of every hash, in map order. */
  method AllGroups(dg: map<int, seq<DatapointGroup>>) returns (all: seq<DatapointGroup>)
    ensures multiset(all) == FlatBag(dg, dg.Keys)
  {
    all := [];
    var remaining := dg.Keys;
    while remaining != {}
      invariant remaining <= dg.Keys
      invariant multiset(all) + FlatBag(dg, remaining) == FlatBag(dg, dg.Keys)
      decreases remaining
    {
      NonEmptyInts(remaining);
      var hash :| hash in remaining;
      FlatBagVisit(dg, remaining, hash, all);
      all := all + dg[hash];
      remaining := remaining - {hash};
    }
  }

  /** With a field grouper first, each node of the second level reaches every group
      through its children, once: the children are the whole first level, and the first
      level partitions the groups. */
  lemma SecondLevelHoldsAllGroups(g0: Grouper, g1: Grouper, dg: map<int, seq<DatapointGroup>>,
                                  order0: seq<DatapointGroup>, keyOrder0: seq<string>, level0: seq<Node>,
                                  order1: seq<DatapointGroup>, keyOrder1: seq<string>, level1: seq<Node>, j: int)
    requires g0.ByString?
    requires LevelBuilt(g0, dg, order0, keyOrder0, level0, None)
    requires LevelBuilt(g1, dg, order1, keyOrder1, level1, Some(level0))
    requires 0 <= j < |level1|
    ensures multiset(GroupsOf(level1[j])) == FlatBag(dg, dg.Keys)
  {
    assert level1[j] == LaterNode(g1, keyOrder1[j], level0);
    GroupsOfLater(g1, keyOrder1[j], level0);
    ByStringPartition(g0.key, order0);
  }

  // ---- getDataPointGroups ----

  /** getDataPointGroups: the node's own list when it is not nil, otherwise the lists of
      its children one after the other. */
  function GroupsOf(n: Node): seq<DatapointGroup>
    decreases n, 1
  {
    if n.datapointGroups.Some? then n.datapointGroups.value
    else if n.subGroupBy.NoChildren? then []
    else GroupsOfAll(n.subGroupBy.nodes)
  }

  function GroupsOfAll(ns: seq<Node>): seq<DatapointGroup>
    decreases ns, 0
  {
    if ns == [] then [] else GroupsOfAll(ns[..|ns| - 1]) + GroupsOf(ns[|ns| - 1])
  }

  lemma GroupsOfAllAppend(ns: seq<Node>, n: Node)
    ensures GroupsOfAll(ns + [n]) == GroupsOfAll(ns) + GroupsOf(n)
  {
    assert (ns + [n])[..|ns|] == ns;
  }

  /** getDataPointGroups, with its loop over the children. */
  method GetDataPointGroups(n: Node) returns (out: seq<DatapointGroup>)
    ensures out == GroupsOf(n)
    decreases n
  {
    if n.datapointGroups.Some? {
      return n.datapointGroups.value;
    }
    out := [];
    if n.subGroupBy.Children? {
      var kids := n.subGroupBy.nodes;
      for i := 0 to |kids|
        invariant out == GroupsOfAll(kids[..i])
      {
        var sub := GetDataPointGroups(kids[i]);
        assert kids[..i + 1][..i] == kids[..i];
        out := out + sub;
      }
      assert kids[..|kids|] == kids;
    }
  }

  // ---- buildResultSet ----

  /** The row fields once a node has been visited: a non-root node records itself
      under its field name. */
  function WithField(n: Node, fields: map<string, Node>): map<string, Node> {
    if n.fieldName != ROOT then fields[n.fieldName := n] else fields
  }

  /** The rows buildResultSet returns for a node and the fields gathered above it. */
  function Rows(n: Node, fields: map<string, Node>): seq<map<string, Node>>
    decreases n, 1
  {
    if n.subGroupBy.NoChildren? then [WithField(n, fields)]
    else RowsAll(n.subGroupBy.nodes, WithField(n, fields))
  }

  function RowsAll(ns: seq<Node>, fields: map<string, Node>): seq<map<string, Node>>
    decreases ns, 0
  {
    if ns == [] then [] else RowsAll(ns[..|ns| - 1], fields) + Rows(ns[|ns| - 1], fields)
  }

  /** The field names of the non-root nodes of a tree. */
  function Names(n: Node): set<string>
    decreases n, 1
  {
    (if n.fieldName != ROOT then {n.fieldName} else {}) +
    (if n.subGroupBy.NoChildren? then {} else NamesAll(n.subGroupBy.nodes))
  }

  function NamesAll(ns: seq<Node>): set<string>
    decreases ns, 0
  {
    if ns == [] then {} else NamesAll(ns[..|ns| - 1]) + Names(ns[|ns| - 1])
  }

  /** The leaves of a tree: the nodes with a nil child list. */
  function Leaves(n: Node): nat
    decreases n, 1
  {
    if n.subGroupBy.NoChildren? then 1 else LeavesAll(n.subGroupBy.nodes)
  }

  function LeavesAll(ns: seq<Node>): nat
    decreases ns, 0
  {
    if ns == [] then 0 else LeavesAll(ns[..|ns| - 1]) + Leaves(ns[|ns| - 1])
  }

  /** buildResultSet: the caller's fields are copied, never changed; the names of the
      non-root nodes visited are added to `keys`. */
  method BuildRows(n: Node, fieldsOrig: map<string, Node>, keys: set<string>) returns (rows: seq<map<string, Node>>, keys': set<string>)
    ensures rows == Rows(n, fieldsOrig)
    ensures keys' == keys + Names(n)
    decreases n
  {
    var fields := fieldsOrig;
    keys' := keys;
    if n.fieldName != ROOT {
      fields := fields[n.fieldName := n];
      keys' := keys' + {n.fieldName};
    }
    if n.subGroupBy.NoChildren? {
      return [fields], keys';
    }
    var kids := n.subGroupBy.nodes;
    rows := [];
    for i := 0 to |kids|
      invariant rows == RowsAll(kids[..i], fields)
      invariant keys' == keys + (if n.fieldName != ROOT then {n.fieldName} else {}) + NamesAll(kids[..i])
    {
      var sub, k := BuildRows(kids[i], fields, keys');
      assert kids[..i + 1][..i] == kids[..i];
      rows, keys' := rows + sub, k;
    }
    assert kids[..|kids|] == kids;
  }

  /** A tree yields one row per leaf, whatever fields it starts from: a node with a nil
      child list one row, an empty non-nil list none. */
  lemma {:induction false} RowsCount(n: Node, fields: map<string, Node>)
    ensures |Rows(n, fields)| == Leaves(n)
    decreases n, 1
  {
    if n.subGroupBy.Children? {
      RowsAllCount(n.subGroupBy.nodes, WithField(n, fields));
    }
  }

  lemma {:induction false} RowsAllCount(ns: seq<Node>, fields: map<string, Node>)
    ensures |RowsAll(ns, fields)| == LeavesAll(ns)
    decreases ns, 0
  {
    if ns != [] {
      RowsAllCount(ns[..|ns| - 1], fields);
      RowsCount(ns[|ns| - 1], fields);
    }
  }

  /** `row` is `fields` with some of `names` added or replaced. */
  ghost predicate Extends(row: map<string, Node>, fields: map<string, Node>, names: set<string>) {
    && fields.Keys <= row.Keys <= fields.Keys + names
    && forall k :: k in fields && k !in names ==> row[k] == fields[k]
  }

  lemma ExtendsTrans(row: map<string, Node>, mid: map<string, Node>, fields: map<string, Node>, names: set<string>, n: Node)
    requires Extends(row, WithField(n, fields), names) && mid == WithField(n, fields)
    ensures Extends(row, fields, names + (if n.fieldName != ROOT then {n.fieldName} else {}))
  {
  }

  /** Every row keeps the caller's fields except those a node of the tree names, holds
      no field outside the caller's and the tree's names, and a non-root node's name is
      a field of every row below it. */
  lemma {:induction false} RowsExtend(n: Node, fields: map<string, Node>)
    ensures forall i :: 0 <= i < |Rows(n, fields)| ==> Extends(Rows(n, fields)[i], fields, Names(n))
    ensures n.fieldName != ROOT ==> forall i :: 0 <= i < |Rows(n, fields)| ==> n.fieldName in Rows(n, fields)[i]
    decreases n, 1
  {
    var f' := WithField(n, fields);
    if n.subGroupBy.Children? {
      var kids := n.subGroupBy.nodes;
      RowsAllExtend(kids, f');
      forall i | 0 <= i < |Rows(n, fields)|
        ensures Extends(Rows(n, fields)[i], fields, Names(n))
      {
        ExtendsTrans(Rows(n, fields)[i], f', fields, NamesAll(kids), n);
      }
    }
  }

  lemma {:induction false} RowsAllExtend(ns: seq<Node>, fields: map<string, Node>)
    ensures forall i :: 0 <= i < |RowsAll(ns, fields)| ==> Extends(RowsAll(ns, fields)[i], fields, NamesAll(ns))
    decreases ns, 0
  {
    if ns != [] {
      var init, last := ns[..|ns| - 1], ns[|ns| - 1];
      RowsAllExtend(init, fields);
      RowsExtend(last, fields);
      var a, b := RowsAll(init, fields), Rows(last, fields);
      forall i | 0 <= i < |a + b|
        ensures Extends((a + b)[i], fields, NamesAll(ns))
      {
        if i < |a| {
          assert Extends(a[i], fields, NamesAll(init));
        } else {
          assert Extends(b[i - |a|], fields, Names(last));
        }
      }
    }
  }

  // ---- BuildResultSet ----

  /** The inner loop of BuildResultSet: whether some grouper's key is `renderKey`. */
  method IsGroupKey(renderKey: string, groupers: seq<Grouper>) returns (found: bool)
    ensures found <==> exists i :: 0 <= i < |groupers| && Key(groupers[i]) == renderKey
  {
    for i := 0 to |groupers|
      invariant forall k :: 0 <= k < i ==> Key(groupers[k]) != renderKey
    {
      if Key(groupers[i]) == renderKey {
        return true;
      }
    }
    return false;
  }

  /** `for key := range keys { renderKeys = append(renderKeys, key) }`. */
  method ListKeys(keys: set<string>) returns (out: seq<string>)
    ensures ListsOnce(out, keys)
  {
    var remaining := keys;
    out := [];
    while remaining != {}
      invariant remaining <= keys
      invariant forall k :: k in keys ==> (k in out <==> k !in remaining)
      invariant forall k :: k in out ==> k in keys
      invariant forall i, j :: 0 <= i < j < |out| ==> out[i] != out[j]
      decreases remaining
    {
      NonEmpty(remaining);
      var k :| k in remaining;
      out := out + [k];
      remaining := remaining - {k};
    }
  }

  /** BuildResultSet up to its printing: the rows of the tree, the render keys (the
      tree's field names in map order when none are given), and those keys split into
      the ones some grouper fills and the rest. */
  method BuildResultSet(g: Node, renderKeys: seq<string>, groupers: seq<Grouper>)
    returns (rows: seq<map<string, Node>>, keys: seq<string>, grouped: set<string>, ungrouped: set<string>)
    ensures rows == Rows(g, map[])
    ensures renderKeys == [] ==> ListsOnce(keys, Names(g))
    ensures renderKeys != [] ==> keys == renderKeys
    ensures grouped !! ungrouped
    ensures forall k :: k in grouped + ungrouped <==> k in keys
    ensures forall k :: k in grouped <==> k in keys && exists i :: 0 <= i < |groupers| && Key(groupers[i]) == k
  {
    var collected;
    rows, collected := BuildRows(g, map[], {});
    keys := renderKeys;
    if |keys| == 0 {
      keys := ListKeys(collected);
    }
    grouped, ungrouped := {}, {};
    for i := 0 to |keys|
      invariant grouped !! ungrouped
      invariant forall k :: k in grouped + ungrouped <==> k in keys[..i]
      invariant forall k :: k in grouped <==> k in keys[..i] && exists j :: 0 <= j < |groupers| && Key(groupers[j]) == k
    {
      var renderKey := keys[i];
      assert keys[..i + 1] == keys[..i] + [renderKey];
      var found := IsGroupKey(renderKey, groupers);
      if found {
        grouped := grouped + {renderKey};
      } else {
        ungrouped := ungrouped + {renderKey};
      }
    }
    assert keys[..|keys|] == keys;
  }
}
