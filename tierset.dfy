/** A tier set (src/sladu/server/tier/tierSet.go): a metric-name pattern with the
    chain of tiers its metrics are stored in, from fine to coarse granularity. */
module TierSets {
  import opened Wrappers
  import opened Tiers
  import opened Sorting
  import opened Bags

  /** regexp.Compile, reduced to what the core uses: the error text of a pattern
      that does not compile. */
  type RegexCompiler = string -> Option<string>

  /** The granularity of every named tier. */
  function Granularities(tiers: map<string, Tier>): map<string, int>
    reads tiers.Values
  {
    map k | k in tiers :: tiers[k].granularity
  }

  /** The loop over RawTiers: each name must be known and its granularity must
      exceed the previous one. */
  function ChainError(raw: seq<string>, grans: map<string, int>, prev: int): (err: Option<string>)
    ensures err.None? ==> forall k :: 0 <= k < |raw| ==> raw[k] in grans
    decreases |raw|
  {
    assert forall k :: 0 < k < |raw| ==> raw[k] == raw[1..][k - 1];
    if raw == [] then None
    else if raw[0] !in grans then Some("Unknown tier referenced: " + raw[0])
    else if grans[raw[0]] <= prev then
      Some("The Granularity of Tier '" + raw[0] + "' is lower or equal to the previous one")
    else ChainError(raw[1..], grans, grans[raw[0]])
  }

  /** Every name is known and the granularities increase strictly along the list,
      the first one above `prev`. */
  predicate StrictlyIncreasing(raw: seq<string>, grans: map<string, int>, prev: int) {
    && (forall k :: 0 <= k < |raw| ==> raw[k] in grans)
    && (|raw| > 0 ==> prev < grans[raw[0]])
    && (forall k :: 0 < k < |raw| ==> grans[raw[k - 1]] < grans[raw[k]])
  }

  lemma {:induction false} ChainErrorIff(raw: seq<string>, grans: map<string, int>, prev: int)
    ensures ChainError(raw, grans, prev).None? <==> StrictlyIncreasing(raw, grans, prev)
    decreases |raw|
  {
    if raw != [] && raw[0] in grans && prev < grans[raw[0]] {
      ChainErrorIff(raw[1..], grans, grans[raw[0]]);
      if StrictlyIncreasing(raw[1..], grans, grans[raw[0]]) {
        forall k | 0 < k < |raw|
          ensures grans[raw[k - 1]] < grans[raw[k]]
        {
          if k > 1 {
            assert raw[k - 1] == raw[1..][k - 2] && raw[k] == raw[1..][k - 1];
          }
        }
      }
      if StrictlyIncreasing(raw, grans, prev) {
        assert forall k :: 0 < k < |raw[1..]| ==> raw[1..][k - 1] == raw[k] && raw[1..][k] == raw[k + 1];
      }
    }
  }

  /** The first error TierSet.Validate reports: the pattern, then an empty tier
      list, then the chain. */
  function SetError(compileErr: Option<string>, pattern: string, raw: seq<string>, grans: map<string, int>): (err: Option<string>)
    ensures err.None? <==> compileErr.None? && raw != [] && StrictlyIncreasing(raw, grans, 0)
  {
    ChainErrorIff(raw, grans, 0);
    if compileErr.Some? then Some("Could not parse regex " + pattern + ": " + compileErr.value)
    else if raw == [] then Some("No Tiers have been defined")
    else ChainError(raw, grans, 0)
  }

  class TierSet {
    const rawTiers: seq<string>
    const pattern: string
    const order: int
    var regex: Option<string>
    var tiers: seq<Tier?>
    var id: string

    constructor(rawTiers: seq<string>, pattern: string, order: int)
      ensures this.rawTiers == rawTiers && this.pattern == pattern && this.order == order
      ensures regex == None && tiers == [] && id == ""
    {
      this.rawTiers := rawTiers;
      this.pattern := pattern;
      this.order := order;
      regex := None;
      tiers := [];
      id := "";
    }

    /** Compiles the pattern, then resolves every tier name in `all`, checking that
        granularities increase. On a failed lookup the slot stays nil and the
        slots after it stay unfilled. */
    method Validate(all: map<string, Tier>, compile: RegexCompiler) returns (err: Option<string>)
      modifies this
      ensures err == SetError(compile(pattern), pattern, rawTiers, Granularities(all))
      ensures regex == (if compile(pattern).None? then Some(pattern) else None)
      ensures compile(pattern).Some? || rawTiers == [] ==> tiers == old(tiers)
      ensures compile(pattern).None? && rawTiers != [] ==>
        && |tiers| == |rawTiers|
        && forall k :: 0 <= k < |tiers| && tiers[k] != null ==> rawTiers[k] in all && tiers[k] == all[rawTiers[k]]
      ensures err.None? ==> forall k :: 0 <= k < |tiers| ==> tiers[k] != null
      ensures id == old(id)
    {
      ghost var grans := Granularities(all);
      var compileErr := compile(pattern);
      if compileErr.Some? {
        regex := None;
        return Some("Could not parse regex " + pattern + ": " + compileErr.value);
      }
      regex := Some(pattern);
      if |rawTiers| == 0 {
        return Some("No Tiers have been defined");
      }
      var resolved: seq<Tier?> := seq(|rawTiers|, _ => null);
      var prev := 0;
      var k := 0;
      err := None;
      while k < |rawTiers|
        invariant 0 <= k <= |rawTiers|
        invariant |resolved| == |rawTiers|
        invariant forall j :: 0 <= j < |resolved| && resolved[j] != null ==> rawTiers[j] in all && resolved[j] == all[rawTiers[j]]
        invariant forall j :: 0 <= j < k ==> resolved[j] != null
        invariant ChainError(rawTiers, grans, 0) == ChainError(rawTiers[k..], grans, prev)
        invariant err == None
      {
        var v := rawTiers[k];
        if v !in all {
          err := Some("Unknown tier referenced: " + v);
          break;
        }
        resolved := resolved[k := all[v]];
        if all[v].granularity <= prev {
          err := Some("The Granularity of Tier '" + v + "' is lower or equal to the previous one");
          break;
        }
        prev := all[v].granularity;
        assert rawTiers[k..][1..] == rawTiers[k + 1..];
        k := k + 1;
      }
      tiers := resolved;
    }
  }

  /** orderableTierSet.Less. */
  predicate OrderLess(a: TierSet, b: TierSet) {
    a.order < b.order
  }

  lemma TakeValue(sets: map<string, TierSet>, remaining: set<string>, buf: seq<TierSet>, k: string)
    requires k in remaining && remaining <= sets.Keys
    requires multiset(buf) + ValuesBag(sets, remaining) == ValuesBag(sets, sets.Keys)
    ensures multiset(buf + [sets[k]]) + ValuesBag(sets, remaining - {k}) == ValuesBag(sets, sets.Keys)
  {
    ValuesBagRemove(sets, remaining, k);
  }

  /** One iteration: `v.Id = k; out[i] = v`. */
  method NameOne(sets: map<string, TierSet>, buf: seq<TierSet>, k: string) returns (next: seq<TierSet>)
    requires k in sets
    requires forall i :: 0 <= i < |buf| ==> buf[i].id in sets && sets[buf[i].id] == buf[i]
    modifies (sets[k] as TierSet)`id
    ensures next == buf + [sets[k]]
    ensures forall i :: 0 <= i < |next| ==> next[i].id in sets && sets[next[i].id] == next[i]
  {
    var t := sets[k];
    t.id := k;
    next := buf + [t];
  }

  /** The loop of GetOrderedTierSets: every value is visited under each of its keys,
      in map order, and named after that key. */
  method NameTierSets(sets: map<string, TierSet>) returns (buf: seq<TierSet>)
    modifies sets.Values`id
    ensures |buf| == |sets|
    ensures multiset(buf) == ValuesBag(sets, sets.Keys)
    ensures forall t :: t in buf ==> t.id in sets && sets[t.id] == t
  {
    var remaining := sets.Keys;
    buf := [];
    while remaining != {}
      invariant remaining <= sets.Keys
      invariant multiset(buf) + ValuesBag(sets, remaining) == ValuesBag(sets, sets.Keys)
      invariant forall i :: 0 <= i < |buf| ==> buf[i].id in sets && sets[buf[i].id] == buf[i]
      decreases remaining
    {
      var k :| k in remaining;
      TakeValue(sets, remaining, buf, k);
      buf := NameOne(sets, buf, k);
      remaining := remaining - {k};
    }
    ValuesBagSize(sets, sets.Keys);
    assert |sets.Keys| == |sets|;
  }

  /** `out` holds every value of `sets` once per key, each named after a key it is
      stored under, sorted by Order. */
  ghost predicate OrderedTierSets(out: seq<TierSet>, sets: map<string, TierSet>)
    reads set t | t in out
  {
    && |out| == |sets|
    && multiset(out) == ValuesBag(sets, sets.Keys)
    && (forall t :: t in out ==> t.id in sets && sets[t.id] == t)
    && SortedBy(out, OrderLess)
  }

  /** Names every tier set after its key and returns all of them sorted by Order. */
  method GetOrderedTierSets(sets: map<string, TierSet>) returns (out: seq<TierSet>)
    modifies sets.Values`id
    ensures OrderedTierSets(out, sets)
  {
    var buf := NameTierSets(sets);
    var a := new TierSet[|buf|](i requires 0 <= i < |buf| => buf[i]);
    assert a[..] == buf;
    InsertionSort(a, OrderLess);
    out := a[..];
    SortedNamed(buf, out, sets);
  }

  /** A sorted permutation of the named listing is the ordered listing. */
  lemma SortedNamed(buf: seq<TierSet>, out: seq<TierSet>, sets: map<string, TierSet>)
    requires |buf| == |sets| && multiset(buf) == ValuesBag(sets, sets.Keys)
    requires forall t :: t in buf ==> t.id in sets && sets[t.id] == t
    requires multiset(out) == multiset(buf) && SortedBy(out, OrderLess)
    ensures OrderedTierSets(out, sets)
  {
    assert |out| == |multiset(out)| == |multiset(buf)| == |buf|;
    forall t | t in out
      ensures t.id in sets && sets[t.id] == t
    {
      assert t in multiset(out);
    }
  }
}
