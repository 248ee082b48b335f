/** The helpers of the chronodium Redis backend (src/chronodium/storage/redis/redis.go)
    that the core uses: source registration, the collection-marker key, the parser
    of collected bucket keys and the lookup of the tier a bucket rolls up into. */
module ChronoRedis {
  import opened Wrappers
  import opened GoInt
  import opened Decimal
  import opened Strs
  import opened Seqs
  import opened Tiers
  import opened TierSets

  const SCHEMA_VERSION: int := 1

  /** The backend's registry of named metric sources (the channels themselves are
      not modelled, only what is stored under each name). */
  class Redis<Src> {
    var sources: map<string, Src>

    constructor()
      ensures sources == map[]
    {
      sources := map[];
    }

    /** Registers a source; a name already present makes the Go code panic. */
    method AddSource(name: string, src: Src)
      requires name !in sources
      modifies this
      ensures sources == old(sources)[name := src]
      ensures forall n :: n in old(sources) ==> n in sources && sources[n] == old(sources)[n]
    {
      sources := sources[name := src];
    }
  }

  /** getGcKey: the sorted set of collection markers of a granularity (seconds). */
  function GcKey(granularity: int): (k: string)
    ensures k == "chronodium-1-gc-" + FormatInt(granularity)
  {
    "chronodium-" + FormatInt(SCHEMA_VERSION) + "-gc-" + FormatInt(granularity)
  }

  /** Distinct granularities have distinct marker sets. */
  lemma GcKeyDistinct(g1: int, g2: int)
    requires IsInt64(g1) && IsInt64(g2) && g1 != g2
    ensures GcKey(g1) != GcKey(g2)
  {
    ParseIntFormatInt(g1);
    ParseIntFormatInt(g2);
    var prefix := "chronodium-1-gc-";
    assert GcKey(g1)[|prefix|..] == FormatInt(g1);
    assert GcKey(g2)[|prefix|..] == FormatInt(g2);
  }

  // ---- getMetricNameFromRedisKey ----

  /** What a well-formed bucket key carries. */
  datatype BucketName = BucketName(metric: string, bucket: int, granularity: int)

  /** Length of the run of digits that starts `s`. */
  function DigitRun(s: string): (n: nat)
    ensures n <= |s| && AllDigits(s[..n])
    ensures n < |s| ==> !IsDigit(s[n])
  {
    if s == [] || !IsDigit(s[0]) then 0
    else
      var n := 1 + DigitRun(s[1..]);
      assert s[..n] == [s[0]] + s[1..][..n - 1];
      n
  }

  /** Index of the last occurrence of `c` in `s`. */
  function LastIndexOf(s: string, c: char): (r: Option<nat>)
    ensures r.None? <==> c !in s
    ensures r.Some? ==> r.value < |s| && s[r.value] == c && c !in s[r.value + 1..]
  {
    if s == [] then None
    else if s[|s| - 1] == c then Some(|s| - 1)
    else
      var r := LastIndexOf(s[..|s| - 1], c);
      SnocMembers(s);
      if r.Some? then SuffixSnoc(s, r.value + 1); r else r
  }

  const NO_MATCH: string := "Regex returned 0 elements"

  /** `^chronodium-([0-9]+)-\{metric-`: the version is the digit run after the prefix. */
  function SplitPrefix(key: string): (r: Option<(string, string)>)
    ensures r.Some? ==> var (v, body) := r.value;
      key == "chronodium-" + v + "-{metric-" + body && v != "" && AllDigits(v)
  {
    if !HasPrefix(key, "chronodium-") then None
    else
      var rest := key[11..];
      var n := DigitRun(rest);
      if n == 0 || !HasPrefix(rest[n..], "-{metric-") then None
      else
        Reassemble(key, "chronodium-", "-{metric-", n);
        Some((rest[..n], rest[n + 9..]))
  }

  /** `(.+)\}-([0-9]{10})-([0-9]+)$`: the name is greedy and the rest holds one '}' at
      most, so the name ends at the '}' that starts the suffix `}-<10 digits>-<digits>`.
      The name cannot hold a line feed, which `.` does not match. */
  function SplitSuffix(body: string): (r: Option<(string, string, string)>)
    ensures r.Some? ==> var (m, b, g) := r.value;
      && body == m + "}-" + b + "-" + g
      && m != "" && '\n' !in m && |b| == 10 && AllDigits(b) && g != "" && AllDigits(g)
  {
    match LastIndexOf(body, '-')
    case None => None
    case Some(j) =>
      if j + 1 == |body| || !AllDigits(body[j + 1..]) || j < 12 || body[j - 12..j - 10] != "}-" || !AllDigits(body[j - 10..j]) then None
      else if j == 12 || '\n' in body[..j - 12] then None
      else
        assert body == body[..j - 12] + body[j - 12..j - 10] + body[j - 10..j] + [body[j]] + body[j + 1..];
        Some((body[..j - 12], body[j - 10..j], body[j + 1..]))
  }

  /** The four submatches of the bucket-key pattern, when it matches. */
  function Submatches(key: string): (r: Option<(string, string, string, string)>)
    ensures r.Some? ==> var (v, m, b, g) := r.value;
      && key == "chronodium-" + v + "-{metric-" + (m + "}-" + b + "-" + g)
      && v != "" && AllDigits(v) && m != "" && '\n' !in m
      && |b| == 10 && AllDigits(b) && g != "" && AllDigits(g)
  {
    match SplitPrefix(key)
    case None => None
    case Some((v, body)) =>
      match SplitSuffix(body)
      case None => None
      case Some((m, b, g)) => Some((v, m, b, g))
  }

  /** getMetricNameFromRedisKey: the name, bucket and granularity of a bucket key of
      schema version 1. */
  function ParseRedisKey(key: string): (r: Result<BucketName, string>)
    ensures r.Err? ==> r.error == NO_MATCH || r.error == "Unsupported schema version: " + key
  {
    match Submatches(key)
    case None => Err(NO_MATCH)
    case Some((v, m, b, g)) =>
      if Atoi(v).value != SCHEMA_VERSION then Err("Unsupported schema version: " + key)
      else Ok(BucketName(m, Atoi(b).value, Atoi(g).value))
  }

  /** The key shape the parser accepts, for schema version 1. */
  function FormatRedisKey(n: BucketName): (k: string)
    ensures HasPrefix(k, "chronodium-1-{metric-" + n.metric + "}-")
  {
    var prefix := "chronodium-1-{metric-" + n.metric + "}-";
    assert prefix + FormatInt(n.bucket) + "-" + FormatInt(n.granularity)
        == prefix + (FormatInt(n.bucket) + "-" + FormatInt(n.granularity));
    prefix + FormatInt(n.bucket) + "-" + FormatInt(n.granularity)
  }

  function Pow10(k: nat): nat {
    if k == 0 then 1 else 10 * Pow10(k - 1)
  }

  lemma {:induction false} DigitsValueBounds(s: string)
    requires AllDigits(s)
    ensures DigitsValue(s) < Pow10(|s|)
    ensures s != [] && s[0] != '0' ==> DigitsValue(s) >= Pow10(|s| - 1)
    decreases |s|
  {
    if s != [] {
      var p := s[..|s| - 1];
      var c := s[|s| - 1];
      assert s == p + [c];
      DigitsValueBounds(p);
      HornerAppend(p, c, 0);
      if p != [] {
        assert p[0] == s[0];
      }
    }
  }

  lemma Pow10Monotone(i: nat, j: nat)
    requires i <= j
    ensures Pow10(i) <= Pow10(j)
    decreases j
  {
    if i < j {
      Pow10Monotone(i, j - 1);
    }
  }

  /** A number of [10^9, 10^10) is written with exactly ten digits. */
  lemma TenDigits(b: int)
    requires 1_000_000_000 <= b < 10_000_000_000
    ensures |FormatInt(b)| == 10 && AllDigits(FormatInt(b))
  {
    var s := FormatInt(b);
    NatDigitsValue(b);
    DigitsValueBounds(s);
    assert Pow10(9) == 1_000_000_000 && Pow10(10) == 10_000_000_000;
    if |s| < 10 {
      Pow10Monotone(|s|, 9);
    } else if |s| > 10 {
      Pow10Monotone(10, |s| - 1);
    }
  }

  lemma DigitsHaveNoDash(s: string)
    requires AllDigits(s)
    ensures '-' !in s && '}' !in s
  {
  }

  lemma LastIndexOfAt(s: string, c: char, j: nat)
    requires j < |s| && s[j] == c && c !in s[j + 1..]
    ensures LastIndexOf(s, c) == Some(j)
  {
  }

  lemma SplitPrefixVersionOne(body: string)
    ensures SplitPrefix("chronodium-1-{metric-" + body) == Some(("1", body))
  {
    var key := "chronodium-1-{metric-" + body;
    assert key[..11] == "chronodium-";
    var rest := key[11..];
    assert rest == "1-{metric-" + body;
    var tail := rest[1..];
    assert tail != [] && tail[0] == '-' && !IsDigit(tail[0]);
    assert DigitRun(tail) == 0;
    assert rest != [] && IsDigit(rest[0]) && rest[1..] == tail;
    assert DigitRun(rest) == 1;
    assert rest[1..][..9] == "-{metric-";
    assert rest[..1] == "1";
    assert rest[10..] == body;
  }

  lemma SplitSuffixFormatted(m: string, b: string, g: string)
    requires m != "" && '\n' !in m && |b| == 10 && AllDigits(b) && g != "" && AllDigits(g)
    ensures SplitSuffix(m + "}-" + b + "-" + g) == Some((m, b, g))
  {
    var body := m + "}-" + b + "-" + g;
    var j := |m| + 12;
    FiveParts(m, "}-", b, "-", g);
    assert body[j] == body[j..j + 1][0] == '-';
    assert LastIndexOf(body, '-') == Some(j) by {
      DigitsHaveNoDash(g);
      LastIndexOfAt(body, '-', j);
    }
    assert body[..j - 12] == m;
    assert body[j - 12..j - 10] == "}-";
    assert body[j - 10..j] == b;
    assert j + 1 != |body| && AllDigits(body[j + 1..]) && AllDigits(body[j - 10..j]);
    assert j != 12 && '\n' !in body[..j - 12];
  }

  /** Formatting a name, a ten-digit bucket and a granularity, then parsing, gives
      back exactly those three values. */
  lemma ParseFormatRoundTrip(n: BucketName)
    requires n.metric != "" && '\n' !in n.metric
    requires 1_000_000_000 <= n.bucket < 10_000_000_000
    requires 0 <= n.granularity <= MAX_INT64
    ensures ParseRedisKey(FormatRedisKey(n)) == Ok(n)
  {
    SubmatchesFormatted(n);
    assert Atoi("1").value == 1 by {
      ParseIntDigits("1");
    }
    ParseIntFormatInt(n.bucket);
    ParseIntFormatInt(n.granularity);
  }

  /** A formatted key splits back into version "1", the name and the two numbers' texts. */
  lemma SubmatchesFormatted(n: BucketName)
    requires n.metric != "" && '\n' !in n.metric
    requires 1_000_000_000 <= n.bucket < 10_000_000_000
    requires 0 <= n.granularity
    ensures Submatches(FormatRedisKey(n)) == Some(("1", n.metric, FormatInt(n.bucket), FormatInt(n.granularity)))
  {
    var b := FormatInt(n.bucket);
    var g := FormatInt(n.granularity);
    TenDigits(n.bucket);
    NatDigitsValue(n.granularity);
    var body := n.metric + "}-" + b + "-" + g;
    assert FormatRedisKey(n) == "chronodium-1-{metric-" + body;
    SplitPrefixVersionOne(body);
    SplitSuffixFormatted(n.metric, b, g);
  }

  /** Keys that do not start with "chronodium-" never parse. */
  lemma ForeignPrefixNeverParses(key: string)
    requires |key| >= 11 && key[..11] != "chronodium-"
    ensures ParseRedisKey(key) == Err(NO_MATCH)
  {
  }

  // ---- getNextTierForMetricAndGranularity ----

  /** regexp.MatchString: whether a metric name matches a (compiled) pattern. */
  type Matcher = (string, string) -> bool

  /** Every set has a compiled pattern and all its tiers resolved, as after
      validation; otherwise the Go code dereferences nil. */
  predicate Resolved(sets: seq<TierSet>)
    reads sets
  {
    forall i :: 0 <= i < |sets| ==> sets[i].regex.Some? && null !in sets[i].tiers
  }

  /** A tier set's pattern and the settings of its tiers, as values. */
  datatype SetView = SetView(pattern: string, tiers: seq<TierView>)

  /** The settings of a list of tiers. */
  ghost function TierViews(tiers: seq<Tier?>): (vs: seq<TierView>)
    requires null !in tiers
    reads tiers
    ensures |vs| == |tiers| && forall k :: 0 <= k < |tiers| ==> vs[k] == tiers[k].View()
  {
    if tiers == [] then [] else TierViews(tiers[..|tiers| - 1]) + [tiers[|tiers| - 1].View()]
  }

  /** The tier sets from `from` on as values: what the lookup reads of them. */
  ghost function Snapshot(sets: seq<TierSet>, from: nat): (snap: seq<SetView>)
    requires Resolved(sets)
    reads sets, set i, k | 0 <= i < |sets| && 0 <= k < |sets[i].tiers| :: sets[i].tiers[k]
    ensures |snap| == if from <= |sets| then |sets| - from else 0
    ensures forall i :: from <= i < |sets| ==> snap[i - from] == SetView(sets[i].regex.value, TierViews(sets[i].tiers))
    decreases |sets| - from
  {
    if from >= |sets| then []
    else [SetView(sets[from].regex.value, TierViews(sets[from].tiers))] + Snapshot(sets, from + 1)
  }

  /** The first position at or after `from` whose tier has a granularity of `g`
      whole seconds. */
  function FirstAt(tiers: seq<TierView>, g: int, from: nat): (k: Option<nat>)
    ensures k.Some? ==> from <= k.value < |tiers| && Seconds(tiers[k.value].granularity) == g
    ensures k.Some? ==> forall j :: from <= j < k.value ==> Seconds(tiers[j].granularity) != g
    ensures k.None? ==> forall j :: from <= j < |tiers| ==> Seconds(tiers[j].granularity) != g
    decreases |tiers| - from
  {
    if from >= |tiers| then None
    else if Seconds(tiers[from].granularity) == g then Some(from)
    else FirstAt(tiers, g, from + 1)
  }

  /** The tier after `tiers[k]`, or none when it is the last one. */
  function After(tiers: seq<TierView>, k: nat): Option<TierView>
    requires k < |tiers|
  {
    if |tiers| - 1 <= k then None else Some(tiers[k + 1])
  }

  /** The lookup over `sets[from..]`. */
  function NextTierSpec(sets: seq<SetView>, name: string, g: int, matches: Matcher, from: nat): (t: Option<TierView>)
    ensures t.Some? ==> exists i, k :: from <= i < |sets| && 0 < k < |sets[i].tiers| && t.value == sets[i].tiers[k]
    decreases |sets| - from
  {
    if from >= |sets| then None
    else if !matches(sets[from].pattern, name) then NextTierSpec(sets, name, g, matches, from + 1)
    else match FirstAt(sets[from].tiers, g, 0)
      case None => NextTierSpec(sets, name, g, matches, from + 1)
      case Some(k) => After(sets[from].tiers, k)
  }

  /** Whether set i matches the name and has a tier of granularity g. */
  predicate Serves(sets: seq<SetView>, i: int, name: string, g: int, matches: Matcher) {
    0 <= i < |sets| && matches(sets[i].pattern, name) &&
    exists k :: 0 <= k < |sets[i].tiers| && Seconds(sets[i].tiers[k].granularity) == g
  }

  /** When no set both matches and has the granularity, there is no next tier. */
  lemma {:induction false} NextTierNone(sets: seq<SetView>, name: string, g: int, matches: Matcher, from: nat)
    requires forall i :: from <= i < |sets| ==> !Serves(sets, i, name, g, matches)
    ensures NextTierSpec(sets, name, g, matches, from) == None
    decreases |sets| - from
  {
    if from < |sets| {
      assert !Serves(sets, from, name, g, matches);
      NextTierNone(sets, name, g, matches, from + 1);
    }
  }

  /** Otherwise the first serving set decides: the tier following its first tier of
      that granularity, or none when that tier is the last. Sets before it that match
      but lack the granularity are passed over. */
  lemma {:induction false} NextTierFirstServing(sets: seq<SetView>, name: string, g: int, matches: Matcher, from: nat, i: nat)
    requires from <= i && Serves(sets, i, name, g, matches)
    requires forall j :: from <= j < i ==> !Serves(sets, j, name, g, matches)
    ensures FirstAt(sets[i].tiers, g, 0).Some?
    ensures NextTierSpec(sets, name, g, matches, from) == After(sets[i].tiers, FirstAt(sets[i].tiers, g, 0).value)
    decreases i - from
  {
    var k :| 0 <= k < |sets[i].tiers| && Seconds(sets[i].tiers[k].granularity) == g;
    assert FirstAt(sets[i].tiers, g, 0).Some?;
    if from < i {
      assert !Serves(sets, from, name, g, matches);
      NextTierFirstServing(sets, name, g, matches, from + 1, i);
    }
  }

  /** getNextTierForMetricAndGranularity: the nested loops with early returns. The
      tier returned has the settings the lookup over the snapshot finds. */
  method NextTier(sets: seq<TierSet>, ghost snap: seq<SetView>, name: string, g: int, matches: Matcher) returns (t: Tier?)
    requires Resolved(sets) && snap == Snapshot(sets, 0)
    ensures t == null <==> NextTierSpec(snap, name, g, matches, 0).None?
    ensures t != null ==> t.View() == NextTierSpec(snap, name, g, matches, 0).value
  {
    for i := 0 to |sets|
      invariant NextTierSpec(snap, name, g, matches, 0) == NextTierSpec(snap, name, g, matches, i)
    {
      var v := sets[i];
      if !matches(v.regex.value, name) {
        continue;
      }
      ghost var views := snap[i].tiers;
      for k := 0 to |v.tiers|
        invariant FirstAt(views, g, 0) == FirstAt(views, g, k)
      {
        var tier := v.tiers[k];
        if Seconds(tier.granularity) != g {
          continue;
        }
        if |v.tiers| - 1 <= k {
          return null;
        }
        return v.tiers[k + 1];
      }
    }
    return null;
  }
}
