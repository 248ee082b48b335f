/** The server configuration (src/chronodium/server/config.go): named tiers and named
    tier sets from the configuration file, validated once at start-up. */
module ChronoConfig {
  import opened Wrappers
  import opened Tiers
  import opened TierSets
  import opened Sorting
  import opened Bags

  /** The granularity each tier gets from Validate, whether or not it validates. */
  function ParsedGranularities(tiers: map<string, Tier>, parse: DurationParser): map<string, int> {
    map k | k in tiers :: parse(tiers[k].rawGranularity).value
  }

  function TierErr(tiers: map<string, Tier>, k: string, parse: DurationParser): Option<string>
    requires k in tiers
  {
    ValidateError(tiers[k].rawGranularity, tiers[k].rawTtl, parse)
  }

  function SetErr(tiers: map<string, Tier>, sets: map<string, TierSet>, k: string,
                  parse: DurationParser, compile: RegexCompiler): Option<string>
    requires k in sets
  {
    SetError(compile(sets[k].pattern), sets[k].pattern, sets[k].rawTiers, ParsedGranularities(tiers, parse))
  }

  predicate AllTiersValid(tiers: map<string, Tier>, parse: DurationParser) {
    forall k :: k in tiers ==> TierErr(tiers, k, parse).None?
  }

  predicate AllSetsValid(tiers: map<string, Tier>, sets: map<string, TierSet>,
                         parse: DurationParser, compile: RegexCompiler) {
    forall k :: k in sets ==> SetErr(tiers, sets, k, parse, compile).None?
  }

  /** The state Tier.Validate leaves behind on success. */
  ghost predicate TierValidated(t: Tier, parse: DurationParser)
    reads t
  {
    && t.granularity == parse(t.rawGranularity).value
    && t.ttl == (if t.rawTtl == "" then CalculateTtl(t.granularity) else parse(t.rawTtl).value)
    && t.collectOffset == CollectOffsetFor(t.granularity)
  }

  /** The state TierSet.Validate leaves behind on success. */
  ghost predicate SetResolved(s: TierSet, tiers: map<string, Tier>)
    reads s`regex, s`tiers
  {
    && s.regex == Some(s.pattern)
    && |s.tiers| == |s.rawTiers|
    && forall j :: 0 <= j < |s.tiers| ==> s.rawTiers[j] in tiers && s.tiers[j] == tiers[s.rawTiers[j]]
  }

  /** The error names a tier whose validation fails. */
  predicate ReportsTierError(tiers: map<string, Tier>, parse: DurationParser, err: Option<string>) {
    exists k :: k in tiers && TierErr(tiers, k, parse).Some? &&
      err == Some("Error parsing Tier '" + k + "': " + TierErr(tiers, k, parse).value)
  }

  /** The error names a tier set whose validation fails. */
  predicate ReportsSetError(tiers: map<string, Tier>, sets: map<string, TierSet>,
                            parse: DurationParser, compile: RegexCompiler, err: Option<string>) {
    exists k :: k in sets && SetErr(tiers, sets, k, parse, compile).Some? &&
      err == Some("Error parsing Tier Set '" + k + "': " + SetErr(tiers, sets, k, parse, compile).value)
  }

  class Config {
    const tiers: map<string, Tier>
    const unorderedTierSets: map<string, TierSet>
    var tierSets: seq<TierSet>

    constructor(tiers: map<string, Tier>, unorderedTierSets: map<string, TierSet>)
      ensures this.tiers == tiers && this.unorderedTierSets == unorderedTierSets
      ensures tierSets == []
    {
      this.tiers := tiers;
      this.unorderedTierSets := unorderedTierSets;
      tierSets := [];
    }

    /** Validates every tier, then every tier set against the tiers, in map order and
        stopping at the first error; on success stores the tier sets ordered. */
    method Validate(parse: DurationParser, compile: RegexCompiler) returns (err: Option<string>)
      modifies this, tiers.Values, unorderedTierSets.Values
      ensures !AllTiersValid(tiers, parse) ==>
        ReportsTierError(tiers, parse, err)
      ensures !AllTiersValid(tiers, parse) ==> forall k :: k in unorderedTierSets ==> unchanged(unorderedTierSets[k])
      ensures AllTiersValid(tiers, parse) ==> forall k :: k in tiers ==> TierValidated(tiers[k], parse)
      ensures AllTiersValid(tiers, parse) && !AllSetsValid(tiers, unorderedTierSets, parse, compile) ==>
        ReportsSetError(tiers, unorderedTierSets, parse, compile, err)
      ensures err.Some? ==> tierSets == old(tierSets)
      ensures err.None? <==> AllTiersValid(tiers, parse) && AllSetsValid(tiers, unorderedTierSets, parse, compile)
      ensures err.None? ==>
        && (forall k :: k in unorderedTierSets ==> SetResolved(unorderedTierSets[k], tiers))
        && OrderedTierSets(tierSets, unorderedTierSets)
    {
      err := ValidateTiers(parse);
      if err.Some? {
        return;
      }
      err := ValidateTierSets(parse, compile);
      if err.Some? {
        return;
      }
      Order(parse, compile);
    }

    /** The last step of Validate: `c.TierSets = GetOrderedTierSets(c.UnorderedTierSet)`. */
    method Order(parse: DurationParser, compile: RegexCompiler)
      requires forall k :: k in tiers ==> TierValidated(tiers[k], parse)
      requires forall k :: k in unorderedTierSets ==> SetResolved(unorderedTierSets[k], tiers)
      modifies this, unorderedTierSets.Values`id
      ensures forall k :: k in tiers ==> TierValidated(tiers[k], parse)
      ensures forall k :: k in unorderedTierSets ==> SetResolved(unorderedTierSets[k], tiers)
      ensures OrderedTierSets(tierSets, unorderedTierSets)
    {
      tierSets := GetOrderedTierSets(unorderedTierSets);
    }

    /** The first loop of Validate. */
    method ValidateTiers(parse: DurationParser) returns (err: Option<string>)
      modifies tiers.Values
      ensures !AllTiersValid(tiers, parse) ==>
        ReportsTierError(tiers, parse, err)
      ensures err.None? <==> AllTiersValid(tiers, parse)
      ensures err.None? ==> forall k :: k in tiers ==> TierValidated(tiers[k], parse)
    {
      var remaining := tiers.Keys;
      while remaining != {}
        invariant remaining <= tiers.Keys
        invariant forall k :: k in tiers && k !in remaining ==> TierErr(tiers, k, parse).None? && TierValidated(tiers[k], parse)
        decreases remaining
      {
        var k :| k in remaining;
        var e := tiers[k].Validate(parse);
        if e.Some? {
          return Some("Error parsing Tier '" + k + "': " + e.value);
        }
        remaining := remaining - {k};
      }
      return None;
    }

    /** One iteration of the second loop. */
    method ValidateSet(k: string, parse: DurationParser, compile: RegexCompiler) returns (e: Option<string>)
      requires k in unorderedTierSets
      requires forall j :: j in tiers ==> TierValidated(tiers[j], parse)
      modifies unorderedTierSets[k]
      ensures e == SetErr(tiers, unorderedTierSets, k, parse, compile)
      ensures e.None? ==> SetResolved(unorderedTierSets[k], tiers)
      ensures forall j :: j in tiers ==> TierValidated(tiers[j], parse)
    {
      assert Granularities(tiers) == ParsedGranularities(tiers, parse);
      e := unorderedTierSets[k].Validate(tiers, compile);
    }

    /** The second loop of Validate, run once every tier has validated. */
    method ValidateTierSets(parse: DurationParser, compile: RegexCompiler) returns (err: Option<string>)
      requires forall k :: k in tiers ==> TierValidated(tiers[k], parse)
      modifies unorderedTierSets.Values
      ensures !AllSetsValid(tiers, unorderedTierSets, parse, compile) ==>
        ReportsSetError(tiers, unorderedTierSets, parse, compile, err)
      ensures err.None? <==> AllSetsValid(tiers, unorderedTierSets, parse, compile)
      ensures err.None? ==> forall k :: k in unorderedTierSets ==> SetResolved(unorderedTierSets[k], tiers)
      ensures forall k :: k in tiers ==> TierValidated(tiers[k], parse)
    {
      var sets := unorderedTierSets;
      var remaining := sets.Keys;
      while remaining != {}
        invariant remaining <= sets.Keys
        invariant forall k :: k in sets && k !in remaining ==>
          SetErr(tiers, sets, k, parse, compile).None? && SetResolved(sets[k], tiers)
        invariant forall k :: k in tiers ==> TierValidated(tiers[k], parse)
        decreases remaining
      {
        var k :| k in remaining;
        var e := ValidateSet(k, parse, compile);
        if e.Some? {
          return Some("Error parsing Tier Set '" + k + "': " + e.value);
        }
        remaining := remaining - {k};
      }
      return None;
    }
  }
}
