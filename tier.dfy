/** A storage tier (src/sladu/server/tier/tier.go): a granularity and a TTL given as
    duration strings, validated into durations plus the delay after which a bucket
    of the tier is collected for rollup. Durations are Go time.Duration values,
    that is nanoseconds. */
module Tiers {
  import opened Wrappers
  import opened GoInt

  const VALUES_PER_BUCKET: int := 128
  const SECOND: int := 1_000_000_000
  const COLLECT_OFFSET: int := 30 * SECOND

  /** What the duration parser returns. Like Go's multiple assignment, the value is
      stored even when an error is reported. */
  datatype ParsedDuration = ParsedDuration(value: int, err: Option<string>)

  type DurationParser = string -> ParsedDuration

  /** `int(d.Seconds())`: whole seconds of a duration, truncated toward zero. */
  function Seconds(d: int): int {
    Quot(d, SECOND)
  }

  /** `time.Duration(g.Seconds()*128) + 10*COLLECT_OFFSET`. The first term converts a
      number of seconds to a Duration without scaling, so it counts nanoseconds. */
  function CalculateTtl(g: int): (ttl: int)
    ensures g >= 0 ==> ttl >= 10 * COLLECT_OFFSET
  {
    Quot(g * VALUES_PER_BUCKET, SECOND) + 10 * COLLECT_OFFSET
  }

  /** 128 times the granularity in seconds plus the 30-second collect offset. */
  function CollectOffsetFor(g: int): real {
    (VALUES_PER_BUCKET as real) * (g as real / SECOND as real) + (COLLECT_OFFSET / SECOND) as real
  }

  /** For a whole-second granularity the default TTL is 300 seconds plus 128·s
      nanoseconds, so below 7812500 seconds it is 300 whole seconds. */
  lemma CalculateTtlWholeSeconds(s: int)
    requires s >= 0
    ensures CalculateTtl(s * SECOND) == 300 * SECOND + 128 * s
    ensures s < 7_812_500 ==> Seconds(CalculateTtl(s * SECOND)) == 300
  {
    assert s * SECOND * VALUES_PER_BUCKET == (128 * s) * SECOND;
    QuotRemNonNegative((128 * s) * SECOND, SECOND);
    QuotRemNonNegative(300 * SECOND + 128 * s, SECOND);
  }

  lemma CollectOffsetWholeSeconds(s: int)
    ensures CollectOffsetFor(s * SECOND) == (128 * s + 30) as real
  {
    assert (s * SECOND) as real / SECOND as real == s as real;
  }

  /** A consequence of the nanosecond term: from 3-second granularities on, a tier's
      default TTL (in seconds) is shorter than its collect offset, so a bucket key
      expires before its collection marker comes due. */
  lemma DefaultTtlBeforeCollection(s: int)
    requires 3 <= s < 7_812_500
    ensures (Seconds(CalculateTtl(s * SECOND)) as real) < CollectOffsetFor(s * SECOND)
  {
    CalculateTtlWholeSeconds(s);
    CollectOffsetWholeSeconds(s);
  }

  /** The error Validate reports, if any. */
  function ValidateError(rawGranularity: string, rawTtl: string, parse: DurationParser): (err: Option<string>)
    ensures err.None? <==> parse(rawGranularity).err.None? && (rawTtl == "" || parse(rawTtl).err.None?)
  {
    match parse(rawGranularity).err
    case Some(e) => Some("Invalid Granularity '" + rawGranularity + "': " + e)
    case None =>
      if rawTtl == "" then None
      else match parse(rawTtl).err
        case Some(e) => Some("Invalid TTL '" + rawTtl + "': " + e)
        case None => None
  }

  /** The values a validated tier exposes through its accessors. */
  datatype TierView = TierView(granularity: int, ttl: int, collectOffset: real)

  class Tier {
    const rawGranularity: string
    const rawTtl: string
    var granularity: int
    var ttl: int
    var collectOffset: real

    constructor(rawGranularity: string, rawTtl: string)
      ensures this.rawGranularity == rawGranularity && this.rawTtl == rawTtl
      ensures granularity == 0 && ttl == 0 && collectOffset == 0.0
    {
      this.rawGranularity := rawGranularity;
      this.rawTtl := rawTtl;
      granularity := 0;
      ttl := 0;
      collectOffset := 0.0;
    }

    function View(): TierView
      reads this
    {
      TierView(granularity, ttl, collectOffset)
    }

    /** Parses the granularity, then the TTL (or derives it when none is given), then
        sets the collect offset, stopping at the first error. */
    method Validate(parse: DurationParser) returns (err: Option<string>)
      modifies this
      ensures err == ValidateError(rawGranularity, rawTtl, parse)
      ensures granularity == parse(rawGranularity).value
      ensures parse(rawGranularity).err.Some? ==> ttl == old(ttl)
      ensures parse(rawGranularity).err.None? && rawTtl == "" ==> ttl == CalculateTtl(granularity)
      ensures parse(rawGranularity).err.None? && rawTtl != "" ==> ttl == parse(rawTtl).value
      ensures err.None? ==> collectOffset == CollectOffsetFor(granularity)
      ensures err.Some? ==> collectOffset == old(collectOffset)
    {
      var g := parse(rawGranularity);
      granularity := g.value;
      if g.err.Some? {
        return Some("Invalid Granularity '" + rawGranularity + "': " + g.err.value);
      }
      if rawTtl == "" {
        ttl := CalculateTtl(granularity);
      } else {
        var t := parse(rawTtl);
        ttl := t.value;
        if t.err.Some? {
          return Some("Invalid TTL '" + rawTtl + "': " + t.err.value);
        }
      }
      collectOffset := CollectOffsetFor(granularity);
      return None;
    }
  }
}
