/** A chronodium query (src/chronodium/storage/storage.go): a shard key, an optional
    time range and a metadata filter. A missing start or end of the range is filled in
    on first use, from the clock; the clock reading is a parameter here. Instants are in
    nanoseconds since 1970. */
module ChronoStorage {
  import opened Wrappers

  const HOUR: int := 3600 * 1_000_000_000

  class Query {
    var shardKey: string
    var startDate: Option<int>
    var endDate: Option<int>
    var filter: map<string, string>

    constructor(shardKey: string, startDate: Option<int>, endDate: Option<int>, filter: map<string, string>)
      ensures this.shardKey == shardKey && this.startDate == startDate
      ensures this.endDate == endDate && this.filter == filter
    {
      this.shardKey := shardKey;
      this.startDate := startDate;
      this.endDate := endDate;
      this.filter := filter;
    }

    /** GetStartDate: an unset start becomes one hour before `now` and stays so. */
    method GetStartDate(now: int) returns (d: int)
      modifies this`startDate
      ensures old(startDate).None? ==> d == now - HOUR
      ensures old(startDate).Some? ==> d == old(startDate).value
      ensures startDate == Some(d)
    {
      if startDate.None? {
        startDate := Some(now - HOUR);
      }
      d := startDate.value;
    }

    /** GetEndDate: an unset end becomes `now` and stays so. */
    method GetEndDate(now: int) returns (d: int)
      modifies this`endDate
      ensures old(endDate).None? ==> d == now
      ensures old(endDate).Some? ==> d == old(endDate).value
      ensures endDate == Some(d)
    {
      if endDate.None? {
        endDate := Some(now);
      }
      d := endDate.value;
    }

    /** Once set, the dates no longer depend on the clock: a second call returns the
        first call's result whatever time it is then, and the getters touch only
        their own field. */
    method GettersIdempotent(now1: int, now2: int) returns (s1: int, s2: int, e1: int, e2: int)
      modifies this`startDate, this`endDate
      ensures s1 == s2 && e1 == e2
      ensures s1 == (if old(startDate).Some? then old(startDate).value else now1 - HOUR)
      ensures e1 == (if old(endDate).Some? then old(endDate).value else now1)
      ensures shardKey == old(shardKey) && filter == old(filter)
    {
      s1 := GetStartDate(now1);
      e1 := GetEndDate(now1);
      s2 := GetStartDate(now2);
      e2 := GetEndDate(now2);
    }
  }
}
