/** chronodium's HTTP front end (src/chronodium/protocol/http/http.go): validating the
    parameters of /chrono-ts/query into a storage query, reading a date either as
    RFC 3339 or as Unix seconds, and wrapping the graphite metric index in a JSONP
    callback. The URL's query parameters are a map from name to values; the clock, the
    RFC 3339 parser and the JSON encoder are parameters; running the query and the
    network server are not part of this model. */
module Http {
  import opened Wrappers
  import opened Decimal
  import opened Strs
  import opened ChronoStorage

  /** url.Values: each parameter name with its values, in the order the URL gave them. */
  type Params = map<string, seq<string>>

  /** time.Parse(time.RFC3339, s): nanoseconds since 1970, or the parse error's text. */
  type TimeParser = string -> Result<int, string>

  const NANOS_PER_SECOND: int := 1_000_000_000
  const STATUS_BAD_REQUEST: int := 400
  const STATUS_OK: int := 200

  /** A response: status, the Content-Type the handler set (None when it set none) and body. */
  datatype Response = Response(status: int, contentType: Option<string>, body: string)

  function BadRequest(body: string): Response {
    Response(STATUS_BAD_REQUEST, None, body)
  }

  /** url.Values.Get: the first value of a parameter, "" when it has none. */
  function Get(params: Params, name: string): string {
    if name in params && |params[name]| > 0 then params[name][0] else ""
  }

  /** getTimeFromInput: RFC 3339 first; failing that a base-10 int64 of Unix seconds;
      failing both, the integer parse's error. */
  function TimeFromInput(s: string, rfc3339: TimeParser): (r: Result<int, string>)
    ensures r.Err? ==> rfc3339(s).Err? && ParseInt(s).err.Some?
    ensures rfc3339(s).Err? && r.Ok? ==>
      r.value % NANOS_PER_SECOND == 0 && GoInt.IsInt64(r.value / NANOS_PER_SECOND)
  {
    match rfc3339(s) {
      case Ok(t) => Ok(t)
      case Err(_) =>
        var n := ParseInt(s);
        if n.err.Some? then Err(NumErrorText("ParseInt", s, n.err.value))
        else Ok(n.value * NANOS_PER_SECOND)
    }
  }

  /** The three outcomes of getTimeFromInput: an RFC 3339 time wins; otherwise the Unix
      seconds of any int64 written in decimal are read back exactly; otherwise the
      error is ParseInt's. */
  lemma TimeFromInputCases(s: string, n: int, rfc3339: TimeParser)
    requires GoInt.IsInt64(n)
    ensures rfc3339(s).Ok? ==> TimeFromInput(s, rfc3339) == rfc3339(s)
    ensures rfc3339(FormatInt(n)).Err? ==> TimeFromInput(FormatInt(n), rfc3339) == Ok(n * NANOS_PER_SECOND)
    ensures rfc3339(s).Err? && ParseInt(s).err.Some? ==>
      TimeFromInput(s, rfc3339) == Err(NumErrorText("ParseInt", s, ParseInt(s).err.value))
  {
    ParseIntFormatInt(n);
  }

  /** A filter `key:value`: exactly one ':' with text on both sides. */
  predicate ValidFilter(f: string) {
    var parts := Split(f, ':');
    |parts| == 2 && |parts[0]| > 0 && |parts[1]| > 0
  }

  function FilterKey(f: string): string
    requires ValidFilter(f)
  {
    Split(f, ':')[0]
  }

  function FilterValue(f: string): string
    requires ValidFilter(f)
  {
    Split(f, ':')[1]
  }

  /** A non-empty key and value without ':' form a valid filter that gives them back. */
  lemma FilterRoundTrip(key: string, value: string)
    requires key != "" && value != "" && ':' !in key && ':' !in value
    ensures ValidFilter(key + ":" + value)
    ensures FilterKey(key + ":" + value) == key && FilterValue(key + ":" + value) == value
  {
    assert key + ":" + value == key + [':'] + value;
    SplitCons(key, ':', value);
    SplitNone(value, ':');
  }

  /** A valid filter holds exactly one ':'. */
  lemma ValidFilterColons(f: string)
    ensures ValidFilter(f) ==> Count(f, ':') == 1
  {
    SplitShape(f, ':');
  }

  /** Every key and every value of a filter map is non-empty. */
  predicate NonEmptyEntries(m: map<string, string>) {
    forall k :: k in m ==> k != "" && m[k] != ""
  }

  /** The filter loop of queryHandler over the `filter` values in order: the first
      malformed value or repeated key ends it with that error message. */
  function Filters(fs: seq<string>): (r: Result<map<string, string>, string>)
    ensures r.Ok? ==> NonEmptyEntries(r.value)
    decreases |fs|
  {
    if fs == [] then Ok(map[])
    else
      var f := fs[|fs| - 1];
      match Filters(fs[..|fs| - 1]) {
        case Err(e) => Err(e)
        case Ok(m) =>
          if !ValidFilter(f) then Err("Invalid filter specified: " + f)
          else if FilterKey(f) in m then Err("Cannot use same filter key more than once: " + FilterKey(f))
          else Ok(m[FilterKey(f) := FilterValue(f)])
      }
  }

  /** Every filter is well formed and no key comes twice. */
  predicate FiltersAcceptable(fs: seq<string>) {
    (forall i :: 0 <= i < |fs| ==> ValidFilter(fs[i])) &&
    (forall i, j :: 0 <= i < j < |fs| && ValidFilter(fs[i]) && ValidFilter(fs[j]) ==> FilterKey(fs[i]) != FilterKey(fs[j]))
  }

  /** The keys of the well-formed filters among `fs`. */
  function KeysOf(fs: seq<string>): set<string> {
    set i | 0 <= i < |fs| && ValidFilter(fs[i]) :: FilterKey(fs[i])
  }

  /** The keys of a prefix and one more filter. */
  lemma KeysOfSnoc(fs: seq<string>)
    requires fs != []
    ensures KeysOf(fs) == KeysOf(fs[..|fs| - 1]) + (if ValidFilter(fs[|fs| - 1]) then {FilterKey(fs[|fs| - 1])} else {})
  {
    var n := |fs| - 1;
    var init := fs[..n];
    forall k | k in KeysOf(fs) ensures k in KeysOf(init) || (ValidFilter(fs[n]) && k == FilterKey(fs[n])) {
      var i :| 0 <= i < |fs| && ValidFilter(fs[i]) && k == FilterKey(fs[i]);
      if i < n {
        assert init[i] == fs[i];
      }
    }
    forall k | k in KeysOf(init) ensures k in KeysOf(fs) {
      var i :| 0 <= i < n && ValidFilter(init[i]) && k == FilterKey(init[i]);
      assert init[i] == fs[i];
    }
  }

  /** `m` holds exactly the keys of the well-formed filters among `fs`, each with the
      value its filter gives. */
  predicate MapsFilters(m: map<string, string>, fs: seq<string>) {
    m.Keys == KeysOf(fs) &&
    forall i :: 0 <= i < |fs| && ValidFilter(fs[i]) ==> FilterKey(fs[i]) in m && m[FilterKey(fs[i])] == FilterValue(fs[i])
  }

  /** An accepted list of filters maps each given key to its value and nothing else. */
  lemma {:induction false} FiltersMap(fs: seq<string>)
    requires Filters(fs).Ok?
    ensures MapsFilters(Filters(fs).value, fs)
    decreases |fs|
  {
    if fs != [] {
      var n := |fs| - 1;
      var init, f := fs[..n], fs[n];
      FiltersMap(init);
      var m := Filters(init).value;
      assert ValidFilter(f) && FilterKey(f) !in m;
      assert Filters(fs).value == m[FilterKey(f) := FilterValue(f)];
      assert fs == init + [f];
      FilterAdded(m, init, f);
    }
  }

  /** Adding a new well-formed filter to a map that holds every earlier one. */
  lemma FilterAdded(m: map<string, string>, init: seq<string>, f: string)
    requires MapsFilters(m, init)
    requires ValidFilter(f) && FilterKey(f) !in m
    ensures MapsFilters(m[FilterKey(f) := FilterValue(f)], init + [f])
  {
    var fs := init + [f];
    var m' := m[FilterKey(f) := FilterValue(f)];
    assert fs[..|fs| - 1] == init;
    KeysOfSnoc(fs);
    forall i | 0 <= i < |fs| && ValidFilter(fs[i])
      ensures FilterKey(fs[i]) in m' && m'[FilterKey(fs[i])] == FilterValue(fs[i])
    {
      if i < |init| {
        assert fs[i] == init[i];
        assert FilterKey(init[i]) in KeysOf(init);
      }
    }
  }

  /** Accepted filters are acceptable. */
  lemma {:induction false} FiltersOkAcceptable(fs: seq<string>)
    requires Filters(fs).Ok?
    ensures FiltersAcceptable(fs)
    decreases |fs|
  {
    if fs != [] {
      var n := |fs| - 1;
      var init, f := fs[..n], fs[n];
      FiltersOkAcceptable(init);
      FiltersMap(init);
      assert fs == init + [f];
      AcceptableAdded(Filters(init).value, init, f);
    }
  }

  /** A new well-formed filter whose key is not yet taken keeps the list acceptable. */
  lemma AcceptableAdded(m: map<string, string>, init: seq<string>, f: string)
    requires m.Keys == KeysOf(init) && FiltersAcceptable(init)
    requires ValidFilter(f) && FilterKey(f) !in m
    ensures FiltersAcceptable(init + [f])
  {
    var fs := init + [f];
    forall i | 0 <= i < |fs| ensures ValidFilter(fs[i]) {
      if i < |init| {
        assert fs[i] == init[i];
      }
    }
    forall i, j | 0 <= i < j < |fs| && ValidFilter(fs[i]) && ValidFilter(fs[j])
      ensures FilterKey(fs[i]) != FilterKey(fs[j])
    {
      assert fs[i] == init[i];
      if j < |init| {
        assert fs[j] == init[j];
      } else {
        assert FilterKey(init[i]) in KeysOf(init);
      }
    }
  }

  /** Acceptable filters are accepted. */
  lemma {:induction false} FiltersAcceptableOk(fs: seq<string>)
    requires FiltersAcceptable(fs)
    ensures Filters(fs).Ok?
    decreases |fs|
  {
    if fs != [] {
      var n := |fs| - 1;
      var init := fs[..n];
      assert forall i :: 0 <= i < n ==> init[i] == fs[i];
      FiltersAcceptableOk(init);
      FiltersMap(init);
      var f := fs[n];
      assert ValidFilter(f);
      assert forall i :: 0 <= i < n && ValidFilter(init[i]) ==> FilterKey(init[i]) != FilterKey(f);
    }
  }

  /** The filters are accepted exactly when each is well formed and the keys are
      distinct, and then the filter maps each given key to its value and nothing else. */
  lemma FiltersSpec(fs: seq<string>)
    ensures Filters(fs).Ok? <==> FiltersAcceptable(fs)
    ensures Filters(fs).Ok? ==> Filters(fs).value.Keys == KeysOf(fs)
    ensures Filters(fs).Ok? ==> forall i :: 0 <= i < |fs| && ValidFilter(fs[i]) ==> Filters(fs).value[FilterKey(fs[i])] == FilterValue(fs[i])
  {
    if Filters(fs).Ok? {
      FiltersMap(fs);
      FiltersOkAcceptable(fs);
    } else if FiltersAcceptable(fs) {
      FiltersAcceptableOk(fs);
    }
  }

  /** queryHandler's filter loop: stops at the first rejected filter; otherwise the
      filter holds every key and value given. */
  method ParseFilters(fs: seq<string>) returns (r: Result<map<string, string>, string>)
    ensures r == Filters(fs)
  {
    var filter := map[];
    for i := 0 to |fs|
      invariant Filters(fs[..i]) == Ok(filter)
    {
      var f := fs[i];
      assert fs[..i + 1][..i] == fs[..i] && fs[..i + 1][i] == f;
      var parts := Split(f, ':');
      if |parts| != 2 || |parts[0]| == 0 || |parts[1]| == 0 {
        assert Filters(fs[..i + 1]).Err?;
        FiltersErrSticks(fs, i + 1);
        return Err("Invalid filter specified: " + f);
      }
      if parts[0] in filter {
        FiltersErrSticks(fs, i + 1);
        return Err("Cannot use same filter key more than once: " + parts[0]);
      }
      filter := filter[parts[0] := parts[1]];
    }
    assert fs[..|fs|] == fs;
    return Ok(filter);
  }

  /** Once the loop has stopped with an error, later filters do not change it. */
  lemma {:induction false} FiltersErrSticks(fs: seq<string>, i: nat)
    requires i <= |fs| && Filters(fs[..i]).Err?
    ensures Filters(fs) == Filters(fs[..i])
    decreases |fs| - i
  {
    if i < |fs| {
      assert fs[..i + 1][..i] == fs[..i];
      FiltersErrSticks(fs, i + 1);
    } else {
      assert fs[..i] == fs;
    }
  }

  /** The arguments of an accepted query: shard key, dates and the filter. */
  datatype QueryArgs = QueryArgs(shardKey: string, startDate: int, endDate: int, filter: map<string, string>)

  /** A date parameter: `fallback` when absent or empty, else its parsed time, else a
      400 naming the parameter. */
  function DateParam(params: Params, name: string, fallback: int, rfc3339: TimeParser): Result<int, Response> {
    var text := Get(params, name);
    if text == "" then Ok(fallback)
    else match TimeFromInput(text, rfc3339) {
      case Ok(t) => Ok(t)
      case Err(e) => Err(BadRequest("Could not parse " + name + ": " + e))
    }
  }

  /** The `filter` values; none when the parameter is absent. */
  function FilterParams(params: Params): seq<string> {
    if "filter" in params then params["filter"] else []
  }

  /** queryHandler's validation, in its order: primary key, start date, end date, filters.
      The dates default to an hour before `now` and to `now`. */
  function ValidateQuery(params: Params, now: int, rfc3339: TimeParser): (r: Result<QueryArgs, Response>)
    ensures r.Err? ==> r.error.status == STATUS_BAD_REQUEST && r.error.contentType == None
    ensures r.Ok? ==> r.value.shardKey == Get(params, "pk") != ""
  {
    var pk := Get(params, "pk");
    if pk == "" then Err(BadRequest("No primary key specified"))
    else match DateParam(params, "start-date", now - HOUR, rfc3339) {
      case Err(r) => Err(r)
      case Ok(start) =>
        match DateParam(params, "end-date", now, rfc3339) {
          case Err(r) => Err(r)
          case Ok(end) =>
            match Filters(FilterParams(params)) {
              case Err(e) => Err(BadRequest(e))
              case Ok(filter) => Ok(QueryArgs(pk, start, end, filter))
            }
        }
    }
  }

  /** Every rejection is a 400, and a query is accepted exactly when it has a primary
      key, each given date parses and the filters are acceptable; the accepted query
      carries the key, the parsed or default dates and the filters' map. */
  lemma ValidateQuerySpec(params: Params, now: int, rfc3339: TimeParser)
    ensures ValidateQuery(params, now, rfc3339).Err? ==> ValidateQuery(params, now, rfc3339).error.status == STATUS_BAD_REQUEST
    ensures Get(params, "pk") == "" ==> ValidateQuery(params, now, rfc3339) == Err(BadRequest("No primary key specified"))
    ensures ValidateQuery(params, now, rfc3339).Ok? <==>
      Get(params, "pk") != "" &&
      (Get(params, "start-date") != "" ==> TimeFromInput(Get(params, "start-date"), rfc3339).Ok?) &&
      (Get(params, "end-date") != "" ==> TimeFromInput(Get(params, "end-date"), rfc3339).Ok?) &&
      FiltersAcceptable(FilterParams(params))
    ensures ValidateQuery(params, now, rfc3339).Ok? ==>
      var q := ValidateQuery(params, now, rfc3339).value;
      q.shardKey == Get(params, "pk") &&
      q.startDate == (if Get(params, "start-date") == "" then now - HOUR else TimeFromInput(Get(params, "start-date"), rfc3339).value) &&
      q.endDate == (if Get(params, "end-date") == "" then now else TimeFromInput(Get(params, "end-date"), rfc3339).value) &&
      q.filter == Filters(FilterParams(params)).value
  {
    FiltersSpec(FilterParams(params));
  }

  /** An unparsable start date is refused with the parser's error, before the end date
      and the filters are looked at. */
  lemma BadStartDate(params: Params, now: int, rfc3339: TimeParser)
    requires Get(params, "pk") != "" && Get(params, "start-date") != ""
    requires TimeFromInput(Get(params, "start-date"), rfc3339).Err?
    ensures ValidateQuery(params, now, rfc3339)
         == Err(BadRequest("Could not parse start-date: " + TimeFromInput(Get(params, "start-date"), rfc3339).error))
  {
    assert "Could not parse " + "start-date" + ": " == "Could not parse start-date: ";
  }

  /** queryHandler up to running the query: a 400 response, or a fresh storage query
      with both dates set and the validated filter. */
  method QueryHandler(params: Params, now: int, rfc3339: TimeParser) returns (outcome: Result<Query, Response>)
    ensures ValidateQuery(params, now, rfc3339).Err? ==> outcome == Err(ValidateQuery(params, now, rfc3339).error)
    ensures ValidateQuery(params, now, rfc3339).Ok? ==> outcome.Ok? && fresh(outcome.value)
    ensures ValidateQuery(params, now, rfc3339).Ok? ==>
      var args := ValidateQuery(params, now, rfc3339).value;
      outcome.value.shardKey == args.shardKey && outcome.value.filter == args.filter &&
      outcome.value.startDate == Some(args.startDate) && outcome.value.endDate == Some(args.endDate)
  {
    var pk := Get(params, "pk");
    if pk == "" {
      assert ValidateQuery(params, now, rfc3339) == Err(BadRequest("No primary key specified"));
      return Err(BadRequest("No primary key specified"));
    }
    var start := now - HOUR;
    var startText := Get(params, "start-date");
    if startText != "" {
      var t := TimeFromInput(startText, rfc3339);
      if t.Err? {
        assert "Could not parse " + "start-date" + ": " == "Could not parse start-date: ";
        assert ValidateQuery(params, now, rfc3339) == Err(BadRequest("Could not parse start-date: " + t.error));
        return Err(BadRequest("Could not parse start-date: " + t.error));
      }
      start := t.value;
    }
    var end := now;
    var endText := Get(params, "end-date");
    if endText != "" {
      var t := TimeFromInput(endText, rfc3339);
      if t.Err? {
        assert "Could not parse " + "end-date" + ": " == "Could not parse end-date: ";
        assert ValidateQuery(params, now, rfc3339) == Err(BadRequest("Could not parse end-date: " + t.error));
        return Err(BadRequest("Could not parse end-date: " + t.error));
      }
      end := t.value;
    }
    var filter := ParseFilters(FilterParams(params));
    if filter.Err? {
      assert ValidateQuery(params, now, rfc3339) == Err(BadRequest(filter.error));
      return Err(BadRequest(filter.error));
    }
    assert ValidateQuery(params, now, rfc3339) == Ok(QueryArgs(pk, start, end, filter.value));
    var query := new Query(pk, Some(start), Some(end), filter.value);
    return Ok(query);
  }

  /** graphiteHandler's response for the encoded metric names (the JSON encoder's output,
      its trailing newline included): wrapped in the `jsonp` callback when one is given. */
  function GraphiteResponse(params: Params, encoded: string): (r: Response)
    ensures r.status == STATUS_OK && r.contentType.Some? && |r.body| >= |encoded|
  {
    var jsonp := Get(params, "jsonp");
    if jsonp != "" then Response(STATUS_OK, Some("application/javascript"), jsonp + "(" + encoded + ")")
    else Response(STATUS_OK, Some("application/json"), encoded)
  }

  /** The JSON is recovered from the body: a callback's body is the callback's name, '(',
      the JSON and ')'; without one the body is the JSON itself. */
  lemma GraphiteResponseSpec(params: Params, encoded: string)
    ensures var r := GraphiteResponse(params, encoded);
      var jsonp := Get(params, "jsonp");
      r.status == STATUS_OK &&
      (jsonp != "" ==>
        r.contentType == Some("application/javascript") &&
        |r.body| == |jsonp| + |encoded| + 2 &&
        r.body[..|jsonp| + 1] == jsonp + "(" &&
        r.body[|jsonp| + 1..|r.body| - 1] == encoded &&
        r.body[|r.body| - 1] == ')') &&
      (jsonp == "" ==> r.contentType == Some("application/json") && r.body == encoded)
  {
    var jsonp := Get(params, "jsonp");
    if jsonp != "" {
      var body := jsonp + "(" + encoded + ")";
      assert body[..|jsonp| + 1] == jsonp + "(";
      assert body[|jsonp| + 1..|body| - 1] == encoded;
    }
  }

  /** Distinct metric lists give distinct bodies, with or without a callback. */
  lemma GraphiteResponseInjective(params: Params, e1: string, e2: string)
    requires GraphiteResponse(params, e1) == GraphiteResponse(params, e2)
    ensures e1 == e2
  {
    GraphiteResponseSpec(params, e1);
    GraphiteResponseSpec(params, e2);
  }
}
