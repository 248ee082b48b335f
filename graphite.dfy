/** sladu's graphite plaintext listener (src/sladu/protocol/graphite/protocol.go): each
    line `<key> <value> <unix seconds>\n` becomes a metric on the server's storage queue.
    Parsing a float64 is foreign here and is a parameter; the queue, a Go channel, is a
    sequence the server appends to. */
module Graphite {
  import opened Wrappers
  import opened GoInt
  import opened Decimal
  import opened Strs
  import opened SladuPersist

  /** strconv.ParseFloat(s, 64): the value, or the text of its error. */
  type FloatParser = string -> Result<real, string>

  /** The error for a line that does not split into three parts. */
  function FoundPartsText(n: int): string {
    "Found " + FormatInt(n) + " parts, expected 3"
  }

  /** parseLine: split on ' ' into at most four parts, which must be exactly three; the
      key is the first part verbatim, the value the second, and the third, trimmed of
      white space, is the time in Unix seconds. */
  function ParseLine(line: string, parseFloat: FloatParser): (r: Result<Metric, string>)
    ensures r.Ok? ==> ' ' !in r.value.key && IsInt64(r.value.unix)
  {
    var parts := SplitN(line, ' ', 4);
    if |parts| != 3 then Err(FoundPartsText(|parts|))
    else match parseFloat(parts[1]) {
      case Err(e) => Err(e)
      case Ok(value) =>
        var text := TrimSpace(parts[2]);
        var i := ParseInt(text);
        if i.err.Some? then Err(NumErrorText("ParseInt", text, i.err.value))
        else Ok(Metric(parts[0], value, i.value))
    }
  }

  /** A line parses only when it holds exactly two spaces; otherwise the error gives the
      number of parts SplitN made, one more than the spaces but at most four. */
  lemma ParseLineParts(line: string, parseFloat: FloatParser)
    ensures ParseLine(line, parseFloat).Ok? ==> Count(line, ' ') == 2
    ensures Count(line, ' ') != 2 ==> ParseLine(line, parseFloat) == Err(FoundPartsText(Min(Count(line, ' ') + 1, 4)))
  {
    SplitNLength(line, ' ', 4);
  }

  /** The three space-free fields of a line, in order. */
  lemma SplitFields(key: string, value: string, rest: string)
    requires ' ' !in key && ' ' !in value && ' ' !in rest
    ensures SplitN(key + " " + value + " " + rest, ' ', 4) == [key, value, rest]
  {
    assert key + " " + value + " " + rest == key + [' '] + (value + [' '] + rest);
    SplitNCons(key, ' ', value + [' '] + rest, 4);
    SplitNCons(value, ' ', rest, 3);
    assert IndexOf(rest, ' ') == None;
  }

  /** The line a graphite client sends for a metric: key, value text and time, separated
      by single spaces and ended by a newline. */
  function FormatLine(key: string, valueText: string, unix: int): string {
    key + " " + valueText + " " + FormatInt(unix) + "\n"
  }

  /** Round trip: a line sent for a space-free key, a value text the float parser
      accepts and an int64 time parses back to that key, value and time. */
  lemma ParseFormatLine(key: string, valueText: string, unix: int, parseFloat: FloatParser)
    requires ' ' !in key && ' ' !in valueText && IsInt64(unix)
    requires parseFloat(valueText).Ok?
    ensures ParseLine(FormatLine(key, valueText, unix), parseFloat) == Ok(Metric(key, parseFloat(valueText).value, unix))
  {
    var digits := FormatInt(unix);
    TimeField(unix);
    assert FormatLine(key, valueText, unix) == key + " " + valueText + " " + (digits + "\n");
    SplitFields(key, valueText, digits + "\n");
    ParseIntFormatInt(unix);
  }

  /** The time field of a line holds no space and trims to the decimal time. */
  lemma TimeField(unix: int)
    ensures ' ' !in FormatInt(unix) + "\n"
    ensures TrimSpace(FormatInt(unix) + "\n") == FormatInt(unix)
  {
    var digits := FormatInt(unix);
    FormatIntChars(unix);
    forall i | 0 <= i < |digits + "\n"|
      ensures (digits + "\n")[i] != ' '
    {
      if i < |digits| {
        assert (digits + "\n")[i] == digits[i];
      }
    }
    assert !IsSpace(digits[0]) && !IsSpace(digits[|digits| - 1]);
    assert IsSpace('\n');
    TrimSpaceSuffix(digits, "\n");
  }

  /** A value the float parser refuses fails the line with the parser's error. */
  lemma ParseBadValue(key: string, valueText: string, rest: string, parseFloat: FloatParser)
    requires ' ' !in key && ' ' !in valueText && ' ' !in rest
    requires parseFloat(valueText).Err?
    ensures ParseLine(key + " " + valueText + " " + rest, parseFloat) == Err(parseFloat(valueText).error)
  {
    SplitFields(key, valueText, rest);
  }

  /** A time that is not a decimal int64 once trimmed fails the line with ParseInt's error. */
  lemma ParseBadTime(key: string, valueText: string, rest: string, parseFloat: FloatParser)
    requires ' ' !in key && ' ' !in valueText && ' ' !in rest
    requires parseFloat(valueText).Ok? && ParseInt(TrimSpace(rest)).err.Some?
    ensures ParseLine(key + " " + valueText + " " + rest, parseFloat)
         == Err(NumErrorText("ParseInt", TrimSpace(rest), ParseInt(TrimSpace(rest)).err.value))
  {
    SplitFields(key, valueText, rest);
  }

  /** The listener; `storage` is the channel of parsed metrics, oldest first. */
  class Server {
    var storage: seq<Metric>

    constructor()
      ensures storage == []
    {
      storage := [];
    }

    /** processRawMetric: a line that parses puts exactly its metric on the queue; a
        line that does not is reported and queues nothing. */
    method ProcessRawMetric(line: string, parseFloat: FloatParser) returns (err: Option<string>)
      modifies this
      ensures ParseLine(line, parseFloat).Ok? ==>
        err == None && storage == old(storage) + [ParseLine(line, parseFloat).value]
      ensures ParseLine(line, parseFloat).Err? ==>
        err == Some(ParseLine(line, parseFloat).error) && storage == old(storage)
    {
      var m := ParseLine(line, parseFloat);
      if m.Err? {
        return Some(m.error);
      }
      storage := storage + [m.value];
      return None;
    }
  }
}
