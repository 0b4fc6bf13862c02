/**
 * A reference CSV reader for the documents the export writes: fields separated by commas,
 * records separated by CRLF, a field either bare or wrapped in double quotes with its own
 * quotes doubled. It is the independent definition the export's round trip is stated against.
 */
module CsvReader {
  import opened Wrappers

  /** The text starts with a CRLF record separator. */
  predicate AtLineBreak(s: string) {
    |s| >= 2 && s[0] == '\r' && s[1] == '\n'
  }

  /** The text starts where a field ends: at the end of the input, a comma or a CRLF. */
  predicate AtFieldEnd(s: string) {
    |s| == 0 || s[0] == ',' || AtLineBreak(s)
  }

  /** Reads a bare field: everything up to the first field end. A lone CR is part of the field. */
  function ReadBare(s: string): (r: (string, string))
    ensures r.0 + r.1 == s
    ensures AtFieldEnd(r.1)
    ensures forall k :: 0 <= k < |r.0| ==> !AtFieldEnd(s[k..])
    decreases |s|
  {
    if AtFieldEnd(s) then ("", s)
    else
      var r := ReadBare(s[1..]);
      assert [s[0]] + r.0 + r.1 == [s[0]] + s[1..];
      assert forall k :: 1 <= k <= |r.0| ==> s[k..] == s[1..][k - 1..];
      ([s[0]] + r.0, r.1)
  }

  /**
   * Reads the body of a quoted field, after its opening quote: `""` stands for one quote and a
   * single quote closes the field. `None` when the input ends before the closing quote.
   */
  function ReadQuotedBody(s: string): (r: Option<(string, string)>)
    ensures r.Some? ==> |r.value.1| < |s|
    ensures r.Some? ==> s[|s| - |r.value.1| - 1] == '"' && s[|s| - |r.value.1|..] == r.value.1
    decreases |s|
  {
    if |s| == 0 then None
    else if s[0] == '"' then
      if |s| >= 2 && s[1] == '"' then
        match ReadQuotedBody(s[2..])
        case None => None
        case Some((f, rest)) => Some(("\"" + f, rest))
      else Some(("", s[1..]))
    else
      match ReadQuotedBody(s[1..])
      case None => None
      case Some((f, rest)) => Some(([s[0]] + f, rest))
  }

  /** A single quote closes the field when no other quote follows it. */
  lemma ReadQuotedBodyClose(rest: string)
    requires |rest| == 0 || rest[0] != '"'
    ensures ReadQuotedBody("\"" + rest) == Some(("", rest))
  {
    assert ("\"" + rest)[1..] == rest;
  }

  /** A doubled quote in front of a quoted body is read as one quote. */
  lemma ReadQuotedBodyQuote(t: string, f: string, rest: string)
    requires ReadQuotedBody(t) == Some((f, rest))
    ensures ReadQuotedBody("\"\"" + t) == Some(("\"" + f, rest))
  {
    assert ("\"\"" + t)[2..] == t;
  }

  /** Any other character in front of a quoted body is read as itself. */
  lemma ReadQuotedBodyChar(c: char, t: string, f: string, rest: string)
    requires c != '"' && ReadQuotedBody(t) == Some((f, rest))
    ensures ReadQuotedBody([c] + t) == Some(([c] + f, rest))
  {
    assert ([c] + t)[1..] == t;
  }

  /** Reads one field, quoted when it starts with a double quote; a quoted field must be followed by a field end. */
  function ReadField(s: string): (r: Option<(string, string)>)
    ensures r.Some? ==> |r.value.1| <= |s| && AtFieldEnd(r.value.1)
    ensures (|s| == 0 || s[0] != '"') ==> r == Some(ReadBare(s))
  {
    if |s| > 0 && s[0] == '"' then
      match ReadQuotedBody(s[1..])
      case None => None
      case Some((f, rest)) => if AtFieldEnd(rest) then Some((f, rest)) else None
    else Some(ReadBare(s))
  }

  /** Reads the comma-separated fields of one record, up to the end of the input or a CRLF. */
  function ReadRecord(s: string): (r: Option<(seq<string>, string)>)
    ensures r.Some? ==> |r.value.0| >= 1 && |r.value.1| <= |s|
    ensures r.Some? ==> |r.value.1| == 0 || AtLineBreak(r.value.1)
    decreases |s|
  {
    match ReadField(s)
    case None => None
    case Some((f, rest)) =>
      if |rest| > 0 && rest[0] == ',' then
        match ReadRecord(rest[1..])
        case None => None
        case Some((fs, rest')) => Some(([f] + fs, rest'))
      else Some(([f], rest))
  }

  /** A field followed by a comma starts a record that goes on with the record after the comma. */
  lemma ReadRecordComma(s: string, f: string, t: string, fs: seq<string>, rest: string)
    requires ReadField(s) == Some((f, "," + t))
    requires ReadRecord(t) == Some((fs, rest))
    ensures ReadRecord(s) == Some(([f] + fs, rest))
  {
    assert ("," + t)[1..] == t;
  }

  /** A field followed by the end of the input or a CRLF is the last of its record. */
  lemma ReadRecordLast(s: string, f: string, rest: string)
    requires ReadField(s) == Some((f, rest))
    requires |rest| == 0 || AtLineBreak(rest)
    ensures ReadRecord(s) == Some(([f], rest))
  {
  }

  /** Reads a whole document: records separated by CRLF, with no line break after the last one. */
  function ReadRecords(s: string): (r: Option<seq<seq<string>>>)
    ensures r.Some? ==> |r.value| >= 1 && forall i :: 0 <= i < |r.value| ==> |r.value[i]| >= 1
    decreases |s|
  {
    match ReadRecord(s)
    case None => None
    case Some((rec, rest)) =>
      if |rest| == 0 then Some([rec])
      else
        match ReadRecords(rest[2..])
        case None => None
        case Some(recs) => Some([rec] + recs)
  }

  /** A record followed by a CRLF starts a document that goes on with the document after the line break. */
  lemma ReadRecordsLineBreak(s: string, rec: seq<string>, t: string, recs: seq<seq<string>>)
    requires ReadRecord(s) == Some((rec, "\r\n" + t))
    requires ReadRecords(t) == Some(recs)
    ensures ReadRecords(s) == Some([rec] + recs)
  {
    assert ("\r\n" + t)[2..] == t;
  }

  /** A record that runs to the end of the input is the last one. */
  lemma ReadRecordsLast(s: string, rec: seq<string>)
    requires ReadRecord(s) == Some((rec, ""))
    ensures ReadRecords(s) == Some([rec])
  {
  }
}
