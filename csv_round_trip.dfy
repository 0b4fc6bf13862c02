/**
 * The export reads back: every escaped field, every row and the whole document that
 * `generateCsv` produces are read by the reference reader as the values that were written.
 */
module CsvRoundTrip {
  import opened Wrappers
  import opened Seqs
  import opened Tasks
  import opened Utils
  import opened CsvReader

  /** A value left unquoted is read back as itself, up to the field end that follows it. */
  lemma {:induction false} ReadBareUnquoted(x: string, rest: string)
    requires !NeedsQuoting(x) && AtFieldEnd(rest)
    ensures ReadBare(x + rest) == (x, rest)
    decreases |x|
  {
    var s := x + rest;
    if |x| == 0 {
      assert s == rest;
    } else {
      assert x == [x[0]] + x[1..];
      assert s[0] == x[0];
      if |x| >= 2 {
        assert s[1] == x[1];
      } else if |rest| > 0 {
        assert s[1] == rest[0];
      }
      assert s[1..] == x[1..] + rest;
      ReadBareUnquoted(x[1..], rest);
    }
  }

  /** The doubled text and a closing quote are read back as the original text, when no quote follows. */
  lemma {:induction false} ReadQuotedBodyDoubled(x: string, rest: string)
    requires |rest| == 0 || rest[0] != '"'
    ensures ReadQuotedBody(DoubleQuotes(x) + "\"" + rest) == Some((x, rest))
    decreases |x|
  {
    if |x| == 0 {
      ReadQuotedBodyClose(rest);
    } else {
      ReadQuotedBodyDoubled(x[1..], rest);
      ReadQuotedBodyDoubledStep(x, rest);
    }
  }

  /** One more leading character of the value: a quote is written doubled and read back single. */
  lemma ReadQuotedBodyDoubledStep(x: string, rest: string)
    requires |x| > 0
    requires ReadQuotedBody(DoubleQuotes(x[1..]) + "\"" + rest) == Some((x[1..], rest))
    ensures ReadQuotedBody(DoubleQuotes(x) + "\"" + rest) == Some((x, rest))
  {
    if x[0] == '"' {
      ReadDoubledQuote(DoubleQuotes(x), DoubleQuotes(x[1..]), x, rest);
    } else {
      ReadOtherChar(DoubleQuotes(x), DoubleQuotes(x[1..]), x, rest);
    }
  }

  /** A doubled quote in the written text is read as the quote that starts the value. */
  lemma ReadDoubledQuote(d: string, d1: string, x: string, rest: string)
    requires |x| > 0 && x[0] == '"' && d == "\"\"" + d1
    requires ReadQuotedBody(d1 + "\"" + rest) == Some((x[1..], rest))
    ensures ReadQuotedBody(d + "\"" + rest) == Some((x, rest))
  {
    var tail := d1 + "\"" + rest;
    assert d + "\"" + rest == "\"\"" + tail;
    ReadQuotedBodyQuote(tail, x[1..], rest);
    assert "\"" + x[1..] == x;
  }

  /** Any other character of the written text is read as the character that starts the value. */
  lemma ReadOtherChar(d: string, d1: string, x: string, rest: string)
    requires |x| > 0 && x[0] != '"' && d == [x[0]] + d1
    requires ReadQuotedBody(d1 + "\"" + rest) == Some((x[1..], rest))
    ensures ReadQuotedBody(d + "\"" + rest) == Some((x, rest))
  {
    var tail := d1 + "\"" + rest;
    assert d + "\"" + rest == [x[0]] + tail;
    ReadQuotedBodyChar(x[0], tail, x[1..], rest);
    assert [x[0]] + x[1..] == x;
  }

  /** `escapeCsvField` is undone by the reader: the field reads back as the value, and the reader stops where it ends. */
  lemma FieldRoundTrip(x: string, rest: string)
    requires AtFieldEnd(rest)
    ensures ReadField(EscapeCsvField(Some(x)) + rest) == Some((x, rest))
  {
    if NeedsQuoting(x) {
      QuotedFieldRoundTrip(x, rest);
    } else {
      BareFieldRoundTrip(x, rest);
    }
  }

  /** A quoted value: the reader strips the quotes and undoes the doubling. */
  lemma QuotedFieldRoundTrip(x: string, rest: string)
    requires NeedsQuoting(x) && AtFieldEnd(rest)
    ensures ReadField(EscapeCsvField(Some(x)) + rest) == Some((x, rest))
  {
    var body := DoubleQuotes(x) + "\"" + rest;
    assert EscapeCsvField(Some(x)) + rest == "\"" + body;
    assert ("\"" + body)[1..] == body;
    ReadQuotedBodyDoubled(x, rest);
  }

  /** An unquoted value does not start with a quote, so the reader takes it as a bare field. */
  lemma BareFieldRoundTrip(x: string, rest: string)
    requires !NeedsQuoting(x) && AtFieldEnd(rest)
    ensures ReadField(EscapeCsvField(Some(x)) + rest) == Some((x, rest))
  {
    var s := x + rest;
    ReadBareUnquoted(x, rest);
    if |x| > 0 {
      assert s[0] == x[0] && x[0] in x;
    } else {
      assert s == rest;
    }
  }

  /** A row of two or more values is the first escaped value, a comma, and the rest of the row. */
  lemma EscapeRowCons(fs: seq<string>)
    requires |fs| >= 2
    ensures EscapeRow(fs) == EscapeCsvField(Some(fs[0])) + "," + EscapeRow(fs[1..])
  {
    var es, es1 := EscapeAll(fs), EscapeAll(fs[1..]);
    assert es[1..] == es1 by {
      forall i | 0 <= i < |es1|
        ensures es[1..][i] == es1[i]
      {
        assert fs[1..][i] == fs[i + 1];
      }
    }
  }

  /** An escaped row reads back as its values, whatever they hold. */
  lemma {:induction false} RecordRoundTrip(fs: seq<string>, rest: string)
    requires |fs| >= 1
    requires |rest| == 0 || AtLineBreak(rest)
    ensures ReadRecord(EscapeRow(fs) + rest) == Some((fs, rest))
    decreases |fs|
  {
    if |fs| == 1 {
      RecordRoundTripLast(fs, rest);
    } else {
      RecordRoundTrip(fs[1..], rest);
      RecordRoundTripStep(fs, rest);
    }
  }

  /** A row of one value is read as that one field. */
  lemma RecordRoundTripLast(fs: seq<string>, rest: string)
    requires |fs| == 1
    requires |rest| == 0 || AtLineBreak(rest)
    ensures ReadRecord(EscapeRow(fs) + rest) == Some((fs, rest))
  {
    assert EscapeRow(fs) == EscapeCsvField(Some(fs[0]));
    FieldRoundTrip(fs[0], rest);
    ReadRecordLast(EscapeRow(fs) + rest, fs[0], rest);
    assert fs == [fs[0]];
  }

  /** The first value of a longer row is read, then the comma, then the rest of the row. */
  lemma RecordRoundTripStep(fs: seq<string>, rest: string)
    requires |fs| >= 2
    requires |rest| == 0 || AtLineBreak(rest)
    requires ReadRecord(EscapeRow(fs[1..]) + rest) == Some((fs[1..], rest))
    ensures ReadRecord(EscapeRow(fs) + rest) == Some((fs, rest))
  {
    EscapeRowCons(fs);
    var e, tail := EscapeCsvField(Some(fs[0])), EscapeRow(fs[1..]);
    AppendAssoc(e + ",", tail, rest);
    AppendAssoc(e, ",", tail + rest);
    ReadFirstValue(fs, rest);
  }

  /** The reader takes the first escaped value as one field and goes on after the comma. */
  lemma ReadFirstValue(fs: seq<string>, rest: string)
    requires |fs| >= 2
    requires ReadRecord(EscapeRow(fs[1..]) + rest) == Some((fs[1..], rest))
    ensures ReadRecord(EscapeCsvField(Some(fs[0])) + ("," + (EscapeRow(fs[1..]) + rest))) == Some((fs, rest))
  {
    var tail := EscapeRow(fs[1..]) + rest;
    FieldRoundTrip(fs[0], "," + tail);
    ReadRecordComma(EscapeCsvField(Some(fs[0])) + ("," + tail), fs[0], tail, fs[1..], rest);
    assert [fs[0]] + fs[1..] == fs;
  }

  /** Each record escaped as one line. */
  function Lines(recs: seq<seq<string>>): (lines: seq<string>)
    ensures |lines| == |recs| && forall i :: 0 <= i < |recs| ==> lines[i] == EscapeRow(recs[i])
  {
    Map(recs, EscapeRow)
  }

  /** Escaped lines joined with CRLF read back as the records, provided every record has a field. */
  lemma {:induction false} RecordsRoundTrip(recs: seq<seq<string>>)
    requires |recs| >= 1
    requires forall i :: 0 <= i < |recs| ==> |recs[i]| >= 1
    ensures ReadRecords(Join(Lines(recs), "\r\n")) == Some(recs)
    decreases |recs|
  {
    if |recs| == 1 {
      RecordsRoundTripLast(recs);
    } else {
      RecordsRoundTrip(recs[1..]);
      RecordsRoundTripStep(recs);
    }
  }

  /** A document of one record is read as that record. */
  lemma RecordsRoundTripLast(recs: seq<seq<string>>)
    requires |recs| == 1 && |recs[0]| >= 1
    ensures ReadRecords(Join(Lines(recs), "\r\n")) == Some(recs)
  {
    var doc := Join(Lines(recs), "\r\n");
    assert doc == EscapeRow(recs[0]) + "";
    RecordRoundTrip(recs[0], "");
    ReadRecordsLast(doc, recs[0]);
    assert recs == [recs[0]];
  }

  /** Joined lines are the first line, a CRLF, and the other lines joined. */
  lemma LinesCons(recs: seq<seq<string>>)
    requires |recs| >= 2
    ensures Join(Lines(recs), "\r\n") == EscapeRow(recs[0]) + ("\r\n" + Join(Lines(recs[1..]), "\r\n"))
  {
    assert Lines(recs)[1..] == Lines(recs[1..]);
  }

  /** The first record of a longer document is read, then the CRLF, then the other records. */
  lemma RecordsRoundTripStep(recs: seq<seq<string>>)
    requires |recs| >= 2 && |recs[0]| >= 1
    requires ReadRecords(Join(Lines(recs[1..]), "\r\n")) == Some(recs[1..])
    ensures ReadRecords(Join(Lines(recs), "\r\n")) == Some(recs)
  {
    FirstRecordRead(recs);
    ReadRecordsLineBreak(Join(Lines(recs), "\r\n"), recs[0], Join(Lines(recs[1..]), "\r\n"), recs[1..]);
    assert [recs[0]] + recs[1..] == recs;
  }

  /** The first line of a longer document reads back as the first record, up to the CRLF. */
  lemma FirstRecordRead(recs: seq<seq<string>>)
    requires |recs| >= 2 && |recs[0]| >= 1
    ensures ReadRecord(Join(Lines(recs), "\r\n")) == Some((recs[0], "\r\n" + Join(Lines(recs[1..]), "\r\n")))
  {
    LinesCons(recs);
    RecordRoundTrip(recs[0], "\r\n" + Join(Lines(recs[1..]), "\r\n"));
  }

  /** No column name needs quoting, so the unescaped header line is also the escaped one. */
  lemma HeaderLineIsEscaped()
    ensures HeaderLine() == EscapeRow(Headers)
  {
    forall i | 0 <= i < |Headers|
      ensures !NeedsQuoting(Headers[i])
    {
      HeaderNeedsNoQuoting(i);
    }
    assert EscapeAll(Headers) == Headers;
  }

  /** Each task's values, in collection order. */
  function Rows(ts: seq<Task>): (rows: seq<seq<string>>)
    ensures |rows| == |ts| && forall i :: 0 <= i < |ts| ==> rows[i] == RowValues(ts[i])
  {
    Map(ts, RowValues)
  }

  /** The table an export holds: the column names, then each task's values in collection order. */
  function Table(ts: seq<Task>): (table: seq<seq<string>>)
    ensures |table| == |ts| + 1 && table[0] == Headers
    ensures forall i :: 0 <= i < |ts| ==> table[i + 1] == RowValues(ts[i])
    ensures forall i :: 0 <= i < |table| ==> |table[i]| == |Headers|
  {
    [Headers] + Rows(ts)
  }

  /** The task lines are the escaped task rows. */
  lemma TaskLinesAreLines(ts: seq<Task>)
    ensures TaskLines(ts) == Lines(Rows(ts))
  {
    MapCompose(ts, RowValues, EscapeRow, TaskLine);
  }

  /** The lines of an export are the escaped rows of its table. */
  lemma ExportLines(ts: seq<Task>)
    ensures [HeaderLine()] + TaskLines(ts) == Lines(Table(ts))
  {
    HeaderLineIsEscaped();
    TaskLinesAreLines(ts);
    MapCons(Headers, Rows(ts), EscapeRow);
  }

  /** `generateCsv` loses nothing: reading the document back gives the header row and every task's values. */
  lemma GenerateCsvRoundTrip(ts: seq<Task>)
    ensures ReadRecords(GenerateCsv(ts)) == Some(Table(ts))
  {
    ExportLines(ts);
    RecordsRoundTrip(Table(ts));
  }
}
