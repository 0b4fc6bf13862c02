/** The CSV export of utils.js: field escaping and document assembly. */
module Utils {
  import opened Wrappers
  import opened Seqs
  import opened Tasks

  /** A field is quoted when it holds a comma, a double quote or a line feed (a lone CR does not count). */
  function NeedsQuoting(s: string): (b: bool)
    ensures !b ==> Split(s, ',') == [s]
    ensures s == "" ==> !b
  {
    assert ',' !in s ==> Split(s, ',') == [s] by {
      if ',' !in s {
        SplitNoSeparator(s, ',');
      }
    }
    ',' in s || '"' in s || '\n' in s
  }

  /** `s.replace(/"/g, '""')`: every double quote doubled. */
  function DoubleQuotes(s: string): (r: string)
    ensures |r| == |s| + multiset(s)['"']
    ensures '"' !in s ==> r == s
    decreases |s|
  {
    if |s| == 0 then ""
    else
      var rest := DoubleQuotes(s[1..]);
      assert s == [s[0]] + s[1..];
      (if s[0] == '"' then "\"\"" else [s[0]]) + rest
  }

  /** Reads `""` back as `"`, scanning left to right; the inverse of `DoubleQuotes`. */
  function UndoubleQuotes(s: string): string
    decreases |s|
  {
    if |s| == 0 then ""
    else if |s| >= 2 && s[0] == '"' && s[1] == '"' then "\"" + UndoubleQuotes(s[2..])
    else [s[0]] + UndoubleQuotes(s[1..])
  }

  lemma {:induction false} UndoubleDouble(s: string)
    ensures UndoubleQuotes(DoubleQuotes(s)) == s
    decreases |s|
  {
    if |s| > 0 {
      var rest := DoubleQuotes(s[1..]);
      UndoubleDouble(s[1..]);
      if s[0] == '"' {
        assert ("\"\"" + rest)[2..] == rest;
      } else {
        assert ([s[0]] + rest)[1..] == rest;
      }
      assert s == [s[0]] + s[1..];
    }
  }

  /**
   * `escapeCsvField`: an absent value becomes the empty field; a value that needs quoting is
   * wrapped in double quotes with its own quotes doubled; any other value is kept as it is.
   */
  function EscapeCsvField(field: Option<string>): (r: string)
    ensures field.None? ==> r == ""
    ensures field.Some? && !NeedsQuoting(field.value) ==> r == field.value
    ensures field.Some? && NeedsQuoting(field.value) ==>
      && |r| == |field.value| + multiset(field.value)['"'] + 2
      && r[0] == '"' && r[|r| - 1] == '"'
      && UndoubleQuotes(r[1..|r| - 1]) == field.value
  {
    match field
    case None => ""
    case Some(s) =>
      if NeedsQuoting(s) then
        var q := "\"" + DoubleQuotes(s) + "\"";
        assert q[1..|q| - 1] == DoubleQuotes(s);
        UndoubleDouble(s);
        q
      else s
  }

  /** The column names, in column order. */
  const Headers: seq<string> := ["id", "title", "due", "tags", "status", "created_at", "updated_at"]

  /** Each column name is made of lower-case letters and underscores, so none needs quoting. */
  lemma HeaderNeedsNoQuoting(i: nat)
    requires i < |Headers|
    ensures !NeedsQuoting(Headers[i])
  {
    if i == 0 {
      assert Headers[0] == ['i', 'd'];
    } else if i == 1 {
      assert Headers[1] == ['t', 'i', 't', 'l', 'e'];
    } else if i == 2 {
      assert Headers[2] == ['d', 'u', 'e'];
    } else if i == 3 {
      assert Headers[3] == ['t', 'a', 'g', 's'];
    } else if i == 4 {
      assert Headers[4] == ['s', 't', 'a', 't', 'u', 's'];
    } else if i == 5 {
      assert Headers[5] == ['c', 'r', 'e', 'a', 't', 'e', 'd', '_', 'a', 't'];
    } else {
      assert Headers[6] == ['u', 'p', 'd', 'a', 't', 'e', 'd', '_', 'a', 't'];
    }
  }

  /** The header line: the column names joined with commas, unescaped; splitting it at commas gives the names back. */
  function HeaderLine(): (h: string)
    ensures Split(h, ',') == Headers
  {
    forall i | 0 <= i < |Headers|
      ensures ',' !in Headers[i]
    {
      HeaderNeedsNoQuoting(i);
    }
    SplitJoin(Headers, ',');
    Join(Headers, ",")
  }

  /** The values of a task's row before escaping, in column order: tags joined with `;`, a missing deadline as `""`. */
  function RowValues(t: Task): (vs: seq<string>)
    ensures |vs| == |Headers|
    ensures vs[0] == t.id && vs[1] == t.title && vs[2] == DueText(t) && vs[3] == Join(t.tags, ";")
    ensures vs[4] == StatusName(t.status) && vs[5] == t.createdAt && vs[6] == t.updatedAt
  {
    [t.id, t.title, DueText(t), Join(t.tags, ";"), StatusName(t.status), t.createdAt, t.updatedAt]
  }

  /** Each value passed through `escapeCsvField`. */
  function EscapeAll(vs: seq<string>): (es: seq<string>)
    ensures |es| == |vs| && forall i :: 0 <= i < |vs| ==> es[i] == EscapeCsvField(Some(vs[i]))
  {
    seq(|vs|, i requires 0 <= i < |vs| => EscapeCsvField(Some(vs[i])))
  }

  /** `values.map(escapeCsvField).join(',')` */
  function EscapeRow(vs: seq<string>): (line: string)
    ensures |vs| > 0 && (forall i :: 0 <= i < |vs| ==> !NeedsQuoting(vs[i])) ==> Split(line, ',') == vs
  {
    assert |vs| > 0 && (forall i :: 0 <= i < |vs| ==> !NeedsQuoting(vs[i])) ==> Split(Join(EscapeAll(vs), ","), ',') == vs by {
      if |vs| > 0 && forall i :: 0 <= i < |vs| ==> !NeedsQuoting(vs[i]) {
        assert EscapeAll(vs) == vs;
        SplitJoin(vs, ',');
      }
    }
    Join(EscapeAll(vs), ",")
  }

  /** `values.map(escapeCsvField).join(',')` for one task. */
  function TaskLine(t: Task): string {
    EscapeRow(RowValues(t))
  }

  /** One CSV line per task, in collection order. */
  function TaskLines(ts: seq<Task>): (lines: seq<string>)
    ensures |lines| == |ts| && forall i :: 0 <= i < |ts| ==> lines[i] == EscapeRow(RowValues(ts[i]))
  {
    Map(ts, TaskLine)
  }

  /** `generateCsv`: the header line and one line per task, joined with CRLF. */
  function GenerateCsv(ts: seq<Task>): (csv: string)
    ensures ts == [] ==> csv == HeaderLine() && Split(csv, ',') == Headers
  {
    Join([HeaderLine()] + TaskLines(ts), "\r\n")
  }

  /** One more task adds CRLF and its line at the end, never a trailing line break. */
  lemma GenerateCsvSnoc(ts: seq<Task>, t: Task)
    ensures GenerateCsv(ts + [t]) == GenerateCsv(ts) + "\r\n" + EscapeRow(RowValues(t))
  {
    var line := EscapeRow(RowValues(t));
    TaskLinesSnoc(ts, t);
    assert [HeaderLine()] + TaskLines(ts + [t]) == ([HeaderLine()] + TaskLines(ts)) + [line];
    JoinSnoc([HeaderLine()] + TaskLines(ts), line, "\r\n");
  }

  /** One more task adds its line after the others. */
  lemma TaskLinesSnoc(ts: seq<Task>, t: Task)
    ensures TaskLines(ts + [t]) == TaskLines(ts) + [EscapeRow(RowValues(t))]
  {
    MapSnoc(ts, t, TaskLine);
  }

  /** A comma forces quoting; the value is wrapped in double quotes. */
  lemma EscapeCommaExample()
    ensures EscapeCsvField(Some("a,b")) == "\"" + "a,b" + "\""
  {
    assert "a,b" == ['a', ',', 'b'];
  }

  /** A double quote forces quoting and is written twice. */
  lemma EscapeQuoteExample()
    ensures EscapeCsvField(Some("a\"b")) == "\"" + "a\"\"b" + "\""
  {
    assert "a\"b" == ['a', '"', 'b'];
    assert DoubleQuotes("a\"b") == "a\"\"b" by {
      assert DoubleQuotes("b") == "b";
      assert DoubleQuotes("\"b") == "\"\"" + "b";
    }
  }

  /** Plain text, and text with a bare CR, are left unquoted. */
  lemma EscapePlainExamples()
    ensures EscapeCsvField(None) == ""
    ensures EscapeCsvField(Some("plain")) == "plain"
    ensures EscapeCsvField(Some("a\rb")) == "a\rb"
  {
    assert !NeedsQuoting("plain") by {
      assert "plain" == ['p', 'l', 'a', 'i', 'n'];
    }
    assert !NeedsQuoting("a\rb") by {
      assert "a\rb" == ['a', '\r', 'b'];
    }
  }
}
