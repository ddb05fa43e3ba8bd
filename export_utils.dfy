/**
 * Export formatting of `src/lib/utils/exportUtils.ts`: the record projection
 * behind `convertToJSON`, the CSV field escaping and `convertToCSV`.
 *
 * Fields are quoted as section 2 of RFC 4180 (rules 6 and 7) describes, with
 * three deviations kept from the source: lines are separated by LF, a lone CR
 * does not cause quoting, and the tags column is written unescaped.
 */
module ExportUtils {
  import opened Wrappers
  import opened Text
  import opened Types

  // ---------------------------------------------------------------- JSON

  /** The object written per entry by `convertToJSON`. */
  datatype JsonRecord = JsonRecord(date: string, things: seq<string>, tags: seq<string>)

  function ToJsonRecord(e: Entry): (r: JsonRecord)
    ensures r.date == e.entry_date && r.tags == e.tags
    ensures |r.things| == 3
    ensures r.things[0] == e.thing_one && r.things[1] == e.thing_two && r.things[2] == e.thing_three
  {
    JsonRecord(e.entry_date, [e.thing_one, e.thing_two, e.thing_three], e.tags)
  }

  /** The array `convertToJSON` serialises: one record per entry, in order. */
  function JsonProjection(entries: seq<Entry>): (r: seq<JsonRecord>)
    ensures |r| == |entries|
    ensures forall i :: 0 <= i < |entries| ==> r[i] == ToJsonRecord(entries[i])
  {
    if entries == [] then [] else [ToJsonRecord(entries[0])] + JsonProjection(entries[1..])
  }

  // ---------------------------------------------------------------- CSV fields

  /** The test of `escapeCSV`: a comma, a double quote or a line feed. */
  predicate NeedsQuoting(s: string) {
    ',' in s || '"' in s || '\n' in s
  }

  /** `text.replace(/"/g, '""')`. */
  function DoubleQuotes(s: string): (r: string)
    ensures |r| >= |s|
    ensures '"' !in s ==> r == s
  {
    if s == [] then [] else (if s[0] == '"' then "\"\"" else [s[0]]) + DoubleQuotes(s[1..])
  }

  /**
   * `escapeCSV`: a field with a comma, quote or line feed comes back wrapped
   * in quotes with its quotes doubled; any other field comes back as it is.
   * `EscapeCsvUnchanged` and `EscapeCsvReadsBack` state what this means.
   */
  function EscapeCsv(text: string): string {
    if NeedsQuoting(text) then "\"" + DoubleQuotes(text) + "\"" else text
  }

  /** A field that needs no quoting is written as it is, and only such a field. */
  lemma EscapeCsvUnchanged(text: string)
    ensures EscapeCsv(text) == text <==> !NeedsQuoting(text)
  {
    if NeedsQuoting(text) {
      assert |EscapeCsv(text)| > |text|;
    }
  }

  // ---------------------------------------------------------------- a CSV reader

  /**
   * Reads the rest of a quoted field after its opening quote: `""` stands for
   * one quote and a single `"` closes the field. Returns the value and the
   * input after the closing quote; `None` when the quote is never closed.
   */
  function ReadQuoted(s: string): (r: Option<(string, string)>)
    ensures r.Some? ==> |r.value.1| < |s|
  {
    if s == [] then None
    else if s[0] == '"' then
      if |s| >= 2 && s[1] == '"' then
        match ReadQuoted(s[2..])
        case None => None
        case Some((v, rest)) => Some(("\"" + v, rest))
      else Some(([], s[1..]))
    else
      match ReadQuoted(s[1..])
      case None => None
      case Some((v, rest)) => Some(([s[0]] + v, rest))
  }

  /**
   * Reads an unquoted field up to the next comma. A line feed or a double
   * quote in an unquoted field is not well-formed (`None`).
   */
  function ReadBare(s: string): (r: Option<(string, string)>)
    ensures r.Some? ==> |r.value.1| <= |s|
  {
    if s == [] || s[0] == ',' then Some(([], s))
    else if s[0] == '"' || s[0] == '\n' then None
    else
      match ReadBare(s[1..])
      case None => None
      case Some((v, rest)) => Some(([s[0]] + v, rest))
  }

  function ReadField(s: string): (r: Option<(string, string)>)
    ensures r.Some? ==> |r.value.1| <= |s|
  {
    if s != [] && s[0] == '"' then ReadQuoted(s[1..]) else ReadBare(s)
  }

  /** The fields of one CSV record, or `None` when it is not well-formed. */
  function ParseRecord(s: string): Option<seq<string>>
    decreases |s|
  {
    match ReadField(s)
    case None => None
    case Some((f, rest)) =>
      if rest == [] then Some([f])
      else if rest[0] == ',' then
        match ParseRecord(rest[1..])
        case None => None
        case Some(fs) => Some([f] + fs)
      else None
  }

  /** What may follow a field: the end of the record or a comma. */
  predicate FieldBoundary(rest: string) {
    rest == [] || rest[0] == ','
  }

  /** A doubled quote in front of a readable quoted body reads as one quote. */
  lemma ReadQuotedPair(v: string, rest: string)
    requires v != [] && v[0] == '"'
    requires ReadQuoted(DoubleQuotes(v[1..]) + "\"" + rest) == Some((v[1..], rest))
    ensures ReadQuoted(DoubleQuotes(v) + "\"" + rest) == Some((v, rest))
  {
    var dq := DoubleQuotes(v[1..]);
    assert DoubleQuotes(v) == "\"\"" + dq;
    var tail := dq + "\"" + rest;
    var s := "\"\"" + tail;
    assert DoubleQuotes(v) + "\"" + rest == s;
    assert s[0] == '"' && s[1] == '"' && s[2..] == tail;
    assert ReadQuoted(s) == Some(("\"" + v[1..], rest));
    assert "\"" + v[1..] == v;
  }

  /** An ordinary character in front of a readable quoted body is kept. */
  lemma ReadQuotedChar(v: string, rest: string)
    requires v != [] && v[0] != '"'
    requires ReadQuoted(DoubleQuotes(v[1..]) + "\"" + rest) == Some((v[1..], rest))
    ensures ReadQuoted(DoubleQuotes(v) + "\"" + rest) == Some((v, rest))
  {
    var tail := DoubleQuotes(v[1..]) + "\"" + rest;
    assert DoubleQuotes(v) + "\"" + rest == [v[0]] + tail by {
      assert DoubleQuotes(v) == [v[0]] + DoubleQuotes(v[1..]);
    }
    ReadQuotedKeeps(v[0], tail, v[1..], rest);
    assert [v[0]] + v[1..] == v;
  }

  /** One step of the quoted reader: a character other than a quote is kept. */
  lemma ReadQuotedKeeps(c: char, tail: string, v: string, rest: string)
    requires c != '"' && ReadQuoted(tail) == Some((v, rest))
    ensures ReadQuoted([c] + tail) == Some(([c] + v, rest))
  {
    assert ([c] + tail)[0] == c && ([c] + tail)[1..] == tail;
  }

  /** A single quote followed by a field boundary closes the field. */
  lemma ReadQuotedClose(rest: string)
    requires FieldBoundary(rest)
    ensures ReadQuoted("\"" + rest) == Some(([], rest))
  {
    var s := "\"" + rest;
    assert s[0] == '"' && s[1..] == rest;
    assert |s| >= 2 ==> s[1] == ',';
  }

  /** The body of a quoted field, quotes doubled, reads back up to its closing quote. */
  lemma {:induction false} ReadQuotedDoubled(v: string, rest: string)
    requires FieldBoundary(rest)
    ensures ReadQuoted(DoubleQuotes(v) + "\"" + rest) == Some((v, rest))
    decreases |v|
  {
    if v == [] {
      assert DoubleQuotes(v) + "\"" + rest == "\"" + rest;
      ReadQuotedClose(rest);
    } else {
      ReadQuotedDoubled(v[1..], rest);
      if v[0] == '"' {
        ReadQuotedPair(v, rest);
      } else {
        ReadQuotedChar(v, rest);
      }
    }
  }

  lemma {:induction false} ReadBarePlain(v: string, rest: string)
    requires !NeedsQuoting(v) && FieldBoundary(rest)
    ensures ReadBare(v + rest) == Some((v, rest))
    decreases |v|
  {
    if v == [] {
      assert v + rest == rest;
    } else {
      assert (v + rest)[0] == v[0] && (v + rest)[1..] == v[1..] + rest;
      assert !NeedsQuoting(v[1..]) by {
        assert forall c :: c in v[1..] ==> c in v;
      }
      ReadBarePlain(v[1..], rest);
      assert [v[0]] + v[1..] == v;
    }
  }

  /** An escaped field reads back as the original text, whatever follows it. */
  lemma EscapeCsvReadsBack(text: string, rest: string)
    requires FieldBoundary(rest)
    ensures ReadField(EscapeCsv(text) + rest) == Some((text, rest))
  {
    if NeedsQuoting(text) {
      QuotedFieldReadsBack(text, rest);
    } else {
      BareFieldReadsBack(text, rest);
    }
  }

  lemma QuotedFieldReadsBack(text: string, rest: string)
    requires NeedsQuoting(text) && FieldBoundary(rest)
    ensures ReadField(EscapeCsv(text) + rest) == Some((text, rest))
  {
    QuotedFieldOpens(text, rest);
    ReadQuotedDoubled(text, rest);
  }

  /** A quoted field is read from just after its opening quote. */
  lemma QuotedFieldOpens(text: string, rest: string)
    requires NeedsQuoting(text)
    ensures ReadField(EscapeCsv(text) + rest) == ReadQuoted(DoubleQuotes(text) + "\"" + rest)
  {
    var body := DoubleQuotes(text) + "\"" + rest;
    assert EscapeCsv(text) == "\"" + DoubleQuotes(text) + "\"";
    var s := EscapeCsv(text) + rest;
    assert s == "\"" + body;
    assert s[0] == '"' && s[1..] == body;
    assert ReadField(s) == ReadQuoted(s[1..]);
  }

  lemma BareFieldReadsBack(text: string, rest: string)
    requires !NeedsQuoting(text) && FieldBoundary(rest)
    ensures ReadField(EscapeCsv(text) + rest) == Some((text, rest))
  {
    ReadBarePlain(text, rest);
    var s := text + rest;
    assert EscapeCsv(text) + rest == s;
    if text == [] {
      assert s == rest;
    } else {
      assert s[0] == text[0] && text[0] in text;
    }
  }


  function EscapeAll(fields: seq<string>): (r: seq<string>)
    ensures |r| == |fields| && forall i :: 0 <= i < |fields| ==> r[i] == EscapeCsv(fields[i])
  {
    if fields == [] then [] else [EscapeCsv(fields[0])] + EscapeAll(fields[1..])
  }

  /** Round trip: a record of escaped fields joined by commas reads back as the fields. */
  lemma {:induction false} EscapedRecordReadsBack(fields: seq<string>)
    requires |fields| > 0
    ensures ParseRecord(Join(",", EscapeAll(fields))) == Some(fields)
    decreases |fields|
  {
    var escaped := EscapeAll(fields);
    if |fields| == 1 {
      EscapeCsvReadsBack(fields[0], "");
      assert EscapeCsv(fields[0]) + "" == EscapeCsv(fields[0]);
      assert Join(",", escaped) == EscapeCsv(fields[0]);
      assert ReadField(EscapeCsv(fields[0])) == Some((fields[0], ""));
      assert fields == [fields[0]];
    } else {
      var tail := Join(",", EscapeAll(fields[1..]));
      assert escaped[1..] == EscapeAll(fields[1..]);
      assert Join(",", escaped) == EscapeCsv(fields[0]) + ("," + tail);
      EscapeCsvReadsBack(fields[0], "," + tail);
      assert ("," + tail)[1..] == tail;
      EscapedRecordReadsBack(fields[1..]);
      assert [fields[0]] + fields[1..] == fields;
    }
  }

  // ---------------------------------------------------------------- convertToCSV

  const Bom: string := "\U{FEFF}"
  const HeaderNames: seq<string> := ["Date", "Thing 1", "Thing 2", "Thing 3", "Tags"]
  const HeaderLine: string := Join(",", HeaderNames)

  /** One row: the date and the tags are written as they are, the three things escaped. */
  function CsvRow(e: Entry): string {
    Join(",", [e.entry_date, EscapeCsv(e.thing_one), EscapeCsv(e.thing_two), EscapeCsv(e.thing_three),
               Join(",", e.tags)])
  }

  function CsvRows(entries: seq<Entry>): (r: seq<string>)
    ensures |r| == |entries| && forall i :: 0 <= i < |entries| ==> r[i] == CsvRow(entries[i])
  {
    if entries == [] then [] else [CsvRow(entries[0])] + CsvRows(entries[1..])
  }

  /** `convertToCSV`: a byte-order mark, then the header and the rows joined by LF. */
  function ConvertToCsv(entries: seq<Entry>): (r: string)
    ensures |r| >= |Bom + HeaderLine| && r[..|Bom + HeaderLine|] == Bom + HeaderLine
  {
    var lines := [HeaderLine] + CsvRows(entries);
    assert Join(",", HeaderNames) == HeaderLine;
    Bom + Join("\n", lines)
  }

  /** The header reads as the five column names. */
  lemma HeaderReadsBack()
    ensures ParseRecord(HeaderLine) == Some(HeaderNames)
  {
    assert forall i :: 0 <= i < |HeaderNames| ==> !NeedsQuoting(HeaderNames[i]);
    assert EscapeAll(HeaderNames) == HeaderNames;
    EscapedRecordReadsBack(HeaderNames);
  }

  /** With no entries the export is the byte-order mark and the header alone. */
  lemma ConvertToCsvEmpty()
    ensures ConvertToCsv([]) == Bom + HeaderLine
  {
    assert CsvRows([]) == [];
    assert Join("\n", [HeaderLine]) == HeaderLine;
  }

  /** Each further entry adds a line feed and its row at the end, so rows follow the input order. */
  lemma ConvertToCsvAppend(entries: seq<Entry>, e: Entry)
    ensures ConvertToCsv(entries + [e]) == ConvertToCsv(entries) + "\n" + CsvRow(e)
  {
    var lines := [HeaderLine] + CsvRows(entries);
    var rows := CsvRows(entries + [e]);
    assert rows == CsvRows(entries) + [CsvRow(e)] by {
      assert |rows| == |CsvRows(entries)| + 1;
      forall i | 0 <= i < |rows| ensures rows[i] == (CsvRows(entries) + [CsvRow(e)])[i] {
        if i < |entries| {
          assert (entries + [e])[i] == entries[i];
        }
      }
    }
    assert [HeaderLine] + rows == lines + [CsvRow(e)];
    JoinSnoc("\n", lines, CsvRow(e));
  }

  /**
   * The columns a reader sees in the tags part of a row: since the tags are
   * joined by commas without escaping, each tag becomes a column of its own,
   * and an entry without tags has one empty column.
   */
  function TagColumns(tags: seq<string>): seq<string> {
    if tags == [] then [""] else tags
  }

  /**
   * A row reads back as the entry's JSON record: its date, its three things and
   * its tag columns, provided the date and the tags need no quoting (as ISO
   * dates and extracted tags do not).
   */
  lemma CsvRowReadsBackAsJsonRecord(e: Entry)
    requires !NeedsQuoting(e.entry_date)
    requires forall i :: 0 <= i < |e.tags| ==> !NeedsQuoting(e.tags[i])
    ensures ParseRecord(CsvRow(e)) ==
            Some([ToJsonRecord(e).date] + ToJsonRecord(e).things + TagColumns(ToJsonRecord(e).tags))
  {
    var fields := [e.entry_date, e.thing_one, e.thing_two, e.thing_three] + TagColumns(e.tags);
    CsvRowIsEscapedRecord(e, fields);
    EscapedRecordReadsBack(fields);
    JsonRecordColumns(e, fields);
  }

  /** The columns of an entry's JSON record, in CSV order. */
  lemma JsonRecordColumns(e: Entry, fields: seq<string>)
    requires fields == [e.entry_date, e.thing_one, e.thing_two, e.thing_three] + TagColumns(e.tags)
    ensures fields == [ToJsonRecord(e).date] + ToJsonRecord(e).things + TagColumns(ToJsonRecord(e).tags)
  {
    var rec := ToJsonRecord(e);
    assert rec.things == [e.thing_one, e.thing_two, e.thing_three];
  }

  /** A row is the escaped record of its date, things and tag columns. */
  lemma CsvRowIsEscapedRecord(e: Entry, fields: seq<string>)
    requires !NeedsQuoting(e.entry_date)
    requires forall i :: 0 <= i < |e.tags| ==> !NeedsQuoting(e.tags[i])
    requires fields == [e.entry_date, e.thing_one, e.thing_two, e.thing_three] + TagColumns(e.tags)
    ensures Join(",", EscapeAll(fields)) == CsvRow(e)
  {
    var head := [e.entry_date, EscapeCsv(e.thing_one), EscapeCsv(e.thing_two), EscapeCsv(e.thing_three)];
    EscapedFields(e, fields, head);
    var esc := head + TagColumns(e.tags);
    JoinSplit(esc, 4);
    assert esc[..4] == head && esc[4..] == TagColumns(e.tags);
    var row := head + [Join(",", e.tags)];
    JoinSplit(row, 4);
    assert row[..4] == head && row[4..] == [Join(",", e.tags)];
    assert Join(",", TagColumns(e.tags)) == Join(",", e.tags);
    assert row == [e.entry_date, EscapeCsv(e.thing_one), EscapeCsv(e.thing_two), EscapeCsv(e.thing_three),
                   Join(",", e.tags)];
  }

  /** Escaping leaves the date and the tag columns as they are. */
  lemma EscapedFields(e: Entry, fields: seq<string>, head: seq<string>)
    requires !NeedsQuoting(e.entry_date)
    requires forall i :: 0 <= i < |e.tags| ==> !NeedsQuoting(e.tags[i])
    requires fields == [e.entry_date, e.thing_one, e.thing_two, e.thing_three] + TagColumns(e.tags)
    requires head == [e.entry_date, EscapeCsv(e.thing_one), EscapeCsv(e.thing_two), EscapeCsv(e.thing_three)]
    ensures EscapeAll(fields) == head + TagColumns(e.tags)
  {
    var esc := EscapeAll(fields);
    var columns := TagColumns(e.tags);
    var goal := head + columns;
    assert forall j :: 0 <= j < |columns| ==> !NeedsQuoting(columns[j]);
    forall i | 0 <= i < |esc| ensures esc[i] == goal[i] {
      if i >= 4 {
        assert fields[i] == columns[i - 4] && goal[i] == columns[i - 4];
      }
    }
  }


  /** Joining the two halves of a sequence with the separator between them. */
  lemma {:induction false} JoinSplit(xs: seq<string>, k: nat)
    requires 0 < k < |xs|
    ensures Join(",", xs) == Join(",", xs[..k]) + "," + Join(",", xs[k..])
    decreases k
  {
    if k == 1 {
      assert xs[..1] == [xs[0]] && xs[1..] == xs[k..];
    } else {
      JoinSplit(xs[1..], k - 1);
      assert xs[1..][..k - 1] == xs[..k][1..];
      assert xs[1..][k - 1..] == xs[k..];
    }
  }
}
