/** The text built by `exportToCSV` (components/browser.tsx:108-123), without
    the Blob and download that follow it. */
module CsvExport {
  import opened Model

  const Header := "Applicant,Block,Positions,Assessment,Referral,Vision\n"
  const PositionSeparator := "; "
  const FieldSeparator := ","

  /** Array.prototype.join. */
  function Join(xs: seq<string>, sep: string): string {
    if |xs| == 0 then ""
    else if |xs| == 1 then xs[0]
    else xs[0] + sep + Join(xs[1..], sep)
  }

  /** `s.replace(/"/g, '""')`: every double quote doubled. */
  function Escape(s: string): string {
    if |s| == 0 then ""
    else (if s[0] == '"' then "\"\"" else [s[0]]) + Escape(s[1..])
  }

  function Quote(s: string): string {
    "\"" + Escape(s) + "\""
  }

  /** The six values a row is built from, after `(field || '')`: a missing
      field becomes the empty string, the positions become one joined string. */
  function FieldValues(app: Applicant): seq<string> {
    [ app.name.GetOr(""),
      app.block.GetOr(""),
      Join(app.position, PositionSeparator),
      app.assessment.GetOr(""),
      app.referral.GetOr(""),
      app.vision.GetOr("") ]
  }

  function QuoteAll(values: seq<string>): (r: seq<string>)
    ensures |r| == |values|
  {
    seq(|values|, i requires 0 <= i < |values| => Quote(values[i]))
  }

  /** One CSV line, without its terminating newline. */
  function EncodeRow(app: Applicant): string {
    Join(QuoteAll(FieldValues(app)), FieldSeparator)
  }

  /** Every line after the header, each terminated by a newline. */
  function EncodeRows(apps: seq<Applicant>): string {
    if |apps| == 0 then ""
    else EncodeRow(apps[0]) + "\n" + EncodeRows(apps[1..])
  }

  /** The whole file `exportToCSV` offers for download. */
  function ExportCsv(apps: seq<Applicant>): (csv: string)
    ensures |csv| >= |Header| && csv[..|Header|] == Header
    ensures |apps| == 0 ==> csv == Header
  {
    Header + EncodeRows(apps)
  }

  /** Appending a record appends exactly its line: the `forEach` loop that
      builds the text with `csv += row + '\n'`. */
  lemma {:induction false} ExportAppend(apps: seq<Applicant>, app: Applicant)
    ensures ExportCsv(apps + [app]) == ExportCsv(apps) + EncodeRow(app) + "\n"
  {
    RowsAppend(apps, app);
  }

  lemma {:induction false} RowsAppend(apps: seq<Applicant>, app: Applicant)
    ensures EncodeRows(apps + [app]) == EncodeRows(apps) + EncodeRow(app) + "\n"
  {
    if |apps| == 0 {
      assert EncodeRows([app]) == EncodeRow(app) + "\n" + EncodeRows([]);
    } else {
      assert (apps + [app])[1..] == apps[1..] + [app];
      RowsAppend(apps[1..], app);
    }
  }
}

/** A reader for the dialect `exportToCSV` writes: a fixed header line, then
    lines of comma-separated fields, each field in double quotes with inner
    quotes doubled. It serves as the independent reference the encoder is
    proved against. */
module CsvReader {
  import opened Model
  import opened CsvExport

  /** Reads the inside of a quoted field whose opening quote is already
      consumed; returns the field's value and the text after its closing quote. */
  function ReadQuoted(s: string): (r: Option<(string, string)>)
    ensures r.Some? ==> |r.value.1| < |s|
    decreases |s|
  {
    if |s| == 0 then None
    else if s[0] == '"' then
      if |s| >= 2 && s[1] == '"' then PrependChar('"', ReadQuoted(s[2..]))
      else Some(("", s[1..]))
    else PrependChar(s[0], ReadQuoted(s[1..]))
  }

  function PrependChar(c: char, r: Option<(string, string)>): Option<(string, string)> {
    match r
    case None => None
    case Some((v, rest)) => Some(([c] + v, rest))
  }

  /** Reads one line of quoted fields and its newline; returns the fields and
      the text after the newline. */
  function ReadRow(s: string): (r: Option<(seq<string>, string)>)
    ensures r.Some? ==> |r.value.1| < |s|
    decreases |s|
  {
    if |s| == 0 || s[0] != '"' then None
    else
      match ReadQuoted(s[1..])
      case None => None
      case Some((v, rest)) =>
        if |rest| > 0 && rest[0] == ',' then
          match ReadRow(rest[1..])
          case None => None
          case Some((vs, after)) => Some(([v] + vs, after))
        else if |rest| > 0 && rest[0] == '\n' then Some(([v], rest[1..]))
        else None
  }

  function ReadRows(s: string): Option<seq<seq<string>>>
    decreases |s|
  {
    if |s| == 0 then Some([])
    else
      match ReadRow(s)
      case None => None
      case Some((fields, rest)) =>
        match ReadRows(rest)
        case None => None
        case Some(rows) => Some([fields] + rows)
  }

  /** Reads a whole file: the header line, then the rows. */
  function ReadCsv(s: string): Option<seq<seq<string>>> {
    if |s| >= |Header| && s[..|Header|] == Header then ReadRows(s[|Header|..])
    else None
  }

  /** A quoted field reads back as its value, whatever text follows the
      closing quote, provided that text does not start with another quote. */
  lemma {:induction false} ReadQuotedEscape(x: string, rest: string)
    requires |rest| == 0 || rest[0] != '"'
    ensures ReadQuoted(Escape(x) + "\"" + rest) == Some((x, rest))
    decreases |x|
  {
    var s := Escape(x) + "\"" + rest;
    if |x| == 0 {
      assert s == "\"" + rest;
      assert s[1..] == rest;
    } else {
      ReadQuotedEscape(x[1..], rest);
      var tail := Escape(x[1..]) + "\"" + rest;
      if x[0] == '"' {
        assert s == "\"\"" + tail;
        assert s[2..] == tail;
      } else {
        assert s == [x[0]] + tail;
        assert s[1..] == tail;
      }
      assert [x[0]] + x[1..] == x;
    }
  }

  /** Stripping the outer quotes of a written field and collapsing each `""`
      gives back the field, a missing one as the empty string. */
  lemma FieldRoundTrip(field: Option<string>)
    ensures ReadQuoted(Quote(field.GetOr(""))[1..]) == Some((field.GetOr(""), ""))
  {
    var v := field.GetOr("");
    assert Quote(v)[1..] == Escape(v) + "\"" + "";
    ReadQuotedEscape(v, "");
  }

  /** A non-empty list of values, quoted, comma-joined and newline-terminated,
      reads back as the same list. */
  lemma {:induction false} ReadRowQuoted(values: seq<string>, after: string)
    requires |values| > 0
    ensures ReadRow(Join(QuoteAll(values), FieldSeparator) + "\n" + after) == Some((values, after))
    decreases |values|
  {
    var q := QuoteAll(values);
    var s := Join(q, FieldSeparator) + "\n" + after;
    var v := values[0];
    if |values| == 1 {
      assert Join(q, FieldSeparator) == Quote(v);
      assert s == "\"" + (Escape(v) + "\"" + ("\n" + after));
      ReadQuotedEscape(v, "\n" + after);
      assert s[1..] == Escape(v) + "\"" + ("\n" + after);
      assert ("\n" + after)[1..] == after;
      assert values == [v];
    } else {
      var more := Join(q[1..], FieldSeparator) + "\n" + after;
      assert q[1..] == QuoteAll(values[1..]);
      ReadRowQuoted(values[1..], after);
      assert s == "\"" + (Escape(v) + "\"" + ("," + more));
      ReadQuotedEscape(v, "," + more);
      assert s[1..] == Escape(v) + "\"" + ("," + more);
      assert ("," + more)[1..] == more;
      assert [v] + values[1..] == values;
    }
  }

  /** The rows of an export read back as the six field values of every
      record, in order. */
  lemma {:induction false} ReadRowsEncoded(apps: seq<Applicant>)
    ensures ReadRows(EncodeRows(apps)) == Some(seq(|apps|, i requires 0 <= i < |apps| => FieldValues(apps[i])))
    decreases |apps|
  {
    var expected := seq(|apps|, i requires 0 <= i < |apps| => FieldValues(apps[i]));
    if |apps| > 0 {
      var rest := EncodeRows(apps[1..]);
      ReadRowsEncoded(apps[1..]);
      ReadRowQuoted(FieldValues(apps[0]), rest);
      assert EncodeRows(apps) == Join(QuoteAll(FieldValues(apps[0])), FieldSeparator) + "\n" + rest;
      assert expected == [FieldValues(apps[0])] + seq(|apps[1..]|, i requires 0 <= i < |apps[1..]| => FieldValues(apps[1..][i]));
    }
  }

  /** Round trip: reading an exported file gives back, for every record in
      order, its name, block, joined positions, assessment, referral and
      vision, with a missing field read as the empty string. */
  lemma ExportRoundTrip(apps: seq<Applicant>)
    ensures ReadCsv(ExportCsv(apps)) == Some(seq(|apps|, i requires 0 <= i < |apps| => FieldValues(apps[i])))
  {
    var csv := ExportCsv(apps);
    assert csv[|Header|..] == EncodeRows(apps);
    ReadRowsEncoded(apps);
  }
}
