/** Position coercion and batch acceptance: the body of the `complete`
    callbacks (components/browser.tsx:197-206 for an uploaded file,
    259-265 for the initial load, the same expression twice). */
module Upload {
  import opened Model

  /** The value the CSV parser delivers for the Position column. */
  datatype RawPosition =
    | RawList(items: seq<string>)   // already an array
    | RawText(text: string)         // a string, expected to hold a JSON-like list
    | RawOther                      // anything else: missing, a number, a boolean

  /** One parsed CSV row, before its Position column is coerced. */
  datatype Row = Row(
    name: Option<string>,
    block: Option<string>,
    position: RawPosition,
    assessment: Option<string>,
    referral: Option<string>,
    vision: Option<string>,
    others: map<string, string>)

  /** JSON.parse, restricted to the results the dashboard can use: a list of
      strings, or failure (JSON.parse throws). */
  type JsonParse = string -> Option<seq<string>>

  /** `s.replace(/'/g, '"')`. */
  function SingleToDoubleQuotes(s: string): (r: string)
    ensures |r| == |s|
    ensures forall i :: 0 <= i < |s| ==> r[i] == (if s[i] == '\'' then '"' else s[i])
  {
    if |s| == 0 then ""
    else [if s[0] == '\'' then '"' else s[0]] + SingleToDoubleQuotes(s[1..])
  }

  /** Single-quoted pseudo-JSON becomes JSON. */
  lemma QuoteNormalisationExample()
    ensures SingleToDoubleQuotes("['A','B']") == "[\"A\",\"B\"]"
  {
  }

  /** The ternary that computes the new Position: an array is kept, a string
      goes through JSON.parse after quote normalisation, anything else
      becomes the empty list. None stands for JSON.parse throwing. */
  function CoercePosition(p: RawPosition, parse: JsonParse): Option<seq<string>> {
    match p
    case RawList(items) => Some(items)
    case RawText(text) => parse(SingleToDoubleQuotes(text))
    case RawOther => Some([])
  }

  /** `({ ...app, Position: ... })`: every other field is copied. */
  function CoerceRow(row: Row, parse: JsonParse): (r: Option<Applicant>)
    ensures r.Some? ==>
      && r.value.name == row.name
      && r.value.block == row.block
      && r.value.assessment == row.assessment
      && r.value.referral == row.referral
      && r.value.vision == row.vision
      && r.value.others == row.others
    ensures row.position.RawList? ==> r.Some? && r.value.position == row.position.items
    ensures row.position.RawOther? ==> r.Some? && r.value.position == []
    ensures row.position.RawText? ==>
      (r.Some? <==> parse(SingleToDoubleQuotes(row.position.text)).Some?)
    ensures row.position.RawText? && r.Some? ==>
      Some(r.value.position) == parse(SingleToDoubleQuotes(row.position.text))
  {
    match CoercePosition(row.position, parse)
    case None => None
    case Some(ps) => Some(Applicant(row.name, row.block, ps, row.assessment, row.referral, row.vision, row.others))
  }

  /** `results.data.map(...)` inside `try`: the batch is accepted only when no
      row throws, and then holds every row's coercion in order. */
  function CoerceAll(rows: seq<Row>, parse: JsonParse): (r: Option<seq<Applicant>>)
    ensures r.Some? <==> forall i :: 0 <= i < |rows| ==> CoerceRow(rows[i], parse).Some?
    ensures r.Some? ==> |r.value| == |rows|
    ensures r.Some? ==> forall i :: 0 <= i < |rows| ==> CoerceRow(rows[i], parse) == Some(r.value[i])
  {
    if |rows| == 0 then Some([])
    else
      match CoerceRow(rows[0], parse)
      case None => None
      case Some(app) =>
        match CoerceAll(rows[1..], parse)
        case None => None
        case Some(apps) => Some([app] + apps)
  }

  /** One row whose Position text JSON.parse rejects sinks the whole batch. */
  lemma OneBadRowRejectsBatch(rows: seq<Row>, parse: JsonParse, k: int)
    requires 0 <= k < |rows| && rows[k].position.RawText?
    requires parse(SingleToDoubleQuotes(rows[k].position.text)).None?
    ensures CoerceAll(rows, parse).None?
  {
    assert CoerceRow(rows[k], parse).None?;
  }
}
