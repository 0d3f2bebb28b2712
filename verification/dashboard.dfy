/** The dashboard's data state and the transitions the data pipeline drives
    (components/browser.tsx:238-247 state, 258-288 initial load, 294-315
    filter effect, 322-330 upload handlers). Modal and selection state are
    presentation only and not part of this state. */
module Dashboard {
  import opened Model
  import opened Seqs
  import opened FilterEngine
  import opened Facets
  import opened Upload

  datatype State = State(
    applications: seq<Applicant>,
    filtered: seq<Applicant>,
    criteria: Criteria,
    blocks: seq<string>,
    positions: seq<string>,
    error: Option<string>)

  const Initial := State([], [], NoCriteria, [], [], None)

  const UploadFormatError := "Error processing file: Invalid format"
  const LoadFormatError := "Error processing data: Invalid format"
  const ReadError := "Error reading file"
  const ParseErrorPrefix := "Error parsing CSV: "

  /** The block and position choices are those of the loaded applications. */
  predicate FacetsCurrent(st: State) {
    st.blocks == BlockFacets(st.applications) && st.positions == PositionFacets(st.applications)
  }

  /** The visible list is the loaded list under the current filters. */
  predicate ViewCurrent(st: State) {
    st.filtered == ApplyFilters(st.applications, st.criteria)
  }

  /** `handleUploadSuccess`: replaces the lists and clears the error; the
      block and position choices are left as they were. */
  function HandleUploadSuccess(st: State, data: seq<Applicant>): State {
    st.(applications := data, filtered := data, error := None)
  }

  /** `handleUploadError`: only the message changes. */
  function HandleUploadError(st: State, message: string): State {
    st.(error := Some(message))
  }

  /** The `complete` callback of an uploaded file, as written. */
  function UploadComplete(st: State, rows: seq<Row>, parse: JsonParse): (r: State)
    ensures (exists i :: 0 <= i < |rows| && CoerceRow(rows[i], parse).None?) ==>
      r == st.(error := Some(UploadFormatError))
    ensures (forall i :: 0 <= i < |rows| ==> CoerceRow(rows[i], parse).Some?) ==>
      && |r.applications| == |rows|
      && (forall i :: 0 <= i < |rows| ==> CoerceRow(rows[i], parse) == Some(r.applications[i]))
      && r.filtered == r.applications
      && r.error.None?
      && r.criteria == st.criteria
      && r.blocks == st.blocks && r.positions == st.positions
  {
    match CoerceAll(rows, parse)
    case None => HandleUploadError(st, UploadFormatError)
    case Some(apps) => HandleUploadSuccess(st, apps)
  }

  /** The `error` callback of an uploaded file. */
  function UploadParseFailed(st: State, message: string): State {
    HandleUploadError(st, message)
  }

  /** The `complete` callback of the initial load: on success the lists and
      the choices are all replaced; on failure only the message is set. */
  function LoadComplete(st: State, rows: seq<Row>, parse: JsonParse): (r: State)
    ensures (exists i :: 0 <= i < |rows| && CoerceRow(rows[i], parse).None?) ==>
      r == st.(error := Some(LoadFormatError))
    ensures (forall i :: 0 <= i < |rows| ==> CoerceRow(rows[i], parse).Some?) ==>
      && FacetsCurrent(r)
      && |r.applications| == |rows|
      && (forall i :: 0 <= i < |rows| ==> CoerceRow(rows[i], parse) == Some(r.applications[i]))
      && r.filtered == r.applications
      && r.error.None?
      && r.criteria == st.criteria
  {
    match CoerceAll(rows, parse)
    case None => st.(error := Some(LoadFormatError))
    case Some(apps) =>
      st.(applications := apps, filtered := apps,
          blocks := BlockFacets(apps), positions := PositionFacets(apps), error := None)
  }

  /** The initial load's `error` callback and its failed file read. */
  function LoadParseFailed(st: State, message: string): State {
    st.(error := Some(ParseErrorPrefix + message))
  }

  function LoadReadFailed(st: State): State {
    st.(error := Some(ReadError))
  }

  /** The filter effect, run whenever the criteria or the applications change. */
  function Refilter(st: State): (r: State)
    ensures ViewCurrent(r)
    ensures r.applications == st.applications && r.criteria == st.criteria
    ensures r.blocks == st.blocks && r.positions == st.positions && r.error == st.error
  {
    st.(filtered := ApplyFilters(st.applications, st.criteria))
  }

  /** After an upload and the effect it triggers, the view is the filtered
      upload: a subsequence of it holding exactly the accepted records. */
  lemma {:induction false} UploadThenRefilter(st: State, rows: seq<Row>, parse: JsonParse)
    requires forall i :: 0 <= i < |rows| ==> CoerceRow(rows[i], parse).Some?
    ensures var r := Refilter(UploadComplete(st, rows, parse));
      && ViewCurrent(r)
      && IsSubsequence(r.filtered, r.applications)
      && (forall app :: app in r.filtered <==> app in r.applications && Kept(st.criteria, app))
  {
    var up := UploadComplete(st, rows, parse);
    ApplyFiltersSpec(up.applications, up.criteria);
  }

  /** A failed upload leaves the loaded data, the view and the choices as they
      were, whatever the previous state. */
  lemma FailedUploadKeepsData(st: State, rows: seq<Row>, parse: JsonParse, k: int)
    requires 0 <= k < |rows| && CoerceRow(rows[k], parse).None?
    ensures var r := UploadComplete(st, rows, parse);
      && r.applications == st.applications && r.filtered == st.filtered
      && r.blocks == st.blocks && r.positions == st.positions
      && r.error == Some(UploadFormatError)
  {
  }

  /** As written, a successful upload keeps the old choices: from the empty
      dashboard, uploading one record in block "1" leaves the block choices
      empty although the loaded data now has block "1". */
  lemma UploadLeavesFacetsStale()
    ensures var row := Row(None, Some("1"), RawOther, None, None, None, map[]);
      var parse: JsonParse := _ => None;
      var r := UploadComplete(Initial, [row], parse);
      && FacetsCurrent(Initial)
      && r.blocks == []
      && "1" in BlockFacets(r.applications)
      && !FacetsCurrent(r)
  {
    var row := Row(None, Some("1"), RawOther, None, None, None, map[]);
    var parse: JsonParse := _ => None;
    EmptyFacets();
    assert CoerceRow(row, parse).Some?;
    var r := UploadComplete(Initial, [row], parse);
    assert r.applications[0].block == Some("1");
    BlockOffered(r.applications, "1");
  }

  /** The upload callback with the choices recomputed, as the initial load
      does and as a replacement of the whole record set requires. */
  function UploadCompleteRefreshingFacets(st: State, rows: seq<Row>, parse: JsonParse): (r: State)
    ensures (exists i :: 0 <= i < |rows| && CoerceRow(rows[i], parse).None?) ==>
      r == st.(error := Some(UploadFormatError))
    ensures (forall i :: 0 <= i < |rows| ==> CoerceRow(rows[i], parse).Some?) ==>
      && FacetsCurrent(r)
      && |r.applications| == |rows|
      && (forall i :: 0 <= i < |rows| ==> CoerceRow(rows[i], parse) == Some(r.applications[i]))
      && r.filtered == r.applications && r.error.None?
      && r.criteria == st.criteria
    ensures FacetsCurrent(st) ==> FacetsCurrent(r)
  {
    match CoerceAll(rows, parse)
    case None => HandleUploadError(st, UploadFormatError)
    case Some(apps) =>
      st.(applications := apps, filtered := apps,
          blocks := BlockFacets(apps), positions := PositionFacets(apps), error := None)
  }

  /** What the data pipeline reacts to. */
  datatype Event =
    | Loaded(rows: seq<Row>)
    | LoadFailedToParse(message: string)
    | LoadFailedToRead
    | Uploaded(rows: seq<Row>)
    | UploadFailedToParse(message: string)
    | SearchChanged(term: string)
    | BlockSelected(block: string)
    | PositionSelected(position: string)

  /** One event followed by the filter effect, with uploads refreshing the
      choices. */
  function Next(st: State, ev: Event, parse: JsonParse): State {
    var changed :=
      match ev
      case Loaded(rows) => LoadComplete(st, rows, parse)
      case LoadFailedToParse(message) => LoadParseFailed(st, message)
      case LoadFailedToRead => LoadReadFailed(st)
      case Uploaded(rows) => UploadCompleteRefreshingFacets(st, rows, parse)
      case UploadFailedToParse(message) => UploadParseFailed(st, message)
      case SearchChanged(term) => st.(criteria := st.criteria.(searchTerm := term))
      case BlockSelected(block) => st.(criteria := st.criteria.(selectedBlock := block))
      case PositionSelected(position) => st.(criteria := st.criteria.(selectedPosition := position))
    ;
    Refilter(changed)
  }

  predicate Consistent(st: State) {
    FacetsCurrent(st) && ViewCurrent(st)
  }

  /** The dashboard starts consistent and every event keeps it so: the choices
      always belong to the loaded data and the view is always its filtering. */
  lemma {:induction false} NextPreservesConsistency(st: State, ev: Event, parse: JsonParse)
    ensures Consistent(st) ==> Consistent(Next(st, ev, parse))
  {
    if !Consistent(st) {
      return;
    }
    match ev
    case Loaded(rows) =>
      if forall i :: 0 <= i < |rows| ==> CoerceRow(rows[i], parse).Some? {
      } else {
        var i :| 0 <= i < |rows| && CoerceRow(rows[i], parse).None?;
      }
    case Uploaded(rows) =>
    case _ =>
  }

  lemma InitialConsistent()
    ensures Consistent(Initial)
  {
    EmptyFacets();
  }
}
