# Applicant dashboard data pipeline, modelled in Dafny

The applicant dashboard is a React page. It loads applicant records from a
CSV file and offers two drop-downs of choices: the blocks and the positions
found in the records. It filters the records by a free-text search, a block
and a position. It can export the filtered records as CSV or as a printable
document. Almost all of `components/browser.tsx` is user interface. This
project models the pure data transformations inside it.

- **Markup neutraliser** (`sanitize.dfy`, module `Sanitize`). `sanitizeHtml`
  turns every case-insensitive `script` into `span`. An undefined input gives
  `""`.
- **CSV encoder** (`csv.dfy`, module `CsvExport`). This is the text that
  `exportToCSV` builds. It starts with a fixed header line. Then comes one
  line per record with six quoted fields. Inner quotes are doubled, and the
  positions are joined with `"; "`.
- **CSV reader** (`csv.dfy`, module `CsvReader`). This is a reference decoder
  for the same dialect. The encoder is proved against it: every export reads
  back to the records' fields.
- **Filter engine** (`filter.dfy`, module `FilterEngine`). This is the body of
  the filter effect. It runs three optional passes in order: search, block,
  position.
- **Facet extraction** (`facets.dfy`, module `Facets`).
  `_.uniq(...).filter(Boolean)` over the block column and over the flattened
  position lists.
- **Position coercion and batch acceptance** (`upload.dfy`, module `Upload`).
  An array `Position` is kept. A string `Position` goes to `JSON.parse` after
  every `'` becomes `"`. Any other value becomes `[]`. If one row throws, the
  whole batch is rejected.
- **Dashboard state** (`dashboard.dfy`, module `Dashboard`). This covers the
  initial load callbacks, the upload callbacks, `handleUploadSuccess`,
  `handleUploadError` and the filter effect. They are pure transitions on a
  state record.

Shared pieces:
- `model.dfy` defines `Option` and the `Applicant` record. Every optional
  column is an `Option<string>`. Unknown columns are kept in a
  `map<string, string>`.
- `ascii.dfy` defines ASCII `toLowerCase` and `String.prototype.includes`.
- `seqs.dfy` defines `Array.prototype.filter`, lodash `_.uniq` and
  `indexOf`. It also defines the subsequence notions they are proved against.

Inputs that come from code outside this file are parameters of the model:
- The rows produced by Papa Parse are an input `seq<Row>`.
- `JSON.parse` is a parameter of type `string -> Option<seq<string>>`.
  `None` stands for a parse that throws.

A malformed Position string does not fall back to `[]`. `JSON.parse` throws,
and the `catch` (`components/browser.tsx`, lines 205 and 277) rejects the
whole batch. The model does the same (`Upload.CoerceAll`,
`Upload.OneBadRowRejectsBatch`).

## Model

| member | source | states |
|---|---|---|
| Sanitize.SanitizeHtml | components/browser.tsx:25-27 | The output never contains `script` in any ASCII case. Undefined gives `""`. The output is 2 characters shorter per match. The input comes back unchanged exactly when it has no match. |
| Sanitize.SanitizeIdempotent | components/browser.tsx:25-27 | Neutralising already neutralised text changes nothing. |
| Sanitize.ReplaceAllRemovesScript | components/browser.tsx:26 | The global case-insensitive replacement leaves no match behind. A `span` never starts or completes a new one. |
| Sanitize.ReplaceAllLength | components/browser.tsx:26 | The replacement shortens the text by exactly 2 for every position where `/script/i` matches, because `script` cannot overlap itself. |
| Sanitize.ReplaceAllSplice | components/browser.tsx:26 | The scan copies the text before the leftmost match unchanged. It writes `span` for that match and continues after it. With `ReplaceAllUnchangedIff` this fixes the whole output. |
| Sanitize.SanitizeSplice | components/browser.tsx:25-27 | `sanitizeHtml` keeps the text before the first case-insensitive `script`, turns that match into `span` and treats the rest the same way. |
| Sanitize.ReplaceAllUnchangedIff | components/browser.tsx:26 | The replacement returns its input if and only if the input has no case-insensitive `script`. |
| CsvExport.ExportCsv | components/browser.tsx:109 | The text starts with the header line `Applicant,Block,Positions,Assessment,Referral,Vision` and a newline. With no records it is just that line. |
| CsvExport.ExportAppend | components/browser.tsx:111-123 | Appending a record to the input appends exactly that record's line and a newline to the output. |
| CsvReader.ReadQuotedEscape | components/browser.tsx:120 | A field written with its quotes doubled and then closed reads back as the original value. The text after it is left intact. |
| CsvReader.FieldRoundTrip | components/browser.tsx:120 | Strip the outer quotes of a written field and collapse each `""` back to `"`: this gives the original value. A missing value gives `""`. |
| CsvReader.ReadRowQuoted | components/browser.tsx:113-122 | A line of quoted, comma-joined fields with a newline reads back as the same list of values. |
| CsvReader.ExportRoundTrip | components/browser.tsx:108-123 | Read an exported file: after the header you get one row per record, in input order. Each row holds six fields: name, block, positions joined with `"; "`, assessment, referral and vision. A missing field reads as `""`. |
| FilterEngine.ApplyFilters | components/browser.tsx:294-315 | With no search term, block or position, the view is the input. The view is never longer than the input. |
| FilterEngine.ApplyFiltersIsOnePass | components/browser.tsx:297-312 | The three passes run in sequence equal one filter by the conjunction of the set conditions. |
| FilterEngine.ApplyFiltersSpec | components/browser.tsx:294-315 | A record is kept if and only if each set filter accepts it. The search is a lowercased substring match on `Applicant` or `Assessment`. The block must equal `Block` exactly. The position must be in `Position`. The result is the subsequence of the input at exactly the accepted positions, so order is preserved. |
| FilterEngine.ApplyFiltersKeepsAll | components/browser.tsx:294-315 | If every record passes, the view is the whole input. |
| FilterEngine.EmptyTermNeedsAField | components/browser.tsx:296-301 | With an empty term, the search test accepts a record exactly when it has an `Applicant` or an `Assessment`. So the `if (searchTerm)` guard is what keeps records with neither when no search is entered. |
| FilterEngine.SearchByLoweredTerm | components/browser.tsx:297-301 | Lowercasing the search term in advance selects the same records. |
| FilterEngine.SearchIgnoresCase | components/browser.tsx:297-301 | Two search terms that lowercase to the same string select the same records. |
| Seqs.FilterPicksKeptIndices | components/browser.tsx:298-310 | `filter` keeps exactly the positions whose element passes. The output is the input at those positions, in increasing order. |
| Seqs.UniqFirstSeenOrder | components/browser.tsx:267-270 | `_.uniq` lists each value in the order of its first occurrence. |
| Facets.UniqThenFilter | components/browser.tsx:267-270 | `_.uniq(s).filter(truthy)` has no duplicates. It holds exactly the truthy values of `s`, in first-seen order. |
| Facets.BlockFacetsSpec | components/browser.tsx:267 | The block choices have no duplicates and never `""`. They are exactly the non-empty blocks found in the records, in the order of the first record carrying each. |
| Facets.BlockOffered | components/browser.tsx:267 | A block is offered if and only if it is non-empty and some record carries it. |
| Facets.PositionFacetsSpec | components/browser.tsx:268-270 | The position choices have no duplicates and never `""`. They are exactly the non-empty positions some record lists, in first-seen order of the flattened lists. |
| Facets.EmptyFacets | components/browser.tsx:267-270 | No records give no choices. |
| Upload.SingleToDoubleQuotes | components/browser.tsx:202 | Every `'` becomes `"`. Every other character and the length are unchanged. |
| Upload.QuoteNormalisationExample | components/browser.tsx:264 | `['A','B']` becomes `["A","B"]` before it reaches `JSON.parse`. |
| Upload.CoerceRow | components/browser.tsx:198-203 | An array `Position` is unchanged. A non-string, non-array value becomes `[]`. A string succeeds exactly when `JSON.parse` accepts its normalised text, and the new `Position` is the list it returns. All other fields are copied (`...app`). |
| Upload.CoerceAll | components/browser.tsx:197-207 | The batch succeeds if and only if every row coerces. It then holds each row's coercion, in order. |
| Upload.OneBadRowRejectsBatch | components/browser.tsx:197-207 | One row whose Position text `JSON.parse` rejects makes the whole batch fail. |
| Dashboard.UploadComplete | components/browser.tsx:196-208 | If any row fails, only the error message changes and the loaded data stays. Otherwise the records replace both the list and the view, and the error is cleared. The block and position choices stay as they were. |
| Dashboard.FailedUploadKeepsData | components/browser.tsx:205-207 | After a failed upload the applications, the view and the choices are all as before. The error reads `Error processing file: Invalid format`. |
| Dashboard.LoadComplete | components/browser.tsx:258-280 | On success the coerced rows, in order, become both the list and the view. The choices become the facets of the new records, the error is cleared and the filters are unchanged. If any row fails, only the error `Error processing data: Invalid format` is set. |
| Dashboard.Refilter | components/browser.tsx:294-315 | Re-running the filter effect makes the view the filtered list. Nothing else changes. |
| Dashboard.UploadThenRefilter | components/browser.tsx:294-326 | After a successful upload and the effect it triggers, the view is a subsequence of the uploaded records. It holds exactly the records the current filters accept. |
| Dashboard.UploadLeavesFacetsStale | components/browser.tsx:322-326 | As written, an upload from the empty dashboard of one record in block `1` leaves the block choices empty. |
| Dashboard.UploadCompleteRefreshingFacets | components/browser.tsx:322-326 | This is the corrected upload callback. On success the coerced rows become the list and the view, the choices are the facets of the new records, and the filters are unchanged. On failure only the error changes. If the choices were current before, they are current after. |
| Dashboard.NextPreservesConsistency | components/browser.tsx:249-330 | Every load, upload or filter change, followed by the filter effect, keeps two facts true: the choices are the facets of the loaded records, and the view is their filtering. Uploads here use the corrected callback. |
| Dashboard.InitialConsistent | components/browser.tsx:238-244 | The empty initial state is consistent. |

## Findings

| source | as written | input that shows it | evidently intended | confidence | as-written member | corrected member |
|---|---|---|---|---|---|---|
| components/browser.tsx:322-326 | `handleUploadSuccess` replaces `applications` and `filteredApplications` but never recomputes `blocks` and `positions`. So the drop-downs keep offering the previous file's choices. | Start from the empty dashboard and upload one row with `Block` = `1`: the block drop-down stays empty. | The choices are recomputed from the new records, as the initial load does at lines 267-275. | not executed; high (the code path is direct) | Dashboard.UploadLeavesFacetsStale | Dashboard.UploadCompleteRefreshingFacets |

`Dashboard.UploadComplete` models the callback as written.
`Dashboard.Next` uses the corrected callback.

## Left out

- Papa Parse tokenising, header mapping and `skipEmptyLines` are not modelled. The parsed rows are an input of the model, and a Papa Parse error is an input message (`UploadParseFailed`, `LoadParseFailed`).
- `dynamicTyping` is not modelled. Every field is a string, and a Position cell is one of three raw shapes (`RawPosition`). A numeric `Block` makes `app.Block === selectedBlock` fail for every choice. A numeric `Applicant` makes `toLowerCase` throw inside the effect. Neither case is represented.
- The internals of `JSON.parse` are not modelled. It is a parameter. A parse that succeeds but yields something other than a list of strings is not represented.
- `FileReader`, `window.fs.readFile` of the fixed file and the async effect scheduling are I/O and are not modelled. The race between two uploads in flight (last writer wins) is also out. A failed read appears only as `LoadReadFailed`.
- React renders once between `handleUploadSuccess` and the filter effect, with the view equal to the whole upload. `UploadComplete` shows that intermediate state. `Next` applies the effect at once.
- Blob creation, the object URL, the anchor-click download and the `applicants.csv` file name are browser side effects.
- The printable document (`exportToPDF`) is left out, as are `window.open`, `print` and the locale-dependent date. Its template is presentation markup. Its one call of `sanitizeHtml`, on the assessment, is covered by `Sanitize.SanitizeHtml`.
- `toLowerCase` and the `/i` flag are modelled for ASCII only. For the pattern `script`, a non-`u` regular expression folds exactly the ASCII letters. For the search filter, non-ASCII case mapping is not represented.
- `Position` elements are strings in the model. `join` on `null` or `undefined` elements is not represented.
- The React components, JSX, the modal, selection state and badges are user interface.
- `types/types.ts` is left out. It declares only interfaces and a global, with no behaviour.
