/** The filter effect of the dashboard (components/browser.tsx:294-315): three
    optional filters applied one after the other to a copy of the loaded
    applications. */
module FilterEngine {
  import opened Model
  import opened Ascii
  import opened Seqs

  /** The three filter inputs; the empty string means "no filter". */
  datatype Criteria = Criteria(searchTerm: string, selectedBlock: string, selectedPosition: string)

  const NoCriteria := Criteria("", "", "")

  /** `field?.toLowerCase().includes(term.toLowerCase())`: an absent field
      never matches. */
  predicate FieldMentions(field: Option<string>, term: string) {
    field.Some? && Includes(LowerStr(field.value), LowerStr(term))
  }

  predicate MatchesSearch(app: Applicant, term: string) {
    FieldMentions(app.name, term) || FieldMentions(app.assessment, term)
  }

  /** `app.Block === selectedBlock`. */
  predicate MatchesBlock(app: Applicant, block: string) {
    app.block == Some(block)
  }

  /** `app.Position.includes(selectedPosition)`. */
  predicate MatchesPosition(app: Applicant, position: string) {
    position in app.position
  }

  /** One `if (input) { filtered = filtered.filter(keep) }` step. */
  function Narrow(apps: seq<Applicant>, active: bool, keep: Applicant -> bool): seq<Applicant> {
    if active then Filter(apps, keep) else apps
  }

  /** The effect body: each non-empty input narrows the list once more. */
  function ApplyFilters(apps: seq<Applicant>, c: Criteria): (r: seq<Applicant>)
    ensures |r| <= |apps|
    ensures c == NoCriteria ==> r == apps
  {
    var afterSearch := Narrow(apps, c.searchTerm != "", app => MatchesSearch(app, c.searchTerm));
    var afterBlock := Narrow(afterSearch, c.selectedBlock != "", app => MatchesBlock(app, c.selectedBlock));
    Narrow(afterBlock, c.selectedPosition != "", app => MatchesPosition(app, c.selectedPosition))
  }

  /** The reference reading of the filters: a record is kept when every
      filter that is set accepts it. */
  predicate Kept(c: Criteria, app: Applicant) {
    && (c.searchTerm == "" || MatchesSearch(app, c.searchTerm))
    && (c.selectedBlock == "" || MatchesBlock(app, c.selectedBlock))
    && (c.selectedPosition == "" || MatchesPosition(app, c.selectedPosition))
  }

  /** A step that may be switched off is a filter by "off, or accepted". */
  lemma {:induction false} NarrowIsFilter(apps: seq<Applicant>, active: bool, keep: Applicant -> bool, gate: Applicant -> bool)
    requires forall app :: gate(app) == (!active || keep(app))
    ensures Narrow(apps, active, keep) == Filter(apps, gate)
  {
    if active {
      FilterExtensional(apps, keep, gate);
    } else {
      FilterKeepsAll(apps, gate);
    }
  }

  /** The three passes are one filter by the conjunction of the set filters. */
  lemma {:induction false} ApplyFiltersIsOnePass(apps: seq<Applicant>, c: Criteria)
    ensures ApplyFilters(apps, c) == Filter(apps, app => Kept(c, app))
  {
    var search := (app: Applicant) => c.searchTerm == "" || MatchesSearch(app, c.searchTerm);
    var block := (app: Applicant) => c.selectedBlock == "" || MatchesBlock(app, c.selectedBlock);
    var position := (app: Applicant) => c.selectedPosition == "" || MatchesPosition(app, c.selectedPosition);
    var searchAndBlock := (app: Applicant) => search(app) && block(app);
    var all := (app: Applicant) => Kept(c, app);

    var afterSearch := Narrow(apps, c.searchTerm != "", app => MatchesSearch(app, c.searchTerm));
    NarrowIsFilter(apps, c.searchTerm != "", app => MatchesSearch(app, c.searchTerm), search);
    var afterBlock := Narrow(afterSearch, c.selectedBlock != "", app => MatchesBlock(app, c.selectedBlock));
    NarrowIsFilter(afterSearch, c.selectedBlock != "", app => MatchesBlock(app, c.selectedBlock), block);
    FilterFusion(apps, search, block, searchAndBlock);
    NarrowIsFilter(afterBlock, c.selectedPosition != "", app => MatchesPosition(app, c.selectedPosition), position);
    FilterFusion(apps, searchAndBlock, position, all);
  }

  /** A record survives the filters exactly when every set filter accepts it,
      and the survivors keep their relative order: the result is the
      subsequence of the input at the accepted positions. */
  lemma {:induction false} ApplyFiltersSpec(apps: seq<Applicant>, c: Criteria)
    ensures var r := ApplyFilters(apps, c);
      && (forall app :: app in r <==> app in apps && Kept(c, app))
      && IsSubsequence(r, apps)
      && Embeds(KeptIndices(apps, app => Kept(c, app)), r, apps)
      && (forall i :: 0 <= i < |apps| ==>
            (i in KeptIndices(apps, app => Kept(c, app)) <==> Kept(c, apps[i])))
  {
    ApplyFiltersIsOnePass(apps, c);
    FilterPicksKeptIndices(apps, app => Kept(c, app));
  }

  /** When every record passes the set filters, the view is the whole list. */
  lemma {:induction false} ApplyFiltersKeepsAll(apps: seq<Applicant>, c: Criteria)
    requires forall i :: 0 <= i < |apps| ==> Kept(c, apps[i])
    ensures ApplyFilters(apps, c) == apps
  {
    ApplyFiltersIsOnePass(apps, c);
    FilterKeepsAll(apps, app => Kept(c, app));
  }

  /** With an empty term the search test would still drop a record that has
      neither an `Applicant` nor an `Assessment`; the `if (searchTerm)` guard
      keeps such records when no search is entered. */
  lemma EmptyTermNeedsAField(app: Applicant)
    ensures MatchesSearch(app, "") <==> app.name.Some? || app.assessment.Some?
  {
    if app.name.Some? {
      IncludesEmpty(LowerStr(app.name.value));
    }
    if app.assessment.Some? {
      IncludesEmpty(LowerStr(app.assessment.value));
    }
  }

  /** Lowering the search term in advance selects the same records. */
  lemma SearchByLoweredTerm(apps: seq<Applicant>, c: Criteria)
    ensures ApplyFilters(apps, c.(searchTerm := LowerStr(c.searchTerm))) == ApplyFilters(apps, c)
  {
    if c.searchTerm != "" {
      LowerStrIdempotent(c.searchTerm);
      SearchIgnoresCase(apps, c, LowerStr(c.searchTerm));
    }
  }

  /** The search is case-insensitive: terms that lower to the same string
      select the same records. */
  lemma {:induction false} SearchIgnoresCase(apps: seq<Applicant>, c: Criteria, term: string)
    requires c.searchTerm != "" && LowerStr(term) == LowerStr(c.searchTerm)
    ensures ApplyFilters(apps, c.(searchTerm := term)) == ApplyFilters(apps, c)
  {
    var c' := c.(searchTerm := term);
    assert term != "";
    ApplyFiltersIsOnePass(apps, c);
    ApplyFiltersIsOnePass(apps, c');
    FilterExtensional(apps, app => Kept(c, app), app => Kept(c', app));
  }
}
