/** Facet extraction (components/browser.tsx:267-270): the choices offered by
    the block and position drop-downs, `_.uniq(values).filter(Boolean)`. */
module Facets {
  import opened Model
  import opened Seqs

  /** `apps.map(app => app.Block)`. */
  function BlockColumn(apps: seq<Applicant>): (r: seq<Option<string>>)
    ensures |r| == |apps|
  {
    seq(|apps|, i requires 0 <= i < |apps| => apps[i].block)
  }

  /** `apps.flatMap(app => app.Position)`. */
  function PositionColumn(apps: seq<Applicant>): seq<string> {
    if |apps| == 0 then [] else apps[0].position + PositionColumn(apps[1..])
  }

  /** A value is in the flattened column exactly when some record lists it. */
  lemma {:induction false} PositionColumnMembers(apps: seq<Applicant>, x: string)
    ensures x in PositionColumn(apps) <==> exists i :: 0 <= i < |apps| && x in apps[i].position
  {
    if |apps| > 0 {
      PositionColumnMembers(apps[1..], x);
      if exists i :: 0 <= i < |apps[1..]| && x in apps[1..][i].position {
        var i :| 0 <= i < |apps[1..]| && x in apps[1..][i].position;
        assert x in apps[i + 1].position;
      }
      if exists i :: 1 <= i < |apps| && x in apps[i].position {
        var i :| 1 <= i < |apps| && x in apps[i].position;
        assert x in apps[1..][i - 1].position;
      }
    }
  }

  /** `Boolean(value)` for a block: undefined and "" are falsy. */
  predicate PresentBlock(b: Option<string>) {
    b.Some? && b.value != ""
  }

  predicate NonEmpty(s: string) {
    s != ""
  }

  /** Unwraps blocks already known to be present. */
  function BlockValues(bs: seq<Option<string>>): (r: seq<string>)
    requires forall i :: 0 <= i < |bs| ==> PresentBlock(bs[i])
    ensures |r| == |bs| && forall i :: 0 <= i < |bs| ==> bs[i] == Some(r[i])
  {
    if |bs| == 0 then []
    else
      assert PresentBlock(bs[0]);
      [bs[0].value] + BlockValues(bs[1..])
  }

  /** `_.uniq(apps.map(app => app.Block)).filter(Boolean)`. */
  function BlockFacets(apps: seq<Applicant>): seq<string> {
    var kept := Filter(Uniq(BlockColumn(apps)), PresentBlock);
    BlockValues(kept)
  }

  /** `_.uniq(apps.flatMap(app => app.Position)).filter(Boolean)`. */
  function PositionFacets(apps: seq<Applicant>): seq<string> {
    Filter(Uniq(PositionColumn(apps)), NonEmpty)
  }

  /** `_.uniq(s).filter(truthy)`, in general: no duplicates, exactly the
      truthy values of `s`, listed in the order of their first appearance. */
  lemma {:induction false} UniqThenFilter<T(!new)>(s: seq<T>, truthy: T -> bool)
    ensures var r := Filter(Uniq(s), truthy);
      && NoDuplicates(r)
      && (forall i :: 0 <= i < |r| ==> r[i] in s && truthy(r[i]))
      && (forall i :: 0 <= i < |s| && truthy(s[i]) ==> s[i] in r)
      && (forall i, j :: 0 <= i < j < |r| ==> FirstIndex(s, r[i]) < FirstIndex(s, r[j]))
  {
    var u := Uniq(s);
    var r := Filter(u, truthy);
    FilterPicksKeptIndices(u, truthy);
    var idx := KeptIndices(u, truthy);
    EmbedsNoDuplicates(idx, r, u);
    UniqFirstSeenOrder(s);
    forall i, j | 0 <= i < j < |r|
      ensures FirstIndex(s, r[i]) < FirstIndex(s, r[j])
    {
      assert r[i] == u[idx[i]] && r[j] == u[idx[j]] && idx[i] < idx[j];
    }
  }

  /** Unwrapping present blocks keeps them distinct and loses none. */
  lemma BlockValuesFaithful(bs: seq<Option<string>>)
    requires forall i :: 0 <= i < |bs| ==> PresentBlock(bs[i])
    ensures NoDuplicates(bs) ==> NoDuplicates(BlockValues(bs))
    ensures forall b :: b in BlockValues(bs) <==> Some(b) in bs
  {
    var r := BlockValues(bs);
    forall b
      ensures b in r <==> Some(b) in bs
    {
      if b in r {
        var k :| 0 <= k < |r| && r[k] == b;
        assert bs[k] == Some(b);
      }
      if Some(b) in bs {
        var k :| 0 <= k < |bs| && bs[k] == Some(b);
        assert r[k] == b;
      }
    }
  }

  /** The block choices: distinct, never empty, exactly the blocks some record
      carries, in the order of the first record carrying each. */
  lemma {:induction false} BlockFacetsSpec(apps: seq<Applicant>)
    ensures var r := BlockFacets(apps);
      && NoDuplicates(r)
      && "" !in r
      && (forall b :: b in r <==> b != "" && Some(b) in BlockColumn(apps))
      && (forall i, j :: 0 <= i < j < |r| ==>
            FirstIndex(BlockColumn(apps), Some(r[i])) < FirstIndex(BlockColumn(apps), Some(r[j])))
  {
    var col := BlockColumn(apps);
    var kept := Filter(Uniq(col), PresentBlock);
    UniqThenFilter(col, PresentBlock);
    BlockValuesFaithful(kept);
    forall b | b != "" && Some(b) in col
      ensures Some(b) in kept
    {
      var i :| 0 <= i < |col| && col[i] == Some(b);
      assert PresentBlock(col[i]);
    }
  }

  /** A block is offered exactly when it is non-empty and some record carries it. */
  lemma {:induction false} BlockOffered(apps: seq<Applicant>, b: string)
    ensures b in BlockFacets(apps) <==> b != "" && exists i :: 0 <= i < |apps| && apps[i].block == Some(b)
  {
    BlockFacetsSpec(apps);
    var col := BlockColumn(apps);
    if Some(b) in col {
      var i :| 0 <= i < |col| && col[i] == Some(b);
      assert apps[i].block == Some(b);
    }
    if exists i :: 0 <= i < |apps| && apps[i].block == Some(b) {
      var i :| 0 <= i < |apps| && apps[i].block == Some(b);
      assert col[i] == Some(b);
    }
  }

  /** The position choices: distinct, never empty, exactly the positions some
      record lists, in the order in which they first appear. */
  lemma {:induction false} PositionFacetsSpec(apps: seq<Applicant>)
    ensures var r := PositionFacets(apps);
      && NoDuplicates(r)
      && "" !in r
      && (forall p :: p in r <==> p != "" && exists i :: 0 <= i < |apps| && p in apps[i].position)
      && (forall i, j :: 0 <= i < j < |r| ==>
            FirstIndex(PositionColumn(apps), r[i]) < FirstIndex(PositionColumn(apps), r[j]))
  {
    var col := PositionColumn(apps);
    UniqThenFilter(col, NonEmpty);
    var r := PositionFacets(apps);
    forall p
      ensures p in r <==> p != "" && exists i :: 0 <= i < |apps| && p in apps[i].position
    {
      PositionColumnMembers(apps, p);
      if p != "" && p in col {
        var i :| 0 <= i < |col| && col[i] == p;
      }
    }
  }

  /** No records, no choices. */
  lemma EmptyFacets()
    ensures BlockFacets([]) == [] && PositionFacets([]) == []
  {
  }
}
