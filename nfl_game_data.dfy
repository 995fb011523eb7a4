/** nfl_game_data.py: the first scraper, which walks consecutive game ids one at a time,
    reads the summary and matchup tables by position without a points row, and keeps a
    running frame of the games found together with the list of ids that hit. */
module NflGameData {
  import opened Text
  import opened Frames
  import opened Reshape

  // ---------------------------------------------------------------------------
  // get_table_data

  /** `get_table_data(url)` for the tables the fetch gave. A failed fetch becomes an empty
      frame; the first table's first column names the matchup's columns after `matchup`,
      no points row is added, and failures of the assembly escape. */
  function GetTableData(fetched: Option<seq<Table>>): (r: Result<Reply>)
    ensures fetched.None? <==> r == Ok(EmptyFrame)
    ensures r != Ok(FrameClass)
    ensures fetched.Some? ==>
      (r.Ok? <==> PositionalAssembly(fetched.value, "matchup", false).Ok?)
    ensures fetched.Some? && r.Ok? ==>
      r.value == Frame(PositionalAssembly(fetched.value, "matchup", false).value)
  {
    match fetched
    case None => Ok(EmptyFrame)
    case Some(tables) =>
      match PositionalAssembly(tables, "matchup", false)
      case Err(e) => Err(e)
      case Ok(rec) => Ok(Frame(rec))
  }

  /** Without the points row, a record has an `away_points` column exactly when a matchup
      row is named `points` in some mix of cases. */
  lemma TableDataPoints(tables: seq<Table>)
    requires GetTableData(Some(tables)).Ok?
    ensures "away_points" in Keys(GetTableData(Some(tables)).value.record) <==>
      exists i :: 0 <= i < |tables[1].rows| && Lower(tables[1].rows[i][0]) == "points"
  {
    var t := PositionalTable(tables, "matchup", false);
    PositionalRecord(tables, "matchup", false);
    assert t.rows == tables[1].rows;
    PivotAwayPoints(t);
  }

  /** The reply for each page id: `get_table_data(page_name + str(current_page))`. */
  function PagesOf(fetch: Fetch): (get: Runner) {
    (currentPage: int) => GetTableData(fetch(UrlPrefix + IntText(currentPage)))
  }

  /** The page of each id is the matchup address of that id, and no two ids share one. */
  lemma PagesOfUrl(fetch: Fetch, i: int, j: int)
    ensures PagesOf(fetch)(i) == GetTableData(fetch(GameUrl(i)))
    ensures i != j ==> GameUrl(i) != GameUrl(j)
  {
    if i != j {
      GameUrlInjective(i, j);
    }
  }

  // ---------------------------------------------------------------------------
  // The loop of main

  const FirstPage := 320905019
  const PageCount := 100000000

  /** The reply of each page the loop visits, `first + page` for `page` in `range(count)`. */
  function PageResults(first: int, count: nat, get: Runner): (rs: seq<Result<Reply>>)
    ensures |rs| == count && forall p :: 0 <= p < count ==> rs[p] == get(first + p)
  {
    seq(count, p requires 0 <= p < count => get(first + p))
  }

  /** The hits as rows, renumbered 0..k-1 after each concatenation. */
  function Collected(rs: seq<Reply>): (a: Aggregate)
    ensures a.rows == HitRecords(rs)
    ensures |a.index| == |a.rows| && forall i :: 0 <= i < |a.index| ==> a.index[i] == i
  {
    var recs := HitRecords(rs);
    Aggregate(recs, Range(0, |recs|))
  }

  /** What the loop leaves when no page raised: nothing bound when there were no pages
      (`temp_df` is read unbound), the DataFrame class's `to_csv` when no page hit and the
      last reply was the class, and otherwise the collected rows with the ids that hit. */
  function ScanEnd(rs: seq<Reply>, ids: seq<int>): Result<(Aggregate, seq<int>)>
    requires |ids| == |rs|
  {
    if rs == [] then Err(NameError)
    else if HitRecords(rs) == [] && rs[|rs| - 1] == FrameClass then Err(TypeError)
    else Ok((Collected(rs), HitIds(ids, rs)))
  }

  /** `main()`'s loop over `count` pages from `first`, with the ids it requested. It stops at
      the first page whose assembly raises. */
  method ScanPages(first: int, count: nat, get: Runner) returns (r: Result<(Aggregate, seq<int>)>, requested: seq<int>)
    ensures var results := PageResults(first, count, get);
      match FirstErrorAt(results)
      case Some(p) => r == Err(results[p].error) && requested == Range(first, p + 1)
      case None => requested == Range(first, count) && r == ScanEnd(Values(results), Range(first, count))
  {
    ghost var results := PageResults(first, count, get);
    ghost var vs: seq<Reply> := [];     // the replies so far
    var started := false;
    var tempDf: Option<Reply> := None;  // temp_df until the first hit
    var hitDf := EmptyAggregate;        // temp_df from the first hit on
    var urlHitList: seq<int> := [];
    requested := [];
    for page := 0 to count
      invariant requested == Range(first, page)
      invariant |vs| == page && forall q :: 0 <= q < page ==> results[q] == Ok(vs[q])
      invariant started <==> HitRecords(vs) != []
      invariant urlHitList == HitIds(requested, vs)
      invariant started ==> hitDf == Collected(vs)
      invariant !started ==> (tempDf.None? <==> page == 0)
      invariant !started && page > 0 ==> tempDf == Some(vs[page - 1])
    {
      var currentPage := first + page;
      var reply := get(currentPage);
      assert reply == results[page];
      RangeStep(first, page);
      if reply.Err? {
        FirstErrorAtIs(results, page);
        return Err(reply.error), requested + [currentPage];
      }
      var df := reply.value;
      HitStep(requested, vs, currentPage, df);
      OkPrefixStep(results, vs, df);
      requested := requested + [currentPage];
      vs := vs + [df];
      var hit := df.IsHit();
      if !started {
        tempDf := Some(df);
        if hit {
          started := true;
          urlHitList := urlHitList + [currentPage];
          hitDf := AsFrame(df.record);
        }
      } else if hit {
        urlHitList := urlHitList + [currentPage];
        hitDf := Renumber(Concat([hitDf, AsFrame(df.record)]).value);
      }
    }
    assert vs == Values(results);
    r := ScanResult(started, tempDf, hitDf, urlHitList, vs, requested);
  }

  /** What `main` has after its loop, the frame `temp_df.to_csv` would write and the ids that
      hit: `temp_df` is unbound when the loop never ran, it is the DataFrame class (whose
      `to_csv` needs an instance) when no page hit and the last page returned the class, and
      otherwise it is the frame of the pages so far. */
  method ScanResult(started: bool, tempDf: Option<Reply>, hitDf: Aggregate, urlHitList: seq<int>,
                    ghost vs: seq<Reply>, ghost ids: seq<int>) returns (r: Result<(Aggregate, seq<int>)>)
    requires |ids| == |vs|
    requires started <==> HitRecords(vs) != []
    requires urlHitList == HitIds(ids, vs)
    requires started ==> hitDf == Collected(vs)
    requires !started ==> (tempDf.None? <==> vs == [])
    requires !started && vs != [] ==> tempDf == Some(vs[|vs| - 1])
    ensures r == ScanEnd(vs, ids)
  {
    if started {
      r := Ok((hitDf, urlHitList));
    } else if tempDf.None? {
      r := Err(NameError);
    } else if tempDf.value == FrameClass {
      r := Err(TypeError);
    } else {
      r := Ok((EmptyAggregate, urlHitList));
    }
  }

  /** One more page that did not raise: its reply joins the hits, and its id the hit ids,
      exactly when it is a hit, and the renumbered concatenation is the collected frame. */
  lemma HitStep(ids: seq<int>, rs: seq<Reply>, id: int, v: Reply)
    requires |ids| == |rs|
    ensures HitRecords(rs + [v]) == (if v.IsHit() then HitRecords(rs) + [v.record] else HitRecords(rs))
    ensures HitIds(ids + [id], rs + [v]) == (if v.IsHit() then HitIds(ids, rs) + [id] else HitIds(ids, rs))
    ensures v.IsHit() ==> Collected(rs + [v]) == Renumber(Concat([Collected(rs), AsFrame(v.record)]).value)
  {
    assert (rs + [v])[..|rs|] == rs;
    assert (ids + [id])[..|ids|] == ids;
    if v.IsHit() {
      assert [Collected(rs), AsFrame(v.record)][..1] == [Collected(rs)];
      assert Flatten([Collected(rs)]) == Collected(rs) by {
        assert [Collected(rs)][..0] == [];
      }
    }
  }

  /** When the loop ends normally with a hit, the frame holds exactly the hits in page
      order, one row per id in the hit list, labelled 0..k-1, the hit ids increase, and an
      id is in the list exactly when its page hit. */
  lemma ScanEndHits(rs: seq<Reply>, first: int)
    requires ScanEnd(rs, Range(first, |rs|)).Ok?
    ensures var (df, hits) := ScanEnd(rs, Range(first, |rs|)).value;
      && df.rows == HitRecords(rs)
      && |hits| == |df.rows| && df.index == Range(0, |hits|)
      && (forall i, j :: 0 <= i < j < |hits| ==> hits[i] < hits[j])
      && (forall x :: x in hits ==> first <= x < first + |rs|)
      && (forall p :: 0 <= p < |rs| ==> (first + p in hits <==> rs[p].IsHit()))
  {
    var ids := Range(first, |rs|);
    HitIdsSpec(ids, rs);
    PageHitIds(rs, first);
    assert ScanEnd(rs, ids).value == (Collected(rs), HitIds(ids, rs));
  }

  /** Over consecutive page ids, page `p`'s id is kept exactly when page `p` hit. */
  lemma PageHitIds(rs: seq<Reply>, first: int)
    ensures forall p :: 0 <= p < |rs| ==> (first + p in HitIds(Range(first, |rs|), rs) <==> rs[p].IsHit())
  {
    var ids := Range(first, |rs|);
    HitIdsExactly(ids, rs);
    forall p | 0 <= p < |rs| ensures first + p in HitIds(ids, rs) <==> rs[p].IsHit() {
      assert ids[p] == first + p;
    }
  }




  /** `main()` itself: the pages from 320905019 on, each fetched and assembled. */
  method ScanAll(fetch: Fetch) returns (r: Result<(Aggregate, seq<int>)>, requested: seq<int>)
    ensures var results := PageResults(FirstPage, PageCount, PagesOf(fetch));
      match FirstErrorAt(results)
      case Some(p) => r == Err(results[p].error) && requested == Range(FirstPage, p + 1)
      case None => requested == Range(FirstPage, PageCount) && r == ScanEnd(Values(results), Range(FirstPage, PageCount))
  {
    r, requested := ScanPages(320905019, 100000000, PagesOf(fetch));
  }

  /** The pages `main` visits never make `get_table_data` return the class, so with at least
      one page and none raising the loop always ends with a frame. */
  lemma ScanAllEnds(fetch: Fetch)
    requires FirstErrorAt(PageResults(FirstPage, PageCount, PagesOf(fetch))).None?
    ensures ScanEnd(Values(PageResults(FirstPage, PageCount, PagesOf(fetch))), Range(FirstPage, PageCount)).Ok?
  {
    var results := PageResults(FirstPage, PageCount, PagesOf(fetch));
    var rs := Values(results);
    PagesOfUrl(fetch, FirstPage + PageCount - 1, FirstPage + PageCount - 1);
    assert results[PageCount - 1] == GetTableData(fetch(GameUrl(FirstPage + PageCount - 1)));
    assert rs[|rs| - 1] != FrameClass;
  }
}
