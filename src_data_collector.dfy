/** src/data_collector.py: the collector that picks the summary and matchup tables by
    their shape, substitutes placeholders when one is missing, and gathers the games of a
    list of addresses into one renumbered frame. */
module SrcDataCollector {
  import opened Text
  import opened Frames
  import opened Reshape

  /** The shape of the summary table (two teams, six columns) and of the matchup table. */
  const SummaryShape: (nat, nat) := (2, 6)
  const MatchupShape: (nat, nat) := (25, 3)

  // ---------------------------------------------------------------------------
  // get_df

  /** The position of the earliest table of the given shape, if any has it. */
  function FirstOfShape(tables: seq<Table>, shape: (nat, nat)): (p: Option<nat>)
    ensures p.Some? ==> p.value < |tables| && Shape(tables[p.value]) == shape
    ensures p.Some? ==> forall j :: 0 <= j < p.value ==> Shape(tables[j]) != shape
    ensures p.None? ==> forall j :: 0 <= j < |tables| ==> Shape(tables[j]) != shape
  {
    FirstWhere(tables, (t: Table) => Shape(t) == shape)
  }

  /** The frame `get_df` falls back on: `pd.DataFrame()` for the summary shape, otherwise
      `pd.DataFrame(np.empty((0, 3)))`, whose columns are labelled 0, 1 and 2. */
  function Placeholder(shape: (nat, nat)): (t: Table)
    ensures IsEmptyTable(t)
    ensures shape == SummaryShape ==> Shape(t) == (0, 0)
    ensures shape != SummaryShape ==> t.columns == ["0", "1", "2"] && t.rows == []
  {
    if shape == SummaryShape then RawTable([], []) else RawTable(["0", "1", "2"], [])
  }

  /** `get_df(nfl_df_list, df_shape)` as a value: the earliest table of that shape, or the
      placeholder when none has it. */
  function SelectTable(tables: seq<Table>, shape: (nat, nat)): (t: Table)
    ensures || (exists i :: 0 <= i < |tables| && tables[i] == t && Shape(t) == shape
                 && forall j :: 0 <= j < i ==> Shape(tables[j]) != shape)
            || ((forall j :: 0 <= j < |tables| ==> Shape(tables[j]) != shape) && t == Placeholder(shape))
  {
    match FirstOfShape(tables, shape)
    case Some(p) => tables[p]
    case None => Placeholder(shape)
  }

  /** `get_df`: walks the list and returns at the first table of the requested shape. */
  method GetDf(tables: seq<Table>, shape: (nat, nat)) returns (t: Table)
    ensures t == SelectTable(tables, shape)
  {
    for i := 0 to |tables|
      invariant forall j :: 0 <= j < i ==> Shape(tables[j]) != shape
    {
      if Shape(tables[i]) == shape {
        return tables[i];
      }
    }
    if shape == (2, 6) {
      t := RawTable([], []);
    } else {
      t := RawTable(["0", "1", "2"], []);
    }
  }

  // ---------------------------------------------------------------------------
  // The assembly part of get_data

  /** The teams and the scores: from the summary table, or `NA`/`NA` and `-1`/`-1` when
      there is none (the scores become text when `np.append` joins them to `points`). */
  function TeamsAndPoints(tables: seq<Table>): (tp: (seq<string>, seq<string>))
    ensures |tp.0| == 2 && |tp.1| == 2
  {
    var summary := SelectTable(tables, SummaryShape);
    if IsEmptyTable(summary) then (["NA", "NA"], ["-1", "-1"])
    else TeamData(summary).value
  }

  /** The matchup table as it is finally pivoted: its labels replaced by `game_stat` and the
      teams, a `points` row with the scores appended after its rows. */
  function ShapedTable(tables: seq<Table>): (t: Table)
    ensures |t.columns| == 3
  {
    var (teams, points) := TeamsAndPoints(tables);
    var labels := ["game_stat"] + teams;
    var matchup := SelectTable(tables, MatchupShape);
    var rows := matchup.rows + [["points"] + points];
    assert Rectangular(RawTable(labels, rows));
    RawTable(labels, rows)
  }

  /** The record lines 103-120 build from the parsed tables. The labels always number three,
      so neither the relabelling nor the pivot can fail. */
  function ShapedRecord(tables: seq<Table>): Record {
    Pivot(ShapedTable(tables)).value
  }

  /** `get_data(url)` for the tables the fetch gave. A failed fetch is caught and becomes an
      empty frame, and so does a page without tables (`nfl_df_list[0]` raises inside the
      `try`); an empty first table returns the DataFrame class itself. */
  function GetData(fetched: Option<seq<Table>>): (r: Reply)
    ensures r == EmptyFrame <==> fetched.None? || fetched.value == []
    ensures r == FrameClass <==> fetched.Some? && fetched.value != [] && IsEmptyTable(fetched.value[0])
    ensures r.Frame? ==> r.record == ShapedRecord(fetched.value)
  {
    match fetched
    case None => EmptyFrame
    case Some(tables) =>
      if |tables| == 0 then EmptyFrame
      else if IsEmptyTable(tables[0]) then FrameClass
      else Frame(ShapedRecord(tables))
  }

  /** The shaped table is exactly the selected matchup table's rows and the points row,
      under `game_stat` and the two teams, and the teams and scores are those of the
      summary table or the placeholders. */
  lemma ShapedTableSpec(tables: seq<Table>)
    ensures var t := ShapedTable(tables); var summary := SelectTable(tables, SummaryShape);
      && (FirstOfShape(tables, SummaryShape).None? ==>
            t.columns == ["game_stat", "NA", "NA"] && t.rows[|t.rows| - 1] == ["points", "-1", "-1"])
      && (FirstOfShape(tables, SummaryShape).Some? ==>
            && t.columns == ["game_stat", summary.rows[0][0], summary.rows[1][0]]
            && t.rows[|t.rows| - 1] == ["points", summary.rows[0][5], summary.rows[1][5]])
      && t.rows[..|t.rows| - 1] == SelectTable(tables, MatchupShape).rows
  {
    var t := ShapedTable(tables);
    var summary := SelectTable(tables, SummaryShape);
    var matchup := SelectTable(tables, MatchupShape);
    var (teams, points) := TeamsAndPoints(tables);
    assert t.rows == matchup.rows + [["points"] + points];
    assert t.rows[..|t.rows| - 1] == matchup.rows;
    if FirstOfShape(tables, SummaryShape).Some? {
      assert Shape(summary) == SummaryShape;
    } else {
      assert summary == Placeholder(SummaryShape);
    }
  }

  /** Every shaped record starts with the team columns and has `away_points` and
      `home_points`, which hold the summary's scores, or `-1` without a summary table. */
  lemma ShapedRecordPoints(tables: seq<Table>)
    ensures var rec := ShapedRecord(tables); var summary := SelectTable(tables, SummaryShape);
      && |rec| >= 2 && rec[0].0 == "away_team" && rec[1].0 == "home_team"
      && (FirstOfShape(tables, SummaryShape).None? ==>
            Get(rec, "away_points") == Some("-1") && Get(rec, "home_points") == Some("-1"))
      && (FirstOfShape(tables, SummaryShape).Some? ==>
            Get(rec, "away_points") == Some(summary.rows[0][5])
            && Get(rec, "home_points") == Some(summary.rows[1][5]))
  {
    var t := ShapedTable(tables);
    ShapedTableSpec(tables);
    PivotSpec(t);
    PivotLastRow(t);
    PointsColumns();
  }

  /** Without a summary table both teams are `NA`, unless a matchup row is itself named
      `team` and overwrites that column. */
  lemma ShapedRecordWithoutSummary(tables: seq<Table>)
    requires FirstOfShape(tables, SummaryShape).None?
    requires "team" !in StatNames(SelectTable(tables, MatchupShape).rows)
    ensures Get(ShapedRecord(tables), "away_team") == Some("NA")
    ensures Get(ShapedRecord(tables), "home_team") == Some("NA")
  {
    var t := ShapedTable(tables);
    ShapedTeamsFree(tables);
    PivotTeams(t);
  }

  /** Without a summary table the pivoted table is labelled `NA` twice, and no row of it is
      named `team` unless a matchup row is. */
  lemma ShapedTeamsFree(tables: seq<Table>)
    requires FirstOfShape(tables, SummaryShape).None?
    requires "team" !in StatNames(SelectTable(tables, MatchupShape).rows)
    ensures ShapedTable(tables).columns == ["game_stat", "NA", "NA"]
    ensures "team" !in StatNames(ShapedTable(tables).rows)
  {
    var t := ShapedTable(tables);
    var matchup := SelectTable(tables, MatchupShape);
    ShapedTableSpec(tables);
    var n := |t.rows| - 1;
    forall i | 0 <= i < |t.rows| ensures StatNames(t.rows)[i] != "team" {
      if i < n {
        assert t.rows[i] == matchup.rows[i];
        assert StatNames(matchup.rows)[i] == Lower(t.rows[i][0]);
      } else {
        PointsNotTeam();
      }
    }
  }

  lemma PointsNotTeam()
    ensures Lower("points") != "team"
  {
    PointsColumns();
    assert Lower("points")[0] != "team"[0];
  }

  /** Without a matchup table the record is exactly the two teams and the two scores. */
  lemma ShapedRecordWithoutMatchup(tables: seq<Table>)
    requires FirstOfShape(tables, MatchupShape).None?
    ensures var t := ShapedTable(tables);
      ShapedRecord(tables) == [("away_team", t.columns[1]), ("home_team", t.columns[2]),
                               ("away_points", t.rows[0][1]), ("home_points", t.rows[0][2])]
  {
    var t := ShapedTable(tables);
    ShapedTableSpec(tables);
    assert SelectTable(tables, MatchupShape).rows == [];
    assert |t.rows| == 1;
    PivotPointsOnly(t);
  }

  /** A table whose only row is the points row pivots into four columns. */
  lemma PivotPointsOnly(t: Table)
    requires |t.columns| == 3 && |t.rows| == 1 && t.rows[0][0] == "points"
    ensures Pivot(t) == Ok([("away_team", t.columns[1]), ("home_team", t.columns[2]),
                            ("away_points", t.rows[0][1]), ("home_points", t.rows[0][2])])
  {
    PointsColumns();
    var names := StatNames(t.rows);
    assert names == ["points"];
    assert "points" != "team" by {
      assert |"points"| != |"team"|;
    }
    PivotWithoutRepeats(t);
    var ops := StatOps(t.rows);
    StatOpsAt(t.rows, 0);
    assert ops[0] == ("away_points", t.rows[0][1]);
    assert ops[1] == ("home_points", t.rows[0][2]);
    assert ops == [ops[0], ops[1]];
    assert PivotOps(t) == [("away_team", t.columns[1]), ("home_team", t.columns[2])] + ops;
    assert PivotOps(t) == [("away_team", t.columns[1]), ("home_team", t.columns[2]),
                           ("away_points", t.rows[0][1]), ("home_points", t.rows[0][2])];
  }

  // ---------------------------------------------------------------------------
  // run and main_runner

  /** `game_url.split('/')[-1]`: the text after the last `/`, or all of it. */
  function LastSegment(s: string): (id: string)
    ensures '/' !in id
    ensures |id| <= |s| && s[|s| - |id|..] == id
    ensures |id| < |s| ==> s[|s| - |id| - 1] == '/'
    ensures '/' !in s ==> id == s
  {
    var pieces := Split(s, '/');
    SplitLastPiece(s, '/');
    SplitPiecesFree(s, '/', |pieces| - 1);
    pieces[|pieces| - 1]
  }

  /** The address `run` fetches for its argument. */
  function RequestUrl(gameUrl: string): string {
    MakeUrl(LastSegment(gameUrl))
  }

  /** `run(game_url)`: the reply of `get_data` for the rebuilt address. */
  function Run(gameUrl: string, fetch: Fetch): Reply {
    GetData(fetch(RequestUrl(gameUrl)))
  }

  /** Whatever comes before the last `/`, `run` fetches the address of the id after it. */
  lemma RunUsesLastSegment(path: string, id: string)
    requires '/' !in id
    ensures LastSegment(path + ['/'] + id) == id
    ensures RequestUrl(path + ['/'] + id) == MakeUrl(id)
  {
    var s := path + ['/'] + id;
    assert s[|s| - |id|..] == id;
    assert s[|s| - |id| - 1] == '/';
  }

  /** What `p.map(run, game_urls)` returns: one reply per address, in input order. */
  function RunAll(gameUrls: seq<string>, fetch: Fetch): (rs: seq<Reply>)
    ensures |rs| == |gameUrls| && forall i :: 0 <= i < |gameUrls| ==> rs[i] == Run(gameUrls[i], fetch)
  {
    seq(|gameUrls|, i requires 0 <= i < |gameUrls| => Run(gameUrls[i], fetch))
  }

  /** `main_runner(game_urls)` up to the CSV write: the hits in input order, as rows
      labelled 0..k-1; with no hit at all, `pd.concat([])` raises. */
  method MainRunner(gameUrls: seq<string>, fetch: Fetch) returns (r: Result<Aggregate>)
    ensures var hits := HitRecords(RunAll(gameUrls, fetch));
      r == if hits == [] then Err(ValueError) else Ok(Aggregate(hits, Range(0, |hits|)))
  {
    var results := RunAll(gameUrls, fetch);
    var gameDfs: seq<Aggregate> := [];
    for i := 0 to |results|
      invariant gameDfs == AsFrames(HitRecords(results[..i]))
    {
      CollectStep(results, i);
      if results[i].IsHit() {
        gameDfs := gameDfs + [AsFrame(results[i].record)];
      }
    }
    assert results[..|results|] == results;
    var finalDf := Concat(gameDfs);
    if finalDf.Err? {
      return Err(finalDf.error);
    }
    FlattenRecords(HitRecords(results));
    r := Ok(Renumber(finalDf.value));
  }

  /** One more reply adds its frame to the collected ones exactly when it is a hit. */
  lemma CollectStep(rs: seq<Reply>, i: nat)
    requires i < |rs|
    ensures AsFrames(HitRecords(rs[..i + 1]))
         == AsFrames(HitRecords(rs[..i])) + (if rs[i].IsHit() then [AsFrame(rs[i].record)] else [])
  {
    var done := HitRecords(rs[..i]);
    assert rs[..i + 1][..i] == rs[..i];
    assert HitRecords(rs[..i + 1]) == if rs[i].IsHit() then done + [rs[i].record] else done;
    if rs[i].IsHit() {
      assert AsFrames(done + [rs[i].record]) == AsFrames(done) + [AsFrame(rs[i].record)];
    }
  }

  /** Every row of the final frame is the record one of the addresses produced. */
  lemma MainRunnerRows(gameUrls: seq<string>, fetch: Fetch, rec: Record)
    requires rec in HitRecords(RunAll(gameUrls, fetch))
    ensures exists i :: 0 <= i < |gameUrls| && Run(gameUrls[i], fetch) == Frame(rec)
    ensures |HitRecords(RunAll(gameUrls, fetch))| <= |gameUrls|
  {
    HitRecordsMembers(RunAll(gameUrls, fetch));
  }
}
