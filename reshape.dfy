/** The reshaping every collector script repeats almost verbatim: the game address built
    from an id, the teams and scores read from the summary table, the pivot of the
    three-column matchup table into one flat record, and the positional assembly of a
    game from the parsed tables that three of the scripts share. */
module Reshape {
  import opened Text
  import opened Frames

  // ---------------------------------------------------------------------------
  // Game addresses

  const UrlPrefix := "https://www.espn.com/nfl/matchup?gameId="

  /** `make_url(page_number)`: the fixed matchup address followed by the id text. */
  function MakeUrl(id: string): (url: string)
    ensures |url| == |UrlPrefix| + |id|
    ensures url[..|UrlPrefix|] == UrlPrefix && url[|UrlPrefix|..] == id
  {
    UrlPrefix + id
  }

  /** Reads the id text back from an address built by `MakeUrl`, so no two ids share one. */
  function IdOfUrl(url: string): (id: Option<string>)
    ensures id.Some? <==> |url| >= |UrlPrefix| && url[..|UrlPrefix|] == UrlPrefix
  {
    if |url| >= |UrlPrefix| && url[..|UrlPrefix|] == UrlPrefix then Some(url[|UrlPrefix|..]) else None
  }

  lemma MakeUrlRoundTrip(id: string)
    ensures IdOfUrl(MakeUrl(id)) == Some(id)
  {
  }

  /** `make_url(n)` for an integer id: `'{}'.format(n)` writes it in decimal. */
  function GameUrl(id: int): string {
    MakeUrl(IntText(id))
  }

  /** Distinct game ids give distinct addresses. */
  lemma GameUrlInjective(i: int, j: int)
    requires i != j
    ensures GameUrl(i) != GameUrl(j)
  {
    IntTextInjective(i, j);
    MakeUrlRoundTrip(IntText(i));
    MakeUrlRoundTrip(IntText(j));
  }

  // ---------------------------------------------------------------------------
  // team_data

  function Column(t: Table, j: nat): (col: seq<string>)
    requires j < |t.columns|
    ensures |col| == |t.rows| && forall i :: 0 <= i < |t.rows| ==> col[i] == t.rows[i][j]
  {
    seq(|t.rows|, i requires 0 <= i < |t.rows| => t.rows[i][j])
  }

  /** `team_data(df)`: the first column's values as the teams, the last column's values as
      the points; a table without columns has no `df.columns[0]`. */
  function TeamData(t: Table): (r: Result<(seq<string>, seq<string>)>)
    ensures r.Err? <==> |t.columns| == 0
    ensures r.Err? ==> r.error == IndexError
    ensures r.Ok? ==> |r.value.0| == |t.rows| && |r.value.1| == |t.rows|
    ensures r.Ok? ==> forall i :: 0 <= i < |t.rows| ==>
      r.value.0[i] == t.rows[i][0] && r.value.1[i] == t.rows[i][|t.columns| - 1]
  {
    if |t.columns| == 0 then Err(IndexError)
    else Ok((Column(t, 0), Column(t, |t.columns| - 1)))
  }

  // ---------------------------------------------------------------------------
  // format_game_data_row

  predicate ThreeCells(rows: seq<seq<string>>) {
    forall i :: 0 <= i < |rows| ==> |rows[i]| == 3
  }

  /** The lower-cased stat name of each row. */
  function StatNames(rows: seq<seq<string>>): (names: seq<string>)
    requires ThreeCells(rows)
    ensures |names| == |rows| && forall i :: 0 <= i < |rows| ==> names[i] == Lower(rows[i][0])
  {
    seq(|rows|, i requires 0 <= i < |rows| => Lower(rows[i][0]))
  }

  /** The column assignments one stat row makes: `away_<stat>` then `home_<stat>`. */
  function RowOps(row: seq<string>): seq<(string, string)>
    requires |row| == 3
  {
    [("away_" + Lower(row[0]), row[1]), ("home_" + Lower(row[0]), row[2])]
  }

  /** The assignments of all rows, in row order. */
  function StatOps(rows: seq<seq<string>>): (ops: seq<(string, string)>)
    requires ThreeCells(rows)
    ensures |ops| == 2 * |rows|
    decreases |rows|
  {
    if rows == [] then []
    else StatOps(rows[..|rows| - 1]) + RowOps(rows[|rows| - 1])
  }

  /** Assignments `2i` and `2i + 1` are the two that row `i` makes. */
  lemma {:induction false} StatOpsAt(rows: seq<seq<string>>, i: nat)
    requires ThreeCells(rows) && i < |rows|
    ensures StatOps(rows)[2 * i] == RowOps(rows[i])[0]
    ensures StatOps(rows)[2 * i + 1] == RowOps(rows[i])[1]
    decreases |rows|
  {
    var n := |rows| - 1;
    var pre := rows[..n];
    assert StatOps(rows) == StatOps(pre) + RowOps(rows[n]);
    if i < n {
      assert ThreeCells(pre) by {
        assert forall j :: 0 <= j < n ==> pre[j] == rows[j];
      }
      StatOpsAt(pre, i);
      assert pre[i] == rows[i];
    }
  }

  /** The assignments `format_game_data_row` makes, in order: the two team columns from the
      second and third column labels, then one pair per row. */
  function PivotOps(t: Table): seq<(string, string)>
    requires |t.columns| == 3
  {
    [("away_team", t.columns[1]), ("home_team", t.columns[2])] + StatOps(t.rows)
  }

  /** `format_game_data_row(df)` as a value. Unpacking the column labels into three names
      fails unless there are exactly three. */
  function Pivot(t: Table): Result<Record> {
    if |t.columns| != 3 then Err(ValueError) else Ok(AssignAll(PivotOps(t)))
  }

  /** `format_game_data_row(df)`: the record is filled column by column while walking the rows. */
  method FormatGameDataRow(t: Table) returns (r: Result<Record>)
    ensures r == Pivot(t)
  {
    if |t.columns| != 3 {
      return Err(ValueError);
    }
    var head := [("away_team", t.columns[1]), ("home_team", t.columns[2])];
    var rec: Record := [];
    rec := Assign(rec, "away_team", t.columns[1]);
    rec := Assign(rec, "home_team", t.columns[2]);
    assert rec == AssignAll(head + StatOps(t.rows[..0])) by {
      PivotStart(head);
      assert t.rows[..0] == [];
    }
    for i := 0 to |t.rows|
      invariant rec == AssignAll(head + StatOps(t.rows[..i]))
    {
      var pair := RowOps(t.rows[i]);
      rec := Assign(rec, pair[0].0, pair[0].1);
      rec := Assign(rec, pair[1].0, pair[1].1);
      assert rec == AssignAll(head + StatOps(t.rows[..i + 1])) by {
        PivotStep(head, t.rows, i);
      }
    }
    assert rec == AssignAll(PivotOps(t)) by {
      assert t.rows[..|t.rows|] == t.rows;
    }
    r := Ok(rec);
  }

  lemma PivotStart(head: seq<(string, string)>)
    requires |head| == 2
    ensures AssignAll(head + StatOps([])) == Assign(Assign([], head[0].0, head[0].1), head[1].0, head[1].1)
  {
    assert head + StatOps([]) == [head[0], head[1]];
    AssignAllPair(head[0], head[1]);
  }

  lemma AssignAllPair(a: (string, string), b: (string, string))
    ensures AssignAll([a, b]) == Assign(Assign([], a.0, a.1), b.0, b.1)
  {
    assert [a, b][..1] == [a];
    assert [a][..0] == [];
    assert AssignAll([a]) == Assign([], a.0, a.1);
  }

  lemma PivotStep(head: seq<(string, string)>, rows: seq<seq<string>>, i: nat)
    requires ThreeCells(rows) && i < |rows|
    ensures var pair := RowOps(rows[i]);
      AssignAll(head + StatOps(rows[..i + 1]))
        == Assign(Assign(AssignAll(head + StatOps(rows[..i])), pair[0].0, pair[0].1), pair[1].0, pair[1].1)
  {
    var pair := RowOps(rows[i]);
    var before := head + StatOps(rows[..i]);
    assert rows[..i + 1][..i] == rows[..i];
    assert StatOps(rows[..i + 1]) == StatOps(rows[..i]) + pair;
    assert head + StatOps(rows[..i + 1]) == before + [pair[0], pair[1]];
    AssignAllTwoMore(before, pair[0], pair[1]);
  }

  lemma AssignAllTwoMore(ops: seq<(string, string)>, a: (string, string), b: (string, string))
    ensures AssignAll(ops + [a, b]) == Assign(Assign(AssignAll(ops), a.0, a.1), b.0, b.1)
  {
    var all := ops + [a, b];
    var one := ops + [a];
    assert all[..|all| - 1] == one;
    assert AssignAll(all) == Assign(AssignAll(one), b.0, b.1);
    assert one[..|one| - 1] == ops;
    assert AssignAll(one) == Assign(AssignAll(ops), a.0, a.1);
  }

  /** What the record is: every assigned column once, at its first position, with the value
      assigned to it last; `away_team` and `home_team` stay the first two columns even when
      a stat row overwrites them. */
  lemma PivotSpec(t: Table)
    requires |t.columns| == 3
    ensures Pivot(t).Ok?
    ensures var rec := Pivot(t).value;
      && Keys(rec) == FirstOccurrences(Keys(PivotOps(t)))
      && Distinct(Keys(rec))
      && |rec| >= 2 && rec[0].0 == "away_team" && rec[1].0 == "home_team"
      && forall k :: Get(rec, k) == LastValue(PivotOps(t), k)
  {
    var ops := PivotOps(t);
    AssignAllSpec(ops);
    var ks := Keys(ops);
    var head := ks[..2];
    assert head == ["away_team", "home_team"];
    assert ks == head + ks[2..];
    FirstOccurrencesPrefix(head, ks[2..]);
    FirstOccurrencesDistinct(head);
    var rec := AssignAll(ops);
    assert Keys(rec)[..2] == head;
    assert rec[0].0 == Keys(rec)[0];
    assert rec[1].0 == Keys(rec)[1];
  }

  /** The columns of the record: the two team columns and `away_`/`home_` plus each
      lower-cased stat name, and no others. */
  lemma PivotColumns(t: Table, k: string)
    requires |t.columns| == 3
    ensures Pivot(t).Ok?
    ensures k in Keys(Pivot(t).value) <==>
      k == "away_team" || k == "home_team" || exists i :: 0 <= i < |t.rows| && RowColumn(t.rows[i], k)
  {
    var ops := PivotOps(t);
    PivotSpec(t);
    FirstOccurrencesMembers(Keys(ops));
    assert Keys(ops) == ["away_team", "home_team"] + Keys(StatOps(t.rows));
    StatKeys(t.rows, k);
  }

  /** The record has an `away_points` column exactly when some row is named `points` in
      some mix of cases. */
  lemma PivotAwayPoints(t: Table)
    requires |t.columns| == 3
    ensures Pivot(t).Ok?
    ensures "away_points" in Keys(Pivot(t).value) <==>
      exists i :: 0 <= i < |t.rows| && Lower(t.rows[i][0]) == "points"
  {
    PivotColumns(t, "away_points");
    forall i | 0 <= i < |t.rows|
      ensures RowColumn(t.rows[i], "away_points") <==> Lower(t.rows[i][0]) == "points"
    {
      AwayPointsRow(t.rows[i]);
    }
    assert "away_points" != "away_team" by {
      assert "away_points"[5] != "away_team"[5];
    }
    assert "away_points" != "home_team" by {
      assert "away_points"[0] != "home_team"[0];
    }
  }

  /** A stat row assigns `away_points` exactly when its lower-cased name is `points`. */
  lemma AwayPointsRow(row: seq<string>)
    requires |row| == 3
    ensures RowColumn(row, "away_points") <==> Lower(row[0]) == "points"
  {
    var name := Lower(row[0]);
    PointsColumns();
    if name != "points" {
      PrefixedDistinct("away_", name, "points");
    }
    assert ("home_" + name)[0] != "away_points"[0];
  }

  /** `k` is one of the two columns a stat row assigns. */
  predicate RowColumn(row: seq<string>, k: string)
    requires |row| == 3
  {
    k == RowOps(row)[0].0 || k == RowOps(row)[1].0
  }

  /** A label is assigned by some stat row exactly when it is `away_` or `home_` plus that
      row's lower-cased name. */
  lemma StatKeys(rows: seq<seq<string>>, k: string)
    requires ThreeCells(rows)
    ensures k in Keys(StatOps(rows)) <==> exists i :: 0 <= i < |rows| && RowColumn(rows[i], k)
  {
    var ks := Keys(StatOps(rows));
    if k in ks {
      var p :| 0 <= p < |ks| && ks[p] == k;
      StatKeyRow(rows, p);
      var i := p / 2;
      assert 0 <= i < |rows| && RowColumn(rows[i], k);
    }
    if exists i :: 0 <= i < |rows| && RowColumn(rows[i], k) {
      var i :| 0 <= i < |rows| && RowColumn(rows[i], k);
      RowKeyStat(rows, i, k);
    }
  }

  /** Both columns row `i` assigns are among the stat labels. */
  lemma RowKeyStat(rows: seq<seq<string>>, i: nat, k: string)
    requires ThreeCells(rows) && i < |rows| && RowColumn(rows[i], k)
    ensures k in Keys(StatOps(rows))
  {
    var ks := Keys(StatOps(rows));
    StatOpsAt(rows, i);
    if k == RowOps(rows[i])[0].0 {
      assert ks[2 * i] == k;
    } else {
      assert ks[2 * i + 1] == k;
    }
  }

  /** Label `p` of the stat assignments is one of the two columns of row `p / 2`. */
  lemma StatKeyRow(rows: seq<seq<string>>, p: nat)
    requires ThreeCells(rows) && p < 2 * |rows|
    ensures RowColumn(rows[p / 2], Keys(StatOps(rows))[p])
  {
    var i := p / 2;
    var ks := Keys(StatOps(rows));
    StatOpsAt(rows, i);
    if p % 2 == 0 {
      assert p == 2 * i;
      assert ks[p] == RowOps(rows[i])[0].0;
    } else {
      assert p == 2 * i + 1;
      assert ks[p] == RowOps(rows[i])[1].0;
    }
  }

  /** The last row always wins its own two columns. */
  lemma PivotLastRow(t: Table)
    requires |t.columns| == 3 && |t.rows| > 0
    ensures var last := t.rows[|t.rows| - 1]; var rec := Pivot(t).value;
      && Get(rec, "away_" + Lower(last[0])) == Some(last[1])
      && Get(rec, "home_" + Lower(last[0])) == Some(last[2])
  {
    var ops := PivotOps(t);
    var last := t.rows[|t.rows| - 1];
    PivotSpec(t);
    var n := |ops|;
    var ka := "away_" + Lower(last[0]);
    var kh := "home_" + Lower(last[0]);
    StatOpsAt(t.rows, |t.rows| - 1);
    assert ops[n - 1] == (kh, last[2]);
    assert ops[n - 2] == (ka, last[1]);
    assert ka != kh by {
      assert ka[0] == 'a';
      assert kh[0] == 'h';
    }
    assert LastValue(ops, kh) == Some(last[2]);
    assert LastValue(ops, ka) == LastValue(ops[..n - 1], ka);
    assert ops[..n - 1][n - 2] == ops[n - 2];
    assert LastValue(ops[..n - 1], ka) == Some(last[1]);
  }

  /** When no stat row is named `team` (in any case), the team columns keep the two
      column labels. */
  lemma PivotTeams(t: Table)
    requires |t.columns| == 3
    requires "team" !in StatNames(t.rows)
    ensures Pivot(t).Ok?
    ensures Get(Pivot(t).value, "away_team") == Some(t.columns[1])
    ensures Get(Pivot(t).value, "home_team") == Some(t.columns[2])
  {
    var head := [("away_team", t.columns[1]), ("home_team", t.columns[2])];
    var stats := StatOps(t.rows);
    var ops := PivotOps(t);
    assert ops == head + stats;
    assert "away_team" !in Keys(stats) && "home_team" !in Keys(stats) by {
      StatKeys(t.rows, "away_team");
      StatKeys(t.rows, "home_team");
      forall i | 0 <= i < |t.rows|
        ensures !RowColumn(t.rows[i], "away_team") && !RowColumn(t.rows[i], "home_team")
      {
        assert StatNames(t.rows)[i] == Lower(t.rows[i][0]);
        RowLabelsNotTeam(t.rows[i]);
      }
    }
    LastValueAbsent(head, stats, "away_team");
    LastValueAbsent(head, stats, "home_team");
    TeamHeadValues(t.columns[1], t.columns[2]);
    AssignAllSpec(ops);
  }

  /** The two team assignments leave each team column with its own label. */
  lemma TeamHeadValues(a: string, b: string)
    ensures LastValue([("away_team", a), ("home_team", b)], "away_team") == Some(a)
    ensures LastValue([("away_team", a), ("home_team", b)], "home_team") == Some(b)
  {
    var head := [("away_team", a), ("home_team", b)];
    assert head[..1] == [("away_team", a)];
    assert "away_team" != "home_team" by {
      assert "away_team"[0] != "home_team"[0];
    }
  }

  /** A row not named `team` assigns neither team column. */
  lemma RowLabelsNotTeam(row: seq<string>)
    requires |row| == 3 && Lower(row[0]) != "team"
    ensures !RowColumn(row, "away_team") && !RowColumn(row, "home_team")
  {
    var name := Lower(row[0]);
    var away, home := "away_", "home_";
    TeamLabels();
    PrefixedDistinct(away, name, "team");
    PrefixedDistinct(home, name, "team");
    assert (away + name)[0] != (home + "team")[0];
    assert (home + name)[0] != (away + "team")[0];
  }

  lemma TeamLabels()
    ensures "away_team" == "away_" + "team" && "home_team" == "home_" + "team"
  {
  }

  /** When no lower-cased stat name repeats and none is `team`, nothing is overwritten: the
      record is `away_team`, `home_team`, then one `away_`/`home_` pair per row in row order. */
  lemma PivotWithoutRepeats(t: Table)
    requires |t.columns| == 3
    requires Distinct(StatNames(t.rows))
    requires "team" !in StatNames(t.rows)
    ensures Pivot(t) == Ok(PivotOps(t))
  {
    var ops := PivotOps(t);
    var names := StatNames(t.rows);
    var ks := Keys(ops);
    forall p | 0 <= p < |ks| ensures ks[p] == PivotLabel(names, p) {
      PivotKeyAt(t, p);
    }
    forall p, q | 0 <= p < q < |ks| ensures ks[p] != ks[q] {
      PivotLabelsDistinct(names, p, q);
    }
    AssignAllDistinct(ops);
  }

  /** The side prefix of assignment `p`: the record alternates `away_` and `home_`. */
  function Side(p: nat): string {
    if p % 2 == 0 then "away_" else "home_"
  }

  /** Label `p` of the pivot: the two team columns, then the side and the stat name of row
      `(p - 2) / 2`. */
  function PivotLabel(names: seq<string>, p: nat): string
    requires p < 2 + 2 * |names|
  {
    if p < 2 then Side(p) + "team" else Side(p) + names[(p - 2) / 2]
  }

  lemma PivotKeyAt(t: Table, p: nat)
    requires |t.columns| == 3 && p < 2 + 2 * |t.rows|
    ensures Keys(PivotOps(t))[p] == PivotLabel(StatNames(t.rows), p)
  {
    TeamLabels();
    if p >= 2 {
      var i := (p - 2) / 2;
      StatOpsAt(t.rows, i);
      assert PivotOps(t)[p] == StatOps(t.rows)[p - 2];
      assert StatNames(t.rows)[i] == Lower(t.rows[i][0]);
      if p % 2 == 0 {
        assert p - 2 == 2 * i;
      } else {
        assert p - 2 == 2 * i + 1;
      }
    }
  }

  /** With distinct stat names, none of them `team`, no two pivot labels coincide. */
  lemma PivotLabelsDistinct(names: seq<string>, p: nat, q: nat)
    requires Distinct(names) && "team" !in names
    requires p < q < 2 + 2 * |names|
    ensures PivotLabel(names, p) != PivotLabel(names, q)
  {
    var x := if p < 2 then "team" else names[(p - 2) / 2];
    var y := if q < 2 then "team" else names[(q - 2) / 2];
    if Side(p) == Side(q) {
      assert p % 2 == q % 2;
      if p >= 2 {
        assert (p - 2) / 2 < (q - 2) / 2;
      }
      PrefixedDistinct(Side(p), x, y);
    } else {
      assert (Side(p) + x)[0] != (Side(q) + y)[0];
    }
  }

  lemma PrefixedDistinct(p: string, x: string, y: string)
    requires x != y
    ensures p + x != p + y
  {
    assert (p + x)[|p|..] == x;
    assert (p + y)[|p|..] == y;
  }

  // ---------------------------------------------------------------------------
  // The positional assembly of data_collector.py, nfl_game_data.py and nfl_game_data_collector.py

  /** From the parsed tables, as the positional scripts do it: the summary is table 0 and the
      matchup is table 1; the matchup's labels become `firstLabel` and the teams; when
      `withPoints`, a `points` row with the scores is appended; then the record is the pivot.
      Any failure here is outside the scripts' `try` and propagates. */
  function PositionalAssembly(tables: seq<Table>, firstLabel: string, withPoints: bool): (r: Result<Record>)
    ensures r.Ok? <==>
      |tables| >= 2 && |tables[0].columns| >= 1 && |tables[0].rows| == 2 && |tables[1].columns| == 3
  {
    if |tables| == 0 then Err(IndexError)
    else
      match TeamData(tables[0])
      case Err(e) => Err(e)
      case Ok(summary) =>
        var (teams, points) := summary;
        if |tables| < 2 then Err(IndexError)
        else
          var labels := [firstLabel] + teams;
          var matchup := tables[1];
          if |matchup.columns| != |labels| then Err(ValueError)
          else
            var rows := if withPoints then matchup.rows + [["points"] + points] else matchup.rows;
            assert Rectangular(RawTable(labels, rows));
            Pivot(RawTable(labels, rows))
  }

  /** The table the positional assembly pivots, when it gets that far. */
  function PositionalTable(tables: seq<Table>, firstLabel: string, withPoints: bool): (t: Table)
    requires |tables| >= 2 && |tables[0].columns| >= 1 && |tables[0].rows| == 2 && |tables[1].columns| == 3
    ensures |t.columns| == 3
    ensures PositionalAssembly(tables, firstLabel, withPoints) == Pivot(t)
  {
    var summary := TeamData(tables[0]).value;
    var labels := [firstLabel] + summary.0;
    var rows := if withPoints then tables[1].rows + [["points"] + summary.1] else tables[1].rows;
    assert Rectangular(RawTable(labels, rows));
    RawTable(labels, rows)
  }

  /** The summary cell in row `i` of the last column: that team's final score. */
  function Score(summary: Table, i: nat): string
    requires i < |summary.rows| && |summary.columns| >= 1
  {
    summary.rows[i][|summary.columns| - 1]
  }

  /** The record of a successful positional assembly: team columns first, named after the
      summary's first column; with the points row, `away_points`/`home_points` are the two
      scores; the stat rows are pivoted in order. */
  lemma PositionalRecord(tables: seq<Table>, firstLabel: string, withPoints: bool)
    requires |tables| >= 2 && |tables[0].columns| >= 1 && |tables[0].rows| == 2 && |tables[1].columns| == 3
    ensures var t := PositionalTable(tables, firstLabel, withPoints);
      var rec := PositionalAssembly(tables, firstLabel, withPoints).value;
      && t.columns == [firstLabel, tables[0].rows[0][0], tables[0].rows[1][0]]
      && t.rows == (if withPoints then tables[1].rows + [["points", Score(tables[0], 0), Score(tables[0], 1)]]
                    else tables[1].rows)
      && |rec| >= 2 && rec[0].0 == "away_team" && rec[1].0 == "home_team"
      && (withPoints ==>
            (Get(rec, "away_points") == Some(Score(tables[0], 0))
             && Get(rec, "home_points") == Some(Score(tables[0], 1))))
  {
    var t := PositionalTable(tables, firstLabel, withPoints);
    PivotSpec(t);
    if withPoints {
      PivotLastRow(t);
      var last := t.rows[|t.rows| - 1];
      assert last == ["points", Score(tables[0], 0), Score(tables[0], 1)];
      PointsColumns();
    }
  }

  /** The columns the points row pivots into. */
  lemma PointsColumns()
    ensures Lower("points") == "points"
    ensures "away_" + Lower("points") == "away_points"
    ensures "home_" + Lower("points") == "home_points"
  {
    var lp := Lower("points");
    forall i | 0 <= i < 6 ensures lp[i] == "points"[i] {
    }
    assert lp == "points";
  }
}
