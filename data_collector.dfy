/** data_collector.py: the collector that reads the summary and matchup tables by position,
    and whose `main` walks 210 batches of ten game ids with a start offset that grows by
    a larger step each batch. */
module DataCollector {
  import opened Text
  import opened Frames
  import opened Reshape

  // ---------------------------------------------------------------------------
  // get_data and run

  /** `get_data(url)` for the tables the fetch gave. A failed fetch returns the DataFrame
      class itself; after the `try`, the positional assembly may raise, and that escapes. */
  function GetData(fetched: Option<seq<Table>>): (r: Result<Reply>)
    ensures r == Ok(FrameClass) <==> fetched.None?
    ensures fetched.Some? ==>
      (r.Ok? <==> PositionalAssembly(fetched.value, "game_stat", true).Ok?)
    ensures fetched.Some? && r.Ok? ==>
      r.value == Frame(PositionalAssembly(fetched.value, "game_stat", true).value)
  {
    match fetched
    case None => Ok(FrameClass)
    case Some(tables) =>
      match PositionalAssembly(tables, "game_stat", true)
      case Err(e) => Err(e)
      case Ok(rec) => Ok(Frame(rec))
  }

  /** A successful `get_data` starts with the team columns and always has `away_points` and
      `home_points`: the last column of the first table, row by row. */
  lemma GetDataPoints(tables: seq<Table>)
    requires GetData(Some(tables)).Ok?
    ensures var rec := GetData(Some(tables)).value.record;
      && |rec| >= 2 && rec[0].0 == "away_team" && rec[1].0 == "home_team"
      && Get(rec, "away_points") == Some(Score(tables[0], 0))
      && Get(rec, "home_points") == Some(Score(tables[0], 1))
  {
    PositionalRecord(tables, "game_stat", true);
  }

  /** `run(value)`: the reply for the address of that game id. */
  function RunId(id: int, fetch: Fetch): Result<Reply> {
    GetData(fetch(GameUrl(id)))
  }

  function RunOf(fetch: Fetch): (run: Runner) {
    (id: int) => RunId(id, fetch)
  }

  // ---------------------------------------------------------------------------
  // The batches of main

  const FirstStart := 401220225
  const Step := 100000
  const Batches := 210
  const BatchSize := 10

  /** 0 + 1 + ... + n. */
  function Tri(n: nat): nat {
    if n == 0 then 0 else Tri(n - 1) + n
  }

  lemma {:induction false} TriClosedForm(n: nat)
    ensures Tri(n) == n * (n + 1) / 2
  {
    if n > 0 {
      TriClosedForm(n - 1);
      assert n * (n + 1) == (n - 1) * n + 2 * n;
    }
  }

  /** The start of batch `i`: `starting_point` grows by `i * count` before batch `i`, so the
      steps add up. */
  function BatchStart(i: nat): int {
    FirstStart + Step * Tri(i)
  }

  /** Batch `i` begins at 401220225 + 100000·i(i+1)/2. */
  lemma BatchStartClosedForm(i: nat)
    ensures BatchStart(i) == 401220225 + 100000 * (i * (i + 1) / 2)
  {
    TriClosedForm(i);
  }

  /** `range(starting_point, starting_point + 10)`. */
  function BatchIds(i: nat): (ids: seq<int>)
    ensures |ids| == BatchSize && forall j :: 0 <= j < BatchSize ==> ids[j] == BatchStart(i) + j
  {
    Range(BatchStart(i), BatchSize)
  }

  /** The ids of the first `k` batches, batch after batch. */
  function AllIds(k: nat): seq<int>
    decreases k
  {
    if k == 0 then [] else AllIds(k - 1) + BatchIds(k - 1)
  }

  /** Ten ids per batch, in strictly increasing order across all batches: no id is asked
      twice. */
  lemma {:induction false} AllIdsIncreasing(k: nat)
    ensures |AllIds(k)| == BatchSize * k
    ensures forall a, b :: 0 <= a < b < |AllIds(k)| ==> AllIds(k)[a] < AllIds(k)[b]
    ensures k > 0 ==> AllIds(k)[|AllIds(k)| - 1] == BatchStart(k - 1) + BatchSize - 1
    decreases k
  {
    if k > 0 {
      AllIdsIncreasing(k - 1);
      var pre := AllIds(k - 1);
      var ids := BatchIds(k - 1);
      var s := AllIds(k);
      assert s == pre + ids;
      if k > 1 {
        assert BatchStart(k - 1) == BatchStart(k - 2) + Step * (k - 1);
        assert pre[|pre| - 1] < ids[0];
      }
      forall a, b | 0 <= a < b < |s| ensures s[a] < s[b] {
        if b < |pre| {
          assert s[a] == pre[a] && s[b] == pre[b];
        } else if a >= |pre| {
          assert s[a] == ids[a - |pre|] && s[b] == ids[b - |pre|];
        } else {
          assert s[a] == pre[a] && s[b] == ids[b - |pre|];
          if a < |pre| - 1 {
            assert pre[a] < pre[|pre| - 1];
          }
        }
      }
    }
  }

  /** The replies of one batch, as `p.map(run, ...)` returns them, in id order. */
  function BatchReplies(i: nat, run: Runner): (rs: seq<Result<Reply>>)
    ensures |rs| == BatchSize && forall j :: 0 <= j < BatchSize ==> rs[j] == run(BatchStart(i) + j)
  {
    seq(BatchSize, j requires 0 <= j < BatchSize => run(BatchStart(i) + j))
  }

  /** How batch `i` stops `main`, if it does: `p.map` raises an exception of one of its
      calls; otherwise `df.tail()` on a returned DataFrame class raises `TypeError`,
      because the method is called on the class without an instance. */
  function BatchFailure(i: nat, run: Runner): Option<Error> {
    var rs := BatchReplies(i, run);
    match FirstErrorAt(rs)
    case Some(p) => Some(rs[p].error)
    case None => if Ok(FrameClass) in rs then Some(TypeError) else None
  }

  /** How each of the first `n` batches ends. */
  function Failures(run: Runner, n: nat): (fs: seq<Option<Error>>)
    ensures |fs| == n && forall i :: 0 <= i < n ==> fs[i] == BatchFailure(i, run)
  {
    seq(n, i requires 0 <= i < n => BatchFailure(i, run))
  }

  /** The position of the earliest failure. */
  function FirstFailure(fs: seq<Option<Error>>): (b: Option<nat>)
    ensures b.Some? ==> b.value < |fs| && fs[b.value].Some?
    ensures b.Some? ==> forall i :: 0 <= i < b.value ==> fs[i].None?
    ensures b.None? ==> forall i :: 0 <= i < |fs| ==> fs[i].None?
  {
    FirstWhere(fs, (f: Option<Error>) => f.Some?)
  }

  /** The earliest of the first `n` batches that stops `main`. */
  function FirstFailingBatch(run: Runner, n: nat): Option<nat> {
    FirstFailure(Failures(run, n))
  }

  /** Once a failure is found with none before it, it is the earliest. */
  lemma FirstFailureAt(fs: seq<Option<Error>>, i: nat)
    requires i < |fs| && fs[i].Some?
    requires forall k :: 0 <= k < i ==> fs[k].None?
    ensures FirstFailure(fs) == Some(i)
  {
  }

  /** The next start is one step further than the last one: `starting_point` is the
      previous batch's start plus `i * count`, and the sum of those steps is `Tri`. */
  lemma BatchStartNext(i: nat)
    ensures BatchStart(i + 1) == BatchStart(i) + Step * (i + 1)
  {
  }

  /** The loop over one batch's replies that logs `df.tail()`: it raises at the first
      DataFrame class. */
  method LogTails(dfs: seq<Result<Reply>>) returns (failure: Option<Error>)
    ensures failure == if Ok(FrameClass) in dfs then Some(TypeError) else None
  {
    for j := 0 to |dfs|
      invariant Ok(FrameClass) !in dfs[..j]
    {
      if dfs[j] == Ok(FrameClass) {
        return Some(TypeError);
      }
      assert dfs[..j + 1] == dfs[..j] + [dfs[j]];
    }
    assert dfs[..|dfs|] == dfs;
    failure := None;
  }

  /** One batch of `main`: `p.map(run, range(starting_point, starting_point + 10))`, then the
      loop that logs `df.tail()` of each reply. */
  method RunBatch(i: nat, startingPoint: int, run: Runner) returns (failure: Option<Error>, ids: seq<int>)
    requires startingPoint == BatchStart(i)
    ensures ids == BatchIds(i)
    ensures failure == BatchFailure(i, run)
  {
    ids := Range(startingPoint, 10);
    var dfs := BatchReplies(i, run);
    var raised := FirstErrorAt(dfs);
    if raised.Some? {
      return Some(dfs[raised.value].error), ids;
    }
    failure := LogTails(dfs);
  }

  /** `main()`, with the ids it requested, for any per-id `run`. It never succeeds: either
      a batch raises, or the loop ends and `pd.concat(game_dfs)` is handed the list that
      nothing appends to. */
  method RunMain(run: Runner) returns (r: Result<()>, requested: seq<int>)
    ensures r.Err?
    ensures match FirstFailingBatch(run, Batches)
      case Some(b) => r == Err(BatchFailure(b, run).value) && requested == AllIds(b + 1)
      case None => r == Err(ValueError) && requested == AllIds(Batches)
  {
    var startingPoint := 401220225;
    var count := 100000;
    var gameDfs: seq<Aggregate> := [];
    requested := [];
    for i := 0 to 210
      invariant startingPoint + i * count == BatchStart(i)
      invariant forall k :: 0 <= k < i ==> BatchFailure(k, run).None?
      invariant requested == AllIds(i)
    {
      startingPoint := startingPoint + i * count;
      var failure, ids := RunBatch(i, startingPoint, run);
      requested := requested + ids;
      if failure.Some? {
        FailingBatch(run, i);
        return Err(failure.value), requested;
      }
      PassingBatch(run, i);
      BatchStartNext(i);
    }
    NoFailingBatch(run);
    var finalDf := Concat(gameDfs);
    r := Err(finalDf.error);
  }

  lemma FailingBatch(run: Runner, i: nat)
    requires i < Batches && BatchFailure(i, run).Some?
    requires forall k :: 0 <= k < i ==> BatchFailure(k, run).None?
    ensures FirstFailingBatch(run, Batches) == Some(i)
  {
    FirstFailureAt(Failures(run, Batches), i);
  }

  lemma PassingBatch(run: Runner, i: nat)
    requires BatchFailure(i, run).None?
    requires forall k :: 0 <= k < i ==> BatchFailure(k, run).None?
    ensures forall k :: 0 <= k < i + 1 ==> BatchFailure(k, run).None?
  {
  }

  lemma NoFailingBatch(run: Runner)
    requires forall k :: 0 <= k < Batches ==> BatchFailure(k, run).None?
    ensures FirstFailingBatch(run, Batches).None?
  {
  }

  /** `main()` with the collector's own `run`: the reply of each id is `get_data` of
      its address. */
  method CollectorMain(fetch: Fetch) returns (r: Result<()>, requested: seq<int>)
    ensures r.Err?
    ensures match FirstFailingBatch(RunOf(fetch), Batches)
      case Some(b) => r == Err(BatchFailure(b, RunOf(fetch)).value) && requested == AllIds(b + 1)
      case None => r == Err(ValueError) && requested == AllIds(Batches)
  {
    r, requested := RunMain(RunOf(fetch));
  }
}
