/** nfl_game_data_collector.py: the `GameData` worker, which walks a range of game ids and
    keeps the games found in its `game_df` field. */
module NflGameDataCollector {
  import opened Frames

  /** The `logging.Logger` handed to the worker; only stored and passed to logging calls. */
  datatype Logger = Logger(name: string)

  /** The reply for each id in the worker's range, in order: `get_data(make_url(i))` for the
      ids `starting_point .. starting_point + count - 1` (none when `count` is not positive). */
  function RangeResults(startingPoint: int, count: int, run: Runner): (rs: seq<Result<Reply>>)
    ensures |rs| == (if count > 0 then count else 0)
    ensures forall p :: 0 <= p < |rs| ==> rs[p] == run(startingPoint + p)
  {
    var n := if count > 0 then count else 0;
    seq(n, p requires 0 <= p < n => run(startingPoint + p))
  }

  /** How `run` as written ends after the given replies, and the first hit it stored: an
      exception stops it; a hit once `started` is set reads `self.game_data`, which does not
      exist; the first hit becomes `game_df`. */
  function AsWritten(rs: seq<Result<Reply>>): (Result<()>, Option<Record>)
    decreases |rs|
  {
    if rs == [] then (Ok(()), None)
    else AfterReply(AsWritten(rs[..|rs| - 1]), rs[|rs| - 1])
  }

  /** One iteration of `run` as written, from how the earlier ones ended. */
  function AfterReply(done: (Result<()>, Option<Record>), last: Result<Reply>): (Result<()>, Option<Record>) {
    if done.0.Err? then done
    else if last.Err? then (Err(last.error), done.1)
    else if last.value.IsHit() && done.1.Some? then (Err(AttributeError), done.1)
    else if last.value.IsHit() then (Ok(()), Some(last.value.record))
    else done
  }

  /** The loop's prefixes: one more reply is one more iteration. */
  lemma AsWrittenPrefix(rs: seq<Result<Reply>>, k: nat)
    requires k < |rs|
    ensures AsWritten(rs[..k + 1]) == AfterReply(AsWritten(rs[..k]), rs[k])
  {
    assert rs[..k + 1][..k] == rs[..k];
  }

  /** Once `run` as written has raised, later replies change nothing. */
  lemma {:induction false} AsWrittenStops(rs: seq<Result<Reply>>, k: nat)
    requires k <= |rs| && AsWritten(rs[..k]).0.Err?
    ensures AsWritten(rs) == AsWritten(rs[..k])
    decreases |rs| - k
  {
    if k < |rs| {
      var n := |rs| - 1;
      assert rs[..n][..k] == rs[..k];
      AsWrittenStops(rs[..n], k);
    } else {
      assert rs[..k] == rs;
    }
  }

  /** `run` as written completes exactly when no reply raised and at most one was a hit;
      the game it keeps is then the only hit. */
  lemma {:induction false} AsWrittenSucceeds(rs: seq<Result<Reply>>)
    ensures AsWritten(rs).0.Ok? <==>
      (forall q :: 0 <= q < |rs| ==> rs[q].Ok?) && |HitRecords(Values(rs))| <= 1
    ensures AsWritten(rs).0.Ok? ==>
      AsWritten(rs).1 == (if HitRecords(Values(rs)) == [] then None else Some(HitRecords(Values(rs))[0]))
    decreases |rs|
  {
    if rs != [] {
      var n := |rs| - 1;
      var pre := rs[..n];
      AsWrittenSucceeds(pre);
      if forall q :: 0 <= q < |rs| ==> rs[q].Ok? {
        assert forall q :: 0 <= q < n ==> pre[q].Ok?;
        assert Values(rs)[..n] == Values(pre);
      } else if AsWritten(pre).0.Ok? {
        assert forall q :: 0 <= q < n ==> pre[q].Ok?;
        assert rs[n].Err?;
      }
    }
  }

  /** A second game in the range makes `run` as written raise, even with no failed fetch. */
  lemma SecondHitRaises(a: Record, b: Record)
    requires a != [] && b != []
    ensures AsWritten([Ok(Frame(a)), Ok(Frame(b))]) == (Err(AttributeError), Some(a))
  {
    var one: seq<Result<Reply>> := [Ok(Frame(a))];
    var rs := one + [Ok(Frame(b))];
    assert one[..0] == [];
    assert AsWritten(one) == (Ok(()), Some(a));
    assert rs[..1] == one;
  }

  /** What `game_df` holds after the corrected loop: every hit so far, one row each, all
      still labelled 0 since nothing renumbers them; the initial frame when nothing hit. */
  function Kept(vs: seq<Reply>, initial: Aggregate): (df: Aggregate)
    ensures HitRecords(vs) == [] ==> df == initial
    ensures HitRecords(vs) != [] ==> df.rows == HitRecords(vs) && df.index == Zeros(|HitRecords(vs)|)
  {
    var hits := HitRecords(vs);
    if hits == [] then initial else Aggregate(hits, Zeros(|hits|))
  }

  /** The corrected loop keeps one row per hit: with distinct games, `game_df` lists them all
      in id order. */
  lemma KeptAll(vs: seq<Reply>, initial: Aggregate, rec: Record)
    requires HitRecords(vs) != []
    ensures |Kept(vs, initial).rows| <= |vs|
    ensures rec in Kept(vs, initial).rows <==> rec != [] && Frame(rec) in vs
  {
    HitRecordsMembers(vs);
  }

  class GameData {
    var startingPoint: int
    var count: int
    var logger: Logger
    var gameDf: Aggregate

    /** `GameData(starting_point, count, logger)`: `game_df` starts as an empty frame. */
    constructor(startingPoint: int, count: int, logger: Logger)
      ensures this.startingPoint == startingPoint && this.count == count && this.logger == logger
      ensures gameDf == EmptyAggregate
    {
      this.startingPoint := startingPoint;
      this.count := count;
      this.logger := logger;
      gameDf := EmptyAggregate;
    }

    /** `get_game_df()`: the frame collected so far, nothing changed. */
    method GetGameDf() returns (df: Aggregate)
      ensures df == gameDf
    {
      df := gameDf;
    }

    /** `run()` as written. `run` stands for `self.get_data(self.make_url(i))`. */
    method Run(run: Runner) returns (r: Result<()>)
      modifies this
      ensures startingPoint == old(startingPoint) && count == old(count) && logger == old(logger)
      ensures var outcome := AsWritten(RangeResults(old(startingPoint), old(count), run));
        && r == outcome.0
        && gameDf == (if outcome.1.Some? then AsFrame(outcome.1.value) else old(gameDf))
    {
      ghost var rs := RangeResults(startingPoint, count, run);
      var n := if count > 0 then count else 0;
      var started := false;
      for i := startingPoint to startingPoint + n
        invariant startingPoint == old(startingPoint) && count == old(count) && logger == old(logger)
        invariant AsWritten(rs[..i - startingPoint]).0 == Ok(())
        invariant started <==> AsWritten(rs[..i - startingPoint]).1.Some?
        invariant started ==> gameDf == AsFrame(AsWritten(rs[..i - startingPoint]).1.value)
        invariant !started ==> gameDf == old(gameDf)
      {
        var page := i - startingPoint;
        var newData := run(i);
        assert newData == rs[page];
        AsWrittenPrefix(rs, page);
        if newData.Err? {
          AsWrittenStops(rs, page + 1);
          return Err(newData.error);
        }
        if newData.value.IsHit() && started {
          AsWrittenStops(rs, page + 1);
          return Err(AttributeError);
        }
        if !started && newData.value.IsHit() {
          gameDf := AsFrame(newData.value.record);
          started := true;
        }
      }
      assert rs[..n] == rs;
      r := Ok(());
    }

    /** `run()` with the concatenation reading `self.game_df`, as evidently intended: every
        hit is appended to `game_df`, and a failed call stops the loop. */
    method RunFixed(run: Runner) returns (r: Result<()>)
      modifies this
      ensures startingPoint == old(startingPoint) && count == old(count) && logger == old(logger)
      ensures var rs := RangeResults(old(startingPoint), old(count), run);
        match FirstErrorAt(rs)
        case Some(p) => r == Err(rs[p].error) && gameDf == Kept(Values(rs[..p]), old(gameDf))
        case None => r == Ok(()) && gameDf == Kept(Values(rs), old(gameDf))
    {
      ghost var rs := RangeResults(startingPoint, count, run);
      ghost var vs: seq<Reply> := [];
      var n := if count > 0 then count else 0;
      var started := false;
      for i := startingPoint to startingPoint + n
        invariant startingPoint == old(startingPoint) && count == old(count) && logger == old(logger)
        invariant |vs| == i - startingPoint && forall q :: 0 <= q < |vs| ==> rs[q] == Ok(vs[q])
        invariant started <==> HitRecords(vs) != []
        invariant gameDf == Kept(vs, old(gameDf))
      {
        var page := i - startingPoint;
        var newData := run(i);
        assert newData == rs[page];
        if newData.Err? {
          assert vs == Values(rs[..page]);
          FirstErrorAtIs(rs, page);
          return Err(newData.error);
        }
        KeptStep(vs, newData.value, old(gameDf));
        OkPrefixStep(rs, vs, newData.value);
        vs := vs + [newData.value];
        var hit := newData.value.IsHit();
        if hit && started {
          gameDf := Concat([gameDf, AsFrame(newData.value.record)]).value;
        }
        if !started && hit {
          gameDf := AsFrame(newData.value.record);
          started := true;
        }
      }
      assert vs == Values(rs);
      r := Ok(());
    }
  }

  /** One more reply in the corrected loop: a hit is appended, anything else changes nothing. */
  lemma KeptStep(vs: seq<Reply>, v: Reply, initial: Aggregate)
    ensures HitRecords(vs + [v]) == (if v.IsHit() then HitRecords(vs) + [v.record] else HitRecords(vs))
    ensures v.IsHit() && HitRecords(vs) == [] ==> Kept(vs + [v], initial) == AsFrame(v.record)
    ensures v.IsHit() && HitRecords(vs) != [] ==>
      Kept(vs + [v], initial) == Concat([Kept(vs, initial), AsFrame(v.record)]).value
  {
    assert (vs + [v])[..|vs|] == vs;
    var hits := HitRecords(vs);
    if v.IsHit() {
      assert Zeros(|hits| + 1) == Zeros(|hits|) + [0];
      if hits != [] {
        var pair := [Kept(vs, initial), AsFrame(v.record)];
        assert pair[..1] == [Kept(vs, initial)];
        assert Flatten([Kept(vs, initial)]) == Kept(vs, initial) by {
          assert [Kept(vs, initial)][..0] == [];
        }
      }
    }
  }
}
