/** The pandas values the scraper works with, reduced to what its code observes:
    parsed HTML tables, the one-row frame a game becomes, the frame built by
    concatenating game rows, and what a fetch of one game returns. */
module Frames {

  datatype Option<T> = None | Some(value: T)

  /** The Python exceptions the scripts raise and do not catch. */
  datatype Error =
    | IndexError      // a list or column position that does not exist
    | KeyError        // a column label that does not exist
    | ValueError      // a length mismatch, nothing to concatenate, or `np.vectorize` on no input
    | TypeError       // a call with a missing argument
    | AttributeError  // an attribute that was never set
    | NameError       // a local variable read before it was bound

  datatype Result<T> = Ok(value: T) | Err(error: Error)

  // ---------------------------------------------------------------------------
  // Tables and their shape

  /** A table as `pd.read_html` returns it: column labels and rows of cell text. */
  datatype RawTable = RawTable(columns: seq<string>, rows: seq<seq<string>>)

  predicate Rectangular(t: RawTable) {
    forall i :: 0 <= i < |t.rows| ==> |t.rows[i]| == |t.columns|
  }

  /** A DataFrame is always rectangular: every row has one cell per column. */
  type Table = t: RawTable | Rectangular(t) witness RawTable([], [])

  /** `df.shape`: (number of rows, number of columns). */
  function Shape(t: Table): (nat, nat) {
    (|t.rows|, |t.columns|)
  }

  /** `df.empty`: true when either axis has length zero. */
  predicate IsEmptyTable(t: Table) {
    |t.rows| == 0 || |t.columns| == 0
  }

  // ---------------------------------------------------------------------------
  // Records: a one-row frame, as its columns in order with their single value

  type Record = seq<(string, string)>

  function Keys(r: Record): (ks: seq<string>)
    ensures |ks| == |r| && forall i :: 0 <= i < |r| ==> ks[i] == r[i].0
  {
    seq(|r|, i requires 0 <= i < |r| => r[i].0)
  }

  /** The labels of a nonempty record: its first label, then the labels of the rest. */
  lemma KeysCons(r: Record)
    requires r != []
    ensures Keys(r) == [r[0].0] + Keys(r[1..])
    ensures forall k :: k in Keys(r) <==> k == r[0].0 || k in Keys(r[1..])
  {
    assert Keys(r) == [r[0].0] + Keys(r[1..]);
  }

  predicate Distinct(ks: seq<string>) {
    forall i, j :: 0 <= i < j < |ks| ==> ks[i] != ks[j]
  }

  /** The value in column `k`, if the record has one. */
  function Get(r: Record, k: string): Option<string>
    decreases |r|
  {
    if r == [] then None else if r[0].0 == k then Some(r[0].1) else Get(r[1..], k)
  }

  /** A record has a value exactly in the columns it has. */
  lemma {:induction false} GetPresent(r: Record, k: string)
    ensures Get(r, k).Some? <==> k in Keys(r)
    decreases |r|
  {
    if r != [] {
      GetPresent(r[1..], k);
      KeysCons(r);
    }
  }

  /** `df[k] = [v]`: an existing column keeps its position and takes the new value,
      a new column goes last. */
  function Assign(r: Record, k: string, v: string): (r': Record)
  {
    if r == [] then [(k, v)]
    else if r[0].0 == k then [(k, v)] + r[1..]
    else
      assert Keys(r) == [r[0].0] + Keys(r[1..]);
      [r[0]] + Assign(r[1..], k, v)
  }

  /** `df[k] = [v]` keeps the columns in place and appends `k` when it is new. */
  lemma {:induction false} AssignKeys(r: Record, k: string, v: string)
    ensures Keys(Assign(r, k, v)) == if k in Keys(r) then Keys(r) else Keys(r) + [k]
    decreases |r|
  {
    if r != [] && r[0].0 != k {
      AssignKeys(r[1..], k, v);
      KeysCons(r);
      KeysCons(Assign(r, k, v));
      assert Assign(r, k, v)[1..] == Assign(r[1..], k, v);
    }
  }

  /** After `df[k] = [v]`, column `k` holds `v` and every other column is as it was. */
  lemma {:induction false} AssignGet(r: Record, k: string, v: string, k': string)
    ensures Get(Assign(r, k, v), k') == if k' == k then Some(v) else Get(r, k')
    decreases |r|
  {
    if r != [] && r[0].0 != k {
      AssignGet(r[1..], k, v, k');
    }
  }

  /** The record built by assigning the columns of `ops` one after another to an empty frame. */
  function AssignAll(ops: seq<(string, string)>): Record
    decreases |ops|
  {
    if ops == [] then []
    else
      var last := ops[|ops| - 1];
      Assign(AssignAll(ops[..|ops| - 1]), last.0, last.1)
  }

  /** Reference definition of the column order: each label at its first occurrence. */
  function FirstOccurrences(ks: seq<string>): seq<string>
    decreases |ks|
  {
    if ks == [] then []
    else
      var done := FirstOccurrences(ks[..|ks| - 1]);
      if ks[|ks| - 1] in done then done else done + [ks[|ks| - 1]]
  }

  /** Reference definition of a column's value: the last value assigned to it. */
  function LastValue(ops: seq<(string, string)>, k: string): Option<string>
    decreases |ops|
  {
    if ops == [] then None
    else if ops[|ops| - 1].0 == k then Some(ops[|ops| - 1].1)
    else LastValue(ops[..|ops| - 1], k)
  }

  /** Assignments to other columns do not change a column's last value. */
  lemma {:induction false} LastValueAbsent(a: seq<(string, string)>, b: seq<(string, string)>, k: string)
    requires k !in Keys(b)
    ensures LastValue(a + b, k) == LastValue(a, k)
    decreases |b|
  {
    if b == [] {
      assert a + b == a;
    } else {
      var b' := b[..|b| - 1];
      assert Keys(b)[|b| - 1] == b[|b| - 1].0;
      assert k !in Keys(b') by {
        forall i | 0 <= i < |b'| ensures Keys(b')[i] != k {
          assert Keys(b')[i] == Keys(b)[i];
        }
      }
      LastValueAbsent(a, b', k);
      assert (a + b)[..|a + b| - 1] == a + b';
    }
  }

  /** Assigning in sequence keeps each column at its first position, with no column
      twice, and leaves each column with the value assigned last. */
  lemma {:induction false} AssignAllSpec(ops: seq<(string, string)>)
    ensures Keys(AssignAll(ops)) == FirstOccurrences(Keys(ops))
    ensures Distinct(Keys(AssignAll(ops)))
    ensures forall k :: Get(AssignAll(ops), k) == LastValue(ops, k)
    decreases |ops|
  {
    if ops != [] {
      var pre := ops[..|ops| - 1];
      var last := ops[|ops| - 1];
      AssignAllSpec(pre);
      assert Keys(ops)[..|ops| - 1] == Keys(pre);
      assert AssignAll(ops) == Assign(AssignAll(pre), last.0, last.1);
      AssignKeys(AssignAll(pre), last.0, last.1);
      forall k ensures Get(AssignAll(ops), k) == LastValue(ops, k) {
        AssignGet(AssignAll(pre), last.0, last.1, k);
      }
    }
  }

  /** Every label occurs in the column order, and nothing else does. */
  lemma {:induction false} FirstOccurrencesMembers(ks: seq<string>)
    ensures forall k :: k in FirstOccurrences(ks) <==> k in ks
    decreases |ks|
  {
    if ks != [] {
      var pre := ks[..|ks| - 1];
      FirstOccurrencesMembers(pre);
      assert ks == pre + [ks[|ks| - 1]];
    }
  }

  /** Later assignments never move the columns already there. */
  lemma {:induction false} FirstOccurrencesPrefix(a: seq<string>, b: seq<string>)
    ensures FirstOccurrences(a) <= FirstOccurrences(a + b)
    decreases |b|
  {
    if b == [] {
      assert a + b == a;
    } else {
      var b' := b[..|b| - 1];
      FirstOccurrencesPrefix(a, b');
      assert (a + b)[..|a + b| - 1] == a + b';
    }
  }

  /** With no label repeated, the column order is the labels' own order. */
  lemma {:induction false} FirstOccurrencesDistinct(ks: seq<string>)
    requires Distinct(ks)
    ensures FirstOccurrences(ks) == ks
    decreases |ks|
  {
    if ks != [] {
      var pre := ks[..|ks| - 1];
      FirstOccurrencesDistinct(pre);
      assert ks == pre + [ks[|ks| - 1]];
    }
  }

  /** With no label repeated, assigning in sequence gives exactly the assignments. */
  lemma {:induction false} AssignAllDistinct(ops: seq<(string, string)>)
    requires Distinct(Keys(ops))
    ensures AssignAll(ops) == ops
    decreases |ops|
  {
    if ops != [] {
      var n := |ops| - 1;
      var pre := ops[..n];
      var ks := Keys(ops);
      assert Keys(pre) == ks[..n];
      assert Distinct(Keys(pre)) by {
        forall i, j | 0 <= i < j < n ensures Keys(pre)[i] != Keys(pre)[j] {
          assert ks[i] != ks[j];
        }
      }
      AssignAllDistinct(pre);
      assert ops[n].0 !in Keys(pre) by {
        forall i | 0 <= i < n ensures Keys(pre)[i] != ops[n].0 {
          assert ks[i] != ks[n];
        }
      }
      AssignFresh(pre, ops[n].0, ops[n].1);
      assert ops == pre + [ops[n]];
    }
  }

  lemma {:induction false} AssignFresh(r: Record, k: string, v: string)
    requires k !in Keys(r)
    ensures Assign(r, k, v) == r + [(k, v)]
    decreases |r|
  {
    if r != [] {
      KeysCons(r);
      AssignFresh(r[1..], k, v);
      assert Assign(r, k, v) == [r[0]] + (r[1..] + [(k, v)]);
      assert [r[0]] + (r[1..] + [(k, v)]) == ([r[0]] + r[1..]) + [(k, v)];
      assert r == [r[0]] + r[1..];
    }
  }

  // ---------------------------------------------------------------------------
  // What fetching one game returns

  /** A one-row record frame, an empty DataFrame instance, or the DataFrame class
      itself (returned by mistake in two of the scripts). */
  datatype Reply = Frame(record: Record) | EmptyFrame | FrameClass {
    /** `not reply.empty`. A frame without columns is empty. On the class, `.empty` is a
        property object, which is truthy, so the class is never a hit. */
    predicate IsHit() {
      Frame? && record != []
    }
  }

  /** What fetching and parsing one address gives: the tables of the page, or `None` when
      the request or the HTML parser raised. */
  type Fetch = string -> Option<seq<Table>>

  /** The reply a collection loop gets for each game id, or the exception the per-id call
      raised. */
  type Runner = int -> Result<Reply>

  /** The successful replies seen so far, one more of them: the prefix relation grows by one. */
  lemma OkPrefixStep(results: seq<Result<Reply>>, vs: seq<Reply>, v: Reply)
    requires |vs| < |results| && results[|vs|] == Ok(v)
    requires forall q :: 0 <= q < |vs| ==> results[q] == Ok(vs[q])
    ensures forall q :: 0 <= q < |vs + [v]| ==> results[q] == Ok((vs + [v])[q])
  {
  }

  /** The records of the hits, in order. */
  function HitRecords(rs: seq<Reply>): seq<Record>
    decreases |rs|
  {
    if rs == [] then []
    else
      var done := HitRecords(rs[..|rs| - 1]);
      if rs[|rs| - 1].IsHit() then done + [rs[|rs| - 1].record] else done
  }

  /** Filtering a concatenation is concatenating the filtered parts, so how a range of
      ids is cut into batches does not change the rows collected. */
  lemma {:induction false} HitRecordsAppend(a: seq<Reply>, b: seq<Reply>)
    ensures HitRecords(a + b) == HitRecords(a) + HitRecords(b)
    decreases |b|
  {
    if b == [] {
      assert a + b == a;
    } else {
      HitRecordsAppend(a, b[..|b| - 1]);
      assert (a + b)[..|a + b| - 1] == a + b[..|b| - 1];
    }
  }

  /** A record is collected exactly when some reply carries it. */
  lemma {:induction false} HitRecordsMembers(rs: seq<Reply>)
    ensures |HitRecords(rs)| <= |rs|
    ensures forall r :: r in HitRecords(rs) <==> r != [] && Frame(r) in rs
    decreases |rs|
  {
    if rs != [] {
      var pre := rs[..|rs| - 1];
      HitRecordsMembers(pre);
      assert rs == pre + [rs[|rs| - 1]];
    }
  }

  /** The ids whose reply is a hit, in order. */
  function HitIds(ids: seq<int>, rs: seq<Reply>): seq<int>
    requires |ids| == |rs|
    decreases |rs|
  {
    if rs == [] then []
    else
      var n := |rs| - 1;
      var done := HitIds(ids[..n], rs[..n]);
      if rs[n].IsHit() then done + [ids[n]] else done
  }

  /** An id is kept exactly when it is the id of a reply that hit. */
  lemma {:induction false} HitIdsMembers(ids: seq<int>, rs: seq<Reply>)
    requires |ids| == |rs|
    ensures forall i :: 0 <= i < |ids| && rs[i].IsHit() ==> ids[i] in HitIds(ids, rs)
    ensures forall x :: x in HitIds(ids, rs) ==> exists i :: 0 <= i < |ids| && ids[i] == x && rs[i].IsHit()
    decreases |rs|
  {
    if rs != [] {
      var n := |rs| - 1;
      HitIdsMembers(ids[..n], rs[..n]);
    }
  }

  /** When no id repeats, the id at position `p` is kept exactly when reply `p` is a hit. */
  lemma {:induction false} HitIdsExactly(ids: seq<int>, rs: seq<Reply>)
    requires |ids| == |rs|
    requires forall i, j :: 0 <= i < j < |ids| ==> ids[i] != ids[j]
    ensures forall p :: 0 <= p < |ids| ==> (ids[p] in HitIds(ids, rs) <==> rs[p].IsHit())
    decreases |rs|
  {
    if rs != [] {
      var n := |rs| - 1;
      var pre := ids[..n];
      var done := HitIds(pre, rs[..n]);
      HitIdsExactly(pre, rs[..n]);
      HitIdsSpec(pre, rs[..n]);
      assert ids[n] !in done by {
        assert forall i :: 0 <= i < n ==> pre[i] != ids[n];
      }
      forall p | 0 <= p < n ensures ids[p] in HitIds(ids, rs) <==> rs[p].IsHit() {
        assert pre[p] == ids[p] && rs[..n][p] == rs[p];
      }
    }
  }

  /** There is one hit id per hit record; the ids kept from an increasing list increase. */
  lemma {:induction false} HitIdsSpec(ids: seq<int>, rs: seq<Reply>)
    requires |ids| == |rs|
    ensures |HitIds(ids, rs)| == |HitRecords(rs)|
    ensures forall x :: x in HitIds(ids, rs) ==> x in ids
    ensures (forall i, j :: 0 <= i < j < |ids| ==> ids[i] < ids[j]) ==>
      forall i, j :: 0 <= i < j < |HitIds(ids, rs)| ==> HitIds(ids, rs)[i] < HitIds(ids, rs)[j]
    decreases |rs|
  {
    if rs != [] {
      var n := |rs| - 1;
      HitIdsSpec(ids[..n], rs[..n]);
      var done := HitIds(ids[..n], rs[..n]);
      if forall i, j :: 0 <= i < j < |ids| ==> ids[i] < ids[j] {
        assert forall i, j :: 0 <= i < j < n ==> ids[..n][i] < ids[..n][j];
        forall x | x in done ensures x < ids[n] {
          assert x in ids[..n];
          var k :| 0 <= k < n && ids[..n][k] == x;
        }
        var all := HitIds(ids, rs);
        if rs[n].IsHit() {
          assert all == done + [ids[n]];
          forall i, j | 0 <= i < j < |all| ensures all[i] < all[j] {
            assert all[i] == done[i];
            if j < |done| {
              assert all[j] == done[j];
            } else {
              assert done[i] in done;
            }
          }
        }
      }
    }
  }

  /** The position of the earliest element that passes `test`, if any does. */
  function FirstWhere<T>(s: seq<T>, test: T -> bool): (k: Option<nat>)
    ensures k.Some? ==> k.value < |s| && test(s[k.value])
    ensures k.Some? ==> forall j :: 0 <= j < k.value ==> !test(s[j])
    ensures k.None? ==> forall j :: 0 <= j < |s| ==> !test(s[j])
    decreases |s|
  {
    if s == [] then None
    else
      var n := |s| - 1;
      match FirstWhere(s[..n], test)
      case Some(k) => Some(k)
      case None => if test(s[n]) then Some(n) else None
  }

  /** The position of the first call that raised, in call order. */
  function FirstErrorAt<T>(rs: seq<Result<T>>): (p: Option<nat>)
    ensures p.Some? ==> p.value < |rs| && rs[p.value].Err?
    ensures p.Some? ==> forall q :: 0 <= q < p.value ==> rs[q].Ok?
    ensures p.None? ==> forall q :: 0 <= q < |rs| ==> rs[q].Ok?
  {
    FirstWhere(rs, (r: Result<T>) => r.Err?)
  }

  /** A call that raised with none raising before it is the first to raise. */
  lemma FirstErrorAtIs<T>(rs: seq<Result<T>>, p: nat)
    requires p < |rs| && rs[p].Err? && forall q :: 0 <= q < p ==> rs[q].Ok?
    ensures FirstErrorAt(rs) == Some(p)
  {
  }

  /** The results of calls none of which raised. */
  function Values<T>(rs: seq<Result<T>>): (vs: seq<T>)
    requires forall q :: 0 <= q < |rs| ==> rs[q].Ok?
    ensures |vs| == |rs| && forall q :: 0 <= q < |rs| ==> vs[q] == rs[q].value
  {
    seq(|rs|, q requires 0 <= q < |rs| => rs[q].value)
  }

  // ---------------------------------------------------------------------------
  // Frames of several rows

  /** Rows in order, each a record, with the frame's row labels. */
  datatype Aggregate = Aggregate(rows: seq<Record>, index: seq<int>)

  /** A record as a frame: one row, labelled 0. */
  function AsFrame(r: Record): Aggregate {
    Aggregate([r], [0])
  }

  const EmptyAggregate := Aggregate([], [])

  /** The rows and labels of all frames, one frame after another. */
  function Flatten(frames: seq<Aggregate>): Aggregate
    decreases |frames|
  {
    if frames == [] then EmptyAggregate
    else
      var done := Flatten(frames[..|frames| - 1]);
      var last := frames[|frames| - 1];
      Aggregate(done.rows + last.rows, done.index + last.index)
  }

  /** `pd.concat(frames)`: row labels are kept as they are, and an empty list is refused. */
  function Concat(frames: seq<Aggregate>): (r: Result<Aggregate>)
    ensures r.Err? <==> frames == []
    ensures r.Err? ==> r.error == ValueError
  {
    if frames == [] then Err(ValueError) else Ok(Flatten(frames))
  }

  function Zeros(n: nat): (s: seq<int>)
    ensures |s| == n && forall i :: 0 <= i < n ==> s[i] == 0
  {
    seq(n, i => 0)
  }

  /** One frame per record. */
  function AsFrames(recs: seq<Record>): (frames: seq<Aggregate>)
    ensures |frames| == |recs| && forall i :: 0 <= i < |recs| ==> frames[i] == AsFrame(recs[i])
  {
    seq(|recs|, i requires 0 <= i < |recs| => AsFrame(recs[i]))
  }

  /** Concatenating one-row record frames gives those records as rows, every row still
      labelled 0. */
  lemma {:induction false} FlattenRecords(recs: seq<Record>)
    ensures Flatten(AsFrames(recs)) == Aggregate(recs, Zeros(|recs|))
    decreases |recs|
  {
    if recs != [] {
      var n := |recs| - 1;
      FlattenRecords(recs[..n]);
      assert AsFrames(recs)[..n] == AsFrames(recs[..n]);
      assert recs == recs[..n] + [recs[n]];
    }
  }

  /** `list(range(lo, lo + n))`. */
  function Range(lo: int, n: nat): (s: seq<int>)
    ensures |s| == n && forall i :: 0 <= i < n ==> s[i] == lo + i
  {
    seq(n, i => lo + i)
  }

  /** One more id at the end of a range. */
  lemma RangeStep(lo: int, n: nat)
    ensures Range(lo, n + 1) == Range(lo, n) + [lo + n]
  {
    assert Range(lo, n + 1)[..n] == Range(lo, n);
  }

  /** `df.index = list(range(df.shape[0]))`: the rows stay, relabelled 0..n-1. */
  function Renumber(a: Aggregate): (r: Aggregate)
    ensures r.rows == a.rows
    ensures |r.index| == |r.rows| && forall i :: 0 <= i < |r.index| ==> r.index[i] == i
  {
    Aggregate(a.rows, Range(0, |a.rows|))
  }
}
