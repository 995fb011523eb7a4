/** src/nfl_data_clean.py: helpers that clean the collected CSV — splitting dashed cells,
    renaming columns through a regular-expression character class, dropping columns and
    incomplete rows — and the script that chains two of them. */
module NflDataClean {
  import opened Text
  import opened Frames

  // ---------------------------------------------------------------------------
  // A frame read back from CSV

  /** A cell as `pd.read_csv` gives it: text, or NaN for an empty field. */
  datatype Cell = Value(text: string) | Missing

  datatype RawCsv = Csv(columns: seq<string>, rows: seq<seq<Cell>>)

  predicate WellShaped(f: RawCsv) {
    forall i :: 0 <= i < |f.rows| ==> |f.rows[i]| == |f.columns|
  }

  type CsvFrame = f: RawCsv | WellShaped(f) witness Csv([], [])

  /** The position of the first column labelled `key`. */
  function IndexOf(labels: seq<string>, key: string): (k: nat)
    requires key in labels
    ensures k < |labels| && labels[k] == key
    ensures forall j :: 0 <= j < k ==> labels[j] != key
    decreases |labels|
  {
    if labels[0] == key then 0 else 1 + IndexOf(labels[1..], key)
  }

  /** A position holding `key` with none before it is the first one. */
  lemma IndexOfAt(labels: seq<string>, key: string, k: nat)
    requires k < |labels| && labels[k] == key
    requires forall j :: 0 <= j < k ==> labels[j] != key
    ensures IndexOf(labels, key) == k
  {
  }

  /** `data[key]` in row `i`: the cell of the first column with that key, if any. */
  function At(f: CsvFrame, key: string, i: nat): Option<Cell>
    requires i < |f.rows|
  {
    if key in f.columns then Some(f.rows[i][IndexOf(f.columns, key)]) else None
  }

  /** The positions of `s` whose element passes `keep`, in increasing order. */
  function Where<T>(s: seq<T>, keep: T -> bool): (ks: seq<nat>)
    ensures forall j :: 0 <= j < |ks| ==> ks[j] < |s| && keep(s[ks[j]])
    ensures forall j, j' :: 0 <= j < j' < |ks| ==> ks[j] < ks[j']
    ensures forall k :: 0 <= k < |s| && keep(s[k]) ==> k in ks
    decreases |s|
  {
    if s == [] then []
    else
      var n := |s| - 1;
      var ks := Where(s[..n], keep);
      assert forall j :: 0 <= j < |ks| ==> s[..n][ks[j]] == s[ks[j]];
      ks + (if keep(s[n]) then [n] else [])
  }

  /** The elements of `s` at the positions `ks`, in that order. */
  function Pick<T>(s: seq<T>, ks: seq<nat>): (r: seq<T>)
    requires forall j :: 0 <= j < |ks| ==> ks[j] < |s|
    ensures |r| == |ks| && forall j :: 0 <= j < |ks| ==> r[j] == s[ks[j]]
  {
    seq(|ks|, j requires 0 <= j < |ks| => s[ks[j]])
  }

  /** Whether a label is kept when the labels `cols` are dropped. */
  function NotListed(cols: seq<string>): string -> bool {
    (x: string) => x !in cols
  }

  /** `data.drop(cols, axis=1)` once every label is known to exist: every column whose label
      is listed goes, the others keep their order and their cells. */
  function DropColumns(f: CsvFrame, cols: seq<string>): (r: CsvFrame)
    ensures r.columns == Pick(f.columns, Where(f.columns, NotListed(cols)))
    ensures |r.rows| == |f.rows|
    ensures forall i :: 0 <= i < |f.rows| ==> r.rows[i] == Pick(f.rows[i], Where(f.columns, NotListed(cols)))
  {
    var ks := Where(f.columns, NotListed(cols));
    var rows := seq(|f.rows|, i requires 0 <= i < |f.rows| => Pick(f.rows[i], ks));
    Csv(Pick(f.columns, ks), rows)
  }

  /** Dropping columns removes exactly the listed labels, and every other column keeps the
      cells it had. */
  lemma DropColumnsSpec(f: CsvFrame, cols: seq<string>)
    ensures var r := DropColumns(f, cols);
      && (forall x :: x in r.columns <==> x in f.columns && x !in cols)
      && (forall x, i :: x !in cols && 0 <= i < |f.rows| ==> At(r, x, i) == At(f, x, i))
  {
    var r := DropColumns(f, cols);
    var ks := Where(f.columns, NotListed(cols));
    forall x | x in f.columns && x !in cols
      ensures x in r.columns
      ensures forall i :: 0 <= i < |f.rows| ==> At(r, x, i) == At(f, x, i)
    {
      var k := IndexOf(f.columns, x);
      assert NotListed(cols)(f.columns[k]);
      var j :| 0 <= j < |ks| && ks[j] == k;
      assert r.columns[j] == x;
      forall j' | 0 <= j' < j ensures r.columns[j'] != x {
        assert ks[j'] < k;
      }
      IndexOfAt(r.columns, x, j);
    }
    forall x | x in r.columns ensures x in f.columns && x !in cols {
      var j :| 0 <= j < |r.columns| && r.columns[j] == x;
      assert NotListed(cols)(f.columns[ks[j]]);
    }
  }

  /** A row with no NaN in it. */
  predicate Complete(row: seq<Cell>) {
    forall k :: 0 <= k < |row| ==> row[k] != Missing
  }

  // ---------------------------------------------------------------------------
  // string_splitter

  /** Python's `pieces[location]` on a list of `n` pieces: a negative position counts from
      the end, anything else out of range raises `IndexError`. */
  function PyIndex(location: int, n: nat): (k: Option<nat>)
    ensures k.Some? ==> k.value < n
    ensures k.Some? <==> -(n as int) <= location < n
    ensures k.Some? && location >= 0 ==> k.value == location
    ensures k.Some? && location < 0 ==> k.value == location + n
  {
    if 0 <= location < n then Some(location)
    else if -(n as int) <= location < 0 then Some(location + n)
    else None
  }

  /** `string_splitter(text, comp, location)`. */
  function StringSplitter(text: string, comp: string, location: int): (r: Result<string>)
    ensures text == comp ==> r == Ok("0")
    ensures r.Err? ==> r.error == IndexError
    ensures r.Ok? && text != comp ==> '-' !in r.value
  {
    if text == comp then Ok("0")
    else
      var pieces := Split(text, '-');
      match PyIndex(location, |pieces|)
      case Some(k) =>
        SplitPiecesFree(text, '-', k);
        Ok(pieces[k])
      case None => Err(IndexError)
  }

  /** Apart from the sentinel, a text has one more piece than it has dashes; every position
      among them succeeds, every other position raises `IndexError`, and the pieces joined
      with `-` give the text back. */
  lemma SplitterPieces(text: string, comp: string)
    requires text != comp
    ensures var n := 1 + multiset(text)['-'];
      && (forall location :: -n <= location < n <==> StringSplitter(text, comp, location).Ok?)
      && Join(seq(n, k requires 0 <= k < n => StringSplitter(text, comp, k).value), '-') == text
  {
    SplitCount(text, '-');
    var pieces := Split(text, '-');
    var n := 1 + multiset(text)['-'];
    var parts := seq(n, k requires 0 <= k < n => StringSplitter(text, comp, k).value);
    assert parts == pieces;
    JoinSplit(text, '-');
  }

  /** A text without a dash is its own first and last piece, and has no second one. */
  lemma SplitterWithoutDash(text: string, comp: string)
    requires text != comp && '-' !in text
    ensures StringSplitter(text, comp, 0) == Ok(text)
    ensures StringSplitter(text, comp, -1) == Ok(text)
    ensures StringSplitter(text, comp, 1) == Err(IndexError)
  {
    SplitWithoutSeparator(text, '-');
  }

  /** Position 0 never fails; position 1 exists exactly when the text has a dash. */
  lemma SplitterFirstSecond(text: string, comp: string)
    ensures StringSplitter(text, comp, 0).Ok?
    ensures StringSplitter(text, comp, 1).Ok? <==> text == comp || '-' in text
  {
    SplitCount(text, '-');
  }

  // ---------------------------------------------------------------------------
  // add_dashed_cols

  /** `add_dashed_cols(col, data)` as written: `data[col]` raises `KeyError` for a missing
      column; otherwise `np.vectorize(string_splitter)(temp_data, 0)` passes two arguments to
      a three-parameter function. On no rows `np.vectorize` refuses the empty input with
      `ValueError` before calling anything; on any row the call raises `TypeError`. */
  function AddDashedColsAsWritten(col: string, data: CsvFrame): (r: Result<CsvFrame>)
    ensures r.Err?
    ensures r.error == KeyError <==> col !in data.columns
    ensures r.error == ValueError <==> col in data.columns && data.rows == []
  {
    if col !in data.columns then Err(KeyError)
    else if data.rows == [] then Err(ValueError)
    else Err(TypeError)
  }

  /** A column with one row, holding `5-3`, shows that the call always raises. */
  lemma AddDashedColsAsWrittenRaises()
    ensures AddDashedColsAsWritten("score", Csv(["score"], [[Value("5-3")]])) == Err(TypeError)
  {
  }

  /** `to_numpy(dtype=str)`: the text of a cell, NaN showing as `nan`. */
  function CellText(c: Cell): string {
    match c
    case Value(t) => t
    case Missing => "nan"
  }

  /** The texts of the column at position `k`, row by row. */
  function ColumnTexts(f: CsvFrame, k: nat): (texts: seq<string>)
    requires k < |f.columns|
    ensures |texts| == |f.rows| && forall i :: 0 <= i < |f.rows| ==> texts[i] == CellText(f.rows[i][k])
  {
    seq(|f.rows|, i requires 0 <= i < |f.rows| => CellText(f.rows[i][k]))
  }

  /** `string_splitter` over every text; the first failure raises. */
  function SplitAll(texts: seq<string>, comp: string, location: int): (r: Result<seq<Cell>>)
    ensures r.Ok? <==> forall i :: 0 <= i < |texts| ==> StringSplitter(texts[i], comp, location).Ok?
    ensures r.Err? ==> r.error == IndexError
    ensures r.Ok? ==> |r.value| == |texts|
    ensures r.Ok? ==> forall i :: 0 <= i < |texts| ==>
      r.value[i] == Value(StringSplitter(texts[i], comp, location).value)
    decreases |texts|
  {
    if texts == [] then Ok([])
    else
      var n := |texts| - 1;
      match SplitAll(texts[..n], comp, location)
      case Err(e) => Err(e)
      case Ok(cells) =>
        match StringSplitter(texts[n], comp, location)
        case Err(e) => Err(e)
        case Ok(piece) => Ok(cells + [Value(piece)])
  }

  /** `new_data[name] = values`: the column labelled `name` is overwritten where it stands,
      or a new one is added at the end. */
  function SetColumn(f: CsvFrame, name: string, values: seq<Cell>): (r: CsvFrame)
    requires |values| == |f.rows|
    ensures r.columns == if name in f.columns then f.columns else f.columns + [name]
    ensures |r.rows| == |f.rows|
  {
    if name in f.columns then
      var k := IndexOf(f.columns, name);
      Csv(f.columns, seq(|f.rows|, i requires 0 <= i < |f.rows| => f.rows[i][k := values[i]]))
    else
      Csv(f.columns + [name], seq(|f.rows|, i requires 0 <= i < |f.rows| => f.rows[i] + [values[i]]))
  }

  /** After the assignment the column holds the values, and every other label reads as
      before. */
  lemma SetColumnSpec(f: CsvFrame, name: string, values: seq<Cell>)
    requires |values| == |f.rows|
    ensures var r := SetColumn(f, name, values);
      && (forall i :: 0 <= i < |f.rows| ==> At(r, name, i) == Some(values[i]))
      && (forall x, i :: x != name && 0 <= i < |f.rows| ==> At(r, x, i) == At(f, x, i))
  {
    var r := SetColumn(f, name, values);
    if name !in f.columns {
      IndexOfAt(r.columns, name, |f.columns|);
      forall x | x in f.columns ensures IndexOf(r.columns, x) == IndexOf(f.columns, x) {
        IndexOfAt(r.columns, x, IndexOf(f.columns, x));
      }
    }
  }

  function FirstNumber(col: string): string { col + "first_number" }

  function SecondNumber(col: string): string { col + "second_number" }

  lemma NewNamesDiffer(col: string)
    ensures FirstNumber(col) != col && SecondNumber(col) != col && FirstNumber(col) != SecondNumber(col)
  {
    assert |FirstNumber(col)| != |SecondNumber(col)|;
  }

  /** `add_dashed_cols` as evidently intended: each text of `col` is split by
      `string_splitter(text, comp, 0)` and `string_splitter(text, comp, 1)` into the columns
      `col + 'first_number'` and `col + 'second_number'`, and `col` is dropped. A frame read
      by `pd.read_csv` has distinct labels. */
  function AddDashedCols(col: string, comp: string, data: CsvFrame): (r: Result<CsvFrame>)
    requires Distinct(data.columns)
    ensures col !in data.columns ==> r == Err(KeyError)
    ensures r.Err? && col in data.columns ==> r.error == IndexError
    ensures r.Ok? ==> |r.value.rows| == |data.rows|
  {
    if col !in data.columns then Err(KeyError)
    else
      var texts := ColumnTexts(data, IndexOf(data.columns, col));
      match SplitAll(texts, comp, 0)
      case Err(e) => Err(e)
      case Ok(firsts) =>
        match SplitAll(texts, comp, 1)
        case Err(e) => Err(e)
        case Ok(seconds) => Ok(DashedFrame(col, data, firsts, seconds))
  }

  /** The assignments of the two new columns, then `drop([col], axis=1)`. */
  function DashedFrame(col: string, data: CsvFrame, firsts: seq<Cell>, seconds: seq<Cell>): CsvFrame
    requires |firsts| == |data.rows| && |seconds| == |data.rows|
  {
    var withFirst := SetColumn(data, FirstNumber(col), firsts);
    DropColumns(SetColumn(withFirst, SecondNumber(col), seconds), [col])
  }

  /** `col` is gone, the new columns hold the pieces, and every other column is as it was. */
  lemma DashedFrameSpec(col: string, data: CsvFrame, firsts: seq<Cell>, seconds: seq<Cell>)
    requires |firsts| == |data.rows| && |seconds| == |data.rows|
    ensures var r := DashedFrame(col, data, firsts, seconds);
      && |r.rows| == |data.rows|
      && col !in r.columns
      && FirstNumber(col) in r.columns && SecondNumber(col) in r.columns
      && (forall i :: 0 <= i < |data.rows| ==>
        At(r, FirstNumber(col), i) == Some(firsts[i]) && At(r, SecondNumber(col), i) == Some(seconds[i]))
      && (forall x, i :: x != col && x != FirstNumber(col) && x != SecondNumber(col) && 0 <= i < |data.rows| ==>
        At(r, x, i) == At(data, x, i))
  {
    var withBoth := SetColumn(SetColumn(data, FirstNumber(col), firsts), SecondNumber(col), seconds);
    NewNamesDiffer(col);
    TwoColumnsSpec(data, FirstNumber(col), firsts, SecondNumber(col), seconds);
    DropOneSpec(withBoth, col);
  }

  /** After assigning two different labels, each holds its values and every other label
      reads as before. */
  lemma TwoColumnsSpec(f: CsvFrame, a: string, xs: seq<Cell>, b: string, ys: seq<Cell>)
    requires |xs| == |f.rows| && |ys| == |f.rows| && a != b
    ensures var r := SetColumn(SetColumn(f, a, xs), b, ys);
      && |r.rows| == |f.rows| && a in r.columns && b in r.columns
      && (forall i :: 0 <= i < |f.rows| ==> At(r, a, i) == Some(xs[i]) && At(r, b, i) == Some(ys[i]))
      && (forall x, i :: x != a && x != b && 0 <= i < |f.rows| ==> At(r, x, i) == At(f, x, i))
  {
    var g := SetColumn(f, a, xs);
    SetColumnSpec(f, a, xs);
    SetColumnSpec(g, b, ys);
  }

  /** Dropping one label removes it and keeps every other column with its cells. */
  lemma DropOneSpec(f: CsvFrame, col: string)
    ensures var r := DropColumns(f, [col]);
      && |r.rows| == |f.rows|
      && (forall x :: x in r.columns <==> x in f.columns && x != col)
      && (forall x, i :: x != col && 0 <= i < |f.rows| ==> At(r, x, i) == At(f, x, i))
  {
    DropColumnsSpec(f, [col]);
  }

  /** Every text is the sentinel or has a dash, so that it has a second piece. */
  predicate AllDashed(texts: seq<string>, comp: string) {
    forall i :: 0 <= i < |texts| ==> texts[i] == comp || '-' in texts[i]
  }

  /** The corrected helper succeeds exactly when every text of `col` is the sentinel or has
      a dash. */
  lemma AddDashedColsSucceeds(col: string, comp: string, data: CsvFrame)
    requires Distinct(data.columns) && col in data.columns
    ensures AddDashedCols(col, comp, data).Ok? <==>
      AllDashed(ColumnTexts(data, IndexOf(data.columns, col)), comp)
  {
    var texts := ColumnTexts(data, IndexOf(data.columns, col));
    forall i | 0 <= i < |texts|
      ensures StringSplitter(texts[i], comp, 0).Ok?
      ensures StringSplitter(texts[i], comp, 1).Ok? <==> texts[i] == comp || '-' in texts[i]
    {
      SplitterFirstSecond(texts[i], comp);
    }
    assert SplitAll(texts, comp, 0).Ok?;
  }

  /** When every text of `col` can be split, the call succeeds: `col` is gone, the two new
      columns hold the first and second pieces of each text, and every other column is as it
      was. */
  lemma AddDashedColsResult(col: string, comp: string, data: CsvFrame)
    requires Distinct(data.columns) && col in data.columns
    requires AllDashed(ColumnTexts(data, IndexOf(data.columns, col)), comp)
    ensures AddDashedCols(col, comp, data).Ok?
    ensures var texts := ColumnTexts(data, IndexOf(data.columns, col));
      var r := AddDashedCols(col, comp, data).value;
      && col !in r.columns
      && FirstNumber(col) in r.columns && SecondNumber(col) in r.columns
      && SplitAll(texts, comp, 0).Ok? && SplitAll(texts, comp, 1).Ok?
      && (forall i :: 0 <= i < |data.rows| ==>
        && At(r, FirstNumber(col), i) == Some(SplitAll(texts, comp, 0).value[i])
        && At(r, SecondNumber(col), i) == Some(SplitAll(texts, comp, 1).value[i]))
      && (forall x, i :: x != col && x != FirstNumber(col) && x != SecondNumber(col) && 0 <= i < |data.rows| ==>
        At(r, x, i) == At(data, x, i))
  {
    var texts := ColumnTexts(data, IndexOf(data.columns, col));
    AddDashedColsFrame(col, comp, data);
    var firsts := SplitAll(texts, comp, 0).value;
    var seconds := SplitAll(texts, comp, 1).value;
    DashedFrameSpec(col, data, firsts, seconds);
  }

  /** A successful call is the dashed frame of the two lists of pieces. */
  lemma AddDashedColsFrame(col: string, comp: string, data: CsvFrame)
    requires Distinct(data.columns) && col in data.columns
    requires AllDashed(ColumnTexts(data, IndexOf(data.columns, col)), comp)
    ensures AddDashedCols(col, comp, data).Ok?
    ensures var texts := ColumnTexts(data, IndexOf(data.columns, col));
      && SplitAll(texts, comp, 0).Ok? && SplitAll(texts, comp, 1).Ok?
      && |texts| == |data.rows|
      && AddDashedCols(col, comp, data).value
         == DashedFrame(col, data, SplitAll(texts, comp, 0).value, SplitAll(texts, comp, 1).value)
  {
    AddDashedColsSucceeds(col, comp, data);
  }

  // ---------------------------------------------------------------------------
  // rename_cols

  /** One member of a bracketed character class: a character or an inclusive range. */
  datatype ClassItem = Single(c: char) | Span(lo: char, hi: char)

  type CharClass = seq<ClassItem>

  predicate Covers(item: ClassItem, c: char) {
    match item
    case Single(d) => c == d
    case Span(lo, hi) => lo <= c <= hi
  }

  predicate InClass(cls: CharClass, c: char) {
    exists k :: 0 <= k < |cls| && Covers(cls[k], c)
  }

  /** The members between the brackets, read left to right as Python's `re` does: a `-`
      between two characters makes a range, a reversed range is an error. */
  function ParseItems(body: string): Option<CharClass>
    decreases |body|
  {
    if body == [] then Some([])
    else if |body| >= 3 && body[1] == '-' then
      if body[0] > body[2] then None
      else
        match ParseItems(body[3..])
        case None => None
        case Some(rest) => Some([Span(body[0], body[2])] + rest)
    else
      match ParseItems(body[1..])
      case None => None
      case Some(rest) => Some([Single(body[0])] + rest)
  }

  /** A pattern that is one bracketed class without negation, escapes or nested brackets;
      `None` for any other pattern. */
  function ParseClass(pattern: string): Option<CharClass> {
    if |pattern| >= 3 && pattern[0] == '[' && pattern[|pattern| - 1] == ']' then
      var body := pattern[1..|pattern| - 1];
      if body[0] == '^' || '[' in body || ']' in body || '\\' in body then None
      else ParseItems(body)
    else None
  }

  /** `re.sub(cls, ' ', name)`: every character of the class becomes a space. */
  function Blank(cls: CharClass, name: string): (r: string)
    ensures |r| == |name|
    ensures forall i :: 0 <= i < |name| ==> r[i] == if InClass(cls, name[i]) then ' ' else name[i]
  {
    seq(|name|, i requires 0 <= i < |name| => if InClass(cls, name[i]) then ' ' else name[i])
  }

  /** `'_'.join(re.sub(cls, ' ', name).split())`. */
  function RenameName(cls: CharClass, name: string): string {
    Join(Words(Blank(cls, name)), '_')
  }

  /** `rename_cols(cls, data)`: every label renamed where it stands, the rows untouched. */
  function RenameCols(cls: CharClass, data: CsvFrame): (r: CsvFrame)
    ensures r.rows == data.rows && |r.columns| == |data.columns|
    ensures forall k :: 0 <= k < |data.columns| ==> r.columns[k] == RenameName(cls, data.columns[k])
  {
    Csv(seq(|data.columns|, k requires 0 <= k < |data.columns| => RenameName(cls, data.columns[k])), data.rows)
  }

  /** A word free of whitespace and of the class's characters. */
  predicate Clean(cls: CharClass, w: string) {
    |w| > 0 && NoSpace(w) && forall j :: 0 <= j < |w| ==> !InClass(cls, w[j])
  }

  /** Every character of a word of `s` occurs in `s`. */
  lemma {:induction false} WordsFrom(s: string)
    ensures forall i, j :: 0 <= i < |Words(s)| && 0 <= j < |Words(s)[i]| ==> Words(s)[i][j] in s
    decreases |s|
  {
    if s != [] {
      if IsSpace(s[0]) {
        WordsFrom(s[1..]);
        assert forall c :: c in s[1..] ==> c in s;
      } else {
        var w := Token(s);
        var rest := s[|w|..];
        WordsFrom(rest);
        assert forall c :: c in rest ==> c in s;
        assert forall j :: 0 <= j < |w| ==> w[j] == s[j];
      }
    }
  }

  /** The words left after blanking are clean. */
  lemma BlankWords(cls: CharClass, name: string)
    ensures forall i :: 0 <= i < |Words(Blank(cls, name))| ==> Clean(cls, Words(Blank(cls, name))[i])
  {
    var b := Blank(cls, name);
    var ws := Words(b);
    WordsFrom(b);
    forall i, j | 0 <= i < |ws| && 0 <= j < |ws[i]| ensures !InClass(cls, ws[i][j]) {
      var c := ws[i][j];
      assert c in b;
      var p :| 0 <= p < |b| && b[p] == c;
      assert !IsSpace(c);
    }
  }

  lemma BlankConcat(cls: CharClass, a: string, b: string)
    ensures Blank(cls, a + b) == Blank(cls, a) + Blank(cls, b)
  {
    var l := Blank(cls, a + b);
    var r := Blank(cls, a) + Blank(cls, b);
    forall i | 0 <= i < |l| ensures l[i] == r[i] {
      if i < |a| {
        assert (a + b)[i] == a[i];
      } else {
        assert (a + b)[i] == b[i - |a|];
      }
    }
  }

  /** Blanking words joined by `sep` leaves the words and blanks only the separators that
      belong to the class. */
  lemma {:induction false} BlankJoin(cls: CharClass, ws: seq<string>, sep: char)
    requires forall i :: 0 <= i < |ws| ==> Clean(cls, ws[i])
    ensures Blank(cls, Join(ws, sep)) == Join(ws, if InClass(cls, sep) then ' ' else sep)
    decreases |ws|
  {
    if |ws| == 1 {
      assert Blank(cls, ws[0]) == ws[0];
    } else if |ws| > 1 {
      BlankJoin(cls, ws[1..], sep);
      BlankConcat(cls, ws[0] + [sep], Join(ws[1..], sep));
      BlankConcat(cls, ws[0], [sep]);
      assert Blank(cls, ws[0]) == ws[0];
    }
  }

  /** Words joined by a separator that is not whitespace hold no whitespace. */
  lemma {:induction false} JoinNoSpace(ws: seq<string>, sep: char)
    requires !IsSpace(sep)
    requires forall i :: 0 <= i < |ws| ==> |ws[i]| > 0 && NoSpace(ws[i])
    ensures NoSpace(Join(ws, sep))
    ensures |ws| > 0 ==> |Join(ws, sep)| > 0
    decreases |ws|
  {
    if |ws| > 1 {
      JoinNoSpace(ws[1..], sep);
      var rest := Join(ws[1..], sep);
      var s := ws[0] + [sep] + rest;
      forall i | 0 <= i < |s| ensures !IsSpace(s[i]) {
        if i < |ws[0]| {
          assert s[i] == ws[0][i];
        } else if i > |ws[0]| {
          assert s[i] == rest[i - |ws[0]| - 1];
        }
      }
    }
  }

  /** A renamed label holds no whitespace. */
  lemma RenameNameNoSpace(cls: CharClass, name: string)
    ensures NoSpace(RenameName(cls, name))
  {
    BlankWords(cls, name);
    JoinNoSpace(Words(Blank(cls, name)), '_');
  }

  /** When `_` is in the class, a renamed label never starts or ends with `_` and never has
      two in a row, and it keeps no character of the class but `_`. */
  lemma RenameNameShape(cls: CharClass, name: string)
    requires InClass(cls, '_')
    ensures var r := RenameName(cls, name);
      && NoSpace(r)
      && (|r| > 0 ==> r[0] != '_' && r[|r| - 1] != '_')
      && (forall i :: 0 <= i < |r| - 1 ==> !(r[i] == '_' && r[i + 1] == '_'))
  {
    var ws := Words(Blank(cls, name));
    BlankWords(cls, name);
    JoinShape(ws, '_');
  }

  /** Renaming a renamed label changes nothing. */
  lemma RenameNameIdempotent(cls: CharClass, name: string)
    ensures RenameName(cls, RenameName(cls, name)) == RenameName(cls, name)
  {
    var ws := Words(Blank(cls, name));
    var r := Join(ws, '_');
    BlankWords(cls, name);
    BlankJoin(cls, ws, '_');
    if InClass(cls, '_') {
      WordsOfSpaceJoin(ws);
    } else if ws != [] {
      JoinNoSpace(ws, '_');
      WordsOfToken(r);
    }
  }

  /** `rename_cols` applied twice is `rename_cols` applied once. */
  lemma RenameColsIdempotent(cls: CharClass, data: CsvFrame)
    ensures RenameCols(cls, RenameCols(cls, data)) == RenameCols(cls, data)
  {
    var once := RenameCols(cls, data);
    forall k | 0 <= k < |data.columns|
      ensures RenameName(cls, once.columns[k]) == once.columns[k]
    {
      RenameNameIdempotent(cls, data.columns[k]);
    }
  }

  // ---------------------------------------------------------------------------
  // drop_funcs

  /** `drop_funcs(cols, data)`: `drop(cols, axis=1)` raises `KeyError` unless every listed
      label exists; then `dropna()` keeps the rows with no NaN left in them. */
  function DropFuncs(cols: seq<string>, data: CsvFrame): (r: Result<CsvFrame>)
    ensures r.Err? <==> exists c :: c in cols && c !in data.columns
    ensures r.Err? ==> r.error == KeyError
    ensures r.Ok? ==> r.value.columns == DropColumns(data, cols).columns
    ensures r.Ok? ==> forall i :: 0 <= i < |r.value.rows| ==> Complete(r.value.rows[i])
  {
    if exists c :: c in cols && c !in data.columns then Err(KeyError)
    else
      var d := DropColumns(data, cols);
      var keep := Where(d.rows, Complete);
      var kept: CsvFrame := Csv(d.columns, Pick(d.rows, keep));
      Ok(kept)
  }

  /** The rows `drop_funcs` keeps are, in their original order, exactly the rows that have no
      NaN outside the dropped columns, each cut down to the surviving columns. */
  lemma DropFuncsRows(cols: seq<string>, data: CsvFrame)
    requires DropFuncs(cols, data).Ok?
    ensures var r := DropFuncs(cols, data).value;
      var cut := DropColumns(data, cols).rows;
      var keep := Where(cut, Complete);
      && |r.rows| == |keep|
      && (forall j :: 0 <= j < |keep| ==> r.rows[j] == cut[keep[j]])
      && (forall j, j' :: 0 <= j < j' < |keep| ==> keep[j] < keep[j'])
      && (forall i :: 0 <= i < |cut| && Complete(cut[i]) ==> i in keep)
  {
  }

  /** When nothing is missing and nothing is listed, `drop_funcs` returns its input. */
  lemma DropFuncsNothing(data: CsvFrame)
    requires forall i :: 0 <= i < |data.rows| ==> Complete(data.rows[i])
    ensures DropFuncs([], data) == Ok(data)
  {
    var d := DropColumns(data, []);
    var all := Where(data.columns, NotListed([]));
    assert |all| == |data.columns| && forall j :: 0 <= j < |all| ==> all[j] == j by {
      WhereAll(data.columns, NotListed([]));
    }
    assert d.columns == data.columns;
    forall i | 0 <= i < |data.rows| ensures d.rows[i] == data.rows[i] {
      assert |d.rows[i]| == |data.rows[i]|;
    }
    assert d.rows == data.rows;
    var keep := Where(d.rows, Complete);
    WhereAll(d.rows, Complete);
    assert Pick(d.rows, keep) == data.rows;
    var kept: CsvFrame := Csv(d.columns, Pick(d.rows, keep));
    assert kept == data;
    assert DropFuncs([], data) == Ok(kept);
  }

  /** When every element passes, every position is kept. */
  lemma {:induction false} WhereAll<T>(s: seq<T>, keep: T -> bool)
    requires forall k :: 0 <= k < |s| ==> keep(s[k])
    ensures |Where(s, keep)| == |s| && forall j :: 0 <= j < |s| ==> Where(s, keep)[j] == j
    decreases |s|
  {
    if s != [] {
      var n := |s| - 1;
      WhereAll(s[..n], keep);
    }
  }

  // ---------------------------------------------------------------------------
  // The script

  const ScriptPattern := "[()-_/:]"

  /** `[()-_/:]` as `re` reads it: `(`, the range from `)` to `_`, `/` and `:`. */
  const ScriptClass: CharClass := [Single('('), Span(')', '_'), Single('/'), Single(':')]

  lemma ScriptClassParsed()
    ensures ParseClass(ScriptPattern) == Some(ScriptClass)
  {
    var body := ScriptPattern[1..|ScriptPattern| - 1];
    assert body == "()-_/:";
    assert ParseItems(":") == Some([Single(':')]) by {
      assert ":"[1..] == [];
      assert ParseItems([]) == Some([]);
      assert [Single(':')] + [] == [Single(':')];
    }
    assert ParseItems("/:") == Some([Single('/'), Single(':')]) by {
      assert "/:"[1..] == ":";
      assert [Single('/')] + [Single(':')] == [Single('/'), Single(':')];
    }
    assert ParseItems(")-_/:") == Some([Span(')', '_'), Single('/'), Single(':')]) by {
      assert ")-_/:"[3..] == "/:";
      assert [Span(')', '_')] + [Single('/'), Single(':')] == [Span(')', '_'), Single('/'), Single(':')];
    }
    assert body[1..] == ")-_/:";
    assert [Single('(')] + [Span(')', '_'), Single('/'), Single(':')] == ScriptClass;
  }

  /** The class holds every character from `(` to `_`: all digits and upper-case letters among
      them, and no lower-case letter. */
  lemma ScriptClassMembers(c: char)
    ensures InClass(ScriptClass, c) <==> '(' <= c <= '_'
    ensures IsDigit(c) || IsUpper(c) ==> InClass(ScriptClass, c)
    ensures 'a' <= c <= 'z' ==> !InClass(ScriptClass, c)
  {
    if '(' <= c <= '_' {
      assert Covers(ScriptClass[1], c) || c == '(';
      if c == '(' {
        assert Covers(ScriptClass[0], c);
      }
    }
  }

  /** The script's renaming keeps no digit and no upper-case letter. */
  lemma ScriptRenameDropsDigitsAndCapitals(name: string)
    ensures var r := RenameName(ScriptClass, name);
      forall j :: 0 <= j < |r| ==> !IsDigit(r[j]) && !IsUpper(r[j])
  {
    var ws := Words(Blank(ScriptClass, name));
    BlankWords(ScriptClass, name);
    assert InClass(ScriptClass, '_') by {
      ScriptClassMembers('_');
    }
    BlankJoin(ScriptClass, ws, '_');
    var r := Join(ws, '_');
    forall j | 0 <= j < |r| ensures !IsDigit(r[j]) && !IsUpper(r[j]) {
      ScriptClassMembers(r[j]);
      assert Blank(ScriptClass, r)[j] == Join(ws, ' ')[j];
      if InClass(ScriptClass, r[j]) {
        assert r[j] == '_' by {
          JoinChar(ws, j);
        }
      }
    }
  }

  /** A character of joined clean words is a separator or a character of a word. */
  lemma JoinChar(ws: seq<string>, j: nat)
    requires j < |Join(ws, '_')|
    requires forall i :: 0 <= i < |ws| ==> Clean(ScriptClass, ws[i])
    ensures InClass(ScriptClass, Join(ws, '_')[j]) ==> Join(ws, '_')[j] == '_'
  {
    BlankJoin(ScriptClass, ws, '_');
    assert InClass(ScriptClass, '_') by {
      ScriptClassMembers('_');
    }
    var r := Join(ws, '_');
    var spaced := Join(ws, ' ');
    assert Blank(ScriptClass, r)[j] == spaced[j];
    if InClass(ScriptClass, r[j]) {
      assert spaced[j] == ' ';
      SpacedSeparators(ws, j);
    }
  }

  /** Joining clean words with a space and with `_` differs only at the separators. */
  lemma {:induction false} SpacedSeparators(ws: seq<string>, j: nat)
    requires j < |Join(ws, '_')|
    requires forall i :: 0 <= i < |ws| ==> Clean(ScriptClass, ws[i])
    ensures |Join(ws, ' ')| == |Join(ws, '_')|
    ensures Join(ws, ' ')[j] == ' ' ==> Join(ws, '_')[j] == '_'
    decreases |ws|
  {
    if |ws| == 1 {
      assert !IsSpace(ws[0][j]);
    } else if |ws| > 1 {
      var a := ws[0];
      if j < |a| {
        assert Join(ws, ' ')[j] == a[j] && Join(ws, '_')[j] == a[j];
        assert !IsSpace(a[j]);
      } else if j > |a| {
        var rest := Join(ws[1..], '_');
        assert Join(ws, '_') == a + ['_'] + rest;
        SpacedSeparatorsLength(ws[1..]);
        if j - |a| - 1 < |rest| {
          SpacedSeparators(ws[1..], j - |a| - 1);
        }
      }
      SpacedSeparatorsLength(ws);
    }
  }

  lemma {:induction false} SpacedSeparatorsLength(ws: seq<string>)
    ensures |Join(ws, ' ')| == |Join(ws, '_')|
    decreases |ws|
  {
    if |ws| > 1 {
      SpacedSeparatorsLength(ws[1..]);
    }
  }

  /** The index column `pd.read_csv` names `Unnamed: 0` becomes `nnamed`. */
  lemma UnnamedBecomesNnamed()
    ensures RenameName(ScriptClass, "Unnamed: 0") == "nnamed"
  {
    var b := Blank(ScriptClass, "Unnamed: 0");
    forall i | 0 <= i < 10 ensures b[i] == " nnamed   "[i] {
      ScriptClassMembers("Unnamed: 0"[i]);
    }
    assert b == " nnamed   ";
    assert b[1..] == "nnamed" + "   ";
    TokenOfPrefix("nnamed", "   ");
    assert Words(b) == Words("nnamed   ");
    assert ("nnamed   ")[6..] == "   ";
    assert "   "[1..] == "  " && "  "[1..] == " " && " "[1..] == "";
    assert Words("   ") == [];
  }

  /** Line 44: read the CSV, rename through `[()-_/:]`, then drop `nnamed`. */
  function CleanScript(data: CsvFrame): Result<CsvFrame> {
    DropFuncs(["nnamed"], RenameCols(ScriptClass, data))
  }

  /** Dropping one label succeeds exactly when the label exists, and removes it. */
  lemma DropFuncsOne(c: string, f: CsvFrame)
    ensures DropFuncs([c], f).Ok? <==> c in f.columns
    ensures DropFuncs([c], f).Ok? ==> c !in DropFuncs([c], f).value.columns
  {
    DropColumnsSpec(f, [c]);
  }

  /** The script succeeds exactly when some label renames to `nnamed`, as the index column
      does, and then no column named `nnamed` is left. */
  lemma CleanScriptSucceeds(data: CsvFrame)
    ensures CleanScript(data).Ok? <==>
      exists k :: 0 <= k < |data.columns| && RenameName(ScriptClass, data.columns[k]) == "nnamed"
    ensures "Unnamed: 0" in data.columns ==> CleanScript(data).Ok?
    ensures CleanScript(data).Ok? ==> "nnamed" !in CleanScript(data).value.columns
  {
    var renamed := RenameCols(ScriptClass, data);
    DropFuncsOne("nnamed", renamed);
    assert CleanScript(data).Ok? <==> "nnamed" in renamed.columns;
    if "nnamed" in renamed.columns {
      var k :| 0 <= k < |renamed.columns| && renamed.columns[k] == "nnamed";
      assert RenameName(ScriptClass, data.columns[k]) == "nnamed";
    }
    if exists k :: 0 <= k < |data.columns| && RenameName(ScriptClass, data.columns[k]) == "nnamed" {
      var k :| 0 <= k < |data.columns| && RenameName(ScriptClass, data.columns[k]) == "nnamed";
      assert renamed.columns[k] == "nnamed";
    }
    if "Unnamed: 0" in data.columns {
      var k :| 0 <= k < |data.columns| && data.columns[k] == "Unnamed: 0";
      UnnamedBecomesNnamed();
      assert renamed.columns[k] == "nnamed";
    }
  }
}
