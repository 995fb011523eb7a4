# NFL game scraper: reshaping, collection loops and cleaning helpers

This project models the logic behind a small set of scripts that scrape American-football
game statistics. The scripts try consecutive numeric game ids, turn each game's page into
parsed HTML tables, and reshape the tables into one flat record per game. The records are
gathered into one frame, and a later helper cleans the CSV written from that frame.

Four collector scripts repeat the same reshaping code almost word for word:

- `src/data_collector.py` picks the summary and matchup tables by shape. It substitutes
  placeholders when a table is missing and always appends a `points` row.
- `data_collector.py` picks the tables by position. Its `main` walks 210 batches of ten ids
  from a start offset that grows by a larger step every batch.
- `nfl_game_data.py` picks the tables by position and adds no `points` row. Its `main` keeps a
  running, renumbered frame and the list of ids that hit.
- `nfl_game_data_collector.py` has a `GameData` worker object. Its `run` walks a range of ids
  and stores the first hit in its `game_df` field. A second hit raises `AttributeError`,
  because the concatenation reads `self.game_data`, which never exists (see "## Findings").

`src/nfl_data_clean.py` holds the cleaning helpers:

- splitting dashed cells;
- renaming columns through a regular-expression character class;
- dropping columns and incomplete rows.

It also has the one-line script that chains two of these helpers.

How each part is modelled:

- The shared reshaping lives in module `Reshape`, over a table and record model in `Frames`.
  Text helpers live in `Text`, which models Python's `str.lower`, `str.split(sep)`,
  `str.split()`, `'sep'.join` and `str(int)`.
- Each script has its own module: `SrcDataCollector`, `DataCollector`, `NflGameData`,
  `NflGameDataCollector` and `NflDataClean`.
- A pandas frame that is one game is a `Record`: an ordered list of (column, value) pairs. A
  column assignment keeps the column's first position and takes the newest value, as pandas
  does.
- A parsed HTML table is a `Table`: its column labels and rows of text cells.
- What a fetch returns is a `Reply`, one of three values:
  - `Frame(record)`: a record;
  - `EmptyFrame`: an empty frame instance;
  - `FrameClass`: the `pd.DataFrame` class itself, which some scripts return by mistake.
- Exceptions become `Result.Err` values that name the Python exception.

The network request and HTML parser are a parameter. It is a function from the address to the
parsed tables, or `None` when `requests.get` or `pd.read_html` raised. The per-id reply that
a loop sees is a parameter in the same way, a function from the id to its reply.

What the scripts do at their edges:

- None of the scripts detects a change in a page's layout, classifies fetch errors or
  guarantees that a task never raises. A failed request or parse becomes an empty frame, the
  `DataFrame` class or an escaping exception, depending on the script.
- `src/data_collector.py` returns an empty frame for a page without tables, but returns the
  `DataFrame` class when the first table is empty.
- In `nfl_game_data.py`, `temp_df` is bound by the first page, whatever that page returns.
  Only a run of zero pages would read it unbound (`NameError`); `main` always visits
  100000000 pages. With pages but no hit, the final `to_csv` is called on what the last page
  returned. `get_table_data` never returns the `DataFrame` class (a failed fetch gives an
  empty instance, nfl_game_data.py:55), so that is an empty frame. `NflGameData.ScanAllEnds`
  proves it for `main`; `NflGameData.ScanEnd` still covers the class for an arbitrary per-id
  reply.
- The `main` of `data_collector.py` calls `df.tail()` on every reply. When `get_data`
  returned the `DataFrame` class, that call raises `TypeError` before the final `pd.concat`
  is reached.
- `string_splitter` also returns `'0'` when the chosen piece is itself `'0'`. So `'0'` does
  not mean that `text == comp`.
- `not df.empty` holds of a frame with at least one row and at least one column. Every record
  frame has exactly one row, and it has columns because every assembly starts with the two
  team columns.

## Model

| member | source | states |
|---|---|---|
| Text.Lower | src/data_collector.py:47-48 | `str.lower` keeps the length |
| Text.LowerAt | src/data_collector.py:47-48 | `str.lower` maps each character through the lower-case table and leaves no upper-case letter |
| Text.LowerIdempotent | src/data_collector.py:47-48 | lower-casing a lower-cased stat name changes nothing |
| Text.Split | src/nfl_data_clean.py:10 | `text.split('-')` gives at least one piece |
| Text.SplitPiecesFree | src/nfl_data_clean.py:10 | no piece contains the separator |
| Text.JoinSplit | src/nfl_data_clean.py:10 | joining the pieces with the separator gives back the text (round trip) |
| Text.SplitCount | src/nfl_data_clean.py:10 | there is exactly one more piece than there are separators |
| Text.SplitWithoutSeparator | src/nfl_data_clean.py:10 | a text without the separator is its own single piece |
| Text.SplitLastPiece | src/data_collector.py:128 | the last piece is the suffix after the last separator, or the whole text |
| Text.NatText | data_collector.py:53 | a natural number is written as a nonempty string of decimal digits |
| Text.NatTextRoundTrip | data_collector.py:53 | reading back the decimal digits of `n` gives `n` |
| Text.IntTextRoundTrip | data_collector.py:53 | an integer's text parses back to the integer, with a `-` for a negative one |
| Text.IntTextInjective | data_collector.py:53 | distinct integers have distinct texts |
| Text.Token | src/nfl_data_clean.py:31 | the leading word is a prefix with no whitespace, and it ends at whitespace or at the end |
| Text.Words | src/nfl_data_clean.py:31 | `str.split()` gives only nonempty words without whitespace |
| Text.WordsOfToken | src/nfl_data_clean.py:31 | a nonempty word without whitespace splits into itself |
| Text.WordsOfSpaceJoin | src/nfl_data_clean.py:31 | splitting words that were joined with single spaces gives the words back |
| Text.WordsAfterWord | src/nfl_data_clean.py:31 | a word followed by a space and more text is the first word of the whole, and the rest are the words of the remainder |
| Text.TokenOfPrefix | src/nfl_data_clean.py:31 | a word followed by whitespace is read as exactly that word |
| Text.JoinShape | src/nfl_data_clean.py:31 | joining clean words with a non-space separator gives a nonempty text without whitespace and without leading, trailing or doubled separators |
| Frames.Keys | src/data_collector.py:39-48 | definition: the column labels of a record, in column order |
| Frames.GetPresent | src/data_collector.py:39-48 | a record has a value for a label exactly when the label is one of its columns |
| Frames.Assign | src/data_collector.py:41-48 | definition of `transformed_df[k] = [v]`, overwriting in place or appending; see Frames.AssignKeys and Frames.AssignGet |
| Frames.AssignKeys | src/data_collector.py:41-48 | assigning a column keeps the labels when it exists, and otherwise appends the label |
| Frames.AssignGet | src/data_collector.py:41-48 | after an assignment the column reads the new value, and every other column reads as before |
| Frames.AssignAllSpec | src/data_collector.py:39-48 | after a series of assignments the labels are the first occurrences in assignment order, with no repeats, and each holds the value assigned last |
| Frames.FirstOccurrencesMembers | src/data_collector.py:39-48 | the first occurrences have the same members as the assigned labels |
| Frames.FirstOccurrencesPrefix | src/data_collector.py:41-42 | assignments made after others never move the earlier columns |
| Frames.FirstOccurrencesDistinct | src/data_collector.py:39-48 | labels that never repeat keep their order |
| Frames.AssignAllDistinct | src/data_collector.py:39-48 | assignments of distinct labels build exactly the list of assignments |
| Frames.AssignFresh | src/data_collector.py:41-48 | assigning a new label appends it at the end |
| Frames.HitRecordsAppend | src/data_collector.py:143-145 | keeping the non-empty replies of two lists one after the other is keeping those of the joined list |
| Frames.Reply.IsHit | src/data_collector.py:144 | definition of `not df.empty`: a record frame with at least one column, never the empty instance or the class; see Frames.HitRecordsMembers |
| Frames.HitRecords | src/data_collector.py:143-145 | definition: the records of the hits, in order; see Frames.HitRecordsAppend and Frames.HitRecordsMembers |
| Frames.HitRecordsMembers | src/data_collector.py:143-145 | the kept records are exactly the records with at least one column among the replies, and there are no more of them than replies |
| Frames.HitIdsMembers | nfl_game_data.py:85-99 | an id is kept exactly when its reply is a hit, in both directions |
| Frames.HitIdsExactly | nfl_game_data.py:85-99 | when no id repeats, the id at position `p` is kept exactly when reply `p` is a hit |
| Frames.HitIdsSpec | nfl_game_data.py:85-99 | one id is kept per hit, every kept id was requested, and increasing ids stay increasing |
| Frames.FirstWhere | src/data_collector.py:75-77 | the earliest position that passes the test, with every earlier one failing, or none when all fail |
| Frames.FirstErrorAt | data_collector.py:109 | the position of the earliest call that raised, with all before it succeeding, or none |
| Frames.Values | data_collector.py:109 | definition: the replies of calls that all succeeded, in order |
| Frames.Concat | src/data_collector.py:148 | `pd.concat` of an empty list raises `ValueError`, and of any nonempty list succeeds |
| Frames.FlattenRecords | src/data_collector.py:148 | concatenating one-row frames lists their rows in order, each still labelled 0 |
| Frames.Range | data_collector.py:109 | definition: `range(lo, lo + n)` is `n` consecutive ids from `lo` |
| Frames.Renumber | src/data_collector.py:149 | definition: renumbering keeps the rows and labels them 0..n-1 |
| Reshape.MakeUrl | src/data_collector.py:53-57 | the address is the fixed matchup prefix followed by exactly the id text |
| Reshape.IdOfUrl | src/data_collector.py:53-57 | the id text is read back exactly when the address starts with the prefix |
| Reshape.MakeUrlRoundTrip | src/data_collector.py:53-57 | reading the id back from `make_url(id)` gives `id` |
| Reshape.GameUrlInjective | nfl_game_data_collector.py:54-59 | distinct integer ids give distinct addresses |
| Reshape.Column | src/data_collector.py:22-23 | definition: the values of column `j`, one per row, in row order |
| Reshape.TeamData | src/data_collector.py:17-24 | the teams are the first column and the points the last, each as long as the table; a table without columns raises `IndexError` |
| Reshape.StatNames | src/data_collector.py:46-48 | definition: the lower-cased stat name of each row |
| Reshape.StatOpsAt | src/data_collector.py:45-48 | row `i` assigns `away_`+lower(stat) to its second cell and then `home_`+lower(stat) to its third |
| Reshape.PivotOps | src/data_collector.py:41-48 | definition: the column assignments the function makes, in order; see Reshape.StatOpsAt and Reshape.PivotKeyAt |
| Reshape.Pivot | src/data_collector.py:39-50 | definition: `format_game_data_row` as a value; see Reshape.PivotSpec and Reshape.FormatGameDataRow |
| Reshape.FormatGameDataRow | src/data_collector.py:27-50 | the loop builds exactly the pivot of the table, and unpacking labels that are not three raises `ValueError` |
| Reshape.PivotSpec | src/data_collector.py:39-48 | `away_team` and `home_team` come first; every assigned column appears once, at its first position, and holds the value assigned to it last |
| Reshape.PivotColumns | src/data_collector.py:39-48 | the columns are the two team columns and `away_`/`home_` plus each lower-cased stat name, and no others |
| Reshape.StatKeys | src/data_collector.py:44-48 | a label is assigned by the stat rows exactly when it is `away_` or `home_` plus some row's lower-cased name |
| Reshape.PivotAwayPoints | src/data_collector.py:39-48 | the record has `away_points` exactly when some stat row is named `points` in some mix of cases |
| Reshape.AwayPointsRow | src/data_collector.py:45-47 | a stat row assigns `away_points` exactly when its lower-cased name is `points` |
| Reshape.PivotLastRow | src/data_collector.py:45-48 | the last row's values are the ones its two columns end with |
| Reshape.PivotTeams | src/data_collector.py:40-42 | when no stat row is named `team`, the team columns hold the second and third column labels |
| Reshape.RowLabelsNotTeam | src/data_collector.py:46-48 | a stat row whose lower-cased name is not `team` assigns neither `away_team` nor `home_team` |
| Reshape.PivotWithoutRepeats | src/data_collector.py:39-48 | with distinct stat names, none of them `team`, the record is exactly the assignments in order |
| Reshape.PivotKeyAt | src/data_collector.py:39-48 | assignment `p` sets the team column of its side for `p < 2`, and otherwise its side plus the stat name of row `(p - 2) / 2` |
| Reshape.PivotLabelsDistinct | src/data_collector.py:39-48 | with distinct stat names, none of them `team`, no two assigned labels coincide |
| Reshape.PositionalAssembly | data_collector.py:69-83 | the positional assembly succeeds exactly when there are two tables, the first has a column and two rows, and the second has three columns |
| Reshape.PositionalTable | data_collector.py:69-81 | the table that is pivoted has three columns, and its pivot is the assembly's result |
| Reshape.PositionalRecord | data_collector.py:69-83 | the matchup labels are the first label and the two teams; the `points` row of the scores follows the matchup rows when there is one; the record starts with the team columns and holds the scores as `away_points`/`home_points` |
| Reshape.PointsColumns | src/data_collector.py:116-117 | the `points` row pivots into `away_points` and `home_points` |
| SrcDataCollector.FirstOfShape | src/data_collector.py:75-77 | the earliest table of the requested shape, with no earlier table of that shape, or none |
| SrcDataCollector.Placeholder | src/data_collector.py:78-81 | the fallback is an empty 0×0 frame for the summary shape and an empty 0×3 frame otherwise |
| SrcDataCollector.SelectTable | src/data_collector.py:69-81 | `get_df` gives the earliest table of the shape, or the placeholder when no table has it |
| SrcDataCollector.GetDf | src/data_collector.py:69-81 | the loop with an early return gives exactly that table |
| SrcDataCollector.TeamsAndPoints | src/data_collector.py:104-108 | two teams and two scores, from the summary or `NA`/`-1` |
| SrcDataCollector.ShapedTable | src/data_collector.py:111-118 | the table that is pivoted always has three columns |
| SrcDataCollector.ShapedRecord | src/data_collector.py:103-120 | definition: the pivot of the shaped table; see SrcDataCollector.ShapedRecordPoints and SrcDataCollector.ShapedTableSpec |
| SrcDataCollector.GetData | src/data_collector.py:84-120 | a failed fetch or a page without tables gives an empty frame; an empty first table gives the `DataFrame` class; otherwise the shaped record |
| SrcDataCollector.ShapedTableSpec | src/data_collector.py:103-118 | labels `game_stat` and the teams (`NA`, `NA` without a summary); the matchup rows, then `points` with the scores (`-1`, `-1` without a summary) |
| SrcDataCollector.ShapedRecordPoints | src/data_collector.py:111-120 | every record starts with the team columns and has `away_points` and `home_points`, holding the summary's scores or `-1` |
| SrcDataCollector.ShapedRecordWithoutSummary | src/data_collector.py:104-106 | without a summary table both teams are `NA`, unless a stat row named `team` overwrites them |
| SrcDataCollector.ShapedTeamsFree | src/data_collector.py:104-106 | without a summary table the pivoted table is labelled `NA` twice, and none of its rows is named `team` unless a matchup row is |
| SrcDataCollector.ShapedRecordWithoutMatchup | src/data_collector.py:111-120 | without a matchup table the record is exactly the two teams and the two scores |
| SrcDataCollector.PivotPointsOnly | src/data_collector.py:116-120 | a table that is only the `points` row pivots into four columns |
| SrcDataCollector.LastSegment | src/data_collector.py:128 | the id is the suffix after the last `/`, contains no `/`, and is the whole argument when there is no `/` |
| SrcDataCollector.RequestUrl | src/data_collector.py:128 | definition: `make_url(game_url.split('/')[-1])`; see SrcDataCollector.RunUsesLastSegment |
| SrcDataCollector.RunUsesLastSegment | src/data_collector.py:128 | whatever comes before the last `/`, `run` fetches the address of the id after it |
| SrcDataCollector.RunAll | src/data_collector.py:143 | definition: `p.map(run, game_urls)` gives one reply per address, in input order |
| SrcDataCollector.MainRunner | src/data_collector.py:137-149 | the empty replies are filtered out, the hits are kept in input order and labelled 0..k-1, and with no hit `pd.concat` raises `ValueError` |
| SrcDataCollector.CollectStep | src/data_collector.py:143-145 | one more reply adds its frame exactly when it is not empty |
| SrcDataCollector.MainRunnerRows | src/data_collector.py:143-149 | every final row is the record of one of the addresses, and there are no more rows than addresses |
| DataCollector.RunId | data_collector.py:86-93 | definition: `get_data(make_url(value))`; see DataCollector.GetData and DataCollector.GetDataPoints |
| DataCollector.RunOf | data_collector.py:86-93 | definition: `run` as a function of the id; see DataCollector.CollectorMain |
| DataCollector.GetData | data_collector.py:56-83 | a failed fetch returns the `DataFrame` class; otherwise the positional assembly with `game_stat` and the `points` row, whose failures escape |
| DataCollector.GetDataPoints | data_collector.py:69-83 | a successful reply starts with the team columns and has `away_points`/`home_points` equal to the summary's last column |
| DataCollector.TriClosedForm | data_collector.py:103-107 | the sum of the steps 0 + 1 + … + n is n(n+1)/2 |
| DataCollector.BatchStartClosedForm | data_collector.py:98-107 | batch `i` begins at 401220225 + 100000·i(i+1)/2 |
| DataCollector.BatchIds | data_collector.py:109 | definition: every batch asks for the ten consecutive ids from its start |
| DataCollector.AllIdsIncreasing | data_collector.py:103-109 | the 210 batches ask for ten ids each, all strictly increasing, so no id is asked twice |
| DataCollector.BatchReplies | data_collector.py:109 | definition: the replies of one batch: reply `j` is `run` of the id `j` places after the batch start |
| DataCollector.Failures | data_collector.py:103-114 | definition: how each batch stops `main`, batch by batch |
| DataCollector.BatchFailure | data_collector.py:109-114 | definition: the first exception of `p.map`, else `TypeError` when a reply is the class; see DataCollector.RunBatch and DataCollector.LogTails |
| DataCollector.FirstFailingBatch | data_collector.py:103-114 | definition: the first of the batches to fail; see DataCollector.FailingBatch, DataCollector.NoFailingBatch and DataCollector.RunMain |
| DataCollector.FirstFailure | data_collector.py:103-114 | the earliest batch that stops `main`, with none before it |
| DataCollector.FirstFailureAt | data_collector.py:103-114 | a failure with none before it is the earliest |
| DataCollector.BatchStartNext | data_collector.py:107 | each start is the previous start plus `i * count` |
| DataCollector.LogTails | data_collector.py:109-114 | logging `df.tail()` raises `TypeError` exactly when some reply is the `DataFrame` class |
| DataCollector.RunBatch | data_collector.py:106-114 | one batch asks for its ten ids and ends as the batch's failure says: the first exception of `p.map`, or `TypeError` from `df.tail()` on the class |
| DataCollector.RunMain | data_collector.py:96-117 | `main` never succeeds: the earliest failing batch stops it after asking for all ids up to it, or all 210 batches pass and `pd.concat` raises `ValueError` on the list nothing appends to |
| DataCollector.CollectorMain | data_collector.py:96-117 | the same for the collector's own `run` |
| DataCollector.FailingBatch | data_collector.py:103-114 | a failing batch with none failing before it is the earliest |
| DataCollector.PassingBatch | data_collector.py:103-114 | a passing batch extends the passing prefix |
| DataCollector.NoFailingBatch | data_collector.py:103-117 | when all batches pass there is no failing batch |
| NflGameData.GetTableData | nfl_game_data.py:45-65 | a failed fetch gives an empty frame and never the class; otherwise the positional assembly with `matchup` and no `points` row, whose failures escape |
| NflGameData.TableDataPoints | nfl_game_data.py:62-65 | a record has `away_points` exactly when a stat row is named `points` in some mix of cases |
| NflGameData.PagesOf | nfl_game_data.py:83-86 | definition: `get_table_data(page_name + str(current_page))` for each id; see NflGameData.PagesOfUrl |
| NflGameData.PagesOfUrl | nfl_game_data.py:83-86 | each page is fetched from the matchup address of its id, and distinct ids have distinct addresses |
| NflGameData.PageResults | nfl_game_data.py:82-86 | definition: the reply of each page `first + page`, in page order |
| NflGameData.Collected | nfl_game_data.py:93-97 | definition: the hits as rows, labelled 0..k-1 |
| NflGameData.ScanPages | nfl_game_data.py:76-101 | the loop stops at the first page that raises, after asking for every id up to it, or asks for all pages and ends as `ScanEnd` says: the hits labelled 0..k-1 with the ids that hit, `NameError` with no page, `TypeError` when nothing hit and the last reply was the class |
| NflGameData.HitStep | nfl_game_data.py:85-99 | one more page joins its reply to the hits and its id to the hit list exactly when it is a hit, and the renumbered concatenation is the collected frame |
| NflGameData.ScanEnd | nfl_game_data.py:85-101 | definition of how the loop ends when no page raised; see NflGameData.ScanEndHits and NflGameData.ScanAllEnds |
| NflGameData.ScanResult | nfl_game_data.py:80-101 | after the loop, the result is `ScanEnd` of the replies: the collected hits once one hit, `NameError` when no page ran, `TypeError` when the last reply was the class, and otherwise the empty frame the last page returned |
| NflGameData.PageHitIds | nfl_game_data.py:85-99 | over consecutive page ids, the id of page `p` is in the hit list exactly when page `p` hit |
| NflGameData.ScanEndHits | nfl_game_data.py:85-99 | after a normal end the frame holds exactly the hits in page order, one row per hit id, labelled 0..k-1, and the hit ids increase within the requested range, and an id is in the list exactly when its page hit |
| NflGameData.ScanAll | nfl_game_data.py:68-101 | `main` is the loop over 100000000 pages from 320905019 |
| NflGameData.ScanAllEnds | nfl_game_data.py:51-55 | the pages of `main` never return the class, so when no page raised, `main` ends with a frame |
| NflGameDataCollector.RangeResults | nfl_game_data_collector.py:103-105 | definition: the replies of ids `starting_point` to `starting_point + count - 1`, in order, and none when `count` is not positive |
| NflGameDataCollector.AfterReply | nfl_game_data_collector.py:105-113 | definition of one iteration of `run` as written; see NflGameDataCollector.AsWritten |
| NflGameDataCollector.AsWrittenStops | nfl_game_data_collector.py:103-113 | once `run` has raised, later ids change nothing |
| NflGameDataCollector.AsWritten | nfl_game_data_collector.py:102-113 | definition of how `run` as written ends and what it keeps; see NflGameDataCollector.AsWrittenStops, NflGameDataCollector.AsWrittenSucceeds and NflGameDataCollector.SecondHitRaises |
| NflGameDataCollector.AsWrittenSucceeds | nfl_game_data_collector.py:107-113 | `run` as written completes exactly when no call raised and at most one id hit, and then `game_df` is that hit |
| NflGameDataCollector.SecondHitRaises | nfl_game_data_collector.py:107-108 | a second hit raises `AttributeError` even when no call failed, and the first hit stays in `game_df` |
| NflGameDataCollector.Kept | nfl_game_data_collector.py:107-113 | after the corrected loop, `game_df` holds every hit in id order, still labelled 0, or the initial frame when nothing hit |
| NflGameDataCollector.KeptAll | nfl_game_data_collector.py:107-113 | the corrected loop keeps exactly the records with at least one column among the replies, no more rows than ids |
| NflGameDataCollector.KeptStep | nfl_game_data_collector.py:107-113 | one more reply appends its row exactly when it is a hit |
| NflGameDataCollector.GameData.constructor | nfl_game_data_collector.py:12-17 | the fields hold the arguments, and `game_df` starts as an empty frame |
| NflGameDataCollector.GameData.GetGameDf | nfl_game_data_collector.py:89-94 | returns `game_df` and changes nothing |
| NflGameDataCollector.GameData.Run | nfl_game_data_collector.py:96-116 | `run` as written: the fields other than `game_df` are untouched, the result is how `run` ends, and `game_df` is the first hit or what it was |
| NflGameDataCollector.GameData.RunFixed | nfl_game_data_collector.py:96-116 | the corrected `run`: stops at the first call that raises, and `game_df` holds every hit before that point (or all hits) appended in id order |
| NflDataClean.IndexOf | src/nfl_data_clean.py:17 | the position of the first column with that label |
| NflDataClean.Where | src/nfl_data_clean.py:39 | the positions that pass, increasing, and every passing position among them |
| NflDataClean.Pick | src/nfl_data_clean.py:38-39 | definition: the elements at the given positions, in that order |
| NflDataClean.DropColumns | src/nfl_data_clean.py:38 | definition: `drop(cols, axis=1)` keeps the other labels in order and cuts each row to them |
| NflDataClean.DropColumnsSpec | src/nfl_data_clean.py:38 | exactly the unlisted labels remain, and each keeps its cells |
| NflDataClean.PyIndex | src/nfl_data_clean.py:10 | Python indexing: valid exactly for `-n <= location < n`, counting from the end for a negative location |
| NflDataClean.StringSplitter | src/nfl_data_clean.py:6-10 | the sentinel text gives `'0'`; otherwise the chosen `-`-piece, which has no dash, or `IndexError` |
| NflDataClean.SplitterPieces | src/nfl_data_clean.py:6-10 | apart from the sentinel, the calls succeed exactly for `-n <= location < n` with n one more than the dashes, and the pieces joined with `-` give the text back |
| NflDataClean.SplitterWithoutDash | src/nfl_data_clean.py:10 | a text without a dash is returned whole at location 0 and -1, and location 1 raises `IndexError` |
| NflDataClean.SplitterFirstSecond | src/nfl_data_clean.py:18-19 | location 0 always succeeds, and location 1 succeeds exactly for the sentinel or a text with a dash |
| NflDataClean.AddDashedColsAsWritten | src/nfl_data_clean.py:13-25 | as written it never succeeds: a missing column raises `KeyError`, no rows raise `ValueError`, any row raises `TypeError` |
| NflDataClean.AddDashedColsAsWrittenRaises | src/nfl_data_clean.py:18 | on a frame with the one cell `5-3` it raises `TypeError` |
| NflDataClean.ColumnTexts | src/nfl_data_clean.py:17 | definition: `data[col].to_numpy(dtype=str)`: the text of each cell of the column, `nan` for a missing one |
| NflDataClean.SplitAll | src/nfl_data_clean.py:18-19 | splitting every text succeeds exactly when each call does, and gives each call's piece |
| NflDataClean.SetColumn | src/nfl_data_clean.py:22-23 | assigning a column overwrites it in place or appends it |
| NflDataClean.SetColumnSpec | src/nfl_data_clean.py:22-23 | after the assignment the column holds the values, and every other label reads as before |
| NflDataClean.NewNamesDiffer | src/nfl_data_clean.py:15 | the two new labels differ from each other and from `col` |
| NflDataClean.AddDashedCols | src/nfl_data_clean.py:13-25 | corrected helper: a missing column raises `KeyError`, a text without a second piece raises `IndexError`, and success keeps the row count |
| NflDataClean.DashedFrame | src/nfl_data_clean.py:21-25 | definition: the two column assignments and the drop; see NflDataClean.DashedFrameSpec |
| NflDataClean.DashedFrameSpec | src/nfl_data_clean.py:21-25 | `col` is gone, the two new columns hold the pieces, and every other column is as it was |
| NflDataClean.TwoColumnsSpec | src/nfl_data_clean.py:22-23 | after assigning two different labels, each holds its values and every other label reads as before |
| NflDataClean.DropOneSpec | src/nfl_data_clean.py:25 | dropping one label removes it and keeps every other column with its cells |
| NflDataClean.AddDashedColsSucceeds | src/nfl_data_clean.py:18-19 | the corrected helper succeeds exactly when every text of `col` is the sentinel or has a dash |
| NflDataClean.AddDashedColsResult | src/nfl_data_clean.py:15-25 | when every text of `col` can be split the call succeeds, `col` is gone, the new columns hold the pieces `string_splitter` gives at positions 0 and 1 of each text (the results of both `SplitAll` calls), and every other column is as it was |
| NflDataClean.Blank | src/nfl_data_clean.py:31 | definition: `re.sub(cls, ' ', name)` turns exactly the class's characters into spaces and keeps the length |
| NflDataClean.RenameCols | src/nfl_data_clean.py:28-32 | definition: the rows are untouched, and each label is renamed where it stands, keeping the count and order |
| NflDataClean.WordsFrom | src/nfl_data_clean.py:31 | every character of a word occurs in the text it was split from |
| NflDataClean.BlankWords | src/nfl_data_clean.py:31 | the words left after blanking hold no character of the class |
| NflDataClean.BlankConcat | src/nfl_data_clean.py:31 | blanking works character by character |
| NflDataClean.BlankJoin | src/nfl_data_clean.py:31 | blanking clean words joined by a separator blanks only the separators |
| NflDataClean.JoinNoSpace | src/nfl_data_clean.py:31 | clean words joined by a non-space separator hold no whitespace |
| NflDataClean.RenameNameNoSpace | src/nfl_data_clean.py:31 | a renamed label holds no whitespace |
| NflDataClean.RenameName | src/nfl_data_clean.py:31 | definition: `'_'.join(re.sub(regex_str, ' ', name).split())`; see NflDataClean.RenameNameShape and NflDataClean.RenameNameIdempotent |
| NflDataClean.RenameNameShape | src/nfl_data_clean.py:31 | with `_` in the class, a renamed label has no whitespace and no leading, trailing or doubled `_` |
| NflDataClean.RenameNameIdempotent | src/nfl_data_clean.py:31 | renaming a renamed label changes nothing |
| NflDataClean.RenameColsIdempotent | src/nfl_data_clean.py:28-32 | renaming a renamed frame with the same class changes nothing |
| NflDataClean.DropFuncs | src/nfl_data_clean.py:35-40 | `KeyError` exactly when a listed label is absent; otherwise the remaining columns, and only rows with no missing value |
| NflDataClean.DropFuncsRows | src/nfl_data_clean.py:38-39 | the kept rows are exactly the complete rows, in their original order, cut to the remaining columns |
| NflDataClean.DropFuncsNothing | src/nfl_data_clean.py:35-40 | with nothing listed and nothing missing the frame comes back unchanged |
| NflDataClean.WhereAll | src/nfl_data_clean.py:39 | when every element passes, every position is kept |
| NflDataClean.ParseClass | src/nfl_data_clean.py:31 | definition: `re`'s reading of one bracketed character class; see NflDataClean.ScriptClassParsed |
| NflDataClean.ScriptClassParsed | src/nfl_data_clean.py:44 | `[()-_/:]` reads as `(`, the range `)`..`_`, `/` and `:` |
| NflDataClean.ScriptClassMembers | src/nfl_data_clean.py:44 | the class is exactly the characters from `(` to `_`: all digits and capitals, and no lower-case letter |
| NflDataClean.ScriptRenameDropsDigitsAndCapitals | src/nfl_data_clean.py:44 | the script's renaming leaves no digit and no capital letter |
| NflDataClean.JoinChar | src/nfl_data_clean.py:44 | the only class character in a renamed label is `_` |
| NflDataClean.SpacedSeparators | src/nfl_data_clean.py:31 | joining with a space and with `_` give texts of one length, with a `_` wherever the first has a space |
| NflDataClean.SpacedSeparatorsLength | src/nfl_data_clean.py:31 | the joins with a space and with `_` have the same length |
| NflDataClean.UnnamedBecomesNnamed | src/nfl_data_clean.py:44 | the index column `Unnamed: 0` renames to `nnamed` |
| NflDataClean.DropFuncsOne | src/nfl_data_clean.py:38 | dropping one label succeeds exactly when it exists, and removes it |
| NflDataClean.CleanScript | src/nfl_data_clean.py:44 | definition: `drop_funcs(['nnamed'], rename_cols('[()-_/:]', data))`; see NflDataClean.CleanScriptSucceeds |
| NflDataClean.CleanScriptSucceeds | src/nfl_data_clean.py:44 | the script succeeds exactly when some label renames to `nnamed`, which a frame with `Unnamed: 0` always has, and then no `nnamed` column is left |

## Left out

- `requests.get` and `pd.read_html` are network I/O and a foreign HTML parser. They are the
  `Fetch` parameter, so the model does not say which pages exist or what they hold.
- `multiprocessing.Pool` and `Process` are concurrency and are not modelled.
  - `p.map` is modelled as the sequential map it returns.
  - When several calls raise, the model reports the earliest. The pool may report another.
  - `GameData` runs in the caller's process. That its `game_df` lives in a child process
    is not modelled.
- The `random.randrange`/`time.sleep` jitter in `run` only affects timing. It is left out.
- Logging is not modelled: `cfb_log.info`, `logger.info`, `print`, the `i % 10` progress
  message, and `handle_error`'s log line, whose returned empty frame is modelled.
- File I/O is left out:
  - `to_csv`, `os.getcwd` and `Path`. The frame that would be written is the model's
    result.
  - `pd.read_csv`. The frame it would read is the input of `CleanScript`.
- `Text.Lower` maps only ASCII capitals, because Python's full Unicode case table is not
  modelled. `Text.IsSpace` is the whitespace set of `str.split()` up to U+00A0. Wider Unicode
  spaces are not modelled.
- `pd.concat` over frames with different columns fills the gaps with NaN. Records are kept
  whole, and no column union or NaN filling is modelled.
- Cells are strings. The numpy dtype coercion that turns scores into text is taken as given.
  `df.shape`, `.empty` and the NaN test of `dropna` are read from that string model.
- `pd.np` and `DataFrame.append` are pandas 1.x APIs, modelled as they behaved then. Later
  pandas versions no longer have them.
- `cfb_gui.py`, `src/cfb_gui.py`, `multiprocessing_tests.py`, `src/multiprocessing_tests.py`
  and `log_cfb.py` are not part of this model. They are a GUI, toy demos and logger setup.
- NflDataClean.ParseClass: reads only a single bracketed class without negation, escapes or
  nested brackets, which is the one pattern used. Other patterns give `None`.
- NflDataClean.AddDashedCols: requires distinct column labels, as `pd.read_csv` produces. It
  takes the sentinel `comp` as a parameter, which the as-written version never passes.
  Unlike the as-written version, it does not model `np.vectorize` refusing an empty column.
- NflGameDataCollector.GameData.Run: the reply for each id is the `run` parameter.
  `DataCollector.RunOf` builds it from `get_data(make_url(i))`. `GameData.get_data` repeats
  that function apart from a logging call inside the `try` block, which cannot raise, and
  `GameData` calls its static copies through `self`.

## Findings

| source | as written | input that shows it | evidently intended | confidence | as-written member | corrected member |
|---|---|---|---|---|---|---|
| src/nfl_data_clean.py:18-19 | `np.vectorize(string_splitter)(temp_data, 0)` passes two arguments to the three-parameter `string_splitter`, so `add_dashed_cols` raises on any frame with rows | `add_dashed_cols('score', frame with column score = ['5-3'])` raises `TypeError` | each text is split into its first and second `-`-piece, in two new columns, and `col` is dropped | not executed | NflDataClean.AddDashedColsAsWritten (with NflDataClean.AddDashedColsAsWrittenRaises) | NflDataClean.AddDashedCols (with NflDataClean.AddDashedColsResult) |
| nfl_game_data_collector.py:107-108 | the second hit concatenates `self.game_data`, an attribute that never exists, so `run` raises `AttributeError` | a range with two ids whose pages both parse into games | every hit is appended to `self.game_df` | not executed | NflGameDataCollector.GameData.Run (with NflGameDataCollector.SecondHitRaises) | NflGameDataCollector.GameData.RunFixed (with NflGameDataCollector.KeptAll) |
