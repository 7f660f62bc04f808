# SoRer driver, modelled in Dafny

SoRer reads files in the SoR (schema-on-read) format into typed, columnar
data frames. Its `main` in `src/main.rs` coordinates the work. First it splits
the requested byte range into one chunk per worker thread. Then it merges the
workers' partial frames in spawn order. Last, it answers one command-line
query about the merged frame. This project models those three steps and the
driver that chains them:

- `chunk_planner.dfy` (module `ChunkPlanner`): the `work` planning loop. The
  file is a `seq<bv8>`. A seek to an offset followed by `read_until(b'\n')` is
  the pure function `ReadUntilNewline`. The loop is the method `PlanWork`,
  proved equal to the closed form `Plan`. The facts about the plan are lemmas
  about `Plan`.
- `column_merger.dfy` (module `ColumnMerger`): the merge loop over the joined
  results, as the method `Merge` with nested loops. It is proved against
  `MergedCells`: result column `c` is the concatenation, in thread order, of
  column `c` of each partial frame. A pair of columns with different type tags
  is the source's panic, modelled as the `TypeMismatch` result.
- `queries.dfy` (module `Queries`): `num_cols`, `num_lines` and the dispatch
  over `Options`, as the function `Answer`.
- `sor_types.dfy` (module `SorTypes`): `Column` has one variant per column
  type, each holding a sequence of optional values. `Data` is one value or
  `Null`. `DataFrame::init` is modelled as `Init`: one empty column per schema
  entry.
- `sorer.dfy` (module `Sorer`): `Run` chains planning, decoding, merging and
  querying with 8 threads. It is proved to give the reply `Expected`, which is
  stated on the merged cell sequences alone.

Inputs and outside collaborators are parameters:

- the file's bytes;
- `from` and `len`, as `u64` values;
- the schema (the result of `infer_schema`);
- the query;
- `DataFrame::from_file`, as a function `decode` from a schema and a chunk to
  a partial frame.

What the code does with chunk boundaries and the merge:

- Chunks are not disjoint. Chunk `i` starts at the raw offset `from + i*step`,
  which may be mid-line. Chunk `i-1` is extended past that offset by the
  scanned line *and one more byte* (`buffer.len() + 1`), so it ends one byte
  after the newline. Lines are kept whole only because the decoder drops the
  first line of a chunk that starts past offset 0, and the last line of every
  chunk (src/main.rs:42-45, 63-65); `SplitLineInPreviousChunk` states the
  extension exactly.
- The plan covers `[from, from + num_chars)` without a gap
  (`PlanCoversRange`), but its chunks may reach past that range and past the
  end of the file.
- A request of zero bytes does not give empty chunks. The step is 0, every
  chunk starts at `from`, and every chunk but the last spans the line at
  `from` plus one byte (`EmptyRequestPlan`). How many rows that yields depends
  on `from_file`, which is not part of this model.
- The merge pairs columns with `zip`, so it stops at the shorter of the result
  frame and the partial frame. A partial frame with fewer columns adds nothing
  to the remaining result columns. Extra partial columns are ignored.

## Model

| member | source | states |
|---|---|---|
| `ChunkPlanner.ReadUntilNewline` | src/main.rs:59-60 | the bytes read after a seek are a slice of the file starting at the offset: empty at or past the end, otherwise non-empty, newline-free except for a final newline, and ending at a newline or at the end of the file |
| `ChunkPlanner.NumChars` | src/main.rs:27-32 | the byte count is `len`, or with the `u64::MAX` sentinel the file size minus `from`, wrapping around modulo 2^64 when `from` is past the end |
| `ChunkPlanner.CeilDiv` | src/main.rs:34 | the step is the ceiling of the byte count over the thread count: `step*n >= num_chars` and `(step-1)*n < num_chars` |
| `ChunkPlanner.PlanWork` | src/main.rs:36-68 | the push-then-extend loop, with the buffer cleared each round, builds exactly the closed-form plan `Plan` for the computed step |
| `ChunkPlanner.PlanShape` | src/main.rs:46-61 | the plan has one chunk per thread, chunk 0 starts at `from`, and each later chunk starts `step` bytes after the previous one |
| `ChunkPlanner.StartsIncrease` | src/main.rs:48-61 | with a positive step, chunk starts are strictly increasing |
| `ChunkPlanner.ChunkLengths` | src/main.rs:46-66 | the last chunk spans exactly `step` bytes; every earlier chunk spans at least `step + 1` |
| `ChunkPlanner.SplitLineInPreviousChunk` | src/main.rs:55-67 | chunk `i-1` ends two bytes past the first newline at or after chunk `i`'s start, or one byte past the end of the file when no newline follows, so the line cut by chunk `i`'s start lies wholly in chunk `i-1` |
| `ChunkPlanner.PlanCovers` | src/main.rs:34-61 | when `step*n` is at least the byte count, every offset of `[from, from+num_chars)` lies in some chunk |
| `ChunkPlanner.PlanCoversRange` | src/main.rs:27-68 | the chunks planned for `(from, len)` leave no gap in the requested range |
| `ChunkPlanner.EmptyRequestPlan` | src/main.rs:27-66 | for a zero-byte request the step is 0, all chunks start at `from`, every chunk but the last spans the line at `from` plus one byte, and the last spans none |
| `SorTypes.Init` | src/main.rs:84 | the initial frame has one column per schema entry, of that entry's type, with no cells |
| `ColumnMerger.AppendColumn` | src/main.rs:91-96 | appending succeeds exactly when the two columns have the same type tag; the result keeps the tag and its cells are the first column's followed by the second's |
| `ColumnMerger.AppendPartial` | src/main.rs:89-97 | the inner loop over one partial frame stops exactly at a column whose type differs from the schema's and names it; otherwise every paired result column gains that partial column's cells and every unpaired one is unchanged |
| `ColumnMerger.Merge` | src/main.rs:84-99 | the merge fails exactly when some paired column disagrees with the schema's type, and names such a pair; on success there is one column per schema entry, of that type, holding the workers' cells concatenated in spawn order |
| `ColumnMerger.MergedCellsAppend` | src/main.rs:87-99 | merging two runs of partial frames one after the other equals merging their concatenation |
| `ColumnMerger.MergedCellsLength` | src/main.rs:87-99 | with well-formed partial frames, each merged column holds the sum of the workers' row counts |
| `ColumnMerger.WellFormedPartialsMerge` | src/main.rs:84-99 | well-formed partial frames never clash on a type, and every merged column then has the same length, the total row count |
| `Queries.Get` | src/main.rs:124 | `get(col, row)` yields the cell at that row of that column, and fails exactly when the row is beyond the column's length |
| `Queries.Answer` | src/main.rs:102-162 | `num_lines` is column 0's length (0 with no columns); cell queries report too few fields iff the column is out of range, then too few lines iff the row is at or past `num_lines`, and only then read the cell; a cell query yields the cell (or, for the missing-flag query, 1 iff the cell is `Null`) exactly when column, row count and column length all admit the row; the type query yields the type name exactly when the column is within the frame and the schema, checking only the column bound |
| `Queries.NoPanicOnWellFormed` | src/main.rs:102-162 | on a well-formed frame no query panics; an in-range cell query yields the cell or its missing flag, and an in-range type query yields the column's type name |
| `Sorer.Run` | src/main.rs:13-163 | the driver's reply equals the reply owed for the frames the workers return on the planned chunks, stated on the merged cell sequences |
| `Sorer.WellFormedRunNeverPanics` | src/main.rs:84-162 | when every worker returns a well-formed frame, the driver does not panic: the merge finds no type clash and every in-range row of the merged frame exists in every column |

## Left out

- Threads: `thread::spawn` and `join` are replaced by a sequence of worker results indexed by spawn position, which is the order the join loop consumes them in.
- File I/O: opening, `BufReader`, `seek`, `metadata` and the `unwrap()` failures on them are not modelled. The file is a byte sequence and its size is that sequence's length.
- `infer_schema`, `DataFrame::from_file`, the field and row parsers and the `dataframe`/`schema`/`parsers`/`reader` modules are not part of this model. The schema and the decoder are parameters. So the model does not show that every row of the range is decoded exactly once; it shows only how the chunks are laid out.
- `ChunkPlanner.CeilDiv`: computes the step exactly in integers. The source divides in `f64` and rounds up with `ceil`, which differs only for byte counts above 2^53.
- `ChunkPlanner.NumChars`: models the release-build wrap-around of `metadata.len() - from` when `from` is past the end of the file. In a debug build that subtraction panics instead.
- `ChunkPlanner.PlanWork`: offsets and lengths are unbounded integers. A `u64` overflow of `so_far` or of a chunk length is not modelled.
- `Queries.Get`: the body of `DataFrame::get` is not part of this model. It is taken to read the cell, and to fail (a `Panic` reply) when the row is past that column's end.
- `Queries.Answer`: the `Panic` reply also stands for indexing `schema[n]` past the schema's end, which cannot happen when the frame comes from `Init` and `Merge`.
- Printing: the `println!` text of each reply and the `Display` of a value are not modelled. A reply is a datatype, and a type name is the fixed upper-case string per type.
- Command-line parsing (the `clap` module) is not part of this model. The query is a datatype.
- Floats are `real` and integers are unbounded `int`. The widths of the columns' element types are not modelled.
