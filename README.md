# Text-to-SQL evaluation and schema prompting, modelled in Dafny

The repository evaluates SQL generated from natural-language prompts. It
also generates that SQL with a language model, grounded in a description of
the database schema. Two pieces of real logic sit among the database and
model plumbing, and this project models both and proves what they promise.

**The scorer** (`evaluate_queries.py`), module `EvaluateQueries`:
- It reads a test file and an output file of `{NL, Query}` items and turns
  each into a prompt→query dict.
- It walks the test dict in insertion order and skips prompts the output dict
  lacks.
- For every other prompt it executes both queries. The pair then becomes
  exactly one of: an execution-error record, a match, or a mismatch record.
- Accuracy is `matches / total * 100`, or 0 when nothing was counted.
- Execution is a parameter `exec: string -> ExecOutcome<V>`: either all rows,
  or an error message. A row is a map from column name to a cell value of the
  abstract type `V`.

**The SQL agent** (`main_deepseek.py`), module `SqlAgent`:
- `_clean_sql` extracts SQL from a Markdown-fenced model answer. It is the
  function `CleanSql`, and the `CleanSql*` lemmas state what each of its
  branches returns, that a fenced answer's result holds no fence, and that
  cleaning is idempotent.
- The row loops of `_get_detailed_schema` fold the rows fetched by the
  enum, column and foreign-key queries into the schema record. The fetched
  rows are input sequences.
- `_format_schema_prompt` renders that record as the schema description.

Three support modules model the Python built-ins that this code relies on:
- `PyStr`: `in`, `find`, `split`, `join`, `strip` and the truthiness of an
  optional string.
- `PyDict`: an insertion-ordered `dict`. Assigning a new key appends it;
  assigning an existing key overwrites its value in place.
- `Seqs`: generic facts about slices.

`Wrappers` holds `Option`.

Every loop of the source that updates variables (the scoring loop, the
three schema loops and the prompt builder) is a method with a `for` loop.
The early-exit `zip` loop of `compare_query_results` is the recursive
function `RowsMatch`, and the two dict comprehensions are the function
`PromptMap`. Each method is proved equal to a specification function written
as a fold from the end, or, for `FoldRelationships`, stated element by
element; the lemmas state the properties of those functions:
- the scoring loop: `ScorePrompts` against `TallyOf` and `Counted`;
- the three schema loops: `FoldEnums` against `EnumsOf`, `FoldTables`
  against `TablesOf`, and `FoldRelationships` row by row;
- the prompt builder: `FormatSchemaPrompt` and its section methods against
  `RenderSchema`.

Some behaviour of the code is easy to misread:
- **Positional comparison.** `compare_query_results` compares row `i` with
  row `i` with `!=` on the two row objects. It does not sort rows and has no numeric or
  date tolerance. So the order of rows always matters (`RowOrderMatters`).
  The model treats a row as an unordered map from column name to value,
  so in the model the order of columns within a row plays no part.
- **Errors are tested by truthiness.** An execution failure whose message is
  the empty string is not truthy. It therefore falls through to the
  comparison, which rejects the missing result, and the pair becomes a
  mismatch record rather than an execution-error record. It is still exactly
  one record (`JudgeClassifies`).
- **`_clean_sql` with a "```sql" tag.** The result is the text from the
  first "```sql" to the first "```" inside the piece before the next
  "```sql" (`CleanSqlTagged`). That is not always the next "```" in the
  whole text: a backtick run that touches a later "```sql" tag cuts
  differently. For example, "```sqlA````sqlB" yields "A`".

## Model

| member | source | states |
|---|---|---|
| `EvaluateQueries.CompareQueryResults` | evaluate_queries.py:49-66 | Two results match exactly when both are present and are the same sequence of rows. |
| `EvaluateQueries.RowsMatch` | evaluate_queries.py:61-66 | The `zip` loop accepts exactly when the rows at every position of the shorter result are equal. |
| `EvaluateQueries.ComparisonLaws` | evaluate_queries.py:54-66 | A missing result never matches, not even a missing one. The comparison is reflexive and symmetric on results, and it is positional: equal length and row `i` equals row `i`. The empty result matches only the empty result. |
| `EvaluateQueries.RowOrderMatters` | evaluate_queries.py:61-66 | Two distinct rows match themselves in the same order but not when swapped. |
| `EvaluateQueries.JudgePair` | evaluate_queries.py:96-123 | Executing and classifying one pair: a match means both queries ran and returned equal rows, and when both ran, equal rows always match. A record names the pair's prompt and both queries, and it is an execution error exactly when either error message is truthy. The verdict is `Judge`'s, which the scoring loop is specified by. |
| `EvaluateQueries.JudgeClassifies` | evaluate_queries.py:99-123 | A match means both queries ran and returned equal rows. When both ran, equal rows always match. Every record names the pair's prompt and both queries. A record is an execution error exactly when either error message is truthy. |
| `EvaluateQueries.PromptMapLastWins` | evaluate_queries.py:85-86 | A prompt that no later item repeats is in the prompt dict with its own query, so a duplicated prompt keeps its last query. |
| `PyDict.FromPairsSemantics` | evaluate_queries.py:85-86 | A dict built from pairs has the distinct keys in first-occurrence order, and each key holds the value of its last pair. |
| `EvaluateQueries.Counted` | evaluate_queries.py:93-95 | The counted prompts are exactly the test prompts that the output dict has, no more of them than test prompts, and without repeats when the test prompts have none. |
| `EvaluateQueries.CountedInOrder` | evaluate_queries.py:93-95 | Skipping the prompts the output dict lacks keeps the test dict's order: the counted prompts come from the test prompts, ordered by their position there. |
| `EvaluateQueries.CountedIsShared` | evaluate_queries.py:93-95 | `total` equals the number of prompts the two dicts share. |
| `EvaluateQueries.TallyGrows` | evaluate_queries.py:103-123 | One more counted prompt leaves the records unchanged or appends exactly one record, and that record is about this prompt. |
| `EvaluateQueries.TallyBalance` | evaluate_queries.py:93-123 | Matches plus records equals the number of counted prompts: every counted pair is one match or one record, never both. |
| `EvaluateQueries.ErrorsFollowPromptOrder` | evaluate_queries.py:93-123 | Every record's prompt is a counted prompt, and the records follow the order of the counted prompts. |
| `EvaluateQueries.ScoreInvariants` | evaluate_queries.py:89-123 | Over whole dicts: the counted prompts number the shared prompts and keep the test dict's order, matches plus records equals their count, and every record's prompt is a test prompt, with the records in test-dict order. |
| `EvaluateQueries.ScorePrompts` | evaluate_queries.py:89-123 | The scoring loop ends with `total` equal to the number of counted prompts, and with the matches and records that `TallyOf` gives for them. |
| `EvaluateQueries.Accuracy` | evaluate_queries.py:126 | Accuracy is 0 when nothing was counted. Otherwise accuracy × total = matches × 100. It lies in [0, 100] when matches ≤ total, and it is 100 exactly when every counted pair matched. |
| `EvaluateQueries.EvaluateQueries` | evaluate_queries.py:69-128 | The total is the number of shared prompts. The matches and records are the tally of the counted prompts, matches plus records equals the total, and the records follow the test dict's order. The accuracy is `Accuracy(matches, total)` and lies in [0, 100]. |
| `EvaluateQueries.SummarizeEvaluation` | evaluate_queries.py:171-178 | The summary saves the evaluation's own values: the total is the number of shared prompts, the matches and records are the tally of the counted prompts in test-dict order, and the accuracy is `Accuracy(matches, total)`, in [0, 100] and 0 for an empty evaluation. The saved `mismatches = total - matches` equals the number of error records. |
| `PyStr.FindLeast` | main_deepseek.py:187-189 | `find` returns the first occurrence: none lies between the start and its result, and none at all when it finds nothing. |
| `PyStr.Split` | main_deepseek.py:188-190 | `split` yields at least one piece, and at least two exactly when the separator occurs. |
| `PyStr.SplitPiecesFree` | main_deepseek.py:188-190 | No piece of a split contains the separator. |
| `PyStr.SplitJoin` | main_deepseek.py:188-190 | Joining the pieces of a split with the separator gives back the original text. |
| `PyStr.SplitSecond` | main_deepseek.py:188-190 | The second piece runs from just after the first separator to the next separator, or to the end. |
| `PyStr.Strip` | main_deepseek.py:188-190 | The stripped text is a slice of the input with only whitespace outside it, and it neither begins nor ends with whitespace: exactly the input without its leading and trailing whitespace. Text already free of whitespace at both ends is unchanged. |
| `PyStr.StripContains` | main_deepseek.py:188-190 | Stripping cannot create an occurrence of a separator. |
| `SqlAgent.SqlFenceHasFence` | main_deepseek.py:187-189 | Text that contains "```sql" also contains "```". So text without "```" has no "```sql" either and reaches the final `return sql_str` unchanged (used by `CleanSqlUnfenced`). |
| `SqlAgent.CleanSqlTagged` | main_deepseek.py:187-188 | With a "```sql" tag, the result is the stripped text from just after the first tag up to the first "```" that lies before the next tag (or up to that tag, or to the end). |
| `SqlAgent.CleanSqlBare` | main_deepseek.py:189-190 | With only bare fences, the result is the stripped text between the first and second fence, or everything after a lone fence. |
| `SqlAgent.CleanSqlUnfenced` | main_deepseek.py:185-191 | Text without a fence comes back unchanged and unstripped. |
| `SqlAgent.CleanSqlFenceFree` | main_deepseek.py:187-190 | The result of either fenced branch contains no "```". |
| `SqlAgent.CleanSqlIdempotent` | main_deepseek.py:185-191 | Cleaning twice is the same as cleaning once. |
| `SqlAgent.FoldEnums` | main_deepseek.py:44-47 | The enum loop builds `EnumsOf(rows)`: each type's list is created when the type is first seen, and then every row appends its label. |
| `SqlAgent.EnumsGrouped` | main_deepseek.py:44-47 | The enum dict has exactly the type names of the rows, each once, in first-appearance order. Each type holds all of its labels, in row order. |
| `SqlAgent.EnumsKeys` | main_deepseek.py:44-46 | The enum types are exactly those in the rows, each listed once, in the order they first appear. |
| `SqlAgent.EnumsLabels` | main_deepseek.py:47 | Each type's list holds the labels of that type's rows, in row order. |
| `SqlAgent.ColumnInfo` | main_deepseek.py:74-83 | A column keeps the row's name, type and default. It is nullable exactly when `is_nullable` is "YES". It has at most one constraint: one exactly when the constraint field is truthy, and then that field's value. |
| `SqlAgent.Runs` | main_deepseek.py:67-72 | The column rows cut into runs: no more runs than rows, none only for no rows, and the last run belongs to the last row's table. |
| `SqlAgent.RunsFlatten` | main_deepseek.py:67-84 | The runs together hold the rows, in order, with none lost, added or moved. |
| `SqlAgent.RunsMaximal` | main_deepseek.py:67-72 | Each run is non-empty and holds rows of its own table only, and consecutive runs belong to different tables. |
| `SqlAgent.TableFromLastRun` | main_deepseek.py:67-84 | A table's column list is the columns of its last run only: a table name that comes back after another table starts over. |
| `SqlAgent.TablesContinue` | main_deepseek.py:68-84 | A row of the same table as the row before it appends its column to that table's list. |
| `SqlAgent.TablesRestart` | main_deepseek.py:68-84 | A row whose table differs from the previous row's resets that table's list to empty and then appends its column. |
| `SqlAgent.TablesInFirstAppearanceOrder` | main_deepseek.py:67-84 | The tables are exactly those named in the rows, each listed once, in first-appearance order. |
| `SqlAgent.FoldTables` | main_deepseek.py:67-84 | The table loop, with its `current_table` variable, builds `TablesOf(rows)`. |
| `SqlAgent.FoldRelationships` | main_deepseek.py:100-107 | Each foreign-key row yields exactly one relationship with the same five fields, in row order. |
| `SqlAgent.GetDetailedSchema` | main_deepseek.py:25-114 | The schema holds the folded enums and tables and one relationship per foreign-key row, in order. |
| `SqlAgent.FormatSchemaPrompt` | main_deepseek.py:116-150 | The prompt builder produces `RenderSchema(schema)`: header, enum section, tables heading, one block per table in dict order, then the relationship section. |
| `SqlAgent.EnumSectionOf` | main_deepseek.py:121-124 | The enum loop builds `EnumSection`: nothing for an empty dict, otherwise the heading followed by one `- type: labels` line per type, in dict order. |
| `SqlAgent.TableBlockOf` | main_deepseek.py:129-138 | The column loop builds `TableBlock`: the table's heading, then a line break and a description per column, in column order. |
| `SqlAgent.ColumnDescription` | main_deepseek.py:131-137 | The conditional appends build `ColumnLine`: the column's head, then NOT NULL, DEFAULT and constraint decorations, each only when its condition holds, in that order. |
| `SqlAgent.RelationshipSectionOf` | main_deepseek.py:141-148 | The relationship loop builds `RelationshipSection`: nothing for no relationships, otherwise the heading followed by one line per foreign key, in order. |
| `SqlAgent.PromptOpensWithHeader` | main_deepseek.py:118 | The description always begins with "Database Schema Description:\n". |
| `SqlAgent.EnumSectionShown` | main_deepseek.py:121-124 | The enum heading directly follows the header exactly when there are enumerated types. |
| `SqlAgent.TablesHeadingShown` | main_deepseek.py:127 | "\n\nTables:" always appears, directly after the enum section. |
| `SqlAgent.RelationshipSectionShown` | main_deepseek.py:141-148 | Text follows the table blocks exactly when there are relationships, and that text opens with the relationship heading. |
| `SqlAgent.NotNullShown` | main_deepseek.py:132-133 | " NOT NULL" follows a column's head exactly when the column is not nullable. |
| `SqlAgent.DefaultShown` | main_deepseek.py:134-135 | " DEFAULT " follows the NOT NULL part exactly when the default is a non-empty string. |
| `SqlAgent.ConstraintsShown` | main_deepseek.py:136-137 | Text follows the DEFAULT part exactly when there are constraints, and it is then a bracketed list: it opens with " [" and ends with "]". |
| `SqlAgent.EnumListed` | main_deepseek.py:123-124 | Every enumerated type's line appears in the description. |
| `SqlAgent.TableListed` | main_deepseek.py:128-129 | Every table's block appears in the description. |
| `SqlAgent.ColumnListed` | main_deepseek.py:130-138 | Every column's line, after its line break, appears in the description. |
| `SqlAgent.RelationshipListed` | main_deepseek.py:143-148 | Every foreign key's line appears in the description. |

## Left out

- Database access is not modelled. This covers `get_db_connection`, the body
  of `execute_query` (connect, autocommit, cursor, close), the connection
  handling of `_get_detailed_schema` and the introspection SQL. Execution is
  the parameter `exec`, and introspection results are the input row
  sequences.
- `exec` is a function, so the same query always gives the same outcome. A
  database that changes between the two executions of a pair is not
  modelled.
- The `try`/`except`/`finally` of `_get_detailed_schema` (main_deepseek.py:109-112)
  is not modelled. The model covers a run in which all three fetches
  succeed; a failure part-way, which leaves a partly filled schema, is not
  covered. Nor is a failing `psycopg2.connect`: it leaves `conn` unbound, so
  `conn.close()` in the `finally` clause (main_deepseek.py:112) raises
  instead of returning an empty schema.
- `str(e)` is not modelled: the error message is whatever `exec` returns.
- The language model calls are not modelled: `_query_llm` with its retry
  decorator, the Groq client, the prompts of `generate_sql` and
  `correct_sql` beyond `_clean_sql`, and the `total_tokens` counter. They are
  foreign calls and state fed by foreign responses.
- main.py is not part of this model. Its code is API and file glue around
  functions that are not shown.
- File and console I/O are not modelled: `json.load`/`json.dump`,
  `process_queries`, both `main` functions and all printing. The saved
  summary is modelled as the value `Summary`.
- `CustomEncoder` is not modelled. Decimal-to-float conversion and date
  formatting only affect how the report is presented.
- Accuracy is an exact real. Floating-point division and the `:.2f` display
  rounding are not modelled.
- Cell values are the abstract type `V` with equality. Python's
  cross-type equalities (`Decimal` vs `int`, dates) are whatever `V`'s
  equality is.
- Row equality as the database driver defines it is not modelled. Rows are
  unordered maps here, but the rows the dict cursor returns compare like
  ordered dicts. Two rows with the same columns in a different order
  (`SELECT a, b` against `SELECT b, a`) are therefore equal in the model,
  while the program records a mismatch for them.
- Python's non-reflexive NaN equality is not modelled either: `V`'s
  equality is reflexive. A result holding a NaN cell never matches itself
  in the program, but it does in the model (`ComparisonLaws`).
- Input items always carry both `NL` and `Query`. The `KeyError` that a
  malformed item raises is not modelled.
- The model takes the schema as a parameter. `self.schema`, which
  `__init__` sets once, is not modelled as object state.
