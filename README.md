# Sql_auto string and list core, in Dafny

Sql_auto turns English questions into SQL. Around its trained model sit a number
of small deterministic transformations, and this project models them and proves
what they do:

- **Rule-based generator** (`SqlGenerator`, `vercel-deploy/api/sql.py`).
  `generate_sql_simple` reads a table name from an optional `CREATE TABLE` prefix
  and the question after `Question:`. The first rule of a fixed keyword cascade
  that fires on the question picks one templated `SELECT`.
- **Prompt normaliser** (`PromptInput`, `app.py`). `parse_input` puts a default
  one-table schema in front of input that lacks either `CREATE TABLE` (in any
  case) or `Question:` (exactly).
- **CSV query cleaner and describer** (`CsvExtract`, `scripts/extract_from_csv.py`).
  - `simplify_query` collapses whitespace, masks word-bounded `p<digits>`
    parameters and masks `collection<digits>_` prefixes.
  - `generate_natural_language` describes a query with one of five sentences.
- **WikiSQL validation** (`WikiSqlValidation`, `examples/wikisql_validation.py`).
  - The per-column cleaning and type mapping.
  - The `CREATE TABLE ...);Question: ...` prompt.
  - The `strip().lower()` exact match and the loop that counts matches.
- **Training-set builder** (`DatasetBuilder`, `src/dataset_builder.py`). The
  class `SqlDatasetBuilder` has a mutable `examples` list, which two methods
  replace:
  - `create_training_example` replaces it with the 41 seed pairs.
  - `spider_dataset` replaces it with a loaded list cut by Python slicing.

  `prepare_dataset` masks padding in the labels with -100.

`PyStr` models the Python `str` built-ins these use, on `seq<char>`:
- `isspace` and the regex `\s`;
- `lower` and `upper`;
- `strip`;
- `in` and `find`;
- `split(sep, 1)[-1]`, `split(sep)[0]` and `split()[0]`;
- `join`.

`Wrappers` holds `Option` and `Result`.

Behaviours of the code that the model keeps as written:

- The generator's schema test is case-insensitive (`'create table' in
  text_lower`), but the split that follows is case-sensitive
  (`text.split('CREATE TABLE', 1)`). For a lower-case schema the split therefore
  keeps the whole text, and the table is the first word of that text before any
  `(`.
- The question test is case-insensitive, but the split is on `Question:` only.
  A text with only a lower-case `question:` gives the whole text, stripped and
  lower-cased.
  - `ExtractTable` and `ExtractQuestion` state both cases.
- `parse_input` tests `Question:` case-sensitively.
  `PromptInput.LowerCaseMarkerIsWrapped` exhibits an input this affects.
- In `spider_dataset`, a negative `max_examples` is truthy, and Python's
  `xs[:n]` then drops `|n|` elements from the end. `PyPrefix` models that
  slice.
- `app.py:213` advertises a multi-layer SQL normaliser, but none of the modelled
  files contains one. The only prediction/reference comparison in them is
  `strip().lower()` equality, and that is what `ExactMatch` models.

## Model

| member | source | states |
|---|---|---|
| `PromptInput.HasSchemaAndQuestion` | app.py:26 | A prompt passes only if it holds `Question:` exactly. Every prompt that holds `CREATE TABLE` in upper or lower case and `Question:` passes. |
| `PromptInput.Wrap` | app.py:29-31 | The default schema and ` Question: ` in front of any text give a prompt that passes the test and ends with that text. |
| `PromptInput.ParseInput` | app.py:19-31 | The result always passes the schema-and-question test and ends with the user's text. It equals the input exactly when the input already passes the test; otherwise it is the default schema, ` Question: ` and the input. |
| `PromptInput.ParseInputIdempotent` | app.py:19-31 | Normalising a normalised prompt changes nothing. |
| `PromptInput.LowerCaseMarkerIsWrapped` | app.py:26 | A schema followed by a lower-case `question:` still gets the default schema in front. |
| `SqlGenerator.ExtractTable` | vercel-deploy/api/sql.py:248-254 | Table defaults to `table` when the lower-cased text has no `create table`. It fails (IndexError) exactly when the schema head is blank. Otherwise the name is a non-empty word with no space and no `(`, the first whitespace-delimited word of the stripped head. |
| `SqlGenerator.HeadToken` | vercel-deploy/api/sql.py:253-254 | The first token of the schema head is a prefix of it, ends at a space or at the end, and holds no `(`. |
| `SqlGenerator.ExtractQuestion` | vercel-deploy/api/sql.py:257-260 | The question has no upper-case letter. It is the stripped text after the first `Question:` when the lower-cased text has `question:`, and the whole lower-cased text otherwise. |
| `SqlGenerator.FirstFiring` | vercel-deploy/api/sql.py:263-335 | The index of the first rule of the cascade whose keywords occur. No rule before it fires. |
| `SqlGenerator.Classify` | vercel-deploy/api/sql.py:263-335 | The list branch is taken exactly when `all`, `list`, `show` or `what are` occurs. The default branch is taken exactly when no rule's keywords occur. |
| `SqlGenerator.TriggersSpelledOut` | vercel-deploy/api/sql.py:263-328 | Each rule of the trigger table fires exactly when one of the keywords its `elif` tests occurs. |
| `SqlGenerator.ClassifyIsFirstFiring` | vercel-deploy/api/sql.py:263-335 | The `if`/`elif` cascade takes the branch of the first firing rule, or the default when none fires. |
| `SqlGenerator.FirstNumber` | vercel-deploy/api/sql.py:288 | `re.findall(r'\d+', q)[0]`: absent exactly when there is no digit. Otherwise a non-empty run of digits that starts at the first digit and is maximal. |
| `SqlGenerator.ComparedValue` | vercel-deploy/api/sql.py:288-289 | The compared value is always a non-empty digit string: `100` when the question has no digit, else the first maximal digit run. |
| `SqlGenerator.FirstQuoted` | vercel-deploy/api/sql.py:313-314 | Absent exactly when the question has fewer than two quotes. Otherwise it is the quote-free text between the first quote and the next one. |
| `SqlGenerator.GreaterColumn` | vercel-deploy/api/sql.py:291-297 | The "greater than" column is `salary` whenever the question names it, else `price`, else `amount`, and `value` exactly when it names none of the three. A named column always occurs in the question. |
| `SqlGenerator.LessColumn` | vercel-deploy/api/sql.py:304-308 | The "less than" column is `salary` whenever the question names it, else `price`, and `value` exactly when it names neither. It is never `amount`. |
| `SqlGenerator.EqualCondition` | vercel-deploy/api/sql.py:313-319 | The condition is the `column = 'value'` placeholder exactly when the question has no quoted text or names neither a department nor a category. Otherwise it ends with ` = '<first quoted text>'`. |
| `SqlGenerator.QuotedCondition` | vercel-deploy/api/sql.py:315-318 | The quoted condition is on `department` when the question names one, else on `category`, and compares that column with the first quoted text. |
| `SqlGenerator.GroupColumn` | vercel-deploy/api/sql.py:322-326 | The grouping column is `department` whenever the question names it, else `category`, and `column` exactly when it names neither. |
| `SqlGenerator.Direction` | vercel-deploy/api/sql.py:329-331 | The order is `DESC` exactly when the question says `desc`, `highest` or `largest`, and `ASC` otherwise. |
| `SqlGenerator.Template` | vercel-deploy/api/sql.py:263-335 | Every template has a column list. It has no clause exactly on the list, count, sum, average and default branches. It starts ` WHERE ` exactly on the two comparison branches and the equality branch, ` GROUP BY ` exactly on the group branch, and ` ORDER BY ` exactly on the order branch. |
| `SqlGenerator.Render` | vercel-deploy/api/sql.py:265-335 | Every statement starts `SELECT ` and has ` FROM <table>` right after its column list. |
| `SqlGenerator.GenerateSqlSimple` | vercel-deploy/api/sql.py:246-335 | Raises exactly when the table extraction does. Otherwise it returns a `SELECT` statement that contains ` FROM ` and the extracted table. |
| `SqlGenerator.SchemaHead` | vercel-deploy/api/sql.py:253 | The text the table name is read from is stripped and no longer than the input. |
| `SqlGenerator.SchemaHeadAvoidsParen` | vercel-deploy/api/sql.py:253 | It is read before the first `(`, so it holds no `(`. |
| `SqlGenerator.AggregateTemplates` | vercel-deploy/api/sql.py:268-283 | Counting gives `COUNT(*)` with no clause. Summing gives `SUM(amount)` when `amount` occurs, else `SUM(salary)` when `salary` occurs, else `SUM(*)`. Averaging gives `AVG(salary)`, else `AVG(price)`, else `AVG(*)`. Grouping uses the grouping column. The default is `*` with no clause. |
| `SqlGenerator.DefaultStatement` | vercel-deploy/api/sql.py:333-335 | When the table extraction succeeds and no rule fires, the result is exactly `SELECT * FROM <table>`. |
| `SqlGenerator.RenderAllColumns` | vercel-deploy/api/sql.py:291-335 | Every all-columns branch renders as `SELECT * FROM <table>` followed by its clause, if any. |
| `SqlGenerator.ListWordsDominate` | vercel-deploy/api/sql.py:263-266 | A question with `all`, `list`, `show` or `what are` gives `SELECT name` or `SELECT *` whatever else it asks for. |
| `SqlGenerator.ComparisonIsNumeric` | vercel-deploy/api/sql.py:285-308 | A comparison is `* WHERE <column> <op> <value>`. The value is the compared value: the first digit run, or `100`. The op is ` > ` exactly on the "greater than" branch. The column is `salary` exactly when named, `price` exactly when named without `salary`, `amount` only on the "greater than" branch and only without the other two, else `value`. |
| `SqlGenerator.EqualityLiteral` | vercel-deploy/api/sql.py:310-319 | The equality branch is `* WHERE <condition>` with the condition `EqualCondition` builds. It departs from `column = 'value'` exactly when the question quotes something and names a department or a category. The statement then ends with that quoted text as a literal. |
| `SqlGenerator.OrderTemplate` | vercel-deploy/api/sql.py:328-331 | The order branch is exactly `SELECT * FROM <table> ORDER BY column <direction>`. |
| `SqlGenerator.OrderDirection` | vercel-deploy/api/sql.py:328-331 | An ordered statement ends in ` DESC` exactly when the question says `desc`, `highest` or `largest`. Otherwise it ends in ` ASC`. |
| `SqlGenerator.FormInputRoundTrip` | vercel-deploy/api/sql.py:190 | For the web form's `schema ; Question: question` text, the table is the declared name and the question is the typed one, stripped and lower-cased. The answer is the template for that question on that table. |
| `SqlGenerator.TableOfFormInput` | vercel-deploy/api/sql.py:252-254 | The form's text yields the name its schema declares. |
| `SqlGenerator.TableAfterCreate` | vercel-deploy/api/sql.py:251-254 | Text that opens with `CREATE TABLE <name> ` names the table `<name>`, whatever follows, when the name is one token without `(`. |
| `SqlGenerator.QuestionOfFormInput` | vercel-deploy/api/sql.py:257-258 | The form's text yields the typed question, stripped and lower-cased. |
| `SqlGenerator.NoMarkerBefore` | vercel-deploy/api/sql.py:258 | No `Question:` starts before the one the form adds. |
| `CsvExtract.CollapseSpaces` | scripts/extract_from_csv.py:11 | Collapsing is never longer than its input and is empty only for empty input. |
| `CsvExtract.CollapseEnds` | scripts/extract_from_csv.py:11 | The first and last characters are kept, or become one space when they are whitespace. |
| `CsvExtract.CollapseSingleSpaced` | scripts/extract_from_csv.py:11 | Every whitespace character left is a plain space with no whitespace after it. |
| `CsvExtract.CollapseSeparator` | scripts/extract_from_csv.py:11 | A whitespace run between a non-space and a non-space (or the end) becomes exactly one space: `x + w + y` collapses to `x` collapsed, one space, `y` collapsed. |
| `CsvExtract.CollapseConcat` | scripts/extract_from_csv.py:11 | Collapsing distributes over a cut right after a non-space character. |
| `CsvExtract.CollapseKeepsNonSpaces` | scripts/extract_from_csv.py:11 | Collapsing whitespace keeps every other character, in order. |
| `CsvExtract.CollapseFixesSingleSpaced` | scripts/extract_from_csv.py:11 | Already single-spaced text is returned unchanged. |
| `CsvExtract.MatchEnd` | scripts/extract_from_csv.py:13-15 | A reported match is a match of the pattern and spans at least two word characters. |
| `CsvExtract.MatchEndExactly` | scripts/extract_from_csv.py:13-15 | A match is reported ending at `j` exactly when the pattern matches `s[i..j]`. `\bp\d+\b` matches a `p` at a word start, one or more digits and a word end. `collection\d+_` matches `collection`, one or more digits and `_`. |
| `CsvExtract.EmbeddedParamKept` | scripts/extract_from_csv.py:13 | A `p` right after a word character, as in `top10`, never starts a parameter. |
| `CsvExtract.ParamNeedsEndBoundary` | scripts/extract_from_csv.py:13 | A `p` whose digits run into a letter or `_`, as in `p1x`, is not a parameter. |
| `CsvExtract.Substitute` | scripts/extract_from_csv.py:13-15 | A substitution is never longer than its input and is empty only for empty input. |
| `CsvExtract.SubstituteEnds` | scripts/extract_from_csv.py:13-15 | The first and last characters are whitespace exactly when the input's are. |
| `CsvExtract.SubstituteSplice` | scripts/extract_from_csv.py:13-15 | With the first match at or after `from` at `s[i..j]`, the result is `s[from..i]`, then `?`, then the substitution of the rest from `j`. |
| `CsvExtract.SubstituteWithoutMatch` | scripts/extract_from_csv.py:13-15 | Where the pattern matches nowhere, the text is unchanged. |
| `CsvExtract.SubstituteKeepsSpacing` | scripts/extract_from_csv.py:11-15 | Masking single-spaced text leaves it single-spaced. |
| `CsvExtract.MaskingKeepsShape` | scripts/extract_from_csv.py:11-15 | Masking stripped, single-spaced text keeps it stripped and single-spaced, and empty exactly when it was. |
| `CsvExtract.MaskParamExample` | scripts/extract_from_csv.py:13 | `id = p1` becomes `id = ?`. |
| `CsvExtract.KeepEmbeddedExample` | scripts/extract_from_csv.py:13 | `top10` and `p1x` are left unchanged. |
| `CsvExtract.MaskCollectionExample` | scripts/extract_from_csv.py:15 | `collection12_users` becomes `?users`. |
| `CsvExtract.SimplifyQuery` | scripts/extract_from_csv.py:8-16 | The result is never longer than the query and is empty exactly for whitespace-only input. It has no leading or trailing whitespace, and every internal whitespace run is one space. |
| `CsvExtract.SimplifyWithoutMatches` | scripts/extract_from_csv.py:8-16 | A query with nothing to mask is only stripped and re-spaced. |
| `CsvExtract.CaptureAt` | scripts/extract_from_csv.py:24 | A match of `from\s+([\w.]+)` at a position has `from` there and whitespace after it. Its group is a maximal non-empty run of word characters and dots. |
| `CsvExtract.CaptureAtComplete` | scripts/extract_from_csv.py:24 | Conversely, `from`, then whitespace, then a word character or dot is a match, and its group starts right after the whitespace. |
| `CsvExtract.FirstCapture` | scripts/extract_from_csv.py:24 | `re.search` finds the leftmost match, with no match before it. It finds none only when no position matches. |
| `CsvExtract.FromTable` | scripts/extract_from_csv.py:24-26 | A name is found exactly when the search finds a match, and it is that match's group. It is non-empty, made of word characters and dots, and only found when the text contains `from`. |
| `CsvExtract.FromLowerHasNoUpper` | scripts/extract_from_csv.py:20-24 | The name captured from the lower-cased query has no upper-case letter. |
| `CsvExtract.CaptureExample` | scripts/extract_from_csv.py:24 | In `select * from users` the first match is the `from` at index 9, and its group is `users`. |
| `CsvExtract.DescribeExample` | scripts/extract_from_csv.py:23-41 | `select * from users` names the table `users` and is described as `Get all from users`. |
| `CsvExtract.GenerateNaturalLanguage` | scripts/extract_from_csv.py:18-43 | Without a table capture the sentence is `Execute SQL query`. With one, the maximum sentence is given exactly for `select max`. The left-join sentence is given exactly for `select a from` with `left join` and no `select max`. The conditions sentence is given exactly for `select` with `where` when neither earlier test holds. `Get all from` is given exactly for `select` when none of the three holds. |
| `CsvExtract.Describe` | scripts/extract_from_csv.py:20-43 | The description is `Execute SQL query`, or one of the four templates around the captured table name. |
| `CsvExtract.DescriptionIgnoresCase` | scripts/extract_from_csv.py:20 | The description depends only on the lower-cased query. |
| `CsvExtract.FallbackExactly` | scripts/extract_from_csv.py:23-43 | The fallback sentence is given exactly when the query has no `select` or no `from <name>` capture. |
| `CsvExtract.MaximumComesFirst` | scripts/extract_from_csv.py:23-26 | A `select max` query with a table capture is described as a maximum, whatever else it holds. |
| `WikiSqlValidation.ReplaceChar` | examples/wikisql_validation.py:41 | `str.replace` of one character keeps the length and replaces exactly the occurrences. |
| `WikiSqlValidation.CleanColumn` | examples/wikisql_validation.py:41 | A cleaned name has the original length and no space or `/`. Those become `_`, and every other character is unchanged. |
| `WikiSqlValidation.CleanColumnIdempotent` | examples/wikisql_validation.py:41 | Cleaning a clean name changes nothing. |
| `WikiSqlValidation.SqlType` | examples/wikisql_validation.py:42 | The type is `REAL` exactly when the dataset type is `real`, and `TEXT` otherwise. |
| `WikiSqlValidation.ColumnDefs` | examples/wikisql_validation.py:40-43 | There is one definition per pair of `zip(headers, types)`: as many as the shorter list, in header order. |
| `WikiSqlValidation.BuildColumnDefs` | examples/wikisql_validation.py:39-43 | The loop builds exactly those definitions, each `clean_col sql_type`. |
| `WikiSqlValidation.ColumnDef` | examples/wikisql_validation.py:40-42 | A definition is the cleaned column, with no space or `/` left in it, then one space, then the SQL type. It is five characters longer than the column. |
| `WikiSqlValidation.PromptHead` | examples/wikisql_validation.py:43-44 | The statement, with the `);` that closes it, is `CREATE TABLE `, the table name, one space, the column definitions joined by `, `, then `);`. |
| `WikiSqlValidation.Prompt` | examples/wikisql_validation.py:44-45 | A validation prompt starts with the statement and ends with the question, with exactly ten characters between them. |
| `WikiSqlValidation.PromptJoin` | examples/wikisql_validation.py:44 | The statement and the question are joined by exactly `);Question: `. |
| `WikiSqlValidation.PromptHasNoOpenParen` | examples/wikisql_validation.py:40-44 | When the table name, the headers and the question have no `(`, neither does the prompt: the only parenthesis is the closing one. |
| `WikiSqlValidation.PromptPassesParseInput` | examples/wikisql_validation.py:44-45 | A validation prompt opens with `CREATE TABLE` and holds `Question:`, so the app's `parse_input` leaves it unchanged. |
| `WikiSqlValidation.PromptNamesTable` | examples/wikisql_validation.py:43-44 | For a one-token table name without `(`, the app's generator reads that name back from the prompt. |
| `WikiSqlValidation.ExactMatch` | examples/wikisql_validation.py:52 | Predictions equal after stripping always match, and matching ones have stripped forms of equal length. |
| `WikiSqlValidation.ExactMatchIsEquivalence` | examples/wikisql_validation.py:52 | Exact match is reflexive, symmetric and transitive. |
| `WikiSqlValidation.ExactMatchIgnoresPadding` | examples/wikisql_validation.py:52 | Whitespace around a prediction never changes whether it matches. |
| `WikiSqlValidation.ExactMatchIgnoresCase` | examples/wikisql_validation.py:52 | Upper- or lower-casing a prediction never changes whether it matches. |
| `WikiSqlValidation.MatchCount` | examples/wikisql_validation.py:52-53 | The number of exact matches never exceeds the number of examples. |
| `WikiSqlValidation.AllMatch` | examples/wikisql_validation.py:52-53 | The count equals the number of examples exactly when every prediction matches. |
| `WikiSqlValidation.CountExactMatches` | examples/wikisql_validation.py:32-53 | The loop's `exact_match` starts at 0 and ends as the number of examples whose prediction matches, at most the number of examples. |
| `DatasetBuilder.Inputs` | src/dataset_builder.py:207 | There is one input per example: the `input` of each, in order. |
| `DatasetBuilder.Outputs` | src/dataset_builder.py:214 | There is one output per example: the `output` of each, in order. |
| `DatasetBuilder.MaskRow` | src/dataset_builder.py:221 | A masked row has the row's length. Pad ids become -100 and every other id is unchanged. |
| `DatasetBuilder.MaskRemovesPadding` | src/dataset_builder.py:221 | With a pad id other than -100, no pad id is left. A position is -100 exactly when it was the pad id or already -100. |
| `DatasetBuilder.MaskIdempotent` | src/dataset_builder.py:221 | Masking a masked row changes nothing, whatever the pad id. |
| `DatasetBuilder.PyPrefix` | src/dataset_builder.py:246 | `xs[:n]` keeps the first `min(n, len)` elements for `n >= 0`, and drops `-n` from the end, down to none, for `n < 0`. |
| `DatasetBuilder.PyPrefixAll` | src/dataset_builder.py:246 | A limit of at least the length keeps every example. |
| `DatasetBuilder.SqlDatasetBuilder.constructor` | src/dataset_builder.py:10-12 | A new builder has no examples and the tokenizer's pad id. |
| `DatasetBuilder.SqlDatasetBuilder.CreateTrainingExample` | src/dataset_builder.py:16-203 | The examples are replaced, not extended, by the 41 seed pairs, and that same list is returned. |
| `DatasetBuilder.SqlDatasetBuilder.MaskLabels` | src/dataset_builder.py:219-221 | `tf_list` has one masked row per tokenised label row, in order. |
| `DatasetBuilder.SqlDatasetBuilder.PrepareDataset` | src/dataset_builder.py:205-230 | The dataset holds the tokenised inputs and their attention mask. Its labels are the tokenised outputs, row by row, with padding masked to -100. |
| `DatasetBuilder.SqlDatasetBuilder.SpiderDataset` | src/dataset_builder.py:240-247 | The examples become the loaded list when `max_examples` is `None` or 0, the values Python treats as false. Otherwise they become its Python slice `[:max_examples]`. |

## Left out

- Python's `str.lower`, `str.upper` and the regex classes `\d` and `\w` are Unicode-aware. Here case mapping, digits and word characters are ASCII only. Whitespace (`isspace`, `\s`) is the full Python set.
- The trained model, its tokenizer and its generation calls (`app.py`, `src/model_loader.py`, `src/model_trainer.py`, `examples/wikisql_validation.py:20, 47`) become parameters. `generate` and `tokenize` are pure functions, and the tokenizer's padding and truncation to 128 ids happen inside `tokenize`. The pad id is a constructor argument.
- File and dataset I/O become parameters or are left out. This covers JSON reads and writes, `Dataset.from_file`, `Dataset.from_dict`, `save_dataset`/`save_to_disk`, the CSV reading in `scripts/extract_from_csv.py` `main` and `scripts/extractor.py`. `spider_dataset` receives the loaded list.
- Logging, printing and the example preview (`examples/wikisql_validation.py:54-60`) are left out.
- `SequenceMatcher` similarity, `total_similarity` and the percentage averages (`examples/wikisql_validation.py:12-13, 49-50, 62-68`) are floating point over a library algorithm. They are left out.
- `examples/wikisql_validation.py:26-27` picks the first 15 validation examples. `CountExactMatches` takes any list of examples.
- The HTTP handler and web page of `vercel-deploy/api/sql.py`, and the Gradio interface and `generate_sql` of `app.py`, are not modelled. From the page, only the text it posts (`sql.py:190`) is modelled, as `FormInput`.
- A SQL canonicaliser is not modelled, because no modelled file contains one. `examples/calculate_accuracy.py:45` compares `lower().strip()`, which `PyStr.StripLower` proves equal to the `strip().lower()` that `ExactMatch` models.
- `create_training_example` returns the 41 seed pairs. No lemma states a property of their text, such as every output starting with `SELECT`.
- `PrepareDataset` does not build the `attention_mask` itself. It passes through the tokenizer's mask.
