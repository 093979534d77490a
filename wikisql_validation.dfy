/**
 * The WikiSQL validation script (examples/wikisql_validation.py): for each
 * validation example it turns the table's header and column types into a
 * `CREATE TABLE` prompt, asks the model for SQL, and counts the predictions
 * that equal the reference once both are stripped and lower-cased.
 */
module WikiSqlValidation {
  import opened PyStr
  import Wrappers
  import PromptInput
  import SqlGenerator

  // ---------------------------------------------------------------------------
  // The prompt
  // ---------------------------------------------------------------------------

  /** `s.replace(a, b)` for one-character `a` and `b`. */
  function ReplaceChar(s: string, a: char, b: char): (r: string)
    ensures |r| == |s|
    ensures forall k | 0 <= k < |s| :: r[k] == (if s[k] == a then b else s[k])
  {
    if s == [] then [] else [if s[0] == a then b else s[0]] + ReplaceChar(s[1..], a, b)
  }

  /** `c.replace(' ', '_').replace('/', '_')`: a header made usable as a column name. */
  function CleanColumn(c: string): (r: string)
    ensures |r| == |c|
    ensures forall k | 0 <= k < |r| :: r[k] != ' ' && r[k] != '/'
    ensures forall k | 0 <= k < |c| :: c[k] != ' ' && c[k] != '/' ==> r[k] == c[k]
    ensures forall k | 0 <= k < |c| :: c[k] == ' ' || c[k] == '/' ==> r[k] == '_'
  {
    ReplaceChar(ReplaceChar(c, ' ', '_'), '/', '_')
  }

  /** Cleaning only introduces `_`, so it keeps any other character out. */
  lemma CleanColumnAvoids(c: string, x: char)
    requires Avoids(c, x) && x != '_'
    ensures Avoids(CleanColumn(c), x)
  {
  }

  /** Cleaning a clean name changes nothing. */
  lemma CleanColumnIdempotent(c: string)
    ensures CleanColumn(CleanColumn(c)) == CleanColumn(c)
  {
    var r := CleanColumn(c);
    assert forall k | 0 <= k < |r| :: CleanColumn(r)[k] == r[k];
  }

  /** `'REAL' if t == 'real' else 'TEXT'` */
  function SqlType(t: string): (r: string)
    ensures r == "REAL" || r == "TEXT"
    ensures r == "REAL" <==> t == "real"
  {
    if t == "real" then "REAL" else "TEXT"
  }

  /**
   * `f"{clean_col} {sql_type}"`: a name with no space, one space, then the
   * four-letter type, so the definition splits back at its only space.
   */
  function ColumnDef(c: string, t: string): (r: string)
    ensures |r| == |c| + 5 && r[|c|] == ' '
    ensures forall k | 0 <= k < |c| :: r[k] != ' ' && r[k] != '/'
    ensures r[|c| + 1..] == SqlType(t)
  {
    var r := CleanColumn(c) + " " + SqlType(t);
    assert r[|c| + 1..] == SqlType(t);
    r
  }

  /** The column definitions of `zip(headers, types)`, which stops at the shorter list. */
  function ColumnDefs(headers: seq<string>, types: seq<string>): (r: seq<string>)
    ensures |r| == Min(|headers|, |types|)
    ensures forall i | 0 <= i < |r| :: r[i] == ColumnDef(headers[i], types[i])
  {
    if headers == [] || types == [] then []
    else [ColumnDef(headers[0], types[0])] + ColumnDefs(headers[1..], types[1..])
  }

  /** The loop that fills `col_defs`. */
  method BuildColumnDefs(headers: seq<string>, types: seq<string>) returns (defs: seq<string>)
    ensures |defs| == Min(|headers|, |types|)
    ensures forall i | 0 <= i < |defs| :: defs[i] == CleanColumn(headers[i]) + " " + SqlType(types[i])
    ensures defs == ColumnDefs(headers, types)
  {
    defs := [];
    var i := 0;
    while i < |headers| && i < |types|
      invariant 0 <= i <= Min(|headers|, |types|)
      invariant |defs| == i
      invariant forall j | 0 <= j < i :: defs[j] == ColumnDef(headers[j], types[j])
    {
      var cleanCol := CleanColumn(headers[i]);
      var sqlType := SqlType(types[i]);
      defs := defs + [cleanCol + " " + sqlType];
      i := i + 1;
    }
  }

  /** `input_text`: the schema statement, a closing parenthesis, and the question. */
  function Prompt(name: string, defs: seq<string>, question: string): (r: string)
    ensures StartsWith(r, "CREATE TABLE ") && EndsWith(r, question)
    ensures StartsWith(r, PromptHead(name, defs)) && |r| == |PromptHead(name, defs)| + 10 + |question|
  {
    var p := PromptHead(name, defs) + "Question: " + question;
    assert p[..13] == "CREATE TABLE ";
    assert p[|p| - |question|..] == question;
    p
  }

  /** `create_sql_stat` and the closing parenthesis: the schema statement the prompt opens with. */
  function PromptHead(name: string, defs: seq<string>): (r: string)
    ensures StartsWith(r, "CREATE TABLE ") && EndsWith(r, ");")
    ensures |r| == 16 + |name| + |Join(", ", defs)|
    ensures r[13..13 + |name|] == name && r[13 + |name|] == ' '
    ensures r[14 + |name|..|r| - 2] == Join(", ", defs)
  {
    var j := Join(", ", defs);
    var r := "CREATE TABLE " + name + " " + j + ");";
    assert r[..13] == "CREATE TABLE ";
    assert r[13..13 + |name|] == name;
    assert r[14 + |name|..|r| - 2] == j;
    assert r[|r| - 2..] == ");";
    r
  }

  /** The question follows the closing `);` directly, after `Question: `. */
  lemma PromptJoin(name: string, defs: seq<string>, question: string)
    ensures EndsWith(Prompt(name, defs, question), ");Question: " + question)
  {
    var head := PromptHead(name, defs);
    var p := Prompt(name, defs, question);
    assert ");Question: " + question == ");" + "Question: " + question;
    assert p[|head| - 2..] == head[|head| - 2..] + "Question: " + question;
  }

  /** A validation prompt opens with `CREATE TABLE` and holds `Question:`, so `parse_input` leaves it unchanged. */
  lemma PromptPassesParseInput(name: string, defs: seq<string>, question: string)
    ensures PromptInput.ParseInput(Prompt(name, defs, question)) == Prompt(name, defs, question)
  {
    var p := Prompt(name, defs, question);
    var head := PromptHead(name, defs);
    assert p[..12] == "CREATE TABLE";
    PromptInput.OpensWithSchema(p);
    var k := |head|;
    assert p[k..k + 9] == "Question:";
    ContainsAt(p, "Question:", k);
  }

  /**
   * The prompt names its table the way the app's generator reads one: the
   * first token after `CREATE TABLE`, cut at the first `(`.
   */
  lemma PromptNamesTable(name: string, defs: seq<string>, question: string)
    requires name != [] && forall k | 0 <= k < |name| :: !IsSpace(name[k]) && name[k] != '('
    ensures SqlGenerator.ExtractTable(Prompt(name, defs, question)) == Wrappers.Ok(name)
  {
    var rest := Join(", ", defs) + ");Question: " + question;
    PromptShape(name, Join(", ", defs), question);
    SqlGenerator.TableAfterCreate(Prompt(name, defs, question), name, rest);
  }

  lemma PromptShape(name: string, j: string, question: string)
    ensures "CREATE TABLE " + name + " " + j + ");" + "Question: " + question
         == "CREATE TABLE" + (" " + name + " " + (j + ");Question: " + question))
  {
  }

  /**
   * The prompt closes a parenthesis it never opens: when the table name, the
   * headers and the question have no `(`, neither has the prompt.
   */
  lemma PromptHasNoOpenParen(name: string, headers: seq<string>, types: seq<string>, question: string)
    requires Avoids(name, '(') && Avoids(question, '(') && AllAvoid(headers, '(')
    ensures Avoids(Prompt(name, ColumnDefs(headers, types), question), '(')
  {
    HeadAvoidsParen(name, headers, types);
    QuestionAvoidsParen(PromptHead(name, ColumnDefs(headers, types)), question);
  }

  lemma QuestionAvoidsParen(head: string, question: string)
    requires Avoids(head, '(') && Avoids(question, '(')
    ensures Avoids(head + "Question: " + question, '(')
  {
    LiteralsAvoidParen();
    AvoidsConcat(head, "Question: ", '(');
    AvoidsConcat(head + "Question: ", question, '(');
  }

  /** Column definitions built from headers without `(` have none. */
  lemma DefsAvoidParen(headers: seq<string>, types: seq<string>)
    requires AllAvoid(headers, '(')
    ensures AllAvoid(ColumnDefs(headers, types), '(')
  {
    var defs := ColumnDefs(headers, types);
    forall i | 0 <= i < |defs| ensures Avoids(defs[i], '(') {
      DefAvoidsParen(headers[i], types[i]);
    }
  }

  lemma DefAvoidsParen(h: string, t: string)
    requires Avoids(h, '(')
    ensures Avoids(ColumnDef(h, t), '(')
  {
    CleanColumnAvoids(h, '(');
    assert Avoids(" " + SqlType(t), '(');
    AvoidsConcat(CleanColumn(h), " " + SqlType(t), '(');
    assert ColumnDef(h, t) == CleanColumn(h) + (" " + SqlType(t));
  }

  /** The fixed text of the prompt has no `(`. */
  lemma LiteralsAvoidParen()
    ensures Avoids("CREATE TABLE ", '(') && Avoids(" ", '(') && Avoids(", ", '(')
    ensures Avoids(");", '(') && Avoids("Question: ", '(')
  {
  }

  /** The schema statement has no `(` when the name and the headers have none. */
  lemma HeadAvoidsParen(name: string, headers: seq<string>, types: seq<string>)
    requires Avoids(name, '(') && AllAvoid(headers, '(')
    ensures Avoids(PromptHead(name, ColumnDefs(headers, types)), '(')
  {
    var defs := ColumnDefs(headers, types);
    DefsAvoidParen(headers, types);
    LiteralsAvoidParen();
    JoinAvoids(", ", defs, '(');
    var j := Join(", ", defs);
    AvoidsConcat("CREATE TABLE ", name, '(');
    AvoidsConcat("CREATE TABLE " + name, " ", '(');
    AvoidsConcat("CREATE TABLE " + name + " ", j, '(');
    AvoidsConcat("CREATE TABLE " + name + " " + j, ");", '(');
  }

  // ---------------------------------------------------------------------------
  // Exact match and its counter
  // ---------------------------------------------------------------------------

  /**
   * `pred.strip().lower() == expected.strip().lower()`: texts equal once
   * stripped always match, and matching texts have the same stripped length.
   */
  predicate ExactMatch(pred: string, expected: string): (r: bool)
    ensures Strip(pred) == Strip(expected) ==> r
    ensures r ==> |Strip(pred)| == |Strip(expected)|
  {
    Lower(Strip(pred)) == Lower(Strip(expected))
  }

  /** Exact match is an equivalence. */
  lemma ExactMatchIsEquivalence(a: string, b: string, c: string)
    ensures ExactMatch(a, a)
    ensures ExactMatch(a, b) ==> ExactMatch(b, a)
    ensures ExactMatch(a, b) && ExactMatch(b, c) ==> ExactMatch(a, c)
  {
  }

  /** Whitespace around a prediction never decides a match. */
  lemma ExactMatchIgnoresPadding(w1: string, a: string, w2: string, b: string)
    requires AllSpace(w1) && AllSpace(w2)
    ensures ExactMatch(w1 + a + w2, b) <==> ExactMatch(a, b)
  {
    StripPadding(w1, a, w2);
  }

  /** Nor does the case of its letters. */
  lemma ExactMatchIgnoresCase(a: string, b: string)
    ensures ExactMatch(Upper(a), b) <==> ExactMatch(a, b)
    ensures ExactMatch(Lower(a), b) <==> ExactMatch(a, b)
  {
    StripUpper(a);
    LowerOfUpper(Strip(a));
    StripLower(a);
    LowerIdempotent(Strip(a));
  }

  /** A WikiSQL table as the script reads it. */
  datatype Table = Table(name: string, header: seq<string>, types: seq<string>)

  /** A validation example: the table, the question and the reference SQL. */
  datatype Example = Example(table: Table, question: string, sql: string)

  /** The prompt the script builds for an example. */
  function InputText(ex: Example): string {
    Prompt(ex.table.name, ColumnDefs(ex.table.header, ex.table.types), ex.question)
  }

  /** The model answers this example exactly. */
  predicate Hit(ex: Example, generate: string -> string) {
    ExactMatch(generate(InputText(ex)), ex.sql)
  }

  /** Which of `examples` the model answers exactly. */
  function Hits(examples: seq<Example>, generate: string -> string): (hits: seq<bool>)
    ensures |hits| == |examples|
    ensures forall i | 0 <= i < |examples| :: hits[i] == Hit(examples[i], generate)
  {
    seq(|examples|, i requires 0 <= i < |examples| => Hit(examples[i], generate))
  }

  /** The number of `true`s in `bs`. */
  function CountTrue(bs: seq<bool>): (n: nat)
    ensures n <= |bs|
  {
    if bs == [] then 0 else CountTrue(bs[..|bs| - 1]) + (if bs[|bs| - 1] then 1 else 0)
  }

  /** The count reaches the length exactly when every entry is `true`. */
  lemma {:induction false} CountTrueAll(bs: seq<bool>)
    ensures CountTrue(bs) == |bs| <==> forall i | 0 <= i < |bs| :: bs[i]
  {
    if bs != [] {
      var init := bs[..|bs| - 1];
      CountTrueAll(init);
      assert forall i | 0 <= i < |init| :: init[i] == bs[i];
    }
  }

  /** Counting one more entry adds one exactly when it is `true`. */
  lemma CountTrueStep(bs: seq<bool>, i: nat)
    requires i < |bs|
    ensures CountTrue(bs[..i + 1]) == CountTrue(bs[..i]) + (if bs[i] then 1 else 0)
  {
    assert bs[..i + 1][..i] == bs[..i];
  }

  /** How many of `examples` the model answers exactly. */
  function MatchCount(examples: seq<Example>, generate: string -> string): (n: nat)
    ensures n <= |examples|
  {
    CountTrue(Hits(examples, generate))
  }

  /** Every example is answered exactly precisely when the count reaches the number of examples. */
  lemma AllMatch(examples: seq<Example>, generate: string -> string)
    ensures MatchCount(examples, generate) == |examples| <==> forall i | 0 <= i < |examples| :: Hit(examples[i], generate)
  {
    CountTrueAll(Hits(examples, generate));
  }

  /**
   * The validation loop, without the similarity average: `exact_match`
   * starts at 0 and each example adds at most one to it.
   */
  method CountExactMatches(examples: seq<Example>, generate: string -> string) returns (exactMatch: nat)
    ensures exactMatch == MatchCount(examples, generate)
    ensures exactMatch <= |examples|
  {
    ghost var hits := Hits(examples, generate);
    exactMatch := 0;
    var i := 0;
    while i < |examples|
      invariant 0 <= i <= |examples|
      invariant exactMatch == CountTrue(hits[..i]) && exactMatch <= i
    {
      var ex := examples[i];
      var colDefs := BuildColumnDefs(ex.table.header, ex.table.types);
      var inputText := Prompt(ex.table.name, colDefs, ex.question);
      var predSql := generate(inputText);
      assert inputText == InputText(ex);
      CountTrueStep(hits, i);
      if ExactMatch(predSql, ex.sql) {
        exactMatch := exactMatch + 1;
      }
      i := i + 1;
    }
    assert hits[..i] == hits;
  }
}
