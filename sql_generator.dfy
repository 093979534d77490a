/**
 * The rule-based SQL generator behind the serverless endpoint
 * (vercel-deploy/api/sql.py, `generate_sql_simple`). It reads a table name
 * from an optional `CREATE TABLE` prefix and a question after `Question:`,
 * then answers the question with the first of a fixed list of keyword rules
 * that fires, each rule giving one templated SELECT statement.
 */
module SqlGenerator {
  import opened Wrappers
  import opened PyStr

  /** The one exception `generate_sql_simple` can raise: `parts.split()[0]` on an empty list. */
  datatype Failure = IndexError

  // ---------------------------------------------------------------------------
  // Table and question extraction
  // ---------------------------------------------------------------------------

  /** `text.split('CREATE TABLE', 1)[-1].split('(')[0].strip()`: where the table name is read. */
  function SchemaHead(text: string): (r: string)
    ensures Trimmed(r) && |r| <= |text|
  {
    Strip(BeforeFirst(AfterFirst(text, "CREATE TABLE"), "("))
  }

  /** The schema head is read before the first `(`, so it holds none. */
  lemma SchemaHeadAvoidsParen(text: string)
    ensures Avoids(SchemaHead(text), '(')
  {
    var region := BeforeFirst(AfterFirst(text, "CREATE TABLE"), "(");
    NotContainsChar(region, '(');
    StripKeepsAbsent(region, '(');
  }

  /** The table the statement selects from: `table` unless the text declares one. */
  function ExtractTable(text: string): (r: Result<string, Failure>)
    ensures !Contains(Lower(text), "create table") ==> r == Ok("table")
    ensures r.Err? <==> Contains(Lower(text), "create table") && AllSpace(SchemaHead(text))
    ensures r.Ok? ==> r.value != [] && forall k | 0 <= k < |r.value| :: !IsSpace(r.value[k]) && r.value[k] != '('
    ensures Contains(Lower(text), "create table") && r.Ok? ==>
              StartsWith(SchemaHead(text), r.value)
              && (|r.value| == |SchemaHead(text)| || IsSpace(SchemaHead(text)[|r.value|]))
  {
    if !Contains(Lower(text), "create table") then Ok("table")
    else
      var head := SchemaHead(text);
      match FirstToken(head)
      case None =>
        assert AllSpace(head);
        Err(IndexError)
      case Some(t) =>
        HeadToken(text);
        StripUnique([], t, []);
        assert [] + t + [] == t;
        Ok(Strip(t))
  }

  /** The first token of the schema head is a prefix of it and holds no `(`. */
  lemma HeadToken(text: string)
    requires FirstToken(SchemaHead(text)).Some?
    ensures var t := FirstToken(SchemaHead(text)).value;
            StartsWith(SchemaHead(text), t)
            && (|t| == |SchemaHead(text)| || IsSpace(SchemaHead(text)[|t|]))
            && forall k | 0 <= k < |t| :: t[k] != '('
  {
    var region := BeforeFirst(AfterFirst(text, "CREATE TABLE"), "(");
    NotContainsChar(region, '(');
    StripKeepsAbsent(region, '(');
    var head := SchemaHead(text);
    FirstTokenOfTrimmed(head);
    var t := FirstToken(head).value;
    assert forall k | 0 <= k < |t| :: t[k] == head[k];
  }

  /** The lower-cased question: what follows the first `Question:`, or the whole text. */
  function ExtractQuestion(text: string): (q: string)
    ensures NoUpper(q)
    ensures !Contains(Lower(text), "question:") ==> q == Lower(text)
    ensures Contains(Lower(text), "question:") ==> q == Lower(Strip(AfterFirst(text, "Question:")))
  {
    if Contains(Lower(text), "question:") then Lower(Strip(AfterFirst(text, "Question:")))
    else Lower(text)
  }

  // ---------------------------------------------------------------------------
  // The keyword cascade
  // ---------------------------------------------------------------------------

  /** What a question is taken to ask for: one value per rule of the cascade, then the fallback. */
  datatype Intent =
    | ListRows | CountRows | SumColumn | AverageColumn | GreaterThan
    | LessThan | EqualTo | GroupRows | OrderRows | SelectAll

  /** The substring tests of the cascade's rules, in the order they are tried. */
  const Triggers: seq<seq<string>> := [
    ["all", "list", "show", "what are"],
    ["count", "how many"],
    ["sum", "total"],
    ["average", "avg"],
    ["more than", "greater than", ">"],
    ["less than", "<"],
    ["equal", "=", "equals"],
    ["group by"],
    ["order by", "sort"]
  ]

  /** The intent of the rule at a position of `Triggers`; past the end, the fallback. */
  function IntentAt(k: nat): Intent {
    if k < 9 then [ListRows, CountRows, SumColumn, AverageColumn, GreaterThan,
                   LessThan, EqualTo, GroupRows, OrderRows][k]
    else SelectAll
  }

  /** Some keyword of `words` occurs in `q`. */
  predicate AnyIn(q: string, words: seq<string>) {
    |words| > 0 && (Contains(q, words[0]) || AnyIn(q, words[1..]))
  }

  /** The first rule at or after `k` that fires on `q`, or `|Triggers|` when none does. */
  function FirstFiring(q: string, k: nat): (r: nat)
    requires k <= |Triggers|
    ensures k <= r <= |Triggers|
    ensures r < |Triggers| ==> AnyIn(q, Triggers[r])
    ensures forall m | k <= m < r :: !AnyIn(q, Triggers[m])
    decreases |Triggers| - k
  {
    if k == |Triggers| then k
    else if AnyIn(q, Triggers[k]) then k
    else FirstFiring(q, k + 1)
  }

  /**
   * The `if`/`elif` cascade of `generate_sql_simple`, reduced to which branch
   * is taken: the listing rule wins whenever it fires, and the fallback is
   * taken exactly when no rule of `Triggers` fires.
   */
  function Classify(q: string): (r: Intent)
    ensures r == ListRows <==> AnyIn(q, Triggers[0])
    ensures r == SelectAll <==> forall m | 0 <= m < |Triggers| :: !AnyIn(q, Triggers[m])
  {
    TriggersSpelledOut(q);
    if Contains(q, "all") || Contains(q, "list") || Contains(q, "show") || Contains(q, "what are") then ListRows
    else if Contains(q, "count") || Contains(q, "how many") then CountRows
    else if Contains(q, "sum") || Contains(q, "total") then SumColumn
    else if Contains(q, "average") || Contains(q, "avg") then AverageColumn
    else if Contains(q, "more than") || Contains(q, "greater than") || Contains(q, ">") then GreaterThan
    else if Contains(q, "less than") || Contains(q, "<") then LessThan
    else if Contains(q, "equal") || Contains(q, "=") || Contains(q, "equals") then EqualTo
    else if Contains(q, "group by") then GroupRows
    else if Contains(q, "order by") || Contains(q, "sort") then OrderRows
    else SelectAll
  }

  /** Each rule of `Triggers` fires exactly when one of its keywords occurs. */
  lemma TriggersSpelledOut(q: string)
    ensures AnyIn(q, Triggers[0]) <==> Contains(q, "all") || Contains(q, "list") || Contains(q, "show") || Contains(q, "what are")
    ensures AnyIn(q, Triggers[1]) <==> Contains(q, "count") || Contains(q, "how many")
    ensures AnyIn(q, Triggers[2]) <==> Contains(q, "sum") || Contains(q, "total")
    ensures AnyIn(q, Triggers[3]) <==> Contains(q, "average") || Contains(q, "avg")
    ensures AnyIn(q, Triggers[4]) <==> Contains(q, "more than") || Contains(q, "greater than") || Contains(q, ">")
    ensures AnyIn(q, Triggers[5]) <==> Contains(q, "less than") || Contains(q, "<")
    ensures AnyIn(q, Triggers[6]) <==> Contains(q, "equal") || Contains(q, "=") || Contains(q, "equals")
    ensures AnyIn(q, Triggers[7]) <==> Contains(q, "group by")
    ensures AnyIn(q, Triggers[8]) <==> Contains(q, "order by") || Contains(q, "sort")
  {
    FiresOne(q, "group by");
    FiresTwo(q, "count", "how many");
    FiresTwo(q, "sum", "total");
    FiresTwo(q, "average", "avg");
    FiresTwo(q, "less than", "<");
    FiresTwo(q, "order by", "sort");
    FiresThree(q, "more than", "greater than", ">");
    FiresThree(q, "equal", "=", "equals");
    FiresThree(q, "list", "show", "what are");
    Unfold(q, "all", ["list", "show", "what are"]);
  }

  /** `any(...)` over a list tests its head, then its tail. */
  lemma Unfold(q: string, w: string, rest: seq<string>)
    ensures AnyIn(q, [w] + rest) <==> Contains(q, w) || AnyIn(q, rest)
  {
    assert ([w] + rest)[1..] == rest;
  }

  /** `any(...)` over one, two or three keywords, spelled out. */
  lemma FiresOne(q: string, a: string)
    ensures AnyIn(q, [a]) <==> Contains(q, a)
  {
    Unfold(q, a, []);
    assert [a] + [] == [a];
  }

  lemma FiresTwo(q: string, a: string, b: string)
    ensures AnyIn(q, [a, b]) <==> Contains(q, a) || Contains(q, b)
  {
    FiresOne(q, b);
    Unfold(q, a, [b]);
    assert [a] + [b] == [a, b];
  }

  lemma FiresThree(q: string, a: string, b: string, c: string)
    ensures AnyIn(q, [a, b, c]) <==> Contains(q, a) || Contains(q, b) || Contains(q, c)
  {
    FiresTwo(q, b, c);
    Unfold(q, a, [b, c]);
    assert [a] + [b, c] == [a, b, c];
  }

  /** The cascade takes the first rule whose keywords occur in the question. */
  lemma {:induction false} ClassifyIsFirstFiring(q: string)
    ensures Classify(q) == IntentAt(FirstFiring(q, 0))
  {
    TriggersSpelledOut(q);
    if AnyIn(q, Triggers[0]) {
    } else if AnyIn(q, Triggers[1]) {
      assert FirstFiring(q, 0) == 1;
    } else if AnyIn(q, Triggers[2]) {
      assert FirstFiring(q, 1) == 2;
    } else if AnyIn(q, Triggers[3]) {
      assert FirstFiring(q, 1) == FirstFiring(q, 2) == 3;
    } else if AnyIn(q, Triggers[4]) {
      assert FirstFiring(q, 2) == FirstFiring(q, 3) == 4;
    } else if AnyIn(q, Triggers[5]) {
      assert FirstFiring(q, 2) == FirstFiring(q, 4) == 5;
    } else if AnyIn(q, Triggers[6]) {
      assert FirstFiring(q, 2) == FirstFiring(q, 4) == FirstFiring(q, 5) == 6;
    } else if AnyIn(q, Triggers[7]) {
      assert FirstFiring(q, 2) == FirstFiring(q, 4) == FirstFiring(q, 6) == 7;
    } else if AnyIn(q, Triggers[8]) {
      assert FirstFiring(q, 2) == FirstFiring(q, 4) == FirstFiring(q, 6) == FirstFiring(q, 7) == 8;
    } else {
      assert FirstFiring(q, 2) == FirstFiring(q, 4) == FirstFiring(q, 6) == FirstFiring(q, 8) == 9;
    }
  }

  // ---------------------------------------------------------------------------
  // The values the templates embed
  // ---------------------------------------------------------------------------

  /** `re.findall(r'\d+', q)[0]`: the first maximal run of digits, if any. */
  function FirstNumber(q: string): (r: Option<string>)
    ensures r.None? <==> forall k | 0 <= k < |q| :: !IsDigit(q[k])
    ensures r.Some? ==> r.value != [] && AllDigits(r.value)
    ensures r.Some? ==>
              exists i | 0 <= i <= |q| ::
                && OccursAt(q, r.value, i)
                && (forall k | 0 <= k < i :: !IsDigit(q[k]))
                && (i + |r.value| == |q| || !IsDigit(q[i + |r.value|]))
  {
    var i := RunEnd(q, 0, NotDigit);
    if i == |q| then None
    else
      var j := RunEnd(q, i, Digit);
      assert OccursAt(q, q[i..j], i);
      Some(q[i..j])
  }

  /** The number a comparison uses: the first digit run, or `100` when there is none. */
  function ComparedValue(q: string): (v: string)
    ensures v != [] && AllDigits(v)
    ensures (forall k | 0 <= k < |q| :: !IsDigit(q[k])) ==> v == "100"
    ensures (exists k | 0 <= k < |q| :: IsDigit(q[k])) ==>
              exists i | 0 <= i <= |q| ::
                && OccursAt(q, v, i)
                && (forall k | 0 <= k < i :: !IsDigit(q[k]))
                && (i + |v| == |q| || !IsDigit(q[i + |v|]))
  {
    match FirstNumber(q)
    case Some(n) => n
    case None => "100"
  }

  /** `re.findall(r"'([^']*)'", q)[0]`: the text between the first two quotes, if there are two. */
  function FirstQuoted(q: string): (r: Option<string>)
    ensures r.None? <==> !exists i, j | 0 <= i < j < |q| :: q[i] == '\'' && q[j] == '\''
    ensures r.Some? ==> forall k | 0 <= k < |r.value| :: r.value[k] != '\''
    ensures r.Some? ==>
              exists i | 0 <= i <= |q| ::
                && OccursAt(q, "'" + r.value + "'", i)
                && (forall k | 0 <= k < i :: q[k] != '\'')
  {
    var i := Find(q, "'", 0);
    if i < 0 then
      assert forall k | 0 <= k < |q| :: q[k] != '\'' by {
        FindSpec(q, "'", 0);
        forall k | 0 <= k < |q| ensures q[k] != '\'' { CharOccurs(q, '\'', k); }
      }
      None
    else
      assert q[i] == '\'' by { assert q[i..i + 1] == "'"; }
      assert forall k | 0 <= k < i :: q[k] != '\'' by {
        FindSpec(q, "'", 0);
        forall k | 0 <= k < i ensures q[k] != '\'' { CharOccurs(q, '\'', k); }
      }
      var j := RunEnd(q, i + 1, NotQuote);
      if j == |q| then
        None
      else
        var v := q[i + 1..j];
        QuotedAt(q, i, j);
        Some(v)
  }

  lemma QuotedAt(q: string, i: nat, j: nat)
    requires i < j < |q| && q[i] == '\'' && q[j] == '\''
    ensures OccursAt(q, "'" + q[i + 1..j] + "'", i)
  {
    assert q[i..j + 1] == "'" + q[i + 1..j] + "'";
  }

  // ---------------------------------------------------------------------------
  // The templates
  // ---------------------------------------------------------------------------

  /** A generated statement: `SELECT <columns> FROM <table><tail>`. */
  datatype Statement = Statement(columns: string, tail: string)

  /**
   * The column a "greater than" question compares: one the question names,
   * `salary` before `price` before `amount`, else the placeholder `value`.
   */
  function GreaterColumn(q: string): (r: string)
    ensures r in {"salary", "price", "amount", "value"}
    ensures r != "value" ==> Contains(q, r)
    ensures r == "value" <==> !Contains(q, "salary") && !Contains(q, "price") && !Contains(q, "amount")
    ensures Contains(q, "salary") ==> r == "salary"
    ensures Contains(q, "price") ==> r in {"salary", "price"}
  {
    if Contains(q, "salary") then "salary"
    else if Contains(q, "price") then "price"
    else if Contains(q, "amount") then "amount"
    else "value"
  }

  /**
   * The column a "less than" question compares: `salary` before `price`, else
   * `value`; there is no `amount` rule on this branch.
   */
  function LessColumn(q: string): (r: string)
    ensures r in {"salary", "price", "value"}
    ensures r != "value" ==> Contains(q, r)
    ensures r == "value" <==> !Contains(q, "salary") && !Contains(q, "price")
    ensures Contains(q, "salary") ==> r == "salary"
  {
    if Contains(q, "salary") then "salary"
    else if Contains(q, "price") then "price"
    else "value"
  }

  /**
   * The condition of the equality branch: the placeholder unless the question
   * quotes something and names a department or a category, and then a
   * condition ending in the quoted text as a string literal.
   */
  function EqualCondition(q: string): (r: string)
    ensures r == "column = 'value'" <==> !UsesQuotedValue(q)
    ensures UsesQuotedValue(q) ==> EndsWith(r, " = '" + FirstQuoted(q).value + "'")
  {
    match FirstQuoted(q)
    case Some(v) =>
      if Contains(q, "department") then LiteralCondition("department", v)
      else if Contains(q, "category") then LiteralCondition("category", v)
      else "column = 'value'"
    case None => "column = 'value'"
  }

  /** `<column> = '<v>'` for a named column: never the placeholder, and it ends in the literal. */
  function LiteralCondition(column: string, v: string): (r: string)
    requires column == "department" || column == "category"
    ensures r == column + " = '" + v + "'"
    ensures r != "column = 'value'" && EndsWith(r, " = '" + v + "'")
  {
    var r := column + " = '" + v + "'";
    var literal := " = '" + v + "'";
    assert r[0] != 'c' || r[1] != 'o';
    assert r[|r| - |literal|..] == literal;
    r
  }

  /**
   * The column a "group by" question groups on: `department` before
   * `category`, whichever the question names, else the placeholder `column`.
   */
  function GroupColumn(q: string): (r: string)
    ensures r in {"department", "category", "column"}
    ensures r != "column" ==> Contains(q, r)
    ensures r == "column" <==> !Contains(q, "department") && !Contains(q, "category")
    ensures Contains(q, "department") ==> r == "department"
  {
    if Contains(q, "department") then "department"
    else if Contains(q, "category") then "category"
    else "column"
  }

  /** The direction of the order branch: descending exactly when the question asks for it. */
  function Direction(q: string): (r: string)
    ensures r == "DESC" || r == "ASC"
    ensures r == "DESC" <==> Contains(q, "desc") || Contains(q, "highest") || Contains(q, "largest")
  {
    if Contains(q, "desc") || Contains(q, "highest") || Contains(q, "largest") then "DESC" else "ASC"
  }

  /**
   * The statement each branch of the cascade returns, apart from the table
   * name: listing, counting, summing, averaging and the fallback add no
   * clause; the comparison and equality branches add a `WHERE` clause, the
   * grouping branch a `GROUP BY` and the order branch an `ORDER BY`.
   */
  function Template(q: string): (r: Statement)
    ensures r.columns != []
    ensures r.tail == [] <==> Classify(q) in {ListRows, CountRows, SumColumn, AverageColumn, SelectAll}
    ensures StartsWith(r.tail, " WHERE ") <==> Classify(q) in {GreaterThan, LessThan, EqualTo}
    ensures StartsWith(r.tail, " GROUP BY ") <==> Classify(q) == GroupRows
    ensures StartsWith(r.tail, " ORDER BY ") <==> Classify(q) == OrderRows
  {
    match Classify(q)
    case ListRows => if Contains(q, "name") then Statement("name", "") else Statement("*", "")
    case CountRows => Statement("COUNT(*)", "")
    case SumColumn =>
      if Contains(q, "amount") then Statement("SUM(amount)", "")
      else if Contains(q, "salary") then Statement("SUM(salary)", "")
      else Statement("SUM(*)", "")
    case AverageColumn =>
      if Contains(q, "salary") then Statement("AVG(salary)", "")
      else if Contains(q, "price") then Statement("AVG(price)", "")
      else Statement("AVG(*)", "")
    case GreaterThan => Where(GreaterColumn(q) + " > " + ComparedValue(q))
    case LessThan => Where(LessColumn(q) + " < " + ComparedValue(q))
    case EqualTo => Where(EqualCondition(q))
    case GroupRows =>
      var c := GroupColumn(q);
      GroupedBy(c)
    case OrderRows => Ordered(Direction(q))
    case SelectAll => Statement("*", "")
  }

  /** All rows whose `condition` holds. */
  function Where(condition: string): (r: Statement)
    ensures r.columns == "*" && r.tail == " WHERE " + condition
    ensures StartsWith(r.tail, " WHERE ") && !StartsWith(r.tail, " GROUP BY ") && !StartsWith(r.tail, " ORDER BY ")
  {
    var t := " WHERE " + condition;
    assert t[..7] == " WHERE " && t[1] == 'W';
    Statement("*", t)
  }

  /** The count of rows per value of `column`. */
  function GroupedBy(column: string): (r: Statement)
    ensures r.columns == column + ", COUNT(*)" && r.tail == " GROUP BY " + column
    ensures StartsWith(r.tail, " GROUP BY ") && !StartsWith(r.tail, " WHERE ") && !StartsWith(r.tail, " ORDER BY ")
  {
    var t := " GROUP BY " + column;
    assert t[..10] == " GROUP BY " && t[1] == 'G';
    Statement(column + ", COUNT(*)", t)
  }

  /** All rows, sorted in `direction`. */
  function Ordered(direction: string): (r: Statement)
    ensures r.columns == "*" && r.tail == " ORDER BY column " + direction
    ensures StartsWith(r.tail, " ORDER BY ") && !StartsWith(r.tail, " WHERE ") && !StartsWith(r.tail, " GROUP BY ")
  {
    var t := " ORDER BY column " + direction;
    assert t[..10] == " ORDER BY " && t[1] == 'O';
    Statement("*", t)
  }

  /** The f-string every branch fills in. */
  function Render(st: Statement, table: string): (r: string)
    ensures StartsWith(r, "SELECT ") && OccursAt(r, " FROM " + table, 7 + |st.columns|)
  {
    var r := "SELECT " + st.columns + " FROM " + table + st.tail;
    assert r[..7] == "SELECT ";
    assert r[7 + |st.columns|..7 + |st.columns| + 6 + |table|] == " FROM " + table;
    r
  }

  /** `generate_sql_simple(text)` */
  function GenerateSqlSimple(text: string): (r: Result<string, Failure>)
    ensures r.Err? <==> ExtractTable(text).Err?
    ensures r.Ok? ==> StartsWith(r.value, "SELECT ") && Contains(r.value, " FROM " + ExtractTable(text).value)
  {
    match ExtractTable(text)
    case Err(e) => Err(e)
    case Ok(table) =>
      var r := Render(Template(ExtractQuestion(text)), table);
      ContainsAt(r, " FROM " + table, 7 + |Template(ExtractQuestion(text)).columns|);
      Ok(r)
  }

  // ---------------------------------------------------------------------------
  // Properties of the generator
  // ---------------------------------------------------------------------------

  /**
   * A question with `all`, `list`, `show` or `what are` in it lists rows,
   * whatever else it asks for.
   */
  lemma ListWordsDominate(text: string)
    requires ExtractTable(text).Ok?
    requires AnyIn(ExtractQuestion(text), Triggers[0])
    ensures var q := ExtractQuestion(text);
            GenerateSqlSimple(text).value
              == "SELECT " + (if Contains(q, "name") then "name" else "*") + " FROM " + ExtractTable(text).value
  {
    TriggersSpelledOut(ExtractQuestion(text));
  }

  /**
   * The branches without a `WHERE` clause: `COUNT(*)`; `SUM` of `amount`
   * before `salary`; `AVG` of `salary` before `price`; the grouping column
   * counted per value; and `*` when no rule fires.
   */
  lemma AggregateTemplates(q: string)
    ensures Classify(q) == CountRows ==> Template(q) == Statement("COUNT(*)", "")
    ensures Classify(q) == SumColumn ==>
              Template(q).tail == []
              && (Contains(q, "amount") ==> Template(q).columns == "SUM(amount)")
              && (!Contains(q, "amount") && Contains(q, "salary") ==> Template(q).columns == "SUM(salary)")
              && (!Contains(q, "amount") && !Contains(q, "salary") ==> Template(q).columns == "SUM(*)")
    ensures Classify(q) == AverageColumn ==>
              Template(q).tail == []
              && (Contains(q, "salary") ==> Template(q).columns == "AVG(salary)")
              && (!Contains(q, "salary") && Contains(q, "price") ==> Template(q).columns == "AVG(price)")
              && (!Contains(q, "salary") && !Contains(q, "price") ==> Template(q).columns == "AVG(*)")
    ensures Classify(q) == GroupRows ==> Template(q) == GroupedBy(GroupColumn(q))
    ensures Classify(q) == SelectAll ==> Template(q) == Statement("*", "")
  {
  }

  /** A question that fires no rule gets `SELECT * FROM <table>`. */
  lemma DefaultStatement(text: string)
    ensures ExtractTable(text).Ok? && Classify(ExtractQuestion(text)) == SelectAll ==>
              GenerateSqlSimple(text) == Ok("SELECT * FROM " + ExtractTable(text).value)
  {
    if ExtractTable(text).Ok? && Classify(ExtractQuestion(text)) == SelectAll {
      var q := ExtractQuestion(text);
      assert Template(q) == Statement("*", "");
      RenderAllColumns("", ExtractTable(text).value);
    assert "SELECT * FROM " + ExtractTable(text).value + "" == "SELECT * FROM " + ExtractTable(text).value;
    }
  }

  /**
   * Every branch that selects all columns renders as `SELECT * FROM <table>`
   * followed by its clause, if any.
   */
  lemma RenderAllColumns(tail: string, table: string)
    ensures Render(Statement("*", tail), table) == "SELECT * FROM " + table + tail
  {
    assert "SELECT " + "*" + " FROM " + table + tail == "SELECT * FROM " + table + tail;
  }

  /**
   * The comparison branches compare one known column with a plain number,
   * with `>` exactly on the "greater than" branch.
   */
  lemma ComparisonIsNumeric(q: string) returns (column: string, op: string, value: string)
    requires Classify(q) == GreaterThan || Classify(q) == LessThan
    ensures Template(q) == Where(column + op + value)
    ensures column in {"salary", "price", "amount", "value"}
    ensures op == (if Classify(q) == GreaterThan then " > " else " < ")
    ensures value == ComparedValue(q) && value != [] && AllDigits(value)
    ensures column == "salary" <==> Contains(q, "salary")
    ensures column == "price" <==> !Contains(q, "salary") && Contains(q, "price")
    ensures column == "amount" <==> Classify(q) == GreaterThan && !Contains(q, "salary") && !Contains(q, "price") && Contains(q, "amount")
  {
    value := ComparedValue(q);
    if Classify(q) == GreaterThan {
      column, op := GreaterColumn(q), " > ";
      assert Template(q) == Where(column + op + value);
    } else {
      column, op := LessColumn(q), " < ";
      assert Template(q) == Where(column + op + value);
    }
  }

  /**
   * The equality branch uses the question's first quoted text exactly when
   * the question quotes something and names a department or a category;
   * that text holds no quote (`FirstQuoted`), so the condition has one
   * well-formed string literal.
   */
  lemma EqualityLiteral(q: string)
    requires Classify(q) == EqualTo
    ensures Template(q) == Where(EqualCondition(q))
    ensures UsesQuotedValue(q) <==> Template(q) != Where("column = 'value'")
    ensures UsesQuotedValue(q) ==> EndsWith(Template(q).tail, " = '" + FirstQuoted(q).value + "'")
  {
    var e := EqualCondition(q);
    assert Template(q) == Where(e);
    var t := Where(e).tail;
    assert t[7..] == e && Where("column = 'value'").tail[7..] == "column = 'value'";
    if UsesQuotedValue(q) {
      EndsWithAfter(" WHERE ", e, " = '" + FirstQuoted(q).value + "'");
    }
  }

  /** The condition the equality branch builds around the quoted text. */
  lemma QuotedCondition(q: string) returns (c: string)
    requires UsesQuotedValue(q)
    ensures c == "department" || c == "category"
    ensures c == (if Contains(q, "department") then "department" else "category")
    ensures EqualCondition(q) == c + " = '" + FirstQuoted(q).value + "'"
  {
    c := if Contains(q, "department") then "department" else "category";
  }

  /** The equality branch embeds the quoted text of the question. */
  predicate UsesQuotedValue(q: string) {
    FirstQuoted(q).Some? && (Contains(q, "department") || Contains(q, "category"))
  }

  /** The order branch sorts descending exactly when the question says so. */
  lemma OrderDirection(q: string, table: string)
    requires Classify(q) == OrderRows
    ensures var r := Render(Template(q), table);
            && (EndsWith(r, " DESC") <==> Contains(q, "desc") || Contains(q, "highest") || Contains(q, "largest"))
            && (EndsWith(r, " ASC") <==> !EndsWith(r, " DESC"))
  {
    assert Template(q) == Ordered(Direction(q));
    DirectionSuffix("SELECT " + Template(q).columns + " FROM " + table, Direction(q));
  }

  /** The order branch selects every column and sorts by the placeholder `column`. */
  lemma OrderTemplate(q: string, table: string)
    requires Classify(q) == OrderRows
    ensures Template(q) == Ordered(Direction(q))
    ensures Render(Template(q), table) == "SELECT * FROM " + table + " ORDER BY column " + Direction(q)
  {
    assert Template(q) == Ordered(Direction(q));
    RenderAllColumns(" ORDER BY column " + Direction(q), table);
  }

  /** The statement's last word tells the two directions apart. */
  lemma DirectionSuffix(x: string, d: string)
    requires d == "DESC" || d == "ASC"
    ensures var r := x + (" ORDER BY column " + d);
            && (EndsWith(r, " DESC") <==> d == "DESC")
            && (EndsWith(r, " ASC") <==> d == "ASC")
  {
    var r := x + (" ORDER BY column " + d);
    var n := |r|;
    if d == "DESC" {
      assert r[n - 5..] == " DESC";
      assert r[n - 4..n][0] == 'D';
    } else {
      assert r[n - 4..] == " ASC";
      assert r[n - 5..n][1] == ' ';
    }
  }

  /** The text the endpoint's web form posts when a schema is given (`${schema} ; Question: ${question}`). */
  function FormInput(schema: string, question: string): string {
    schema + " ; Question: " + question
  }

  /**
   * For the form's input, the table is the name the schema declares and the
   * question is the one typed, stripped and lower-cased.
   */
  lemma FormInputRoundTrip(name: string, columns: string, question: string)
    requires name != [] && forall k | 0 <= k < |name| :: !IsSpace(name[k]) && name[k] != '('
    requires !Contains("CREATE TABLE " + name + " (" + columns, "Question:")
    ensures var text := FormInput("CREATE TABLE " + name + " (" + columns, question);
            && ExtractTable(text) == Ok(name)
            && ExtractQuestion(text) == Lower(Strip(question))
            && GenerateSqlSimple(text) == Ok(Render(Template(Lower(Strip(question))), name))
  {
    var schema := "CREATE TABLE " + name + " (" + columns;
    var text := FormInput(schema, question);
    TableOfFormInput(name, columns, question);
    QuestionOfFormInput(schema, question);
  }

  lemma TableOfFormInput(name: string, columns: string, question: string)
    requires name != [] && forall k | 0 <= k < |name| :: !IsSpace(name[k]) && name[k] != '('
    ensures ExtractTable(FormInput("CREATE TABLE " + name + " (" + columns, question)) == Ok(name)
  {
    var text := FormInput("CREATE TABLE " + name + " (" + columns, question);
    var rest := columns + " ; Question: " + question;
    var after := " " + name + " (" + rest;
    FormInputShape(name, columns, question);
    StartsWithCreateTable(text, after);
    HeadOfSchema(name, rest);
    TableOfHead(text, name);
  }

  /** Where the form's text splits around `CREATE TABLE`. */
  lemma FormInputShape(name: string, columns: string, question: string)
    ensures FormInput("CREATE TABLE " + name + " (" + columns, question)
         == "CREATE TABLE" + (" " + name + " (" + (columns + " ; Question: " + question))
  {
  }

  /** A declared schema whose head is a single word names that table. */
  lemma TableOfHead(text: string, name: string)
    requires name != [] && forall k | 0 <= k < |name| :: !IsSpace(name[k])
    requires Contains(Lower(text), "create table") && SchemaHead(text) == name
    ensures ExtractTable(text) == Ok(name)
  {
    assert RunEnd(name, 0, Space) == 0;
    assert RunEnd(name, 0, NonSpace) == |name|;
    assert name[0..|name|] == name;
    assert FirstToken(name) == Some(name);
    assert !IsSpace(name[0]) && !IsSpace(name[|name| - 1]);
    StripUnique([], name, []);
    assert [] + name + [] == name;
  }

  /**
   * Text that opens with `CREATE TABLE <name> ` names the table `<name>`,
   * whatever follows, as long as the name is one token without a `(`.
   */
  lemma TableAfterCreate(text: string, name: string, rest: string)
    requires name != [] && forall k | 0 <= k < |name| :: !IsSpace(name[k]) && name[k] != '('
    requires text == "CREATE TABLE" + (" " + name + " " + rest)
    ensures ExtractTable(text) == Ok(name)
  {
    var after := " " + name + " " + rest;
    StartsWithCreateTable(text, after);
    var region := BeforeFirst(after, "(");
    RegionKeepsName(after, name, rest);
    HeadOfRegion(region, name);
    TableOfHeadPrefix(text, name);
  }

  /** Cutting ` <name> <rest>` at its first `(` keeps ` <name> `. */
  lemma RegionKeepsName(after: string, name: string, rest: string)
    requires forall k | 0 <= k < |name| :: name[k] != '('
    requires after == " " + name + " " + rest
    ensures var region := BeforeFirst(after, "(");
            |name| + 2 <= |region| && region[..|name| + 2] == " " + name + " "
  {
    forall k | 0 <= k < |name| + 2 ensures !OccursAt(after, "(", k) {
      assert 0 < k <= |name| ==> after[k] == name[k - 1];
      assert k + 1 <= |after| ==> after[k..k + 1][0] == after[k];
    }
    assert after[..|name| + 2] == " " + name + " ";
  }

  /** Stripping ` <name> <w>` leaves `<name>`, then a space or nothing. */
  lemma HeadOfRegion(region: string, name: string)
    requires name != [] && forall k | 0 <= k < |name| :: !IsSpace(name[k])
    requires |name| + 2 <= |region| && region[..|name| + 2] == " " + name + " "
    ensures var head := Strip(region);
            StartsWith(head, name) && (|head| == |name| || IsSpace(head[|name|]))
  {
    var n := |name|;
    NameInRegion(region, name);
    var i, j := StripParts(region);
    assert i == 1 && n < j;
    assert region[1..j][..n] == region[1..n + 1] == name;
    assert j > n + 1 ==> region[1..j][n] == region[n + 1];
  }

  /** Where ` <name> ` sits in the region: a space, the name's characters, a space. */
  lemma NameInRegion(region: string, name: string)
    requires name != [] && forall k | 0 <= k < |name| :: !IsSpace(name[k])
    requires |name| + 2 <= |region| && region[..|name| + 2] == " " + name + " "
    ensures IsSpace(region[0]) && IsSpace(region[|name| + 1])
    ensures !IsSpace(region[1]) && !IsSpace(region[|name|])
    ensures region[1..|name| + 1] == name
    ensures !AllSpace(region)
  {
    assert region[0] == region[..|name| + 2][0];
    assert region[|name| + 1] == region[..|name| + 2][|name| + 1];
    assert region[1..|name| + 1] == region[..|name| + 2][1..|name| + 1];
    assert region[1] == name[0] && region[|name|] == name[|name| - 1];
  }

  /** A head that opens with the one-token name, then a space or its end, names that table. */
  lemma TableOfHeadPrefix(text: string, name: string)
    requires name != [] && forall k | 0 <= k < |name| :: !IsSpace(name[k])
    requires Contains(Lower(text), "create table")
    requires StartsWith(SchemaHead(text), name)
    requires |SchemaHead(text)| == |name| || IsSpace(SchemaHead(text)[|name|])
    ensures ExtractTable(text) == Ok(name)
  {
    var head := SchemaHead(text);
    assert forall k | 0 <= k < |name| :: head[k] == name[k];
    RunEndUnique(head, 0, NonSpace, |name|);
    assert RunEnd(head, 0, Space) == 0;
    assert head[0..|name|] == name;
    assert FirstToken(head) == Some(name);
    StripUnique([], name, []);
    assert [] + name + [] == name;
  }

  /** Text that starts with `CREATE TABLE` is read from just after it. */
  lemma StartsWithCreateTable(text: string, after: string)
    requires text == "CREATE TABLE" + after
    ensures Contains(Lower(text), "create table")
    ensures AfterFirst(text, "CREATE TABLE") == after
  {
    LowerConcat("CREATE TABLE", after);
    assert Lower("CREATE TABLE") == "create table";
    ContainsAt(Lower(text), "create table", 0);
    FindFirst(text, "CREATE TABLE", 0);
  }

  /** ` name (rest` is cut at its first `(` and stripped to `name`. */
  lemma HeadOfSchema(name: string, rest: string)
    requires name != [] && forall k | 0 <= k < |name| :: !IsSpace(name[k]) && name[k] != '('
    ensures Strip(BeforeFirst(" " + name + " (" + rest, "(")) == name
  {
    var after := " " + name + " (" + rest;
    var n := |name| + 2;
    assert after[n] == '(';
    CharOccurs(after, '(', n);
    forall k | 0 <= k < n ensures !OccursAt(after, "(", k) {
      CharOccurs(after, '(', k);
      if 0 < k <= |name| { assert after[k] == name[k - 1]; }
    }
    FindFirst(after, "(", n);
    assert BeforeFirst(after, "(") == [' '] + name + [' '];
    StripUnique([' '], name, [' ']);
  }

  /**
   * The form's text has no `Question:` before the one it adds: one inside the
   * schema is excluded, and one that overlaps ` ; ` would hold a space or a semicolon.
   */
  lemma NoMarkerBefore(schema: string, question: string, k: int)
    requires !Contains(schema, "Question:") && 0 <= k < |schema| + 3
    ensures !OccursAt(FormInput(schema, question), "Question:", k)
  {
    var text := FormInput(schema, question);
    if k + 9 <= |schema| {
      NotContains(schema, "Question:");
      assert !OccursAt(schema, "Question:", k);
      assert text[k..k + 9] == schema[k..k + 9];
    } else {
      var m := if k <= |schema| then |schema| else k;
      assert text[m] == ' ' || text[m] == ';';
      assert k + 9 <= |text| ==> text[k..k + 9][m - k] == text[m];
    }
  }

  lemma QuestionOfFormInput(schema: string, question: string)
    requires !Contains(schema, "Question:")
    ensures ExtractQuestion(FormInput(schema, question)) == Lower(Strip(question))
  {
    var text := FormInput(schema, question);
    MarkerAfterSchema(schema, question);
    LowerHasMarker(schema, question);
    assert AfterFirst(text, "Question:") == [' '] + question;
    StripPadding([' '], question, []);
    assert [' '] + question + [] == [' '] + question;
  }

  /** The first `Question:` of the form's text is the one the form adds. */
  lemma MarkerAfterSchema(schema: string, question: string)
    requires !Contains(schema, "Question:")
    ensures Find(FormInput(schema, question), "Question:", 0) == |schema| + 3
  {
    var text := FormInput(schema, question);
    var p := |schema| + 3;
    assert text[p..p + 9] == "Question:";
    forall k | 0 <= k < p ensures !OccursAt(text, "Question:", k) {
      NoMarkerBefore(schema, question, k);
    }
    FindFirst(text, "Question:", p);
  }

  /** The lower-cased form text contains `question:`. */
  lemma LowerHasMarker(schema: string, question: string)
    ensures Contains(Lower(FormInput(schema, question)), "question:")
  {
    var text := FormInput(schema, question);
    var p := |schema| + 3;
    assert text[p..p + 9] == "Question:";
    assert Lower(text)[p..p + 9] == Lower("Question:");
    assert Lower("Question:") == "question:";
    ContainsAt(Lower(text), "question:", p);
  }
}
