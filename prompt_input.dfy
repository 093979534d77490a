/**
 * The prompt normaliser of the Gradio app (app.py, `parse_input`): input that
 * already names a schema and a question is passed through, anything else is
 * given a default one-table schema.
 */
module PromptInput {
  import opened PyStr

  /** The schema given to a bare question. */
  const DefaultSchema: string := "CREATE TABLE table (column TEXT, value REAL);"

  /**
   * The test `parse_input` applies: `CREATE TABLE` in any case, and the
   * question marker `Question:` in exactly this case.
   */
  predicate HasSchemaAndQuestion(u: string): (r: bool)
    ensures r ==> Contains(u, "Question:")
    ensures (Contains(u, "CREATE TABLE") || Contains(u, "create table")) && Contains(u, "Question:") ==> r
  {
    SchemaInEitherCase(u);
    Contains(Upper(u), "CREATE TABLE") && Contains(u, "Question:")
  }

  /** `CREATE TABLE` written in upper or in lower case passes the case-blind half of the test. */
  lemma SchemaInEitherCase(u: string)
    ensures Contains(u, "CREATE TABLE") || Contains(u, "create table") ==> Contains(Upper(u), "CREATE TABLE")
  {
    if Contains(u, "CREATE TABLE") {
      UpperKeepsContains(u, "CREATE TABLE");
      UpperOfUpperCase("CREATE TABLE");
    }
    if Contains(u, "create table") {
      UpperKeepsContains(u, "create table");
      UpperOfCreateTable();
    }
  }

  lemma UpperOfCreateTable()
    ensures Upper("create table") == "CREATE TABLE"
  {
    var s := "create table";
    forall k | 0 <= k < 12 ensures Upper(s)[k] == "CREATE TABLE"[k] {
    }
  }

  /** What a bare question becomes: it passes the test, whatever the user typed, and ends in what was typed. */
  function Wrap(u: string): (r: string)
    ensures HasSchemaAndQuestion(r) && EndsWith(r, u)
  {
    var w := DefaultSchema + " Question: " + u;
    assert w == "CREATE TABLE" + w[12..];
    OpensWithSchema(w);
    assert w[|DefaultSchema| + 1..|DefaultSchema| + 10] == "Question:";
    ContainsAt(w, "Question:", |DefaultSchema| + 1);
    assert w[|w| - |u|..] == u;
    w
  }

  /** Text that opens with `CREATE TABLE` passes the schema half of the test. */
  lemma OpensWithSchema(w: string)
    requires |w| >= 12 && w[..12] == "CREATE TABLE"
    ensures Contains(Upper(w), "CREATE TABLE")
  {
    var rest := w[12..];
    assert w == "CREATE TABLE" + rest;
    UpperConcat("CREATE TABLE", rest);
    UpperOfUpperCase("CREATE TABLE");
    assert OccursAt(Upper(w), "CREATE TABLE", 0);
    ContainsAt(Upper(w), "CREATE TABLE", 0);
  }

  /** `parse_input(user_input)` */
  function ParseInput(userInput: string): (r: string)
    ensures HasSchemaAndQuestion(r)
    ensures EndsWith(r, userInput)
    ensures r == userInput <==> HasSchemaAndQuestion(userInput)
    ensures r != userInput ==> r == DefaultSchema + " Question: " + userInput
  {
    if HasSchemaAndQuestion(userInput) then userInput
    else Wrap(userInput)
  }

  /** Normalising a normalised prompt changes nothing. */
  lemma ParseInputIdempotent(u: string)
    ensures ParseInput(ParseInput(u)) == ParseInput(u)
  {
  }

  /**
   * The question marker is matched case-sensitively: a schema followed by a
   * lower-case `question:` still gets the default schema in front of it.
   */
  lemma LowerCaseMarkerIsWrapped()
    ensures ParseInput("CREATE TABLE t (a TEXT); question: how many?")
         == Wrap("CREATE TABLE t (a TEXT); question: how many?")
  {
    var u := "CREATE TABLE t (a TEXT); question: how many?";
    assert !Contains(u, "Question:") by {
      forall i | 0 <= i <= |u| ensures !OccursAt(u, "Question:", i) {
        assert i + 9 <= |u| ==> u[i..i + 9][0] == u[i];
      }
      ContainsSpec(u, "Question:");
    }
  }
}
