/**
 * The training-set builder (src/dataset_builder.py, class `SQLDatasetBuilder`):
 * it holds a list of input/output examples, which `create_training_example`
 * replaces with a fixed seed list and `spider_dataset` with a loaded list cut
 * to `max_examples`, and it turns the examples into model inputs and labels
 * whose padding is masked out of the loss with -100.
 */
module DatasetBuilder {
  import opened Wrappers
  import opened PyStr

  /** One `{"input": ..., "output": ...}` entry: a question and its SQL. */
  datatype TrainingExample = TrainingExample(input: string, output: string)

  /** The label id the loss ignores. */
  const IgnoreIndex: int := -100

  /** The examples `create_training_example` writes, in order. */
  const SeedExamples: seq<TrainingExample> := [
      TrainingExample("Get all users", "SELECT * FROM users"),
      TrainingExample("Show all products", "SELECT * FROM products"),
      TrainingExample("List all orders", "SELECT * FROM orders"),
      TrainingExample("Get all customers", "SELECT * FROM customers"),
      TrainingExample("Show all employees", "SELECT * FROM employees"),
      TrainingExample("Find active orders", "SELECT * FROM orders WHERE status = 'active'"),
      TrainingExample("Get pending orders", "SELECT * FROM orders WHERE status = 'pending'"),
      TrainingExample("Show products in Electronics category", "SELECT * FROM products WHERE category = 'Electronics'"),
      TrainingExample("Find users from New York", "SELECT * FROM users WHERE city = 'New York'"),
      TrainingExample("Get users with age greater than 25", "SELECT * FROM users WHERE age > 25"),
      TrainingExample("Show products with price less than 100", "SELECT * FROM products WHERE price < 100"),
      TrainingExample("Find orders with amount greater than 500", "SELECT * FROM orders WHERE amount > 500"),
      TrainingExample("Get employees with salary less than 50000", "SELECT * FROM employees WHERE salary < 50000"),
      TrainingExample("Show products with stock greater than or equal to 10", "SELECT * FROM products WHERE stock >= 10"),
      TrainingExample("Count total products", "SELECT COUNT(*) FROM products"),
      TrainingExample("Count active users", "SELECT COUNT(*) FROM users WHERE active = true"),
      TrainingExample("Count orders from today", "SELECT COUNT(*) FROM orders WHERE date = CURRENT_DATE"),
      TrainingExample("Count customers in California", "SELECT COUNT(*) FROM customers WHERE state = 'California'"),
      TrainingExample("Calculate total sales", "SELECT SUM(amount) FROM orders"),
      TrainingExample("Get average product price", "SELECT AVG(price) FROM products"),
      TrainingExample("Calculate average employee salary", "SELECT AVG(salary) FROM employees"),
      TrainingExample("Sum all order amounts", "SELECT SUM(amount) FROM orders"),
      TrainingExample("Get orders with customer names", "SELECT orders.*, customers.name FROM orders JOIN customers ON orders.customer_id = customers.id"),
      TrainingExample("Show products with category names", "SELECT products.*, categories.name FROM products JOIN categories ON products.category_id = categories.id"),
      TrainingExample("List all customers with their orders", "SELECT customers.name, orders.* FROM customers JOIN orders ON customers.id = orders.customer_id"),
      TrainingExample("Get employees with their department names", "SELECT employees.*, departments.name FROM employees JOIN departments ON employees.department_id = departments.id"),
      TrainingExample("Show orders with product details", "SELECT orders.*, products.name FROM orders JOIN products ON orders.product_id = products.id"),
      TrainingExample("List products ordered by price", "SELECT * FROM products ORDER BY price"),
      TrainingExample("Show users sorted by name", "SELECT * FROM users ORDER BY name"),
      TrainingExample("Get orders sorted by date descending", "SELECT * FROM orders ORDER BY date DESC"),
      TrainingExample("List employees by salary highest first", "SELECT * FROM employees ORDER BY salary DESC"),
      TrainingExample("Get top 5 products", "SELECT * FROM products LIMIT 5"),
      TrainingExample("Show first 10 users", "SELECT * FROM users LIMIT 10"),
      TrainingExample("List 3 most recent orders", "SELECT * FROM orders ORDER BY date DESC LIMIT 3"),
      TrainingExample("Count orders by status", "SELECT status, COUNT(*) FROM orders GROUP BY status"),
      TrainingExample("Get total sales by product", "SELECT product_id, SUM(amount) FROM orders GROUP BY product_id"),
      TrainingExample("Count users by city", "SELECT city, COUNT(*) FROM users GROUP BY city"),
      TrainingExample("Get top 5 expensive products", "SELECT * FROM products ORDER BY price DESC LIMIT 5"),
      TrainingExample("Find active users older than 30", "SELECT * FROM users WHERE active = true AND age > 30"),
      TrainingExample("Count pending orders with amount over 100", "SELECT COUNT(*) FROM orders WHERE status = 'pending' AND amount > 100"),
      TrainingExample("Get average price of Electronics products", "SELECT AVG(price) FROM products WHERE category = 'Electronics'")
    ]

  // ---------------------------------------------------------------------------
  // Label masking
  // ---------------------------------------------------------------------------

  /** `[-100 if id == pad_token_id else id for id in label_id]` */
  function MaskRow(row: seq<int>, pad: int): (r: seq<int>)
    ensures |r| == |row|
    ensures forall k | 0 <= k < |row| :: row[k] == pad ==> r[k] == IgnoreIndex
    ensures forall k | 0 <= k < |row| :: row[k] != pad ==> r[k] == row[k]
  {
    seq(|row|, k requires 0 <= k < |row| => if row[k] == pad then IgnoreIndex else row[k])
  }

  /** Masking leaves no padding behind, unless the pad id is -100 itself. */
  lemma MaskRemovesPadding(row: seq<int>, pad: int)
    requires pad != IgnoreIndex
    ensures forall k | 0 <= k < |row| :: MaskRow(row, pad)[k] != pad
    ensures forall k | 0 <= k < |row| :: MaskRow(row, pad)[k] == IgnoreIndex <==> row[k] == pad || row[k] == IgnoreIndex
  {
  }

  /** Masking a masked row changes nothing, whatever the pad id. */
  lemma MaskIdempotent(row: seq<int>, pad: int)
    ensures MaskRow(MaskRow(row, pad), pad) == MaskRow(row, pad)
  {
    var once := MaskRow(row, pad);
    assert forall k | 0 <= k < |row| :: MaskRow(once, pad)[k] == once[k];
  }

  /** The questions of the examples, in order. */
  function Inputs(examples: seq<TrainingExample>): (r: seq<string>)
    ensures |r| == |examples| && forall i | 0 <= i < |r| :: r[i] == examples[i].input
  {
    seq(|examples|, i requires 0 <= i < |examples| => examples[i].input)
  }

  /** The SQL statements of the examples, in order. */
  function Outputs(examples: seq<TrainingExample>): (r: seq<string>)
    ensures |r| == |examples| && forall i | 0 <= i < |r| :: r[i] == examples[i].output
  {
    seq(|examples|, i requires 0 <= i < |examples| => examples[i].output)
  }

  /** What the tokenizer returns for a batch: ids and attention mask, one row per text. */
  datatype Encoding = Encoding(inputIds: seq<seq<int>>, attentionMask: seq<seq<int>>)

  /** The columns of the dataset `prepare_dataset` returns. */
  datatype TrainingSet = TrainingSet(inputIds: seq<seq<int>>, attentionMask: seq<seq<int>>, labels: seq<seq<int>>)

  // ---------------------------------------------------------------------------
  // Truncation to max_examples
  // ---------------------------------------------------------------------------

  /** Python's `xs[:n]`: a negative `n` counts from the end. */
  function PyPrefix<T>(xs: seq<T>, n: int): (r: seq<T>)
    ensures |r| == (if n >= 0 then Min(n, |xs|) else Max(0, |xs| + n))
    ensures forall i | 0 <= i < |r| :: r[i] == xs[i]
  {
    xs[..if n >= 0 then Min(n, |xs|) else Max(0, |xs| + n)]
  }

  /** A limit at least the length keeps everything. */
  lemma PyPrefixAll<T>(xs: seq<T>, n: int)
    requires n >= |xs|
    ensures PyPrefix(xs, n) == xs
  {
    assert xs[..|xs|] == xs;
  }

  // ---------------------------------------------------------------------------
  // The builder
  // ---------------------------------------------------------------------------

  class SqlDatasetBuilder {
    /** The tokenizer's `pad_token_id`. */
    const padTokenId: int
    /** `self.examples` */
    var examples: seq<TrainingExample>

    /** `__init__`: the tokenizer itself is not modelled, only its pad id. */
    constructor(padTokenId: int)
      ensures this.padTokenId == padTokenId && examples == []
    {
      this.padTokenId := padTokenId;
      examples := [];
    }

    /** `create_training_example`: replaces the examples by the seed list and returns it. */
    method CreateTrainingExample() returns (r: seq<TrainingExample>)
      modifies this
      ensures examples == SeedExamples && r == examples
      ensures |r| == 41
    {
      examples := SeedExamples;
      r := examples;
    }

    /** The loop that builds `tf_list` from the tokenised labels. */
    method MaskLabels(labelIds: seq<seq<int>>) returns (tfList: seq<seq<int>>)
      ensures |tfList| == |labelIds|
      ensures forall i | 0 <= i < |labelIds| :: tfList[i] == MaskRow(labelIds[i], padTokenId)
    {
      tfList := [];
      var i := 0;
      while i < |labelIds|
        invariant 0 <= i <= |labelIds|
        invariant |tfList| == i
        invariant forall j | 0 <= j < i :: tfList[j] == MaskRow(labelIds[j], padTokenId)
      {
        tfList := tfList + [MaskRow(labelIds[i], padTokenId)];
        i := i + 1;
      }
    }

    /**
     * `prepare_dataset`, with the tokenizer (padding and truncating to 128
     * tokens) passed in: the inputs and their attention mask as tokenised,
     * the labels tokenised from the outputs and masked.
     */
    method PrepareDataset(tokenize: seq<string> -> Encoding) returns (ds: TrainingSet)
      ensures ds.inputIds == tokenize(Inputs(examples)).inputIds
      ensures ds.attentionMask == tokenize(Inputs(examples)).attentionMask
      ensures |ds.labels| == |tokenize(Outputs(examples)).inputIds|
      ensures forall i | 0 <= i < |ds.labels| :: ds.labels[i] == MaskRow(tokenize(Outputs(examples)).inputIds[i], padTokenId)
    {
      var modelInputs := tokenize(Inputs(examples));
      var labels := tokenize(Outputs(examples));
      var tfList := MaskLabels(labels.inputIds);
      ds := TrainingSet(modelInputs.inputIds, modelInputs.attentionMask, tfList);
    }

    /**
     * `spider_dataset`, with the examples read from the JSON file passed in.
     * `if max_examples:` is false for `None` and for 0; a negative limit is
     * true and cuts from the end.
     */
    method SpiderDataset(loaded: seq<TrainingExample>, maxExamples: Option<int>)
      modifies this
      ensures examples == if maxExamples.Some? && maxExamples.value != 0 then PyPrefix(loaded, maxExamples.value) else loaded
    {
      examples := loaded;
      if maxExamples.Some? && maxExamples.value != 0 {
        examples := PyPrefix(examples, maxExamples.value);
      }
    }
  }
}
