/**
 * The canned data every adapter falls back to: ten example texts repeated
 * three times (a 30-row table), and the draw with replacement from it.
 */
module MockCorpus {

  /** The ten distinct example texts, in table order. */
  const EXAMPLES: seq<string> := [
    "AI is transforming the world rapidly!",
    "I’m scared of what AI might do in the future.",
    "AI is neutral – it’s humans that matter.",
    "Amazing AI breakthrough announced by OpenAI!",
    "AI is overhyped in some areas, underused in others.",
    "So excited about the future of artificial intelligence!",
    "AI-generated content is both exciting and scary.",
    "I don't trust AI making decisions for humans.",
    "AI tools helped me become more productive.",
    "Too much hype, not enough real-world use cases."
  ]

  /** The mock table's text column: the examples list repeated three times. */
  const CORPUS: seq<string> := EXAMPLES + EXAMPLES + EXAMPLES

  /** Thirty rows, holding the ten examples and nothing else. */
  lemma CorpusLayout()
    ensures |EXAMPLES| == 10 && |CORPUS| == 30
    ensures forall t :: t in CORPUS <==> t in EXAMPLES
  {
  }

  /**
   * `sample(n, replace=True)` on a table of texts. The random generator is
   * the parameter `pick`: `pick(i)` is the row number chosen by the i-th
   * draw, taken modulo the table's size. Any behaviour of the generator is
   * some `pick`.
   */
  function SampleRows(rows: seq<string>, n: nat, pick: nat -> nat): (r: seq<string>)
    requires |rows| > 0
    ensures |r| == n && forall i :: 0 <= i < n ==> r[i] in rows
  {
    var r := seq(n, i requires 0 <= i < n => rows[pick(i) % |rows|]);
    assert forall i :: 0 <= i < n ==> r[i] == rows[pick(i) % |rows|];
    r
  }

  /** The first row that holds `t`. */
  function IndexOf(rows: seq<string>, t: string): (k: nat)
    requires t in rows
    ensures k < |rows| && rows[k] == t
    ensures forall j :: 0 <= j < k ==> rows[j] != t
  {
    if rows[0] == t then 0 else 1 + IndexOf(rows[1..], t)
  }

  /**
   * Conversely, every sequence of `|s|` texts of the table is the outcome of
   * some run of the generator (draws are with replacement, so `|s|` may
   * exceed the number of rows).
   */
  lemma SampleRowsReachesEvery(rows: seq<string>, s: seq<string>)
    requires |rows| > 0
    requires forall i :: 0 <= i < |s| ==> s[i] in rows
    ensures exists pick: nat -> nat :: SampleRows(rows, |s|, pick) == s
  {
    var rowOf := RowNumbers(rows, s);
    var pick: nat -> nat := (k: nat) => if k < |rowOf| then rowOf[k] else 0;
    var r := SampleRows(rows, |s|, pick);
    forall i | 0 <= i < |s|
      ensures r[i] == s[i]
    {
      assert pick(i) == rowOf[i];
      ModOfSmaller(rowOf[i], |rows|);
    }
    assert r == s;
  }

  /**
   * A row number below the table size is its own remainder. Kept apart from
   * the proof above, where the surrounding facts make this nonlinear step
   * expensive for the solver.
   */
  lemma ModOfSmaller(a: nat, n: nat)
    requires a < n
    ensures a % n == a
  {
  }

  /** For each text of `s`, a row of the table that holds it. */
  function RowNumbers(rows: seq<string>, s: seq<string>): (k: seq<nat>)
    requires forall i :: 0 <= i < |s| ==> s[i] in rows
    ensures |k| == |s|
    ensures forall i :: 0 <= i < |s| ==> k[i] < |rows| && rows[k[i]] == s[i]
  {
    seq(|s|, i requires 0 <= i < |s| => IndexOf(rows, s[i]))
  }

  /** What a caller may rely on from a mock draw: `n` texts, each from the corpus. */
  predicate MockDraw(s: seq<string>, n: nat)
  {
    |s| == n && forall i :: 0 <= i < |s| ==> s[i] in CORPUS
  }

  /** `mock_data["text"].sample(n, replace=True).tolist()`. */
  function Sample(n: nat, pick: nat -> nat): (r: seq<string>)
    ensures MockDraw(r, n)
  {
    SampleRows(CORPUS, n, pick)
  }

  /** The mock draws are exactly the sequences of `n` corpus texts. */
  lemma SampleReachesEveryDraw(s: seq<string>)
    requires MockDraw(s, |s|)
    ensures exists pick: nat -> nat :: Sample(|s|, pick) == s
  {
    SampleRowsReachesEvery(CORPUS, s);
    var pick: nat -> nat :| SampleRows(CORPUS, |s|, pick) == s;
    assert Sample(|s|, pick) == s;
  }
}
