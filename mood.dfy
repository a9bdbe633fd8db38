/**
 * `analyze_mood`: the classifier's output for each text is tallied into
 * three buckets and copied into a per-item result table; and the insight
 * the dashboard derives from the tally. The classifier itself is opaque:
 * its output is a parameter. Scores are of an arbitrary type `S`, passed
 * through untouched.
 */
module Mood {

  import opened Builtins

  /** The three keys of `sentiment_counts`. */
  datatype Sentiment = Positive | Negative | Neutral {

    /** The key's spelling in the dictionary, which is also the label that selects it. */
    function Key(): string
    {
      match this
      case Positive => "POSITIVE"
      case Negative => "NEGATIVE"
      case Neutral => "NEUTRAL"
    }
  }

  /** One classifier result: its `label` and `score` keys. */
  datatype Prediction<S> = Prediction(labelName: string, score: S)

  /** One row of the result table: the text, the upper-cased label, the score. */
  datatype Row<S> = Row(text: string, labelName: string, score: S)

  /** The bucket an upper-cased label is counted in: any label but the two known ones is neutral. */
  function BucketOf(name: string): (b: Sentiment)
    ensures b != Neutral ==> b.Key() == name
    ensures b == Neutral <==> name != Positive.Key() && name != Negative.Key()
  {
    if name == Positive.Key() then Positive
    else if name == Negative.Key() then Negative
    else Neutral
  }

  /** How many rows of `rows` are counted in `bucket`. */
  function CountIn<S>(rows: seq<Row<S>>, bucket: Sentiment): (c: nat)
    ensures c <= |rows|
  {
    if rows == [] then 0
    else CountIn(rows[..|rows| - 1], bucket) + (if BucketOf(rows[|rows| - 1].labelName) == bucket then 1 else 0)
  }

  /** The `sentiment_counts` dictionary a table gives. */
  function Tally<S>(rows: seq<Row<S>>): (counts: map<Sentiment, nat>)
    ensures forall b :: b in counts ==> counts[b] <= |rows|
  {
    map[Positive := CountIn(rows, Positive), Negative := CountIn(rows, Negative), Neutral := CountIn(rows, Neutral)]
  }

  /** The three counts of a tally add up to the number of rows. */
  lemma {:induction false} TallyConservation<S>(rows: seq<Row<S>>)
    ensures Tally(rows).Keys == {Positive, Negative, Neutral}
    ensures Tally(rows)[Positive] + Tally(rows)[Negative] + Tally(rows)[Neutral] == |rows|
  {
    if rows != [] {
      TallyConservation(rows[..|rows| - 1]);
    }
  }

  /**
   * Appending a row adds one to the bucket of its label and leaves the two
   * other buckets as they were.
   */
  lemma TallyStep<S>(rows: seq<Row<S>>, row: Row<S>)
    ensures var b := BucketOf(row.labelName);
            Tally(rows + [row]) == Tally(rows)[b := Tally(rows)[b] + 1]
  {
    CountStep(rows, row, Positive);
    CountStep(rows, row, Negative);
    CountStep(rows, row, Neutral);
  }

  /** The positions of the rows that fall in `bucket`. */
  function Positions<S>(rows: seq<Row<S>>, bucket: Sentiment): set<nat>
  {
    set i: nat | i < |rows| && BucketOf(rows[i].labelName) == bucket
  }

  /** Appending a row adds one to the count of its own bucket and nothing to the others. */
  lemma CountStep<S>(rows: seq<Row<S>>, row: Row<S>, bucket: Sentiment)
    ensures CountIn(rows + [row], bucket) == CountIn(rows, bucket) + (if BucketOf(row.labelName) == bucket then 1 else 0)
  {
    assert (rows + [row])[..|rows|] == rows;
  }

  /** The recursive count agrees with the plain definition: the number of row positions in the bucket. */
  lemma {:induction false} CountInIsCardinality<S>(rows: seq<Row<S>>, bucket: Sentiment)
    ensures CountIn(rows, bucket) == |Positions(rows, bucket)|
  {
    if rows != [] {
      var n := |rows| - 1;
      CountInIsCardinality(rows[..n], bucket);
      PositionsStep(rows, bucket);
      assert n !in Positions(rows[..n], bucket);
    } else {
      assert Positions(rows, bucket) == {};
    }
  }

  lemma PositionsStep<S>(rows: seq<Row<S>>, bucket: Sentiment)
    requires rows != []
    ensures var n := |rows| - 1;
            Positions(rows, bucket)
            == Positions(rows[..n], bucket) + (if BucketOf(rows[n].labelName) == bucket then {n} else {})
  {
    var n := |rows| - 1;
    assert forall i :: 0 <= i < n ==> rows[..n][i] == rows[i];
  }

  /** The row `analyze_mood` appends for a text and its classifier result. */
  function TableRow<S>(text: string, result: Prediction<S>): (row: Row<S>)
    ensures row.text == text && row.score == result.score
  {
    Row(text, Upper(result.labelName), result.score)
  }

  /**
   * A label is counted as positive (negative) exactly when it spells
   * `positive` (`negative`) in any mix of letter cases; everything else is
   * neutral.
   */
  lemma BucketIgnoresCase(name: string)
    ensures BucketOf(Upper(name)) == Positive <==>
              |name| == |Positive.Key()| && forall j :: 0 <= j < |name| ==> SameLetterIgnoringCase(name[j], Positive.Key()[j])
    ensures BucketOf(Upper(name)) == Negative <==>
              |name| == |Negative.Key()| && forall j :: 0 <= j < |name| ==> SameLetterIgnoringCase(name[j], Negative.Key()[j])
  {
    UpperEqualsIgnoringCase(name, Positive.Key());
    UpperEqualsIgnoringCase(name, Negative.Key());
  }

  /** The table keeps the upper-cased raw label, not the bucket: `label_1` is stored as `LABEL_1` and counted as neutral. */
  lemma RawLabelKept<S>(text: string, score: S)
    ensures TableRow(text, Prediction("label_1", score)).labelName == "LABEL_1"
    ensures BucketOf(TableRow(text, Prediction("label_1", score)).labelName) == Neutral
  {
    assert Upper("label_1") == "LABEL_1";
  }

  /**
   * `analyze_mood(texts)` given the classifier's output `results` for
   * `texts`: one row per pair of `zip(texts, results)`, in order, and the
   * tally of those rows, whose counts add up to the number of rows.
   */
  method AnalyzeMood<S>(texts: seq<string>, results: seq<Prediction<S>>)
    returns (counts: map<Sentiment, nat>, table: seq<Row<S>>)
    ensures |table| == Min(|texts|, |results|)
    ensures forall i :: 0 <= i < |table| ==> table[i] == TableRow(texts[i], results[i])
    ensures counts == Tally(table)
    ensures counts.Keys == {Positive, Negative, Neutral}
    ensures counts[Positive] + counts[Negative] + counts[Neutral] == |table|
  {
    counts := map[Positive := 0, Negative := 0, Neutral := 0];
    table := [];
    var n := Min(|texts|, |results|);
    var i := 0;
    while i < n
      invariant 0 <= i <= n
      invariant |table| == i
      invariant forall k :: 0 <= k < i ==> table[k] == TableRow(texts[k], results[k])
      invariant counts == Tally(table)
    {
      var text, result := texts[i], results[i];
      var upper := Upper(result.labelName);
      if upper == Positive.Key() {
        counts := counts[Positive := counts[Positive] + 1];
      } else if upper == Negative.Key() {
        counts := counts[Negative := counts[Negative] + 1];
      } else {
        counts := counts[Neutral := counts[Neutral] + 1];
      }
      TallyStep(table, Row(text, upper, result.score));
      table := table + [Row(text, upper, result.score)];
      i := i + 1;
    }
    TallyConservation(table);
  }

  // ---------------------------------------------------------------------
  // The insight message
  // ---------------------------------------------------------------------

  datatype Insight = HighNegative | PositiveDominates

  /** The message shown under "Insight", chosen from the tally alone; a tie is not a warning. */
  function InsightOf(counts: map<Sentiment, nat>): (m: Insight)
    requires Positive in counts && Negative in counts
    ensures m == PositiveDominates <==> counts[Positive] >= counts[Negative]
  {
    if counts[Negative] > counts[Positive] then HighNegative else PositiveDominates
  }

  /**
   * For the tally of a table, the warning is shown exactly when strictly
   * more rows are negative than positive; a tie gives the positive message.
   */
  lemma InsightOfTable<S>(rows: seq<Row<S>>)
    ensures InsightOf(Tally(rows)) == HighNegative <==>
              |Positions(rows, Negative)| > |Positions(rows, Positive)|
  {
    CountInIsCardinality(rows, Negative);
    CountInIsCardinality(rows, Positive);
  }

  /** The neutral count plays no part in the insight. */
  lemma InsightIgnoresNeutral(counts: map<Sentiment, nat>, neutral: nat)
    requires Positive in counts && Negative in counts
    ensures InsightOf(counts[Neutral := neutral]) == InsightOf(counts)
  {
  }

  /** The tally of an empty table selects the positive message. */
  lemma EmptyRunShowsPositive<S>()
    ensures InsightOf(Tally<S>([])) == PositiveDominates
  {
  }

  /** The three example tallies: 2/5/1 warns, 5/2/1 and the 3/3/0 tie do not. */
  lemma InsightExamples()
    ensures InsightOf(map[Positive := 2, Negative := 5, Neutral := 1]) == HighNegative
    ensures InsightOf(map[Positive := 5, Negative := 2, Neutral := 1]) == PositiveDominates
    ensures InsightOf(map[Positive := 3, Negative := 3, Neutral := 0]) == PositiveDominates
  {
  }
}
