/**
 * The sentiment wrapper (src/models/bert/model.py): the label table of
 * `SentimentModelConfig`, the single-text `analyze` with its neutral fallback,
 * and `analyze_dataframe`, which labels a column of a data frame in place.
 * The transformer pipeline is a parameter: the raw label of its top prediction
 * for a text, or `None` where the call raises.
 */
module Sentiment {
  import opened Wrappers
  import opened Text
  import opened Preprocess

  const NEUTRAL: string := "netral"
  const DEFAULT_MODEL_ID: string := "mdhugol/indonesia-bert-sentiment-classification"

  /** `SentimentModelConfig`: a model identifier and a table from the model's
      raw labels to sentiment names. */
  datatype SentimentModelConfig = SentimentModelConfig(modelId: string, labels: map<string, string>)

  /** The table `__post_init__` fills in. */
  function DefaultLabels(): (m: map<string, string>)
    ensures m.Keys == {"LABEL_0", "LABEL_1", "LABEL_2"}
    ensures forall k :: k in m ==> m[k] in {"positif", "netral", "negatif"}
  {
    map["LABEL_0" := "positif", "LABEL_1" := "netral", "LABEL_2" := "negatif"]
  }

  /** `SentimentModelConfig(model_id, labels)`: a table given is kept as it is;
      only a missing one is replaced by the three-entry default. */
  function NewConfig(modelId: string, labels: Option<map<string, string>>): (c: SentimentModelConfig)
    ensures c.modelId == modelId
    ensures labels.Some? ==> c.labels == labels.value
    ensures labels.None? ==> c.labels.Keys == {"LABEL_0", "LABEL_1", "LABEL_2"}
    ensures labels.None? ==> c.labels["LABEL_0"] == "positif" && c.labels["LABEL_1"] == "netral" && c.labels["LABEL_2"] == "negatif"
  {
    SentimentModelConfig(modelId, if labels.None? then DefaultLabels() else labels.value)
  }

  /** The default table names exactly the three sentiments. */
  lemma DefaultLabelsAreSentiments()
    ensures DefaultLabels().Values == {"positif", "netral", "negatif"}
  {
    var m := DefaultLabels();
    assert m["LABEL_0"] == "positif" && m["LABEL_1"] == "netral" && m["LABEL_2"] == "negatif";
    forall v | v in m.Values ensures v in {"positif", "netral", "negatif"} {
      var k :| k in m && m[k] == v;
    }
  }

  /** An `IndoBERTForSentimentAnalysis`: its configuration and its pipeline. */
  datatype Analyzer = Analyzer(config: SentimentModelConfig, pipe: string -> Option<string>)

  /** `IndoBERTForSentimentAnalysis(config)`: without a configuration, the
      default one. Loading the model is not part of this model. */
  function NewAnalyzer(config: Option<SentimentModelConfig>, pipe: string -> Option<string>): (a: Analyzer)
    ensures a.pipe == pipe
    ensures config.Some? ==> a.config == config.value
    ensures config.None? ==> a.config.modelId == DEFAULT_MODEL_ID && a.config.labels == DefaultLabels()
  {
    Analyzer(if config.Some? then config.value else NewConfig(DEFAULT_MODEL_ID, None), pipe)
  }

  /** `analyze(text)`: never fails; its result is a sentiment of the table or
      the neutral one. */
  function Analyze(cc: CharClasses, a: Analyzer, text: Cell): (r: string)
    ensures r == NEUTRAL || r in a.config.labels.Values
  {
    if !text.Str? && IsNa(text) then NEUTRAL
    else
      var t := Strip(cc, StrOf(text));
      if t == "" then NEUTRAL else Classify(a, t)
  }

  /** The `try` block of `analyze`: the table's sentiment for the pipeline's
      raw label, or neutral when the pipeline raises or the table has no entry. */
  function Classify(a: Analyzer, t: string): (r: string)
    ensures r == NEUTRAL || r in a.config.labels.Values
  {
    match a.pipe(t)
    case None => NEUTRAL
    case Some(raw) => if raw in a.config.labels then a.config.labels[raw] else NEUTRAL
  }

  /** A missing value is neutral. */
  lemma AnalyzeMissing(cc: CharClasses, a: Analyzer, text: Cell)
    requires IsNa(text)
    ensures Analyze(cc, a, text) == NEUTRAL
  {
  }

  /** Empty or whitespace-only text is neutral, whatever the model would say:
      the pipeline is not consulted. */
  lemma AnalyzeBlank(cc: CharClasses, a: Analyzer, s: string, pipe: string -> Option<string>)
    requires forall i :: 0 <= i < |s| ==> cc.isSpace(s[i])
    ensures Analyze(cc, a, Str(s)) == NEUTRAL
    ensures Analyze(cc, a.(pipe := pipe), Str(s)) == NEUTRAL
  {
    StripBlank(cc, s);
    AnalyzeText(cc, a, s);
    AnalyzeText(cc, a.(pipe := pipe), s);
  }

  /** Otherwise the model sees the stripped text: the result is the table's
      sentiment for the raw label, or neutral when the pipeline raises or the
      label is not in the table. */
  lemma AnalyzeLabel(cc: CharClasses, a: Analyzer, text: Cell)
    requires !IsNa(text)
    requires Strip(cc, StrOf(text)) != ""
    ensures var p := a.pipe(Strip(cc, StrOf(text)));
      Analyze(cc, a, text) == if p.Some? && p.value in a.config.labels then a.config.labels[p.value] else NEUTRAL
  {
  }

  /** Surrounding whitespace makes no difference to the sentiment. */
  lemma AnalyzeIgnoresPadding(cc: CharClasses, a: Analyzer, s: string)
    ensures Analyze(cc, a, Str(s)) == Analyze(cc, a, Str(Strip(cc, s)))
  {
    var t := Strip(cc, s);
    StripIdempotent(cc, s);
    AnalyzeText(cc, a, s);
    AnalyzeText(cc, a, t);
  }

  lemma AnalyzeText(cc: CharClasses, a: Analyzer, s: string)
    ensures Analyze(cc, a, Str(s)) == if Strip(cc, s) == "" then NEUTRAL else Classify(a, Strip(cc, s))
  {
  }

  /** With the default table the result is one of the three sentiments. */
  lemma AnalyzeDefaultRange(cc: CharClasses, a: Analyzer, text: Cell)
    requires a.config.labels == DefaultLabels()
    ensures Analyze(cc, a, text) in {"positif", "netral", "negatif"}
  {
    DefaultLabelsAreSentiments();
  }

  /** The pipeline classifies `t` and the table knows its raw label. */
  predicate Mapped(a: Analyzer, t: string) {
    a.pipe(t).Some? && a.pipe(t).value in a.config.labels
  }

  /** The sentiments the batched path gives `texts`, row by row, or `None`
      when some row cannot be labelled: the pipeline raises or the table has
      no entry for the raw label, and nothing falls back to neutral. */
  function LabelAll(a: Analyzer, texts: seq<string>): (r: Option<seq<string>>)
    ensures r.Some? <==> forall i :: 0 <= i < |texts| ==> Mapped(a, texts[i])
    ensures r.Some? ==> |r.value| == |texts|
    ensures r.Some? ==> forall i :: 0 <= i < |texts| ==> r.value[i] == a.config.labels[a.pipe(texts[i]).value]
  {
    if texts == [] then Some([])
    else if !Mapped(a, texts[0]) then None
    else match LabelAll(a, texts[1..])
      case None => None
      case Some(rest) => Some([a.config.labels[a.pipe(texts[0]).value]] + rest)
  }

  /** The batched path agrees with `analyze` on text that needs no stripping
      and that the table can label; on a row the table cannot label,
      `analyze` says neutral but the batched path fails. */
  lemma BatchAgreesWithAnalyze(cc: CharClasses, a: Analyzer, texts: seq<string>, i: nat)
    requires i < |texts|
    requires Strip(cc, texts[i]) == texts[i] != ""
    ensures Mapped(a, texts[i]) && LabelAll(a, texts).Some? ==> LabelAll(a, texts).value[i] == Analyze(cc, a, Str(texts[i]))
    ensures !Mapped(a, texts[i]) ==> LabelAll(a, texts).None? && Analyze(cc, a, Str(texts[i])) == NEUTRAL
  {
    AnalyzeText(cc, a, texts[i]);
  }

  /** `.astype(str)` on a column. */
  function AsStr(cells: seq<Cell>): (r: seq<string>)
    ensures |r| == |cells|
    ensures forall i :: 0 <= i < |cells| ==> r[i] == StrOf(cells[i])
  {
    seq(|cells|, i requires 0 <= i < |cells| => StrOf(cells[i]))
  }

  /** Sentiment names stored as column values. */
  function LabelCells(labels: seq<string>): (r: seq<Cell>)
    ensures |r| == |labels|
  {
    seq(|labels|, i requires 0 <= i < |labels| => Str(labels[i]))
  }

  /** A pandas data frame: named columns in order, each holding one value per row. */
  class DataFrame {
    var columns: seq<string>
    var data: map<string, seq<Cell>>
    var rows: nat

    ghost predicate Valid()
      reads this
    {
      && (forall name :: name in data <==> name in columns)
      && (forall i, j :: 0 <= i < j < |columns| ==> columns[i] != columns[j])
      && (forall name :: name in data ==> |data[name]| == rows)
    }

    constructor (columns: seq<string>, data: map<string, seq<Cell>>, rows: nat)
      requires forall name :: name in data <==> name in columns
      requires forall i, j :: 0 <= i < j < |columns| ==> columns[i] != columns[j]
      requires forall name :: name in data ==> |data[name]| == rows
      ensures Valid()
      ensures this.columns == columns && this.data == data && this.rows == rows
    {
      this.columns := columns;
      this.data := data;
      this.rows := rows;
    }

    /** `df[name] = values`: the column is replaced where it stands, or
        appended when it is new; the other columns do not change. */
    method SetColumn(name: string, values: seq<Cell>)
      requires Valid()
      requires |values| == rows
      modifies this
      ensures Valid()
      ensures rows == old(rows)
      ensures columns == if name in old(columns) then old(columns) else old(columns) + [name]
      ensures data == old(data)[name := values]
    {
      if name !in columns {
        columns := columns + [name];
      }
      data := data[name := values];
    }
  }

  /** Why `analyze_dataframe` raises. */
  datatype Error =
    | ColumnNotFound(column: string)  // the ValueError for a missing text column
    | EmptyDataset                    // the IndexError of `dataset[0]` on a frame without rows
    | BatchFailed                     // the pipeline raised, or the table has no entry for a raw label

  /** `analyze_dataframe(df, x, y)`: checks that column `x` exists, labels its
      values (as strings, so a missing value is classified as "nan") and stores
      the sentiments, in row order, in column `y` of the same frame, which it
      returns. When it fails the frame is untouched. */
  method AnalyzeDataframe(a: Analyzer, df: DataFrame, x: string, y: string) returns (r: Result<DataFrame, Error>)
    requires df.Valid()
    modifies df
    ensures df.Valid()
    ensures x !in old(df.columns) ==> r == Failure(ColumnNotFound(x))
    ensures x in old(df.columns) && old(df.rows) == 0 ==> r == Failure(EmptyDataset)
    ensures x in old(df.columns) && old(df.rows) > 0 ==>
      (r.Success? <==> LabelAll(a, AsStr(old(df.data[x]))).Some?)
    ensures r.Failure? ==> unchanged(df)
    ensures r.Success? ==> r.value == df && df.rows == old(df.rows)
    ensures r.Success? ==> df.columns == if y in old(df.columns) then old(df.columns) else old(df.columns) + [y]
    ensures r.Success? ==> forall c :: c in old(df.data) && c != y ==> df.data[c] == old(df.data[c])
    ensures r.Success? ==> y in df.data && |df.data[y]| == df.rows
    ensures r.Success? ==> forall i :: 0 <= i < df.rows ==>
      && Mapped(a, StrOf(old(df.data[x])[i]))
      && df.data[y][i] == Str(a.config.labels[a.pipe(StrOf(old(df.data[x])[i])).value])
  {
    if x !in df.columns {
      return Failure(ColumnNotFound(x));
    }
    var texts := AsStr(df.data[x]);
    if |texts| == 0 {
      return Failure(EmptyDataset);
    }
    var labels := LabelAll(a, texts);
    if labels.None? {
      return Failure(BatchFailed);
    }
    ghost var cells := df.data[x];
    assert forall i :: 0 <= i < |texts| ==> texts[i] == StrOf(cells[i]);
    df.SetColumn(y, LabelCells(labels.value));
    assert df.data[y] == LabelCells(labels.value);
    return Success(df);
  }
}
