# Indonesian sentiment pipeline: text normalisers and label wrapper

This project models the modellable core of a small Indonesian sentiment-analysis
pipeline in Dafny and proves properties of that model. The pipeline cleans text
before classification and labels it with an IndoBERT classifier. The model has
three parts.

- **The enhanced `Preprocessor`** (`src/data/preprocessor/preprocessor.py`) is
  the normaliser the preprocessing job uses. Its `lowercasing` does five things in
  order:
  - deletes emoji and ASCII emoticons;
  - deletes HTML-like tags;
  - turns every character that is not a word character, whitespace or `.` into a
    space;
  - collapses whitespace;
  - lower-cases.

  `fit` then tokenizes the cleaned text, drops stop words and, on request, joins
  the survivors with single spaces.
- **The simple `Preprocessor`** (`src/data/preprocessor.py`) runs the same
  pipeline. Its `lowercasing` only maps a missing value to `None` and
  lower-cases.
- **The sentiment wrapper** (`src/models/bert/model.py`) has three pieces:
  - the configuration holds a table from the model's raw labels to the
    sentiments `positif`, `netral` and `negatif`;
  - `analyze` labels one text and falls back to `netral` whenever anything is
    missing or fails;
  - `analyze_dataframe` labels a whole column in batches and writes the
    sentiments into another column of the same data frame.

Modules, one file each:

- `Wrappers` (`wrappers.dfy`) holds `Option` and `Result`.
- `Text` (`text.dfy`) models Python's `str.split()`, `" ".join`, `str.strip()` and
  `str.lower()`. It works over abstract character classes: `CharClasses` carries
  the regex classes `\w` and `\s` and a per-character `lower`. `Sane` collects
  the facts about them that the proofs about cleaned text use.
- `Preprocess` (`preprocess.dfy`) holds the steps both `Preprocessor` classes
  share word for word:
  - the stop-word list;
  - `stemming`, `tokenize` and `stopwords_removal`;
  - everything `fit` does after cleaning.

  It also defines the values a table cell can hold. The NLTK tokenizer, the
  Sastrawi stemmer and the NLTK stop-word corpus are parameters (`Toolkit`). A
  call that raises is `None`.
- `EnhancedPreprocessor` (`enhanced.dfy`) and `SimplePreprocessor`
  (`simple.dfy`) hold the two cleaning policies and their `fit`.
- `Sentiment` (`sentiment.dfy`) holds the label table, `analyze`, and
  `analyze_dataframe`.
  - The transformer pipeline is a parameter: the raw label of its top
    prediction, or `None` when it raises.
  - A pandas data frame is the class `DataFrame`. `analyze_dataframe` updates it
    in place.

## Model

| member | source | states |
|---|---|---|
| Text.Split | src/data/preprocessor/preprocessor.py:117 | `str.split()`: every token is non-empty and free of whitespace |
| Text.SplitAtSpace | src/data/preprocessor/preprocessor.py:117 | every whitespace character is a cut: the tokens of a text with a whitespace character in it are the tokens before it followed by the tokens after it |
| Text.SplitChunk | src/data/preprocessor/preprocessor.py:117 | a non-empty whitespace-free text is exactly one token |
| Text.SplitNonSpace | src/data/preprocessor/preprocessor.py:117 | the split tokens, written one after another, are exactly the non-whitespace characters of the text, in order |
| Text.SplitKeeps | src/data/preprocessor/preprocessor.py:74 | any property of the text's non-whitespace characters holds for every character of every split token |
| Text.Join | src/data/preprocessor/preprocessor.py:158 | `' '.join(ws)`: as long as all tokens together plus one separator between each two |
| Text.SplitJoin | src/data/preprocessor/preprocessor.py:158 | round trip: splitting the single-space join of non-empty, whitespace-free tokens gives the tokens back |
| Text.SplitJoinSubseq | src/data/preprocessor/preprocessor.py:155-158 | splitting the single-space join of any ordered selection of whitespace-free tokens gives that selection back |
| Text.Collapse | src/data/preprocessor/preprocessor.py:74 | `' '.join(text.split())` keeps the tokens: splitting the result gives the tokens of the input |
| Text.CollapseIdempotent | src/data/preprocessor/preprocessor.py:74 | `' '.join(s.split())` applied twice is the same as applied once |
| Text.JoinSingleSpaced | src/data/preprocessor/preprocessor.py:74 | joining non-empty, space-free tokens with one space gives no edge space and no double space |
| Text.SingleSpacedIsCollapsed | src/data/preprocessor/preprocessor.py:74 | single-spaced text whose only whitespace is the ASCII space is a fixed point of collapsing |
| Text.Lower | src/data/preprocessor.py:35 | `str.lower()`, one character at a time: text whose every character is its own lower case is unchanged |
| Text.LowerJoin | src/data/preprocessor/preprocessor.py:74-76 | lower-casing a space-joined text is the same as joining the lower-cased tokens |
| Text.StripStart | src/models/bert/model.py:46 | removes exactly the leading whitespace: the result is a suffix starting at a non-space, and everything before it is whitespace |
| Text.StripEnd | src/models/bert/model.py:46 | removes exactly the trailing whitespace: the result is a prefix ending at a non-space, and everything after it is whitespace |
| Text.Strip | src/models/bert/model.py:46 | `str.strip()`: no longer than the input; a non-empty result starts and ends with a non-space |
| Text.StripTrims | src/models/bert/model.py:46 | the stripped text is one contiguous piece of the input, with only whitespace before and after it |
| Text.StripBlank | src/models/bert/model.py:46-47 | the stripped text is empty if and only if every character is whitespace |
| Text.StripIdempotent | src/models/bert/model.py:46 | stripping twice is stripping once |
| Preprocess.AsciiSymbolsArePunctuation | src/data/preprocessor/preprocessor.py:10 | `string.punctuation` has exactly 32 characters, and every printable ASCII character that is neither a letter nor a digit is one of them, so the transcription is the whole set |
| Preprocess.Stopwords | src/data/preprocessor/preprocessor.py:18 | a token is in the stop-word list exactly when it is in the corpus or is a single `string.punctuation` character |
| Preprocess.PunctuationIsStopword | src/data/preprocessor/preprocessor.py:18 | every punctuation character, as a one-character token, is in the stop-word list whatever the corpus |
| Preprocess.Stemming | src/data/preprocessor/preprocessor.py:91-98 | `""` for `None` or `""`; the stem when the stemmer succeeds; the text unchanged when it raises (same code at src/data/preprocessor.py:47-54) |
| Preprocess.Tokenize | src/data/preprocessor/preprocessor.py:110-117 | `[]` for `None` or `""`; otherwise the tokenizer's tokens when it succeeds (same code at src/data/preprocessor.py:66-73) |
| Preprocess.TokenizeFallback | src/data/preprocessor/preprocessor.py:115-117 | when the tokenizer raises, the tokens are whitespace-free chunks that together hold exactly the text's non-whitespace characters; for non-empty text they are exactly `text.split()`, which cuts at every whitespace character (`Text.SplitAtSpace`) |
| Preprocess.StopwordsRemoval | src/data/preprocessor/preprocessor.py:129-133 | no stop word survives; the result is an ordered subsequence of the tokens; each non-stop-word keeps its multiplicity and each stop word drops to zero (same code at src/data/preprocessor.py:85-89) |
| Preprocess.PunctuationNeverSurvives | src/data/preprocessor.py:18-89 | no token made of a single punctuation character survives stop-word removal |
| Preprocess.Finish | src/data/preprocessor/preprocessor.py:153-160 | a string exactly when `concate`; the token result has no stop word, is an ordered subsequence of the tokenizer output, and keeps every other token as often as the tokenizer produced it |
| Preprocess.FinishJoinsTokens | src/data/preprocessor/preprocessor.py:157-158 | with `concate`, the result is the token result joined by single spaces, and `""` when no token is kept, whatever the tokenizer returned |
| Preprocess.FinishRoundTrip | src/data/preprocessor/preprocessor.py:153-158 | when the tokenizer's tokens are whitespace-free, splitting the joined result gives the kept tokens back |
| Preprocess.FinishIgnoresStemmer | src/data/preprocessor/preprocessor.py:149-160 | `fit` never consults the stemmer |
| EnhancedPreprocessor.EmojiRanges | src/data/preprocessor/preprocessor.py:54-61 | the six overlapping code-point ranges are the three ranges U+24C2–U+1F251, U+1F300–U+1F64F and U+1F680–U+1F6FF |
| EnhancedPreprocessor.EmoticonLength | src/data/preprocessor/preprocessor.py:62 | the matched prefix is an emoticon (eyes, optional nose, mouth); a result of 0 means no prefix is one |
| EnhancedPreprocessor.StripEmoji | src/data/preprocessor/preprocessor.py:54-64 | no character of the emoji ranges is left, and the result is an ordered subsequence of the input |
| EnhancedPreprocessor.NonEmoji | src/data/preprocessor/preprocessor.py:54-61 | the characters outside the emoji ranges, in order; text without emoji is unchanged |
| EnhancedPreprocessor.StripEmojiWithoutEyes | src/data/preprocessor/preprocessor.py:54-64 | on text with no `:`, `;` or `=`, no emoticon can start, so the substitution deletes exactly the emoji characters and keeps every other character in order, `d`, `p` and `P` included |
| EnhancedPreprocessor.StripEmojiDropsEmoji | src/data/preprocessor/preprocessor.py:54-61 | an emoji character at the front is deleted, and the scan goes on after it |
| EnhancedPreprocessor.StripEmojiDropsEmoticon | src/data/preprocessor/preprocessor.py:62-64 | an ASCII emoticon (eyes, optional nose, mouth) at the front is deleted whole, and the scan goes on after it |
| EnhancedPreprocessor.StripEmojiKeepsFront | src/data/preprocessor/preprocessor.py:54-64 | a character where neither an emoji character nor an emoticon starts is kept, and the scan goes on after it; with the two `StripEmojiDrops` lemmas this fixes the result of the substitution |
| EnhancedPreprocessor.StripEmojiKeeps | src/data/preprocessor/preprocessor.py:64 | every character outside the emoji ranges and the emoticon alphabet keeps its number of occurrences |
| EnhancedPreprocessor.TagLength | src/data/preprocessor/preprocessor.py:67 | the matched prefix is a tag `<`, non-`>` characters, `>`; a result of 0 means no prefix is one |
| EnhancedPreprocessor.StripTags | src/data/preprocessor/preprocessor.py:67 | the result is an ordered subsequence of the input; text without `<` is unchanged |
| EnhancedPreprocessor.StripTagsWithoutClose | src/data/preprocessor/preprocessor.py:67 | text without `>` holds no tag and is unchanged, so a `<` with no closing `>` stays |
| EnhancedPreprocessor.StripTagsKeepsPrefix | src/data/preprocessor/preprocessor.py:67 | text before the first `<` is kept as it is, and removal goes on after it |
| EnhancedPreprocessor.StripTagsDropsTag | src/data/preprocessor/preprocessor.py:67 | a tag at the front is deleted and removal goes on after it |
| EnhancedPreprocessor.StripTagsKeepsEmptyBrackets | src/data/preprocessor/preprocessor.py:67 | a tag needs at least one character between its brackets: `<>` is kept, and removal goes on after it |
| EnhancedPreprocessor.StripTagsLeavesNoTag | src/data/preprocessor/preprocessor.py:67 | no tag is left anywhere in the result |
| EnhancedPreprocessor.Punct | src/data/preprocessor/preprocessor.py:71 | same length; word characters, whitespace and `.` are kept in place; every other character becomes a space |
| EnhancedPreprocessor.Lowercasing | src/data/preprocessor/preprocessor.py:43-79 | `None` exactly for a missing value; otherwise the text after the five cleaning steps, in their order |
| EnhancedPreprocessor.CleanPlainText | src/data/preprocessor/preprocessor.py:43-76 | text made only of word characters and whitespace, with no emoji, no `:`, `;`, `=` and no `<`, comes back from `lowercasing` as its whitespace-collapsed lower case |
| EnhancedPreprocessor.CleanShape | src/data/preprocessor/preprocessor.py:71-76 | every character of cleaned text is a word character, `.` or a space; no edge space and no double space |
| EnhancedPreprocessor.CleanIdempotent | src/data/preprocessor/preprocessor.py:54-76 | cleaning cleaned text again changes nothing, when the first pass left no emoji, no emoticon eyes, no `<` and only characters that are their own lower case |
| EnhancedPreprocessor.CleanIsCollapsed | src/data/preprocessor/preprocessor.py:74-76 | collapsing whitespace once more leaves cleaned text unchanged |
| EnhancedPreprocessor.CleanSplit | src/data/preprocessor/preprocessor.py:74-76 | the whitespace tokens of cleaned text are non-empty runs of word characters and periods |
| EnhancedPreprocessor.Fit | src/data/preprocessor/preprocessor.py:149-163 | returns a string exactly when `concate` |
| EnhancedPreprocessor.FitMissing | src/data/preprocessor/preprocessor.py:150-151 | a missing value gives `""` or `[]` according to `concate` |
| EnhancedPreprocessor.FitTokens | src/data/preprocessor/preprocessor.py:153-155 | the kept tokens are an ordered subsequence of the cleaned text's tokens; no stop word is kept, and every other token is kept as often as it occurs |
| EnhancedPreprocessor.FitCleaned | src/data/preprocessor/preprocessor.py:149-160 | on a present value, `fit` tokenizes, filters and joins the cleaned `str(text)` |
| EnhancedPreprocessor.FitJoined | src/data/preprocessor/preprocessor.py:157-158 | with `concate`, the result is the kept tokens joined by single spaces, and `""` when none is kept, whether or not the tokenizer raised |
| EnhancedPreprocessor.FitFallback | src/data/preprocessor/preprocessor.py:153-160 | when the tokenizer raises, the kept tokens are word/period runs, and the joined result splits back into exactly them |
| SimplePreprocessor.Lowercasing | src/data/preprocessor.py:31-35 | `None` exactly for a missing value; otherwise `str(text).lower()` |
| SimplePreprocessor.LowercasingPieces | src/data/preprocessor.py:35 | in the per-character model of `str.lower()`, the lower case of two texts written together is their lower cases written together |
| SimplePreprocessor.Fit | src/data/preprocessor.py:105-119 | returns a string exactly when `concate` |
| SimplePreprocessor.FitMissing | src/data/preprocessor.py:106-107 | a missing value gives `""` or `[]` according to `concate` |
| SimplePreprocessor.FitTokens | src/data/preprocessor.py:109-111 | the kept tokens are an ordered subsequence of the lower-cased text's tokens; no stop word or lone punctuation character is kept, and every other token is kept as often as it occurs |
| SimplePreprocessor.FitJoined | src/data/preprocessor.py:113-114 | with `concate`, the result is the kept tokens joined by single spaces, and `""` when none is kept; when the tokenizer raises, splitting it gives the kept tokens back |
| Sentiment.DefaultLabels | src/models/bert/model.py:16-20 | the default table has the keys `LABEL_0`, `LABEL_1`, `LABEL_2`, each mapped to a sentiment |
| Sentiment.NewConfig | src/models/bert/model.py:9-20 | a given table is kept unchanged; only a missing one becomes the default table LABEL_0→positif, LABEL_1→netral, LABEL_2→negatif |
| Sentiment.DefaultLabelsAreSentiments | src/models/bert/model.py:16-20 | the default table's values are exactly the three sentiments |
| Sentiment.NewAnalyzer | src/models/bert/model.py:23-24 | the given configuration, or the default model id with the default table |
| Sentiment.Analyze | src/models/bert/model.py:39-54 | always a value of the table or `netral` |
| Sentiment.Classify | src/models/bert/model.py:50-54 | the table's sentiment for the raw label, or `netral`; always a table value or `netral` |
| Sentiment.AnalyzeMissing | src/models/bert/model.py:41-43 | a missing value gives `netral` |
| Sentiment.AnalyzeBlank | src/models/bert/model.py:46-48 | empty or whitespace-only text gives `netral`, whatever the pipeline |
| Sentiment.AnalyzeLabel | src/models/bert/model.py:50-54 | otherwise: the table's sentiment for the pipeline's label of the stripped text, or `netral` when the pipeline raises or the label is not in the table |
| Sentiment.AnalyzeText | src/models/bert/model.py:44-54 | on a string, the result depends only on the stripped text |
| Sentiment.AnalyzeIgnoresPadding | src/models/bert/model.py:46 | surrounding whitespace does not change the sentiment |
| Sentiment.AnalyzeDefaultRange | src/models/bert/model.py:40-54 | with the default table the result is one of `positif`, `netral`, `negatif` |
| Sentiment.AsStr | src/models/bert/model.py:72 | `astype(str)`: one string per row, in order, each the `str()` of that row's value |
| Sentiment.LabelAll | src/models/bert/model.py:80-91 | the batched labels exist if and only if every row is classified with a known raw label; then they are one per row, in order, each the table's sentiment |
| Sentiment.BatchAgreesWithAnalyze | src/models/bert/model.py:85-86 | on already-stripped text the batched label equals `analyze`; on an unmapped row the batch fails where `analyze` says `netral` |
| Sentiment.DataFrame.SetColumn | src/models/bert/model.py:97 | `df[y] = values`: the column is replaced in place or appended; the other columns and the row count are unchanged |
| Sentiment.AnalyzeDataframe | src/models/bert/model.py:56-98 | a missing column gives `ColumnNotFound`; an empty frame gives `EmptyDataset`; it succeeds if and only if every row's `str` value is mapped; on success the same frame is returned and row i of column y is the sentiment of row i of column x; other columns are unchanged; on failure the frame is untouched |

## Left out

- `src/data/main.py` and `src/models/main.py` are not part of this model. They list directories, read and write CSV files and time the run.
- The NLTK `word_tokenize` and the Sastrawi stemmer are opaque parameters (`Toolkit`). So is the content of the NLTK Indonesian stop-word corpus. The `nltk.download` calls are not modelled.
- `_initialize_model` is not modelled, and neither is model and tokenizer loading or its `RuntimeError`. The transformer pipeline is an opaque function from text to raw label.
- `Sentiment.LabelAll`: the batches `Dataset.map` cuts the rows into, and `batch_size`, are not modelled. The batched result is the per-row map, and any failing row fails the whole call.
- `tqdm` progress bars, `print` logging and the debug print of `dataset[0]` are left out. Only the `IndexError` that the `dataset[0]` print raises on an empty frame is kept, as `EmptyDataset`.
- The `lru_cache` on `analyze` is left out. The pipeline is taken as deterministic, so caching changes no result. The `TypeError` that the cache raises for an unhashable argument is not modelled: cells are scalars here.
- `Text.CharClasses` stands in for the Unicode tables behind `\w`, `\s` and `str.lower()`, which are not encoded.
  - The regex class `\s`, `str.split()` and `str.strip()` use the same whitespace predicate.
  - `Text.Sane` states the facts the proofs about cleaned text assume.
  - Real Python breaks one of them: `'İ'.lower()` ends in a combining dot, which is not `\w`. So `EnhancedPreprocessor.CleanShape` holds for every character whose lower case stays in `\w`.
  - `Text.Lower` lower-cases each character on its own. CPython's `str.lower()` also applies the final-sigma rule, which looks at the neighbouring characters: `'AΣ'.lower()` is `'aς'`, but `'A'.lower() + 'Σ'.lower()` is `'aσ'`. So `SimplePreprocessor.LowercasingPieces` and `Text.LowerJoin` are statements about the per-character model; for `LowerJoin` the two agree, because a space ends the sigma's word.
- `Preprocess.Stemming` and `Preprocess.Tokenize` take a string or `None`. `fit` never calls `stemming`, and it only ever passes `tokenize` the result of `lowercasing`, which is one of those. Other inputs are not modelled. On NaN the source does not return what its docstrings say (`None` for `stemming`, `[]` for `tokenize`): `not nan` is false, so the foreign call runs and fails, and the handler's `text[:50]` then raises `TypeError`.
- `Preprocess.StopwordsRemoval`: the `except` branch that returns the tokens unchanged is not modelled. The comprehension over string tokens never raises.
- `EnhancedPreprocessor.Fit` and `SimplePreprocessor.Fit`: the `except` branches that return the empty value are not modelled, because no modelled step raises.
  - The enhanced `lowercasing` catches its own errors.
  - The simple `lowercasing` has no `try`, but `str.lower` cannot raise on a `str`.
  - `tokenize` falls back to `split()`, and filtering cannot raise.
- `EnhancedPreprocessor.Lowercasing`: the `except` branch is not modelled. On a scalar no modelled step raises. `pd.isna` on a list-like value, which makes the `if` raise, is not modelled; `Cell` holds scalars only.
- `EnhancedPreprocessor.StripEmoji` does not promise that no emoticon is left. The substitution is a single left-to-right pass. Deleting one emoticon can glue the pieces around it into a new one: `":=))"` becomes `":)"`. The later symbol replacement turns those pieces into spaces anyway.
- `EnhancedPreprocessor.StripEmojiKeeps` counts only characters outside the emoticon alphabet. Which characters of the alphabet survive depends on their position; `StripEmojiKeepsFront`, `StripEmojiDropsEmoji` and `StripEmojiDropsEmoticon` state that step by step.
- `EnhancedPreprocessor.CleanIdempotent` covers only the cleaning steps. That running `fit` on its own joined output gives the same tokens is not proved: it rests on the tokenizer splitting that output back into the same tokens, and the tokenizer is an opaque parameter. On the `split()` fallback, `EnhancedPreprocessor.FitFallback` proves that the joined output splits back into exactly the kept tokens.
- `EnhancedPreprocessor.IsEmoji` follows the ranges as written. The range U+24C2–U+1F251 covers most of the Basic Multilingual Plane above U+24C2, including CJK ideographs and Hangul. So the substitution deletes those scripts as well, and so does the model.
- `Sentiment.AnalyzeDataframe`: the `ValueError` for non-string batch inputs is not modelled, because `astype(str)` makes every input a string. A failing pipeline call and a missing table entry both become one error, `BatchFailed`.
