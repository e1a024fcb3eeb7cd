/**
 * The parts that the two `Preprocessor` classes share word for word: the values
 * a table cell can hold, the stop-word list built in `__init__`, `stemming`,
 * `tokenize`, `stopwords_removal`, and the part of `fit` after cleaning.
 */
module Preprocess {
  import opened Wrappers
  import opened Text

  /** A value of a pandas column: `None`, `NaN`, a `str`, or any other value
      (a number, a boolean, ...) standing for what `str()` makes of it. */
  datatype Cell = NoneValue | NaN | Str(s: string) | Other(rendered: string)

  /** `pd.isna(value)` for a scalar. */
  predicate IsNa(c: Cell) {
    c.NoneValue? || c.NaN?
  }

  /** `str(value)`. */
  function StrOf(c: Cell): string {
    match c
    case NoneValue => "None"
    case NaN => "nan"
    case Str(s) => s
    case Other(r) => r
  }

  /** The foreign pieces a `Preprocessor` is built from: NLTK's `word_tokenize`
      and the Sastrawi stemmer (`None` where the call raises), and NLTK's
      Indonesian stop-word corpus. */
  datatype Toolkit = Toolkit(
    tokenizer: string -> Option<seq<string>>,
    stemmer: string -> Option<string>,
    corpus: seq<string>)

  /** Python's `string.punctuation`. */
  const PUNCTUATION: string := "!\"#$%&'()*+,-./:;<=>?@[\\]^_`{|}~"

  predicate IsAsciiAlnum(c: char) {
    '0' <= c <= '9' || 'A' <= c <= 'Z' || 'a' <= c <= 'z'
  }

  /** `string.punctuation` has 32 characters, and every printable ASCII
      character other than a letter or a digit is one of them. */
  lemma AsciiSymbolsArePunctuation(c: char)
    requires '!' <= c <= '~' && !IsAsciiAlnum(c)
    ensures |PUNCTUATION| == 32
    ensures c in PUNCTUATION
  {
    var n := c as int;
    if n <= 47 {
      assert c == PUNCTUATION[n - 33];
    } else if n <= 64 {
      assert 58 <= n;
      assert c == PUNCTUATION[n - 58 + 15];
    } else if n <= 96 {
      assert 91 <= n;
      assert c == PUNCTUATION[n - 91 + 22];
    } else {
      assert 123 <= n;
      assert c == PUNCTUATION[n - 123 + 28];
    }
  }

  /** `self.stopwords`: the corpus followed by every punctuation character as a
      one-character token. */
  function Stopwords(corpus: seq<string>): (r: seq<string>)
    ensures forall t :: t in r <==> t in corpus || (|t| == 1 && t[0] in PUNCTUATION)
  {
    var marks := seq(|PUNCTUATION|, i requires 0 <= i < |PUNCTUATION| => [PUNCTUATION[i]]);
    assert forall t :: |t| == 1 && t[0] in PUNCTUATION ==> t == [t[0]] && t in marks by {
      forall t | |t| == 1 && t[0] in PUNCTUATION ensures t == [t[0]] && t in marks {
        var i :| 0 <= i < |PUNCTUATION| && PUNCTUATION[i] == t[0];
        assert marks[i] == t;
      }
    }
    corpus + marks
  }

  /** Every punctuation character, alone, is a stop word, whatever the corpus. */
  lemma PunctuationIsStopword(corpus: seq<string>, c: char)
    requires c in PUNCTUATION
    ensures [c] in Stopwords(corpus)
  {
    assert [c][0] == c;
  }

  /** `stemming(text)`: empty for `None` or `""`, otherwise the stem, or the
      text itself when the stemmer raises. */
  function Stemming(kit: Toolkit, text: Option<string>): (r: string)
    ensures text.None? || text == Some("") ==> r == ""
    ensures text.Some? && kit.stemmer(text.value).None? ==> r == text.value
    ensures text.Some? && text.value != "" && kit.stemmer(text.value).Some? ==> r == kit.stemmer(text.value).value
  {
    match text
    case None => ""
    case Some(s) =>
      if s == "" then ""
      else match kit.stemmer(s)
        case Some(stem) => stem
        case None => s
  }

  /** `tokenize(text)`: no tokens for `None` or `""`; otherwise the tokenizer's
      tokens, or `text.split()` when the tokenizer raises. */
  function Tokenize(cc: CharClasses, kit: Toolkit, text: Option<string>): (r: seq<string>)
    ensures text.None? || text == Some("") ==> r == []
    ensures text.Some? && text.value != "" && kit.tokenizer(text.value).Some? ==> r == kit.tokenizer(text.value).value
  {
    match text
    case None => []
    case Some(s) =>
      if s == "" then []
      else match kit.tokenizer(s)
        case Some(tokens) => tokens
        case None => Split(cc, s)
  }

  /** When the tokenizer raises, the fallback tokens are non-empty and free of
      whitespace, and together they hold every non-whitespace character of the
      text, in order. */
  lemma TokenizeFallback(cc: CharClasses, kit: Toolkit, s: string)
    requires kit.tokenizer(s).None?
    ensures forall k :: 0 <= k < |Tokenize(cc, kit, Some(s))| ==> IsChunk(cc, Tokenize(cc, kit, Some(s))[k])
    ensures Concat(Tokenize(cc, kit, Some(s))) == NonSpace(cc, s)
    ensures s != "" ==> Tokenize(cc, kit, Some(s)) == Split(cc, s)
  {
    SplitNonSpace(cc, s);
  }

  /** `stopwords_removal(tokens)`: the tokens that are not stop words, in their
      original order, each as often as it occurs. */
  function StopwordsRemoval(tokens: seq<string>, stopwords: seq<string>): (r: seq<string>)
    ensures forall i :: 0 <= i < |r| ==> r[i] !in stopwords
    ensures Subseq(r, tokens)
    ensures forall t :: multiset(r)[t] == if t in stopwords then 0 else multiset(tokens)[t]
  {
    if tokens == [] then []
    else
      var rest := StopwordsRemoval(tokens[1..], stopwords);
      assert tokens == [tokens[0]] + tokens[1..];
      if tokens[0] in stopwords then
        SubseqOfSuffix(rest, tokens, 1);
        rest
      else
        assert ([tokens[0]] + rest)[1..] == rest;
        [tokens[0]] + rest
  }

  /** No token made of a single punctuation character survives filtering
      against the stop-word list. */
  lemma PunctuationNeverSurvives(tokens: seq<string>, corpus: seq<string>, c: char)
    requires c in PUNCTUATION
    ensures [c] !in StopwordsRemoval(tokens, Stopwords(corpus))
  {
    PunctuationIsStopword(corpus, c);
  }

  /** What `fit` returns: a token list, or with `concate` one string. */
  datatype Prepared = Tokens(tokens: seq<string>) | Joined(text: string)

  /** `"" if concate else []`. */
  function EmptyResult(concate: bool): Prepared {
    if concate then Joined("") else Tokens([])
  }

  /** The steps of `fit` after cleaning: tokenize, drop stop words and, with
      `concate`, join the survivors with single spaces. */
  function Finish(cc: CharClasses, kit: Toolkit, cleaned: Option<string>, concate: bool): (r: Prepared)
    ensures r.Joined? <==> concate
    ensures r.Tokens? ==> forall i :: 0 <= i < |r.tokens| ==> r.tokens[i] !in Stopwords(kit.corpus)
    ensures r.Tokens? ==> Subseq(r.tokens, Tokenize(cc, kit, cleaned))
    ensures r.Tokens? ==> forall t ::
      multiset(r.tokens)[t] == (if t in Stopwords(kit.corpus) then 0 else multiset(Tokenize(cc, kit, cleaned))[t])
  {
    var kept := StopwordsRemoval(Tokenize(cc, kit, cleaned), Stopwords(kit.corpus));
    if concate then Joined(if kept == [] then "" else Join(kept, ' ')) else Tokens(kept)
  }

  /** With `concate` the result is the token result joined by single spaces,
      and `""` when no token is kept, whatever the tokenizer returned. */
  lemma FinishJoinsTokens(cc: CharClasses, kit: Toolkit, cleaned: Option<string>)
    ensures Finish(cc, kit, cleaned, true).text == Join(Finish(cc, kit, cleaned, false).tokens, ' ')
    ensures Finish(cc, kit, cleaned, false).tokens == [] ==> Finish(cc, kit, cleaned, true).text == ""
  {
  }

  /** When every token is free of whitespace, splitting the joined text gives
      the kept tokens back. */
  lemma FinishRoundTrip(cc: CharClasses, kit: Toolkit, cleaned: Option<string>)
    requires cc.isSpace(' ')
    requires forall t :: t in Tokenize(cc, kit, cleaned) ==> IsChunk(cc, t)
    ensures Split(cc, Finish(cc, kit, cleaned, true).text) == Finish(cc, kit, cleaned, false).tokens
  {
    FinishJoinsTokens(cc, kit, cleaned);
    SplitJoinSubseq(cc, Finish(cc, kit, cleaned, false).tokens, Tokenize(cc, kit, cleaned));
  }

  /** The stemmer plays no part in `fit`. */
  lemma FinishIgnoresStemmer(cc: CharClasses, kit: Toolkit, stemmer: string -> Option<string>, cleaned: Option<string>, concate: bool)
    ensures Finish(cc, kit, cleaned, concate) == Finish(cc, kit.(stemmer := stemmer), cleaned, concate)
  {
  }
}
