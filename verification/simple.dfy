/**
 * The simple `Preprocessor` (src/data/preprocessor.py): the same pipeline as
 * the enhanced one, with a `lowercasing` that only handles missing values and
 * lower-cases. Its other steps are those of module Preprocess.
 */
module SimplePreprocessor {
  import opened Wrappers
  import opened Text
  import opened Preprocess

  /** `lowercasing(text)`: `None` for a missing value, otherwise `str(text).lower()`. */
  function Lowercasing(cc: CharClasses, text: Cell): (r: Option<string>)
    ensures r.None? <==> IsNa(text)
    ensures r.Some? ==> r.value == Lower(cc, StrOf(text))
  {
    if !text.Str? then
      if IsNa(text) then None else Some(Lower(cc, StrOf(text)))
    else Some(Lower(cc, text.s))
  }

  /** Lower-casing works character by character: it distributes over
      concatenation, so the lower-cased text is the lower-cased pieces in order. */
  lemma LowercasingPieces(cc: CharClasses, a: string, b: string)
    ensures Lowercasing(cc, Str(a + b)) == Some(Lower(cc, a) + Lower(cc, b))
  {
    LowerAppend(cc, a, b);
  }

  /** `fit(text, concate)`. */
  function Fit(cc: CharClasses, kit: Toolkit, text: Cell, concate: bool): (r: Prepared)
    ensures r.Joined? <==> concate
  {
    if IsNa(text) then EmptyResult(concate)
    else Finish(cc, kit, Lowercasing(cc, Str(StrOf(text))), concate)
  }

  /** A missing value gives the empty result of the requested kind. */
  lemma FitMissing(cc: CharClasses, kit: Toolkit, text: Cell, concate: bool)
    requires IsNa(text)
    ensures Fit(cc, kit, text, concate) == (if concate then Joined("") else Tokens([]))
  {
  }

  /** The tokens `fit` keeps are tokens of the lower-cased text, in order;
      none is a stop word, and none is a lone punctuation character. */
  lemma FitTokens(cc: CharClasses, kit: Toolkit, text: Cell)
    requires !IsNa(text)
    ensures Subseq(Fit(cc, kit, text, false).tokens, Tokenize(cc, kit, Some(Lower(cc, StrOf(text)))))
    ensures forall t :: t in Fit(cc, kit, text, false).tokens ==> t !in Stopwords(kit.corpus)
    ensures forall c :: c in PUNCTUATION ==> [c] !in Fit(cc, kit, text, false).tokens
    ensures forall t ::
      multiset(Fit(cc, kit, text, false).tokens)[t] == (if t in Stopwords(kit.corpus) then 0 else multiset(Tokenize(cc, kit, Some(Lower(cc, StrOf(text)))))[t])
  {
    forall c | c in PUNCTUATION ensures [c] !in Fit(cc, kit, text, false).tokens {
      PunctuationIsStopword(kit.corpus, c);
    }
  }

  /** With `concate`, `fit` joins the kept tokens with single spaces (nothing
      kept gives `""`); when the tokenizer raises, the joined text splits back
      into exactly the kept tokens. */
  lemma FitJoined(cc: CharClasses, kit: Toolkit, text: Cell)
    ensures Fit(cc, kit, text, true).text == Join(Fit(cc, kit, text, false).tokens, ' ')
    ensures Fit(cc, kit, text, false).tokens == [] ==> Fit(cc, kit, text, true).text == ""
    ensures cc.isSpace(' ') && !IsNa(text) && kit.tokenizer(Lower(cc, StrOf(text))).None? ==>
      Split(cc, Fit(cc, kit, text, true).text) == Fit(cc, kit, text, false).tokens
  {
    if !IsNa(text) {
      var s := Lower(cc, StrOf(text));
      var tokens := Tokenize(cc, kit, Some(s));
      assert Fit(cc, kit, text, false) == Finish(cc, kit, Some(s), false);
      assert Fit(cc, kit, text, true) == Finish(cc, kit, Some(s), true);
      FinishJoinsTokens(cc, kit, Some(s));
      if cc.isSpace(' ') && kit.tokenizer(s).None? {
        assert s != [] ==> tokens == Split(cc, s);
        assert forall t :: t in tokens ==> IsChunk(cc, t);
        FinishRoundTrip(cc, kit, Some(s));
      }
    }
  }
}
