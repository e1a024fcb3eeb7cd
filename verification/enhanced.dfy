/**
 * The enhanced `Preprocessor` (src/data/preprocessor/preprocessor.py), the one
 * the preprocessing job uses. Its `lowercasing` strips emoji, ASCII emoticons
 * and HTML tags, turns every other symbol into a space, collapses whitespace
 * and lower-cases; the remaining steps are those of module Preprocess.
 */
module EnhancedPreprocessor {
  import opened Wrappers
  import opened Text
  import opened Preprocess

  /** The character class of the emoji pattern, range by range as written. */
  predicate IsEmoji(c: char) {
    || '\U{1F600}' <= c <= '\U{1F64F}'  // emoticons
    || '\U{1F300}' <= c <= '\U{1F5FF}'  // symbols and pictographs
    || '\U{1F680}' <= c <= '\U{1F6FF}'  // transport and map symbols
    || '\U{1F1E0}' <= c <= '\U{1F1FF}'  // flags
    || '\U{2702}' <= c <= '\U{27B0}'    // dingbats
    || '\U{24C2}' <= c <= '\U{1F251}'   // enclosed characters, and all in between
  }

  /** The six ranges overlap: together they are three disjoint ranges. */
  lemma EmojiRanges(c: char)
    ensures IsEmoji(c) <==>
      || '\U{24C2}' <= c <= '\U{1F251}'
      || '\U{1F300}' <= c <= '\U{1F64F}'
      || '\U{1F680}' <= c <= '\U{1F6FF}'
  {
  }

  /** The three positions of the emoticon pattern `[:;=][-']?[)(/|dpP]`. */
  const EYES: string := ":;="
  const NOSES: string := "-'"
  const MOUTHS: string := ")(/|dpP"

  /** `w` is an ASCII emoticon: eyes, an optional nose, a mouth. */
  predicate IsEmoticon(w: string) {
    && (|w| == 2 || |w| == 3)
    && w[0] in EYES
    && w[|w| - 1] in MOUTHS
    && (|w| == 3 ==> w[1] in NOSES)
  }

  /** Length of the emoticon the pattern matches at the start of `s`, or 0
      when it matches none there. */
  function EmoticonLength(s: string): (n: nat)
    ensures n <= |s|
    ensures n > 0 ==> IsEmoticon(s[..n])
    ensures n == 0 ==> forall k :: 0 <= k <= |s| ==> !IsEmoticon(s[..k])
  {
    if |s| >= 3 && s[0] in EYES && s[1] in NOSES && s[2] in MOUTHS then 3
    else if |s| >= 2 && s[0] in EYES && s[1] in MOUTHS then 2
    else 0
  }

  /** `emoji_pattern.sub('', text)`: a left-to-right scan that deletes every
      emoji character and every emoticon it meets. No emoji character is left,
      and what is left is the text's characters in order. */
  function StripEmoji(s: string): (r: string)
    ensures forall i :: 0 <= i < |r| ==> !IsEmoji(r[i])
    ensures Subseq(r, s)
    decreases |s|
  {
    if s == [] then []
    else if IsEmoji(s[0]) then
      var r := StripEmoji(s[1..]);
      SubseqOfSuffix(r, s, 1);
      r
    else if EmoticonLength(s) > 0 then
      var n := EmoticonLength(s);
      var r := StripEmoji(s[n..]);
      SubseqOfSuffix(r, s, n);
      r
    else
      var r := StripEmoji(s[1..]);
      assert ([s[0]] + r)[1..] == r;
      [s[0]] + r
  }

  /** The text without its emoji characters, in order. */
  function NonEmoji(s: string): (r: string)
    ensures (forall i :: 0 <= i < |s| ==> !IsEmoji(s[i])) ==> r == s
  {
    if s == [] then []
    else
      assert forall i :: 1 <= i < |s| ==> s[1..][i - 1] == s[i];
      (if IsEmoji(s[0]) then [] else [s[0]]) + NonEmoji(s[1..])
  }

  /** Where no emoticon can start, because no character is an emoticon's eyes,
      `StripEmoji` deletes exactly the emoji characters and keeps every other
      character, `d`, `p` and `P` included. */
  lemma {:induction false} StripEmojiWithoutEyes(s: string)
    requires forall i :: 0 <= i < |s| ==> s[i] !in EYES
    ensures StripEmoji(s) == NonEmoji(s)
    decreases |s|
  {
    if s != [] {
      assert forall i :: 1 <= i < |s| ==> s[1..][i - 1] == s[i];
      StripEmojiWithoutEyes(s[1..]);
      assert EmoticonLength(s) == 0;
    }
  }

  /** An emoji character at the front is deleted, and the scan goes on
      after it. */
  lemma StripEmojiDropsEmoji(c: char, b: string)
    requires IsEmoji(c)
    ensures StripEmoji([c] + b) == StripEmoji(b)
  {
    assert ([c] + b)[1..] == b;
  }

  /** A character where neither an emoji character nor an emoticon starts is
      kept, and the scan goes on after it. */
  lemma StripEmojiKeepsFront(s: string)
    requires s != [] && !IsEmoji(s[0]) && EmoticonLength(s) == 0
    ensures StripEmoji(s) == [s[0]] + StripEmoji(s[1..])
  {
  }

  /** An emoticon at the front is deleted whole, and the scan goes on after
      it. */
  lemma StripEmojiDropsEmoticon(e: string, b: string)
    requires IsEmoticon(e)
    ensures StripEmoji(e + b) == StripEmoji(b)
  {
    var s := e + b;
    assert s[..|e|] == e;
    assert EmoticonLength(s) == |e|;
    assert s[|e|..] == b;
  }

  /** An emoticon is made of characters of the emoticon alphabet only. */
  lemma EmoticonAlphabet(w: string, c: char)
    requires IsEmoticon(w) && c !in EYES + NOSES + MOUTHS
    ensures multiset(w)[c] == 0
  {
    assert w[0] in EYES + NOSES + MOUTHS;
    assert w[|w| - 1] in EYES + NOSES + MOUTHS;
    assert |w| == 3 ==> w[1] in EYES + NOSES + MOUTHS;
    assert forall k :: 0 <= k < |w| ==> w[k] != c;
  }

  /** Every character outside the emoji ranges and the emoticon alphabet
      survives `StripEmoji` as often as it occurs. */
  lemma {:induction false} StripEmojiKeeps(s: string, c: char)
    requires !IsEmoji(c) && c !in EYES + NOSES + MOUTHS
    ensures multiset(StripEmoji(s))[c] == multiset(s)[c]
    decreases |s|
  {
    if s == [] {
    } else if IsEmoji(s[0]) || EmoticonLength(s) == 0 {
      StripEmojiKeeps(s[1..], c);
      StripEmojiFirst(s, c);
    } else {
      StripEmojiKeeps(s[EmoticonLength(s)..], c);
      StripEmojiEmoticon(s, c);
    }
  }

  /** One step of `StripEmoji` over a single character keeps the count of `c`. */
  lemma StripEmojiFirst(s: string, c: char)
    requires s != [] && (IsEmoji(s[0]) || EmoticonLength(s) == 0)
    requires !IsEmoji(c) && c !in EYES + NOSES + MOUTHS
    requires multiset(StripEmoji(s[1..]))[c] == multiset(s[1..])[c]
    ensures multiset(StripEmoji(s))[c] == multiset(s)[c]
  {
    assert s == [s[0]] + s[1..];
    if IsEmoji(s[0]) {
      assert s[0] != c;
    } else {
      assert StripEmoji(s) == [s[0]] + StripEmoji(s[1..]);
    }
  }

  /** One step of `StripEmoji` over an emoticon keeps the count of `c`. */
  lemma StripEmojiEmoticon(s: string, c: char)
    requires s != [] && !IsEmoji(s[0]) && EmoticonLength(s) > 0
    requires !IsEmoji(c) && c !in EYES + NOSES + MOUTHS
    requires multiset(StripEmoji(s[EmoticonLength(s)..]))[c] == multiset(s[EmoticonLength(s)..])[c]
    ensures multiset(StripEmoji(s))[c] == multiset(s)[c]
  {
    var n := EmoticonLength(s);
    EmoticonAlphabet(s[..n], c);
    assert s == s[..n] + s[n..];
  }

  /** `w` is an HTML-like tag: `<`, one or more characters other than `>`, `>`. */
  predicate IsTag(w: string) {
    && |w| >= 3
    && w[0] == '<'
    && w[|w| - 1] == '>'
    && forall i :: 1 <= i < |w| - 1 ==> w[i] != '>'
  }

  /** Position of the first `>` in `s`. */
  function FirstClose(s: string): (r: Option<nat>)
    ensures r.Some? ==> r.value < |s| && s[r.value] == '>' && forall i :: 0 <= i < r.value ==> s[i] != '>'
    ensures r.None? ==> forall i :: 0 <= i < |s| ==> s[i] != '>'
  {
    if s == [] then None
    else if s[0] == '>' then Some(0)
    else match FirstClose(s[1..])
      case None => None
      case Some(k) => Some(k + 1)
  }

  /** Length of the tag `<[^>]+>` matched at the start of `s`, or 0 when none
      starts there. */
  function TagLength(s: string): (n: nat)
    ensures n <= |s|
    ensures n > 0 ==> IsTag(s[..n])
    ensures n == 0 ==> forall k :: 0 <= k <= |s| ==> !IsTag(s[..k])
  {
    if s == [] || s[0] != '<' then 0
    else match FirstClose(s[1..])
      case None =>
        assert forall k :: 2 <= k <= |s| ==> s[..k][k - 1] == s[1..][k - 2];
        0
      case Some(k) =>
        if k == 0 then
          assert forall j :: 3 <= j <= |s| ==> s[..j][1] == '>';
          0
        else
          assert forall i :: 1 <= i < k + 1 ==> s[i] == s[1..][i - 1];
          k + 2
  }

  /** `re.sub(r'<[^>]+>', '', text)`: deletes each tag met scanning left to
      right, its content with it. Text with no `<` is unchanged. */
  function StripTags(s: string): (r: string)
    ensures Subseq(r, s)
    ensures '<' !in s ==> r == s
    decreases |s|
  {
    if s == [] then []
    else if TagLength(s) > 0 then
      var n := TagLength(s);
      var r := StripTags(s[n..]);
      SubseqOfSuffix(r, s, n);
      r
    else
      var r := StripTags(s[1..]);
      assert s == [s[0]] + s[1..];
      assert ([s[0]] + r)[1..] == r;
      [s[0]] + r
  }

  /** Text with no `>` holds no tag, so it is unchanged: a `<` without a
      closing `>` stays. */
  lemma {:induction false} StripTagsWithoutClose(s: string)
    requires forall i :: 0 <= i < |s| ==> s[i] != '>'
    ensures StripTags(s) == s
    decreases |s|
  {
    if s != [] {
      assert forall i :: 0 <= i < |s| - 1 ==> s[1..][i] != '>';
      assert FirstClose(s[1..]).None?;
      assert StripTags(s) == [s[0]] + StripTags(s[1..]);
      assert forall i :: 1 <= i < |s| ==> s[1..][i - 1] == s[i];
      StripTagsWithoutClose(s[1..]);
    }
  }

  /** A character other than `<` cannot start a tag, so it is kept. */
  lemma StripTagsKeepsFirst(a: string, b: string)
    requires a != [] && a[0] != '<'
    ensures StripTags(a + b) == [a[0]] + StripTags(a[1..] + b)
  {
    var s := a + b;
    assert TagLength(s) == 0;
    assert s[1..] == a[1..] + b;
  }

  lemma ConsAppend<T>(a: seq<T>, y: seq<T>, t: seq<T>)
    requires a != [] && y == a[1..] + t
    ensures [a[0]] + y == a + t
  {
    assert a == [a[0]] + a[1..];
  }

  /** Text before the first `<` is kept as it is. */
  lemma {:induction false} StripTagsKeepsPrefix(a: string, b: string)
    requires '<' !in a
    ensures StripTags(a + b) == a + StripTags(b)
    decreases |a|
  {
    if a == [] {
      assert a + b == b;
    } else {
      assert '<' !in a[1..];
      StripTagsKeepsPrefix(a[1..], b);
      StripTagsKeepsFirst(a, b);
      ConsAppend(a, StripTags(a[1..] + b), StripTags(b));
    }
  }

  /** A tag at the front of a text ends at the first `>` after its `<`. */
  lemma TagEndsAtFirstClose(s: string, m: nat)
    requires m <= |s| && IsTag(s[..m])
    ensures s[m - 1] == '>' && forall i :: 1 <= i < m - 1 ==> s[i] != '>'
  {
    assert s[..m][m - 1] == s[m - 1];
    assert forall i :: 1 <= i < m - 1 ==> s[..m][i] == s[i];
  }

  /** Two tags that both start a text are the same tag. */
  lemma TagsAgree(s: string, m: nat, n: nat)
    requires m <= |s| && n <= |s| && IsTag(s[..m]) && IsTag(s[..n])
    ensures m == n
  {
    TagEndsAtFirstClose(s, m);
    TagEndsAtFirstClose(s, n);
  }

  /** A tag at the front is deleted whole, and the scan goes on after it. */
  lemma StripTagsDropsTag(t: string, b: string)
    requires IsTag(t)
    ensures StripTags(t + b) == StripTags(b)
  {
    var s := t + b;
    assert s[..|t|] == t;
    var n := TagLength(s);
    assert n > 0;
    TagsAgree(s, n, |t|);
    assert s[n..] == b;
  }

  /** A tag needs at least one character between its brackets: `<>` is kept,
      and the scan goes on after it. */
  lemma StripTagsKeepsEmptyBrackets(b: string)
    ensures StripTags("<>" + b) == "<>" + StripTags(b)
  {
    var s := "<>" + b;
    EmptyBracketsNoTag(b);
    StripTagsKeepsFront(s);
    assert s[1..] == ">" + b;
    StripTagsKeepsPrefix(">", b);
    assert "<>"[1..] == ">";
    ConsAppend("<>", StripTags(s[1..]), StripTags(b));
  }

  lemma EmptyBracketsNoTag(b: string)
    ensures TagLength("<>" + b) == 0
  {
    var s := "<>" + b;
    assert s[0] == '<' && s[1..][0] == '>';
    assert FirstClose(s[1..]) == Some(0);
  }

  /** One unfolding of `StripTags` where no tag starts at the front. */
  lemma StripTagsKeepsFront(s: string)
    requires s != [] && TagLength(s) == 0
    ensures StripTags(s) == [s[0]] + StripTags(s[1..])
  {
  }

  /** Where no tag starts at the front, `StripTags` keeps the first character,
      and no tag of the result starts there. */
  lemma NoTagAtFront(s: string, j: nat)
    requires s != [] && TagLength(s) == 0
    requires j <= 1 + |StripTags(s[1..])|
    ensures !IsTag(([s[0]] + StripTags(s[1..]))[..j])
  {
    var rest := StripTags(s[1..]);
    var w := ([s[0]] + rest)[..j];
    if s[0] == '<' && j >= 3 {
      match FirstClose(s[1..])
      case None =>
        SubseqMembers(rest, s[1..]);
        assert w[j - 1] == rest[j - 2];
        assert rest[j - 2] in s[1..];
      case Some(k) =>
        assert k == 0;
        assert TagLength(s[1..]) == 0;
        assert w[1] == rest[0] == '>';
    }
  }

  /** No tag is left anywhere in the result of `StripTags`. */
  lemma {:induction false} StripTagsLeavesNoTag(s: string)
    ensures forall i, j :: 0 <= i <= j <= |StripTags(s)| ==> !IsTag(StripTags(s)[i..j])
    decreases |s|
  {
    if s == [] {
    } else if TagLength(s) > 0 {
      StripTagsLeavesNoTag(s[TagLength(s)..]);
    } else {
      StripTagsLeavesNoTag(s[1..]);
      NoTagAfterKept(s);
    }
  }

  /** The step of `StripTagsLeavesNoTag` where the first character is kept. */
  lemma NoTagAfterKept(s: string)
    requires s != [] && TagLength(s) == 0
    requires forall i, j :: 0 <= i <= j <= |StripTags(s[1..])| ==> !IsTag(StripTags(s[1..])[i..j])
    ensures forall i, j :: 0 <= i <= j <= |StripTags(s)| ==> !IsTag(StripTags(s)[i..j])
  {
    var rest := StripTags(s[1..]);
    var r := [s[0]] + rest;
    StripTagsKeepsFront(s);
    forall i, j | 0 <= i <= j <= |r| ensures !IsTag(r[i..j]) {
      if i > 0 {
        NoTagInTail(s[0], rest, i, j);
      } else {
        NoTagAtFront(s, j);
        assert r[i..j] == r[..j];
      }
    }
  }

  lemma NoTagInTail(c: char, rest: string, i: nat, j: nat)
    requires 0 < i <= j <= 1 + |rest|
    requires !IsTag(rest[i - 1..j - 1])
    ensures !IsTag(([c] + rest)[i..j])
  {
    assert ([c] + rest)[i..j] == rest[i - 1..j - 1];
  }

  /** A character `re.sub(r'[^\w\s\.]', ' ', text)` leaves alone. */
  predicate Kept(cc: CharClasses, c: char) {
    cc.isWord(c) || cc.isSpace(c) || c == '.'
  }

  /** `re.sub(r'[^\w\s\.]', ' ', text)`: word characters, whitespace and
      periods stay; every other character becomes a space. */
  function Punct(cc: CharClasses, s: string): (r: string)
    ensures |r| == |s|
    ensures forall i :: 0 <= i < |s| && Kept(cc, s[i]) ==> r[i] == s[i]
    ensures forall i :: 0 <= i < |s| && !Kept(cc, s[i]) ==> r[i] == ' '
    ensures cc.isSpace(' ') ==> forall i :: 0 <= i < |r| ==> Kept(cc, r[i])
  {
    seq(|s|, i requires 0 <= i < |s| => if Kept(cc, s[i]) then s[i] else ' ')
  }

  /** The text transformations of `lowercasing`, in their order. */
  function Clean(cc: CharClasses, s: string): string {
    Lower(cc, Collapse(cc, Punct(cc, StripTags(StripEmoji(s)))))
  }

  /** `lowercasing(text)`: `None` for a missing value, otherwise the cleaned
      `str(text)`. */
  function Lowercasing(cc: CharClasses, text: Cell): (r: Option<string>)
    ensures r.None? <==> IsNa(text)
    ensures r.Some? ==> r.value == Clean(cc, StrOf(text))
  {
    if IsNa(text) then None else Some(Clean(cc, StrOf(text)))
  }

  /** Cleaned text consists of word characters, periods and single spaces,
      with no space at either end. */
  lemma CleanShape(cc: CharClasses, s: string)
    requires Sane(cc)
    ensures forall i :: 0 <= i < |Clean(cc, s)| ==> cc.isWord(Clean(cc, s)[i]) || Clean(cc, s)[i] == '.' || Clean(cc, s)[i] == ' '
    ensures SingleSpaced(Clean(cc, s))
  {
    var p := Punct(cc, StripTags(StripEmoji(s)));
    var ws := Split(cc, p);
    var wordish := c => cc.isWord(c) || c == '.';
    SplitKeeps(cc, p, wordish);
    var lws := LowerEach(cc, ws);
    forall k | 0 <= k < |lws|
      ensures |lws[k]| > 0 && forall i :: 0 <= i < |lws[k]| ==> wordish(lws[k][i])
    {
      LowerWordRun(cc, ws[k]);
    }
    forall k | 0 <= k < |lws| ensures |lws[k]| > 0 && ' ' !in lws[k] {
      assert forall i :: 0 <= i < |lws[k]| ==> lws[k][i] != ' ';
    }
    LowerJoin(cc, ws);
    JoinSingleSpaced(lws);
    JoinKeeps(lws, ' ', c => cc.isWord(c) || c == '.' || c == ' ');
  }

  /** Whitespace collapsing inside `lowercasing` is already complete: cleaning
      leaves text whose whitespace collapses to itself. */
  lemma CleanIsCollapsed(cc: CharClasses, s: string)
    requires Sane(cc)
    ensures Collapse(cc, Clean(cc, s)) == Clean(cc, s)
  {
    var t := Clean(cc, s);
    CleanShape(cc, s);
    SingleSpacedIsCollapsed(cc, t);
  }

  /** Cleaning cleaned text again changes nothing, as long as what the first
      pass left has no emoji character, no emoticon eyes, no `<`, and only
      characters that are their own lower case. */
  lemma CleanIdempotent(cc: CharClasses, s: string)
    requires Sane(cc)
    requires forall i :: 0 <= i < |Clean(cc, s)| ==>
      && !IsEmoji(Clean(cc, s)[i])
      && Clean(cc, s)[i] !in EYES
      && Clean(cc, s)[i] != '<'
      && cc.lower(Clean(cc, s)[i]) == [Clean(cc, s)[i]]
    ensures Clean(cc, Clean(cc, s)) == Clean(cc, s)
  {
    var t := Clean(cc, s);
    CleanShape(cc, s);
    CleanIsCollapsed(cc, s);
    StripEmojiWithoutEyes(t);
    assert StripEmoji(t) == t;
    assert '<' !in t;
    assert StripTags(t) == t;
    assert forall i :: 0 <= i < |t| ==> Kept(cc, t[i]);
    assert Punct(cc, t) == t;
  }

  /** `fit(text, concate)`. */
  function Fit(cc: CharClasses, kit: Toolkit, text: Cell, concate: bool): (r: Prepared)
    ensures r.Joined? <==> concate
  {
    if IsNa(text) then EmptyResult(concate)
    else Finish(cc, kit, Lowercasing(cc, Str(StrOf(text))), concate)
  }

  /** A missing value gives the empty result of the requested kind. */
  lemma FitMissing(cc: CharClasses, kit: Toolkit, text: Cell, concate: bool)
    requires IsNa(text)
    ensures Fit(cc, kit, text, concate) == (if concate then Joined("") else Tokens([]))
  {
  }

  /** With `concate`, `fit` gives the kept tokens joined by single spaces, and
      `""` when none is kept, whatever the tokenizer returns. */
  lemma FitJoined(cc: CharClasses, kit: Toolkit, text: Cell)
    ensures Fit(cc, kit, text, true).text == Join(Fit(cc, kit, text, false).tokens, ' ')
    ensures Fit(cc, kit, text, false).tokens == [] ==> Fit(cc, kit, text, true).text == ""
  {
    if !IsNa(text) {
      FinishJoinsTokens(cc, kit, Lowercasing(cc, Str(StrOf(text))));
    }
  }

  /** Plain text, made of word characters and whitespace with no emoji
      character, no emoticon eyes and no `<`, is cleaned to its collapsed,
      lower-cased self: only the last two steps change it. */
  lemma CleanPlainText(cc: CharClasses, s: string)
    requires forall i :: 0 <= i < |s| ==>
      (cc.isWord(s[i]) || cc.isSpace(s[i])) && !IsEmoji(s[i]) && s[i] !in EYES && s[i] != '<'
    ensures Clean(cc, s) == Lower(cc, Collapse(cc, s))
    ensures Lowercasing(cc, Str(s)) == Some(Lower(cc, Collapse(cc, s)))
  {
    StripEmojiWithoutEyes(s);
    assert StripEmoji(s) == s;
    assert '<' !in s;
    assert StripTags(s) == s;
    assert Punct(cc, s) == s;
  }

  /** The tokens `fit` keeps are tokens of the cleaned text, in order, and none
      of them is a stop word. */
  lemma FitTokens(cc: CharClasses, kit: Toolkit, text: Cell)
    requires !IsNa(text)
    ensures Subseq(Fit(cc, kit, text, false).tokens, Tokenize(cc, kit, Some(Clean(cc, StrOf(text)))))
    ensures forall t :: t in Fit(cc, kit, text, false).tokens ==> t !in Stopwords(kit.corpus)
    ensures forall t ::
      multiset(Fit(cc, kit, text, false).tokens)[t] == (if t in Stopwords(kit.corpus) then 0 else multiset(Tokenize(cc, kit, Some(Clean(cc, StrOf(text)))))[t])
  {
  }

  /** The whitespace-split tokens of cleaned text are non-empty runs of word
      characters and periods. */
  lemma CleanSplit(cc: CharClasses, s: string)
    requires Sane(cc)
    ensures forall t :: t in Split(cc, Clean(cc, s)) ==>
      |t| > 0 && forall i :: 0 <= i < |t| ==> cc.isWord(t[i]) || t[i] == '.'
  {
    CleanShape(cc, s);
    SplitKeeps(cc, Clean(cc, s), c => cc.isWord(c) || c == '.');
  }

  /** When the tokenizer raises on the cleaned text, every token `fit` keeps
      is a non-empty run of word characters and periods, and the joined
      result splits back into exactly those tokens. */
  lemma FitFallback(cc: CharClasses, kit: Toolkit, text: Cell)
    requires Sane(cc)
    requires !IsNa(text)
    requires kit.tokenizer(Clean(cc, StrOf(text))).None?
    ensures forall t :: t in Fit(cc, kit, text, false).tokens ==>
      |t| > 0 && forall i :: 0 <= i < |t| ==> cc.isWord(t[i]) || t[i] == '.'
    ensures Split(cc, Fit(cc, kit, text, true).text) == Fit(cc, kit, text, false).tokens
  {
    var s := Clean(cc, StrOf(text));
    FitCleaned(cc, kit, text, false);
    FitCleaned(cc, kit, text, true);
    var tokens := Tokenize(cc, kit, Some(s));
    TokenizeFallback(cc, kit, s);
    CleanSplit(cc, StrOf(text));
    assert forall t :: t in tokens ==>
      |t| > 0 && forall i :: 0 <= i < |t| ==> cc.isWord(t[i]) || t[i] == '.';
    FinishRoundTrip(cc, kit, Some(s));
    SubseqMembers(Finish(cc, kit, Some(s), false).tokens, tokens);
  }

  /** Past a missing value, `fit` finishes the cleaned text. */
  lemma FitCleaned(cc: CharClasses, kit: Toolkit, text: Cell, concate: bool)
    requires !IsNa(text)
    ensures Fit(cc, kit, text, concate) == Finish(cc, kit, Some(Clean(cc, StrOf(text))), concate)
  {
  }
}
