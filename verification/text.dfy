/**
 * Character classes and the whitespace handling that both text normalisers and
 * the sentiment wrapper rely on: Python's `str.split()`, `" ".join(...)`,
 * `str.strip()` and `str.lower()`.
 */
module Text {

  /** The Unicode facts the code depends on, taken as parameters instead of
      Unicode tables: `isWord` is the regex class `\w`, `isSpace` is the regex
      class `\s` (the same characters as `str.isspace`), and `lower` is
      `str.lower` applied to one character, which may yield several characters. */
  datatype CharClasses = CharClasses(isWord: char -> bool, isSpace: char -> bool, lower: char -> string)

  /** What Python's classes guarantee and the proofs about cleaned text use:
      the ASCII space is whitespace, `.` is not, both are their own lower case,
      word characters are never whitespace, and lower-casing a word character
      yields one or more word characters. */
  ghost predicate Sane(cc: CharClasses) {
    && cc.isSpace(' ')
    && !cc.isSpace('.')
    && cc.lower(' ') == " "
    && cc.lower('.') == "."
    && (forall c :: cc.isWord(c) ==> !cc.isSpace(c))
    && (forall c :: cc.isWord(c) ==> |cc.lower(c)| > 0)
    && (forall c, i :: cc.isWord(c) && 0 <= i < |cc.lower(c)| ==> cc.isWord(cc.lower(c)[i]))
  }

  /** `a` is `b` with some elements left out and the rest in their order. */
  ghost predicate Subseq<T>(a: seq<T>, b: seq<T>)
    decreases |b|
  {
    if a == [] then true
    else if b == [] then false
    else (a[0] == b[0] && Subseq(a[1..], b[1..])) || Subseq(a, b[1..])
  }

  /** A subsequence of a suffix of `b` is a subsequence of `b`. */
  lemma {:induction false} SubseqOfSuffix<T>(a: seq<T>, b: seq<T>, k: nat)
    requires k <= |b| && Subseq(a, b[k..])
    ensures Subseq(a, b)
    decreases k
  {
    if k == 0 {
      assert b[0..] == b;
    } else {
      assert b[1..][k - 1..] == b[k..];
      SubseqOfSuffix(a, b[1..], k - 1);
    }
  }

  /** Every element of a subsequence of `b` is an element of `b`. */
  lemma {:induction false} SubseqMembers<T>(a: seq<T>, b: seq<T>)
    requires Subseq(a, b)
    ensures forall x :: x in a ==> x in b
    decreases |b|
  {
    if a != [] {
      if a[0] == b[0] && Subseq(a[1..], b[1..]) {
        SubseqMembers(a[1..], b[1..]);
        assert forall x :: x in a ==> x == a[0] || x in a[1..];
      } else {
        SubseqMembers(a, b[1..]);
      }
      assert forall x :: x in b[1..] ==> x in b;
    }
  }

  /** A token as `str.split()` yields it: non-empty and free of whitespace. */
  predicate IsChunk(cc: CharClasses, w: string) {
    |w| > 0 && forall i :: 0 <= i < |w| ==> !cc.isSpace(w[i])
  }

  /** No space at either end and never two spaces in a row. */
  predicate SingleSpaced(s: string) {
    && (|s| > 0 ==> s[0] != ' ' && s[|s| - 1] != ' ')
    && forall i :: 0 <= i < |s| - 1 ==> !(s[i] == ' ' && s[i + 1] == ' ')
  }

  /** The characters of `s` that are not whitespace, in order. */
  function NonSpace(cc: CharClasses, s: string): string {
    if s == [] then []
    else (if cc.isSpace(s[0]) then [] else [s[0]]) + NonSpace(cc, s[1..])
  }

  /** All tokens of `ws` written one after the other. */
  function Concat(ws: seq<string>): string {
    if ws == [] then [] else ws[0] + Concat(ws[1..])
  }

  /** The longest whitespace-free prefix of `s`. */
  function LeadingWord(cc: CharClasses, s: string): (w: string)
    ensures |w| <= |s| && w == s[..|w|]
    ensures forall i :: 0 <= i < |w| ==> !cc.isSpace(w[i])
    ensures |w| < |s| ==> cc.isSpace(s[|w|])
  {
    if s == [] || cc.isSpace(s[0]) then [] else [s[0]] + LeadingWord(cc, s[1..])
  }

  /** `s.split()`: the maximal whitespace-free runs of `s`, in order. */
  function Split(cc: CharClasses, s: string): (ws: seq<string>)
    ensures forall k :: 0 <= k < |ws| ==> IsChunk(cc, ws[k])
    decreases |s|
  {
    if s == [] then []
    else if cc.isSpace(s[0]) then Split(cc, s[1..])
    else
      var w := LeadingWord(cc, s);
      [w] + Split(cc, s[|w|..])
  }

  /** `sep.join(ws)` for a one-character separator: the tokens in order, one
      separator between each two. */
  function Join(ws: seq<string>, sep: char): (r: string)
    ensures |r| == |Concat(ws)| + (if ws == [] then 0 else |ws| - 1)
  {
    if ws == [] then ""
    else if |ws| == 1 then ws[0]
    else ws[0] + [sep] + Join(ws[1..], sep)
  }

  /** `" ".join(s.split())`: runs of whitespace become one space, and the ends
      are trimmed; the tokens of the text stay the same. */
  function Collapse(cc: CharClasses, s: string): (r: string)
    ensures cc.isSpace(' ') ==> Split(cc, r) == Split(cc, s)
  {
    var r := Join(Split(cc, s), ' ');
    if cc.isSpace(' ') then SplitJoin(cc, Split(cc, s)); r else r
  }

  /** `s.lower()`, one character at a time: text whose every character is its
      own lower case is unchanged. */
  function Lower(cc: CharClasses, s: string): (r: string)
    ensures (forall i :: 0 <= i < |s| ==> cc.lower(s[i]) == [s[i]]) ==> r == s
  {
    if s == [] then []
    else
      assert forall i :: 1 <= i < |s| ==> s[1..][i - 1] == s[i];
      cc.lower(s[0]) + Lower(cc, s[1..])
  }

  /** `Lower` applied to every token. */
  function LowerEach(cc: CharClasses, ws: seq<string>): seq<string> {
    seq(|ws|, k requires 0 <= k < |ws| => Lower(cc, ws[k]))
  }

  /** `s.lstrip()`. */
  function StripStart(cc: CharClasses, s: string): (r: string)
    ensures |r| <= |s| && r == s[|s| - |r|..]
    ensures r != [] ==> !cc.isSpace(r[0])
    ensures forall i :: 0 <= i < |s| - |r| ==> cc.isSpace(s[i])
  {
    if s != [] && cc.isSpace(s[0]) then
      var r := StripStart(cc, s[1..]);
      assert s[1..][|s| - 1 - |r|..] == s[|s| - |r|..];
      assert forall i :: 1 <= i < |s| - |r| ==> s[i] == s[1..][i - 1];
      r
    else s
  }

  /** `s.rstrip()`. */
  function StripEnd(cc: CharClasses, s: string): (r: string)
    ensures |r| <= |s| && r == s[..|r|]
    ensures r != [] ==> !cc.isSpace(r[|r| - 1])
    ensures forall i :: |r| <= i < |s| ==> cc.isSpace(s[i])
  {
    if s != [] && cc.isSpace(s[|s| - 1]) then
      var r := StripEnd(cc, s[..|s| - 1]);
      assert s[..|s| - 1][..|r|] == s[..|r|];
      assert forall i :: |r| <= i < |s| - 1 ==> s[i] == s[..|s| - 1][i];
      r
    else s
  }

  /** `s.strip()`: the text between the leading and the trailing whitespace. */
  function Strip(cc: CharClasses, s: string): (r: string)
    ensures |r| <= |s|
    ensures r != [] ==> !cc.isSpace(r[0]) && !cc.isSpace(r[|r| - 1])
  {
    StripEnd(cc, StripStart(cc, s))
  }

  /** What `s.strip()` removes is whitespace at the two ends, and what it
      keeps is one contiguous piece of `s`. */
  lemma StripTrims(cc: CharClasses, s: string)
    ensures exists lead ::
      && 0 <= lead <= |s| - |Strip(cc, s)|
      && Strip(cc, s) == s[lead..][..|Strip(cc, s)|]
      && (forall i :: 0 <= i < lead ==> cc.isSpace(s[i]))
      && (forall i :: lead + |Strip(cc, s)| <= i < |s| ==> cc.isSpace(s[i]))
  {
    var t := StripStart(cc, s);
    var r := StripEnd(cc, t);
    var lead := |s| - |t|;
    assert t == s[lead..];
    assert r == s[lead..][..|r|];
    forall i | lead + |r| <= i < |s| ensures cc.isSpace(s[i]) {
      assert s[i] == t[i - lead];
    }
  }

  /** `s.strip()` is empty exactly when every character of `s` is whitespace. */
  lemma StripBlank(cc: CharClasses, s: string)
    ensures Strip(cc, s) == [] <==> forall i :: 0 <= i < |s| ==> cc.isSpace(s[i])
  {
    var r := Strip(cc, s);
    StripTrims(cc, s);
    var lead :| 0 <= lead <= |s| - |r| && r == s[lead..][..|r|]
      && (forall i :: 0 <= i < lead ==> cc.isSpace(s[i]))
      && (forall i :: lead + |r| <= i < |s| ==> cc.isSpace(s[i]));
    if r != [] {
      assert s[lead] == r[0];
    } else {
      forall i | 0 <= i < |s| ensures cc.isSpace(s[i]) {
        if i >= lead {
          assert lead + |r| <= i;
        }
      }
    }
  }

  /** Stripping twice is stripping once. */
  lemma StripIdempotent(cc: CharClasses, s: string)
    ensures Strip(cc, Strip(cc, s)) == Strip(cc, s)
  {
    var r := Strip(cc, s);
    assert StripStart(cc, r) == r;
    assert StripEnd(cc, r) == r;
  }

  lemma {:induction false} NonSpaceAppend(cc: CharClasses, a: string, b: string)
    ensures NonSpace(cc, a + b) == NonSpace(cc, a) + NonSpace(cc, b)
  {
    if a == [] {
      assert a + b == b;
    } else {
      assert (a + b)[1..] == a[1..] + b;
      NonSpaceAppend(cc, a[1..], b);
    }
  }

  lemma {:induction false} NonSpaceOfRun(cc: CharClasses, w: string)
    requires forall i :: 0 <= i < |w| ==> !cc.isSpace(w[i])
    ensures NonSpace(cc, w) == w
  {
    if w != [] {
      NonSpaceOfRun(cc, w[1..]);
    }
  }

  /** `str.split()` loses nothing but whitespace: its tokens, written one after
      the other, are exactly the non-whitespace characters of the input. */
  lemma {:induction false} SplitNonSpace(cc: CharClasses, s: string)
    ensures Concat(Split(cc, s)) == NonSpace(cc, s)
    decreases |s|
  {
    if s == [] {
    } else if cc.isSpace(s[0]) {
      SplitNonSpace(cc, s[1..]);
    } else {
      var w := LeadingWord(cc, s);
      var rest := s[|w|..];
      SplitNonSpace(cc, rest);
      assert ([w] + Split(cc, rest))[1..] == Split(cc, rest);
      assert s == w + rest;
      NonSpaceAppend(cc, w, rest);
      NonSpaceOfRun(cc, w);
    }
  }

  /** Every character of every token of `s.split()` is a non-whitespace
      character of `s`; so any property of those characters carries over. */
  lemma {:induction false} SplitKeeps(cc: CharClasses, s: string, p: char -> bool)
    requires forall i :: 0 <= i < |s| && !cc.isSpace(s[i]) ==> p(s[i])
    ensures forall k, i :: 0 <= k < |Split(cc, s)| && 0 <= i < |Split(cc, s)[k]| ==> p(Split(cc, s)[k][i])
    decreases |s|
  {
    if s == [] {
    } else if cc.isSpace(s[0]) {
      SplitKeeps(cc, s[1..], p);
    } else {
      var w := LeadingWord(cc, s);
      var rest := s[|w|..];
      SplitKeeps(cc, rest, p);
      var ws := Split(cc, s);
      assert ws == [w] + Split(cc, rest);
      forall k, i | 0 <= k < |ws| && 0 <= i < |ws[k]| ensures p(ws[k][i]) {
        if k == 0 {
          assert ws[0][i] == s[i];
        } else {
          assert ws[k] == Split(cc, rest)[k - 1];
        }
      }
    }
  }

  lemma {:induction false} LeadingWordOfChunk(cc: CharClasses, w: string, rest: string)
    requires IsChunk(cc, w)
    requires rest == [] || cc.isSpace(rest[0])
    ensures LeadingWord(cc, w + rest) == w
    decreases |w|
  {
    assert (w + rest)[1..] == w[1..] + rest;
    if |w| > 1 {
      LeadingWordOfChunk(cc, w[1..], rest);
    } else {
      assert w[1..] + rest == rest;
    }
  }

  /** `str.split()` cuts at every whitespace character: the tokens of the text
      on either side of one are the tokens of the whole. */
  lemma {:induction false} SplitAtSpace(cc: CharClasses, a: string, c: char, b: string)
    requires cc.isSpace(c)
    ensures Split(cc, a + [c] + b) == Split(cc, a) + Split(cc, b)
    decreases |a|
  {
    var s := a + [c] + b;
    if a == [] {
      assert s == [c] + b;
      assert s[1..] == b;
    } else if cc.isSpace(a[0]) {
      assert s[1..] == a[1..] + [c] + b;
      SplitAtSpace(cc, a[1..], c, b);
    } else {
      var w := LeadingWord(cc, a);
      SplitAtSpace(cc, a[|w|..], c, b);
      SplitWordBeforeSpace(cc, a, c, b);
    }
  }

  /** The step of `SplitAtSpace` where the text starts with a word. */
  lemma SplitWordBeforeSpace(cc: CharClasses, a: string, c: char, b: string)
    requires cc.isSpace(c) && a != [] && !cc.isSpace(a[0])
    requires Split(cc, a[|LeadingWord(cc, a)|..] + [c] + b) == Split(cc, a[|LeadingWord(cc, a)|..]) + Split(cc, b)
    ensures Split(cc, a + [c] + b) == Split(cc, a) + Split(cc, b)
  {
    var w := LeadingWord(cc, a);
    var t := a[|w|..];
    WordCut(cc, a);
    SpaceCut(cc, w, t, c, b);
    SplitFront(cc, w, t);
    SplitFront(cc, w, t + [c] + b);
    AppendAssoc([w], Split(cc, t), Split(cc, b));
  }

  lemma AppendAssoc<T>(x: seq<T>, y: seq<T>, z: seq<T>)
    ensures x + (y + z) == (x + y) + z
  {
  }

  /** Text that starts with a word is that word followed by text that is empty
      or starts with whitespace. */
  lemma WordCut(cc: CharClasses, a: string)
    requires a != [] && !cc.isSpace(a[0])
    ensures IsChunk(cc, LeadingWord(cc, a))
    ensures a == LeadingWord(cc, a) + a[|LeadingWord(cc, a)|..]
    ensures a[|LeadingWord(cc, a)|..] == [] || cc.isSpace(a[|LeadingWord(cc, a)|..][0])
  {
  }

  lemma SpaceCut(cc: CharClasses, w: string, t: string, c: char, b: string)
    requires cc.isSpace(c) && (t == [] || cc.isSpace(t[0]))
    ensures cc.isSpace((t + [c] + b)[0])
    ensures w + t + [c] + b == w + (t + [c] + b)
  {
  }

  /** A non-empty whitespace-free text is a single token. */
  lemma SplitChunk(cc: CharClasses, w: string)
    requires IsChunk(cc, w)
    ensures Split(cc, w) == [w]
  {
    SplitFront(cc, w, []);
    assert w + [] == w;
  }

  lemma SplitFront(cc: CharClasses, w: string, rest: string)
    requires IsChunk(cc, w)
    requires rest == [] || cc.isSpace(rest[0])
    ensures Split(cc, w + rest) == [w] + Split(cc, rest)
  {
    LeadingWordOfChunk(cc, w, rest);
    assert (w + rest)[|w|..] == rest;
  }

  /** Round trip: splitting `" ".join(ws)` gives back `ws` whenever every
      token is non-empty and free of whitespace. */
  lemma {:induction false} SplitJoin(cc: CharClasses, ws: seq<string>)
    requires cc.isSpace(' ')
    requires forall k :: 0 <= k < |ws| ==> IsChunk(cc, ws[k])
    ensures Split(cc, Join(ws, ' ')) == ws
  {
    if |ws| == 1 {
      SplitFront(cc, ws[0], []);
      assert ws[0] + [] == ws[0];
    } else if |ws| > 1 {
      var tail := Join(ws[1..], ' ');
      SplitJoin(cc, ws[1..]);
      assert Join(ws, ' ') == ws[0] + ([' '] + tail);
      SplitFront(cc, ws[0], [' '] + tail);
      assert ([' '] + tail)[1..] == tail;
    }
  }

  /** Joining some of the tokens of a whitespace-free list and splitting again
      gives those tokens back. */
  lemma SplitJoinSubseq(cc: CharClasses, kept: seq<string>, tokens: seq<string>)
    requires cc.isSpace(' ')
    requires Subseq(kept, tokens)
    requires forall t :: t in tokens ==> IsChunk(cc, t)
    ensures Split(cc, Join(kept, ' ')) == kept
  {
    SubseqMembers(kept, tokens);
    assert forall k :: 0 <= k < |kept| ==> kept[k] in tokens;
    SplitJoin(cc, kept);
  }

  /** Collapsing whitespace is idempotent. */
  lemma CollapseIdempotent(cc: CharClasses, s: string)
    requires cc.isSpace(' ')
    ensures Collapse(cc, Collapse(cc, s)) == Collapse(cc, s)
  {
    SplitJoin(cc, Split(cc, s));
  }

  lemma {:induction false} JoinEnds(ws: seq<string>, sep: char)
    requires |ws| > 0 && forall k :: 0 <= k < |ws| ==> |ws[k]| > 0
    ensures |Join(ws, sep)| > 0
    ensures Join(ws, sep)[0] == ws[0][0]
    ensures Join(ws, sep)[|Join(ws, sep)| - 1] == ws[|ws| - 1][|ws[|ws| - 1]| - 1]
  {
    if |ws| > 1 {
      JoinEnds(ws[1..], sep);
    }
  }

  /** A property shared by the separator and by every character of every
      token holds of every character of the joined text. */
  lemma {:induction false} JoinKeeps(ws: seq<string>, sep: char, p: char -> bool)
    requires p(sep)
    requires forall k, i :: 0 <= k < |ws| && 0 <= i < |ws[k]| ==> p(ws[k][i])
    ensures forall i :: 0 <= i < |Join(ws, sep)| ==> p(Join(ws, sep)[i])
  {
    if |ws| > 1 {
      JoinKeeps(ws[1..], sep, p);
      var tail := Join(ws[1..], sep);
      var s := Join(ws, sep);
      forall i | 0 <= i < |s| ensures p(s[i]) {
        if i < |ws[0]| {
          assert s[i] == ws[0][i];
        } else if i > |ws[0]| {
          assert s[i] == tail[i - |ws[0]| - 1];
        }
      }
    }
  }

  /** Joining non-empty, space-free tokens with single spaces leaves no space
      at either end and no two spaces in a row. */
  lemma {:induction false} JoinSingleSpaced(ws: seq<string>)
    requires forall k :: 0 <= k < |ws| ==> |ws[k]| > 0 && ' ' !in ws[k]
    ensures SingleSpaced(Join(ws, ' '))
  {
    if |ws| == 1 {
      assert forall i :: 0 <= i < |ws[0]| ==> ws[0][i] != ' ';
    } else if |ws| > 1 {
      var head, tail := ws[0], Join(ws[1..], ' ');
      JoinSingleSpaced(ws[1..]);
      JoinEnds(ws[1..], ' ');
      var s := Join(ws, ' ');
      assert s == head + [' '] + tail;
      assert forall i :: 0 <= i < |head| ==> head[i] != ' ';
      forall i | 0 <= i < |s| - 1 ensures !(s[i] == ' ' && s[i + 1] == ' ') {
        if i < |head| {
          assert s[i] == head[i];
        } else if i == |head| {
          assert s[i + 1] == tail[0];
        } else {
          assert s[i] == tail[i - |head| - 1] && s[i + 1] == tail[i - |head|];
        }
      }
    }
  }

  lemma {:induction false} LowerAppend(cc: CharClasses, a: string, b: string)
    ensures Lower(cc, a + b) == Lower(cc, a) + Lower(cc, b)
  {
    if a == [] {
      assert a + b == b;
    } else {
      assert (a + b)[1..] == a[1..] + b;
      LowerAppend(cc, a[1..], b);
    }
  }

  /** Lower-casing commutes with joining on a space, because the space is its
      own lower case. */
  lemma {:induction false} LowerJoin(cc: CharClasses, ws: seq<string>)
    requires cc.lower(' ') == " "
    ensures Lower(cc, Join(ws, ' ')) == Join(LowerEach(cc, ws), ' ')
  {
    if |ws| > 1 {
      assert LowerEach(cc, ws)[1..] == LowerEach(cc, ws[1..]);
      LowerJoin(cc, ws[1..]);
      var tail := Join(ws[1..], ' ');
      LowerAppend(cc, ws[0] + [' '], tail);
      LowerAppend(cc, ws[0], [' ']);
      assert Lower(cc, [' ']) == " ";
    }
  }

  /** Lower-casing a non-empty run of word characters and periods gives a
      non-empty run of word characters and periods. */
  lemma {:induction false} LowerWordRun(cc: CharClasses, w: string)
    requires Sane(cc)
    requires |w| > 0 && forall i :: 0 <= i < |w| ==> cc.isWord(w[i]) || w[i] == '.'
    ensures |Lower(cc, w)| > 0
    ensures forall i :: 0 <= i < |Lower(cc, w)| ==> cc.isWord(Lower(cc, w)[i]) || Lower(cc, w)[i] == '.'
  {
    var head := cc.lower(w[0]);
    assert |head| > 0 && forall i :: 0 <= i < |head| ==> cc.isWord(head[i]) || head[i] == '.';
    if |w| > 1 {
      LowerWordRun(cc, w[1..]);
    }
    var tail := Lower(cc, w[1..]);
    assert tail != [] ==> forall i :: 0 <= i < |tail| ==> cc.isWord(tail[i]) || tail[i] == '.';
    assert Lower(cc, w) == head + tail;
  }
  /** Text that is already single-spaced, and whose only whitespace is the
      ASCII space, is left as it is by collapsing. */
  lemma {:induction false} SingleSpacedIsCollapsed(cc: CharClasses, t: string)
    requires cc.isSpace(' ')
    requires SingleSpaced(t)
    requires forall i :: 0 <= i < |t| && cc.isSpace(t[i]) ==> t[i] == ' '
    ensures Collapse(cc, t) == t
    decreases |t|
  {
    if t != [] {
      var w := LeadingWord(cc, t);
      var rest := t[|w|..];
      assert t == w + rest;
      if rest == [] {
        SplitFront(cc, w, []);
        assert w + [] == w;
      } else {
        assert rest[0] == ' ';
        assert |rest| >= 2;
        var u := rest[1..];
        assert u[0] != ' ';
        assert forall i :: 0 <= i < |u| ==> u[i] == t[|w| + 1 + i];
        SingleSpacedIsCollapsed(cc, u);
        assert t == w + [' '] + u;
        CollapseStep(cc, w, u);
      }
    }
  }

  /** A word, one space, then text that collapses to itself: the whole
      collapses to itself. */
  lemma CollapseStep(cc: CharClasses, w: string, u: string)
    requires cc.isSpace(' ') && IsChunk(cc, w)
    requires u != [] && !cc.isSpace(u[0]) && Collapse(cc, u) == u
    ensures Collapse(cc, w + [' '] + u) == w + [' '] + u
  {
    var rest := [' '] + u;
    assert w + [' '] + u == w + rest;
    SplitFront(cc, w, rest);
    assert rest[1..] == u;
    var tail := Split(cc, u);
    assert Split(cc, rest) == tail;
    assert tail != [];
    assert ([w] + tail)[1..] == tail;
  }
}
