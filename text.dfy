/**
 * The text helpers of DocumentService (app/core/preprocessor/documents/services.py):
 * the five cleaning stages, whitespace tokenisation as Python's str.split() does it,
 * ' '.join, and the token-count meaningfulness predicate.
 *
 * Characters: ASCII letters are the only letters the cleaning keeps; whitespace is the
 * set of characters Python's str.isspace accepts, which is the set str.split(),
 * str.strip() and the regular-expression class \s (on str patterns) all use.
 */
module Text {

  /** Python's str.isspace on one character. */
  predicate IsSpace(c: char) {
    ('\t' <= c <= '\r') || ('\U{1C}' <= c <= '\U{1F}') || c == ' ' || c == '\U{85}' || c == '\U{A0}'
    || c == '\U{1680}' || ('\U{2000}' <= c <= '\U{200A}') || c == '\U{2028}' || c == '\U{2029}'
    || c == '\U{202F}' || c == '\U{205F}' || c == '\U{3000}'
  }

  predicate IsAsciiUpper(c: char) { 'A' <= c <= 'Z' }

  predicate IsAsciiLower(c: char) { 'a' <= c <= 'z' }

  predicate IsAsciiLetter(c: char) { IsAsciiUpper(c) || IsAsciiLower(c) }

  /** A token of str.split(): non-empty and free of whitespace. */
  predicate IsWord(w: string) {
    w != [] && forall i :: 0 <= i < |w| ==> !IsSpace(w[i])
  }

  predicate AreWords(ws: seq<string>) {
    forall i :: 0 <= i < |ws| ==> IsWord(ws[i])
  }

  /** A non-empty run of lower-case ASCII letters: what the tokens look like after the first two stages. */
  predicate IsLowerWord(w: string) {
    w != [] && forall i :: 0 <= i < |w| ==> IsAsciiLower(w[i])
  }

  /** Every whitespace character is a plain space and no two whitespace characters are adjacent. */
  predicate SingleSpaced(s: string) {
    (forall i :: 0 <= i < |s| && IsSpace(s[i]) ==> s[i] == ' ')
    && (forall i, j :: 0 <= i < |s| && 0 <= j < |s| && j == i + 1 && IsSpace(s[i]) ==> !IsSpace(s[j]))
  }

  /** No leading and no trailing whitespace. */
  predicate Trimmed(s: string) {
    s == [] || (!IsSpace(s[0]) && !IsSpace(s[|s| - 1]))
  }

  predicate Normalized(s: string) {
    SingleSpaced(s) && Trimmed(s)
  }

  /** r is obtained from s by deleting elements, keeping the order of the rest. */
  ghost predicate IsSubsequence<T>(r: seq<T>, s: seq<T>)
    decreases |s|
  {
    r == [] || (s != [] && ((r[0] == s[0] && IsSubsequence(r[1..], s[1..])) || IsSubsequence(r, s[1..])))
  }

  /** A list comprehension `[x for x in s if keep(x)]`. */
  function Filter<T(==,!new)>(keep: T -> bool, s: seq<T>): (r: seq<T>)
    ensures forall i :: 0 <= i < |r| ==> keep(r[i])
    ensures IsSubsequence(r, s)
    ensures forall x :: keep(x) ==> multiset(r)[x] == multiset(s)[x]
    ensures |r| <= |s|
  {
    if s == [] then []
    else
      assert s == [s[0]] + s[1..];
      if keep(s[0]) then [s[0]] + Filter(keep, s[1..])
      else Filter(keep, s[1..])
  }

  /** Every element of a filtered sequence occurs in the sequence it was taken from. */
  lemma FilterFrom<T(!new)>(keep: T -> bool, s: seq<T>, x: T)
    requires x in Filter(keep, s)
    ensures x in s && keep(x)
  {
    var r := Filter(keep, s);
    assert x in multiset(r);
    assert multiset(r)[x] == multiset(s)[x];
  }

  // ---------------------------------------------------------------------------------------------
  // Stage 1: to_lowercase

  function LowerChar(c: char): char {
    if IsAsciiUpper(c) then (c as int + 32) as char else c
  }

  /** `text.lower()`, restricted to the ASCII case mapping. */
  function ToLowercase(s: string): (r: string)
    ensures |r| == |s|
    ensures forall i :: 0 <= i < |r| ==> !IsAsciiUpper(r[i])
    ensures forall i :: 0 <= i < |s| && !IsAsciiUpper(s[i]) ==> r[i] == s[i]
    ensures forall i :: 0 <= i < |s| && IsAsciiUpper(s[i]) ==> IsAsciiLower(r[i]) && r[i] as int == s[i] as int + 32
  {
    seq(|s|, i requires 0 <= i < |s| => LowerChar(s[i]))
  }

  // ---------------------------------------------------------------------------------------------
  // Stage 2: remove_special_characters, `re.sub(r'[^a-zA-Z\s]', '', text)`

  predicate IsKeptChar(c: char) { IsAsciiLetter(c) || IsSpace(c) }

  function RemoveSpecialCharacters(s: string): (r: string)
    ensures forall i :: 0 <= i < |r| ==> IsAsciiLetter(r[i]) || IsSpace(r[i])
    ensures IsSubsequence(r, s)
    ensures forall c :: IsAsciiLetter(c) || IsSpace(c) ==> multiset(r)[c] == multiset(s)[c]
  {
    Filter(IsKeptChar, s)
  }

  // ---------------------------------------------------------------------------------------------
  // Tokenisation: str.split() and ' '.join

  /** The length of the run of non-whitespace characters that s starts with. */
  function WordLength(s: string): (n: nat)
    ensures n <= |s|
    ensures forall i :: 0 <= i < n ==> !IsSpace(s[i])
    ensures n < |s| ==> IsSpace(s[n])
    decreases |s|
  {
    if s == [] || IsSpace(s[0]) then 0 else 1 + WordLength(s[1..])
  }

  /** `s.split()`: the maximal runs of non-whitespace characters of s, in order. */
  function Split(s: string): (r: seq<string>)
    ensures AreWords(r)
    decreases |s|
  {
    if s == [] then []
    else if IsSpace(s[0]) then Split(s[1..])
    else
      var n := WordLength(s);
      [s[..n]] + Split(s[n..])
  }

  /** `' '.join(ws)`: joining words leaves no leading, trailing or repeated whitespace, and is
      empty only when there are no words. */
  function Join(ws: seq<string>): (r: string)
    ensures AreWords(ws) ==> Normalized(r) && (r == [] <==> ws == [])
  {
    if ws == [] then []
    else if |ws| == 1 then ws[0]
    else
      var rest := Join(ws[1..]);
      NormalizedCons(ws[0], rest);
      ws[0] + " " + rest
  }

  /** WordLength is the only length with its three properties. */
  lemma WordLengthUnique(s: string, n: nat)
    requires n <= |s|
    requires forall i :: 0 <= i < n ==> !IsSpace(s[i])
    requires n < |s| ==> IsSpace(s[n])
    ensures WordLength(s) == n
  {
  }

  /** A string without whitespace, followed by a single-spaced one, is single-spaced. */
  lemma SingleSpacedAfterWord(w: string, rest: string)
    requires forall i :: 0 <= i < |w| ==> !IsSpace(w[i])
    requires SingleSpaced(rest)
    ensures SingleSpaced(w + rest)
  {
    var s := w + rest;
    assert forall i :: 0 <= i < |w| ==> s[i] == w[i];
    assert forall i :: |w| <= i < |s| ==> s[i] == rest[i - |w|];
  }

  /** A word, one space and a non-empty normalized string make a normalized string. */
  lemma NormalizedCons(w: string, t: string)
    ensures IsWord(w) && Normalized(t) && t != [] ==> Normalized(w + " " + t)
  {
    if IsWord(w) && Normalized(t) && t != [] {
      var u := " " + t;
      assert SingleSpaced(u) by {
        assert forall i :: 1 <= i < |u| ==> u[i] == t[i - 1];
      }
      SingleSpacedAfterWord(w, u);
      assert w + " " + t == w + u;
    }
  }

  // ---------------------------------------------------------------------------------------------
  // Stage 3: remove_stopwords

  function NonStopwords(ws: seq<string>, stopWords: set<string>): seq<string> {
    Filter((w: string) => w !in stopWords, ws)
  }

  /** `remove_stopwords`: the join of the tokens that are not stopwords has no leading, trailing
      or repeated whitespace (its tokens are stated by RemoveStopwordsTokens). */
  function RemoveStopwords(s: string, stopWords: set<string>): (r: string)
    ensures Normalized(r)
  {
    NonStopwordsAreWords(Split(s), stopWords);
    Join(NonStopwords(Split(s), stopWords))
  }

  /** Dropping stopwords from words leaves words. */
  lemma NonStopwordsAreWords(ws: seq<string>, stopWords: set<string>)
    requires AreWords(ws)
    ensures AreWords(NonStopwords(ws, stopWords))
  {
    var kept := NonStopwords(ws, stopWords);
    forall i | 0 <= i < |kept| ensures IsWord(kept[i]) {
      FilterFrom((w: string) => w !in stopWords, ws, kept[i]);
    }
  }

  // ---------------------------------------------------------------------------------------------
  // Stage 4: lemmatize_text

  /** `[lemmatize(word) for word in ws]`. */
  function Lemmas(ws: seq<string>, lemmatize: string -> string): (r: seq<string>)
    ensures |r| == |ws|
  {
    seq(|ws|, i requires 0 <= i < |ws| => lemmatize(ws[i]))
  }

  /** `lemmatize_text`: when every lemma is a word, the join of the lemmas has no leading,
      trailing or repeated whitespace (its tokens are stated by LemmatizeTextTokens). */
  function LemmatizeText(s: string, lemmatize: string -> string): (r: string)
    ensures AreWords(Lemmas(Split(s), lemmatize)) ==> Normalized(r)
  {
    Join(Lemmas(Split(s), lemmatize))
  }

  // ---------------------------------------------------------------------------------------------
  // Stage 5: remove_extra_whitespace, `re.sub(r'\s+', ' ', text).strip()`

  /** Drops the leading whitespace of s. */
  function DropLeadingSpace(s: string): (r: string)
    ensures |r| <= |s| && r == s[|s| - |r|..]
    ensures r == [] || !IsSpace(r[0])
    ensures forall i :: 0 <= i < |s| - |r| ==> IsSpace(s[i])
  {
    if s == [] || !IsSpace(s[0]) then s else DropLeadingSpace(s[1..])
  }

  /** Drops the trailing whitespace of s. */
  function DropTrailingSpace(s: string): (r: string)
    ensures |r| <= |s| && r == s[..|r|]
    ensures r == [] || !IsSpace(r[|r| - 1])
    ensures forall i :: |r| <= i < |s| ==> IsSpace(s[i])
  {
    if s == [] || !IsSpace(s[|s| - 1]) then s else DropTrailingSpace(s[..|s| - 1])
  }

  /** `s.strip()`: no whitespace at either end, and a string without any is left as it is (that
      strip keeps the tokens is StripTokens). */
  function Strip(s: string): (r: string)
    ensures Trimmed(r)
    ensures |r| <= |s|
    ensures Trimmed(s) ==> r == s
  {
    var d := DropLeadingSpace(s);
    var r := DropTrailingSpace(d);
    assert r != [] ==> r[0] == d[0];
    r
  }

  /** `re.sub(r'\s+', ' ', s)`: every maximal run of whitespace becomes one plain space. */
  function CollapseWhitespace(s: string): (r: string)
    ensures |r| == 0 <==> |s| == 0
    ensures s != [] ==> (IsSpace(r[0]) <==> IsSpace(s[0]))
    ensures SingleSpaced(r)
    decreases |s|
  {
    if s == [] then []
    else if IsSpace(s[0]) then
      var rest := CollapseWhitespace(DropLeadingSpace(s));
      assert forall i :: 1 <= i < |" " + rest| ==> (" " + rest)[i] == rest[i - 1];
      " " + rest
    else
      var n := WordLength(s);
      var rest := CollapseWhitespace(s[n..]);
      SingleSpacedAfterWord(s[..n], rest);
      s[..n] + rest
  }

  /** Collapsing keeps whether the text ends with whitespace. */
  lemma {:induction false} CollapseWhitespaceLast(s: string)
    requires s != []
    ensures var r := CollapseWhitespace(s);
            IsSpace(r[|r| - 1]) <==> IsSpace(s[|s| - 1])
    decreases |s|
  {
    var r := CollapseWhitespace(s);
    if IsSpace(s[0]) {
      var d := DropLeadingSpace(s);
      if d != [] {
        CollapseWhitespaceLast(d);
        assert r[|r| - 1] == CollapseWhitespace(d)[|CollapseWhitespace(d)| - 1];
        assert d[|d| - 1] == s[|s| - 1];
      }
    } else {
      var n := WordLength(s);
      if n < |s| {
        var rest := CollapseWhitespace(s[n..]);
        CollapseWhitespaceLast(s[n..]);
        assert r[|r| - 1] == rest[|rest| - 1];
      }
    }
  }

  function RemoveExtraWhitespace(s: string): (r: string)
    ensures Normalized(r)
  {
    var c := CollapseWhitespace(s);
    StripNormalizes(c);
    Strip(c)
  }

  /** A slice of a single-spaced string is single-spaced. */
  lemma SingleSpacedSlice(s: string, lo: nat, hi: nat)
    requires SingleSpaced(s) && lo <= hi <= |s|
    ensures SingleSpaced(s[lo..hi])
  {
    var t := s[lo..hi];
    assert forall i :: 0 <= i < |t| ==> t[i] == s[lo + i];
  }

  /** Stripping a single-spaced string leaves a normalized one. */
  lemma StripNormalizes(c: string)
    requires SingleSpaced(c)
    ensures Normalized(Strip(c))
  {
    var d := DropLeadingSpace(c);
    var r := DropTrailingSpace(d);
    assert SingleSpaced(d) by {
      SingleSpacedSlice(c, |c| - |d|, |c|);
    }
    assert SingleSpaced(r) by {
      SingleSpacedSlice(d, 0, |r|);
    }
    assert Trimmed(r) by {
      if r != [] {
        assert r[0] == d[0];
      }
    }
  }

  // ---------------------------------------------------------------------------------------------
  // clean_text and is_meaningful

  /** The five stages in the order clean_text applies them. */
  function CleanText(text: string, stopWords: set<string>, lemmatize: string -> string): (r: string)
    ensures Normalized(r)
  {
    var lowered := ToLowercase(text);
    var lettersOnly := RemoveSpecialCharacters(lowered);
    var withoutStopwords := RemoveStopwords(lettersOnly, stopWords);
    var lemmatized := LemmatizeText(withoutStopwords, lemmatize);
    RemoveExtraWhitespace(lemmatized)
  }

  /** `len(text.split()) >= min_word_count`: a text of whitespace alone is meaningful only for a
      threshold of zero or less. */
  predicate IsMeaningful(text: string, minWordCount: int): (b: bool)
    ensures (forall i :: 0 <= i < |text| ==> IsSpace(text[i])) ==> (b <==> minWordCount <= 0)
  {
    SplitBlank(text);
    |Split(text)| >= minWordCount
  }

  /** A text has no tokens iff it is whitespace alone. */
  lemma {:induction false} SplitBlank(s: string)
    ensures Split(s) == [] <==> forall i :: 0 <= i < |s| ==> IsSpace(s[i])
    decreases |s|
  {
    if s != [] && IsSpace(s[0]) {
      SplitBlank(s[1..]);
      assert forall i :: 1 <= i < |s| ==> s[i] == s[1..][i - 1];
    }
  }

  // ---------------------------------------------------------------------------------------------
  // Tokenisation lemmas

  /** A run of non-whitespace characters followed by nothing or by whitespace is a whole token. */
  lemma SplitWordThen(w: string, rest: string)
    requires IsWord(w) && (rest == [] || IsSpace(rest[0]))
    ensures Split(w + rest) == [w] + Split(rest)
  {
    var s := w + rest;
    WordLengthUnique(s, |w|);
    assert s[..|w|] == w && s[|w|..] == rest;
  }

  /** A single word splits into itself. */
  lemma SplitWord(w: string)
    requires IsWord(w)
    ensures Split(w) == [w]
  {
    SplitWordThen(w, []);
    assert w + [] == w;
  }

  /** Leading whitespace does not change the tokens. */
  lemma SplitSpaceThen(c: char, rest: string)
    requires IsSpace(c)
    ensures Split([c] + rest) == Split(rest)
  {
    assert ([c] + rest)[1..] == rest;
  }

  lemma JoinCons(w: string, ws: seq<string>)
    requires ws != []
    ensures Join([w] + ws) == w + " " + Join(ws)
  {
    assert ([w] + ws)[1..] == ws;
  }

  /** s is its prefix before n, its element n and its suffix after n. */
  lemma SliceAround<T>(s: seq<T>, n: nat)
    requires n < |s|
    ensures s == s[..n] + [s[n]] + s[n + 1..]
  {
  }

  /** A word, a space, then anything: the word is the first token. */
  lemma SplitWordSpace(w: string, v: string)
    requires IsWord(w)
    ensures Split(w + " " + v) == [w] + Split(v)
  {
    assert w + " " + v == w + (" " + v);
    SplitWordThen(w, " " + v);
    SplitSpaceThen(' ', v);
  }

  /** Round trip: splitting the single-space join of words gives the words back. */
  lemma {:induction false} SplitJoin(ws: seq<string>)
    requires AreWords(ws)
    ensures Split(Join(ws)) == ws
    decreases |ws|
  {
    if |ws| == 1 {
      SplitWord(ws[0]);
    } else if |ws| > 1 {
      SplitWordSpace(ws[0], Join(ws[1..]));
      SplitJoin(ws[1..]);
      assert ws == [ws[0]] + ws[1..];
    }
  }

  /** In a normalized string the first token is followed by nothing, or by one plain space and
      a non-empty normalized rest. */
  lemma NormalizedAfterWord(t: string)
    requires Normalized(t) && t != []
    ensures WordLength(t) < |t| ==>
              var n := WordLength(t);
              t[n] == ' ' && n + 1 < |t| && Normalized(t[n + 1..])
  {
    var n := WordLength(t);
    if n < |t| {
      SpaceInNormalized(t, n);
      SingleSpacedSlice(t, n + 1, |t|);
      assert t[n + 1..][0] == t[n + 1] && t[n + 1..][|t| - n - 2] == t[|t| - 1];
    }
  }

  /** Whitespace inside a normalized string is a plain space between two non-whitespace characters. */
  lemma SpaceInNormalized(t: string, k: nat)
    requires Normalized(t) && k < |t| && IsSpace(t[k])
    ensures t[k] == ' ' && 0 < k < |t| - 1 && !IsSpace(t[k + 1])
  {
  }

  /** A normalized string is the single-space join of its own tokens. */
  lemma {:induction false} JoinSplitNormalized(t: string)
    requires Normalized(t)
    ensures Join(Split(t)) == t
    decreases |t|
  {
    if t != [] {
      var n := WordLength(t);
      NormalizedAfterWord(t);
      if n < |t| {
        var w, v := t[..n], t[n + 1..];
        SliceAround(t, n);
        assert t == w + " " + v;
        SplitWordSpace(w, v);
        JoinSplitNormalized(v);
        assert Split(v) != [] by {
          assert Join(Split(v)) == v;
        }
        JoinCons(w, Split(v));
      } else {
        SplitWord(t);
      }
    }
  }

  lemma {:induction false} SplitDropLeadingSpace(s: string)
    ensures Split(DropLeadingSpace(s)) == Split(s)
    decreases |s|
  {
    if s != [] && IsSpace(s[0]) {
      SplitDropLeadingSpace(s[1..]);
    }
  }

  /** Trailing whitespace does not change the tokens. */
  lemma {:induction false} SplitAppendSpace(t: string, c: char)
    requires IsSpace(c)
    ensures Split(t + [c]) == Split(t)
    decreases |t|
  {
    if t != [] {
      if IsSpace(t[0]) {
        assert (t + [c])[1..] == t[1..] + [c];
        SplitAppendSpace(t[1..], c);
      } else {
        var n := WordLength(t);
        var s := t + [c];
        WordLengthUnique(s, n);
        assert s[..n] == t[..n] && s[n..] == t[n..] + [c];
        SplitAppendSpace(t[n..], c);
      }
    }
  }

  lemma {:induction false} SplitDropTrailingSpace(s: string)
    ensures Split(DropTrailingSpace(s)) == Split(s)
    decreases |s|
  {
    if s != [] && IsSpace(s[|s| - 1]) {
      SplitDropTrailingSpace(s[..|s| - 1]);
      SplitAppendSpace(s[..|s| - 1], s[|s| - 1]);
      assert s[..|s| - 1] + [s[|s| - 1]] == s;
    }
  }

  lemma {:induction false} SplitCollapseWhitespace(s: string)
    ensures Split(CollapseWhitespace(s)) == Split(s)
    decreases |s|
  {
    if s != [] {
      if IsSpace(s[0]) {
        var d := DropLeadingSpace(s);
        SplitCollapseWhitespace(d);
        SplitDropLeadingSpace(s);
        assert (" " + CollapseWhitespace(d))[1..] == CollapseWhitespace(d);
      } else {
        var n := WordLength(s);
        var rest := CollapseWhitespace(s[n..]);
        SplitCollapseWhitespace(s[n..]);
        SplitWordThen(s[..n], rest);
      }
    }
  }

  // ---------------------------------------------------------------------------------------------
  // Properties of the stages

  /** remove_extra_whitespace keeps the tokens of its input. */
  lemma RemoveExtraWhitespaceTokens(s: string)
    ensures Split(RemoveExtraWhitespace(s)) == Split(s)
  {
    var c := CollapseWhitespace(s);
    SplitCollapseWhitespace(s);
    SplitDropLeadingSpace(c);
    SplitDropTrailingSpace(DropLeadingSpace(c));
  }

  /** remove_extra_whitespace is the single-space join of the input's tokens. */
  lemma RemoveExtraWhitespaceJoinsTokens(s: string)
    ensures RemoveExtraWhitespace(s) == Join(Split(s))
  {
    var r := RemoveExtraWhitespace(s);
    JoinSplitNormalized(r);
    RemoveExtraWhitespaceTokens(s);
  }

  /** remove_extra_whitespace changes nothing in a string without extra whitespace. */
  lemma RemoveExtraWhitespaceFixesNormalized(t: string)
    requires Normalized(t)
    ensures RemoveExtraWhitespace(t) == t
  {
    RemoveExtraWhitespaceJoinsTokens(t);
    JoinSplitNormalized(t);
  }

  lemma RemoveExtraWhitespaceIdempotent(s: string)
    ensures RemoveExtraWhitespace(RemoveExtraWhitespace(s)) == RemoveExtraWhitespace(s)
  {
    RemoveExtraWhitespaceFixesNormalized(RemoveExtraWhitespace(s));
  }

  /** The tokens of remove_stopwords' output are the input's tokens that are not stopwords, in order. */
  lemma RemoveStopwordsTokens(s: string, stopWords: set<string>)
    ensures Split(RemoveStopwords(s, stopWords)) == NonStopwords(Split(s), stopWords)
  {
    NonStopwordsAreWords(Split(s), stopWords);
    SplitJoin(NonStopwords(Split(s), stopWords));
  }

  /** When the lemmatizer maps each token to a word, the tokens of lemmatize_text's output are the
      lemmas of the input's tokens, in order. */
  lemma LemmatizeTextTokens(s: string, lemmatize: string -> string)
    requires forall i :: 0 <= i < |Split(s)| ==> IsWord(lemmatize(Split(s)[i]))
    ensures Split(LemmatizeText(s, lemmatize)) == Lemmas(Split(s), lemmatize)
  {
    SplitJoin(Lemmas(Split(s), lemmatize));
  }

  /** strip() keeps the tokens. */
  lemma StripTokens(s: string)
    ensures Split(Strip(s)) == Split(s)
  {
    SplitDropLeadingSpace(s);
    SplitDropTrailingSpace(DropLeadingSpace(s));
  }

  /** The first two stages leave only lower-case ASCII words as tokens. */
  lemma LettersOnlyTokens(s: string)
    ensures forall w :: w in Split(RemoveSpecialCharacters(ToLowercase(s))) ==> IsLowerWord(w)
  {
    var lowered := ToLowercase(s);
    var t := RemoveSpecialCharacters(lowered);
    forall i | 0 <= i < |t| ensures IsAsciiLower(t[i]) || IsSpace(t[i]) {
      var c := t[i];
      if !IsSpace(c) {
        assert multiset(t)[c] > 0;
        assert c in multiset(lowered);
      }
    }
    LowerLettersSplit(t);
  }

  lemma {:induction false} LowerLettersSplit(t: string)
    requires forall i :: 0 <= i < |t| ==> IsAsciiLower(t[i]) || IsSpace(t[i])
    ensures forall w :: w in Split(t) ==> IsLowerWord(w)
    decreases |t|
  {
    if t != [] {
      if IsSpace(t[0]) {
        LowerLettersSplit(t[1..]);
      } else {
        var n := WordLength(t);
        LowerLettersSplit(t[n..]);
        assert IsLowerWord(t[..n]);
      }
    }
  }

  /** clean_text's tokens are the lemmas of the non-stopword tokens of the lowered letters-only
      text, in order, joined by single spaces. */
  lemma CleanTextTokens(text: string, stopWords: set<string>, lemmatize: string -> string)
    requires forall w :: IsLowerWord(w) ==> IsWord(lemmatize(w))
    ensures var kept := NonStopwords(Split(RemoveSpecialCharacters(ToLowercase(text))), stopWords);
            Split(CleanText(text, stopWords, lemmatize)) == Lemmas(kept, lemmatize)
            && CleanText(text, stopWords, lemmatize) == Join(Lemmas(kept, lemmatize))
  {
    var tokens := Split(RemoveSpecialCharacters(ToLowercase(text)));
    var kept := NonStopwords(tokens, stopWords);
    LettersOnlyTokens(text);
    forall i | 0 <= i < |kept| ensures IsLowerWord(kept[i]) {
      FilterFrom((w: string) => w !in stopWords, tokens, kept[i]);
    }
    var withoutStopwords := RemoveStopwords(RemoveSpecialCharacters(ToLowercase(text)), stopWords);
    RemoveStopwordsTokens(RemoveSpecialCharacters(ToLowercase(text)), stopWords);
    assert Split(withoutStopwords) == kept;
    var lemmas := Lemmas(kept, lemmatize);
    assert AreWords(lemmas);
    SplitJoin(lemmas);
    RemoveExtraWhitespaceJoinsTokens(Join(lemmas));
  }

  /** Meaningfulness counts words: the join of n words is meaningful iff n reaches the threshold. */
  lemma MeaningfulCountsWords(ws: seq<string>, minWordCount: int)
    requires AreWords(ws)
    ensures IsMeaningful(Join(ws), minWordCount) <==> |ws| >= minWordCount
  {
    SplitJoin(ws);
  }

  /** Extra whitespace never changes whether a text is meaningful. */
  lemma MeaningfulIgnoresSpacing(s: string, minWordCount: int)
    ensures IsMeaningful(RemoveExtraWhitespace(s), minWordCount) <==> IsMeaningful(s, minWordCount)
  {
    RemoveExtraWhitespaceTokens(s);
  }
}
