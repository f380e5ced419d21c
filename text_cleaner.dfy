/** The `clean(doc)` normaliser of train_hat_male.py: drop stopword tokens,
    delete punctuation, lemmatise each remaining token. The NLTK stopword set
    and the WordNet lemmatiser are parameters: `stop` and `lemmatize`. */
module TextCleaner {

  /** The characters for which Python's `str.isspace()` holds; `str.split()`
      with no argument separates tokens at runs of these. */
  const Whitespace: string :=
    "\t\n\U{B}\U{C}\r\U{1C}\U{1D}\U{1E}\U{1F} \U{85}\U{A0}\U{1680}"
    + "\U{2000}\U{2001}\U{2002}\U{2003}\U{2004}\U{2005}\U{2006}\U{2007}\U{2008}\U{2009}\U{200A}"
    + "\U{2028}\U{2029}\U{202F}\U{205F}\U{3000}"

  /** Python's `string.punctuation`: the 32 ASCII punctuation characters. */
  const Punctuation: string := "!\"#$%&'()*+,-./:;<=>?@[\\]^_`{|}~"

  /** Whitespace test by code-point ranges; SpaceRanges shows it agrees with Whitespace. */
  predicate IsSpace(c: char) {
    '\t' <= c <= '\r' || '\U{1C}' <= c <= ' ' || c == '\U{85}' || c == '\U{A0}' || c == '\U{1680}'
    || '\U{2000}' <= c <= '\U{200A}' || c == '\U{2028}' || c == '\U{2029}' || c == '\U{202F}'
    || c == '\U{205F}' || c == '\U{3000}'
  }

  /** Punctuation test by code-point ranges; PunctuationRanges shows it agrees with Punctuation. */
  predicate IsPunctuation(c: char) {
    '!' <= c <= '/' || ':' <= c <= '@' || '[' <= c <= '`' || '{' <= c <= '~'
  }

  lemma SpaceRanges()
    ensures forall c :: IsSpace(c) <==> c in Whitespace
  {
  }

  lemma PunctuationRanges()
    ensures |Punctuation| == 32
    ensures forall c :: IsPunctuation(c) <==> c in Punctuation
  {
  }

  /** A token as `str.split()` yields it: non-empty, without whitespace. */
  predicate IsToken(t: string) {
    |t| > 0 && forall k :: 0 <= k < |t| ==> !IsSpace(t[k])
  }

  /** r keeps some elements of s, in their original relative order. */
  ghost predicate SubsequenceOf<T>(r: seq<T>, s: seq<T>)
    decreases |s|
  {
    r == [] || (s != [] && ((r[0] == s[0] && SubsequenceOf(r[1..], s[1..])) || SubsequenceOf(r, s[1..])))
  }

  /** The end of the token that starts at i: the first whitespace position at or after i. */
  function TokenEnd(s: string, i: nat): (j: nat)
    requires i <= |s|
    ensures i <= j <= |s|
    ensures forall k :: i <= k < j ==> !IsSpace(s[k])
    ensures j < |s| ==> IsSpace(s[j])
    decreases |s| - i
  {
    if i == |s| || IsSpace(s[i]) then i else TokenEnd(s, i + 1)
  }

  /** `s.split()`: the maximal runs of non-whitespace characters, left to right. */
  function Split(s: string): (toks: seq<string>)
    ensures forall t :: t in toks ==> IsToken(t)
    decreases |s|
  {
    if s == [] then []
    else if IsSpace(s[0]) then Split(s[1..])
    else
      var j := TokenEnd(s, 0);
      [s[..j]] + Split(s[j..])
  }

  /** `sep.join(toks)`: the tokens in order with one separator between neighbours. */
  function Join(sep: string, toks: seq<string>): (r: string)
    ensures toks == [] ==> r == ""
    ensures toks != [] ==> |r| == TotalLength(toks) + |sep| * (|toks| - 1)
    ensures toks != [] ==> r[..|toks[0]|] == toks[0]
    decreases |toks|
  {
    if toks == [] then ""
    else if |toks| == 1 then toks[0]
    else toks[0] + (sep + Join(sep, toks[1..]))
  }

  /** The number of characters in all tokens together. */
  function TotalLength(toks: seq<string>): nat
    decreases |toks|
  {
    if toks == [] then 0 else |toks[0]| + TotalLength(toks[1..])
  }

  /** `[i for i in toks if i not in stop]`: the stopword step of `clean`. */
  function RemoveStopwords(toks: seq<string>, stop: set<string>): (kept: seq<string>)
    ensures forall t :: t in kept <==> t in toks && t !in stop
    ensures SubsequenceOf(kept, toks)
    ensures kept == [] <==> forall t :: t in toks ==> t in stop
    ensures forall t :: multiset(kept)[t] == if t in stop then 0 else multiset(toks)[t]
    decreases |toks|
  {
    if toks == [] then []
    else
      assert toks == [toks[0]] + toks[1..];
      if toks[0] in stop then RemoveStopwords(toks[1..], stop)
      else [toks[0]] + RemoveStopwords(toks[1..], stop)
  }

  /** `''.join(ch for ch in s if ch not in exclude)`: the punctuation step of `clean`. */
  function StripPunctuation(s: string): (r: string)
    ensures |r| <= |s|
    ensures forall k :: 0 <= k < |r| ==> !IsPunctuation(r[k])
    decreases |s|
  {
    if s == [] then ""
    else if IsPunctuation(s[0]) then StripPunctuation(s[1..])
    else [s[0]] + StripPunctuation(s[1..])
  }

  /** `lemma.lemmatize(word) for word in toks`: one lemmatiser call per token. */
  function LemmatizeAll(toks: seq<string>, lemmatize: string -> string): (lemmas: seq<string>)
    ensures |lemmas| == |toks|
    ensures forall i :: 0 <= i < |toks| ==> lemmas[i] == lemmatize(toks[i])
  {
    seq(|toks|, i requires 0 <= i < |toks| => lemmatize(toks[i]))
  }

  /** The text that `clean` hands to the lemmatiser: stopword-free, then punctuation-free. */
  function PunctuationFree(doc: string, stop: set<string>): (r: string)
    ensures forall k :: 0 <= k < |r| ==> !IsPunctuation(r[k])
    ensures (forall t :: t in Split(doc) ==> t in stop) ==> r == ""
  {
    StripPunctuation(Join(" ", RemoveStopwords(Split(doc), stop)))
  }

  /** `clean(doc)`. */
  function Clean(doc: string, stop: set<string>, lemmatize: string -> string): (r: string)
    ensures Split(PunctuationFree(doc, stop)) == [] ==> r == ""
  {
    Join(" ", LemmatizeAll(Split(PunctuationFree(doc, stop)), lemmatize))
  }

  // ---------------------------------------------------------------------
  // Splitting and joining

  /** The token starting a string is its longest whitespace-free prefix. */
  lemma TokenEndOfToken(t: string, rest: string)
    requires IsToken(t)
    requires rest == [] || IsSpace(rest[0])
    ensures TokenEnd(t + rest, 0) == |t|
  {
    var s := t + rest;
    assert forall k :: 0 <= k < |t| ==> s[k] == t[k];
    assert |s| > |t| ==> s[|t|] == rest[0];
  }

  /** Splitting the space-joined tokens gives the tokens back. */
  lemma {:induction false} SplitJoin(toks: seq<string>)
    requires forall t :: t in toks ==> IsToken(t)
    ensures Split(Join(" ", toks)) == toks
    decreases |toks|
  {
    if toks == [] {
    } else if |toks| == 1 {
      var t := toks[0];
      TokenEndOfToken(t, "");
      assert t + "" == t;
      assert t[..|t|] == t;
      assert t[|t|..] == "";
    } else {
      var t := toks[0];
      var tail := " " + Join(" ", toks[1..]);
      var s := t + tail;
      assert Join(" ", toks) == s;
      TokenEndOfToken(t, tail);
      assert s[..|t|] == t;
      assert s[|t|..] == tail;
      assert tail[1..] == Join(" ", toks[1..]);
      SplitJoin(toks[1..]);
      assert toks == [t] + toks[1..];
    }
  }

  /** Re-splitting rejoined tokens changes nothing: `" ".join(s.split()).split() == s.split()`. */
  lemma SplitJoinSplit(s: string)
    ensures Split(Join(" ", Split(s))) == Split(s)
  {
    SplitJoin(Split(s));
  }

  /** Joining a token in front of a list. */
  lemma JoinCons(sep: string, t: string, toks: seq<string>)
    ensures Join(sep, [t] + toks) == if toks == [] then t else t + (sep + Join(sep, toks))
  {
    assert ([t] + toks)[1..] == toks;
  }

  /** Where a left-to-right scan of a text stands: before the first token,
      inside a token, or in the whitespace after a token. */
  datatype Scan = Start | InToken | AfterToken

  /** The text with leading and trailing whitespace dropped and every inner
      run of whitespace replaced by one space, computed one character at a
      time: a space is written only when a non-whitespace character follows
      whitespace that follows a token. */
  function Collapse(s: string, at: Scan): string
    decreases |s|
  {
    if s == [] then ""
    else if IsSpace(s[0]) then Collapse(s[1..], if at == Start then Start else AfterToken)
    else (if at == AfterToken then " " else "") + ([s[0]] + Collapse(s[1..], InToken))
  }

  /** A token that starts with a non-whitespace character ends one
      position later than the token of the rest of the text. */
  lemma TokenEndTail(t: string)
    requires t != [] && !IsSpace(t[0])
    ensures TokenEnd(t, 0) == TokenEnd(t[1..], 0) + 1
  {
    var u := t[1..];
    var j := TokenEnd(u, 0);
    forall k | 0 <= k < j + 1
      ensures !IsSpace(t[k])
    {
      if k > 0 {
        assert t[k] == u[k - 1];
      }
    }
    assert j + 1 < |t| ==> t[j + 1] == u[j];
    TokenEndUnique(t, 0, j + 1);
  }

  /** TokenEnd is fixed by its contract: the first whitespace at or after i. */
  lemma TokenEndUnique(s: string, i: nat, j: nat)
    requires i <= j <= |s|
    requires forall k :: i <= k < j ==> !IsSpace(s[k])
    requires j < |s| ==> IsSpace(s[j])
    ensures TokenEnd(s, i) == j
  {
  }

  /** Inside a token, the scan copies the rest of the token and goes on after it. */
  lemma {:induction false} CollapseRun(t: string)
    ensures Collapse(t, InToken) == t[..TokenEnd(t, 0)] + Collapse(t[TokenEnd(t, 0)..], InToken)
    decreases |t|
  {
    if t == [] || IsSpace(t[0]) {
      assert t[..0] == "" && t[0..] == t;
    } else {
      var u := t[1..];
      var j' := TokenEnd(u, 0);
      TokenEndTail(t);
      calc {
        Collapse(t, InToken);
        [t[0]] + Collapse(u, InToken);
        { CollapseRun(u); }
        [t[0]] + (u[..j'] + Collapse(u[j'..], InToken));
        { AppendAssoc([t[0]], u[..j'], Collapse(u[j'..], InToken)); }
        ([t[0]] + u[..j']) + Collapse(u[j'..], InToken);
        { SliceAfterHead(t, j' + 1); }
        t[..j' + 1] + Collapse(t[j' + 1..], InToken);
      }
    }
  }

  /** At whitespace or at the end, being inside a token and after a token
      are the same state. */
  lemma CollapseGap(t: string)
    requires t == [] || IsSpace(t[0])
    ensures Collapse(t, InToken) == Collapse(t, AfterToken)
  {
  }

  /** A text that starts with a token splits into that token and the tokens after it. */
  lemma SplitHead(s: string)
    requires s != [] && !IsSpace(s[0])
    ensures Split(s) == [s[..TokenEnd(s, 0)]] + Split(s[TokenEnd(s, 0)..])
  {
  }

  lemma AppendAssoc(a: string, b: string, c: string)
    ensures a + (b + c) == (a + b) + c
  {
  }

  /** Cutting a text at j, seen from its tail after the first character. */
  lemma SliceAfterHead(s: string, j: nat)
    requires 1 <= j <= |s|
    ensures [s[0]] + s[1..][..j - 1] == s[..j]
    ensures s[1..][j - 1..] == s[j..]
  {
  }

  /** The scan over a text that starts with a token, in state Start or
      AfterToken: the token (after a space in state AfterToken), then the
      scan of the rest as after a token. */
  lemma CollapseToken(s: string, at: Scan)
    requires s != [] && !IsSpace(s[0]) && at != InToken
    ensures Collapse(s, at) == (if at == AfterToken then " " else "") + (s[..TokenEnd(s, 0)] + Collapse(s[TokenEnd(s, 0)..], AfterToken))
  {
    var u := s[1..];
    var pre := if at == AfterToken then " " else "";
    TokenEndTail(s);
    var j := TokenEnd(s, 0);
    calc {
      Collapse(s, at);
      pre + ([s[0]] + Collapse(u, InToken));
      { CollapseRun(u); }
      pre + ([s[0]] + (u[..j - 1] + Collapse(u[j - 1..], InToken)));
      { AppendAssoc([s[0]], u[..j - 1], Collapse(u[j - 1..], InToken)); }
      pre + (([s[0]] + u[..j - 1]) + Collapse(u[j - 1..], InToken));
      { SliceAfterHead(s, j); }
      pre + (s[..j] + Collapse(s[j..], InToken));
      { CollapseGap(s[j..]); }
      pre + (s[..j] + Collapse(s[j..], AfterToken));
    }
  }

  /** From the start, the scan yields the tokens of `split()` joined by
      single spaces; after a token, it yields them with one leading space. */
  lemma {:induction false} CollapseSplit(s: string)
    ensures Collapse(s, Start) == Join(" ", Split(s))
    ensures Collapse(s, AfterToken) == if Split(s) == [] then "" else " " + Join(" ", Split(s))
    decreases |s|
  {
    if s != [] && IsSpace(s[0]) {
      CollapseSplit(s[1..]);
    } else if s != [] {
      var j := TokenEnd(s, 0);
      var rest := s[j..];
      var toks := Split(rest);
      SplitHead(s);
      JoinCons(" ", s[..j], toks);
      CollapseToken(s, Start);
      CollapseToken(s, AfterToken);
      CollapseSplit(rest);
      if toks == [] {
        assert s[..j] + "" == s[..j];
      }
    }
  }

  /** `split()` returns the maximal runs of non-whitespace characters: its
      result is the one list of tokens that, joined by single spaces, gives
      the text with its whitespace runs collapsed and trimmed. */
  lemma SplitIsMaximalRuns(s: string, toks: seq<string>)
    requires forall t :: t in toks ==> IsToken(t)
    ensures Join(" ", Split(s)) == Collapse(s, Start)
    ensures toks == Split(s) <==> Join(" ", toks) == Collapse(s, Start)
  {
    CollapseSplit(s);
    SplitJoin(toks);
    SplitJoin(Split(s));
  }

  /** A string made only of whitespace has no tokens. */
  lemma {:induction false} SplitAllWhitespace(s: string)
    requires forall k :: 0 <= k < |s| ==> IsSpace(s[k])
    ensures Split(s) == []
    decreases |s|
  {
    if s != [] {
      SplitAllWhitespace(s[1..]);
    }
  }

  /** A single token splits to itself. */
  lemma SplitToken(t: string)
    requires IsToken(t)
    ensures Split(t) == [t]
  {
    TokenEndOfToken(t, "");
    assert t + "" == t;
    assert t[..|t|] == t;
  }

  // ---------------------------------------------------------------------
  // Deleting punctuation

  /** The punctuation step leaves no punctuation character, keeps every other
      character as often as it occurs, and keeps them in their original order:
      its result is the input with exactly the punctuation removed. */
  lemma {:induction false} StripPunctuationRemovesExactly(s: string)
    ensures forall k :: 0 <= k < |StripPunctuation(s)| ==> !IsPunctuation(StripPunctuation(s)[k])
    ensures forall c :: !IsPunctuation(c) ==> multiset(StripPunctuation(s))[c] == multiset(s)[c]
    ensures forall c :: IsPunctuation(c) ==> multiset(StripPunctuation(s))[c] == 0
    ensures SubsequenceOf(StripPunctuation(s), s)
    decreases |s|
  {
    if s != [] {
      StripPunctuationRemovesExactly(s[1..]);
      assert s == [s[0]] + s[1..];
      var rest := StripPunctuation(s[1..]);
      if !IsPunctuation(s[0]) {
        assert ([s[0]] + rest)[1..] == rest;
      }
    }
  }

  /** The punctuation step distributes over concatenation: it treats each
      character on its own and keeps the survivors in order. */
  lemma {:induction false} StripAppend(a: string, b: string)
    ensures StripPunctuation(a + b) == StripPunctuation(a) + StripPunctuation(b)
    decreases |a|
  {
    if a != [] {
      assert (a + b)[1..] == a[1..] + b;
      StripAppend(a[1..], b);
    } else {
      assert a + b == b;
    }
  }

  /** Text without punctuation passes the punctuation step unchanged. */
  lemma {:induction false} StripNoPunctuation(s: string)
    requires forall k :: 0 <= k < |s| ==> !IsPunctuation(s[k])
    ensures StripPunctuation(s) == s
    decreases |s|
  {
    if s != [] {
      StripNoPunctuation(s[1..]);
      assert s == [s[0]] + s[1..];
    }
  }

  // ---------------------------------------------------------------------
  // Properties of clean

  /** The result of `clean` splits into exactly the lemmatised tokens of the
      punctuation-free text, one lemmatiser call per token, in order,
      provided the lemmatiser maps each word to a word. */
  lemma CleanTokens(doc: string, stop: set<string>, lemmatize: string -> string)
    requires forall w :: IsToken(w) ==> IsToken(lemmatize(w))
    ensures var words := Split(PunctuationFree(doc, stop));
      && |Split(Clean(doc, stop, lemmatize))| == |words|
      && forall i :: 0 <= i < |words| ==> Split(Clean(doc, stop, lemmatize))[i] == lemmatize(words[i])
  {
    var words := LemmatizeAll(Split(PunctuationFree(doc, stop)), lemmatize);
    SplitJoin(words);
  }

  /** A document whose every token is a stopword, including an empty or
      all-whitespace document, cleans to the empty string. */
  lemma CleanAllStopwords(doc: string, stop: set<string>, lemmatize: string -> string)
    requires forall t :: t in Split(doc) ==> t in stop
    ensures Clean(doc, stop, lemmatize) == ""
  {
  }

  /** An empty or all-whitespace document cleans to the empty string. */
  lemma CleanBlank(doc: string, stop: set<string>, lemmatize: string -> string)
    requires forall k :: 0 <= k < |doc| ==> IsSpace(doc[k])
    ensures Clean(doc, stop, lemmatize) == ""
  {
    SplitAllWhitespace(doc);
    CleanAllStopwords(doc, stop, lemmatize);
  }

  /** A stopword followed by a period is not a stopword, so it survives the
      stopword step and then loses its period. */
  lemma PunctuationFreeStopwordDot(w: string, stop: set<string>)
    requires IsToken(w) && forall k :: 0 <= k < |w| ==> !IsPunctuation(w[k])
    requires w + "." !in stop
    ensures PunctuationFree(w + ".", stop) == w
  {
    var doc := w + ".";
    assert IsToken(doc) by {
      assert forall k :: 0 <= k < |w| ==> doc[k] == w[k];
      assert doc[|w|] == '.';
    }
    SplitToken(doc);
    assert RemoveStopwords([doc], stop) == [doc];
    assert Join(" ", [doc]) == doc;
    StripAppend(w, ".");
    StripNoPunctuation(w);
    assert StripPunctuation(".") == "" by { assert "."[1..] == ""; }
    assert w + "" == w;
  }

  /** When the punctuation-free text is a single word, `clean` is its lemma. */
  lemma CleanOneWord(doc: string, stop: set<string>, lemmatize: string -> string, w: string)
    requires PunctuationFree(doc, stop) == w && IsToken(w)
    ensures Clean(doc, stop, lemmatize) == lemmatize(w)
  {
    SplitToken(w);
    var lemmas := LemmatizeAll([w], lemmatize);
    assert lemmas == [lemmatize(w)];
  }

  /** `clean` is not idempotent: the stopword test sees a token before its
      punctuation is deleted, so a stopword w written "w." (say "it.") cleans
      to w, which cleans to the empty string. */
  lemma CleanNotIdempotent(w: string, stop: set<string>, lemmatize: string -> string)
    requires IsToken(w) && forall k :: 0 <= k < |w| ==> !IsPunctuation(w[k])
    requires w in stop && w + "." !in stop
    requires lemmatize(w) == w
    ensures Clean(w + ".", stop, lemmatize) == w
    ensures Clean(Clean(w + ".", stop, lemmatize), stop, lemmatize) == ""
  {
    PunctuationFreeStopwordDot(w, stop);
    CleanOneWord(w + ".", stop, lemmatize, w);
    SplitToken(w);
    CleanAllStopwords(w, stop, lemmatize);
  }
}
