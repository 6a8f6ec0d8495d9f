/** The message tokenizer of split_message.py: a left-to-right scan that finds
    `[...]` spans, `{...}` spans and space-free words (the regular expression
    `\[[^\]]*\]|\{[^\}]*\}|[^\[\]\{\} ]+` under `re.findall`), followed by a pass
    that joins neighbouring plain words with one space. */
module Tokenizer {
  import opened Basics

  /** One match of the scanning expression, tagged with the alternative that produced it. */
  datatype Lexeme = Bracketed(raw: string) | Braced(raw: string) | Word(raw: string)

  /** Characters no word may contain: brackets, braces and the space. */
  predicate IsSeparator(c: char) {
    c == '[' || c == ']' || c == '{' || c == '}' || c == ' '
  }

  /** Position of the first `c` in `s` at or after `from`. */
  function FindFrom(s: string, c: char, from: nat): (r: Option<nat>)
    ensures r.Some? ==> from <= r.value < |s| && s[r.value] == c
    ensures r.Some? ==> forall k :: from <= k < r.value ==> s[k] != c
    ensures r.None? ==> forall k :: from <= k < |s| ==> s[k] != c
    decreases |s| - from
  {
    if from >= |s| then None
    else if s[from] == c then Some(from)
    else FindFrom(s, c, from + 1)
  }

  /** Length of the longest prefix of `s` free of separators. */
  function WordLength(s: string): (k: nat)
    ensures k <= |s|
    ensures forall i :: 0 <= i < k ==> !IsSeparator(s[i])
    ensures k < |s| ==> IsSeparator(s[k])
  {
    if |s| == 0 || IsSeparator(s[0]) then 0 else 1 + WordLength(s[1..])
  }

  /** A well-formed match: a closed bracket span with no `]` inside, a closed
      brace span with no `}` inside, or a non-empty run of non-separators. */
  predicate WellFormed(l: Lexeme) {
    match l
    case Bracketed(s) =>
      |s| >= 2 && s[0] == '[' && s[|s| - 1] == ']' && forall i :: 0 < i < |s| - 1 ==> s[i] != ']'
    case Braced(s) =>
      |s| >= 2 && s[0] == '{' && s[|s| - 1] == '}' && forall i :: 0 < i < |s| - 1 ==> s[i] != '}'
    case Word(s) =>
      |s| > 0 && forall i :: 0 <= i < |s| ==> !IsSeparator(s[i])
  }

  /** `re.findall` with the scanning expression: at each position the bracket
      alternative is tried first, then the brace alternative, then the word
      alternative; where none matches, one character is skipped. */
  function Lex(text: string): (r: seq<Lexeme>)
    ensures forall i :: 0 <= i < |r| ==> WellFormed(r[i])
    ensures SingleLine(text) ==> forall i :: 0 <= i < |r| ==> SingleLine(r[i].raw)
    decreases |text|
  {
    if |text| == 0 then []
    else if text[0] == '[' && FindFrom(text, ']', 1).Some? then
      var j := FindFrom(text, ']', 1).value;
      [Bracketed(text[..j + 1])] + Lex(text[j + 1..])
    else if text[0] == '{' && FindFrom(text, '}', 1).Some? then
      var j := FindFrom(text, '}', 1).value;
      [Braced(text[..j + 1])] + Lex(text[j + 1..])
    else if IsSeparator(text[0]) then
      Lex(text[1..])
    else
      var k := WordLength(text);
      [Word(text[..k])] + Lex(text[k..])
  }

  function Raws(ls: seq<Lexeme>): (r: seq<string>)
    ensures |r| == |ls|
    ensures forall i :: 0 <= i < |ls| ==> r[i] == ls[i].raw
  {
    if |ls| == 0 then [] else [ls[0].raw] + Raws(ls[1..])
  }

  /** `re.match(r'(\[.*|\{.*)', t)`: the token opens a span. */
  predicate OpensSpan(t: string) {
    |t| > 0 && (t[0] == '[' || t[0] == '{')
  }

  /** A `closer` follows position 0 of `t` with no newline before it (Python's
      `.` does not match a newline). */
  predicate CloserOnFirstLine(t: string, closer: char) {
    exists j :: 1 <= j < |t| && t[j] == closer && forall k :: 1 <= k < j ==> t[k] != '\n'
  }

  /** `re.match(r'(\[.*\]|\{.*\})', t)`: the token is a complete span. */
  predicate ClosesSpan(t: string) {
    |t| > 0 &&
    ((t[0] == '[' && CloserOnFirstLine(t, ']')) || (t[0] == '{' && CloserOnFirstLine(t, '}')))
  }

  /** One iteration of the merge loop: a token that is not a complete span is
      glued onto the previous token with a space, unless that one opens a span. */
  function MergeStep(acc: seq<string>, t: string): seq<string> {
    if |acc| > 0 && !ClosesSpan(t) && !OpensSpan(acc[|acc| - 1]) then
      acc[..|acc| - 1] + [acc[|acc| - 1] + " " + t]
    else
      acc + [t]
  }

  /** The merge loop over the raw matches, in order. */
  function Merge(tokens: seq<string>): (r: seq<string>)
    ensures |r| <= |tokens|
    ensures |r| == 0 <==> |tokens| == 0
    decreases |tokens|
  {
    if |tokens| == 0 then [] else MergeStep(Merge(tokens[..|tokens| - 1]), tokens[|tokens| - 1])
  }

  /** `split_message`: scan, then merge. Every token is non-empty and no two
      plain-word tokens are neighbours. */
  function SplitMessage(text: string): (r: seq<string>)
    ensures forall i :: 0 <= i < |r| ==> |r[i]| > 0
    ensures forall i :: 0 <= i < |r| - 1 ==> OpensSpan(r[i]) || OpensSpan(r[i + 1])
  {
    var raws := Raws(Lex(text));
    RawsNonEmpty(Lex(text));
    MergeNonEmptyTokens(raws);
    MergeNoAdjacentPlain(raws);
    Merge(raws)
  }

  // ---------------------------------------------------------------------------
  // Properties of the tokenizer

  /** Python's `str.split(' ')`: the pieces between single spaces. */
  function SplitSpaces(s: string): (r: seq<string>)
    ensures |r| > 0
    decreases |s|
  {
    var k := FindFrom(s, ' ', 0);
    if k.None? then [s] else [s[..k.value]] + SplitSpaces(s[k.value + 1..])
  }

  predicate NoSpace(s: string) {
    forall i :: 0 <= i < |s| ==> s[i] != ' '
  }

  predicate NoBrackets(s: string) {
    forall i :: 0 <= i < |s| ==> s[i] != '[' && s[i] != ']' && s[i] != '{' && s[i] != '}'
  }

  /** Undo the merge pass: span tokens stay whole, merged word tokens are cut at spaces. */
  function Unmerge(tokens: seq<string>): seq<string>
    decreases |tokens|
  {
    if |tokens| == 0 then []
    else
      var t := tokens[|tokens| - 1];
      Unmerge(tokens[..|tokens| - 1]) + (if OpensSpan(t) then [t] else SplitSpaces(t))
  }

  /** `m` is a whole match of one alternative of the scanning expression at the
      start of `text`: a `[` span up to the first `]`, a `{` span up to the first
      `}`, or the longest run of characters that are not separators. */
  predicate MatchAt(m: string, text: string) {
    && |m| > 0
    && StartsWith(text, m)
    && (if m[0] == '[' then |m| >= 2 && m[|m| - 1] == ']' && forall i :: 0 < i < |m| - 1 ==> m[i] != ']'
        else if m[0] == '{' then |m| >= 2 && m[|m| - 1] == '}' && forall i :: 0 < i < |m| - 1 ==> m[i] != '}'
        else (forall i :: 0 <= i < |m| ==> !IsSeparator(m[i])) && (|m| == |text| || IsSeparator(text[|m|])))
  }

  /** No alternative matches at the start of `text`: it starts with a closer or a
      space, or with an opener whose closer never comes. */
  predicate NoMatchAt(text: string)
    requires |text| > 0
  {
    && IsSeparator(text[0])
    && (text[0] == '[' ==> forall i :: 1 <= i < |text| ==> text[i] != ']')
    && (text[0] == '{' ==> forall i :: 1 <= i < |text| ==> text[i] != '}')
  }

  /** `raws` is what `re.findall` returns on `text`: from the left, a match is
      taken wherever one starts, and a position where none starts is skipped. */
  predicate FindAll(raws: seq<string>, text: string)
    decreases |text|
  {
    if |text| == 0 then |raws| == 0
    else
      (|raws| > 0 && MatchAt(raws[0], text) && FindAll(raws[1..], text[|raws[0]|..]))
      || (NoMatchAt(text) && FindAll(raws, text[1..]))
  }

  /** The first space of `a + " " + w` is the first space of `a`, or the joining one. */
  lemma FirstSpaceOfJoin(a: string, w: string)
    ensures FindFrom(a + " " + w, ' ', 0) ==
      (if FindFrom(a, ' ', 0).Some? then FindFrom(a, ' ', 0) else Some(|a|))
  {
    var s := a + " " + w;
    var r := FindFrom(s, ' ', 0);
    var ra := FindFrom(a, ' ', 0);
    assert s[|a|] == ' ';
    assert forall k :: 0 <= k < |a| ==> s[k] == a[k];
    if ra.Some? {
      assert s[ra.value] == ' ';
    }
  }

  lemma {:induction false} SplitSpacesJoin(a: string, w: string)
    requires NoSpace(w)
    ensures SplitSpaces(a + " " + w) == SplitSpaces(a) + [w]
    decreases |a|
  {
    var s := a + " " + w;
    var ka := FindFrom(a, ' ', 0);
    FirstSpaceOfJoin(a, w);
    if ka.None? {
      assert s[..|a|] == a;
      assert s[|a| + 1..] == w;
      assert FindFrom(w, ' ', 0).None?;
    } else {
      var k := ka.value;
      assert s[..k] == a[..k];
      assert s[k + 1..] == a[k + 1..] + " " + w;
      SplitSpacesJoin(a[k + 1..], w);
    }
  }

  /** Matches are never empty. */
  lemma RawsNonEmpty(ls: seq<Lexeme>)
    requires forall i :: 0 <= i < |ls| ==> WellFormed(ls[i])
    ensures forall i :: 0 <= i < |Raws(ls)| ==> |Raws(ls)[i]| > 0
  {
    forall i | 0 <= i < |ls| ensures |Raws(ls)[i]| > 0 {
      assert WellFormed(ls[i]);
    }
  }

  /** Merging never produces an empty token from non-empty ones. */
  lemma {:induction false} MergeNonEmptyTokens(tokens: seq<string>)
    requires forall i :: 0 <= i < |tokens| ==> |tokens[i]| > 0
    ensures forall i :: 0 <= i < |Merge(tokens)| ==> |Merge(tokens)[i]| > 0
    decreases |tokens|
  {
    if |tokens| > 0 {
      MergeNonEmptyTokens(tokens[..|tokens| - 1]);
    }
  }

  /** Of two neighbouring merged tokens at least one opens a span: two plain
      word tokens never stand next to each other. */
  lemma {:induction false} MergeNoAdjacentPlain(tokens: seq<string>)
    ensures forall i :: 0 <= i < |Merge(tokens)| - 1 ==>
      OpensSpan(Merge(tokens)[i]) || OpensSpan(Merge(tokens)[i + 1])
    decreases |tokens|
  {
    if |tokens| > 0 {
      MergeNoAdjacentPlain(tokens[..|tokens| - 1]);
      MergeStepNoAdjacentPlain(Merge(tokens[..|tokens| - 1]), tokens[|tokens| - 1]);
    }
  }

  /** One merge step keeps every pair of neighbours holding a span opener. */
  lemma MergeStepNoAdjacentPlain(acc: seq<string>, t: string)
    requires forall i :: 0 <= i < |acc| - 1 ==> OpensSpan(acc[i]) || OpensSpan(acc[i + 1])
    ensures var r := MergeStep(acc, t);
      forall i :: 0 <= i < |r| - 1 ==> OpensSpan(r[i]) || OpensSpan(r[i + 1])
  {
    if |acc| > 0 && !ClosesSpan(t) && !OpensSpan(acc[|acc| - 1]) {
      var last := acc[|acc| - 1];
      var glued := last + " " + t;
      assert OpensSpan(glued) == OpensSpan(last) by {
        if |last| > 0 { assert glued[0] == last[0]; }
      }
      GlueLastNeighbours(acc, glued);
    } else {
      assert |acc| > 0 ==> ClosesSpan(t) || OpensSpan(acc[|acc| - 1]);
      AppendNeighbours(acc, t);
    }
  }

  /** Replacing the last token by one that opens a span exactly when it did
      keeps every pair of neighbours holding a span opener. */
  lemma GlueLastNeighbours(acc: seq<string>, glued: string)
    requires |acc| > 0 && OpensSpan(glued) == OpensSpan(acc[|acc| - 1])
    requires forall i :: 0 <= i < |acc| - 1 ==> OpensSpan(acc[i]) || OpensSpan(acc[i + 1])
    ensures var r := acc[..|acc| - 1] + [glued];
      forall i :: 0 <= i < |r| - 1 ==> OpensSpan(r[i]) || OpensSpan(r[i + 1])
  {
    var r := acc[..|acc| - 1] + [glued];
    forall i | 0 <= i < |r| - 1
      ensures OpensSpan(r[i]) || OpensSpan(r[i + 1])
    {
      assert r[i] == acc[i];
      assert OpensSpan(r[i + 1]) == OpensSpan(acc[i + 1]);
    }
  }

  /** Appending a token keeps every pair of neighbours holding a span opener
      when the new pair holds one. */
  lemma AppendNeighbours(acc: seq<string>, t: string)
    requires |acc| > 0 ==> ClosesSpan(t) || OpensSpan(acc[|acc| - 1])
    requires forall i :: 0 <= i < |acc| - 1 ==> OpensSpan(acc[i]) || OpensSpan(acc[i + 1])
    ensures var r := acc + [t];
      forall i :: 0 <= i < |r| - 1 ==> OpensSpan(r[i]) || OpensSpan(r[i + 1])
  {
    var r := acc + [t];
    forall i | 0 <= i < |r| - 1
      ensures OpensSpan(r[i]) || OpensSpan(r[i + 1])
    {
      assert r[i] == acc[i];
      if i + 1 == |acc| {
        assert r[i + 1] == t;
        assert ClosesSpan(t) ==> OpensSpan(t);
      } else {
        assert r[i + 1] == acc[i + 1];
      }
    }
  }

  /** A merged token that opens a span is one of the raw tokens, untouched. */
  lemma {:induction false} MergeKeepsSpans(tokens: seq<string>)
    ensures forall i :: 0 <= i < |Merge(tokens)| && OpensSpan(Merge(tokens)[i]) ==>
      Merge(tokens)[i] in tokens
    decreases |tokens|
  {
    if |tokens| > 0 {
      var init := tokens[..|tokens| - 1];
      var acc := Merge(init);
      var t := tokens[|tokens| - 1];
      MergeKeepsSpans(init);
      assert forall x :: x in init ==> x in tokens;
      if |acc| > 0 && !ClosesSpan(t) && !OpensSpan(acc[|acc| - 1]) {
        var last := acc[|acc| - 1];
        assert !OpensSpan(last + " " + t) by {
          if |last| > 0 { assert (last + " " + t)[0] == last[0]; }
        }
      }
    }
  }

  /** Unmerging a glued token gives back the word that was glued on. */
  lemma UnmergeGlued(pre: seq<string>, last: string, t: string)
    requires !OpensSpan(last) && NoSpace(t)
    ensures Unmerge(pre + [last + " " + t]) == Unmerge(pre + [last]) + [t]
  {
    assert !OpensSpan(last + " " + t) by {
      if |last| > 0 { assert (last + " " + t)[0] == last[0]; }
    }
    assert (pre + [last + " " + t])[..|pre|] == pre;
    assert (pre + [last])[..|pre|] == pre;
    SplitSpacesJoin(last, t);
  }

  /** Unmerging an appended span or word gives it back unchanged. */
  lemma UnmergeAppended(acc: seq<string>, t: string)
    requires OpensSpan(t) || NoSpace(t)
    ensures Unmerge(acc + [t]) == Unmerge(acc) + [t]
  {
    assert (acc + [t])[..|acc|] == acc;
    if !OpensSpan(t) {
      assert FindFrom(t, ' ', 0).None?;
    }
  }

  /** Cutting every merged word token at its spaces gives back the raw tokens,
      in order, provided every raw token is a complete span or a space-free word. */
  lemma {:induction false} MergeRoundTrip(tokens: seq<string>)
    requires forall i :: 0 <= i < |tokens| ==>
      (OpensSpan(tokens[i]) && ClosesSpan(tokens[i])) || (!OpensSpan(tokens[i]) && NoSpace(tokens[i]))
    ensures Unmerge(Merge(tokens)) == tokens
    decreases |tokens|
  {
    if |tokens| > 0 {
      var init := tokens[..|tokens| - 1];
      var acc := Merge(init);
      var t := tokens[|tokens| - 1];
      assert Unmerge(acc) == init by {
        MergeRoundTrip(init);
      }
      assert tokens == init + [t];
      if |acc| > 0 && !ClosesSpan(t) && !OpensSpan(acc[|acc| - 1]) {
        var pre := acc[..|acc| - 1];
        var last := acc[|acc| - 1];
        assert acc == pre + [last];
        UnmergeGlued(pre, last, t);
      } else {
        UnmergeAppended(acc, t);
      }
    }
  }

  /** The raw matches of a single-line text satisfy the round-trip premise. */
  lemma LexShapes(text: string)
    requires SingleLine(text)
    ensures forall i :: 0 <= i < |Raws(Lex(text))| ==>
      var t := Raws(Lex(text))[i];
      (OpensSpan(t) && ClosesSpan(t)) || (!OpensSpan(t) && NoSpace(t) && NoBrackets(t))
  {
    var ls := Lex(text);
    forall i | 0 <= i < |ls|
      ensures (OpensSpan(ls[i].raw) && ClosesSpan(ls[i].raw))
           || (!OpensSpan(ls[i].raw) && NoSpace(ls[i].raw) && NoBrackets(ls[i].raw))
    {
      var s := ls[i].raw;
      assert WellFormed(ls[i]) && SingleLine(s);
      if ls[i].Bracketed? {
        assert CloserOnFirstLine(s, ']') by { assert s[|s| - 1] == ']'; }
      } else if ls[i].Braced? {
        assert CloserOnFirstLine(s, '}') by { assert s[|s| - 1] == '}'; }
      } else {
        assert !IsSeparator(s[0]);
      }
    }
  }

  /** Round trip of `split_message` on single-line text: splitting each merged
      word token on its spaces and flattening gives the raw matches in order. */
  lemma SplitMessageRoundTrip(text: string)
    requires SingleLine(text)
    ensures Unmerge(SplitMessage(text)) == Raws(Lex(text))
  {
    LexShapes(text);
    MergeRoundTrip(Raws(Lex(text)));
  }

  /** Shape of every token of a single-line message: either a complete span,
      exactly as scanned, or a run of words with no bracket or brace at all. */
  lemma {:induction false} MergeWordsHaveNoBrackets(tokens: seq<string>)
    requires forall i :: 0 <= i < |tokens| ==>
      (OpensSpan(tokens[i]) && ClosesSpan(tokens[i])) || (!OpensSpan(tokens[i]) && NoBrackets(tokens[i]))
    ensures forall i :: 0 <= i < |Merge(tokens)| && !OpensSpan(Merge(tokens)[i]) ==>
      NoBrackets(Merge(tokens)[i])
    decreases |tokens|
  {
    if |tokens| > 0 {
      var init := tokens[..|tokens| - 1];
      var acc := Merge(init);
      var t := tokens[|tokens| - 1];
      MergeWordsHaveNoBrackets(init);
      if |acc| > 0 && !ClosesSpan(t) && !OpensSpan(acc[|acc| - 1]) {
        var last := acc[|acc| - 1];
        assert NoBrackets(last + " " + t);
      }
    }
  }

  lemma SplitMessageTokenShapes(text: string)
    requires SingleLine(text)
    ensures forall i :: 0 <= i < |SplitMessage(text)| ==>
      var t := SplitMessage(text)[i];
      |t| > 0 &&
      ((OpensSpan(t) && (Bracketed(t) in Lex(text) || Braced(t) in Lex(text))) ||
       (!OpensSpan(t) && NoBrackets(t)))
  {
    var ls := Lex(text);
    var raws := Raws(ls);
    LexShapes(text);
    MergeWordsHaveNoBrackets(raws);
    MergeKeepsSpans(raws);
    MergeNonEmptyTokens(raws);
    var r := SplitMessage(text);
    forall i | 0 <= i < |r| && OpensSpan(r[i])
      ensures Bracketed(r[i]) in ls || Braced(r[i]) in ls
    {
      var k :| 0 <= k < |raws| && raws[k] == r[i];
      assert WellFormed(ls[k]);
      assert ls[k].raw == r[i];
    }
  }

  /** A text made only of spaces and closing brackets yields no tokens; a text
      with any character that is not a separator yields at least one. */
  lemma {:induction false} LexBlank(text: string)
    ensures (forall i :: 0 <= i < |text| ==> text[i] == ' ' || text[i] == ']' || text[i] == '}')
            ==> Lex(text) == []
    ensures (exists i :: 0 <= i < |text| && !IsSeparator(text[i])) ==> |Lex(text)| > 0
    decreases |text|
  {
    if |text| > 0 {
      if text[0] == '[' && FindFrom(text, ']', 1).Some? {
      } else if text[0] == '{' && FindFrom(text, '}', 1).Some? {
      } else if IsSeparator(text[0]) {
        LexBlank(text[1..]);
        if exists i :: 0 <= i < |text| && !IsSeparator(text[i]) {
          var i :| 0 <= i < |text| && !IsSeparator(text[i]);
          assert text[1..][i - 1] == text[i];
        }
      }
    }
  }

  lemma SplitMessageBlank(text: string)
    ensures (forall i :: 0 <= i < |text| ==> text[i] == ' ' || text[i] == ']' || text[i] == '}')
            ==> SplitMessage(text) == []
    ensures (exists i :: 0 <= i < |text| && !IsSeparator(text[i])) ==> |SplitMessage(text)| > 0
  {
    LexBlank(text);
  }

  /** A match at the start of `text` has the length the scanner computes for it. */
  lemma MatchAtLength(m: string, text: string)
    requires MatchAt(m, text)
    ensures text[0] == '[' ==> FindFrom(text, ']', 1) == Some(|m| - 1)
    ensures text[0] == '{' ==> FindFrom(text, '}', 1) == Some(|m| - 1)
    ensures !IsSeparator(text[0]) ==> WordLength(text) == |m|
  {
    assert forall i :: 0 <= i < |m| ==> text[i] == m[i] by {
      assert text[..|m|] == m;
    }
    if text[0] == '[' {
      assert text[|m| - 1] == ']';
      assert forall i :: 1 <= i < |m| - 1 ==> text[i] != ']';
    } else if text[0] == '{' {
      assert text[|m| - 1] == '}';
      assert forall i :: 1 <= i < |m| - 1 ==> text[i] != '}';
    } else if !IsSeparator(text[0]) {
      assert forall i :: 0 <= i < |m| ==> !IsSeparator(text[i]);
    }
  }

  /** At most one match starts at a position. */
  lemma MatchAtUnique(m1: string, m2: string, text: string)
    requires MatchAt(m1, text) && MatchAt(m2, text)
    ensures m1 == m2
  {
    MatchAtLength(m1, text);
    MatchAtLength(m2, text);
    assert m1[0] == text[0] && m2[0] == text[0] by {
      assert text[..|m1|] == m1 && text[..|m2|] == m2;
    }
    assert |m1| == |m2|;
    assert m1 == text[..|m1|] && m2 == text[..|m2|];
  }

  /** Where a match starts, the position is not skipped. */
  lemma MatchExcludesSkip(text: string)
    requires |text| > 0
    ensures NoMatchAt(text) ==> forall m :: !MatchAt(m, text)
  {
    forall m | MatchAt(m, text)
      ensures !NoMatchAt(text)
    {
      assert text[..|m|] == m;
      assert text[0] == m[0];
      if m[0] == '[' || m[0] == '{' {
        assert text[|m| - 1] == m[|m| - 1];
      }
    }
  }

  /** The `re.findall` result is unique: the predicate pins the match list down. */
  lemma {:induction false} FindAllUnique(a: seq<string>, b: seq<string>, text: string)
    requires FindAll(a, text) && FindAll(b, text)
    ensures a == b
    decreases |text|
  {
    if |text| > 0 {
      MatchExcludesSkip(text);
      if |a| > 0 && MatchAt(a[0], text) && FindAll(a[1..], text[|a[0]|..]) {
        assert |b| > 0 && MatchAt(b[0], text) && FindAll(b[1..], text[|b[0]|..]);
        MatchAtUnique(a[0], b[0], text);
        FindAllUnique(a[1..], b[1..], text[|a[0]|..]);
        assert a == [a[0]] + a[1..] && b == [b[0]] + b[1..];
      } else {
        assert FindAll(a, text[1..]) && FindAll(b, text[1..]);
        FindAllUnique(a, b, text[1..]);
      }
    }
  }

  /** The scanner computes `re.findall` of the scanning expression. */
  lemma {:induction false} LexFindAll(text: string)
    ensures FindAll(Raws(Lex(text)), text)
    decreases |text|
  {
    if |text| > 0 {
      var r := Lex(text);
      if text[0] == '[' && FindFrom(text, ']', 1).Some? {
        var j := FindFrom(text, ']', 1).value;
        LexFindAll(text[j + 1..]);
        assert Raws(r)[1..] == Raws(Lex(text[j + 1..]));
        assert Raws(r)[0] == text[..j + 1];
        assert MatchAt(text[..j + 1], text);
      } else if text[0] == '{' && FindFrom(text, '}', 1).Some? {
        var j := FindFrom(text, '}', 1).value;
        LexFindAll(text[j + 1..]);
        assert Raws(r)[1..] == Raws(Lex(text[j + 1..]));
        assert Raws(r)[0] == text[..j + 1];
        assert MatchAt(text[..j + 1], text);
      } else if IsSeparator(text[0]) {
        LexFindAll(text[1..]);
        assert NoMatchAt(text);
      } else {
        var k := WordLength(text);
        LexFindAll(text[k..]);
        assert Raws(r)[1..] == Raws(Lex(text[k..]));
        assert Raws(r)[0] == text[..k];
        assert MatchAt(text[..k], text);
      }
    }
  }

  /** `split_message` is the merge of the `re.findall` result, whatever way that
      result is obtained. */
  lemma SplitMessageOfMatches(text: string, raws: seq<string>)
    requires FindAll(raws, text)
    ensures SplitMessage(text) == Merge(raws)
  {
    LexFindAll(text);
    FindAllUnique(raws, Raws(Lex(text)), text);
  }
}
