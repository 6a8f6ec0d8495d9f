/** The segmentation loop of `sound_play` (sound_play.py): the token list is
    cut into segments at `{n}` and `{.}` markers. Each `{n}` adds effect `n` to
    the pending effect ids, `{.}` empties them, and a segment carries the ids
    pending when it is closed. */
module Segmenter {
  import opened Basics

  predicate IsDigit(c: char) {
    '0' <= c <= '9'
  }

  predicate AllDigits(s: string)
    decreases |s|
  {
    |s| == 0 || (IsDigit(s[0]) && AllDigits(s[1..]))
  }

  /** A string is all digits exactly when each of its characters is one. */
  lemma {:induction false} AllDigitsChars(s: string)
    ensures AllDigits(s) <==> forall i :: 0 <= i < |s| ==> IsDigit(s[i])
    decreases |s|
  {
    if |s| > 0 {
      AllDigitsChars(s[1..]);
      assert forall i :: 1 <= i < |s| ==> s[1..][i - 1] == s[i];
    }
  }

  /** `int(s)` for a string of decimal digits (leading zeros allowed). */
  function DecimalValue(s: string): (v: int)
    ensures (forall i :: 0 <= i < |s| ==> IsDigit(s[i])) ==> v >= 0
    decreases |s|
  {
    if |s| == 0 then 0
    else 10 * DecimalValue(s[..|s| - 1]) + (s[|s| - 1] as int - '0' as int)
  }

  /** From position `i` on, `t` holds digits up to a closing brace. */
  predicate DigitsThenBrace(t: string, i: nat)
    decreases |t| - i
  {
    i < |t| && (t[i] == '}' || (IsDigit(t[i]) && DigitsThenBrace(t, i + 1)))
  }

  /** `re.match(r'\{\d+\}', t)`: the token STARTS with a brace, one or more
      digits and a closing brace (the match is anchored only at the start). */
  predicate MatchesEffectMarker(t: string) {
    |t| >= 3 && t[0] == '{' && IsDigit(t[1]) && DigitsThenBrace(t, 2)
  }

  /** How the loop treats one token. `Malformed` is a token the marker test
      accepts but whose inner text `int(token[1:-1])` rejects with `ValueError`. */
  datatype Kind = Effect(id: int) | Reset | Text | Malformed

  /** The kind of a token: the marker test decides between an effect and a
      failing `int()`, and only the exact token `{.}` resets. A marker is
      malformed exactly when its text between the first and the last
      character is not all digits, which is where `int()` raises; otherwise
      the effect id is the decimal value of that text. */
  function KindOf(t: string): (k: Kind)
    ensures k.Effect? || k.Malformed? <==> MatchesEffectMarker(t)
    ensures k.Malformed? <==> MatchesEffectMarker(t) && !AllDigits(t[1..|t| - 1])
    ensures k.Effect? ==> k.id >= 0 && AllDigits(t[1..|t| - 1])
    ensures k.Effect? ==> k.id == DecimalValue(t[1..|t| - 1])
    ensures k == Reset <==> t == "{.}"
  {
    if MatchesEffectMarker(t) then
      if AllDigits(t[1..|t| - 1]) then
        AllDigitsChars(t[1..|t| - 1]);
        Effect(DecimalValue(t[1..|t| - 1]))
      else Malformed
    else if t == "{.}" then Reset
    else Text
  }

  /** A segment: its tokens in order and the effect ids attached to it. */
  datatype Segment = Segment(tokens: seq<string>, effects: seq<int>)

  /** The loop state: segments already closed, the open segment, pending effect ids. */
  datatype Cutter = Cutter(closed: seq<Segment>, open: seq<string>, pending: seq<int>)

  /** Close the open segment, if it has tokens, with the pending effect ids. */
  function Close(c: Cutter): seq<Segment> {
    if |c.open| > 0 then c.closed + [Segment(c.open, c.pending)] else c.closed
  }

  /** One iteration of the loop; `Err` carries the token whose `int` conversion raised. */
  function Step(c: Cutter, t: string): Result<Cutter, string> {
    match KindOf(t)
    case Effect(n) => Ok(Cutter(Close(c), [], c.pending + [n]))
    case Reset => Ok(Cutter(Close(c), [], []))
    case Text => Ok(Cutter(c.closed, c.open + [t], c.pending))
    case Malformed => Err(t)
  }

  /** The loop over all tokens, in order. */
  function Scan(tokens: seq<string>): Result<Cutter, string>
    decreases |tokens|
  {
    if |tokens| == 0 then Ok(Cutter([], [], []))
    else
      var before := Scan(tokens[..|tokens| - 1]);
      if before.Err? then before else Step(before.value, tokens[|tokens| - 1])
  }

  /** The loop, then the closing of the last open segment. The segments are
      exactly the maximal runs of text tokens, in order: every `{n}` and `{.}`
      closes the open segment. Segments are never empty; together they hold
      exactly the text tokens, in order; and each text token carries the
      effect ids pending at its own position (every `{n}` since the last
      `{.}`). */
  function Segments(tokens: seq<string>): (r: Result<seq<Segment>, string>)
    ensures r.Ok? ==> TokensOf(r.value) == Runs(tokens)
    ensures r.Ok? ==> forall i :: 0 <= i < |r.value| ==> |r.value[i].tokens| > 0
    ensures r.Ok? ==> Concat(TokensOf(r.value)) == TextTokens(tokens)
    ensures r.Ok? ==> Annotate(r.value) == Tagged(tokens)
    ensures r.Ok? ==> |r.value| == RunCount(tokens)
  {
    var s := Scan(tokens);
    ScanConsistent(tokens);
    if s.Err? then Err(s.error)
    else
      CloseFacts(s.value);
      Ok(Close(s.value))
  }

  // ---------------------------------------------------------------------------
  // Reference notions, defined on the token list itself

  /** The tokens after the last `{.}` (all of them when there is none). */
  function SinceLastReset(p: seq<string>): seq<string>
    decreases |p|
  {
    if |p| == 0 then []
    else if KindOf(p[|p| - 1]) == Reset then []
    else SinceLastReset(p[..|p| - 1]) + [p[|p| - 1]]
  }

  /** The ids of the `{n}` markers among the tokens, in order. */
  function EffectIds(p: seq<string>): seq<int>
    decreases |p|
  {
    if |p| == 0 then []
    else
      var k := KindOf(p[|p| - 1]);
      EffectIds(p[..|p| - 1]) + (if k.Effect? then [k.id] else [])
  }

  /** The effect ids that apply at the end of `p`: all `{n}` seen since the last `{.}`. */
  function Pending(p: seq<string>): seq<int> {
    EffectIds(SinceLastReset(p))
  }

  /** Every text token of `p`, in order, paired with the effect ids pending at its position. */
  function Tagged(p: seq<string>): seq<(string, seq<int>)>
    decreases |p|
  {
    if |p| == 0 then []
    else
      var t := p[|p| - 1];
      Tagged(p[..|p| - 1]) + (if KindOf(t) == Text then [(t, Pending(p[..|p| - 1]))] else [])
  }

  /** The text tokens of `p`, in order. */
  function TextTokens(p: seq<string>): seq<string>
    decreases |p|
  {
    if |p| == 0 then []
    else TextTokens(p[..|p| - 1]) + (if KindOf(p[|p| - 1]) == Text then [p[|p| - 1]] else [])
  }

  /** The maximal runs of consecutive text tokens of `p`, in order: a text
      token right after another one extends the current run, any other text
      token starts a new run, and every other token ends the run. */
  function Runs(p: seq<string>): (r: seq<seq<string>>)
    ensures |p| > 0 && KindOf(p[|p| - 1]) == Text ==> |r| > 0
    ensures forall i :: 0 <= i < |r| ==> |r[i]| > 0
    decreases |p|
  {
    if |p| == 0 then []
    else
      var init := p[..|p| - 1];
      var t := p[|p| - 1];
      var r := Runs(init);
      if KindOf(t) != Text then r
      else if |init| > 0 && KindOf(init[|init| - 1]) == Text then r[..|r| - 1] + [r[|r| - 1] + [t]]
      else r + [[t]]
  }

  predicate IsRunStart(p: seq<string>, i: int)
    requires 0 <= i < |p|
  {
    KindOf(p[i]) == Text && (i == 0 || KindOf(p[i - 1]) != Text)
  }

  /** The number of maximal runs of consecutive text tokens in `p`. */
  function RunCount(p: seq<string>): nat
    decreases |p|
  {
    if |p| == 0 then 0
    else RunCount(p[..|p| - 1]) + (if IsRunStart(p, |p| - 1) then 1 else 0)
  }

  /** A segment's tokens, each paired with the segment's effect ids. */
  function Tag(s: Segment): seq<(string, seq<int>)> {
    seq(|s.tokens|, i requires 0 <= i < |s.tokens| => (s.tokens[i], s.effects))
  }

  function Annotate(segs: seq<Segment>): seq<(string, seq<int>)>
    decreases |segs|
  {
    if |segs| == 0 then [] else Annotate(segs[..|segs| - 1]) + Tag(segs[|segs| - 1])
  }

  function TokensOf(segs: seq<Segment>): (r: seq<seq<string>>)
    ensures |r| == |segs|
    ensures forall i :: 0 <= i < |segs| ==> r[i] == segs[i].tokens
  {
    if |segs| == 0 then [] else TokensOf(segs[..|segs| - 1]) + [segs[|segs| - 1].tokens]
  }

  // ---------------------------------------------------------------------------
  // What the loop computes

  /** The loop state after reading `p` agrees with the reference notions. */
  ghost predicate Consistent(p: seq<string>, c: Cutter) {
    && (forall i :: 0 <= i < |c.closed| ==> |c.closed[i].tokens| > 0)
    && c.pending == Pending(p)
    && Annotate(c.closed) + Tag(Segment(c.open, c.pending)) == Tagged(p)
    && Concat(TokensOf(c.closed)) + c.open == TextTokens(p)
    && |c.closed| + (if |c.open| > 0 then 1 else 0) == RunCount(p)
    && (|c.open| > 0 <==> (|p| > 0 && KindOf(p[|p| - 1]) == Text))
    && TokensOf(c.closed) + (if |c.open| > 0 then [c.open] else []) == Runs(p)
  }

  lemma CloseFacts(c: Cutter)
    ensures Annotate(Close(c)) == Annotate(c.closed) + Tag(Segment(c.open, c.pending))
    ensures Concat(TokensOf(Close(c))) == Concat(TokensOf(c.closed)) + c.open
    ensures |Close(c)| == |c.closed| + (if |c.open| > 0 then 1 else 0)
    ensures TokensOf(Close(c)) == TokensOf(c.closed) + (if |c.open| > 0 then [c.open] else [])
  {
    if |c.open| > 0 {
      var segs := Close(c);
      assert segs[..|segs| - 1] == c.closed;
      assert TokensOf(segs) == TokensOf(c.closed) + [c.open];
      ConcatAppend(TokensOf(c.closed), c.open);
    } else {
      assert Tag(Segment(c.open, c.pending)) == [];
      assert Annotate(c.closed) + [] == Annotate(c.closed);
      assert Concat(TokensOf(c.closed)) + c.open == Concat(TokensOf(c.closed));
    }
  }

  lemma StepPending(p: seq<string>, c: Cutter, t: string)
    requires c.pending == Pending(p) && Step(c, t).Ok?
    ensures Step(c, t).value.pending == Pending(p + [t])
  {
    var q := p + [t];
    DropLast(p, t);
    if KindOf(t) != Reset {
      assert SinceLastReset(q) == SinceLastReset(p) + [t];
      var r := SinceLastReset(q);
      assert r[..|r| - 1] == SinceLastReset(p);
    }
  }

  lemma TagAppend(toks: seq<string>, effects: seq<int>, t: string)
    ensures Tag(Segment(toks + [t], effects)) == Tag(Segment(toks, effects)) + [(t, effects)]
  {
  }

  lemma StepTagged(p: seq<string>, c: Cutter, t: string)
    requires c.pending == Pending(p) && Step(c, t).Ok?
    requires Annotate(c.closed) + Tag(Segment(c.open, c.pending)) == Tagged(p)
    ensures Annotate(Step(c, t).value.closed) + Tag(Segment(Step(c, t).value.open, Step(c, t).value.pending))
         == Tagged(p + [t])
  {
    var q := p + [t];
    DropLast(p, t);
    var c' := Step(c, t).value;
    if KindOf(t) == Text {
      assert c' == Cutter(c.closed, c.open + [t], c.pending);
      assert Tagged(q) == Tagged(p) + [(t, Pending(p))];
      TagAppend(c.open, c.pending, t);
    } else {
      assert c'.closed == Close(c) && c'.open == [];
      assert Tagged(q) == Tagged(p);
      CloseFacts(c);
      assert Tag(Segment(c'.open, c'.pending)) == [];
    }
  }

  lemma TextTokensStep(p: seq<string>, t: string)
    ensures TextTokens(p + [t]) == TextTokens(p) + (if KindOf(t) == Text then [t] else [])
  {
    DropLast(p, t);
  }

  lemma StepTexts(p: seq<string>, c: Cutter, t: string)
    requires Step(c, t).Ok?
    requires Concat(TokensOf(c.closed)) + c.open == TextTokens(p)
    ensures Concat(TokensOf(Step(c, t).value.closed)) + Step(c, t).value.open == TextTokens(p + [t])
  {
    TextTokensStep(p, t);
    if KindOf(t) == Text {
      AppendAssoc(Concat(TokensOf(c.closed)), c.open, [t]);
    } else {
      StepClosesTexts(p, c, t);
    }
  }

  /** A marker moves the open tokens into the closed segments. */
  lemma StepClosesTexts(p: seq<string>, c: Cutter, t: string)
    requires Step(c, t).Ok? && KindOf(t) != Text
    requires Concat(TokensOf(c.closed)) + c.open == TextTokens(p)
    ensures Concat(TokensOf(Step(c, t).value.closed)) + Step(c, t).value.open == TextTokens(p)
  {
    var c' := Step(c, t).value;
    assert c'.closed == Close(c) && c'.open == [];
    CloseFacts(c);
    AppendEmpty(Concat(TokensOf(c'.closed)));
  }

  lemma RunCountStep(p: seq<string>, t: string)
    ensures RunCount(p + [t]) ==
      RunCount(p) + (if KindOf(t) == Text && (|p| == 0 || KindOf(p[|p| - 1]) != Text) then 1 else 0)
  {
    var q := p + [t];
    DropLast(p, t);
    if |p| > 0 {
      assert q[|p| - 1] == p[|p| - 1];
    }
  }

  lemma StepCount(p: seq<string>, c: Cutter, t: string)
    requires Step(c, t).Ok?
    requires |c.closed| + (if |c.open| > 0 then 1 else 0) == RunCount(p)
    requires |c.open| > 0 <==> (|p| > 0 && KindOf(p[|p| - 1]) == Text)
    requires forall i :: 0 <= i < |c.closed| ==> |c.closed[i].tokens| > 0
    ensures var c' := Step(c, t).value;
      && |c'.closed| + (if |c'.open| > 0 then 1 else 0) == RunCount(p + [t])
      && (|c'.open| > 0 <==> KindOf(t) == Text)
      && (forall i :: 0 <= i < |c'.closed| ==> |c'.closed[i].tokens| > 0)
  {
    RunCountStep(p, t);
    if KindOf(t) != Text {
      CloseNonEmpty(c);
    }
  }

  /** Closing keeps every closed segment non-empty. */
  lemma CloseNonEmpty(c: Cutter)
    requires forall i :: 0 <= i < |c.closed| ==> |c.closed[i].tokens| > 0
    ensures forall i :: 0 <= i < |Close(c)| ==> |Close(c)[i].tokens| > 0
    ensures |Close(c)| == |c.closed| + (if |c.open| > 0 then 1 else 0)
  {
  }

  /** A text token extends the run in progress or starts one; any other token
      leaves the runs as they are. */
  lemma RunsStep(p: seq<string>, t: string)
    ensures KindOf(t) != Text ==> Runs(p + [t]) == Runs(p)
    ensures KindOf(t) == Text && |p| > 0 && KindOf(p[|p| - 1]) == Text ==>
      |Runs(p)| > 0 && Runs(p + [t]) == Runs(p)[..|Runs(p)| - 1] + [Runs(p)[|Runs(p)| - 1] + [t]]
    ensures KindOf(t) == Text && (|p| == 0 || KindOf(p[|p| - 1]) != Text) ==>
      Runs(p + [t]) == Runs(p) + [[t]]
  {
    DropLast(p, t);
  }

  /** The runs are maximal runs of text tokens: flattened they are the text
      tokens in order, and there is one per run start. */
  lemma {:induction false} RunsCoverTexts(p: seq<string>)
    ensures Concat(Runs(p)) == TextTokens(p)
    ensures |Runs(p)| == RunCount(p)
    decreases |p|
  {
    if |p| > 0 {
      var init := p[..|p| - 1];
      var t := p[|p| - 1];
      RunsCoverTexts(init);
      SplitLast(p);
      RunsStep(init, t);
      TextTokensStep(init, t);
      RunCountStep(init, t);
      var r := Runs(init);
      if KindOf(t) == Text {
        if |init| > 0 && KindOf(init[|init| - 1]) == Text {
          var a := r[..|r| - 1];
          var x := r[|r| - 1];
          SplitLast(r);
          ConcatAppend(a, x);
          ConcatAppend(a, x + [t]);
          AppendAssoc(Concat(a), x, [t]);
        } else {
          ConcatAppend(r, [t]);
        }
      }
    }
  }

  lemma StepRuns(p: seq<string>, c: Cutter, t: string)
    requires Step(c, t).Ok?
    requires |c.open| > 0 <==> (|p| > 0 && KindOf(p[|p| - 1]) == Text)
    requires TokensOf(c.closed) + (if |c.open| > 0 then [c.open] else []) == Runs(p)
    ensures var c' := Step(c, t).value;
      TokensOf(c'.closed) + (if |c'.open| > 0 then [c'.open] else []) == Runs(p + [t])
  {
    RunsStep(p, t);
    if KindOf(t) != Text {
      StepClosesRuns(p, c, t);
    } else if |c.open| > 0 {
      DropLast(TokensOf(c.closed), c.open);
    } else {
      AppendEmpty(TokensOf(c.closed));
    }
  }

  /** A marker moves the open run into the closed segments. */
  lemma StepClosesRuns(p: seq<string>, c: Cutter, t: string)
    requires Step(c, t).Ok? && KindOf(t) != Text
    requires TokensOf(c.closed) + (if |c.open| > 0 then [c.open] else []) == Runs(p)
    ensures TokensOf(Step(c, t).value.closed) + (if |Step(c, t).value.open| > 0 then [Step(c, t).value.open] else []) == Runs(p)
  {
    var c' := Step(c, t).value;
    assert c'.closed == Close(c) && c'.open == [];
    CloseFacts(c);
    AppendEmpty(TokensOf(c'.closed));
  }

  lemma StepConsistent(p: seq<string>, c: Cutter, t: string)
    requires Consistent(p, c)
    requires Step(c, t).Ok?
    ensures Consistent(p + [t], Step(c, t).value)
  {
    StepPending(p, c, t);
    StepTagged(p, c, t);
    StepTexts(p, c, t);
    StepCount(p, c, t);
    StepRuns(p, c, t);
  }

  lemma {:induction false} ScanConsistent(p: seq<string>)
    ensures Scan(p).Ok? ==> Consistent(p, Scan(p).value)
    decreases |p|
  {
    if |p| == 0 {
      assert Tag(Segment([], [])) == [];
    } else {
      var init := p[..|p| - 1];
      ScanConsistent(init);
      if Scan(init).Ok? && Scan(p).Ok? {
        StepConsistent(init, Scan(init).value, p[|p| - 1]);
        SplitLast(p);
      }
    }
  }

  /** The loop fails exactly when some token passes the marker test but not
      `int()`, and then it names such a token. */
  lemma {:induction false} SegmentsFailOnlyOnMalformed(tokens: seq<string>)
    ensures Segments(tokens).Ok? <==> NoMalformed(tokens)
    ensures Segments(tokens).Err? ==> Segments(tokens).error in tokens && KindOf(Segments(tokens).error) == Malformed
    decreases |tokens|
  {
    if |tokens| > 0 {
      var init := tokens[..|tokens| - 1];
      SegmentsFailOnlyOnMalformed(init);
      NoMalformedInit(tokens);
    }
  }

  predicate NoMalformed(tokens: seq<string>) {
    forall i :: 0 <= i < |tokens| ==> KindOf(tokens[i]) != Malformed
  }

  lemma NoMalformedInit(tokens: seq<string>)
    requires |tokens| > 0
    ensures NoMalformed(tokens) <==>
      NoMalformed(tokens[..|tokens| - 1]) && KindOf(tokens[|tokens| - 1]) != Malformed
    ensures forall t :: t in tokens[..|tokens| - 1] ==> t in tokens
  {
    assert forall i :: 0 <= i < |tokens| - 1 ==> tokens[..|tokens| - 1][i] == tokens[i];
  }

  /** Position just after the last `{.}` of `p`, or 0 when there is none. */
  function LastResetEnd(p: seq<string>): (j: nat)
    ensures j <= |p|
    decreases |p|
  {
    if |p| == 0 then 0
    else if KindOf(p[|p| - 1]) == Reset then |p|
    else LastResetEnd(p[..|p| - 1])
  }

  /** The pending ids are those of the markers after the last `{.}`: a suffix
      of the tokens that holds no `{.}` and starts at the message start or
      right after a `{.}`. */
  lemma {:induction false} SinceLastResetIsSuffix(p: seq<string>)
    ensures SinceLastReset(p) == p[LastResetEnd(p)..]
    ensures LastResetEnd(p) == 0 || KindOf(p[LastResetEnd(p) - 1]) == Reset
    ensures forall i :: LastResetEnd(p) <= i < |p| ==> KindOf(p[i]) != Reset
    decreases |p|
  {
    if |p| > 0 && KindOf(p[|p| - 1]) != Reset {
      var init := p[..|p| - 1];
      var j := LastResetEnd(init);
      SinceLastResetIsSuffix(init);
      SuffixOfInit(p, j);
      assert forall i :: j <= i < |init| ==> p[i] == init[i];
      assert j == 0 || p[j - 1] == init[j - 1];
    }
  }

  // ---------------------------------------------------------------------------
  // Brace tokens

  /** A brace span as the tokenizer cuts it: `{`, then no `}`, then `}`. */
  predicate BraceSpan(t: string) {
    |t| >= 2 && t[0] == '{' && t[|t| - 1] == '}' && forall i :: 0 < i < |t| - 1 ==> t[i] != '}'
  }

  lemma {:induction false} DigitsThenBraceAtEnd(t: string, i: nat)
    requires BraceSpan(t) && 1 <= i <= |t| - 1
    ensures DigitsThenBrace(t, i) <==> AllDigits(t[i..|t| - 1])
    decreases |t| - i
  {
    if i < |t| - 1 {
      DigitsThenBraceAtEnd(t, i + 1);
      assert t[i..|t| - 1][1..] == t[i + 1..|t| - 1];
    }
  }

  /** How the loop treats a brace span: `{digits}` is an effect marker with
      that id, exactly `{.}` is a reset, and every other span (`{x}`, `{}`,
      `{1 2}`) stays in the segment as ordinary text; none is malformed. */
  lemma BraceSpanKind(t: string)
    requires BraceSpan(t)
    ensures var inner := t[1..|t| - 1];
      KindOf(t) == (if |inner| > 0 && AllDigits(inner) then Effect(DecimalValue(inner))
                    else if inner == "." then Reset
                    else Text)
  {
    var inner := t[1..|t| - 1];
    if |t| >= 3 {
      DigitsThenBraceAtEnd(t, 2);
      assert inner[1..] == t[2..|t| - 1];
      assert MatchesEffectMarker(t) <==> |inner| > 0 && AllDigits(inner);
    }
    assert t == "{.}" <==> inner == "." by {
      if inner == "." {
        assert t == [t[0]] + inner + [t[|t| - 1]];
      }
    }
  }
}
