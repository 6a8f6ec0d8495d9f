/** The number normalisers: fix_numbers.py (with a fallback that keeps a run it
    cannot convert, and a catch-all that returns the input) and the older
    fixNumbers.py (no fallback: a failed conversion propagates).

    Both scan the text character by character, buffering consecutive numeric
    characters and replacing each buffered run by its spoken form. Which
    characters count as numeric (`str.isnumeric`) and the conversion
    `num2words(int(run), lang='pl')` are parameters of the model. */
module Numbers {
  import opened Basics

  /** What the conversion of one numeric run did: produced words, raised
      `ValueError` (e.g. `int` rejecting a non-decimal numeric character),
      or raised any other exception. */
  datatype Conversion = Converted(words: string) | ValueError | OtherError

  /** The two variants of the normaliser. */
  datatype Policy =
    | KeepRun    // fix_numbers.py: a ValueError keeps the run verbatim
    | Propagate  // fixNumbers.py: every conversion error escapes

  /** A piece of the text: one non-numeric character, or a maximal run of numeric ones. */
  datatype Piece = Plain(c: char) | Run(digits: string)

  predicate AllNumeric(s: string, isNumeric: char -> bool) {
    forall i :: 0 <= i < |s| ==> isNumeric(s[i])
  }

  /** Length of the longest numeric prefix of `s`. */
  function NumericPrefix(s: string, isNumeric: char -> bool): (k: nat)
    ensures k <= |s|
    ensures |s| > 0 && isNumeric(s[0]) ==> k > 0
  {
    if |s| == 0 || !isNumeric(s[0]) then 0 else 1 + NumericPrefix(s[1..], isNumeric)
  }

  /** The numeric prefix is numeric and cannot be extended. */
  lemma {:induction false} NumericPrefixSpec(s: string, isNumeric: char -> bool)
    ensures forall i :: 0 <= i < NumericPrefix(s, isNumeric) ==> isNumeric(s[i])
    ensures NumericPrefix(s, isNumeric) < |s| ==> !isNumeric(s[NumericPrefix(s, isNumeric)])
    decreases |s|
  {
    if |s| > 0 && isNumeric(s[0]) {
      NumericPrefixSpec(s[1..], isNumeric);
    }
  }

  function PieceText(p: Piece): string {
    match p
    case Plain(c) => [c]
    case Run(d) => d
  }

  function PieceTexts(ps: seq<Piece>): (r: seq<string>)
    ensures |r| == |ps|
    ensures forall i :: 0 <= i < |ps| ==> r[i] == PieceText(ps[i])
  {
    if |ps| == 0 then [] else [PieceText(ps[0])] + PieceTexts(ps[1..])
  }

  /** The pieces are a faithful cut of the text: plain pieces are non-numeric,
      runs are non-empty and numeric, and no two runs touch (each run is maximal). */
  predicate WellCut(ps: seq<Piece>, isNumeric: char -> bool) {
    && (forall i :: 0 <= i < |ps| && ps[i].Plain? ==> !isNumeric(ps[i].c))
    && (forall i :: 0 <= i < |ps| && ps[i].Run? ==> |ps[i].digits| > 0 && AllNumeric(ps[i].digits, isNumeric))
    && (forall i :: 0 <= i < |ps| - 1 ==> !(ps[i].Run? && ps[i + 1].Run?))
  }

  /** Length of the first piece of a non-empty text. */
  function HeadLength(text: string, isNumeric: char -> bool): (k: nat)
    requires |text| > 0
    ensures 1 <= k <= |text|
  {
    if isNumeric(text[0]) then NumericPrefix(text, isNumeric) else 1
  }

  /** The first piece of a non-empty text. */
  function HeadPiece(text: string, isNumeric: char -> bool): (p: Piece)
    requires |text| > 0
    ensures PieceText(p) == text[..HeadLength(text, isNumeric)]
  {
    if isNumeric(text[0]) then Run(text[..HeadLength(text, isNumeric)]) else Plain(text[0])
  }

  /** Cut the text into non-numeric characters and maximal numeric runs. */
  function Pieces(text: string, isNumeric: char -> bool): seq<Piece>
    decreases |text|
  {
    if |text| == 0 then []
    else [HeadPiece(text, isNumeric)] + Pieces(text[HeadLength(text, isNumeric)..], isNumeric)
  }

  /** The cut is faithful: its pieces, joined, give the text back. */
  lemma {:induction false} PiecesJoin(text: string, isNumeric: char -> bool)
    ensures Concat(PieceTexts(Pieces(text, isNumeric))) == text
    decreases |text|
  {
    if |text| > 0 {
      var k := HeadLength(text, isNumeric);
      PiecesJoinStep(text, isNumeric);
      PiecesJoin(text[k..], isNumeric);
      TakeDrop(text, k);
    }
  }

  lemma TakeDrop(s: string, k: nat)
    requires k <= |s|
    ensures s[..k] + s[k..] == s
  {
  }

  lemma PiecesJoinStep(text: string, isNumeric: char -> bool)
    requires |text| > 0
    ensures Concat(PieceTexts(Pieces(text, isNumeric))) ==
      text[..HeadLength(text, isNumeric)] + Concat(PieceTexts(Pieces(text[HeadLength(text, isNumeric)..], isNumeric)))
  {
    var k := HeadLength(text, isNumeric);
    var head := HeadPiece(text, isNumeric);
    var tail := Pieces(text[k..], isNumeric);
    assert Pieces(text, isNumeric) == [head] + tail;
    PiecesPrepend(head, tail);
  }

  /** The cut is into single non-numeric characters and maximal numeric runs. */
  lemma {:induction false} PiecesWellCut(text: string, isNumeric: char -> bool)
    ensures WellCut(Pieces(text, isNumeric), isNumeric)
    ensures |Pieces(text, isNumeric)| > 0 && Pieces(text, isNumeric)[0].Run? ==> isNumeric(text[0])
    decreases |text|
  {
    if |text| > 0 {
      var k := HeadLength(text, isNumeric);
      var head := HeadPiece(text, isNumeric);
      var rest := Pieces(text[k..], isNumeric);
      PiecesWellCut(text[k..], isNumeric);
      if head.Run? {
        NumericPrefixSpec(text, isNumeric);
        assert AllNumeric(text[..k], isNumeric);
        assert |rest| > 0 ==> rest[0].Plain?;
      }
      WellCutPrepend(head, rest, isNumeric);
    }
  }

  lemma PiecesPrepend(p: Piece, ps: seq<Piece>)
    ensures Concat(PieceTexts([p] + ps)) == PieceText(p) + Concat(PieceTexts(ps))
  {
    assert PieceTexts([p] + ps) == [PieceText(p)] + PieceTexts(ps);
    ConcatPrepend(PieceText(p), PieceTexts(ps));
  }

  lemma WellCutPrepend(p: Piece, ps: seq<Piece>, isNumeric: char -> bool)
    requires WellCut(ps, isNumeric)
    requires p.Plain? ==> !isNumeric(p.c)
    requires p.Run? ==> |p.digits| > 0 && AllNumeric(p.digits, isNumeric)
    requires p.Run? && |ps| > 0 ==> ps[0].Plain?
    ensures WellCut([p] + ps, isNumeric)
  {
    var r := [p] + ps;
    assert forall i :: 1 <= i < |r| ==> r[i] == ps[i - 1];
  }

  /** Flush one buffered run under the given policy. `Err` carries the run whose
      conversion raised an exception that escapes the scan. */
  function Flush(run: string, policy: Policy, convert: string -> Conversion): Result<string, string> {
    match convert(run)
    case Converted(w) => Ok(w)
    case ValueError => if policy == KeepRun then Ok(run) else Err(run)
    case OtherError => Err(run)
  }

  /** One piece rendered: a plain character stands for itself, a run is flushed. */
  function RenderPiece(p: Piece, policy: Policy, convert: string -> Conversion): Result<string, string> {
    match p
    case Plain(c) => Ok([c])
    case Run(d) => Flush(d, policy, convert)
  }

  /** Join the rendered pieces left to right; the first escaping error wins. */
  function Render(ps: seq<Piece>, policy: Policy, convert: string -> Conversion): Result<string, string>
    decreases |ps|
  {
    if |ps| == 0 then Ok("")
    else
      var head := RenderPiece(ps[0], policy, convert);
      if head.Err? then head
      else
        var tail := Render(ps[1..], policy, convert);
        if tail.Err? then tail else Ok(head.value + tail.value)
  }

  /** fix_numbers.py: numeric runs converted, a ValueError keeps the run, and
      any other exception makes the whole call return the text unchanged. The
      result is each piece's spoken form in order: a non-numeric character
      as is, a maximal run as its words or verbatim. */
  function FixNumbers(text: string, isNumeric: char -> bool, convert: string -> Conversion): (r: string)
    ensures NoOtherError(Pieces(text, isNumeric), convert) ==> r == Concat(Spoken(Pieces(text, isNumeric), convert))
    ensures !NoOtherError(Pieces(text, isNumeric), convert) ==> r == text
  {
    RenderKeepRun(Pieces(text, isNumeric), convert);
    var r := Render(Pieces(text, isNumeric), KeepRun, convert);
    if r.Ok? then r.value else text
  }

  /** fixNumbers.py: numeric runs converted; any conversion failure propagates,
      naming a maximal run of the text that did not convert. */
  function FixNumbersStrict(text: string, isNumeric: char -> bool, convert: string -> Conversion): (r: Result<string, string>)
    ensures r.Ok? <==> AllConverted(Pieces(text, isNumeric), convert)
    ensures r.Err? ==>
      exists i :: 0 <= i < |Pieces(text, isNumeric)| &&
        Pieces(text, isNumeric)[i] == Run(r.error) && !convert(Pieces(text, isNumeric)[i].digits).Converted?
  {
    RenderPropagate(Pieces(text, isNumeric), convert);
    Render(Pieces(text, isNumeric), Propagate, convert)
  }

  // ---------------------------------------------------------------------------
  // The scan as written: one pass with a buffer, as in both source files

  /** The scan's state after `i` characters: the buffer holds the numeric run
      that starts at `m`, and `symbols` is the rendering of everything before it. */
  ghost predicate Scanned(text: string, isNumeric: char -> bool, convert: string -> Conversion, policy: Policy,
                          m: nat, i: nat, symbols: string, buffer: string) {
    && m <= i <= |text|
    && buffer == text[m..i]
    && AllNumeric(buffer, isNumeric)
    && (m == 0 || !isNumeric(text[m - 1]))
    && Render(Pieces(text[..m], isNumeric), policy, convert) == Ok(symbols)
  }

  /** One iteration of the character loop (fix_numbers.py lines 19-32,
      fixNumbers.py lines 7-16). */
  method ScanChar(text: string, isNumeric: char -> bool, convert: string -> Conversion, policy: Policy,
                  i: nat, ghost m: nat, symbols: string, buffer: string)
    returns (failed: Option<string>, symbols': string, buffer': string, ghost m': nat)
    requires i < |text| && Scanned(text, isNumeric, convert, policy, m, i, symbols, buffer)
    ensures failed.Some? ==> Render(Pieces(text, isNumeric), policy, convert) == Err(failed.value)
    ensures failed.None? ==> Scanned(text, isNumeric, convert, policy, m', i + 1, symbols', buffer')
  {
    var c := text[i];
    if isNumeric(c) {
      RunExtends(text, m, i, isNumeric);
      return None, symbols, buffer + [c], m;
    }
    CharStep(text, m, i, symbols, isNumeric, policy, convert);
    symbols' := symbols;
    if |buffer| > 0 {
      var f := Flush(buffer, policy, convert);
      if f.Err? {
        return Some(f.error), symbols, buffer, m;
      }
      symbols' := symbols' + f.value;
    }
    return None, symbols' + [c], "", i + 1;
  }

  /** The character loop of both normalisers, up to the end of the text: the
      symbols joined so far and the numeric run still buffered, or the run whose
      flush raised an exception that escapes. */
  method ScanLoop(text: string, isNumeric: char -> bool, convert: string -> Conversion, policy: Policy)
    returns (failed: Option<string>, symbols: string, buffer: string)
    ensures failed.Some? ==> Render(Pieces(text, isNumeric), policy, convert) == Err(failed.value)
    ensures failed.None? ==>
      && |buffer| <= |text|
      && buffer == text[|text| - |buffer|..]
      && AllNumeric(buffer, isNumeric)
      && (|buffer| == |text| || !isNumeric(text[|text| - |buffer| - 1]))
      && Render(Pieces(text[..|text| - |buffer|], isNumeric), policy, convert) == Ok(symbols)
  {
    symbols := "";
    buffer := "";
    var i := 0;
    ghost var m := 0;  // where the buffered run starts
    while i < |text|
      invariant i <= |text|
      invariant Scanned(text, isNumeric, convert, policy, m, i, symbols, buffer)
    {
      failed, symbols, buffer, m := ScanChar(text, isNumeric, convert, policy, i, m, symbols, buffer);
      if failed.Some? {
        return;
      }
      i := i + 1;
    }
    assert m == |text| - |buffer|;
    failed := None;
  }

  /** Both normalisers' scan: the loop, then the flush of a trailing run. */
  method ScanNumbers(text: string, isNumeric: char -> bool, convert: string -> Conversion, policy: Policy)
    returns (r: Result<string, string>)
    ensures r == Render(Pieces(text, isNumeric), policy, convert)
  {
    var failed, symbols, buffer := ScanLoop(text, isNumeric, convert, policy);
    if failed.Some? {
      return Err(failed.value);
    }
    EndStep(text, |text| - |buffer|, symbols, isNumeric, policy, convert);
    if |buffer| > 0 {
      var f := Flush(buffer, policy, convert);
      if f.Err? {
        return f;
      }
      symbols := symbols + f.value;
    }
    r := Ok(symbols);
  }

  /** fix_numbers.py as written: the scan with the ValueError fallback, inside
      a catch-all that returns the text unchanged. */
  method FixNumbersScan(text: string, isNumeric: char -> bool, convert: string -> Conversion) returns (r: string)
    ensures r == FixNumbers(text, isNumeric, convert)
  {
    var scanned := ScanNumbers(text, isNumeric, convert, KeepRun);
    if scanned.Ok? {
      r := scanned.value;
    } else {
      r := text;
    }
  }

  // ---------------------------------------------------------------------------
  // Lemmas behind the scan

  /** The cut of a concatenation is the concatenation of the cuts, unless a
      numeric run straddles the seam. */
  lemma {:induction false} PiecesSplit(p: string, q: string, isNumeric: char -> bool)
    requires |p| == 0 || |q| == 0 || !isNumeric(p[|p| - 1]) || !isNumeric(q[0])
    ensures Pieces(p + q, isNumeric) == Pieces(p, isNumeric) + Pieces(q, isNumeric)
    decreases |p|
  {
    if |p| == 0 {
      assert p + q == q;
    } else if |q| == 0 {
      assert p + q == p;
    } else {
      var rest := p[HeadLength(p, isNumeric)..];
      if |rest| > 0 {
        assert rest[|rest| - 1] == p[|p| - 1];
        PiecesSplit(rest, q, isNumeric);
      } else {
        assert rest + q == q;
      }
      PiecesSplitStep(p, q, isNumeric);
    }
  }

  lemma PiecesSplitStep(p: string, q: string, isNumeric: char -> bool)
    requires |p| > 0 && |q| > 0 && (!isNumeric(p[|p| - 1]) || !isNumeric(q[0]))
    requires Pieces(p[HeadLength(p, isNumeric)..] + q, isNumeric) ==
      Pieces(p[HeadLength(p, isNumeric)..], isNumeric) + Pieces(q, isNumeric)
    ensures Pieces(p + q, isNumeric) == Pieces(p, isNumeric) + Pieces(q, isNumeric)
  {
    var h := HeadPiece(p, isNumeric);
    var rest := p[HeadLength(p, isNumeric)..];
    PiecesOfJoinHead(p, q, isNumeric);
    AppendAssoc([h], Pieces(rest, isNumeric), Pieces(q, isNumeric));
    assert Pieces(p, isNumeric) == [h] + Pieces(rest, isNumeric);
  }

  lemma PiecesOfJoinHead(p: string, q: string, isNumeric: char -> bool)
    requires |p| > 0 && |q| > 0 && (!isNumeric(p[|p| - 1]) || !isNumeric(q[0]))
    ensures Pieces(p + q, isNumeric) ==
      [HeadPiece(p, isNumeric)] + Pieces(p[HeadLength(p, isNumeric)..] + q, isNumeric)
  {
    HeadOfJoin(p, q, isNumeric);
    DropAppend(p, q, HeadLength(p, isNumeric));
  }

  /** Joining text after a piece boundary does not change the first piece. */
  lemma HeadOfJoin(p: string, q: string, isNumeric: char -> bool)
    requires |p| > 0 && |q| > 0 && (!isNumeric(p[|p| - 1]) || !isNumeric(q[0]))
    ensures HeadLength(p + q, isNumeric) == HeadLength(p, isNumeric)
    ensures HeadPiece(p + q, isNumeric) == HeadPiece(p, isNumeric)
  {
    var s := p + q;
    var k := HeadLength(p, isNumeric);
    assert s[0] == p[0];
    if isNumeric(p[0]) {
      NumericPrefixSpec(p, isNumeric);
      assert forall j :: 0 <= j < |p| ==> s[j] == p[j];
      if k == |p| {
        assert isNumeric(p[|p| - 1]);
        assert s[|p|] == q[0];
      }
      NumericPrefixIsLongest(s, k, isNumeric);
      assert s[..k] == p[..k];
    }
  }

  lemma {:induction false} NumericPrefixIsLongest(s: string, k: nat, isNumeric: char -> bool)
    requires k <= |s| && (forall j :: 0 <= j < k ==> isNumeric(s[j])) && (k < |s| ==> !isNumeric(s[k]))
    ensures NumericPrefix(s, isNumeric) == k
    decreases k
  {
    if k > 0 {
      NumericPrefixIsLongest(s[1..], k - 1, isNumeric);
    }
  }

  lemma {:induction false} RenderAppend(a: seq<Piece>, b: seq<Piece>, policy: Policy, convert: string -> Conversion)
    ensures Render(a + b, policy, convert) ==
      if Render(a, policy, convert).Err? then Render(a, policy, convert)
      else if Render(b, policy, convert).Err? then Render(b, policy, convert)
      else Ok(Render(a, policy, convert).value + Render(b, policy, convert).value)
    decreases |a|
  {
    if |a| == 0 {
      assert a + b == b;
      var tb := Render(b, policy, convert);
      if tb.Ok? {
        assert "" + tb.value == tb.value;
      }
    } else {
      var ab := a + b;
      assert ab[0] == a[0];
      assert ab[1..] == a[1..] + b;
      RenderAppend(a[1..], b, policy, convert);
      var head := RenderPiece(a[0], policy, convert);
      if head.Ok? {
        var ta := Render(a[1..], policy, convert);
        var tb := Render(b, policy, convert);
        if ta.Ok? && tb.Ok? {
          assert head.value + (ta.value + tb.value) == (head.value + ta.value) + tb.value;
        }
      }
    }
  }

  lemma RunPieces(run: string, isNumeric: char -> bool)
    requires |run| > 0 && AllNumeric(run, isNumeric)
    ensures Pieces(run, isNumeric) == [Run(run)]
  {
    NumericPrefixIsLongest(run, |run|, isNumeric);
    var k := NumericPrefix(run, isNumeric);
    assert k == |run|;
    assert run[..k] == run;
    assert run[k..] == [];
    assert Pieces(run[k..], isNumeric) == [];
  }

  lemma PlainStep(p: string, c: char, isNumeric: char -> bool, policy: Policy, convert: string -> Conversion)
    requires !isNumeric(c)
    requires Render(Pieces(p, isNumeric), policy, convert).Ok?
    ensures Render(Pieces(p + [c], isNumeric), policy, convert)
         == Ok(Render(Pieces(p, isNumeric), policy, convert).value + [c])
  {
    PiecesSplit(p, [c], isNumeric);
    var one: string := [c];
    assert one[1..] == [];
    assert Pieces(one, isNumeric) == [Plain(c)];
    var ps := [Plain(c)];
    assert ps[1..] == [];
    assert Render(ps, policy, convert) == Ok([c] + "");
    assert [c] + "" == [c];
    RenderAppend(Pieces(p, isNumeric), ps, policy, convert);
  }

  /** Flushing the buffer extends the rendered prefix by the flushed run. */
  lemma FlushStep(text: string, m: nat, i: nat, isNumeric: char -> bool, policy: Policy, convert: string -> Conversion)
    requires m < i <= |text|
    requires AllNumeric(text[m..i], isNumeric)
    requires m == 0 || !isNumeric(text[m - 1])
    requires Render(Pieces(text[..m], isNumeric), policy, convert).Ok?
    ensures Flush(text[m..i], policy, convert).Ok? ==>
      Render(Pieces(text[..i], isNumeric), policy, convert)
      == Ok(Render(Pieces(text[..m], isNumeric), policy, convert).value + Flush(text[m..i], policy, convert).value)
  {
    TrailingRunStep(text[..m], text[m..i], isNumeric, policy, convert);
    assert text[..m] + text[m..i] == text[..i];
  }

  lemma TrailingRunStep(p: string, run: string, isNumeric: char -> bool, policy: Policy, convert: string -> Conversion)
    requires |run| > 0 && AllNumeric(run, isNumeric)
    requires |p| == 0 || !isNumeric(p[|p| - 1])
    requires Render(Pieces(p, isNumeric), policy, convert).Ok?
    ensures Render(Pieces(p + run, isNumeric), policy, convert) ==
      if Flush(run, policy, convert).Err? then Flush(run, policy, convert)
      else Ok(Render(Pieces(p, isNumeric), policy, convert).value + Flush(run, policy, convert).value)
  {
    var ps := [Run(run)];
    assert Pieces(p + run, isNumeric) == Pieces(p, isNumeric) + ps by {
      PiecesSplit(p, run, isNumeric);
      RunPieces(run, isNumeric);
    }
    var f := Flush(run, policy, convert);
    assert Render(ps, policy, convert) == if f.Err? then f else Ok(f.value) by {
      assert ps[1..] == [];
      if f.Ok? {
        assert f.value + "" == f.value;
      }
    }
    RenderAppend(Pieces(p, isNumeric), ps, policy, convert);
  }

  /** End of text: a pending run is still flushed. */
  lemma EndStep(text: string, m: nat, symbols: string, isNumeric: char -> bool, policy: Policy, convert: string -> Conversion)
    requires m <= |text|
    requires AllNumeric(text[m..], isNumeric)
    requires m == 0 || !isNumeric(text[m - 1])
    requires Render(Pieces(text[..m], isNumeric), policy, convert) == Ok(symbols)
    ensures Render(Pieces(text, isNumeric), policy, convert) ==
      if m == |text| then Ok(symbols)
      else if Flush(text[m..], policy, convert).Err? then Flush(text[m..], policy, convert)
      else Ok(symbols + Flush(text[m..], policy, convert).value)
  {
    if m < |text| {
      TrailingRunStep(text[..m], text[m..], isNumeric, policy, convert);
      assert text[..m] + text[m..] == text;
    } else {
      assert text[..m] == text;
    }
  }

  /** A numeric character extends the buffered run by one. */
  lemma RunExtends(text: string, m: nat, i: nat, isNumeric: char -> bool)
    requires m <= i < |text| && AllNumeric(text[m..i], isNumeric) && isNumeric(text[i])
    ensures text[m..i] + [text[i]] == text[m..i + 1]
    ensures AllNumeric(text[m..i + 1], isNumeric)
  {
    assert text[m..i] + [text[i]] == text[m..i + 1];
  }

  /** One non-numeric character: the pending run (if any) is flushed, then the
      character is appended; a failing flush fails the whole text. */
  lemma CharStep(text: string, m: nat, i: nat, symbols: string, isNumeric: char -> bool, policy: Policy, convert: string -> Conversion)
    requires m <= i < |text|
    requires AllNumeric(text[m..i], isNumeric) && !isNumeric(text[i])
    requires m == 0 || !isNumeric(text[m - 1])
    requires Render(Pieces(text[..m], isNumeric), policy, convert) == Ok(symbols)
    ensures m < i && Flush(text[m..i], policy, convert).Err? ==>
      Render(Pieces(text, isNumeric), policy, convert) == Flush(text[m..i], policy, convert)
    ensures m < i && Flush(text[m..i], policy, convert).Ok? ==>
      Render(Pieces(text[..i + 1], isNumeric), policy, convert)
      == Ok(symbols + Flush(text[m..i], policy, convert).value + [text[i]])
    ensures m == i ==>
      Render(Pieces(text[..i + 1], isNumeric), policy, convert) == Ok(symbols + [text[i]])
  {
    assert text[..i] + [text[i]] == text[..i + 1];
    if m < i {
      var f := Flush(text[m..i], policy, convert);
      FlushStep(text, m, i, isNumeric, policy, convert);
      if f.Err? {
        FlushFails(text, m, i, isNumeric, policy, convert);
      } else {
        PlainStep(text[..i], text[i], isNumeric, policy, convert);
      }
    } else {
      PlainStep(text[..i], text[i], isNumeric, policy, convert);
    }
  }

  /** A run whose flush fails, followed by a non-numeric character, fails the whole text. */
  lemma FlushFails(text: string, m: nat, i: nat, isNumeric: char -> bool, policy: Policy, convert: string -> Conversion)
    requires m < i < |text|
    requires AllNumeric(text[m..i], isNumeric) && !isNumeric(text[i])
    requires m == 0 || !isNumeric(text[m - 1])
    requires Render(Pieces(text[..m], isNumeric), policy, convert).Ok?
    requires Flush(text[m..i], policy, convert).Err?
    ensures Render(Pieces(text, isNumeric), policy, convert) == Flush(text[m..i], policy, convert)
  {
    TrailingRunStep(text[..m], text[m..i], isNumeric, policy, convert);
    assert text[..m] + text[m..i] == text[..i];
    assert text == text[..i] + text[i..];
    PiecesSplit(text[..i], text[i..], isNumeric);
    RenderAppend(Pieces(text[..i], isNumeric), Pieces(text[i..], isNumeric), policy, convert);
  }

  // ---------------------------------------------------------------------------
  // What the normalisers promise

  /** The intended spoken form of one piece: a plain character stays, a run
      becomes its words, or stays verbatim when it cannot be converted. */
  function SpokenPiece(p: Piece, convert: string -> Conversion): string {
    match p
    case Plain(c) => [c]
    case Run(d) => if convert(d).Converted? then convert(d).words else d
  }

  function Spoken(ps: seq<Piece>, convert: string -> Conversion): (r: seq<string>)
    ensures |r| == |ps|
    ensures forall i :: 0 <= i < |ps| ==> r[i] == SpokenPiece(ps[i], convert)
  {
    if |ps| == 0 then [] else [SpokenPiece(ps[0], convert)] + Spoken(ps[1..], convert)
  }

  /** No run raises anything but `ValueError`. */
  predicate NoOtherError(ps: seq<Piece>, convert: string -> Conversion) {
    forall i :: 0 <= i < |ps| && ps[i].Run? ==> !convert(ps[i].digits).OtherError?
  }

  /** Every run converts. */
  predicate AllConverted(ps: seq<Piece>, convert: string -> Conversion) {
    forall i :: 0 <= i < |ps| && ps[i].Run? ==> convert(ps[i].digits).Converted?
  }

  /** No run converts. */
  predicate NoneConverted(ps: seq<Piece>, convert: string -> Conversion) {
    forall i :: 0 <= i < |ps| && ps[i].Run? ==> !convert(ps[i].digits).Converted?
  }

  /** Under the fallback policy the fold succeeds exactly when no run raises
      anything but `ValueError`, and then yields the spoken pieces, joined. */
  lemma {:induction false} RenderKeepRun(ps: seq<Piece>, convert: string -> Conversion)
    ensures Render(ps, KeepRun, convert).Ok? <==> NoOtherError(ps, convert)
    ensures NoOtherError(ps, convert) ==> Render(ps, KeepRun, convert).value == Concat(Spoken(ps, convert))
    decreases |ps|
  {
    if |ps| > 0 {
      var head := RenderPiece(ps[0], KeepRun, convert);
      var tail := Render(ps[1..], KeepRun, convert);
      RenderKeepRun(ps[1..], convert);
      assert head.Ok? <==> !(ps[0].Run? && convert(ps[0].digits).OtherError?);
      assert NoOtherError(ps, convert) <==> (head.Ok? && NoOtherError(ps[1..], convert)) by {
        assert forall i :: 1 <= i < |ps| ==> ps[i] == ps[1..][i - 1];
      }
      if head.Ok? && tail.Ok? {
        assert head.value == SpokenPiece(ps[0], convert);
        assert Spoken(ps, convert) == [SpokenPiece(ps[0], convert)] + Spoken(ps[1..], convert);
        ConcatPrepend(SpokenPiece(ps[0], convert), Spoken(ps[1..], convert));
      }
    }
  }

  /** Under the propagating policy the fold succeeds exactly when every run
      converts, and then agrees with the fallback policy. When it fails, the
      error names a run of the text whose conversion did not succeed. */
  lemma {:induction false} RenderPropagate(ps: seq<Piece>, convert: string -> Conversion)
    ensures Render(ps, Propagate, convert).Ok? <==> AllConverted(ps, convert)
    ensures AllConverted(ps, convert) ==> Render(ps, Propagate, convert) == Render(ps, KeepRun, convert)
    ensures Render(ps, Propagate, convert).Err? ==>
      exists i :: 0 <= i < |ps| && ps[i] == Run(Render(ps, Propagate, convert).error)
                && !convert(ps[i].digits).Converted?
    decreases |ps|
  {
    if |ps| > 0 {
      RenderPropagate(ps[1..], convert);
      assert forall i :: 1 <= i < |ps| ==> ps[i] == ps[1..][i - 1];
      assert AllConverted(ps, convert) <==>
        (!(ps[0].Run? && !convert(ps[0].digits).Converted?) && AllConverted(ps[1..], convert));
      var r := Render(ps, Propagate, convert);
      if r.Err? {
        var head := RenderPiece(ps[0], Propagate, convert);
        if head.Err? {
          assert ps[0] == Run(r.error);
        } else {
          var j :| 0 <= j < |ps[1..]| && ps[1..][j] == Run(r.error) && !convert(ps[1..][j].digits).Converted?;
          assert ps[j + 1] == ps[1..][j];
        }
      }
    }
  }

  lemma {:induction false} NoNumericNoRuns(text: string, isNumeric: char -> bool)
    requires forall i :: 0 <= i < |text| ==> !isNumeric(text[i])
    ensures forall i :: 0 <= i < |Pieces(text, isNumeric)| ==> Pieces(text, isNumeric)[i].Plain?
    decreases |text|
  {
    if |text| > 0 {
      NoNumericNoRuns(text[1..], isNumeric);
      assert Pieces(text, isNumeric) == [Plain(text[0])] + Pieces(text[1..], isNumeric);
    }
  }

  lemma {:induction false} SpokenUnconverted(ps: seq<Piece>, convert: string -> Conversion)
    requires NoneConverted(ps, convert)
    ensures Spoken(ps, convert) == PieceTexts(ps)
  {
  }

  /** fix_numbers.py: when no run converts, the output is the input. */
  lemma FixNumbersNoneConverted(text: string, isNumeric: char -> bool, convert: string -> Conversion)
    requires NoneConverted(Pieces(text, isNumeric), convert)
    ensures FixNumbers(text, isNumeric, convert) == text
  {
    var ps := Pieces(text, isNumeric);
    RenderKeepRun(ps, convert);
    SpokenUnconverted(ps, convert);
    PiecesJoin(text, isNumeric);
  }

  /** Both normalisers leave text without numeric characters unchanged. */
  lemma NoNumericUnchanged(text: string, isNumeric: char -> bool, convert: string -> Conversion)
    requires forall i :: 0 <= i < |text| ==> !isNumeric(text[i])
    ensures FixNumbers(text, isNumeric, convert) == text
    ensures FixNumbersStrict(text, isNumeric, convert) == Ok(text)
  {
    var ps := Pieces(text, isNumeric);
    NoNumericNoRuns(text, isNumeric);
    FixNumbersNoneConverted(text, isNumeric, convert);
    RenderKeepRun(ps, convert);
    RenderPropagate(ps, convert);
  }

  /** A numeric run at the very end of the text is still converted. */
  lemma TrailingRunConverted(p: string, run: string, isNumeric: char -> bool, convert: string -> Conversion)
    requires |run| > 0 && AllNumeric(run, isNumeric)
    requires |p| == 0 || !isNumeric(p[|p| - 1])
    requires convert(run).Converted?
    requires NoOtherError(Pieces(p, isNumeric), convert)
    ensures FixNumbers(p + run, isNumeric, convert) == FixNumbers(p, isNumeric, convert) + convert(run).words
    ensures FixNumbersStrict(p, isNumeric, convert).Ok? ==>
      FixNumbersStrict(p + run, isNumeric, convert) == Ok(FixNumbersStrict(p, isNumeric, convert).value + convert(run).words)
  {
    RenderKeepRun(Pieces(p, isNumeric), convert);
    TrailingRunStep(p, run, isNumeric, KeepRun, convert);
    if FixNumbersStrict(p, isNumeric, convert).Ok? {
      TrailingRunStep(p, run, isNumeric, Propagate, convert);
    }
  }

  /** fixNumbers.py: a conversion failure anywhere propagates (naming the
      failing run), and when every run converts the result is exactly that of
      fix_numbers.py. */
  lemma StrictAgreesWhenAllConvert(text: string, isNumeric: char -> bool, convert: string -> Conversion)
    ensures FixNumbersStrict(text, isNumeric, convert).Ok? <==> AllConverted(Pieces(text, isNumeric), convert)
    ensures FixNumbersStrict(text, isNumeric, convert).Ok? ==>
      FixNumbersStrict(text, isNumeric, convert).value == FixNumbers(text, isNumeric, convert)
    ensures FixNumbersStrict(text, isNumeric, convert).Err? ==>
      exists i :: 0 <= i < |Pieces(text, isNumeric)| &&
        Pieces(text, isNumeric)[i] == Run(FixNumbersStrict(text, isNumeric, convert).error) &&
        !convert(Pieces(text, isNumeric)[i].digits).Converted?
  {
    RenderPropagate(Pieces(text, isNumeric), convert);
  }
}
