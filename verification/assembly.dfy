/** What `process_segment` and `apply_effect` (sound_play.py) decide for one
    segment, and how `sound_play` chooses the clip it plays. Speech synthesis,
    the sox calls and the file system are not modelled: a segment becomes a
    `Job` that names its input files in token order, how they are combined,
    the transform chain, the output file and the files removed afterwards.
    Random uuid file names are parameters. */
module Assembly {
  import opened Basics
  import Numbers
  import Effects
  import Segmenter

  // ---------------------------------------------------------------------------
  // Per-token resolution

  /** Where one token's audio comes from. */
  datatype Clip = Library(path: string) | Speech(text: string)

  /** The test at the head of the token loop: a bracketed name that is listed. */
  predicate IsSoundName(token: string, sounds: seq<string>) {
    StartsWith(token, "[") && EndsWith(token, "]") && token in sounds
  }

  predicate IsStop(c: char) {
    c == '.' || c == '!' || c == '?'
  }

  /** The sentence test `re.match('.*(\.|!|\?)$', s)`, computed from its
      closed form: the text ends in a stop character, possibly followed by one
      final newline, and the part before that stop holds no newline. The
      ensures is the regular expression's meaning: some stop character is
      preceded only by non-newline characters (`.` does not match a newline)
      and followed by the end of the text or by one final newline (`$` also
      matches just before a final newline). */
  function EndsSentence(s: string): (b: bool)
    ensures b <==> (exists i :: 0 <= i < |s| && SingleLine(s[..i]) && IsStop(s[i]) &&
                                 (i + 1 == |s| || (i + 2 == |s| && s[i + 1] == '\n')))
  {
    if |s| >= 1 && IsStop(s[|s| - 1]) && SingleLine(s[..|s| - 1]) then
      var i := |s| - 1;
      assert 0 <= i < |s| && SingleLine(s[..i]) && IsStop(s[i]) && i + 1 == |s|;
      true
    else if |s| >= 2 && s[|s| - 1] == '\n' && IsStop(s[|s| - 2]) && SingleLine(s[..|s| - 2]) then
      var i := |s| - 2;
      assert 0 <= i < |s| && SingleLine(s[..i]) && IsStop(s[i]) && i + 2 == |s| && s[i + 1] == '\n';
      true
    else
      false
  }

  /** The text sent to speech synthesis: `.` appended unless the sentence test passes. */
  function Punctuate(s: string): (r: string)
    ensures r == s || r == s + "."
  {
    if EndsSentence(s) then s else s + "."
  }

  /** The library path a sound name points at (sound_play.py, line 100). */
  function LibraryPath(token: string): (path: string)
    requires |token| >= 2
    ensures StartsWith(path, "sounds/") && EndsWith(path, ".wav")
  {
    "sounds/" + token[1..|token| - 1] + ".wav"
  }

  /** A text that starts with `[` and ends with `]` has both characters. */
  lemma BracketedLength(t: string)
    requires StartsWith(t, "[") && EndsWith(t, "]")
    ensures |t| >= 2
  {
    assert t[0] == '[' by {
      assert t[..1][0] == t[0];
    }
    assert t[|t| - 1] == ']' by {
      assert t[|t| - 1..][0] == t[|t| - 1];
    }
  }

  /** One token: a listed sound name plays its library file; anything else,
      brackets included, is number-normalised and punctuated for speech. */
  function Resolve(token: string, sounds: seq<string>, isNumeric: char -> bool,
                   convert: string -> Numbers.Conversion): (c: Clip)
    ensures c.Library? <==> IsSoundName(token, sounds)
  {
    if IsSoundName(token, sounds) then
      BracketedLength(token);
      Library(LibraryPath(token))
    else Speech(Punctuate(Numbers.FixNumbers(token, isNumeric, convert)))
  }

  // ---------------------------------------------------------------------------
  // Combining files

  /** How a list of files becomes one: nothing, a copy, or a concatenation. */
  datatype Combine = NoFiles | Copy(file: string) | Concatenate(files: seq<string>)

  /** The files a combination consists of, in order. */
  function CombinedFiles(c: Combine): seq<string> {
    match c
    case NoFiles => []
    case Copy(f) => [f]
    case Concatenate(fs) => fs
  }

  /** The choice made both for a segment's inputs (sound_play.py, lines 130-133)
      and for the final clip (lines 78-83): several files are concatenated,
      a single one is copied. */
  function Combined(files: seq<string>): (c: Combine)
    ensures CombinedFiles(c) == files
    ensures c.NoFiles? <==> |files| == 0
    ensures c.Copy? <==> |files| == 1
    ensures c.Concatenate? ==> |c.files| > 1
  {
    if |files| > 1 then Concatenate(files)
    else if |files| == 1 then Copy(files[0])
    else NoFiles
  }

  // ---------------------------------------------------------------------------
  // Cleanup

  /** `os.path.commonprefix([a, b])`: the longest common prefix. */
  function CommonPrefix(a: string, b: string): (r: string)
    ensures StartsWith(a, r) && StartsWith(b, r)
    ensures |r| < |a| && |r| < |b| ==> a[|r|] != b[|r|]
  {
    if |a| == 0 || |b| == 0 || a[0] != b[0] then ""
    else [a[0]] + CommonPrefix(a[1..], b[1..])
  }

  /** The common prefix of `dir` and `path` is `dir` exactly when `path` starts with `dir`. */
  lemma CommonPrefixIsDir(dir: string, path: string)
    ensures CommonPrefix(dir, path) == dir <==> StartsWith(path, dir)
  {
  }

  /** The cleanup loop: the inputs whose common prefix with `sounds` is not
      `sounds`, that is, exactly the inputs outside the `sounds` prefix. */
  function Removed(files: seq<string>): (r: seq<string>)
    ensures |r| <= |files|
    ensures forall f :: f in r <==> f in files && !StartsWith(f, "sounds")
    decreases |files|
  {
    if |files| == 0 then []
    else
      var init := files[..|files| - 1];
      var f := files[|files| - 1];
      CommonPrefixIsDir("sounds", f);
      assert files == init + [f];
      Removed(init) + (if CommonPrefix("sounds", f) != "sounds" then [f] else [])
  }

  // ---------------------------------------------------------------------------
  // A segment's job

  /** The environment of one message: the sound list, the abstract `isnumeric`
      and number-to-words conversion, the repetition ceiling, and the uuid
      names drawn for the temporary speech files (by segment and token
      position) and for segment outputs (by segment position). */
  datatype Env = Env(
    sounds: seq<string>,
    isNumeric: char -> bool,
    convert: string -> Numbers.Conversion,
    ceiling: Option<int>,
    speechName: (nat, nat) -> string,
    outputName: nat -> string)

  /** A temporary file in `tmp`. */
  function TempFile(name: string): (path: string)
    ensures StartsWith(path, "tmp/")
  {
    "tmp/" + name + ".wav"
  }

  /** One input file with the clip it holds. */
  datatype Input = Input(path: string, clip: Clip)

  /** The token loop of `process_segment` for segment number `seg`. */
  function Inputs(tokens: seq<string>, seg: nat, env: Env): (r: seq<Input>)
    ensures |r| == |tokens|
    ensures forall i :: 0 <= i < |r| ==>
      r[i].clip == Resolve(tokens[i], env.sounds, env.isNumeric, env.convert)
  {
    seq(|tokens|, i requires 0 <= i < |tokens| =>
      var c := Resolve(tokens[i], env.sounds, env.isNumeric, env.convert);
      Input(if c.Library? then c.path else TempFile(env.speechName(seg, i)), c))
  }

  function Paths(inputs: seq<Input>): (r: seq<string>)
    ensures |r| == |inputs|
    ensures forall i :: 0 <= i < |r| ==> r[i] == inputs[i].path
  {
    seq(|inputs|, i requires 0 <= i < |inputs| => inputs[i].path)
  }

  /** Everything `process_segment` decides for one segment. */
  datatype Job = Job(
    inputs: seq<Input>,
    combine: Combine,
    chain: seq<Effects.Op>,
    output: string,
    removed: seq<string>)

  /** Everything `process_segment` does for segment number `seg`. The input
      files follow the tokens; they are combined in order and never as an
      empty list when the segment has tokens; the chain is the segment's
      effect chain; cleanup removes exactly the speech files and never a
      library file. */
  function ProcessSegment(s: Segmenter.Segment, seg: nat, env: Env): (j: Job)
    ensures |j.inputs| == |s.tokens|
    ensures forall i :: 0 <= i < |j.inputs| ==>
      j.inputs[i].clip == Resolve(s.tokens[i], env.sounds, env.isNumeric, env.convert)
    ensures CombinedFiles(j.combine) == Paths(j.inputs)
    ensures |s.tokens| > 0 ==> !j.combine.NoFiles?
    ensures j.chain == Effects.EffectChain(s.effects, env.ceiling)
    ensures forall i :: 0 <= i < |j.inputs| ==>
      (j.inputs[i].path in j.removed <==> j.inputs[i].clip.Speech?)
    ensures forall f :: f in j.removed ==> f in Paths(j.inputs) && !StartsWith(f, "sounds")
  {
    var inputs := Inputs(s.tokens, seg, env);
    InputsLayout(s.tokens, seg, env);
    RemovedSpeechOnly(inputs);
    Job(inputs,
        Combined(Paths(inputs)),
        Effects.EffectChain(s.effects, env.ceiling),
        TempFile(env.outputName(seg)),
        Removed(Paths(inputs)))
  }

  /** Library inputs lie under `sounds/`, speech inputs are `.wav` files in `tmp`. */
  lemma InputPaths(tokens: seq<string>, seg: nat, env: Env)
    ensures forall i :: 0 <= i < |tokens| ==>
      var input := Inputs(tokens, seg, env)[i];
      && (IsSoundName(tokens[i], env.sounds) ==>
            |tokens[i]| >= 2 && input.path == "sounds/" + tokens[i][1..|tokens[i]| - 1] + ".wav")
      && (!IsSoundName(tokens[i], env.sounds) ==>
            input.path == TempFile(env.speechName(seg, i)))
  {
    forall i | 0 <= i < |tokens| && IsSoundName(tokens[i], env.sounds)
      ensures |tokens[i]| >= 2
    {
      BracketedLength(tokens[i]);
    }
  }

  /** Removal follows the clip kind: speech files go, library files stay. */
  lemma RemovedSpeechOnly(inputs: seq<Input>)
    requires forall i :: 0 <= i < |inputs| ==>
      (inputs[i].clip.Library? ==> StartsWith(inputs[i].path, "sounds/")) &&
      (inputs[i].clip.Speech? ==> StartsWith(inputs[i].path, "tmp/"))
    ensures forall i :: 0 <= i < |inputs| ==>
      (inputs[i].path in Removed(Paths(inputs)) <==> inputs[i].clip.Speech?)
    ensures forall f :: f in Removed(Paths(inputs)) ==> f in Paths(inputs) && !StartsWith(f, "sounds")
  {
    var paths := Paths(inputs);
    forall i | 0 <= i < |inputs|
      ensures inputs[i].path in Removed(paths) <==> inputs[i].clip.Speech?
    {
      var p := inputs[i].path;
      assert p == paths[i];
      if inputs[i].clip.Library? {
        assert p[..6] == "sounds/"[..6];
      } else {
        assert p[0] == p[..4][0] == 't';
      }
    }
  }

  /** Library inputs have a `sounds/` path and speech inputs a `tmp/` one. */
  lemma InputsLayout(tokens: seq<string>, seg: nat, env: Env)
    ensures var inputs := Inputs(tokens, seg, env);
      forall i :: 0 <= i < |inputs| ==>
        (inputs[i].clip.Library? ==> StartsWith(inputs[i].path, "sounds/")) &&
        (inputs[i].clip.Speech? ==> StartsWith(inputs[i].path, "tmp/"))
  {
    var inputs := Inputs(tokens, seg, env);
    forall i | 0 <= i < |inputs|
      ensures inputs[i].clip.Library? ==> StartsWith(inputs[i].path, "sounds/")
      ensures inputs[i].clip.Speech? ==> StartsWith(inputs[i].path, "tmp/")
    {
      var c := Resolve(tokens[i], env.sounds, env.isNumeric, env.convert);
      assert inputs[i] == Input(if c.Library? then c.path else TempFile(env.speechName(seg, i)), c);
    }
  }

  // ---------------------------------------------------------------------------
  // The sentence test

  /** On one line of text the test is just "ends in `.`, `!` or `?`", and the
      punctuation step then always yields such a sentence, keeps the text as
      its prefix, and does nothing the second time. */
  lemma PunctuateSingleLine(s: string)
    requires SingleLine(s)
    ensures EndsSentence(s) <==> |s| > 0 && IsStop(s[|s| - 1])
    ensures Punctuate(s) == s <==> |s| > 0 && IsStop(s[|s| - 1])
    ensures EndsSentence(Punctuate(s))
    ensures Punctuate(Punctuate(s)) == Punctuate(s)
  {
    var t := s + ".";
    assert t[..|t| - 1] == s;
    if |s| > 0 {
      assert s[..|s| - 1] == s[..|s| - 1];
    }
  }

  // ---------------------------------------------------------------------------
  // The clip that is played

  /** What `sound_play` plays for a message: nothing, or `output.wav` made from the segment outputs. */
  datatype Playback = Silent | Play(source: Combine)

  /** The final choice (sound_play.py, lines 75-83). */
  function FinalClip(outputs: seq<string>): (p: Playback)
    ensures p.Silent? <==> |outputs| == 0
    ensures p.Play? ==> CombinedFiles(p.source) == outputs
    ensures p.Play? ==> (p.source.Copy? <==> |outputs| == 1)
  {
    if |outputs| == 0 then Silent else Play(Combined(outputs))
  }
}
