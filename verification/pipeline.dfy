/** One message through `sound_play` (sound_play.py): tokenize, cut into
    segments, plan each segment's audio, and choose the clip to play. The
    asyncio queue, speech synthesis, sox and playback are not modelled. */
module Pipeline {
  import opened Basics
  import Tokenizer
  import Numbers
  import Segmenter
  import Effects
  import Assembly
  import SoundLibrary

  /** Everything decided for one message: a job per segment and the playback. */
  datatype Rendering = Rendering(jobs: seq<Assembly.Job>, playback: Assembly.Playback)

  function Jobs(segs: seq<Segmenter.Segment>, env: Assembly.Env): (jobs: seq<Assembly.Job>)
    ensures |jobs| == |segs|
    ensures forall i :: 0 <= i < |segs| ==> jobs[i] == Assembly.ProcessSegment(segs[i], i, env)
  {
    seq(|segs|, i requires 0 <= i < |segs| => Assembly.ProcessSegment(segs[i], i, env))
  }

  function Outputs(jobs: seq<Assembly.Job>): (r: seq<string>)
    ensures |r| == |jobs|
    ensures forall i :: 0 <= i < |jobs| ==> r[i] == jobs[i].output
  {
    seq(|jobs|, i requires 0 <= i < |jobs| => jobs[i].output)
  }

  /** The body of the queue loop for one message. `Err` would carry the token
      whose `int()` conversion raised, after which the loop logs the exception
      and plays nothing; no message split by the tokenizer reaches it. One job
      is made per segment, and something is played exactly when there is a
      job. */
  function HandleMessage(message: string, env: Assembly.Env): (r: Result<Rendering, string>)
    ensures r.Ok? && Segmenter.Segments(Tokenizer.SplitMessage(message)).Ok?
    ensures |r.value.jobs| == |Segmenter.Segments(Tokenizer.SplitMessage(message)).value|
    ensures r.value.playback.Silent? <==> |r.value.jobs| == 0
  {
    SegmentsNeverFail(message);
    var segs := Segmenter.Segments(Tokenizer.SplitMessage(message));
    match segs
    case Err(token) => Err(token)
    case Ok(segments) =>
      var jobs := Jobs(segments, env);
      Ok(Rendering(jobs, Assembly.FinalClip(Outputs(jobs))))
  }

  // ---------------------------------------------------------------------------
  // Tokenizer output never trips the marker test

  /** A token starting with `{` is a whole brace span. */
  predicate BraceClean(t: string) {
    |t| > 0 && t[0] == '{' ==> Segmenter.BraceSpan(t)
  }

  lemma {:induction false} MergeBraceClean(tokens: seq<string>)
    requires forall i :: 0 <= i < |tokens| ==> BraceClean(tokens[i])
    ensures forall i :: 0 <= i < |Tokenizer.Merge(tokens)| ==> BraceClean(Tokenizer.Merge(tokens)[i])
    decreases |tokens|
  {
    if |tokens| > 0 {
      var init := tokens[..|tokens| - 1];
      var t := tokens[|tokens| - 1];
      MergeBraceClean(init);
      var acc := Tokenizer.Merge(init);
      if |acc| > 0 && !Tokenizer.ClosesSpan(t) && !Tokenizer.OpensSpan(acc[|acc| - 1]) {
        var glued := acc[|acc| - 1] + " " + t;
        assert glued[0] != '{';
        assert Tokenizer.Merge(tokens) == acc[..|acc| - 1] + [glued];
      }
    }
  }

  /** Every token of `split_message` that starts with `{` is a brace span
      closed by its first `}`. */
  lemma SplitMessageBraceClean(text: string)
    ensures forall i :: 0 <= i < |Tokenizer.SplitMessage(text)| ==> BraceClean(Tokenizer.SplitMessage(text)[i])
  {
    var ls := Tokenizer.Lex(text);
    var raws := Tokenizer.Raws(ls);
    forall i | 0 <= i < |raws|
      ensures BraceClean(raws[i])
    {
      assert Tokenizer.WellFormed(ls[i]);
    }
    MergeBraceClean(raws);
  }

  /** The `int()` conversion in the segmentation loop never raises on the
      tokens of any message: every `{digits}` test that passes sees a whole
      `{digits}` token. */
  lemma SegmentsNeverFail(message: string)
    ensures Segmenter.Segments(Tokenizer.SplitMessage(message)).Ok?
  {
    var tokens := Tokenizer.SplitMessage(message);
    SplitMessageBraceClean(message);
    forall i | 0 <= i < |tokens|
      ensures Segmenter.KindOf(tokens[i]) != Segmenter.Malformed
    {
      if |tokens[i]| > 0 && tokens[i][0] == '{' {
        Segmenter.BraceSpanKind(tokens[i]);
      }
    }
    Segmenter.SegmentsFailOnlyOnMalformed(tokens);
  }

  // ---------------------------------------------------------------------------
  // End to end

  /** The clips of a job's inputs, in order. */
  function Clips(inputs: seq<Assembly.Input>): (r: seq<Assembly.Clip>)
    ensures |r| == |inputs|
    ensures forall i :: 0 <= i < |r| ==> r[i] == inputs[i].clip
  {
    seq(|inputs|, i requires 0 <= i < |inputs| => inputs[i].clip)
  }

  /** All input clips of all jobs, segment by segment. */
  function AllClips(jobs: seq<Assembly.Job>): seq<Assembly.Clip>
    decreases |jobs|
  {
    if |jobs| == 0 then [] else AllClips(jobs[..|jobs| - 1]) + Clips(jobs[|jobs| - 1].inputs)
  }

  /** Reference: each token resolved on its own, in order. */
  function ResolveAll(tokens: seq<string>, env: Assembly.Env): (r: seq<Assembly.Clip>)
    ensures |r| == |tokens|
    ensures forall i :: 0 <= i < |r| ==>
      r[i] == Assembly.Resolve(tokens[i], env.sounds, env.isNumeric, env.convert)
  {
    seq(|tokens|, i requires 0 <= i < |tokens| =>
      Assembly.Resolve(tokens[i], env.sounds, env.isNumeric, env.convert))
  }

  lemma ResolveAllAppend(a: seq<string>, b: seq<string>, env: Assembly.Env)
    ensures ResolveAll(a + b, env) == ResolveAll(a, env) + ResolveAll(b, env)
  {
  }

  lemma JobsStep(segs: seq<Segmenter.Segment>, env: Assembly.Env)
    requires |segs| > 0
    ensures AllClips(Jobs(segs, env)) ==
      AllClips(Jobs(segs[..|segs| - 1], env)) + ResolveAll(segs[|segs| - 1].tokens, env)
    ensures Segmenter.TokensOf(segs) == Segmenter.TokensOf(segs[..|segs| - 1]) + [segs[|segs| - 1].tokens]
  {
    var jobs := Jobs(segs, env);
    JobsPrefix(segs, env);
    ClipsOfJob(segs[|segs| - 1], |segs| - 1, env);
    assert AllClips(jobs) == AllClips(jobs[..|jobs| - 1]) + Clips(jobs[|jobs| - 1].inputs);
  }

  lemma JobsPrefix(segs: seq<Segmenter.Segment>, env: Assembly.Env)
    requires |segs| > 0
    ensures Jobs(segs, env)[..|segs| - 1] == Jobs(segs[..|segs| - 1], env)
  {
  }

  /** A job's input clips are its segment's tokens resolved one by one. */
  lemma ClipsOfJob(s: Segmenter.Segment, seg: nat, env: Assembly.Env)
    ensures Clips(Assembly.ProcessSegment(s, seg, env).inputs) == ResolveAll(s.tokens, env)
  {
  }

  lemma {:induction false} AllClipsResolve(segs: seq<Segmenter.Segment>, env: Assembly.Env)
    ensures AllClips(Jobs(segs, env)) == ResolveAll(Concat(Segmenter.TokensOf(segs)), env)
    decreases |segs|
  {
    if |segs| > 0 {
      var init := segs[..|segs| - 1];
      var s := segs[|segs| - 1];
      AllClipsResolve(init, env);
      JobsStep(segs, env);
      ConcatAppend(Segmenter.TokensOf(init), s.tokens);
      ResolveAllAppend(Concat(Segmenter.TokensOf(init)), s.tokens, env);
    }
  }

  /** For every message: the loop does not fail; the input clips of all jobs,
      in order, are exactly the text tokens (neither `{digits}` nor `{.}`)
      resolved one by one; every job has inputs; each job's chain is built
      from its segment's effect ids; and nothing is played exactly when the
      message has no text token, otherwise the segment outputs in order. */
  lemma HandleMessageSpec(message: string, env: Assembly.Env)
    ensures HandleMessage(message, env).Ok?
    ensures var r := HandleMessage(message, env).value;
      var tokens := Tokenizer.SplitMessage(message);
      var segs := Segmenter.Segments(tokens).value;
      && |r.jobs| == |segs|
      && AllClips(r.jobs) == ResolveAll(Segmenter.TextTokens(tokens), env)
      && (forall i :: 0 <= i < |r.jobs| ==> |r.jobs[i].inputs| > 0 && !r.jobs[i].combine.NoFiles?)
      && (forall i :: 0 <= i < |r.jobs| ==> r.jobs[i].chain == Effects.EffectChain(segs[i].effects, env.ceiling))
      && (r.playback.Silent? <==> |Segmenter.TextTokens(tokens)| == 0)
      && (r.playback.Play? ==> Assembly.CombinedFiles(r.playback.source) == Outputs(r.jobs))
  {
    var tokens := Tokenizer.SplitMessage(message);
    SegmentsNeverFail(message);
    var segs := Segmenter.Segments(tokens).value;
    AllClipsResolve(segs, env);
    var jobs := Jobs(segs, env);
    forall i | 0 <= i < |jobs|
      ensures |jobs[i].inputs| > 0 && !jobs[i].combine.NoFiles?
      ensures jobs[i].chain == Effects.EffectChain(segs[i].effects, env.ceiling)
    {
      assert jobs[i] == Assembly.ProcessSegment(segs[i], i, env);
    }
    ConcatEmpty(Segmenter.TokensOf(segs));
  }

  // ---------------------------------------------------------------------------
  // The library listing and the lookup

  /** A listed entry resolves to the very file it was listed from. */
  lemma ListedEntryResolves(filenames: seq<string>, f: string, isNumeric: char -> bool,
                            convert: string -> Numbers.Conversion)
    requires f in filenames && SoundLibrary.IsWav(f)
    ensures Assembly.Resolve(SoundLibrary.Entry(f), SoundLibrary.ListSounds(filenames), isNumeric, convert)
            == Assembly.Library("sounds/" + f)
  {
    SoundLibrary.ListSoundsEntries(filenames);
    SoundLibrary.EntryRoundTrip(f);
  }

  /** Every library file a token resolves to is a `.wav` file of the listing. */
  lemma LibraryClipsAreListed(filenames: seq<string>, token: string, isNumeric: char -> bool,
                              convert: string -> Numbers.Conversion)
    requires Assembly.Resolve(token, SoundLibrary.ListSounds(filenames), isNumeric, convert).Library?
    ensures exists f :: (f in filenames && SoundLibrary.IsWav(f) &&
      Assembly.Resolve(token, SoundLibrary.ListSounds(filenames), isNumeric, convert).path == "sounds/" + f)
  {
    SoundLibrary.ListSoundsEntries(filenames);
    var f :| f in filenames && SoundLibrary.IsWav(f) && token == SoundLibrary.Entry(f);
    SoundLibrary.EntryRoundTrip(f);
  }
}
