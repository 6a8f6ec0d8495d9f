/** The sound library listing of list_sounds.py: every `.wav` file of the
    `sounds` directory becomes an entry `[name]`, the form in which chat
    messages refer to it. The directory listing is an input sequence. */
module SoundLibrary {
  import opened Basics

  /** `filename.endswith('.wav')`. */
  predicate IsWav(filename: string) {
    EndsWith(filename, ".wav")
  }

  /** The entry for a `.wav` file: its name without the suffix, in brackets. */
  function Entry(filename: string): (e: string)
    requires IsWav(filename)
    ensures |e| == |filename| - 2
    ensures StartsWith(e, "[") && EndsWith(e, "]")
  {
    "[" + filename[..|filename| - 4] + "]"
  }

  /** The loop over the listing: entries for the `.wav` files, in listing order. */
  function ListSounds(filenames: seq<string>): (r: seq<string>)
    ensures |r| <= |filenames|
    ensures forall i :: 0 <= i < |r| ==> StartsWith(r[i], "[") && EndsWith(r[i], "]")
    decreases |filenames|
  {
    if |filenames| == 0 then []
    else
      var f := filenames[|filenames| - 1];
      ListSounds(filenames[..|filenames| - 1]) + (if IsWav(f) then [Entry(f)] else [])
  }

  /** How many names of the listing end in `.wav`. */
  function WavCount(filenames: seq<string>): nat
    decreases |filenames|
  {
    if |filenames| == 0 then 0
    else WavCount(filenames[..|filenames| - 1]) + (if IsWav(filenames[|filenames| - 1]) then 1 else 0)
  }

  /** Inside the brackets an entry holds the file name minus `.wav`, so
      `'sounds/' + entry[1:-1] + '.wav'` names the very file it came from. */
  lemma EntryRoundTrip(filename: string)
    requires IsWav(filename)
    ensures Entry(filename)[1..|Entry(filename)| - 1] == filename[..|filename| - 4]
    ensures "sounds/" + Entry(filename)[1..|Entry(filename)| - 1] + ".wav" == "sounds/" + filename
  {
    var e := Entry(filename);
    assert e[1..|e| - 1] == filename[..|filename| - 4];
    assert filename == filename[..|filename| - 4] + ".wav" by {
      assert filename[|filename| - 4..] == ".wav";
    }
  }

  /** Different `.wav` files give different entries. */
  lemma EntryInjective(f: string, g: string)
    requires IsWav(f) && IsWav(g) && Entry(f) == Entry(g)
    ensures f == g
  {
    EntryRoundTrip(f);
    EntryRoundTrip(g);
    assert "sounds/" + f == "sounds/" + g;
    assert f == ("sounds/" + f)[7..];
    assert g == ("sounds/" + g)[7..];
  }

  /** The listing of two parts is the listing of the first followed by that of
      the second: entries keep the order of the directory listing. */
  lemma {:induction false} ListSoundsAppend(a: seq<string>, b: seq<string>)
    ensures ListSounds(a + b) == ListSounds(a) + ListSounds(b)
    decreases |b|
  {
    if |b| == 0 {
      assert a + b == a;
    } else {
      var init := b[..|b| - 1];
      assert (a + b)[..|a + b| - 1] == a + init;
      ListSoundsAppend(a, init);
    }
  }

  /** Exactly one entry per `.wav` file, and an entry for nothing else. */
  lemma {:induction false} ListSoundsEntries(filenames: seq<string>)
    ensures |ListSounds(filenames)| == WavCount(filenames)
    ensures forall e :: e in ListSounds(filenames) <==>
      exists f :: f in filenames && IsWav(f) && e == Entry(f)
    decreases |filenames|
  {
    if |filenames| > 0 {
      var init := filenames[..|filenames| - 1];
      var f := filenames[|filenames| - 1];
      ListSoundsEntries(init);
      assert filenames == init + [f];
      forall e
        ensures e in ListSounds(filenames) <==> exists g :: g in filenames && IsWav(g) && e == Entry(g)
      {
        if e in ListSounds(filenames) && e !in ListSounds(init) {
          assert f in filenames && IsWav(f) && e == Entry(f);
        }
        if g :| g in filenames && IsWav(g) && e == Entry(g) {
          if g != f {
            assert g in init;
          }
        }
      }
    }
  }
}
