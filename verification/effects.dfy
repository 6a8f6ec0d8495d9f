/** The effect planner of `apply_effect` (sound_play.py): effect ids are
    counted per id in first-occurrence order (Python's `Counter`), each count
    is clamped to the optional ceiling `max_effect_repetitions`, and the
    transform chain applies every repetition of one id before the next id.
    Each call on the sox transformer is an abstract `Op`; floating-point
    arguments are recorded as integer hundredths (`0.5` is 50). */
module Effects {
  import opened Basics

  /** One call on the transformer, with the arguments the source passes
      (`None` where it leaves the library default). */
  datatype Op =
    | Reverb(reverberance: Option<int>, roomScale: Option<int>, wetGain: Option<int>)
    | Pitch(semitones: int)
    | Highpass(frequency: int)
    | Lowpass(frequency: int)
    | Gain(db: int)
    | Pad(startHundredths: int, endHundredths: int)
    | Reverse
    | Chorus
    | Tempo(factorHundredths: int)

  /** The static table from effect id to the calls it makes; ids outside 1..12 make none. */
  function EffectOps(id: int): (ops: seq<Op>)
    ensures |ops| > 0 <==> 1 <= id <= 12
  {
    if id == 1 then [Reverb(Some(50), Some(25), None)]            // room echo
    else if id == 2 then [Reverb(Some(75), Some(75), Some(1))]    // hall echo
    else if id == 3 then [Reverb(Some(5), Some(5), None)]         // outside echo
    else if id == 4 then [Pitch(-5)]                              // pitch down
    else if id == 5 then [Pitch(5)]                               // pitch up
    else if id == 6 then [Highpass(800), Gain(2)]                 // telephone
    else if id == 7 then [Lowpass(1200), Gain(1)]                 // muffled
    else if id == 8 then [Gain(-20)]                              // quieter
    else if id == 9 then                                          // ghost
      [Pad(50, 50), Reverse, Reverb(Some(50), None, Some(1)), Reverse, Reverb(None, None, None)]
    else if id == 10 then [Chorus]                                // chorus
    else if id == 11 then [Tempo(50)]                             // slow down
    else if id == 12 then [Tempo(150)]                            // speed up
    else []
  }

  /** How many times `x` occurs in `ids`. */
  function Occurrences(ids: seq<int>, x: int): nat
    decreases |ids|
  {
    if |ids| == 0 then 0
    else Occurrences(ids[..|ids| - 1], x) + (if ids[|ids| - 1] == x then 1 else 0)
  }

  /** The distinct ids, in order of first occurrence (the key order of a `Counter`). */
  function Distinct(ids: seq<int>): (d: seq<int>)
    ensures forall x :: x in d <==> x in ids
    ensures forall i, j :: 0 <= i < j < |d| ==> d[i] != d[j]
    decreases |ids|
  {
    if |ids| == 0 then []
    else
      var d := Distinct(ids[..|ids| - 1]);
      var x := ids[|ids| - 1];
      assert forall y :: y in ids <==> y in ids[..|ids| - 1] || y == x by {
        assert ids == ids[..|ids| - 1] + [x];
      }
      if x in d then d else d + [x]
  }

  /** The count kept for one id: `count`, lowered to the ceiling when it exceeds it. */
  function Clamp(count: int, ceiling: Option<int>): int {
    if ceiling.Some? && count > ceiling.value then ceiling.value else count
  }

  /** `Counter(effect_ids)` followed by the clamping loop: (id, count) pairs in key order. */
  function EffectCounts(ids: seq<int>, ceiling: Option<int>): (r: seq<(int, int)>)
    ensures |r| == |Distinct(ids)|
    ensures forall i :: 0 <= i < |r| ==> r[i].0 == Distinct(ids)[i]
  {
    Tally(Distinct(ids), ids, ceiling)
  }

  /** The clamped count of every id of `keys` among `ids`, in the order of `keys`. */
  function Tally(keys: seq<int>, ids: seq<int>, ceiling: Option<int>): (r: seq<(int, int)>)
    ensures |r| == |keys|
    ensures forall i :: 0 <= i < |r| ==> r[i].0 == keys[i]
  {
    seq(|keys|, i requires 0 <= i < |keys| => (keys[i], Clamp(Occurrences(ids, keys[i]), ceiling)))
  }

  /** `ops` repeated `n` times (`range(n)` is empty when `n` is not positive). */
  function Repeat(ops: seq<Op>, n: int): seq<Op>
    decreases n
  {
    if n <= 0 then [] else ops + Repeat(ops, n - 1)
  }

  /** The transform chain: for each (id, count) in order, the id's calls `count` times. */
  function Chain(counts: seq<(int, int)>): seq<Op>
    decreases |counts|
  {
    if |counts| == 0 then []
    else Chain(counts[..|counts| - 1]) + Repeat(EffectOps(counts[|counts| - 1].0), counts[|counts| - 1].1)
  }

  /** The chain built for one segment's effect ids. Without a ceiling it holds
      exactly the calls of every marker once each, only regrouped so that the
      repetitions of one id are adjacent. */
  function EffectChain(ids: seq<int>, ceiling: Option<int>): (r: seq<Op>)
    ensures ceiling.None? ==> multiset(r) == multiset(PerMarker(ids))
  {
    TallyRegroups(Distinct(ids), ids);
    Chain(EffectCounts(ids, ceiling))
  }

  // ---------------------------------------------------------------------
  // Counting and clamping
  // ---------------------------------------------------------------------

  /** `Occurrences` is the multiplicity of `x` in `ids`. */
  lemma {:induction false} OccurrencesCount(ids: seq<int>, x: int)
    ensures Occurrences(ids, x) == multiset(ids)[x]
    decreases |ids|
  {
    if |ids| > 0 {
      var p := ids[..|ids| - 1];
      assert ids == p + [ids[|ids| - 1]];
      OccurrencesCount(p, x);
    }
  }

  /** Each distinct id gets its number of occurrences; with a ceiling, no count
      exceeds it, and a count already within it is kept as it is. */
  lemma CountsRespectCeiling(ids: seq<int>, ceiling: Option<int>)
    ensures forall i :: 0 <= i < |EffectCounts(ids, ceiling)| ==>
      var (id, n) := EffectCounts(ids, ceiling)[i];
      && id in ids
      && (ceiling.None? ==> n == multiset(ids)[id])
      && (ceiling.Some? ==> n <= ceiling.value)
      && (ceiling.Some? && multiset(ids)[id] <= ceiling.value ==> n == multiset(ids)[id])
      && (ceiling.Some? && multiset(ids)[id] > ceiling.value ==> n == ceiling.value)
  {
    forall x {
      OccurrencesCount(ids, x);
    }
  }

  /** The position of the first occurrence of `x` in `ids`. */
  function FirstIndex(ids: seq<int>, x: int): (k: nat)
    requires x in ids
    ensures k < |ids| && ids[k] == x && x !in ids[..k]
    decreases |ids|
  {
    var p := ids[..|ids| - 1];
    if x in p then
      var k := FirstIndex(p, x);
      assert ids[..k] == p[..k];
      k
    else
      assert ids[..|ids| - 1] == p;
      |ids| - 1
  }

  /** The ids are counted in order of their first occurrence in the segment. */
  lemma {:induction false} DistinctFirstOccurrenceOrder(ids: seq<int>)
    ensures forall i, j :: 0 <= i < j < |Distinct(ids)| ==>
      FirstIndex(ids, Distinct(ids)[i]) < FirstIndex(ids, Distinct(ids)[j])
    decreases |ids|
  {
    if |ids| > 0 {
      var p := ids[..|ids| - 1];
      var x := ids[|ids| - 1];
      DistinctFirstOccurrenceOrder(p);
      var d := Distinct(ids);
      assert forall y :: y in p ==> FirstIndex(ids, y) == FirstIndex(p, y);
      if x !in Distinct(p) {
        assert FirstIndex(ids, x) == |p|;
      }
    }
  }

  // ---------------------------------------------------------------------
  // The transform chain
  // ---------------------------------------------------------------------

  /** Reference order: every marker's calls once, in marker order, with no counting. */
  function PerMarker(ids: seq<int>): seq<Op>
    decreases |ids|
  {
    if |ids| == 0 then [] else PerMarker(ids[..|ids| - 1]) + EffectOps(ids[|ids| - 1])
  }

  lemma RepeatOnce(ops: seq<Op>, n: int)
    requires n >= 0
    ensures multiset(Repeat(ops, n + 1)) == multiset(Repeat(ops, n)) + multiset(ops)
  {
  }

  lemma ChainAppend(counts: seq<(int, int)>, c: (int, int))
    ensures Chain(counts + [c]) == Chain(counts) + Repeat(EffectOps(c.0), c.1)
  {
    assert (counts + [c])[..|counts|] == counts;
  }

  lemma TallyAppend(keys: seq<int>, k: int, ids: seq<int>, ceiling: Option<int>)
    ensures Tally(keys + [k], ids, ceiling) == Tally(keys, ids, ceiling) + [(k, Clamp(Occurrences(ids, k), ceiling))]
  {
  }

  lemma TallyPrefix(keys: seq<int>, ids: seq<int>, ceiling: Option<int>)
    requires |keys| > 0
    ensures Chain(Tally(keys, ids, ceiling)) ==
      Chain(Tally(keys[..|keys| - 1], ids, ceiling)) +
      Repeat(EffectOps(keys[|keys| - 1]), Clamp(Occurrences(ids, keys[|keys| - 1]), ceiling))
  {
    var p := keys[..|keys| - 1];
    var k := keys[|keys| - 1];
    assert keys == p + [k];
    TallyAppend(p, k, ids, ceiling);
    ChainAppend(Tally(p, ids, ceiling), (k, Clamp(Occurrences(ids, k), ceiling)));
  }

  predicate NoDuplicates(d: seq<int>) {
    forall i, j :: 0 <= i < j < |d| ==> d[i] != d[j]
  }

  /** Counting one more marker leaves the counts of the other keys alone. */
  lemma TallyOthers(keys: seq<int>, ids: seq<int>, x: int, ceiling: Option<int>)
    requires x !in keys
    ensures Tally(keys, ids + [x], ceiling) == Tally(keys, ids, ceiling)
  {
    forall i | 0 <= i < |keys|
      ensures Occurrences(ids + [x], keys[i]) == Occurrences(ids, keys[i])
    {
      OccurrencesAppend(ids, x, keys[i]);
    }
  }

  /** One more marker `x` (a key of `keys`) adds its calls once to the uncapped chain. */
  lemma {:induction false} TallyOneMore(keys: seq<int>, ids: seq<int>, x: int)
    requires NoDuplicates(keys) && x in keys
    ensures multiset(Chain(Tally(keys, ids + [x], None))) ==
      multiset(Chain(Tally(keys, ids, None))) + multiset(EffectOps(x))
    decreases |keys|
  {
    var p := keys[..|keys| - 1];
    var k := keys[|keys| - 1];
    assert keys == p + [k];
    if k == x {
      assert x !in p;
      TallyOneMoreLast(p, ids, x);
    } else {
      assert x in p && NoDuplicates(p);
      TallyOneMore(p, ids, x);
      TallyOneMoreEarlier(p, k, ids, x);
    }
  }

  lemma TallyOneMoreLast(p: seq<int>, ids: seq<int>, x: int)
    requires x !in p
    ensures multiset(Chain(Tally(p + [x], ids + [x], None))) ==
      multiset(Chain(Tally(p + [x], ids, None))) + multiset(EffectOps(x))
  {
    var n := Occurrences(ids, x);
    assert (p + [x])[..|p|] == p;
    TallyPrefix(p + [x], ids + [x], None);
    TallyPrefix(p + [x], ids, None);
    TallyOthers(p, ids, x, None);
    OccurrencesAppend(ids, x, x);
    RepeatOnce(EffectOps(x), n);
  }

  lemma TallyOneMoreEarlier(p: seq<int>, k: int, ids: seq<int>, x: int)
    requires k != x
    requires multiset(Chain(Tally(p, ids + [x], None))) ==
      multiset(Chain(Tally(p, ids, None))) + multiset(EffectOps(x))
    ensures multiset(Chain(Tally(p + [k], ids + [x], None))) ==
      multiset(Chain(Tally(p + [k], ids, None))) + multiset(EffectOps(x))
  {
    assert (p + [k])[..|p|] == p;
    TallyPrefix(p + [k], ids + [x], None);
    TallyPrefix(p + [k], ids, None);
    OccurrencesAppend(ids, x, k);
  }

  lemma {:induction false} TallyRegroups(keys: seq<int>, ids: seq<int>)
    requires NoDuplicates(keys)
    requires forall x :: x in ids ==> x in keys
    ensures multiset(Chain(Tally(keys, ids, None))) == multiset(PerMarker(ids))
    decreases |ids|
  {
    if |ids| == 0 {
      assert forall i :: 0 <= i < |keys| ==> Occurrences(ids, keys[i]) == 0;
      TallyEmpty(keys, ids);
    } else {
      var p := ids[..|ids| - 1];
      var x := ids[|ids| - 1];
      assert ids == p + [x];
      TallyRegroups(keys, p);
      TallyOneMore(keys, p, x);
    }
  }

  lemma {:induction false} TallyEmpty(keys: seq<int>, ids: seq<int>)
    requires |ids| == 0
    ensures Chain(Tally(keys, ids, None)) == []
    decreases |keys|
  {
    if |keys| > 0 {
      TallyPrefix(keys, ids, None);
      TallyEmpty(keys[..|keys| - 1], ids);
    }
  }

  // ---------------------------------------------------------------------
  // Unknown ids
  // ---------------------------------------------------------------------

  predicate Known(id: int) {
    1 <= id <= 12
  }

  /** The ids of `ids` that the effect table knows, in order. */
  function KnownIds(ids: seq<int>): (r: seq<int>)
    ensures |r| <= |ids|
    ensures forall x :: x in r <==> x in ids && Known(x)
    decreases |ids|
  {
    if |ids| == 0 then []
    else
      var p := ids[..|ids| - 1];
      var x := ids[|ids| - 1];
      assert ids == p + [x];
      KnownIds(p) + (if Known(x) then [x] else [])
  }

  /** Filtering keeps the order: the known ids of a concatenation are those of
      its first part followed by those of its second. */
  lemma {:induction false} KnownIdsAppend(a: seq<int>, b: seq<int>)
    ensures KnownIds(a + b) == KnownIds(a) + KnownIds(b)
    decreases |b|
  {
    if |b| == 0 {
      assert a + b == a;
    } else {
      var ab := a + b;
      var p := b[..|b| - 1];
      var x := b[|b| - 1];
      var last: seq<int> := if Known(x) then [x] else [];
      assert ab[..|ab| - 1] == a + p;
      assert ab[|ab| - 1] == x;
      assert KnownIds(ab) == KnownIds(a + p) + last;
      assert KnownIds(b) == KnownIds(p) + last;
      KnownIdsAppend(a, p);
      AppendAssoc(KnownIds(a), KnownIds(p), last);
    }
  }

  lemma {:induction false} KnownOccurrences(ids: seq<int>, x: int)
    requires Known(x)
    ensures Occurrences(KnownIds(ids), x) == Occurrences(ids, x)
    decreases |ids|
  {
    if |ids| > 0 {
      var p := ids[..|ids| - 1];
      var y := ids[|ids| - 1];
      KnownOccurrences(p, x);
      assert Occurrences(ids, x) == Occurrences(p, x) + (if y == x then 1 else 0);
      if Known(y) {
        assert KnownIds(ids) == KnownIds(p) + [y];
        OccurrencesAppend(KnownIds(p), y, x);
      } else {
        assert KnownIds(ids) == KnownIds(p);
      }
    }
  }

  lemma OccurrencesAppend(ids: seq<int>, y: int, x: int)
    ensures Occurrences(ids + [y], x) == Occurrences(ids, x) + (if y == x then 1 else 0)
  {
    assert (ids + [y])[..|ids|] == ids;
  }

  lemma {:induction false} DistinctKnown(ids: seq<int>)
    ensures Distinct(KnownIds(ids)) == KnownIds(Distinct(ids))
    decreases |ids|
  {
    if |ids| > 0 {
      var p := ids[..|ids| - 1];
      var x := ids[|ids| - 1];
      DistinctKnown(p);
      var kp := KnownIds(p);
      if Known(x) {
        assert KnownIds(ids) == kp + [x];
        assert (kp + [x])[..|kp|] == kp;
        DistinctKnownStep(Distinct(p), x);
      } else {
        assert KnownIds(ids) == kp;
        if x !in Distinct(p) {
          assert Distinct(ids) == Distinct(p) + [x];
          DistinctKnownStep(Distinct(p), x);
        } else {
          assert Distinct(ids) == Distinct(p);
        }
      }
    }
  }

  lemma DistinctKnownStep(d: seq<int>, x: int)
    ensures KnownIds(d + [x]) == KnownIds(d) + (if Known(x) then [x] else [])
  {
    assert (d + [x])[..|d|] == d;
  }

  /** Dropping the unknown keys drops only empty blocks from the chain. */
  lemma {:induction false} KnownKeysChain(keys: seq<int>, ids: seq<int>, ceiling: Option<int>)
    ensures Chain(Tally(KnownIds(keys), ids, ceiling)) == Chain(Tally(keys, ids, ceiling))
    decreases |keys|
  {
    if |keys| > 0 {
      var p := keys[..|keys| - 1];
      var k := keys[|keys| - 1];
      var block := Repeat(EffectOps(k), Clamp(Occurrences(ids, k), ceiling));
      KnownKeysChain(p, ids, ceiling);
      TallyPrefix(keys, ids, ceiling);
      KnownKeysStep(keys, ids, ceiling);
      if !Known(k) {
        UnknownBlockEmpty(k, Clamp(Occurrences(ids, k), ceiling));
        AppendEmpty(Chain(Tally(p, ids, ceiling)));
      }
    }
  }

  /** The chain of the known keys grows by the last key's block exactly when
      that key is known. */
  lemma KnownKeysStep(keys: seq<int>, ids: seq<int>, ceiling: Option<int>)
    requires |keys| > 0
    ensures var p := keys[..|keys| - 1];
      var k := keys[|keys| - 1];
      Chain(Tally(KnownIds(keys), ids, ceiling)) ==
        Chain(Tally(KnownIds(p), ids, ceiling)) +
        (if Known(k) then Repeat(EffectOps(k), Clamp(Occurrences(ids, k), ceiling)) else [])
  {
    var p := keys[..|keys| - 1];
    var k := keys[|keys| - 1];
    SplitLast(keys);
    DistinctKnownStep(p, k);
    var kk := KnownIds(keys);
    if Known(k) {
      DropLast(KnownIds(p), k);
      TallyPrefix(kk, ids, ceiling);
    } else {
      AppendEmpty(KnownIds(p));
      AppendEmpty(Chain(Tally(KnownIds(p), ids, ceiling)));
    }
  }

  /** An id outside the table contributes no call however often it repeats. */
  lemma UnknownBlockEmpty(k: int, n: int)
    requires !Known(k)
    ensures Repeat(EffectOps(k), n) == []
  {
    assert EffectOps(k) == [];
    RepeatEmpty(n);
  }

  lemma {:induction false} RepeatEmpty(n: int)
    ensures Repeat([], n) == []
    decreases n
  {
    if n > 0 {
      RepeatEmpty(n - 1);
    }
  }

  /** Ids outside 1..12 fall through the table: dropping them from the markers
      leaves the chain exactly as it was, with or without a ceiling. */
  lemma UnknownIdsContributeNothing(ids: seq<int>, ceiling: Option<int>)
    ensures EffectChain(KnownIds(ids), ceiling) == EffectChain(ids, ceiling)
  {
    var d := Distinct(ids);
    DistinctKnown(ids);
    forall i | 0 <= i < |KnownIds(d)|
      ensures Occurrences(KnownIds(ids), KnownIds(d)[i]) == Occurrences(ids, KnownIds(d)[i])
    {
      KnownOccurrences(ids, KnownIds(d)[i]);
    }
    assert Tally(KnownIds(d), KnownIds(ids), ceiling) == Tally(KnownIds(d), ids, ceiling);
    KnownKeysChain(d, ids, ceiling);
  }
}
