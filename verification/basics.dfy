/** Small shared vocabulary: optional values, results, and string predicates
    used by every part of the message-to-speech model. */
module Basics {

  /** A value that may be missing, e.g. an optional configuration ceiling. */
  datatype Option<T> = None | Some(value: T)

  /** The outcome of a step that can raise: `Err` carries what went wrong. */
  datatype Result<T, E> = Ok(value: T) | Err(error: E)

  predicate StartsWith(s: string, prefix: string) {
    |prefix| <= |s| && s[..|prefix|] == prefix
  }

  predicate EndsWith(s: string, suffix: string) {
    |suffix| <= |s| && s[|s| - |suffix|..] == suffix
  }

  /** True when `s` holds no newline character. */
  predicate SingleLine(s: string) {
    forall i :: 0 <= i < |s| ==> s[i] != '\n'
  }

  /** Concatenation of a sequence of sequences, in order (Python's `''.join`). */
  function Concat<T>(ss: seq<seq<T>>): (r: seq<T>)
    ensures |ss| == 0 ==> r == []
  {
    if |ss| == 0 then [] else Concat(ss[..|ss| - 1]) + ss[|ss| - 1]
  }

  lemma ConcatAppend<T>(ss: seq<seq<T>>, s: seq<T>)
    ensures Concat(ss + [s]) == Concat(ss) + s
  {
    assert (ss + [s])[..|ss|] == ss;
  }

  lemma {:induction false} ConcatPrepend<T>(s: seq<T>, ss: seq<seq<T>>)
    ensures Concat([s] + ss) == s + Concat(ss)
    decreases |ss|
  {
    if |ss| == 0 {
      assert [s] + ss == [s];
      assert Concat([s]) == Concat([s][..0]) + s;
    } else {
      var init := ss[..|ss| - 1];
      var last := ss[|ss| - 1];
      assert [s] + ss == ([s] + init) + [last];
      assert ss == init + [last];
      ConcatAppend([s] + init, last);
      ConcatPrepend(s, init);
      ConcatAppend(init, last);
    }
  }

  /** A concatenation is empty exactly when every part is. */
  lemma {:induction false} ConcatEmpty<T>(ss: seq<seq<T>>)
    ensures Concat(ss) == [] <==> forall i :: 0 <= i < |ss| ==> ss[i] == []
    decreases |ss|
  {
    if |ss| > 0 {
      ConcatEmpty(ss[..|ss| - 1]);
    }
  }

  lemma DropLast<T>(p: seq<T>, t: T)
    ensures (p + [t])[..|p|] == p
  {
  }

  lemma SplitLast<T>(p: seq<T>)
    requires |p| > 0
    ensures p[..|p| - 1] + [p[|p| - 1]] == p
  {
  }

  lemma DropAppend<T>(p: seq<T>, q: seq<T>, k: nat)
    requires k <= |p|
    ensures (p + q)[k..] == p[k..] + q
  {
  }

  lemma SuffixOfInit<T>(p: seq<T>, j: nat)
    requires j < |p|
    ensures p[j..] == p[..|p| - 1][j..] + [p[|p| - 1]]
  {
  }

  lemma AppendEmpty<T>(a: seq<T>)
    ensures a + [] == a
  {
  }

  lemma AppendAssoc<T>(a: seq<T>, b: seq<T>, c: seq<T>)
    ensures a + (b + c) == (a + b) + c
  {
  }
}
