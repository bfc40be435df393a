/** What several modules need and none owns: a maximum, sequence algebra and substring search. */
module Basics {

  function Max(a: nat, b: nat): (m: nat) {
    if a < b then b else a
  }

  lemma Associates<T>(a: seq<T>, b: seq<T>, c: seq<T>)
    ensures (a + b) + c == a + (b + c)
  {
  }

  lemma DropExtend<T>(s: seq<T>, e: T, k: nat)
    requires k <= |s|
    ensures (s + [e])[k..] == s[k..] + [e]
  {
  }

  /** `pat` stands in `s` at `i`. */
  predicate At(s: string, pat: string, i: nat) {
    i + |pat| <= |s| && s[i..i + |pat|] == pat
  }

  predicate Contains(s: string, pat: string) {
    exists i :: 0 <= i <= |s| - |pat| && At(s, pat, i)
  }

  lemma AtChar(s: string, pat: string, k: nat, j: nat)
    requires At(s, pat, k) && j < |pat|
    ensures s[k + j] == pat[j]
  {
    assert s[k..k + |pat|][j] == s[k + j];
  }

  function Mapped<A, B>(f: A -> B, s: seq<A>): (r: seq<B>)
    ensures |r| == |s|
  {
    if s == [] then [] else [f(s[0])] + Mapped(f, s[1..])
  }

  lemma {:induction false} MappedAt<A, B>(f: A -> B, s: seq<A>, i: nat)
    requires i < |s|
    ensures Mapped(f, s)[i] == f(s[i])
  {
    if i > 0 {
      MappedAt(f, s[1..], i - 1);
    }
  }
}
