/** Text in which none of the budget reader's patterns can begin. */
module CalmText {
  import opened Budget

  /** No match of a pattern starting with `c`, `d` can start in `s`, alone or followed by other text. */
  predicate NoStart(s: string, c: char, d: char) {
    forall i :: 0 <= i < |s| && s[i] == c ==> i + 1 < |s| && s[i + 1] != d
  }

  /** No `c` is followed by `d`, in either case, and the text stays on one line. */
  predicate Calm(s: string, c: char, d: char) {
    && (forall i :: 0 <= i < |s| - 1 && Lower(s[i]) == c ==> Lower(s[i + 1]) != d)
    && '\n' !in s
  }

  /** The letter pairs that open the reader's patterns, and the second pair of its longest one. */
  predicate Telling(c: char, d: char) {
    (c == 'r' && d == 'x') || (c == 's' && d == 'w') || (c == 'w' && d == 'i') || (c == 'i' && d == 'p')
  }

  lemma CalmJoin(a: string, b: string, c: char, d: char)
    requires Calm(a, c, d) && Calm(b, c, d)
    requires a == "" || b == "" || Lower(a[|a| - 1]) != c || Lower(b[0]) != d
    ensures Calm(a + b, c, d)
  {
  }

  /**
   Text in which no status pattern of the reader can start. With `wi` and `ip` it also lacks the first or
   the second pair of letters of "wipe: success".
   */
  predicate Tame(s: string, wi: bool, ip: bool) {
    Calm(s, 'r', 'x') && Calm(s, 's', 'w') && (wi ==> Calm(s, 'w', 'i')) && (ip ==> Calm(s, 'i', 'p'))
  }

  /** The last letter of `a` and the first of `b` are not a pair of any pattern. */
  predicate Apart(a: string, b: string) {
    a == "" || b == "" || Lower(a[|a| - 1]) !in {'r', 's', 'w', 'i'} || Lower(b[0]) !in {'x', 'w', 'i', 'p'}
  }

  lemma TameJoin(a: string, b: string, wi: bool, ip: bool)
    requires Tame(a, wi, ip) && Tame(b, wi, ip) && Apart(a, b)
    ensures Tame(a + b, wi, ip)
  {
    CalmJoin(a, b, 'r', 'x');
    CalmJoin(a, b, 's', 'w');
    if wi {
      CalmJoin(a, b, 'w', 'i');
    }
    if ip {
      CalmJoin(a, b, 'i', 'p');
    }
  }

  /** Two letters, in either case, that are one of the pairs. */
  predicate Pair(a: char, b: char, wi: bool, ip: bool) {
    match a
    case 'r' => b == 'x' || b == 'X'
    case 'R' => b == 'x' || b == 'X'
    case 's' => b == 'w' || b == 'W'
    case 'S' => b == 'w' || b == 'W'
    case 'w' => wi && (b == 'i' || b == 'I')
    case 'W' => wi && (b == 'i' || b == 'I')
    case 'i' => ip && (b == 'p' || b == 'P')
    case 'I' => ip && (b == 'p' || b == 'P')
    case _ => false
  }

  predicate TameAt(s: string, wi: bool, ip: bool, i: nat)
    requires i < |s|
  {
    s[i] != '\n' && (i + 1 < |s| ==> !Pair(s[i], s[i + 1], wi, ip))
  }

  /** The same, as a walk over the text, two letters at a step. */
  predicate Walk(s: string, wi: bool, ip: bool, i: nat)
    decreases |s| - i
  {
    i >= |s| || (TameAt(s, wi, ip, i) && (i + 1 >= |s| || (TameAt(s, wi, ip, i + 1) && Walk(s, wi, ip, i + 2))))
  }

  lemma {:induction false} Walked(s: string, wi: bool, ip: bool, i: nat, k: nat)
    requires i <= k < |s| && Walk(s, wi, ip, i)
    ensures TameAt(s, wi, ip, k)
    decreases |s| - i
  {
    if k > i + 1 {
      Walked(s, wi, ip, i + 2, k);
    }
  }

  predicate Word(w: string, wi: bool, ip: bool) {
    Walk(w, wi, ip, 0)
  }

  lemma WordIsTame(w: string, wi: bool, ip: bool)
    requires Word(w, wi, ip)
    ensures Tame(w, wi, ip)
  {
    forall k | 0 <= k < |w|
      ensures TameAt(w, wi, ip, k)
    {
      Walked(w, wi, ip, 0, k);
    }
    CalmByPairs(w, wi, ip, 'r', 'x');
    CalmByPairs(w, wi, ip, 's', 'w');
    if wi {
      CalmByPairs(w, wi, ip, 'w', 'i');
    }
    if ip {
      CalmByPairs(w, wi, ip, 'i', 'p');
    }
  }

  lemma CalmByPairs(w: string, wi: bool, ip: bool, c: char, d: char)
    requires forall k :: 0 <= k < |w| ==> TameAt(w, wi, ip, k)
    requires (c == 'r' && d == 'x') || (c == 's' && d == 'w')
             || (wi && c == 'w' && d == 'i') || (ip && c == 'i' && d == 'p')
    ensures Calm(w, c, d)
  {
    forall i | 0 <= i < |w| - 1 && Lower(w[i]) == c
      ensures Lower(w[i + 1]) != d
    {
      assert TameAt(w, wi, ip, i);
    }
    forall i | 0 <= i < |w|
      ensures w[i] != '\n'
    {
      assert TameAt(w, wi, ip, i);
    }
  }

  /** Calm text that does not end in the first letter of a pattern is text in which no match can start. */
  lemma CalmNoStart(s: string, c: char, d: char)
    requires Calm(s, c, d) && (s == "" || Lower(s[|s| - 1]) != c)
    ensures NoStart(LowerCase(s), c, d)
  {
  }

  /** A piece of text in which none of the pairs occurs. */
  type Prose = s: string | Word(s, true, true) witness ""
}
