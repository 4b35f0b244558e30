/** Small facts about sequences, stated once for any element type so that
    proofs about strings and documents can use them without unfolding
    anything about their elements. */
module Seqs {

  lemma {:induction false} SplitLast<T>(s: seq<T>)
    requires |s| > 0
    ensures s[..|s| - 1] + [s[|s| - 1]] == s
  {
  }

  lemma {:induction false} ConsPair<T>(a: T, b: T, s: seq<T>)
    ensures [a, b] + s == [a] + ([b] + s)
  {
  }

  lemma {:induction false} ConcatEmpty<T>(s: seq<T>)
    ensures [] + s == s && s + [] == s
  {
  }

  lemma {:induction false} UpdateLast<T>(p: seq<T>, x: T, y: T)
    ensures (p + [x])[|p| := y] == p + [y]
  {
  }

  lemma {:induction false} TailOfConcat<T>(a: seq<T>, b: seq<T>)
    requires |a| > 0
    ensures (a + b)[1..] == a[1..] + b
  {
  }

  /** Putting `x` in front of `s` unless `keep` holds shifts every element by the
      offset that results. */
  lemma {:induction false} PrependUnless<T>(keep: bool, x: T, s: seq<T>)
    ensures var r := if keep then s else [x] + s;
      var off := |r| - |s|;
      && (off == 0 || off == 1)
      && (off == 1 <==> !keep)
      && (off == 1 ==> r[0] == x)
      && (forall i :: 0 <= i < |s| ==> r[i + off] == s[i])
  {
    if !keep {
      var r := [x] + s;
      forall i | 0 <= i < |s| ensures r[i + 1] == s[i] { }
    }
  }

  /** The last element of a concatenation with a non-empty right part, and what precedes it. */
  lemma {:induction false} DropLastConcat<T>(a: seq<T>, c: seq<T>)
    requires |c| > 0
    ensures (a + c)[..|a + c| - 1] == a + c[..|c| - 1]
    ensures (a + c)[|a + c| - 1] == c[|c| - 1]
  {
  }

  /** Dropping a prefix of the left part of a concatenation. */
  lemma {:induction false} DropConcat<T>(a: seq<T>, b: seq<T>, k: nat)
    requires k <= |a|
    ensures (a + b)[k..] == a[k..] + b
  {
  }

  /** An element followed by the rest is the suffix from that element on. */
  lemma {:induction false} ConsDrop<T>(s: seq<T>, k: nat)
    requires k < |s|
    ensures [s[k]] + s[k + 1..] == s[k..]
  {
  }

  lemma {:induction false} Assoc<T>(a: seq<T>, b: seq<T>, c: seq<T>)
    ensures (a + b) + c == a + (b + c)
  {
  }

  lemma {:induction false} SingleTail<T>(x: T)
    ensures [x][1..] == []
  {
  }
}
