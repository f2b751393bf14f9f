/** Small shared vocabulary: an optional value and a few sequence helpers. */
module Common {

  datatype Option<+T> = None | Some(value: T)

  /** Concatenation of a sequence of sequences, in order. */
  function Flatten<T>(ss: seq<seq<T>>): (r: seq<T>)
    decreases |ss|
  {
    if |ss| == 0 then [] else ss[0] + Flatten(ss[1..])
  }

  lemma ConcatAssoc<T>(a: seq<T>, b: seq<T>, c: seq<T>)
    ensures (a + b) + c == a + (b + c)
  {
  }

  lemma DropConcat<T>(a: seq<T>, b: seq<T>, k: nat)
    requires k <= |a|
    ensures (a + b)[k..] == a[k..] + b
  {
  }

  lemma DropPastPrefix<T>(a: seq<T>, b: seq<T>, k: nat)
    requires k <= |b|
    ensures (a + b)[|a| + k..] == b[k..]
  {
  }

  lemma EmptyConcat<T>(s: seq<T>)
    ensures [] + s == s && s + [] == s
  {
  }

  lemma ConsTail<T>(x: T, s: seq<T>)
    ensures ([x] + s)[1..] == s
  {
  }

  lemma DropDrop<T>(s: seq<T>, i: nat, j: nat)
    requires i + j <= |s|
    ensures s[i..][j..] == s[i + j..]
  {
  }

  lemma SliceOfPrefix<T>(s: seq<T>, n: nat, i: nat, j: nat)
    requires i <= j <= n <= |s|
    ensures s[..n][i..j] == s[i..j]
  {
  }

  /** The last element of a non-empty sequence. */
  function Last<T>(s: seq<T>): T
    requires |s| > 0
  {
    s[|s| - 1]
  }

  /** `a` can be obtained from `b` by deleting elements (order preserved). */
  predicate IsSubsequence<T(==)>(a: seq<T>, b: seq<T>)
    decreases |b|
  {
    if |a| == 0 then true
    else if |b| == 0 then false
    else if a[0] == b[0] then IsSubsequence(a[1..], b[1..])
    else IsSubsequence(a, b[1..])
  }

  lemma {:induction false} SubsequencePrependAny<T>(a: seq<T>, b: seq<T>, z: T)
    requires IsSubsequence(a, b)
    ensures IsSubsequence(a, [z] + b)
    decreases |b|, 1
  {
    assert ([z] + b)[1..] == b;
    if |a| > 0 && a[0] == z {
      SubsequenceDropFirst(a, b);
    }
  }

  lemma {:induction false} SubsequenceDropFirst<T>(a: seq<T>, b: seq<T>)
    requires |a| > 0 && IsSubsequence(a, b)
    ensures IsSubsequence(a[1..], b)
    decreases |b|, 0
  {
    assert b == [b[0]] + b[1..];
    if a[0] == b[0] {
      SubsequencePrependAny(a[1..], b[1..], b[0]);
    } else {
      SubsequenceDropFirst(a, b[1..]);
      SubsequencePrependAny(a[1..], b[1..], b[0]);
    }
  }

  /** Extending both sides by the same front element, or only the longer
      one by any, keeps a subsequence. */
  lemma SubsequenceConcat<T>(x: seq<T>, a: seq<T>, y: seq<T>, b: seq<T>)
    requires IsSubsequence(a, b)
    requires |y| <= 1 && (x == [] || x == y)
    ensures IsSubsequence(x + a, y + b)
  {
    if |y| == 1 {
      assert (y + b)[1..] == b;
      if x == [] {
        assert x + a == a;
        SubsequencePrependAny(a, b, y[0]);
      } else {
        assert (x + a)[1..] == a;
      }
    } else {
      assert y + b == b;
      assert x + a == a;
    }
  }
}
