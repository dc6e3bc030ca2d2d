/** The JavaScript array operations that the palindrome checker applies to
    strings once they are split into characters: `reverse` (on a fresh copy,
    as `split("")` makes one) and the one-argument `slice`. */
module Seqs {

  function Min(a: int, b: int): int { if a <= b then a else b }

  function Max(a: int, b: int): int { if a <= b then b else a }

  /** `s.split("").reverse().join("")`: the sequence read back to front. */
  function Reverse<T>(s: seq<T>): (r: seq<T>)
    ensures |r| == |s|
    ensures forall i :: 0 <= i < |s| ==> r[i] == s[|s| - 1 - i]
  {
    seq(|s|, i requires 0 <= i < |s| => s[|s| - 1 - i])
  }

  /** Reversing twice gives back the original sequence. */
  lemma ReverseInvolutive<T>(s: seq<T>)
    ensures Reverse(Reverse(s)) == s
  {
    forall i | 0 <= i < |s|
      ensures Reverse(Reverse(s))[i] == s[i]
    {
      assert Reverse(Reverse(s))[i] == Reverse(s)[|s| - 1 - i];
    }
  }

  /** `a.slice(start)`: a negative start counts back from the end, a start
      past the end gives the empty array. */
  function SliceFrom<T>(s: seq<T>, start: int): (r: seq<T>)
    ensures start >= 0 ==> |r| == Max(|s| - start, 0)
    ensures start >= 0 ==> forall i :: 0 <= i < |r| ==> r[i] == s[start + i]
    ensures start < 0 ==> |r| == Min(-start, |s|) && r == s[|s| - |r|..]
  {
    if start < 0 then s[Max(|s| + start, 0)..]
    else if start < |s| then s[start..]
    else []
  }

  /** Dropping the first `k` elements of the reversal and reversing back
      drops the last `k` elements of the original. */
  lemma ReverseDropReverse<T>(t: seq<T>, k: nat)
    requires k <= |t|
    ensures Reverse(Reverse(t)[k..]) == t[..|t| - k]
  {
    var u := Reverse(t)[k..];
    var v := Reverse(u);
    forall i | 0 <= i < |t| - k
      ensures v[i] == t[i]
    {
      var j := |u| - 1 - i;
      assert v[i] == u[j];
      assert u[j] == Reverse(t)[k + j];
    }
  }
}
