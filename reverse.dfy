/** Rune reversal (reverse.go): two implementations of the same function,
    one filling a fresh array by index, one swapping in place. Strings are
    modelled as their sequences of runes. */
module Reverse {

  /** The runes of `s` in the opposite order. */
  function Reversed(s: string): (r: string)
    ensures |r| == |s|
    ensures forall i :: 0 <= i < |s| ==> r[i] == s[|s| - 1 - i]
  {
    if s == [] then [] else [s[|s| - 1]] + Reversed(s[..|s| - 1])
  }

  /** Reverse (reverse.go:4-15): rune `i` goes to position `length-1-i` of a
      fresh array. */
  method Reverse(s: string) returns (r: string)
    ensures r == Reversed(s)
  {
    var runes := new char[|s|](i requires 0 <= i < |s| => s[i]);
    var length := runes.Length;
    var reversed := new char[length];
    for i := 0 to length
      modifies reversed
      invariant forall k :: 0 <= k < i ==> reversed[length - 1 - k] == s[k]
    {
      reversed[length - 1 - i] := runes[i];
    }
    r := reversed[..];
    forall k | 0 <= k < length ensures r[k] == Reversed(s)[k] {
      assert reversed[length - 1 - (length - 1 - k)] == s[length - 1 - k];
    }
  }

  /** Reverse2 (reverse.go:18-26): swap the two ends and move inward until
      the indices meet. */
  method Reverse2(s: string) returns (r: string)
    ensures r == Reversed(s)
  {
    var runes := new char[|s|](i requires 0 <= i < |s| => s[i]);
    var n := runes.Length;
    var i, j := 0, n - 1;
    while i < j
      invariant 0 <= i <= j + 1 <= n && i + j == n - 1
      invariant forall k :: 0 <= k < i || j < k < n ==> runes[k] == s[n - 1 - k]
      invariant forall k :: i <= k <= j ==> runes[k] == s[k]
      decreases j - i
    {
      runes[i], runes[j] := runes[j], runes[i];
      i, j := i + 1, j - 1;
    }
    r := runes[..];
    IsReversed(s, r);
  }

  /** A sequence holding the runes of `s` back to front is Reversed(s). */
  lemma IsReversed(s: string, r: string)
    requires |r| == |s| && forall k :: 0 <= k < |s| ==> r[k] == s[|s| - 1 - k]
    ensures r == Reversed(s)
  {
  }

  /** Reversing twice gives back the original. */
  lemma ReversedTwice(s: string)
    ensures Reversed(Reversed(s)) == s
  {
  }

  /** The test table of reverse_test.go; reversal is per rune, so the two
      three-byte runes of "世界" stay whole. */
  lemma ReversedExamples()
    ensures Reversed("") == ""
    ensures Reversed("a") == "a"
    ensures Reversed("123") == "321"
    ensures Reversed("abba") == "abba"
    ensures Reversed("Hello 世界") == "界世 olleH"
  {
  }
}
