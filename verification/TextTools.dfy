/** Searching and stripping sequences. */
module TextTools {
  import opened Wrappers

  /** The first position of `c`, or the length when it is absent. */
  function Find<T(==)>(s: seq<T>, c: T): (n: nat)
    ensures n <= |s| && (n < |s| ==> s[n] == c) && forall k :: 0 <= k < n ==> s[k] != c
  {
    if s == [] || s[0] == c then 0 else 1 + Find(s[1..], c)
  }

  lemma FindIs<T>(s: seq<T>, c: T, n: nat)
    requires n <= |s| && (n < |s| ==> s[n] == c) && forall k :: 0 <= k < n ==> s[k] != c
    ensures Find(s, c) == n
  {
  }

  /** The first position of `c` from `start` on. */
  function FindFrom<T(==)>(s: seq<T>, c: T, start: nat): (r: Option<nat>)
    ensures r.Some? ==> start <= r.value < |s| && s[r.value] == c && c !in s[start..r.value]
  {
    if start > |s| then None
    else
      var n := start + Find(s[start..], c);
      if n < |s| then Some(n) else None
  }

  lemma FindFromIs<T>(s: seq<T>, c: T, start: nat, n: nat)
    requires start <= n < |s| && s[n] == c && c !in s[start..n]
    ensures FindFrom(s, c, start) == Some(n)
  {
    var rest := s[start..];
    assert forall k :: 0 <= k < n - start ==> rest[k] == s[start..n][k];
    FindIs(rest, c, n - start);
  }

  /** What is left without the characters to drop at the front. */
  function StripLeft(s: string, drop: set<char>): string {
    if s != "" && s[0] in drop then StripLeft(s[1..], drop) else s
  }

  /** What is left without the characters to drop at the end. */
  function StripRight(s: string, drop: set<char>): string {
    if s != "" && s[|s| - 1] in drop then StripRight(s[..|s| - 1], drop) else s
  }

  /** Where stripping cuts. */
  lemma {:induction false} LeftCuts(s: string, drop: set<char>) returns (i: nat)
    ensures i <= |s| && StripLeft(s, drop) == s[i..] && forall k :: 0 <= k < i ==> s[k] in drop
    ensures i < |s| ==> s[i] !in drop
    decreases |s|
  {
    i := 0;
    if s != "" && s[0] in drop {
      i := LeftCuts(s[1..], drop);
      assert s[1..][i..] == s[i + 1..];
      assert forall k :: 1 <= k < i + 1 ==> s[k] == s[1..][k - 1];
      i := i + 1;
    }
  }

  lemma {:induction false} RightCuts(s: string, drop: set<char>) returns (j: nat)
    ensures j <= |s| && StripRight(s, drop) == s[..j] && forall k :: j <= k < |s| ==> s[k] in drop
    ensures j > 0 ==> s[j - 1] !in drop
    decreases |s|
  {
    j := |s|;
    if s != "" && s[|s| - 1] in drop {
      j := RightCuts(s[..|s| - 1], drop);
      assert s[..|s| - 1][..j] == s[..j];
    }
  }
}
