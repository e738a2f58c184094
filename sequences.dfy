/** Small facts about sequences, stated once for any element type so that
    proofs about sequences of pages and routes need not rediscover them. */
module Sequences {

  /** A non-empty `t` is its front and its last element, also after `s`. */
  lemma SnocSplit<T>(s: seq<T>, t: seq<T>)
    requires t != []
    ensures s + t == (s + t[..|t| - 1]) + [t[|t| - 1]]
    ensures t == t[..|t| - 1] + [t[|t| - 1]]
  {
  }

  lemma Regroup<T>(a: seq<T>, b: seq<T>, c: seq<T>)
    ensures (a + b) + c == a + (b + c)
  {
  }

  /** Taking one more element appends it. */
  lemma TakeOneMore<T>(s: seq<T>, k: nat)
    requires k < |s|
    ensures s[..k + 1] == s[..k] + [s[k]]
  {
  }

  lemma TakeAll<T>(s: seq<T>)
    ensures s[..|s|] == s
  {
  }

  lemma AppendNothing<T>(s: seq<T>)
    ensures s + [] == s
  {
  }

  /** A non-empty `a` is its first element and the rest, also before `b`. */
  lemma ConsSplit<T>(a: seq<T>, b: seq<T>)
    requires a != []
    ensures a == [a[0]] + a[1..]
    ensures a + b == [a[0]] + (a[1..] + b)
  {
  }

  /** A sequence that extends `s` agrees with it on `s`'s slices. */
  lemma PrefixAgrees<T>(s: seq<T>, t: seq<T>, i: nat, j: nat)
    requires |s| <= |t| && t[..|s|] == s && i <= j <= |s|
    ensures t[i..j] == s[i..j] && t[..i] == s[..i]
    ensures i < |s| ==> t[i] == s[i]
  {
    forall k | i <= k < j
      ensures t[k] == s[k]
    {
      assert t[..|s|][k] == t[k];
    }
    forall k | 0 <= k < i
      ensures t[k] == s[k]
    {
      assert t[..|s|][k] == t[k];
    }
    if i < |s| {
      assert t[..|s|][i] == t[i];
    }
    assert t[i..j] == s[i..j];
    assert t[..i] == s[..i];
  }

  /** Two sequences that agree but for the last element of the first. */
  lemma ReplaceLast<T>(a: seq<T>, b: seq<T>, x: T)
    requires |a| == |b| > 0
    requires forall k :: 0 <= k < |a| - 1 ==> a[k] == b[k]
    requires a[|a| - 1] == x
    ensures a == b[..|b| - 1] + [x]
  {
  }

  /** A sequence one longer than `b` that starts with `b`. */
  lemma AppendLast<T>(a: seq<T>, b: seq<T>, x: T)
    requires |a| == |b| + 1
    requires forall k :: 0 <= k < |b| ==> a[k] == b[k]
    requires a[|b|] == x
    ensures a == b + [x]
  {
  }

  /** The first, middle and last of five concatenated parts, sliced back out. */
  lemma FiveParts<T>(a: seq<T>, b: seq<T>, c: seq<T>, d: seq<T>, e: seq<T>)
    ensures var s := a + b + c + d + e;
      s[..|a|] == a && s[|a| + |b|..|a| + |b| + |c|] == c && s[|a| + |b| + |c| + |d|..] == e
  {
    var s := a + b + c + d + e;
    assert s == a + (b + c + d + e);
    assert s == (a + b) + (c + (d + e));
    assert s[|a| + |b|..][..|c|] == c;
    assert s == (a + b + c + d) + e;
  }
}
