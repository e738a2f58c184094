/** The three regular expressions of the page builder all have the shape
    `open(.*?)close`: JavaScript reports the match with the leftmost start
    and, for that start, the shortest body. Without the `s` flag `.` matches
    no line terminator, so a body may not cross a line. */
module Patterns {
  import opened Wrappers
  import opened Strings
  import opened Sequences

  predicate IsLineTerminator(c: char)
  {
    c == '\n' || c == '\r' || c == '\U{2028}' || c == '\U{2029}'
  }

  /** `.*` can match `s[from..to]`. */
  predicate BodyAllowed(s: string, from: nat, to: nat, dotAll: bool)
    requires from <= to <= |s|
  {
    dotAll || forall k :: from <= k < to ==> !IsLineTerminator(s[k])
  }

  /** `open(.*)close` matches the text from `i` to `j + |close|`, with the
      body `s[i + |open|..j]`. */
  predicate MatchAt(s: string, open: string, close: string, dotAll: bool, i: int, j: int)
  {
    OccursAt(s, open, i) && i + |open| <= j && OccursAt(s, close, j)
    && BodyAllowed(s, i + |open|, j, dotAll)
  }

  /** The first position at or after `j` where `close` can end a body that
      starts at `from`. */
  function FindClose(s: string, close: string, dotAll: bool, from: nat, j: nat): (r: Option<nat>)
    requires from <= j <= |s|
    requires BodyAllowed(s, from, j, dotAll)
    ensures r.Some? ==> j <= r.value && OccursAt(s, close, r.value) && BodyAllowed(s, from, r.value, dotAll)
    ensures forall k :: j <= k && (r.None? || k < r.value) ==>
      !(OccursAt(s, close, k) && BodyAllowed(s, from, k, dotAll))
    decreases |s| - j
  {
    if |s| < j + |close| then None
    else if OccursAt(s, close, j) then Some(j)
    else if !dotAll && IsLineTerminator(s[j]) then None
    else FindClose(s, close, dotAll, from, j + 1)
  }

  /** The match `s.match(/open(.*?)close/)` reports, searching from `i`: the
      start and the position of `close`. */
  function FirstMatch(s: string, open: string, close: string, dotAll: bool, i: nat): (r: Option<(nat, nat)>)
    ensures r.Some? ==> i <= r.value.0 && MatchAt(s, open, close, dotAll, r.value.0, r.value.1)
    ensures r.Some? ==> forall k :: r.value.0 + |open| <= k < r.value.1 ==>
      !MatchAt(s, open, close, dotAll, r.value.0, k)
    ensures forall a, b :: i <= a && (r.None? || a < r.value.0) ==> !MatchAt(s, open, close, dotAll, a, b)
    decreases |s| - i
  {
    if |s| < i + |open| then None
    else if OccursAt(s, open, i) then
      match FindClose(s, close, dotAll, i + |open|, i + |open|)
      case Some(j) => Some((i, j))
      case None => FirstMatch(s, open, close, dotAll, i + 1)
    else FirstMatch(s, open, close, dotAll, i + 1)
  }

  /** The capture group `(.*?)` of the first match, if there is one. */
  function Captured(s: string, open: string, close: string, dotAll: bool): Option<string>
  {
    match FirstMatch(s, open, close, dotAll, 0)
    case None => None
    case Some((i, j)) => Some(s[i + |open|..j])
  }

  /** `s.replace(/open(.*?)close/, "")`: the first match cut out. */
  function RemoveFirstMatch(s: string, open: string, close: string, dotAll: bool): string
  {
    match FirstMatch(s, open, close, dotAll, 0)
    case None => s
    case Some((i, j)) => s[..i] + s[j + |close|..]
  }

  /** Without a match the text stays as it is, and nothing matches anywhere. */
  lemma NoMatchKeepsText(s: string, open: string, close: string, dotAll: bool)
    requires Captured(s, open, close, dotAll).None?
    ensures RemoveFirstMatch(s, open, close, dotAll) == s
    ensures forall a, b :: !MatchAt(s, open, close, dotAll, a, b)
  {
    forall a, b ensures !MatchAt(s, open, close, dotAll, a, b) {
      if a < 0 {
        assert !OccursAt(s, open, a);
      }
    }
  }

  /** With a match, the text is what the removal leaves with `open`, the
      capture and `close` put back at the place of the match. */
  lemma MatchSplitsText(s: string, open: string, close: string, dotAll: bool)
    requires Captured(s, open, close, dotAll).Some?
    ensures var i := FirstMatch(s, open, close, dotAll, 0).value.0;
      var rest := RemoveFirstMatch(s, open, close, dotAll);
      i <= |rest| && s == rest[..i] + open + Captured(s, open, close, dotAll).value + close + rest[i..]
  {
    var m := FirstMatch(s, open, close, dotAll, 0).value;
    var i, j := m.0, m.1;
    assert Captured(s, open, close, dotAll).value == s[i + |open|..j];
    assert RemoveFirstMatch(s, open, close, dotAll) == s[..i] + s[j + |close|..];
    SplitAround(s, open, close, i, j);
  }

  lemma SplitAround(s: string, open: string, close: string, i: nat, j: nat)
    requires OccursAt(s, open, i) && i + |open| <= j && OccursAt(s, close, j)
    ensures var rest := s[..i] + s[j + |close|..];
      i <= |rest| && s == rest[..i] + open + s[i + |open|..j] + close + rest[i..]
  {
    var rest := s[..i] + s[j + |close|..];
    assert rest[..i] == s[..i];
    assert rest[i..] == s[j + |close|..];
    assert s[i..i + |open|] == open;
    assert s[j..j + |close|] == close;
    assert s == s[..i] + s[i..i + |open|] + s[i + |open|..j] + s[j..j + |close|] + s[j + |close|..];
  }

  /** The capture is the shortest body: the first `close` after it is the
      one that ends the match. */
  lemma CaptureIsShortest(s: string, open: string, close: string, dotAll: bool)
    requires Captured(s, open, close, dotAll).Some?
    ensures var body := Captured(s, open, close, dotAll).value;
      forall k :: 0 <= k < |body| ==> !OccursAt(body + close, close, k)
  {
    var match0 := FirstMatch(s, open, close, dotAll, 0).value;
    var i, j := match0.0, match0.1;
    var from := i + |open|;
    var body := s[from..j];
    assert s[from..j + |close|] == body + close;
    forall k | 0 <= k < |body| ensures !OccursAt(body + close, close, k) {
      var m := from + k;
      assert !MatchAt(s, open, close, dotAll, i, m);
      assert BodyAllowed(s, from, m, dotAll);
      OccursInSlice(s, close, from, j + |close|, k);
    }
  }

  /** An occurrence inside a slice is an occurrence in the whole text. */
  lemma OccursInSlice(s: string, pat: string, from: nat, to: nat, k: nat)
    requires from <= to <= |s|
    ensures OccursAt(s[from..to], pat, k) ==> OccursAt(s, pat, from + k)
  {
    if k + |pat| <= to - from {
      var t := s[from..to];
      var u, v := t[k..k + |pat|], s[from + k..from + k + |pat|];
      forall y | 0 <= y < |pat| ensures u[y] == v[y] {
        assert t[k + y] == s[from + k + y];
      }
      assert u == v;
    }
  }

  /** A text made of `pre`, `open`, `body`, `close` and `post` matches at the
      end of `pre` when `open` does not occur earlier, `close` does not occur
      inside `body` and `.*` can match `body`: the capture is `body`, and
      removing the match leaves `pre + post`. The match need not be at the
      start of the text. */
  lemma MatchOfDelimited(pre: string, open: string, body: string, close: string, post: string, dotAll: bool)
    requires IndexOf(pre + open, open, 0) == Some(|pre|)
    requires IndexOf(body + close, close, 0) == Some(|body|)
    requires dotAll || forall k :: 0 <= k < |body| ==> !IsLineTerminator(body[k])
    ensures var s := pre + open + body + close + post;
      Captured(s, open, close, dotAll) == Some(body)
      && RemoveFirstMatch(s, open, close, dotAll) == pre + post
  {
    var s := pre + open + body + close + post;
    var i, j := |pre|, |pre| + |open| + |body|;
    DelimitedMatchFound(s, pre, open, body, close, post, dotAll, i, j);
    MatchParts(s, pre, open, body, close, post, dotAll, i, j);
  }

  /** The match reported for `pre + open + body + close + post` is the one
      right after `pre`. */
  lemma DelimitedMatchFound(s: string, pre: string, open: string, body: string, close: string, post: string, dotAll: bool,
                             i: nat, j: nat)
    requires s == pre + open + body + close + post
    requires i == |pre| && j == |pre| + |open| + |body|
    requires IndexOf(pre + open, open, 0) == Some(|pre|)
    requires IndexOf(body + close, close, 0) == Some(|body|)
    requires dotAll || forall k :: 0 <= k < |body| ==> !IsLineTerminator(body[k])
    ensures FirstMatch(s, open, close, dotAll, 0) == Some((i, j))
  {
    OpenFirstAt(s, pre, open, body + close + post);
    CloseFirstAt(s, pre + open, body, close, post);
    BodyAllowedInside(s, pre + open, body, close + post, dotAll);
    assert MatchAt(s, open, close, dotAll, i, j);
    DelimitedFirstMatch(s, open, close, dotAll, i, j);
  }

  /** A body without line terminators can be matched by `.*` where it sits in a text. */
  lemma BodyAllowedInside(s: string, head: string, body: string, tail: string, dotAll: bool)
    requires s == head + body + tail
    requires dotAll || forall k :: 0 <= k < |body| ==> !IsLineTerminator(body[k])
    ensures BodyAllowed(s, |head|, |head| + |body|, dotAll)
  {
    if !dotAll {
      forall k | |head| <= k < |head| + |body| ensures !IsLineTerminator(s[k]) {
        assert s[k] == body[k - |head|];
      }
    }
  }

  /** The capture and the removal of a known match. */
  lemma MatchParts(s: string, pre: string, open: string, body: string, close: string, post: string, dotAll: bool,
                    i: nat, j: nat)
    requires s == pre + open + body + close + post
    requires i == |pre| && j == |pre| + |open| + |body|
    requires FirstMatch(s, open, close, dotAll, 0) == Some((i, j))
    ensures Captured(s, open, close, dotAll) == Some(body)
    ensures RemoveFirstMatch(s, open, close, dotAll) == pre + post
  {
    FiveParts(pre, open, body, close, post);
  }

  /** `open` first occurs in `pre + open + rest` right after `pre`. */
  lemma OpenFirstAt(s: string, pre: string, open: string, rest: string)
    requires s == pre + open + rest
    requires IndexOf(pre + open, open, 0) == Some(|pre|)
    ensures OccursAt(s, open, |pre|)
    ensures forall a :: 0 <= a < |pre| ==> !OccursAt(s, open, a)
  {
    assert s == (pre + open) + rest;
    forall a | 0 <= a <= |pre| ensures OccursAt(s, open, a) <==> OccursAt(pre + open, open, a) {
      OccursAtPrefix(pre + open, rest, open, a);
    }
  }

  /** After `head`, `close` first occurs in `head + body + close + post` right after `body`. */
  lemma CloseFirstAt(s: string, head: string, body: string, close: string, post: string)
    requires s == head + body + close + post
    requires IndexOf(body + close, close, 0) == Some(|body|)
    ensures OccursAt(s, close, |head| + |body|)
    ensures forall k :: |head| <= k < |head| + |body| ==> !OccursAt(s, close, k)
  {
    var rest := body + close + post;
    assert s == head + rest;
    assert rest == (body + close) + post;
    forall b | 0 <= b <= |body| ensures OccursAt(s, close, |head| + b) <==> OccursAt(body + close, close, b) {
      OccursAtShift(head, rest, close, b);
      OccursAtPrefix(body + close, post, close, b);
    }
    forall k | |head| <= k < |head| + |body| ensures !OccursAt(s, close, k) {
      assert OccursAt(s, close, |head| + (k - |head|)) <==> OccursAt(body + close, close, k - |head|);
    }
  }

  /** A match at `(i, j)` is the reported one when `open` occurs nowhere
      before `i` and `close` nowhere between the body's start and `j`. */
  lemma DelimitedFirstMatch(s: string, open: string, close: string, dotAll: bool, i: nat, j: nat)
    requires MatchAt(s, open, close, dotAll, i, j)
    requires forall a :: 0 <= a < i ==> !OccursAt(s, open, a)
    requires forall k :: i + |open| <= k < j ==> !OccursAt(s, close, k)
    ensures FirstMatch(s, open, close, dotAll, 0) == Some((i, j))
  {
    var m := FirstMatch(s, open, close, dotAll, 0);
    assert m.Some? && m.value.0 <= i;
    assert m.value.0 == i;
    assert !MatchAt(s, open, close, dotAll, i, m.value.1) || m.value.1 >= j;
  }
}
