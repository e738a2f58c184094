/** The JavaScript string operations the build code relies on: `split` and
    `join` on a one-character separator, `indexOf`, `replace` with a string
    pattern, `startsWith`/`endsWith`, `trim`, the decimal text of a count,
    and the character order that stands in for `localeCompare`. */
module Strings {
  import opened Wrappers

  predicate StartsWith(s: string, prefix: string) {
    |prefix| <= |s| && s[..|prefix|] == prefix
  }

  predicate EndsWith(s: string, suffix: string) {
    |suffix| <= |s| && s[|s| - |suffix|..] == suffix
  }

  /** `pat` occurs in `s` starting at index `i`. */
  predicate OccursAt(s: string, pat: string, i: int) {
    0 <= i && i + |pat| <= |s| && s[i..i + |pat|] == pat
  }

  /** Where `pat` fits inside `u`, it occurs in `u + v` exactly where it occurs in `u`. */
  lemma OccursAtPrefix(u: string, v: string, pat: string, a: nat)
    requires a + |pat| <= |u|
    ensures OccursAt(u + v, pat, a) <==> OccursAt(u, pat, a)
  {
    assert (u + v)[a..a + |pat|] == u[a..a + |pat|];
  }

  /** Occurrences in `u + v` past `u` are occurrences in `v`, shifted by `|u|`. */
  lemma OccursAtShift(u: string, v: string, pat: string, b: nat)
    ensures OccursAt(u + v, pat, |u| + b) <==> OccursAt(v, pat, b)
  {
    if b + |pat| <= |v| {
      assert (u + v)[|u| + b..|u| + b + |pat|] == v[b..b + |pat|];
    }
  }

  /** The first index at or after `from` where `pat` occurs (`s.indexOf(pat, from)`). */
  function IndexOf(s: string, pat: string, from: nat): (r: Option<nat>)
    ensures r.Some? ==> from <= r.value && OccursAt(s, pat, r.value)
    ensures forall j :: from <= j && (r.None? || j < r.value) ==> !OccursAt(s, pat, j)
    decreases |s| - from
  {
    if |s| < from + |pat| then None
    else if OccursAt(s, pat, from) then Some(from)
    else IndexOf(s, pat, from + 1)
  }

  /** The replacement text that `String.prototype.replace` inserts for a
      string pattern (no capture groups): `$$` gives `$`, `$&` the matched
      text, `` $` `` the text before the match and `$'` the text after it;
      every other character, `$` included, stands for itself. */
  function Substitution(replacement: string, matched: string, before: string, after: string): string
    decreases |replacement|
  {
    if |replacement| == 0 then ""
    else if replacement[0] == '$' && |replacement| >= 2 && replacement[1] in "$&`'" then
      var piece := match replacement[1]
        case '$' => "$"
        case '&' => matched
        case '`' => before
        case _ => after;
      piece + Substitution(replacement[2..], matched, before, after)
    else [replacement[0]] + Substitution(replacement[1..], matched, before, after)
  }

  lemma {:induction false} SubstitutionOfPlainText(replacement: string, matched: string, before: string, after: string)
    requires '$' !in replacement
    ensures Substitution(replacement, matched, before, after) == replacement
    decreases |replacement|
  {
    if |replacement| > 0 {
      assert '$' !in replacement[1..];
      SubstitutionOfPlainText(replacement[1..], matched, before, after);
      assert [replacement[0]] + replacement[1..] == replacement;
    }
  }

  /** `s.replace(pat, replacement)` with a string `pat`: only the first
      occurrence is replaced; without one, `s` is returned unchanged. */
  function ReplaceFirst(s: string, pat: string, replacement: string): (r: string)
    ensures IndexOf(s, pat, 0).None? ==> r == s
  {
    match IndexOf(s, pat, 0)
    case None => s
    case Some(i) => s[..i] + Substitution(replacement, pat, s[..i], s[i + |pat|..]) + s[i + |pat|..]
  }

  /** With a replacement free of `$`, `replace` cuts out the first
      occurrence and puts the replacement in its place. */
  lemma ReplaceFirstPlain(s: string, pat: string, replacement: string)
    requires '$' !in replacement
    ensures IndexOf(s, pat, 0).Some? ==>
      var i := IndexOf(s, pat, 0).value;
      ReplaceFirst(s, pat, replacement) == s[..i] + replacement + s[i + |pat|..]
  {
    if IndexOf(s, pat, 0).Some? {
      var i := IndexOf(s, pat, 0).value;
      SubstitutionOfPlainText(replacement, pat, s[..i], s[i + |pat|..]);
    }
  }

  /** Removing a prefix that `s` starts with: `s.replace(prefix, "")`. */
  lemma ReplacePrefixWithNothing(s: string, prefix: string)
    requires StartsWith(s, prefix)
    ensures ReplaceFirst(s, prefix, "") == s[|prefix|..]
  {
    assert OccursAt(s, prefix, 0);
    ReplaceFirstPlain(s, prefix, "");
  }

  /** `parts.join(sep)`. */
  function Join(parts: seq<string>, sep: char): string
  {
    if |parts| == 0 then ""
    else if |parts| == 1 then parts[0]
    else parts[0] + [sep] + Join(parts[1..], sep)
  }

  /** The index of the first `c` in `s`, or `|s|` when there is none. */
  function IndexOfChar(s: string, c: char): (i: nat)
    ensures i <= |s| && (i < |s| ==> s[i] == c)
    ensures forall j :: 0 <= j < i ==> s[j] != c
  {
    if |s| == 0 || s[0] == c then 0 else 1 + IndexOfChar(s[1..], c)
  }

  /** `s.split(sep)`: the pieces between separators, empty ones included,
      so there is always at least one piece. */
  function Split(s: string, sep: char): (parts: seq<string>)
    ensures |parts| >= 1
    ensures forall k :: 0 <= k < |parts| ==> sep !in parts[k]
    ensures Join(parts, sep) == s
    decreases |s|
  {
    var i := IndexOfChar(s, sep);
    if i == |s| then [s]
    else
      var rest := Split(s[i + 1..], sep);
      assert s == s[..i] + [sep] + s[i + 1..];
      [s[..i]] + rest
  }

  /** Splitting undoes joining pieces that hold no separator. */
  lemma {:induction false} SplitOfJoin(parts: seq<string>, sep: char)
    requires |parts| >= 1
    requires forall k :: 0 <= k < |parts| ==> sep !in parts[k]
    ensures Split(Join(parts, sep), sep) == parts
    decreases |parts|
  {
    var s := Join(parts, sep);
    if |parts| == 1 {
      assert sep !in s;
    } else {
      var head := parts[0];
      var tail := Join(parts[1..], sep);
      assert s == head + [sep] + tail;
      assert s[|head|] == sep;
      var i := IndexOfChar(s, sep);
      assert i == |head|;
      assert s[..i] == head;
      assert s[i + 1..] == tail;
      SplitOfJoin(parts[1..], sep);
    }
  }

  /** Joining a sequence of two or more pieces is joining all but the last
      one, the separator, and the last one. */
  lemma {:induction false} JoinSnoc(parts: seq<string>, sep: char)
    requires |parts| >= 2
    ensures Join(parts, sep) == Join(parts[..|parts| - 1], sep) + [sep] + parts[|parts| - 1]
    decreases |parts|
  {
    if |parts| > 2 {
      JoinSnoc(parts[1..], sep);
      assert parts[1..][..|parts| - 2] == parts[..|parts| - 1][1..];
    }
  }

  /** `p.split("/").slice(0, -1).join("/")`: `p` without its last segment. */
  function Parent(p: string): string
  {
    var parts := Split(p, '/');
    Join(parts[..|parts| - 1], '/')
  }

  /** `p.split("/").pop()`: the text after the last `/`. */
  function LastSegment(p: string): string
  {
    var parts := Split(p, '/');
    parts[|parts| - 1]
  }

  /** A path is its parent, a slash and its last segment; a path without a
      slash has the empty parent and is its own last segment. */
  lemma ParentAndLastSegment(p: string)
    ensures '/' in p ==> Parent(p) + "/" + LastSegment(p) == p
    ensures '/' !in p ==> Parent(p) == "" && LastSegment(p) == p
    ensures '/' !in LastSegment(p)
  {
    var parts := Split(p, '/');
    if |parts| >= 2 {
      JoinSnoc(parts, '/');
    } else {
      assert p == parts[0];
    }
  }

  /** The decimal digit character for `d`. */
  function DigitChar(d: nat): char
    requires d < 10
  {
    ('0' as int + d) as char
  }

  /** The decimal text of `n`, as JavaScript writes a non-negative integer
      into a template string. */
  function NatToString(n: nat): (s: string)
    ensures |s| >= 1
    ensures forall i :: 0 <= i < |s| ==> '0' <= s[i] <= '9'
  {
    if n < 10 then [DigitChar(n)] else NatToString(n / 10) + [DigitChar(n % 10)]
  }

  /** The number a string of decimal digits denotes. */
  function DecimalValue(s: string): nat
    requires forall i :: 0 <= i < |s| ==> '0' <= s[i] <= '9'
  {
    if |s| == 0 then 0
    else DecimalValue(s[..|s| - 1]) * 10 + (s[|s| - 1] as int - '0' as int)
  }

  lemma {:induction false} DecimalRoundTrip(n: nat)
    ensures DecimalValue(NatToString(n)) == n
  {
    if n >= 10 {
      DecimalRoundTrip(n / 10);
      var s := NatToString(n);
      assert s[..|s| - 1] == NatToString(n / 10);
    }
  }

  /** Different counts have different decimal texts. */
  lemma NatToStringInjective(a: nat, b: nat)
    requires NatToString(a) == NatToString(b)
    ensures a == b
  {
    DecimalRoundTrip(a);
    DecimalRoundTrip(b);
  }

  /** The characters `String.prototype.trim` removes (white space and line
      terminators of ECMAScript). */
  predicate IsJsWhitespace(c: char)
  {
    c == '\t' || c == '\n' || c == '\U{B}' || c == '\U{C}' || c == '\r' || c == ' '
    || c == '\U{A0}' || c == '\U{1680}' || ('\U{2000}' <= c <= '\U{200A}')
    || c == '\U{2028}' || c == '\U{2029}' || c == '\U{202F}' || c == '\U{205F}'
    || c == '\U{3000}' || c == '\U{FEFF}'
  }

  function TrimStart(s: string): (r: string)
    ensures |r| <= |s| && r == s[|s| - |r|..]
    ensures r == [] || !IsJsWhitespace(r[0])
    ensures forall i :: 0 <= i < |s| - |r| ==> IsJsWhitespace(s[i])
  {
    if |s| > 0 && IsJsWhitespace(s[0]) then TrimStart(s[1..]) else s
  }

  function TrimEnd(s: string): (r: string)
    ensures |r| <= |s| && r == s[..|r|]
    ensures r == [] || !IsJsWhitespace(r[|r| - 1])
    ensures forall i :: |r| <= i < |s| ==> IsJsWhitespace(s[i])
  {
    if |s| > 0 && IsJsWhitespace(s[|s| - 1]) then TrimEnd(s[..|s| - 1]) else s
  }

  /** `s.trim()`: `s` without leading and trailing white space. */
  function Trim(s: string): string
  {
    TrimEnd(TrimStart(s))
  }

  /** Lexicographic order on character codes, the stand-in for
      `localeCompare(...) < 0`. */
  predicate LexLess(a: string, b: string)
    decreases |a|
  {
    if |a| == 0 then |b| > 0
    else if |b| == 0 then false
    else if a[0] != b[0] then a[0] < b[0]
    else LexLess(a[1..], b[1..])
  }

  lemma {:induction false} LexLessIrreflexive(a: string)
    ensures !LexLess(a, a)
    decreases |a|
  {
    if |a| > 0 {
      LexLessIrreflexive(a[1..]);
    }
  }

  lemma {:induction false} LexLessTransitive(a: string, b: string, c: string)
    requires LexLess(a, b) && LexLess(b, c)
    ensures LexLess(a, c)
    decreases |a|
  {
    if |a| > 0 && |b| > 0 && |c| > 0 && a[0] == b[0] && b[0] == c[0] {
      LexLessTransitive(a[1..], b[1..], c[1..]);
    }
  }

  /** Two different strings are always ordered one way or the other. */
  lemma {:induction false} LexLessTotal(a: string, b: string)
    requires a != b
    ensures LexLess(a, b) || LexLess(b, a)
    decreases |a|
  {
    if |a| > 0 && |b| > 0 && a[0] == b[0] {
      assert a == [a[0]] + a[1..] && b == [b[0]] + b[1..];
      LexLessTotal(a[1..], b[1..]);
    }
  }
}
