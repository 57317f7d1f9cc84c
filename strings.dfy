/**
 * The JavaScript string operations the reconciliation core is built from,
 * stated over `string` (= seq<char>): white space as `trim` and the regular
 * expression class `\s` see it, `split`, `join`, `indexOf`, `replace`,
 * `replaceAll` and `slice`.
 */
module Strings {
  import opened Outcomes

  /** The characters `String.prototype.trim` removes and `\s` matches. */
  predicate IsSpace(c: char) {
    var n := c as int;
    (9 <= n <= 13) || n == 0x20 || n == 0xA0 || n == 0x1680 || (0x2000 <= n <= 0x200A)
    || n == 0x2028 || n == 0x2029 || n == 0x202F || n == 0x205F || n == 0x3000 || n == 0xFEFF
  }

  /** A non-empty run of non-space characters: what `split(/\s+/)` yields from a trimmed line. */
  predicate IsWord(w: string) {
    |w| > 0 && forall i :: 0 <= i < |w| ==> !IsSpace(w[i])
  }

  predicate AllWords(ws: seq<string>) {
    forall i :: 0 <= i < |ws| ==> IsWord(ws[i])
  }

  // ---------------------------------------------------------------- trim

  /** Drops the leading white space. */
  function TrimStart(s: string): string
  {
    if s != [] && IsSpace(s[0]) then TrimStart(s[1..]) else s
  }

  /** Drops the trailing white space. */
  function TrimEnd(s: string): string
  {
    if s != [] && IsSpace(s[|s| - 1]) then TrimEnd(s[..|s| - 1]) else s
  }

  /** `s.trim()`. */
  function Trim(s: string): string
  {
    TrimEnd(TrimStart(s))
  }

  /** What `TrimStart` keeps is a suffix starting with a non-space, and what it drops is white space. */
  lemma {:induction false} TrimStartSpec(s: string)
    ensures var r := TrimStart(s);
            |r| <= |s| && r == s[|s| - |r|..] && (r == [] || !IsSpace(r[0]))
            && forall i :: 0 <= i < |s| - |r| ==> IsSpace(s[i])
  {
    if s != [] && IsSpace(s[0]) {
      TrimStartSpec(s[1..]);
      assert forall i :: 1 <= i < |s| ==> s[i] == s[1..][i - 1];
    }
  }

  /** What `TrimEnd` keeps is a prefix ending with a non-space, and what it drops is white space. */
  lemma {:induction false} TrimEndSpec(s: string)
    ensures var r := TrimEnd(s);
            r <= s && (r == [] || !IsSpace(r[|r| - 1]))
            && forall i :: |r| <= i < |s| ==> IsSpace(s[i])
  {
    if s != [] && IsSpace(s[|s| - 1]) {
      TrimEndSpec(s[..|s| - 1]);
    }
  }

  /** `s.trim()` is empty exactly when `s` is all white space. */
  lemma TrimEmpty(s: string)
    ensures Trim(s) == [] <==> forall i :: 0 <= i < |s| ==> IsSpace(s[i])
  {
    TrimStartSpec(s);
    TrimEndSpec(TrimStart(s));
    if TrimStart(s) == [] {
      assert Trim(s) == [];
    }
  }

  /** A line that starts and ends with a non-space is its own trim. */
  lemma TrimBounded(s: string)
    requires s != [] && !IsSpace(s[0]) && !IsSpace(s[|s| - 1])
    ensures Trim(s) == s
  {
    assert TrimStart(s) == s;
    assert TrimEnd(s) == s;
  }

  /**
   * For a line that does not start with white space, testing a marker that
   * ends in a non-space against the trimmed line or against the line itself
   * gives the same answer.
   */
  lemma TrimKeepsMarker(s: string, m: string)
    requires s == [] || !IsSpace(s[0])
    requires m != [] && !IsSpace(m[|m| - 1])
    ensures m <= Trim(s) <==> m <= s
  {
    assert TrimStart(s) == s;
    var t := TrimEnd(s);
    TrimEndSpec(s);
    if m <= s {
      assert s[|m| - 1] == m[|m| - 1];
      assert |m| <= |t|;
      assert m == s[..|m|] == t[..|m|];
    }
    if m <= t {
      assert m == t[..|m|] == s[..|m|];
    }
  }

  /** Trimming adds no character: a character absent from `s` is absent from `s.trim()`. */
  lemma TrimWithin(s: string, c: char)
    requires c !in s
    ensures c !in Trim(s)
  {
    TrimStartSpec(s);
    var t := TrimStart(s);
    TrimEndSpec(t);
    forall i | 0 <= i < |Trim(s)|
      ensures Trim(s)[i] != c
    {
      assert Trim(s)[i] == t[i] == s[|s| - |t| + i];
    }
  }

  /**
   * Trailing white space is dropped from the tail only: when `y` starts with
   * a non-space, trimming the end of `x + y` trims the end of `y`, which keeps
   * its first character.
   */
  lemma {:induction false} TrimEndAfter(x: string, y: string)
    requires y != [] && !IsSpace(y[0])
    ensures TrimEnd(x + y) == x + TrimEnd(y)
    ensures TrimEnd(y) != [] && TrimEnd(y)[0] == y[0]
    decreases |y|
  {
    var s := x + y;
    if IsSpace(s[|s| - 1]) {
      assert |y| >= 2;
      assert s[..|s| - 1] == x + y[..|y| - 1];
      TrimEndAfter(x, y[..|y| - 1]);
    }
  }

  // ---------------------------------------------------------------- tokens

  /** Length of the leading run of non-space characters. */
  function WordLen(s: string): (n: nat)
    ensures n <= |s|
    ensures forall i :: 0 <= i < n ==> !IsSpace(s[i])
    ensures n == |s| || IsSpace(s[n])
  {
    if s == [] || IsSpace(s[0]) then 0 else 1 + WordLen(s[1..])
  }

  /**
   * The maximal runs of non-space characters, in order: `s.split(/\s+/).filter(s => s)`,
   * and also `s.trim().split(/\s+/)` whenever the trimmed line is not empty.
   */
  function Tokens(s: string): (ws: seq<string>)
    ensures AllWords(ws)
    decreases |s|
  {
    if s == [] then []
    else if IsSpace(s[0]) then Tokens(s[1..])
    else
      var n := WordLen(s);
      [s[..n]] + Tokens(s[n..])
  }

  lemma WordLenBeforeSpace(a: string, b: string)
    requires b != [] && IsSpace(b[0])
    ensures WordLen(a + b) == WordLen(a)
  {
    assert forall i :: 0 <= i < |a| ==> (a + b)[i] == a[i];
    assert (a + b)[|a|] == b[0];
  }

  /** A white-space character separates the tokens on its two sides. */
  lemma {:induction false} TokensAround(a: string, c: char, b: string)
    requires IsSpace(c)
    ensures Tokens(a + [c] + b) == Tokens(a) + Tokens(b)
    decreases |a|
  {
    var s := a + [c] + b;
    if a == [] {
      assert s == [c] + b && s[1..] == b;
    } else if IsSpace(a[0]) {
      assert s[1..] == a[1..] + [c] + b;
      TokensAround(a[1..], c, b);
    } else {
      WordLenBeforeSpace(a, [c] + b);
      assert s == a + ([c] + b);
      var n := WordLen(a);
      assert s[..n] == a[..n];
      assert s[n..] == a[n..] + [c] + b;
      TokensAround(a[n..], c, b);
    }
  }

  lemma TokensOfWord(w: string)
    requires IsWord(w)
    ensures Tokens(w) == [w]
  {
    assert WordLen(w) == |w|;
    assert w[..|w|] == w && w[|w|..] == [];
  }

  /** A line of two words and a rest, separated by single spaces, splits into those two words first. */
  lemma LeadingWords(first: string, second: string, rest: string)
    requires IsWord(first) && IsWord(second)
    ensures var ts := Tokens(first + " " + second + " " + rest);
            |ts| >= 2 && ts[0] == first && ts[1] == second
  {
    var tail := second + [' '] + rest;
    assert IsSpace(' ');
    assert Tokens(tail) == [second] + Tokens(rest) by {
      TokensAround(second, ' ', rest);
      TokensOfWord(second);
    }
    assert first + " " + second + " " + rest == first + [' '] + tail;
    assert Tokens(first + [' '] + tail) == [first] + Tokens(tail) by {
      TokensAround(first, ' ', tail);
      TokensOfWord(first);
    }
  }

  /** Joining words with single spaces and splitting on white space gives the words back. */
  lemma {:induction false} TokensOfJoin(ws: seq<string>)
    requires AllWords(ws)
    ensures Tokens(Join(ws, " ")) == ws
  {
    if |ws| == 1 {
      TokensOfWord(ws[0]);
    } else if |ws| > 1 {
      TokensOfJoin(ws[1..]);
      TokensAround(ws[0], ' ', Join(ws[1..], " "));
      TokensOfWord(ws[0]);
      assert ws == [ws[0]] + ws[1..];
    }
  }

  // ---------------------------------------------------------------- join and split

  /** `parts.join(sep)`. */
  function Join(parts: seq<string>, sep: string): string
  {
    if |parts| == 0 then ""
    else if |parts| == 1 then parts[0]
    else parts[0] + sep + Join(parts[1..], sep)
  }

  lemma JoinCons(x: string, parts: seq<string>, sep: string)
    requires |parts| >= 1
    ensures Join([x] + parts, sep) == x + sep + Join(parts, sep)
  {
    assert ([x] + parts)[1..] == parts;
  }

  /** Prepending to the first part prepends to the joined text. */
  lemma JoinPrefixFirst(p: string, w: string, rest: seq<string>, sep: string)
    ensures Join([p + w] + rest, sep) == p + Join([w] + rest, sep)
  {
    if |rest| >= 1 {
      JoinCons(p + w, rest, sep);
      JoinCons(w, rest, sep);
    }
  }

  /** Joining two non-empty lists of parts puts one separator between their joins. */
  lemma {:induction false} JoinConcat(a: seq<string>, b: seq<string>, sep: string)
    requires |a| >= 1 && |b| >= 1
    ensures Join(a + b, sep) == Join(a, sep) + sep + Join(b, sep)
  {
    if |a| == 1 {
      JoinCons(a[0], b, sep);
      assert a + b == [a[0]] + b;
    } else {
      JoinConcat(a[1..], b, sep);
      assert (a + b)[1..] == a[1..] + b;
      assert Join(a + b, sep) == a[0] + sep + Join(a[1..] + b, sep);
    }
  }

  /** `s.split(c)` for a one-character separator: every part is free of `c`. */
  function SplitOn(s: string, c: char): (parts: seq<string>)
    ensures |parts| >= 1
    ensures forall i :: 0 <= i < |parts| ==> c !in parts[i]
  {
    if s == [] then [""]
    else
      var rest := SplitOn(s[1..], c);
      if s[0] == c then [""] + rest else [[s[0]] + rest[0]] + rest[1..]
  }

  /** Splitting and re-joining with the same separator restores the text. */
  lemma {:induction false} JoinOfSplit(s: string, c: char)
    ensures Join(SplitOn(s, c), [c]) == s
  {
    if s != [] {
      var rest := SplitOn(s[1..], c);
      JoinOfSplit(s[1..], c);
      if s[0] == c {
        JoinCons("", rest, [c]);
        assert s == [c] + s[1..];
      } else if |rest| == 1 {
        assert s == [s[0]] + s[1..];
      } else {
        JoinCons([s[0]] + rest[0], rest[1..], [c]);
        JoinCons(rest[0], rest[1..], [c]);
        assert rest == [rest[0]] + rest[1..];
        assert s == [s[0]] + s[1..];
      }
    }
  }

  lemma {:induction false} SplitWithoutSeparator(p: string, c: char)
    requires c !in p
    ensures SplitOn(p, c) == [p]
  {
    if p != [] {
      SplitWithoutSeparator(p[1..], c);
      assert p == [p[0]] + p[1..];
    }
  }

  /** A separator character splits the text into the parts on its two sides. */
  lemma {:induction false} SplitAround(a: string, c: char, b: string)
    ensures SplitOn(a + [c] + b, c) == SplitOn(a, c) + SplitOn(b, c)
    decreases |a|
  {
    var s := a + [c] + b;
    if a == [] {
      assert s[1..] == b;
    } else {
      assert s[1..] == a[1..] + [c] + b;
      SplitAround(a[1..], c, b);
    }
  }

  /** Words joined by single spaces start and end with a non-space and hold no line break. */
  lemma {:induction false} JoinWordsBounded(ws: seq<string>)
    requires AllWords(ws) && |ws| >= 1
    ensures var j := Join(ws, " ");
            j != [] && !IsSpace(j[0]) && !IsSpace(j[|j| - 1]) && '\n' !in j
  {
    if |ws| > 1 {
      JoinWordsBounded(ws[1..]);
      var rest := Join(ws[1..], " ");
      assert Join(ws, " ") == ws[0] + " " + rest;
      assert IsSpace('\n');
    } else {
      assert IsSpace('\n');
    }
  }

  /** Joining parts free of `c` with `c` and splitting on `c` gives the parts back. */
  lemma {:induction false} SplitOfJoin(parts: seq<string>, c: char)
    requires |parts| >= 1
    requires forall i :: 0 <= i < |parts| ==> c !in parts[i]
    ensures SplitOn(Join(parts, [c]), c) == parts
  {
    SplitWithoutSeparator(parts[0], c);
    if |parts| > 1 {
      SplitOfJoin(parts[1..], c);
      SplitAround(parts[0], c, Join(parts[1..], [c]));
      assert parts[0] + [c] + Join(parts[1..], [c]) == Join(parts, [c]);
      assert parts == [parts[0]] + parts[1..];
    }
  }

  // ---------------------------------------------------------------- search and replace

  /** `pat` occurs in `s` starting at position `j`. */
  predicate OccursAt(s: string, pat: string, j: nat) {
    j <= |s| && pat <= s[j..]
  }

  /** `s.indexOf(pat)`: the first position where `pat` occurs, or None for -1. */
  function IndexOf(s: string, pat: string): (r: Option<nat>)
    ensures r.Some? ==> r.value + |pat| <= |s| && OccursAt(s, pat, r.value)
    ensures r.Some? ==> forall j: nat :: j < r.value ==> !OccursAt(s, pat, j)
    ensures r.None? ==> forall j: nat :: j <= |s| ==> !OccursAt(s, pat, j)
    decreases |s|
  {
    if pat <= s then
      assert s[0..] == s;
      Some(0)
    else if s == [] then None
    else
      assert s[0..] == s;
      match IndexOf(s[1..], pat)
      case None =>
        assert forall j: nat :: 1 <= j <= |s| ==> s[j..] == s[1..][j - 1..] && OccursAt(s[1..], pat, j - 1) == OccursAt(s, pat, j);
        None
      case Some(i) =>
        assert forall j: nat :: 1 <= j <= i + 1 ==> s[j..] == s[1..][j - 1..] && OccursAt(s[1..], pat, j - 1) == OccursAt(s, pat, j);
        Some(i + 1)
  }

  /** An occurrence with none before it is the one `indexOf` finds. */
  lemma IndexOfAt(s: string, pat: string, i: nat)
    requires OccursAt(s, pat, i)
    requires forall j: nat :: j < i ==> !OccursAt(s, pat, j)
    ensures IndexOf(s, pat) == Some(i)
  {
  }

  /** `s.replace(pat, rep)` for a string pattern: only the first occurrence is replaced. */
  function ReplaceFirst(s: string, pat: string, rep: string): string
  {
    match IndexOf(s, pat)
    case None => s
    case Some(i) => s[..i] + rep + s[i + |pat|..]
  }

  /** `s.replaceAll(pat, rep)` for a non-empty string pattern, scanning left to right. */
  function ReplaceAll(s: string, pat: string, rep: string): string
    requires pat != []
    decreases |s|
  {
    if |s| < |pat| then s
    else if pat <= s then rep + ReplaceAll(s[|pat|..], pat, rep)
    else [s[0]] + ReplaceAll(s[1..], pat, rep)
  }

  /** The first occurrence of a character the text ends with and holds nowhere else is the last position. */
  lemma {:induction false} IndexOfLastChar(k: string, c: char)
    requires c !in k
    ensures IndexOf(k + [c], [c]) == Some(|k|)
  {
    var s := k + [c];
    if k != [] {
      assert s[0] == k[0];
      assert s[1..] == k[1..] + [c];
      IndexOfLastChar(k[1..], c);
    }
  }

  /** `replace` of a character the text ends with and holds nowhere else removes it. */
  lemma ReplaceLastChar(k: string, c: char)
    requires c !in k
    ensures ReplaceFirst(k + [c], [c], "") == k
  {
    IndexOfLastChar(k, c);
    assert (k + [c])[..|k|] == k;
  }

  /** No occurrence of `pat` in `s` starts before `cut` and ends after it. */
  predicate NoStraddle(s: string, cut: nat, pat: string) {
    forall j :: 0 <= j < cut && cut < j + |pat| && j <= |s| ==> !(pat <= s[j..])
  }

  lemma NoStraddleShift(s: string, cut: nat, pat: string, d: nat)
    requires d <= cut <= |s| && NoStraddle(s, cut, pat)
    ensures NoStraddle(s[d..], cut - d, pat)
  {
    forall j | 0 <= j < cut - d && cut - d < j + |pat| && j <= |s[d..]|
      ensures !(pat <= s[d..][j..])
    {
      assert s[d..][j..] == s[j + d..];
    }
  }

  lemma ReplaceAllCutAtMatch(s: string, cut: nat, pat: string, rep: string)
    requires pat != [] && |pat| <= cut <= |s| && pat <= s
    requires ReplaceAll(s[|pat|..], pat, rep)
          == ReplaceAll(s[|pat|..][..cut - |pat|], pat, rep) + ReplaceAll(s[|pat|..][cut - |pat|..], pat, rep)
    ensures ReplaceAll(s, pat, rep) == ReplaceAll(s[..cut], pat, rep) + ReplaceAll(s[cut..], pat, rep)
  {
    assert pat <= s[..cut];
    assert s[|pat|..][..cut - |pat|] == s[..cut][|pat|..];
    assert s[|pat|..][cut - |pat|..] == s[cut..];
  }

  lemma ReplaceAllCutAtOther(s: string, cut: nat, pat: string, rep: string)
    requires pat != [] && 1 <= cut <= |s| && |pat| <= |s| && !(pat <= s)
    requires ReplaceAll(s[1..], pat, rep)
          == ReplaceAll(s[1..][..cut - 1], pat, rep) + ReplaceAll(s[1..][cut - 1..], pat, rep)
    ensures ReplaceAll(s, pat, rep) == ReplaceAll(s[..cut], pat, rep) + ReplaceAll(s[cut..], pat, rep)
  {
    var head := s[..cut];
    assert s[1..][..cut - 1] == head[1..];
    assert s[1..][cut - 1..] == s[cut..];
    assert ReplaceAll(s, pat, rep) == [s[0]] + ReplaceAll(s[1..], pat, rep);
    if |head| >= |pat| {
      assert head[..|pat|] == s[..|pat|];
      assert ReplaceAll(head, pat, rep) == [head[0]] + ReplaceAll(head[1..], pat, rep);
    } else {
      assert ReplaceAll(head[1..], pat, rep) == head[1..];
      assert head == [s[0]] + head[1..];
    }
  }

  /**
   * `replaceAll` works on the two sides of a cut independently when no
   * occurrence of the pattern straddles the cut.
   */
  lemma {:induction false} ReplaceAllCut(s: string, cut: nat, pat: string, rep: string)
    requires pat != [] && cut <= |s| && NoStraddle(s, cut, pat)
    ensures ReplaceAll(s, pat, rep) == ReplaceAll(s[..cut], pat, rep) + ReplaceAll(s[cut..], pat, rep)
    decreases |s|
  {
    if cut == 0 {
      assert s[..0] == [] && s[0..] == s;
    } else if |s| < |pat| {
    } else if pat <= s {
      assert s[0..] == s;
      assert cut >= |pat|;
      NoStraddleShift(s, cut, pat, |pat|);
      ReplaceAllCut(s[|pat|..], cut - |pat|, pat, rep);
      ReplaceAllCutAtMatch(s, cut, pat, rep);
    } else {
      NoStraddleShift(s, cut, pat, 1);
      ReplaceAllCut(s[1..], cut - 1, pat, rep);
      ReplaceAllCutAtOther(s, cut, pat, rep);
    }
  }

  /** Replacing a pattern that does not occur changes nothing. */
  lemma {:induction false} ReplaceAllAbsent(s: string, pat: string, rep: string)
    requires pat != []
    requires IndexOf(s, pat).None?
    ensures ReplaceAll(s, pat, rep) == s
    decreases |s|
  {
    if |s| >= |pat| {
      assert !OccursAt(s, pat, 0) && s[0..] == s;
      forall j: nat | j <= |s[1..]| ensures !OccursAt(s[1..], pat, j) {
        assert s[1..][j..] == s[j + 1..];
        assert !OccursAt(s, pat, j + 1);
      }
      ReplaceAllAbsent(s[1..], pat, rep);
    }
  }

  /** Clamps a `slice` bound the way JavaScript does: negative counts from the end. */
  function SliceBound(len: nat, i: int): (b: nat)
    ensures b <= len
  {
    if i < 0 then (if len + i < 0 then 0 else len + i) else if i > len then len else i
  }

  /** `s.slice(from, to)`. */
  function Slice(s: string, from: int, to: int): string
  {
    var a, b := SliceBound(|s|, from), SliceBound(|s|, to);
    if a < b then s[a..b] else ""
  }

  /** `s.toLocaleLowerCase()` on ASCII letters. */
  function Lower(s: string): (r: string)
    ensures |r| == |s|
  {
    if s == [] then ""
    else [if 'A' <= s[0] <= 'Z' then (s[0] as int + 32) as char else s[0]] + Lower(s[1..])
  }

  /**
   * Lower-casing twice is lower-casing once, and it keeps `.` and `/` in
   * front: a name starts with either exactly when its lower-case form does.
   */
  lemma {:induction false} LowerIdempotent(s: string)
    ensures Lower(Lower(s)) == Lower(s)
    ensures ("." <= Lower(s) || "/" <= Lower(s)) <==> ("." <= s || "/" <= s)
  {
    if s != [] {
      var l := Lower(s);
      LowerIdempotent(s[1..]);
      assert l[1..] == Lower(s[1..]);
      assert !('A' <= l[0] <= 'Z');
    }
  }
}
