/**
 * The pure half of the nginx site configuration (src/services/nginx.ts and
 * dist/services/nginx.js): the template properties, the `{{key}}`
 * substitution, the check for a placeholder left unresolved, the `##% key: value`
 * footer appended to a configuration, and `getSiteInfo`'s parser of that footer.
 */
module Templates {
  import opened Outcomes
  import opened Strings

  // ---------------------------------------------------------------- properties

  /** A JavaScript object with string values: its own keys in insertion order, each with its value. */
  type Props = seq<(string, string)>

  function Keys(p: Props): (ks: seq<string>)
    ensures |ks| == |p| && forall i :: 0 <= i < |p| ==> ks[i] == p[i].0
  {
    seq(|p|, i requires 0 <= i < |p| => p[i].0)
  }

  /** An object never holds a key twice. */
  predicate DistinctKeys(p: Props) {
    forall i, j :: 0 <= i < j < |p| ==> p[i].0 != p[j].0
  }

  /** `p[k]`. */
  function Lookup(p: Props, k: string): (r: Option<string>)
    ensures r.None? <==> k !in Keys(p)
  {
    if p == [] then None
    else if p[0].0 == k then Some(p[0].1)
    else
      assert Keys(p) == [p[0].0] + Keys(p[1..]);
      Lookup(p[1..], k)
  }

  /** `{...p, [k]: v}`: a key already present keeps its place and takes the new value; a new key goes last. */
  function Assign(p: Props, k: string, v: string): Props
  {
    if p == [] then [(k, v)]
    else if p[0].0 == k then [(k, v)] + p[1..]
    else [p[0]] + Assign(p[1..], k, v)
  }

  lemma {:induction false} AssignKeys(p: Props, k: string, v: string)
    ensures k in Keys(p) ==> Keys(Assign(p, k, v)) == Keys(p)
    ensures k !in Keys(p) ==> Keys(Assign(p, k, v)) == Keys(p) + [k]
  {
    if p == [] {
    } else if p[0].0 == k {
      assert Keys(Assign(p, k, v)) == Keys(p);
      assert Keys(p)[0] == k;
    } else {
      var rest := Assign(p[1..], k, v);
      var ks := Keys(p[1..]);
      assert Keys(p) == [p[0].0] + ks by {
        assert p == [p[0]] + p[1..];
        KeysCons(p[0], p[1..]);
      }
      assert Keys(Assign(p, k, v)) == [p[0].0] + Keys(rest) by {
        KeysCons(p[0], rest);
      }
      AssignKeys(p[1..], k, v);
      if k !in ks {
        assert [p[0].0] + (ks + [k]) == ([p[0].0] + ks) + [k];
      }
    }
  }

  lemma KeysCons(x: (string, string), q: Props)
    ensures Keys([x] + q) == [x.0] + Keys(q)
  {
  }

  /** `{...p, ...q}`: the keys of `q` assigned one after the other. */
  function Spread(p: Props, q: Props): Props
    decreases |q|
  {
    if q == [] then p else Spread(Assign(p, q[0].0, q[0].1), q[1..])
  }

  /** After `{...p, [k]: v}`, `k` reads `v` and every other key reads as before. */
  lemma {:induction false} AssignLookup(p: Props, k: string, v: string, k': string)
    ensures Lookup(Assign(p, k, v), k') == if k' == k then Some(v) else Lookup(p, k')
  {
    if p != [] && p[0].0 != k {
      AssignLookup(p[1..], k, v, k');
    }
  }

  /** Assigning a key that is not there appends it. */
  lemma {:induction false} AssignNew(p: Props, k: string, v: string)
    requires k !in Keys(p)
    ensures Assign(p, k, v) == p + [(k, v)]
  {
    if p != [] {
      assert Keys(p) == [p[0].0] + Keys(p[1..]);
      AssignNew(p[1..], k, v);
      assert [p[0]] + (p[1..] + [(k, v)]) == p + [(k, v)];
    }
  }

  lemma AssignDistinct(p: Props, k: string, v: string)
    requires DistinctKeys(p)
    ensures DistinctKeys(Assign(p, k, v))
  {
    var r := Assign(p, k, v);
    AssignKeys(p, k, v);
    assert forall i :: 0 <= i < |r| ==> r[i].0 == Keys(r)[i];
    assert forall i :: 0 <= i < |p| ==> p[i].0 == Keys(p)[i];
  }

  /** After `{...p, ...q}` a key of `q` reads its value in `q`, any other key its value in `p`. */
  lemma {:induction false} SpreadLookup(p: Props, q: Props, k: string)
    requires DistinctKeys(q)
    ensures Lookup(Spread(p, q), k) == if k in Keys(q) then Lookup(q, k) else Lookup(p, k)
    decreases |q|
  {
    if q != [] {
      assert Keys(q) == [q[0].0] + Keys(q[1..]);
      SpreadLookup(Assign(p, q[0].0, q[0].1), q[1..], k);
      AssignLookup(p, q[0].0, q[0].1, k);
      if k == q[0].0 {
        assert k !in Keys(q[1..]);
      }
    }
  }

  /** The keys of `{...p, ...q}` are those of `p` and of `q`. */
  lemma {:induction false} SpreadKeys(p: Props, q: Props, k: string)
    ensures k in Keys(Spread(p, q)) <==> k in Keys(p) || k in Keys(q)
    decreases |q|
  {
    if q != [] {
      assert Keys(q) == [q[0].0] + Keys(q[1..]);
      AssignKeys(p, q[0].0, q[0].1);
      SpreadKeys(Assign(p, q[0].0, q[0].1), q[1..], k);
    }
  }

  lemma {:induction false} SpreadDistinct(p: Props, q: Props)
    requires DistinctKeys(p)
    ensures DistinctKeys(Spread(p, q))
    decreases |q|
  {
    if q != [] {
      AssignDistinct(p, q[0].0, q[0].1);
      SpreadDistinct(Assign(p, q[0].0, q[0].1), q[1..]);
    }
  }

  lemma FreshTail(p: Props, q: Props)
    requires |q| >= 1 && DistinctKeys(q)
    requires forall i :: 0 <= i < |q| ==> q[i].0 !in Keys(p)
    ensures DistinctKeys(q[1..])
    ensures forall i :: 0 <= i < |q[1..]| ==> q[1..][i].0 !in Keys(p + [q[0]])
  {
    forall i | 0 <= i < |q[1..]|
      ensures q[1..][i].0 !in Keys(p + [q[0]])
    {
      assert q[1..][i] == q[i + 1];
      assert q[i + 1].0 != q[0].0;
      assert Keys(p + [q[0]]) == Keys(p) + [q[0].0];
    }
  }

  /** Spreading an object whose keys are all new appends it: `{...p, ...q}` is `p` then `q`. */
  lemma {:induction false} SpreadFresh(p: Props, q: Props)
    requires DistinctKeys(q)
    requires forall i :: 0 <= i < |q| ==> q[i].0 !in Keys(p)
    ensures Spread(p, q) == p + q
    decreases |q|
  {
    if q != [] {
      AssignNew(p, q[0].0, q[0].1);
      assert (q[0].0, q[0].1) == q[0];
      FreshTail(p, q);
      SpreadFresh(p + [q[0]], q[1..]);
      SpreadStep(p, q);
    }
  }

  lemma SpreadStep(p: Props, q: Props)
    requires q != [] && Assign(p, q[0].0, q[0].1) == p + [q[0]]
    requires Spread(p + [q[0]], q[1..]) == p + [q[0]] + q[1..]
    ensures Spread(p, q) == p + q
  {
    var x, rest := q[0], q[1..];
    assert q == [x] + rest;
    assert p + [x] + rest == p + q;
  }

  /** The default properties: `{ phpfpmPort: 9000 }`. */
  const Defaults: Props := [("phpfpmPort", "9000")]

  /** `{...defaultProps, ...properties}`. */
  function AllProps(props: Props): Props
  {
    Spread(Defaults, props)
  }

  /** The caller's properties override the default port; every other key reads as the caller gave it. */
  lemma AllPropsLookup(props: Props, k: string)
    requires DistinctKeys(props)
    ensures Lookup(AllProps(props), k)
         == if k in Keys(props) then Lookup(props, k) else if k == "phpfpmPort" then Some("9000") else None
  {
    SpreadLookup(Defaults, props, k);
  }

  /** The port comes first in key order whatever the caller passes. */
  lemma AllPropsPortFirst(props: Props)
    ensures |AllProps(props)| >= 1 && AllProps(props)[0].0 == "phpfpmPort"
  {
    PortStaysFirst(Defaults, props);
  }

  lemma {:induction false} PortStaysFirst(p: Props, q: Props)
    requires |p| >= 1 && p[0].0 == "phpfpmPort"
    ensures |Spread(p, q)| >= 1 && Spread(p, q)[0].0 == "phpfpmPort"
    decreases |q|
  {
    if q != [] {
      var p' := Assign(p, q[0].0, q[0].1);
      assert Keys(p')[0] == "phpfpmPort";
      PortStaysFirst(p', q[1..]);
    }
  }

  /**
   * `{ ...defaultProps, properties }` in dist/services/nginx.js: the caller's
   * object is stored under the key `properties` instead of being spread, and
   * `replaceAll` turns that object into the text "[object Object]".
   */
  function DistAllProps(props: Props): (r: Props)
    ensures Keys(r) == ["phpfpmPort", "properties"]
  {
    [("phpfpmPort", "9000"), ("properties", "[object Object]")]
  }

  // ---------------------------------------------------------------- substitution

  /** `{{key}}`. */
  function Placeholder(k: string): (r: string)
    ensures |r| == |k| + 4 && r[0] == '{' && r[1] == '{'
  {
    "{{" + k + "}}"
  }

  predicate NoBraces(s: string) {
    '{' !in s && '}' !in s
  }

  predicate KeysWithoutBraces(p: Props) {
    forall i :: 0 <= i < |p| ==> NoBraces(p[i].0)
  }

  predicate ValuesWithoutBraces(p: Props) {
    forall i :: 0 <= i < |p| ==> NoBraces(p[i].1)
  }

  /** The `reduce` over the keys: each `{{key}}` is replaced everywhere by its value, key after key. */
  function Substitute(template: string, all: Props): string
    decreases |all|
  {
    if all == [] then template
    else Substitute(ReplaceAll(template, Placeholder(all[0].0), all[0].1), all[1..])
  }

  /**
   * The placeholder scan: when `{{` occurs, the name is the slice from just
   * after the first `{{` up to the first `}}` (`slice(i + 2, -1)` when there is
   * no `}}`, which drops the last character).
   */
  function UnresolvedName(s: string): (r: Option<string>)
    ensures r.None? <==> IndexOf(s, "{{").None?
  {
    match IndexOf(s, "{{")
    case None => None
    case Some(i) =>
      var end := match IndexOf(s, "}}") case None => -1 case Some(e) => e as int;
      Some(Slice(s, i + 2, end))
  }

  /** Substitute, then reject the result when a placeholder is left. */
  function Render(template: string, all: Props): (r: Result<string>)
    ensures r.Ok? ==> r.value == Substitute(template, all) && IndexOf(r.value, "{{").None?
    ensures r.Err? ==> r.error.UnresolvedProperty?
  {
    var s := Substitute(template, all);
    match UnresolvedName(s)
    case None => Ok(s)
    case Some(n) => Err(UnresolvedProperty(n))
  }

  /** A pattern is not a prefix of a text that differs from it at some position. */
  lemma NotPrefixAt(pat: string, t: string, i: nat)
    requires i < |pat| && (i >= |t| || t[i] != pat[i])
    ensures !(pat <= t)
  {
  }

  /**
   * Around a placeholder `{{n}}` placed at `|a|`, no other placeholder `{{k}}`
   * can start just before it or inside it.
   */
  lemma NearPlaceholder(a: string, n: string, b: string, k: string, j: nat)
    requires NoBraces(n) && NoBraces(k)
    requires |a| < j + |Placeholder(k)| && j < |a| + |Placeholder(n)| && (j == |a| ==> n != k)
    ensures !(Placeholder(k) <= (a + Placeholder(n) + b)[j..])
  {
    var s := a + Placeholder(n) + b;
    var pat := Placeholder(k);
    var q := Placeholder(n);
    assert s[|a|..|a| + |q|] == q;
    if j < |a| {
      var d := |a| - j;
      if d == 1 {
        assert pat[2] != '{';
        NotPrefixAt(pat, s[j..], 2);
      } else {
        assert pat[d] != '{';
        NotPrefixAt(pat, s[j..], d);
      }
    } else if j == |a| {
      PlaceholdersDiffer(n, k, b);
      assert s[j..] == q + b;
    } else if j == |a| + 1 {
      assert s[j + 1] == q[2] != '{';
      NotPrefixAt(pat, s[j..], 1);
    } else {
      assert s[j] == q[j - |a|] != '{';
      NotPrefixAt(pat, s[j..], 0);
    }
  }

  /** A placeholder is not a prefix of a different placeholder followed by anything. */
  lemma PlaceholdersDiffer(n: string, k: string, b: string)
    requires NoBraces(n) && NoBraces(k) && n != k
    ensures !(Placeholder(k) <= Placeholder(n) + b)
  {
    var t := Placeholder(n) + b;
    var pat := Placeholder(k);
    if |k| < |n| {
      assert pat[|k| + 2] == '}' && t[|k| + 2] == n[|k|];
      NotPrefixAt(pat, t, |k| + 2);
    } else if |n| < |k| {
      assert t[|n| + 2] == '}' && pat[|n| + 2] == k[|n|];
      NotPrefixAt(pat, t, |n| + 2);
    } else {
      var i :| 0 <= i < |k| && k[i] != n[i];
      assert pat[i + 2] == k[i] && t[i + 2] == n[i];
      NotPrefixAt(pat, t, i + 2);
    }
  }

  /** Text without braces holds no placeholder. */
  lemma NoPlaceholderIn(s: string, k: string)
    requires '{' !in s
    ensures IndexOf(s, Placeholder(k)).None?
  {
    forall j | 0 <= j <= |s|
      ensures !(Placeholder(k) <= s[j..])
    {
      if j < |s| {
        assert s[j..][0] == s[j];
      }
      NotPrefixAt(Placeholder(k), s[j..], 0);
    }
  }

  /** Replacing another placeholder leaves an unknown `{{n}}` in place, between the replaced texts around it. */
  lemma ReplaceKeepsPlaceholder(a: string, n: string, b: string, k: string, v: string)
    requires NoBraces(n) && NoBraces(k) && n != k
    ensures ReplaceAll(a + Placeholder(n) + b, Placeholder(k), v)
         == ReplaceAll(a, Placeholder(k), v) + Placeholder(n) + ReplaceAll(b, Placeholder(k), v)
  {
    CutAfterPlaceholder(a, n, b, k, v);
    CutBeforePlaceholder(a, n, k, v);
  }

  lemma CutAfterPlaceholder(a: string, n: string, b: string, k: string, v: string)
    requires NoBraces(n) && NoBraces(k) && n != k
    ensures ReplaceAll(a + Placeholder(n) + b, Placeholder(k), v)
         == ReplaceAll(a + Placeholder(n), Placeholder(k), v) + ReplaceAll(b, Placeholder(k), v)
  {
    var q := Placeholder(n);
    var pat := Placeholder(k);
    var s := a + q + b;
    forall j | 0 <= j < |a| + |q| && |a| + |q| < j + |pat| && j <= |s|
      ensures !(pat <= s[j..])
    {
      NearPlaceholder(a, n, b, k, j);
    }
    ReplaceAllCut(s, |a| + |q|, pat, v);
    assert s[..|a| + |q|] == a + q && s[|a| + |q|..] == b;
  }

  lemma CutBeforePlaceholder(a: string, n: string, k: string, v: string)
    requires NoBraces(n) && NoBraces(k) && n != k
    ensures ReplaceAll(a + Placeholder(n), Placeholder(k), v) == ReplaceAll(a, Placeholder(k), v) + Placeholder(n)
  {
    var q := Placeholder(n);
    var pat := Placeholder(k);
    var s := a + q + "";
    forall j | 0 <= j < |a| && |a| < j + |pat| && j <= |a + q|
      ensures !(pat <= (a + q)[j..])
    {
      NearPlaceholder(a, n, "", k, j);
      assert (a + q)[j..] <= s[j..];
    }
    ReplaceAllCut(a + q, |a|, pat, v);
    assert (a + q)[..|a|] == a && (a + q)[|a|..] == q;
    forall j | 0 <= j <= |q|
      ensures !(pat <= q[j..])
    {
      if j < |q| {
        NearPlaceholder(a, n, "", k, |a| + j);
        assert q[j..] <= s[|a| + j..];
      }
    }
    ReplaceAllAbsent(q, pat, v);
  }

  /** A placeholder whose name is not a key survives the whole substitution. */
  lemma {:induction false} SubstituteKeepsPlaceholder(a: string, n: string, b: string, all: Props)
    returns (a': string, b': string)
    requires NoBraces(n) && KeysWithoutBraces(all) && n !in Keys(all)
    ensures Substitute(a + Placeholder(n) + b, all) == a' + Placeholder(n) + b'
    ensures ValuesWithoutBraces(all) && NoBraces(a) ==> a' == a
    decreases |all|
  {
    if all == [] {
      a', b' := a, b;
    } else {
      var k, v := all[0].0, all[0].1;
      assert n != k by { assert Keys(all)[0] == k; }
      ReplaceKeepsPlaceholder(a, n, b, k, v);
      var a1, b1 := ReplaceAll(a, Placeholder(k), v), ReplaceAll(b, Placeholder(k), v);
      if NoBraces(a) {
        NoPlaceholderIn(a, k);
        ReplaceAllAbsent(a, Placeholder(k), v);
      }
      assert Keys(all) == [k] + Keys(all[1..]);
      a', b' := SubstituteKeepsPlaceholder(a1, n, b1, all[1..]);
    }
  }

  lemma FirstOpening(a: string, n: string, b: string)
    requires NoBraces(a)
    ensures IndexOf(a + Placeholder(n) + b, "{{") == Some(|a|)
  {
    var s := a + Placeholder(n) + b;
    assert s[|a|..][..2] == "{{";
    assert OccursAt(s, "{{", |a|);
    forall j: nat | j < |a|
      ensures !OccursAt(s, "{{", j)
    {
      assert s[j] == a[j];
      NotPrefixAt("{{", s[j..], 0);
    }
    IndexOfAt(s, "{{", |a|);
  }

  lemma FirstClosing(a: string, n: string, b: string)
    requires NoBraces(a) && NoBraces(n)
    ensures IndexOf(a + Placeholder(n) + b, "}}") == Some(|a| + 2 + |n|)
  {
    var s := a + Placeholder(n) + b;
    var e := |a| + 2 + |n|;
    assert s[e..][..2] == "}}";
    assert OccursAt(s, "}}", e);
    forall j: nat | j < e
      ensures !OccursAt(s, "}}", j)
    {
      if j < |a| {
        assert s[j] == a[j];
      } else if j < |a| + 2 {
        assert s[j] == '{';
      } else {
        assert s[j] == n[j - |a| - 2];
      }
      NotPrefixAt("}}", s[j..], 0);
    }
    IndexOfAt(s, "}}", e);
  }

  lemma SliceWithin(s: string, i: nat, j: nat)
    requires i <= j <= |s|
    ensures Slice(s, i, j) == s[i..j]
  {
  }

  /** With no brace before it, the first placeholder `{{n}}` is the one the scan names. */
  lemma FirstPlaceholderNamed(a: string, n: string, b: string)
    requires NoBraces(a) && NoBraces(n)
    ensures UnresolvedName(a + Placeholder(n) + b) == Some(n)
  {
    var s, e := a + Placeholder(n) + b, |a| + 2 + |n|;
    assert IndexOf(s, "}}") == Some(e) by { FirstClosing(a, n, b); }
    assert IndexOf(s, "{{") == Some(|a|) by { FirstOpening(a, n, b); }
    NameInside(a, n, b);
    ScanNames(s, |a|, e, n);
  }

  /** The scan names the text between the first `{{` and the first `}}` when that one comes later. */
  lemma NameBetween(s: string, i: nat, e: nat)
    requires IndexOf(s, "{{") == Some(i) && IndexOf(s, "}}") == Some(e)
    ensures UnresolvedName(s) == Some(Slice(s, i + 2, e))
  {
  }

  lemma ScanNames(s: string, i: nat, e: nat, n: string)
    requires IndexOf(s, "{{") == Some(i) && IndexOf(s, "}}") == Some(e)
    requires i + 2 <= e <= |s| && s[i + 2..e] == n
    ensures UnresolvedName(s) == Some(n)
  {
    NameBetween(s, i, e);
    SliceWithin(s, i + 2, e);
  }

  lemma NameInside(a: string, n: string, b: string)
    ensures var s := a + Placeholder(n) + b;
            |a| + 2 + |n| <= |s| && s[|a| + 2..|a| + 2 + |n|] == n
  {
    var s := a + Placeholder(n) + b;
    assert s[|a|..|a| + |n| + 4] == Placeholder(n);
    assert Placeholder(n)[2..|n| + 2] == n;
  }

  /** Any template holding a placeholder of a name that is not a key is rejected as unresolved. */
  lemma UnknownPlaceholderRejected(a: string, n: string, b: string, all: Props)
    requires NoBraces(n) && KeysWithoutBraces(all) && n !in Keys(all)
    ensures Render(a + Placeholder(n) + b, all).Err?
    ensures NoBraces(a) && ValuesWithoutBraces(all) ==> Render(a + Placeholder(n) + b, all) == Err(UnresolvedProperty(n))
  {
    var a', b' := SubstituteKeepsPlaceholder(a, n, b, all);
    var s := a' + Placeholder(n) + b';
    assert s[|a'|..][..2] == "{{";
    assert OccursAt(s, "{{", |a'|);
    if NoBraces(a) && ValuesWithoutBraces(all) {
      FirstPlaceholderNamed(a', n, b');
    }
  }

  /**
   * dist/services/nginx.js can substitute only `{{phpfpmPort}}` and
   * `{{properties}}`: a template that uses `{{hostName}}` (as the WordPress
   * template does) is always rejected, naming `hostName` when no brace comes before it.
   */
  lemma DistHostNameUnresolved(a: string, b: string, props: Props)
    ensures Render(a + Placeholder("hostName") + b, DistAllProps(props)).Err?
    ensures NoBraces(a) ==> Render(a + Placeholder("hostName") + b, DistAllProps(props)) == Err(UnresolvedProperty("hostName"))
  {
    var all := DistAllProps(props);
    assert NoBraces("phpfpmPort") && NoBraces("properties") && NoBraces("hostName");
    assert NoBraces("9000") && NoBraces("[object Object]");
    assert "hostName" != "phpfpmPort" && "hostName" != "properties" by {
      assert "hostName"[0] != "phpfpmPort"[0];
      assert "hostName"[0] != "properties"[0];
    }
    UnknownPlaceholderRejected(a, "hostName", b, all);
  }

  /** Replacing `{{k}}` in text whose only brace-holding part is that one placeholder puts the value in its place. */
  lemma ReplaceOwnPlaceholder(a: string, k: string, b: string, v: string)
    requires NoBraces(a) && NoBraces(b) && NoBraces(k)
    ensures ReplaceAll(a + Placeholder(k) + b, Placeholder(k), v) == a + v + b
  {
    var q := Placeholder(k);
    var s := a + q + b;
    forall j | 0 <= j < |a| && |a| < j + |q| && j <= |s|
      ensures !(q <= s[j..])
    {
      NearPlaceholder(a, k, b, k, j);
    }
    ReplaceAllCut(s, |a|, q, v);
    assert s[..|a|] == a && s[|a|..] == q + b;
    NoPlaceholderIn(a, k);
    ReplaceAllAbsent(a, q, v);
    assert q <= q + b && (q + b)[|q|..] == b;
    NoPlaceholderIn(b, k);
    ReplaceAllAbsent(b, q, v);
  }

  /** A placeholder of a key, in text otherwise free of braces, is replaced by that key's value. */
  lemma {:induction false} SubstituteFills(a: string, k: string, b: string, all: Props)
    requires NoBraces(a) && NoBraces(b) && NoBraces(k)
    requires KeysWithoutBraces(all) && ValuesWithoutBraces(all) && DistinctKeys(all) && k in Keys(all)
    ensures Substitute(a + Placeholder(k) + b, all) == a + Lookup(all, k).value + b
    decreases |all|
  {
    var k0, v0 := all[0].0, all[0].1;
    if k0 == k {
      SubstituteFillsFirst(a, k, b, all);
    } else {
      assert k in Keys(all[1..]) by {
        assert Keys(all) == [k0] + Keys(all[1..]);
      }
      assert ReplaceAll(a + Placeholder(k) + b, Placeholder(k0), v0) == a + Placeholder(k) + b by {
        ReplaceKeepsPlaceholder(a, k, b, k0, v0);
        NoPlaceholderIn(a, k0);
        ReplaceAllAbsent(a, Placeholder(k0), v0);
        NoPlaceholderIn(b, k0);
        ReplaceAllAbsent(b, Placeholder(k0), v0);
      }
      SubstituteFills(a, k, b, all[1..]);
    }
  }

  /** The case where the key comes first: its value goes in, and no later key matches the result. */
  lemma SubstituteFillsFirst(a: string, k: string, b: string, all: Props)
    requires NoBraces(a) && NoBraces(b) && NoBraces(k)
    requires ValuesWithoutBraces(all) && DistinctKeys(all) && all != [] && all[0].0 == k
    ensures Substitute(a + Placeholder(k) + b, all) == a + all[0].1 + b
  {
    var v0 := all[0].1;
    assert ReplaceAll(a + Placeholder(k) + b, Placeholder(k), v0) == a + v0 + b by {
      ReplaceOwnPlaceholder(a, k, b, v0);
    }
    SubstituteUnchanged(a + v0 + b, all[1..]);
  }

  /** Text without braces passes through substitution unchanged. */
  lemma {:induction false} SubstituteUnchanged(s: string, all: Props)
    requires '{' !in s
    ensures Substitute(s, all) == s
    decreases |all|
  {
    if all != [] {
      NoPlaceholderIn(s, all[0].0);
      ReplaceAllAbsent(s, Placeholder(all[0].0), all[0].1);
      SubstituteUnchanged(s, all[1..]);
    }
  }

  // ---------------------------------------------------------------- the footer

  /** `{...properties, type, name}`: the caller's properties, then `type` and `name`; defaults are not listed. */
  function ExtendedProps(props: Props, siteType: string, name: string): Props
  {
    Assign(Assign(Spread([], props), "type", siteType), "name", name)
  }

  lemma ExtendedKeys(props: Props, siteType: string, name: string, k: string)
    ensures k in Keys(ExtendedProps(props, siteType, name)) <==> k in Keys(props) || k == "type" || k == "name"
  {
    SpreadKeys([], props, k);
    AssignKeys(Spread([], props), "type", siteType);
    AssignKeys(Assign(Spread([], props), "type", siteType), "name", name);
  }

  lemma ExtendedDistinct(props: Props, siteType: string, name: string)
    ensures DistinctKeys(ExtendedProps(props, siteType, name))
  {
    SpreadDistinct([], props);
    AssignDistinct(Spread([], props), "type", siteType);
    AssignDistinct(Assign(Spread([], props), "type", siteType), "name", name);
  }

  /** `##% ${key}: ${value}`. */
  function FooterLine(k: string, v: string): string
  {
    "##% " + k + ": " + v
  }

  function FooterLines(p: Props): (r: seq<string>)
    ensures |r| == |p| && forall i :: 0 <= i < |p| ==> r[i] == FooterLine(p[i].0, p[i].1)
  {
    seq(|p|, i requires 0 <= i < |p| => FooterLine(p[i].0, p[i].1))
  }

  /** The text `addSite` writes: the rendered template, an empty line, then the footer lines. */
  function SiteConfig(rendered: string, props: Props, siteType: string, name: string): string
  {
    Join([rendered, ""] + FooterLines(ExtendedProps(props, siteType, name)), "\n")
  }

  // ---------------------------------------------------------------- getSiteInfo

  /** One `##%` line split on single spaces: the key is the second part less its first `:`, the value the rest. */
  function InfoEntry(line: string): (r: Result<(string, string)>)
    ensures r.Err? <==> |SplitOn(line, ' ')| < 2
  {
    var values := SplitOn(line, ' ');
    if |values| < 2 then Err(MalformedFooter(line))
    else Ok((ReplaceFirst(values[1], ":", ""), Join(values[2..], " ")))
  }

  /** The `filter`, `map` and `reduce` over the lines: later keys overwrite earlier ones. */
  function Collect(acc: Props, lines: seq<string>): Result<Props>
    decreases |lines|
  {
    if lines == [] then Ok(acc)
    else if !("##%" <= lines[0]) then Collect(acc, lines[1..])
    else
      match InfoEntry(lines[0])
      case Err(f) => Err(f)
      case Ok(entry) => Collect(Assign(acc, entry.0, entry.1), lines[1..])
  }

  /** `getSiteInfo` on the text of a configuration. */
  function SiteInfo(config: string): Result<Props>
  {
    Collect([], SplitOn(config, '\n'))
  }

  /** A key the footer parser reads back: no space, no `:` and no line break. */
  predicate FooterKey(k: string) {
    ' ' !in k && ':' !in k && '\n' !in k
  }

  /** A value the footer parser reads back: no line break. */
  predicate FooterValue(v: string) {
    '\n' !in v
  }

  predicate FooterSafe(p: Props) {
    forall i :: 0 <= i < |p| ==> FooterKey(p[i].0) && FooterValue(p[i].1)
  }

  /** Lines that do not start with `##%` are skipped. */
  lemma {:induction false} CollectSkips(acc: Props, xs: seq<string>, ys: seq<string>)
    requires forall i :: 0 <= i < |xs| ==> !("##%" <= xs[i])
    ensures Collect(acc, xs + ys) == Collect(acc, ys)
    decreases |xs|
  {
    if xs == [] {
      assert xs + ys == ys;
    } else {
      assert (xs + ys)[0] == xs[0];
      assert !("##%" <= xs[0]);
      assert (xs + ys)[1..] == xs[1..] + ys;
      assert forall i :: 0 <= i < |xs[1..]| ==> xs[1..][i] == xs[i + 1];
      CollectSkips(acc, xs[1..], ys);
    }
  }

  /** A footer line reads back as its key and value. */
  lemma InfoEntryOfFooterLine(k: string, v: string)
    requires FooterKey(k) && FooterValue(v)
    ensures "##%" <= FooterLine(k, v) && '\n' !in FooterLine(k, v)
    ensures InfoEntry(FooterLine(k, v)) == Ok((k, v))
  {
    var line := FooterLine(k, v);
    assert line == "##%" + [' '] + ((k + ":") + [' '] + v);
    assert ' ' !in "##%";
    var values := MarkedPairSplits("##%", k + ":", v);
    ReplaceLastChar(k, ':');
    JoinOfSplit(v, ' ');
    assert " " == [' '];
  }

  /** A space-free marker and a space-free key, each followed by a space, split off as the first two words. */
  lemma MarkedPairSplits(m: string, key: string, v: string) returns (values: seq<string>)
    requires ' ' !in m && ' ' !in key
    ensures values == SplitOn(m + [' '] + (key + [' '] + v), ' ')
    ensures |values| >= 2 && values[0] == m && values[1] == key && values[2..] == SplitOn(v, ' ')
  {
    SplitAround(m, ' ', key + [' '] + v);
    SplitAround(key, ' ', v);
    SplitWithoutSeparator(m, ' ');
    SplitWithoutSeparator(key, ' ');
    values := SplitOn(m + [' '] + (key + [' '] + v), ' ');
    assert values == [m] + ([key] + SplitOn(v, ' '));
  }

  /** The footer lines of safe properties collect into those properties, assigned one by one. */
  lemma {:induction false} CollectFooter(acc: Props, p: Props)
    requires FooterSafe(p)
    ensures Collect(acc, FooterLines(p)) == Ok(Spread(acc, p))
    decreases |p|
  {
    if p != [] {
      InfoEntryOfFooterLine(p[0].0, p[0].1);
      assert FooterLines(p)[1..] == FooterLines(p[1..]);
      CollectFooter(Assign(acc, p[0].0, p[0].1), p[1..]);
    }
  }

  /** The lines of a written configuration: the template's lines, the empty line, the footer. */
  lemma SiteConfigLines(rendered: string, footer: seq<string>)
    requires forall i :: 0 <= i < |footer| ==> '\n' !in footer[i]
    ensures SplitOn(Join([rendered, ""] + footer, "\n"), '\n') == SplitOn(rendered, '\n') + ([""] + footer)
  {
    var rest := [""] + footer;
    assert [rendered, ""] + footer == [rendered] + rest;
    JoinCons(rendered, rest, "\n");
    assert "\n" == ['\n'];
    forall i | 0 <= i < |rest|
      ensures '\n' !in rest[i]
    {
      if i > 0 { assert rest[i] == footer[i - 1]; }
    }
    SplitOfJoin(rest, '\n');
    SplitAround(rendered, '\n', Join(rest, "\n"));
  }

  lemma {:induction false} AssignSafe(p: Props, k: string, v: string)
    requires FooterSafe(p) && FooterKey(k) && FooterValue(v)
    ensures FooterSafe(Assign(p, k, v))
  {
    if p != [] && p[0].0 != k {
      AssignSafe(p[1..], k, v);
      var r := Assign(p[1..], k, v);
      assert forall i :: 1 <= i < |[p[0]] + r| ==> ([p[0]] + r)[i] == r[i - 1];
    }
  }

  lemma {:induction false} SpreadSafe(p: Props, q: Props)
    requires FooterSafe(p) && FooterSafe(q)
    ensures FooterSafe(Spread(p, q))
    decreases |q|
  {
    if q != [] {
      AssignSafe(p, q[0].0, q[0].1);
      assert forall i :: 0 <= i < |q[1..]| ==> q[1..][i] == q[i + 1];
      SpreadSafe(Assign(p, q[0].0, q[0].1), q[1..]);
    }
  }

  lemma ExtendedSafe(props: Props, siteType: string, name: string)
    requires FooterSafe(props) && FooterValue(siteType) && FooterValue(name)
    ensures FooterSafe(ExtendedProps(props, siteType, name))
  {
    SpreadSafe([], props);
    assert FooterKey("type") && FooterKey("name");
    AssignSafe(Spread([], props), "type", siteType);
    AssignSafe(Assign(Spread([], props), "type", siteType), "name", name);
  }

  /** The extended properties read `name` and `type` as given, every other key as the caller's object does. */
  lemma ExtendedLookup(props: Props, siteType: string, name: string, k: string)
    ensures Lookup(ExtendedProps(props, siteType, name), k)
         == if k == "name" then Some(name) else if k == "type" then Some(siteType) else Lookup(Spread([], props), k)
  {
    AssignLookup(Assign(Spread([], props), "type", siteType), "name", name, k);
    AssignLookup(Spread([], props), "type", siteType, k);
  }

  /** The lines of a configuration whose footer lists safe properties. */
  lemma FooterConfigLines(rendered: string, e: Props)
    requires FooterSafe(e)
    ensures SplitOn(Join([rendered, ""] + FooterLines(e), "\n"), '\n') == (SplitOn(rendered, '\n') + [""]) + FooterLines(e)
  {
    var footer := FooterLines(e);
    forall i | 0 <= i < |footer|
      ensures '\n' !in footer[i]
    {
      InfoEntryOfFooterLine(e[i].0, e[i].1);
    }
    SiteConfigLines(rendered, footer);
    assert SplitOn(rendered, '\n') + ([""] + footer) == (SplitOn(rendered, '\n') + [""]) + footer;
  }

  /** A configuration with a footer of safe, distinct properties reads back as exactly those properties. */
  lemma FooterReadsBack(rendered: string, e: Props)
    requires forall i :: 0 <= i < |SplitOn(rendered, '\n')| ==> !("##%" <= SplitOn(rendered, '\n')[i])
    requires FooterSafe(e) && DistinctKeys(e)
    ensures SiteInfo(Join([rendered, ""] + FooterLines(e), "\n")) == Ok(e)
  {
    var before := SplitOn(rendered, '\n') + [""];
    FooterConfigLines(rendered, e);
    forall i | 0 <= i < |before|
      ensures !("##%" <= before[i])
    {
      if i == |before| - 1 {
        assert before[i] == "";
      } else {
        assert before[i] == SplitOn(rendered, '\n')[i];
      }
    }
    CollectSkips([], before, FooterLines(e));
    CollectFooter([], e);
    SpreadFresh([], e);
    assert [] + e == e;
  }

  /**
   * `getSiteInfo` reads back what `addSite` wrote: the caller's properties,
   * then `type` and `name`, provided the rendered template has no `##%` line,
   * no key holds a space, a `:` or a line break, and no value a line break.
   */
  lemma SiteInfoRoundTrip(rendered: string, props: Props, siteType: string, name: string)
    requires forall i :: 0 <= i < |SplitOn(rendered, '\n')| ==> !("##%" <= SplitOn(rendered, '\n')[i])
    requires FooterSafe(props) && FooterValue(siteType) && FooterValue(name)
    ensures SiteInfo(SiteConfig(rendered, props, siteType, name)) == Ok(ExtendedProps(props, siteType, name))
  {
    ExtendedSafe(props, siteType, name);
    ExtendedDistinct(props, siteType, name);
    FooterReadsBack(rendered, ExtendedProps(props, siteType, name));
  }
}
