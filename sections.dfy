/**
 * The hosts file as a list of lines: reading it (`getHosts`), the managed
 * sections `## X ##` ... `## X - End ##`, and the list transformations behind
 * `addHost`, `removeHost` and `removeHostByComment`, with `toHostsString` to
 * write the list back. Everything here is a pure function of the lines; the
 * module `Hosts` reads and replaces the file.
 */
module Sections {
  import opened Outcomes
  import opened Strings
  import opened HostLine

  /** How every line of a file is read: a `#` line or a blank line is text, anything else an entry. */
  function Classify(rev: Revision, line: string): Result<HostLine>
  {
    if "#" <= line then Ok(Raw(line))
    else if Trim(line) == "" then Ok(Raw(""))
    else
      match Parse(rev, line)
      case Ok(e) => Ok(Entry(e))
      case Err(f) => Err(f)
  }

  /**
   * Only a line with `#` in column 0 is kept as it is; a line of white space
   * becomes ""; every other line is an entry exactly when it parses, and
   * fails with the parse error otherwise.
   */
  lemma ClassifyLine(rev: Revision, line: string)
    ensures Classify(rev, line).Ok? && Classify(rev, line).value.Raw? <==> "#" <= line || Trim(line) == ""
    ensures Classify(rev, line).Ok? && Classify(rev, line).value.Raw?
            ==> Classify(rev, line).value.text == (if "#" <= line then line else "")
    ensures Classify(rev, line).Ok? && Classify(rev, line).value.Entry? ==> Parse(rev, line) == Ok(Classify(rev, line).value.entry)
    ensures Classify(rev, line).Err? <==> !("#" <= line) && Trim(line) != "" && Parse(rev, line).Err?
    ensures Classify(rev, line).Err? ==> Classify(rev, line).error == InvalidHostDefinition(line)
  {
  }

  /**
   * `xs.map(f)` where `f` may throw: one result per element, in order; the
   * first element on which `f` fails aborts the whole map with its error.
   */
  function MapAll<A, B>(f: A -> Result<B>, xs: seq<A>): (r: Result<seq<B>>)
    ensures r.Ok? ==> |r.value| == |xs|
    ensures r.Ok? ==> forall i :: 0 <= i < |xs| ==> f(xs[i]) == Ok(r.value[i])
  {
    if xs == [] then Ok([])
    else
      match f(xs[0])
      case Err(e) => Err(e)
      case Ok(y) =>
        match MapAll(f, xs[1..])
        case Err(e) => Err(e)
        case Ok(ys) =>
          assert forall i :: 1 <= i < |xs| ==> xs[i] == xs[1..][i - 1];
          Ok([y] + ys)
  }

  /** A failed map fails with the error of its first failing element, at index `i`. */
  lemma {:induction false} MapAllFailsAtFirst<A, B>(f: A -> Result<B>, xs: seq<A>) returns (i: nat)
    requires MapAll(f, xs).Err?
    ensures i < |xs| && f(xs[i]) == Err(MapAll(f, xs).error)
    ensures forall j :: 0 <= j < i ==> f(xs[j]).Ok?
  {
    if f(xs[0]).Err? {
      i := 0;
    } else {
      var k := MapAllFailsAtFirst(f, xs[1..]);
      i := k + 1;
      assert forall j :: 1 <= j <= k ==> xs[j] == xs[1..][j - 1];
    }
  }

  /** A map succeeds when `f` succeeds on every element. */
  lemma {:induction false} MapAllSucceeds<A, B>(f: A -> Result<B>, xs: seq<A>)
    requires forall i :: 0 <= i < |xs| ==> f(xs[i]).Ok?
    ensures MapAll(f, xs).Ok?
  {
    if xs != [] {
      assert forall i :: 0 <= i < |xs[1..]| ==> xs[1..][i] == xs[i + 1];
      MapAllSucceeds(f, xs[1..]);
    }
  }

  /** The lines of the file read one by one, as `getHosts` maps them. */
  function ClassifyAll(rev: Revision, lines: seq<string>): (r: Result<seq<HostLine>>)
    ensures r.Ok? ==> |r.value| == |lines|
    ensures r.Ok? ==> forall i :: 0 <= i < |lines| ==> Classify(rev, lines[i]) == Ok(r.value[i])
  {
    MapAll((line: string) => Classify(rev, line), lines)
  }

  /**
   * A read fails exactly when some line fails to classify, and then with the
   * error of the first such line, at index `i`.
   */
  lemma ReadFailsAtFirstBadLine(rev: Revision, lines: seq<string>) returns (i: nat)
    requires ClassifyAll(rev, lines).Err?
    ensures i < |lines| && Classify(rev, lines[i]) == Err(ClassifyAll(rev, lines).error)
    ensures forall j :: 0 <= j < i ==> Classify(rev, lines[j]).Ok?
  {
    i := MapAllFailsAtFirst((line: string) => Classify(rev, line), lines);
  }

  /** A read succeeds when every line classifies. */
  lemma ReadSucceedsWhenEveryLineDoes(rev: Revision, lines: seq<string>)
    requires forall i :: 0 <= i < |lines| ==> Classify(rev, lines[i]).Ok?
    ensures ClassifyAll(rev, lines).Ok?
  {
    MapAllSucceeds((line: string) => Classify(rev, line), lines);
  }

  /** Every text line a read produces is empty or starts with `#`. */
  predicate TextLinesStartWithHash(ls: seq<HostLine>) {
    forall i :: 0 <= i < |ls| && ls[i].Raw? ==> ls[i].text == "" || "#" <= ls[i].text
  }

  lemma ClassifiedText(rev: Revision, line: string)
    ensures Classify(rev, line).Ok? && Classify(rev, line).value.Raw?
            ==> Classify(rev, line).value.text == "" || "#" <= Classify(rev, line).value.text
  {
  }

  lemma ReadTextLines(rev: Revision, lines: seq<string>)
    requires ClassifyAll(rev, lines).Ok?
    ensures TextLinesStartWithHash(ClassifyAll(rev, lines).value)
  {
    var ls := ClassifyAll(rev, lines).value;
    forall i | 0 <= i < |ls| && ls[i].Raw?
      ensures ls[i].text == "" || "#" <= ls[i].text
    {
      ClassifiedText(rev, lines[i]);
    }
  }

  // ---------------------------------------------------------------- sentinels

  function StartMarker(name: string): string { "## " + name + " ##" }

  function EndMarker(name: string): string { "## " + name + " - End ##" }

  /** Whether a line is a text line starting with `marker`, after `trim()` when `trimmed`. */
  predicate IsMarker(l: HostLine, marker: string, trimmed: bool) {
    l.Raw? && marker <= (if trimmed then Trim(l.text) else l.text)
  }

  /** `xs.findIndex(p)`: the first position where `p` holds, None for -1. */
  function FindIndex<T>(p: T -> bool, xs: seq<T>): (r: Option<nat>)
    ensures r.Some? ==> r.value < |xs|
  {
    if xs == [] then None
    else if p(xs[0]) then Some(0)
    else
      match FindIndex(p, xs[1..])
      case None => None
      case Some(i) => Some(i + 1)
  }

  lemma {:induction false} FindIndexHit<T>(p: T -> bool, xs: seq<T>)
    requires FindIndex(p, xs).Some?
    ensures p(xs[FindIndex(p, xs).value])
  {
    if !p(xs[0]) {
      FindIndexHit(p, xs[1..]);
    }
  }

  lemma {:induction false} FindIndexFirst<T>(p: T -> bool, xs: seq<T>, j: nat)
    requires FindIndex(p, xs).Some? && j < FindIndex(p, xs).value
    ensures !p(xs[j])
  {
    if j > 0 {
      FindIndexFirst(p, xs[1..], j - 1);
    }
  }

  /** The search stops at `k` when `p` holds there and nowhere before. */
  lemma {:induction false} FindIndexAt<T>(p: T -> bool, xs: seq<T>, k: nat)
    requires k < |xs| && p(xs[k])
    requires forall j :: 0 <= j < k ==> !p(xs[j])
    ensures FindIndex(p, xs) == Some(k)
  {
    if k > 0 {
      assert !p(xs[0]);
      assert forall j :: 0 <= j < k - 1 ==> xs[1..][j] == xs[j + 1];
      FindIndexAt(p, xs[1..], k - 1);
    }
  }

  lemma {:induction false} FindIndexNone<T>(p: T -> bool, xs: seq<T>)
    ensures FindIndex(p, xs).None? <==> forall j :: 0 <= j < |xs| ==> !p(xs[j])
  {
    if xs != [] {
      FindIndexNone(p, xs[1..]);
      assert forall j :: 1 <= j < |xs| ==> xs[j] == xs[1..][j - 1];
    }
  }

  lemma {:induction false} FindIndexAppend<T>(p: T -> bool, a: seq<T>, b: seq<T>)
    ensures FindIndex(p, a + b)
         == match FindIndex(p, a)
            case Some(i) => Some(i)
            case None => match FindIndex(p, b)
                         case None => None
                         case Some(j) => Some(|a| + j)
  {
    if a == [] {
      assert a + b == b;
    } else {
      assert (a + b)[0] == a[0];
      assert (a + b)[1..] == a[1..] + b;
      FindIndexAppend(p, a[1..], b);
    }
  }

  lemma {:induction false} FindIndexAfterInsert<T>(p: T -> bool, xs: seq<T>, k: nat, x: T)
    requires k <= |xs| && !p(x)
    ensures FindIndex(p, xs[..k] + [x] + xs[k..])
         == match FindIndex(p, xs)
            case None => None
            case Some(j) => Some(if j < k then j else j + 1)
  {
    if k == 0 {
      assert xs[..k] + [x] + xs[k..] == [x] + xs;
      FindIndexAppend(p, [x], xs);
    } else {
      var xs' := xs[..k] + [x] + xs[k..];
      assert xs'[0] == xs[0];
      assert xs'[1..] == xs[1..][..k - 1] + [x] + xs[1..][k - 1..];
      FindIndexAfterInsert(p, xs[1..], k - 1, x);
    }
  }

  lemma {:induction false} FindIndexSameTest<T>(p: T -> bool, q: T -> bool, xs: seq<T>)
    requires forall i :: 0 <= i < |xs| ==> p(xs[i]) == q(xs[i])
    ensures FindIndex(p, xs) == FindIndex(q, xs)
  {
    if xs != [] {
      assert forall i :: 0 <= i < |xs[1..]| ==> xs[1..][i] == xs[i + 1];
      FindIndexSameTest(p, q, xs[1..]);
    }
  }

  function MarkerTest(marker: string, trimmed: bool): HostLine -> bool {
    (l: HostLine) => IsMarker(l, marker, trimmed)
  }

  /** `findIndex` of a sentinel: the first matching line, None for -1. */
  function MarkerIndex(ls: seq<HostLine>, marker: string, trimmed: bool): (r: Option<nat>)
    ensures r.Some? ==> r.value < |ls|
  {
    FindIndex(MarkerTest(marker, trimmed), ls)
  }

  /** The index found is a line that is the sentinel. */
  lemma MarkerIndexHit(ls: seq<HostLine>, marker: string, trimmed: bool)
    requires MarkerIndex(ls, marker, trimmed).Some?
    ensures IsMarker(ls[MarkerIndex(ls, marker, trimmed).value], marker, trimmed)
  {
    FindIndexHit(MarkerTest(marker, trimmed), ls);
  }

  /** No line before the index found is the sentinel. */
  lemma MarkerIndexFirst(ls: seq<HostLine>, marker: string, trimmed: bool, j: nat)
    requires MarkerIndex(ls, marker, trimmed).Some? && j < MarkerIndex(ls, marker, trimmed).value
    ensures !IsMarker(ls[j], marker, trimmed)
  {
    FindIndexFirst(MarkerTest(marker, trimmed), ls, j);
  }

  /** None means no line is the sentinel. */
  lemma MarkerIndexNone(ls: seq<HostLine>, marker: string, trimmed: bool)
    ensures MarkerIndex(ls, marker, trimmed).None? <==> forall j :: 0 <= j < |ls| ==> !IsMarker(ls[j], marker, trimmed)
  {
    FindIndexNone(MarkerTest(marker, trimmed), ls);
  }

  /**
   * On lines as a read produces them, the trimmed search of `getHosts` and
   * the untrimmed search of `addHost` find the same sentinel.
   */
  lemma MarkerSearchesAgree(ls: seq<HostLine>, marker: string)
    requires TextLinesStartWithHash(ls)
    requires marker != [] && !IsSpace(marker[|marker| - 1])
    ensures MarkerIndex(ls, marker, true) == MarkerIndex(ls, marker, false)
  {
    forall i | 0 <= i < |ls|
      ensures MarkerTest(marker, true)(ls[i]) == MarkerTest(marker, false)(ls[i])
    {
      if ls[i].Raw? {
        var t := ls[i].text;
        assert t == [] || t[0] == '#';
        TrimKeepsMarker(t, marker);
      }
    }
    FindIndexSameTest(MarkerTest(marker, true), MarkerTest(marker, false), ls);
  }

  lemma MarkersEndInHash(name: string)
    ensures StartMarker(name) != [] && StartMarker(name)[|StartMarker(name)| - 1] == '#'
    ensures EndMarker(name) != [] && EndMarker(name)[|EndMarker(name)| - 1] == '#'
  {
  }

  /**
   * `getHosts(inSection)` after classification: the lines from the start
   * sentinel up to, not including, the end sentinel (empty when the end comes
   * first); SectionNotFound when either sentinel is missing.
   */
  function SectionOf(ls: seq<HostLine>, name: string): (r: Result<seq<HostLine>>)
    ensures r.Err? <==> MarkerIndex(ls, StartMarker(name), true).None? || MarkerIndex(ls, EndMarker(name), true).None?
    ensures r.Err? ==> r.error == SectionNotFound
    ensures r.Ok? ==> var s, e := MarkerIndex(ls, StartMarker(name), true).value, MarkerIndex(ls, EndMarker(name), true).value;
                      r.value == if s <= e then ls[s..e] else []
  {
    var s := MarkerIndex(ls, StartMarker(name), true);
    var e := MarkerIndex(ls, EndMarker(name), true);
    if s.None? || e.None? then Err(SectionNotFound)
    else if s.value <= e.value then Ok(ls[s.value..e.value])
    else Ok([])
  }

  /**
   * A section read starts with its start sentinel, and its line `i` is never
   * the end sentinel.
   */
  lemma SectionShape(ls: seq<HostLine>, name: string, i: nat)
    requires SectionOf(ls, name).Ok? && i < |SectionOf(ls, name).value|
    ensures IsMarker(SectionOf(ls, name).value[0], StartMarker(name), true)
    ensures !IsMarker(SectionOf(ls, name).value[i], EndMarker(name), true)
  {
    var s := MarkerIndex(ls, StartMarker(name), true).value;
    var e := MarkerIndex(ls, EndMarker(name), true).value;
    var sec := SectionOf(ls, name).value;
    assert sec == ls[s..e];
    MarkerIndexHit(ls, StartMarker(name), true);
    assert sec[0] == ls[s];
    assert sec[i] == ls[s + i];
    MarkerIndexFirst(ls, EndMarker(name), true, s + i);
  }

  /** `getHosts(inSection)` on the text of the file; "" (a falsy section) reads every line. */
  function ReadHosts(rev: Revision, text: string, section: string): (r: Result<seq<HostLine>>)
    ensures section == "" ==> r == ClassifyAll(rev, SplitOn(text, '\n'))
    ensures section != "" ==> r == (var all :- ClassifyAll(rev, SplitOn(text, '\n')); SectionOf(all, section))
  {
    var all :- ClassifyAll(rev, SplitOn(text, '\n'));
    if section == "" then Ok(all) else SectionOf(all, section)
  }

  // ---------------------------------------------------------------- writing back

  /** `toHostsString`: every line's string form, trimmed, joined by newlines. */
  function ToHostsString(rev: Revision, items: seq<HostLine>): (text: string)
  {
    Join(Printed(rev, items), "\n")
  }

  function Printed(rev: Revision, items: seq<HostLine>): (ps: seq<string>)
  {
    seq(|items|, i requires 0 <= i < |items| => Trim(LineToString(rev, items[i])))
  }

  // ---------------------------------------------------------------- addHost

  /** An entry with this address and host already exists. */
  predicate HasEntry(ls: seq<HostLine>, address: string, host: string) {
    exists i :: 0 <= i < |ls| && ls[i].Entry? && ls[i].entry.address == address && ls[i].entry.host == host
  }

  /**
   * Where `addHost` puts a new line `x`: appended when there is no section;
   * right before the end sentinel when both sentinels are there; inside a new
   * section appended at the end when neither is; an error when only one is.
   */
  function Place(ls: seq<HostLine>, x: HostLine, section: string): (r: Result<seq<HostLine>>)
    ensures r.Err? <==> section != "" && MarkerIndex(ls, StartMarker(section), false).None? != MarkerIndex(ls, EndMarker(section), false).None?
    ensures r.Err? ==> r.error == SectionMalformed
    ensures r.Ok? ==> x in r.value
  {
    if section == "" then Ok(ls + [x])
    else
      var s := MarkerIndex(ls, StartMarker(section), false);
      var e := MarkerIndex(ls, EndMarker(section), false);
      if s.Some? && e.Some? then
        assert (ls[..e.value] + [x] + ls[e.value..])[e.value] == x;
        Ok(ls[..e.value] + [x] + ls[e.value..])
      else if s != e then Err(SectionMalformed)
      else
        assert (ls + [Raw(StartMarker(section)), x, Raw(EndMarker(section))])[|ls| + 1] == x;
        Ok(ls + [Raw(StartMarker(section)), x, Raw(EndMarker(section))])
  }

  /**
   * The list `addHost` writes, None when it returns false without writing:
   * a duplicate address and host changes nothing, otherwise the new entry is
   * placed as `Place` says.
   */
  function AddLines(rev: Revision, ls: seq<HostLine>, address: string, host: string,
                    comment: Option<string>, section: string): (r: Result<Option<seq<HostLine>>>)
    ensures r == Ok(None) <==> HasEntry(ls, address, host)
    ensures r.Err? <==> !HasEntry(ls, address, host) && Place(ls, Entry(NewEntry(rev, address, host, comment)), section).Err?
    ensures r.Err? ==> r.error == SectionMalformed
    ensures r.Ok? && r.value.Some? ==> r.value.value == Place(ls, Entry(NewEntry(rev, address, host, comment)), section).value
  {
    if HasEntry(ls, address, host) then Ok(None)
    else
      var placed :- Place(ls, Entry(NewEntry(rev, address, host, comment)), section);
      Ok(Some(placed))
  }

  /** Adding what was just added changes nothing: the second call returns false. */
  lemma AddIdempotent(rev: Revision, ls: seq<HostLine>, address: string, host: string,
                      comment: Option<string>, section: string)
    requires AddLines(rev, ls, address, host, comment, section).Ok?
    requires AddLines(rev, ls, address, host, comment, section).value.Some?
    ensures var ls' := AddLines(rev, ls, address, host, comment, section).value.value;
            AddLines(rev, ls', address, host, comment, section) == Ok(None)
  {
    var ls' := AddLines(rev, ls, address, host, comment, section).value.value;
    var x := Entry(NewEntry(rev, address, host, comment));
    var i :| 0 <= i < |ls'| && ls'[i] == x;
    assert HasEntry(ls', address, host);
  }

  /** `findIndex` on a concatenation: the first list's match, else the second's shifted. */
  lemma MarkerIndexAppend(a: seq<HostLine>, b: seq<HostLine>, marker: string, trimmed: bool)
    ensures MarkerIndex(a + b, marker, trimmed)
         == match MarkerIndex(a, marker, trimmed)
            case Some(i) => Some(i)
            case None => match MarkerIndex(b, marker, trimmed)
                         case None => None
                         case Some(j) => Some(|a| + j)
  {
    FindIndexAppend(MarkerTest(marker, trimmed), a, b);
  }

  /**
   * Inserting an entry at `k` leaves a sentinel found before `k` where it was
   * and moves one found at or after `k` one place on.
   */
  lemma MarkerAfterInsert(ls: seq<HostLine>, k: nat, x: HostLine, marker: string, trimmed: bool)
    requires k <= |ls| && x.Entry?
    ensures MarkerIndex(ls[..k] + [x] + ls[k..], marker, trimmed)
         == match MarkerIndex(ls, marker, trimmed)
            case None => None
            case Some(j) => Some(if j < k then j else j + 1)
  {
    FindIndexAfterInsert(MarkerTest(marker, trimmed), ls, k, x);
  }

  /** No line starts with both the start and the end sentinel of one section. */
  lemma MarkersDiffer(l: HostLine, name: string)
    ensures !(IsMarker(l, StartMarker(name), true) && IsMarker(l, EndMarker(name), true))
  {
    var k := |name| + 4;
    assert StartMarker(name)[k] == '#' && EndMarker(name)[k] == '-';
  }

  lemma SliceAfterInsert(ls: seq<HostLine>, x: HostLine, s: nat, e: nat)
    requires s <= e <= |ls|
    ensures (ls[..e] + [x] + ls[e..])[s..e + 1] == ls[s..e] + [x]
  {
  }

  /** Placing an entry into an existing section makes it the last line of that section. */
  lemma PlaceIntoSection(ls: seq<HostLine>, x: HostLine, section: string)
    requires TextLinesStartWithHash(ls) && x.Entry? && section != ""
    requires SectionOf(ls, section).Ok?
    requires MarkerIndex(ls, StartMarker(section), true).value <= MarkerIndex(ls, EndMarker(section), true).value
    ensures Place(ls, x, section).Ok?
    ensures SectionOf(Place(ls, x, section).value, section) == Ok(SectionOf(ls, section).value + [x])
  {
    MarkersEndInHash(section);
    MarkerSearchesAgree(ls, StartMarker(section));
    MarkerSearchesAgree(ls, EndMarker(section));
    var s := MarkerIndex(ls, StartMarker(section), true).value;
    var e := MarkerIndex(ls, EndMarker(section), true).value;
    MarkerIndexHit(ls, StartMarker(section), true);
    MarkerIndexHit(ls, EndMarker(section), true);
    MarkersDiffer(ls[s], section);
    var ls' := ls[..e] + [x] + ls[e..];
    assert Place(ls, x, section) == Ok(ls');
    MarkerAfterInsert(ls, e, x, StartMarker(section), true);
    MarkerAfterInsert(ls, e, x, EndMarker(section), true);
    SliceAfterInsert(ls, x, s, e);
  }

  /** Placing an entry where neither sentinel exists creates a section that reads as its start sentinel and the entry. */
  lemma PlaceCreatesSection(ls: seq<HostLine>, x: HostLine, section: string)
    requires TextLinesStartWithHash(ls) && x.Entry? && section != ""
    requires MarkerIndex(ls, StartMarker(section), false).None? && MarkerIndex(ls, EndMarker(section), false).None?
    ensures Place(ls, x, section) == Ok(ls + [Raw(StartMarker(section)), x, Raw(EndMarker(section))])
    ensures SectionOf(Place(ls, x, section).value, section) == Ok([Raw(StartMarker(section)), x])
  {
    MarkersEndInHash(section);
    MarkerSearchesAgree(ls, StartMarker(section));
    MarkerSearchesAgree(ls, EndMarker(section));
    var start, end := StartMarker(section), EndMarker(section);
    var tail := [Raw(start), x, Raw(end)];
    TrimBounded(start);
    TrimBounded(end);
    MarkersDiffer(Raw(start), section);
    assert IsMarker(Raw(start), start, true) && IsMarker(Raw(end), end, true);
    assert tail == [Raw(start)] + ([x] + [Raw(end)]);
    MarkerIndexAppend([x], [Raw(end)], end, true);
    MarkerIndexAppend([Raw(start)], [x] + [Raw(end)], end, true);
    MarkerIndexAppend(ls, tail, start, true);
    MarkerIndexAppend(ls, tail, end, true);
    assert (ls + tail)[|ls|..|ls| + 2] == [Raw(start), x];
  }

  /**
   * Adding into an existing section, then reading that section, gives the
   * section it had before with the entry at its end.
   */
  lemma AddThenReadSection(rev: Revision, ls: seq<HostLine>, address: string, host: string,
                           comment: Option<string>, section: string)
    requires TextLinesStartWithHash(ls) && section != ""
    requires SectionOf(ls, section).Ok?
    requires MarkerIndex(ls, StartMarker(section), true).value <= MarkerIndex(ls, EndMarker(section), true).value
    requires !HasEntry(ls, address, host)
    ensures AddLines(rev, ls, address, host, comment, section).Ok?
    ensures AddLines(rev, ls, address, host, comment, section).value.Some?
    ensures SectionOf(AddLines(rev, ls, address, host, comment, section).value.value, section)
         == Ok(SectionOf(ls, section).value + [Entry(NewEntry(rev, address, host, comment))])
  {
    PlaceIntoSection(ls, Entry(NewEntry(rev, address, host, comment)), section);
  }

  /**
   * Adding with a section that has neither sentinel appends exactly one start
   * sentinel, the entry and one end sentinel, and the new section then reads
   * as its start sentinel and the entry.
   */
  lemma AddCreatesSection(rev: Revision, ls: seq<HostLine>, address: string, host: string,
                          comment: Option<string>, section: string)
    requires TextLinesStartWithHash(ls) && section != ""
    requires !HasEntry(ls, address, host)
    requires MarkerIndex(ls, StartMarker(section), false).None? && MarkerIndex(ls, EndMarker(section), false).None?
    ensures AddLines(rev, ls, address, host, comment, section)
         == Ok(Some(ls + [Raw(StartMarker(section)), Entry(NewEntry(rev, address, host, comment)), Raw(EndMarker(section))]))
    ensures SectionOf(AddLines(rev, ls, address, host, comment, section).value.value, section)
         == Ok([Raw(StartMarker(section)), Entry(NewEntry(rev, address, host, comment))])
  {
    PlaceCreatesSection(ls, Entry(NewEntry(rev, address, host, comment)), section);
  }

  // ---------------------------------------------------------------- removeHost, removeHostByComment

  /** Which entries a remove drops: by address and host, or by stored comment. */
  datatype Match = ByAddressHost(address: string, host: string) | ByComment(comment: string)

  predicate Matches(l: HostLine, m: Match) {
    l.Entry? &&
    match m
    case ByAddressHost(a, h) => l.entry.address == a && l.entry.host == h
    case ByComment(c) => l.entry.comment == c
  }

  /** `hosts.filter(...)`: text lines stay, matching entries go, order is kept. */
  function Retain(ls: seq<HostLine>, m: Match): (r: seq<HostLine>)
    ensures |r| <= |ls|
    ensures |r| == |ls| <==> forall i :: 0 <= i < |ls| ==> !Matches(ls[i], m)
  {
    if ls == [] then []
    else
      var rest := Retain(ls[1..], m);
      assert forall x :: x in ls <==> x == ls[0] || x in ls[1..];
      assert forall i :: 1 <= i < |ls| ==> ls[i] == ls[1..][i - 1];
      if Matches(ls[0], m) then rest else [ls[0]] + rest
  }

  /** A line survives the filter exactly when it was there and does not match. */
  lemma {:induction false} RetainKeeps(ls: seq<HostLine>, m: Match)
    ensures forall x :: x in Retain(ls, m) <==> x in ls && !Matches(x, m)
  {
    if ls != [] {
      RetainKeeps(ls[1..], m);
      assert forall x :: x in ls <==> x == ls[0] || x in ls[1..];
    }
  }

  lemma {:induction false} RetainAppend(a: seq<HostLine>, b: seq<HostLine>, m: Match)
    ensures Retain(a + b, m) == Retain(a, m) + Retain(b, m)
  {
    if a != [] {
      assert (a + b)[1..] == a[1..] + b;
      RetainAppend(a[1..], b, m);
    } else {
      assert a + b == b;
    }
  }

  /** The list a remove writes, None when nothing matched and it returns false without writing. */
  function RemoveLines(ls: seq<HostLine>, m: Match): (r: Option<seq<HostLine>>)
    ensures r.None? <==> forall i :: 0 <= i < |ls| ==> !Matches(ls[i], m)
    ensures r.Some? ==> r.value == Retain(ls, m) && |r.value| < |ls|
  {
    var kept := Retain(ls, m);
    if |kept| == |ls| then None else Some(kept)
  }

  /**
   * Filtering out the placed line, which is the only match, gives back the
   * old lines, plus the two sentinels when the section was created.
   */
  lemma PlaceThenRetain(ls: seq<HostLine>, x: HostLine, section: string, m: Match)
    requires Matches(x, m) && forall i :: 0 <= i < |ls| ==> !Matches(ls[i], m)
    requires Place(ls, x, section).Ok?
    ensures Retain(Place(ls, x, section).value, m)
         == ls + (if section != "" && MarkerIndex(ls, StartMarker(section), false).None?
                  then [Raw(StartMarker(section)), Raw(EndMarker(section))] else [])
  {
    RetainUnmatched(ls, m);
    if section == "" {
      RetainAppend(ls, [x], m);
      assert ls + [] == ls;
    } else if MarkerIndex(ls, StartMarker(section), false).None? {
      RetainDropsFromCreated(ls, x, Raw(StartMarker(section)), Raw(EndMarker(section)), m);
    } else {
      RetainDropsInserted(ls, x, MarkerIndex(ls, EndMarker(section), false).value, m);
    }
  }

  lemma RetainDropsFromCreated(ls: seq<HostLine>, x: HostLine, start: HostLine, end: HostLine, m: Match)
    requires Matches(x, m) && start.Raw? && end.Raw? && Retain(ls, m) == ls
    ensures Retain(ls + [start, x, end], m) == ls + [start, end]
  {
    RetainAppend(ls, [start, x, end], m);
    assert [start, x, end] == [start] + ([x] + [end]);
    RetainAppend([start], [x] + [end], m);
    RetainAppend([x], [end], m);
  }

  lemma RetainDropsInserted(ls: seq<HostLine>, x: HostLine, e: nat, m: Match)
    requires Matches(x, m) && e <= |ls| && Retain(ls, m) == ls
    ensures Retain(ls[..e] + [x] + ls[e..], m) == ls + []
  {
    assert ls == ls[..e] + ls[e..];
    RetainAppend(ls[..e] + [x], ls[e..], m);
    RetainAppend(ls[..e], [x], m);
    RetainAppend(ls[..e], ls[e..], m);
    assert Retain(ls[..e], m) + Retain(ls[e..], m) == ls;
    assert ls + [] == ls;
  }

  /**
   * `removeHost` right after a successful `addHost` of a new address and host
   * gives the old lines back, plus the empty sentinel pair when the add
   * created the section.
   */
  lemma RemoveUndoesAdd(rev: Revision, ls: seq<HostLine>, address: string, host: string,
                        comment: Option<string>, section: string)
    requires AddLines(rev, ls, address, host, comment, section).Ok?
    requires AddLines(rev, ls, address, host, comment, section).value.Some?
    ensures RemoveLines(AddLines(rev, ls, address, host, comment, section).value.value, ByAddressHost(address, host))
         == Some(ls + (if section != "" && MarkerIndex(ls, StartMarker(section), false).None?
                       then [Raw(StartMarker(section)), Raw(EndMarker(section))] else []))
  {
    var x := Entry(NewEntry(rev, address, host, comment));
    var m := ByAddressHost(address, host);
    assert forall i :: 0 <= i < |ls| ==> !Matches(ls[i], m);
    PlaceThenRetain(ls, x, section, m);
  }

  /** When nothing matches, the filter keeps every line. */
  lemma {:induction false} RetainUnmatched(ls: seq<HostLine>, m: Match)
    requires forall i :: 0 <= i < |ls| ==> !Matches(ls[i], m)
    ensures Retain(ls, m) == ls
  {
    if ls != [] {
      assert forall i :: 0 <= i < |ls[1..]| ==> ls[1..][i] == ls[i + 1];
      RetainUnmatched(ls[1..], m);
    }
  }
}
