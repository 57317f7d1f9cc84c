/**
 * The hosts file on disk: `getHosts`, `writeHosts`, `addHost`, `removeHost`
 * and `removeHostByComment` read `/etc/hosts`, transform its lines with the
 * functions of `Sections`, and replace the whole file.
 */
module Hosts {
  import opened Outcomes
  import opened Strings
  import opened HostLine
  import opened Sections
  import opened Disk

  /** `getHosts(inSection)`: a missing hosts file is an error, otherwise its text is read. */
  function ReadHostsFile(rev: Revision, files: map<string, string>, section: string): (r: Result<seq<HostLine>>)
    ensures HostsPath !in files ==> r == Err(HostsUnreadable)
    ensures HostsPath in files ==> r == ReadHosts(rev, files[HostsPath], section)
  {
    if HostsPath !in files then Err(HostsUnreadable) else ReadHosts(rev, files[HostsPath], section)
  }

  /** What a successful write reports: Src returns true; Dist then calls a `notifyUpdate` that does not exist and throws. */
  function Written(rev: Revision): Result<bool>
  {
    match rev
    case Src => Ok(true)
    case Dist => Err(UpdateHookMissing)
  }

  /** No file appears or disappears, and no file other than the hosts file changes. */
  predicate OnlyHostsReplaced(before: map<string, string>, after: map<string, string>) {
    after.Keys == before.Keys && forall p :: p in before && p != HostsPath ==> after[p] == before[p]
  }

  /** `addHost(address, host, comment, section)` on the files. */
  function AddHostOutcome(rev: Revision, files: map<string, string>, address: string, host: string,
                          comment: Option<string>, section: string): (o: Outcome)
    ensures o.result == Ok(false) ==> o.files == files
    ensures o.result.Err? && o.result != Written(rev) ==> o.files == files
    ensures rev == Dist ==> o.result != Ok(true)
    ensures OnlyHostsReplaced(files, o.files)
  {
    match ReadHostsFile(rev, files, "")
    case Err(f) => Outcome(Err(f), files)
    case Ok(ls) =>
      match AddLines(rev, ls, address, host, comment, section)
      case Err(f) => Outcome(Err(f), files)
      case Ok(None) => Outcome(Ok(false), files)
      case Ok(Some(ls')) => Outcome(Written(rev), files[HostsPath := ToHostsString(rev, ls')])
  }

  /** `removeHost` (by address and host) and `removeHostByComment` on the files. */
  function RemoveOutcome(rev: Revision, files: map<string, string>, m: Match): (o: Outcome)
    ensures o.result == Ok(false) ==> o.files == files
    ensures o.result.Err? && o.result != Written(rev) ==> o.files == files
    ensures rev == Dist ==> o.result != Ok(true)
    ensures OnlyHostsReplaced(files, o.files)
  {
    match ReadHostsFile(rev, files, "")
    case Err(f) => Outcome(Err(f), files)
    case Ok(ls) =>
      match RemoveLines(ls, m)
      case None => Outcome(Ok(false), files)
      case Some(kept) => Outcome(Written(rev), files[HostsPath := ToHostsString(rev, kept)])
  }

  /** `writeHosts(hosts)`: the file becomes the printed lines, nothing else changes. */
  method WriteHosts(fs: FileSystem, rev: Revision, hosts: seq<HostLine>)
    modifies fs
    ensures fs.files == old(fs.files)[HostsPath := ToHostsString(rev, hosts)]
  {
    fs.files := fs.files[HostsPath := ToHostsString(rev, hosts)];
  }

  /** `getHosts(inSection)` against the file system. */
  method GetHosts(fs: FileSystem, rev: Revision, section: string) returns (r: Result<seq<HostLine>>)
    ensures r == ReadHostsFile(rev, fs.files, section)
  {
    if HostsPath !in fs.files {
      return Err(HostsUnreadable);
    }
    r := ReadHosts(rev, fs.files[HostsPath], section);
  }

  method AddHost(fs: FileSystem, rev: Revision, address: string, host: string,
                 comment: Option<string>, section: string) returns (r: Result<bool>)
    modifies fs
    ensures r == AddHostOutcome(rev, old(fs.files), address, host, comment, section).result
    ensures fs.files == AddHostOutcome(rev, old(fs.files), address, host, comment, section).files
  {
    var hosts := GetHosts(fs, rev, "");
    if hosts.Err? {
      return Err(hosts.error);
    }
    var added := AddLines(rev, hosts.value, address, host, comment, section);
    if added.Err? {
      return Err(added.error);
    }
    if added.value.None? {
      return Ok(false);
    }
    WriteHosts(fs, rev, added.value.value);
    r := Written(rev);
  }

  method RemoveHost(fs: FileSystem, rev: Revision, address: string, host: string) returns (r: Result<bool>)
    modifies fs
    ensures r == RemoveOutcome(rev, old(fs.files), ByAddressHost(address, host)).result
    ensures fs.files == RemoveOutcome(rev, old(fs.files), ByAddressHost(address, host)).files
  {
    r := Remove(fs, rev, ByAddressHost(address, host));
  }

  method RemoveHostByComment(fs: FileSystem, rev: Revision, comment: string) returns (r: Result<bool>)
    modifies fs
    ensures r == RemoveOutcome(rev, old(fs.files), ByComment(comment)).result
    ensures fs.files == RemoveOutcome(rev, old(fs.files), ByComment(comment)).files
  {
    r := Remove(fs, rev, ByComment(comment));
  }

  method Remove(fs: FileSystem, rev: Revision, m: Match) returns (r: Result<bool>)
    modifies fs
    ensures r == RemoveOutcome(rev, old(fs.files), m).result
    ensures fs.files == RemoveOutcome(rev, old(fs.files), m).files
  {
    var hosts := GetHosts(fs, rev, "");
    if hosts.Err? {
      return Err(hosts.error);
    }
    var kept := RemoveLines(hosts.value, m);
    if kept.None? {
      return Ok(false);
    }
    WriteHosts(fs, rev, kept.value);
    r := Written(rev);
  }

  // ---------------------------------------------------------------- reading back what was written

  /** An entry Src prints and parses back unchanged: single-word address and host, comment of words starting with `#`. */
  predicate CanonicalEntry(e: HostEntry) {
    IsWord(e.address) && !("#" <= e.address) && IsWord(e.host)
    && |Tokens(e.comment)| >= 1 && "#" <= Tokens(e.comment)[0] && e.comment == Join(Tokens(e.comment), " ")
  }

  /** A line that survives printing and reading: "", a trimmed single-line `#` text, or a canonical entry. */
  predicate CanonicalLine(l: HostLine) {
    match l
    case Raw(t) => t == "" || ("#" <= t && Trim(t) == t && '\n' !in t)
    case Entry(e) => CanonicalEntry(e)
  }

  predicate Canonical(ls: seq<HostLine>) {
    forall i :: 0 <= i < |ls| ==> CanonicalLine(ls[i])
  }

  /** A canonical entry prints as its words joined by single spaces. */
  lemma CanonicalEntryWords(e: HostEntry) returns (words: seq<string>)
    requires CanonicalEntry(e)
    ensures AllWords(words) && |words| >= 3 && "#" <= words[2]
    ensures words[0] == e.address && words[1] == e.host && e.comment == Join(words[2..], " ")
    ensures EntryToString(Src, e) == Join(words, " ")
  {
    var cw := Tokens(e.comment);
    words := [e.address, e.host] + cw;
    assert words[2..] == cw;
    JoinStartsLikeFirst("#", cw, " ");
    JoinFirstTwo(words, " ");
  }

  /** Src reads the printed form of a canonical line back as that line. */
  lemma CanonicalLineReadsBack(l: HostLine)
    requires CanonicalLine(l)
    ensures '\n' !in Trim(LineToString(Src, l))
    ensures Classify(Src, Trim(LineToString(Src, l))) == Ok(l)
  {
    match l
    case Raw(t) =>
      if t == "" {
        assert Trim(t) == "";
      }
    case Entry(e) =>
      var words := CanonicalEntryWords(e);
      var text := Join(words, " ");
      JoinWordsBounded(words);
      TrimBounded(text);
      assert text[0] == e.address[0] by { JoinStartsLikeFirst(e.address, words, " "); }
      assert !("#" <= text);
      TrimEmpty(text);
      SrcParseJoined(words);
  }

  /** `f` gives `ys[i]` on every `xs[i]`: the map is `ys`. */
  lemma {:induction false} MapAllPointwise<A, B>(f: A -> Result<B>, xs: seq<A>, ys: seq<B>)
    requires |xs| == |ys| && forall i :: 0 <= i < |xs| ==> f(xs[i]) == Ok(ys[i])
    ensures MapAll(f, xs) == Ok(ys)
  {
    if xs != [] {
      assert forall i :: 0 <= i < |xs[1..]| ==> xs[1..][i] == xs[i + 1] && ys[1..][i] == ys[i + 1];
      MapAllPointwise(f, xs[1..], ys[1..]);
      assert ys == [ys[0]] + ys[1..];
    }
  }

  /**
   * Src persistence: writing a non-empty canonical list and reading the whole
   * file again gives the same list.
   */
  lemma WrittenReadsBack(ls: seq<HostLine>)
    requires Canonical(ls) && |ls| >= 1
    ensures ReadHosts(Src, ToHostsString(Src, ls), "") == Ok(ls)
  {
    var printed := Printed(Src, ls);
    forall i | 0 <= i < |ls|
      ensures '\n' !in printed[i] && Classify(Src, printed[i]) == Ok(ls[i])
    {
      CanonicalLineReadsBack(ls[i]);
    }
    assert "\n" == ['\n'];
    SplitOfJoin(printed, '\n');
    MapAllPointwise((line: string) => Classify(Src, line), printed, ls);
  }

  /** Every line `Place` writes is an old line, the new line or one of the section's sentinels. */
  lemma PlaceElements(ls: seq<HostLine>, x: HostLine, section: string)
    requires Place(ls, x, section).Ok?
    ensures forall y :: y in Place(ls, x, section).value
              ==> y in ls || y == x || y == Raw(StartMarker(section)) || y == Raw(EndMarker(section))
  {
    if section != "" && MarkerIndex(ls, StartMarker(section), false).Some? {
      var e := MarkerIndex(ls, EndMarker(section), false).value;
      assert ls == ls[..e] + ls[e..];
    }
  }

  /** The sentinels of a single-line section name are canonical text lines. */
  lemma MarkersCanonical(section: string)
    requires '\n' !in section
    ensures CanonicalLine(Raw(StartMarker(section))) && CanonicalLine(Raw(EndMarker(section)))
  {
    MarkersEndInHash(section);
    TrimBounded(StartMarker(section));
    TrimBounded(EndMarker(section));
  }

  /** The entry Src builds from single-word fields is canonical. */
  lemma SrcNewEntryCanonical(address: string, host: string, comment: Option<string>)
    requires IsWord(address) && !("#" <= address) && IsWord(host) && IsWord(Show(comment))
    ensures CanonicalEntry(NewEntry(Src, address, host, comment))
  {
    var c := NewEntry(Src, address, host, comment).comment;
    assert IsWord(c) by {
      if !("#" <= Show(comment)) {
        assert c == "#" + Show(comment);
      }
    }
    TokensOfWord(c);
  }

  /** Src `addHost` of single-word fields keeps a canonical file canonical. */
  lemma AddKeepsCanonical(ls: seq<HostLine>, address: string, host: string, comment: Option<string>, section: string)
    requires Canonical(ls) && '\n' !in section
    requires IsWord(address) && !("#" <= address) && IsWord(host) && IsWord(Show(comment))
    requires AddLines(Src, ls, address, host, comment, section).Ok?
    requires AddLines(Src, ls, address, host, comment, section).value.Some?
    ensures Canonical(AddLines(Src, ls, address, host, comment, section).value.value)
    ensures |AddLines(Src, ls, address, host, comment, section).value.value| >= 1
  {
    var x := Entry(NewEntry(Src, address, host, comment));
    SrcNewEntryCanonical(address, host, comment);
    MarkersCanonical(section);
    PlaceElements(ls, x, section);
    var ls' := AddLines(Src, ls, address, host, comment, section).value.value;
    forall i | 0 <= i < |ls'|
      ensures CanonicalLine(ls'[i])
    {
      assert ls'[i] in ls';
      if ls'[i] in ls {
        var j :| 0 <= j < |ls| && ls[j] == ls'[i];
      }
    }
  }

  // ---------------------------------------------------------------- re-reading any file

  /** The printed form of a line is a single line that Src reads without error. */
  predicate Rereads(l: HostLine) {
    var p := Trim(LineToString(Src, l));
    '\n' !in p && Classify(Src, p).Ok?
  }

  /** A single-line `#` text line prints as itself trimmed, which still starts with `#`. */
  lemma HashTextRereads(t: string)
    requires "#" <= t && '\n' !in t
    ensures Rereads(Raw(t))
  {
    assert t[0] == '#';
    TrimKeepsMarker(t, "#");
    TrimWithin(t, '\n');
  }

  /**
   * Whatever Src reads from one line of any hosts file prints as a line that
   * Src reads again: `#` text keeps its `#`, a blank stays blank, and an entry
   * prints as single-space-separated words that parse.
   */
  lemma ReadLineRereads(line: string)
    requires '\n' !in line && Classify(Src, line).Ok?
    ensures Rereads(Classify(Src, line).value)
  {
    if "#" <= line {
      HashTextRereads(line);
    } else if Trim(line) == "" {
      assert Trim("") == "";
    } else {
      var e := Parse(Src, line).value;
      var words := SrcPrintedWords(line);
      SrcReparse(line);
      JoinStartsLikeFirst("#", words[2..], " ");
      assert EntryToString(Src, e) == words[0] + " " + words[1] + " " + Join(words[2..], " ");
      JoinFirstTwo(words, " ");
      var text := Join(words, " ");
      JoinWordsBounded(words);
      TrimBounded(text);
      assert Trim(LineToString(Src, Entry(e))) == text;
    }
  }

  /**
   * The entry Src adds, from a one-word address not starting with `#`, a
   * one-word host and a single-line comment, prints as a line that Src reads
   * back as an entry with that address and host.
   */
  lemma NewEntryRereads(address: string, host: string, comment: Option<string>)
    requires IsWord(address) && !("#" <= address) && IsWord(host) && '\n' !in Show(comment)
    ensures var p := Trim(LineToString(Src, Entry(NewEntry(Src, address, host, comment))));
            '\n' !in p && Classify(Src, p).Ok? && Classify(Src, p).value.Entry?
            && Classify(Src, p).value.entry.address == address && Classify(Src, p).value.entry.host == host
  {
    var c := NewEntry(Src, address, host, comment).comment;
    assert '\n' !in c by {
      if !("#" <= Show(comment)) {
        assert c == "#" + Show(comment);
      }
    }
    var rest := PrintedEntryTrim(address, host, c);
    var p := address + " " + host + " " + rest;
    assert p == Trim(LineToString(Src, Entry(NewEntry(Src, address, host, comment))));
    assert !("#" <= p) && Trim(p) != "" by {
      assert p[0] == address[0];
      TrimBounded(p);
    }
    assert '\n' !in p by {
      assert IsSpace('\n');
    }
    assert Parse(Src, p).Ok? && Parse(Src, p).value.address == address && Parse(Src, p).value.host == host by {
      LeadingWords(address, host, rest);
    }
  }

  /**
   * An entry with a one-word address and host and a single-line `#` comment
   * prints, trimmed, as address, host and the comment with its end trimmed.
   */
  lemma PrintedEntryTrim(address: string, host: string, c: string) returns (rest: string)
    requires IsWord(address) && IsWord(host) && "#" <= c && '\n' !in c
    ensures Trim(LineToString(Src, Entry(HostEntry(address, host, c)))) == address + " " + host + " " + rest
    ensures rest != [] && !IsSpace(rest[|rest| - 1]) && '\n' !in rest
  {
    var x := address + " " + host + " ";
    assert LineToString(Src, Entry(HostEntry(address, host, c))) == x + c;
    assert c[0] == '#';
    TrimEndAfter(x, c);
    rest := TrimEnd(c);
    TrimEndSpec(c);
    assert TrimStart(x + c) == x + c by {
      assert (x + c)[0] == address[0];
    }
    assert '\n' !in rest by {
      assert forall k :: 0 <= k < |rest| ==> rest[k] == c[k];
    }
  }

  /**
   * When every line Src reads from a file re-reads after printing, adding an
   * entry for a one-word address and host gives a list whose printed form
   * reads back, and holds an entry with that address and host.
   */
  lemma AddedListRereads(ls: seq<HostLine>, address: string, host: string, comment: Option<string>, section: string)
    requires forall i :: 0 <= i < |ls| ==> Rereads(ls[i])
    requires IsWord(address) && !("#" <= address) && IsWord(host) && '\n' !in Show(comment) && '\n' !in section
    requires Place(ls, Entry(NewEntry(Src, address, host, comment)), section).Ok?
    ensures var ls' := Place(ls, Entry(NewEntry(Src, address, host, comment)), section).value;
            ReadHosts(Src, ToHostsString(Src, ls'), "").Ok?
            && HasEntry(ReadHosts(Src, ToHostsString(Src, ls'), "").value, address, host)
  {
    var x := Entry(NewEntry(Src, address, host, comment));
    var ls' := Place(ls, x, section).value;
    NewEntryRereads(address, host, comment);
    PlacedLinesReread(ls, x, section);
    var printed := Printed(Src, ls');
    assert forall i :: 0 <= i < |ls'| ==> printed[i] == Trim(LineToString(Src, ls'[i]));
    assert "\n" == ['\n'];
    SplitOfJoin(printed, '\n');
    ReadSucceedsWhenEveryLineDoes(Src, printed);
    var reread := ClassifyAll(Src, printed).value;
    var k :| 0 <= k < |ls'| && ls'[k] == x;
    assert reread[k].Entry? && reread[k].entry.address == address && reread[k].entry.host == host;
  }

  /** Every line `Place` writes re-reads when the old lines and the new line do. */
  lemma PlacedLinesReread(ls: seq<HostLine>, x: HostLine, section: string)
    requires forall i :: 0 <= i < |ls| ==> Rereads(ls[i])
    requires Rereads(x) && '\n' !in section && Place(ls, x, section).Ok?
    ensures forall i :: 0 <= i < |Place(ls, x, section).value| ==> Rereads(Place(ls, x, section).value[i])
  {
    var ls' := Place(ls, x, section).value;
    PlaceElements(ls, x, section);
    forall i | 0 <= i < |ls'|
      ensures Rereads(ls'[i])
    {
      assert ls'[i] in ls';
      if ls'[i] in ls {
        var j :| 0 <= j < |ls| && ls[j] == ls'[i];
      } else if ls'[i] != x {
        MarkersEndInHash(section);
        HashTextRereads(ls'[i].text);
      }
    }
  }

  /** Every line Src reads from a file re-reads after printing. */
  lemma ReadListRereads(files: map<string, string>)
    requires ReadHostsFile(Src, files, "").Ok?
    ensures var ls := ReadHostsFile(Src, files, "").value;
            forall i :: 0 <= i < |ls| ==> Rereads(ls[i])
  {
    var ls := ReadHostsFile(Src, files, "").value;
    var lines := SplitOn(files[HostsPath], '\n');
    assert ClassifyAll(Src, lines) == Ok(ls);
    forall i | 0 <= i < |ls|
      ensures Rereads(ls[i])
    {
      ReadLineRereads(lines[i]);
    }
  }

  /**
   * Src `addHost` is idempotent on the file: whatever readable hosts file it
   * starts from, once it has written an entry the same call reads the entry
   * back, returns false and writes nothing.
   */
  lemma SrcAddHostIdempotent(files: map<string, string>, address: string, host: string,
                             comment: Option<string>, section: string)
    requires ReadHostsFile(Src, files, "").Ok?
    requires IsWord(address) && !("#" <= address) && IsWord(host) && '\n' !in Show(comment) && '\n' !in section
    ensures var first := AddHostOutcome(Src, files, address, host, comment, section);
            first.result.Ok? ==> AddHostOutcome(Src, first.files, address, host, comment, section) == Outcome(Ok(false), first.files)
  {
    var ls := ReadHostsFile(Src, files, "").value;
    var added := AddLines(Src, ls, address, host, comment, section);
    if added.Ok? && added.value.Some? {
      ReadListRereads(files);
      AddedListRereads(ls, address, host, comment, section);
      var files' := files[HostsPath := ToHostsString(Src, added.value.value)];
      assert ReadHostsFile(Src, files', "").Ok? && HasEntry(ReadHostsFile(Src, files', "").value, address, host);
    }
  }

  /** The text of an empty hosts file reads as one blank line, in both revisions. */
  lemma EmptyFileReads(rev: Revision)
    ensures ReadHosts(rev, "", "") == Ok([Raw("")])
  {
    assert SplitOn("", '\n') == [""];
    assert Trim("") == "";
    assert Classify(rev, "") == Ok(Raw(""));
    MapAllPointwise((line: string) => Classify(rev, line), [""], [Raw("")]);
  }

  /** Dist prints an entry with a plain comment as one line that reads back with the comment glued to the host. */
  lemma DistPrintedEntry(address: string, host: string, comment: string)
    requires IsWord(address) && !("#" <= address) && IsWord(host) && IsWord(comment) && !("#" <= comment)
    ensures var line := Trim(LineToString(Dist, Entry(HostEntry(address, host, comment))));
            '\n' !in line && Classify(Dist, line) == Ok(Entry(HostEntry(address, host + "#" + comment, "undefined")))
  {
    var e := HostEntry(address, host, comment);
    var line := EntryToString(Dist, e);
    var glued := host + "#" + comment;
    assert IsWord(glued);
    assert line == Join([address, glued], " ");
    JoinWordsBounded([address, glued]);
    TrimBounded(line);
    TrimEmpty(line);
    assert line[0] == address[0];
    DistReparseGluesComment(e);
  }

  /**
   * Dist: after adding an entry whose comment does not start with `#` to an
   * empty hosts file, the file reads back with that comment glued to the host.
   */
  lemma DistWrittenEntryReadsGlued(address: string, host: string, comment: string)
    requires IsWord(address) && !("#" <= address) && IsWord(host) && IsWord(comment) && !("#" <= comment)
    ensures var e := HostEntry(address, host, comment);
            ReadHosts(Dist, ToHostsString(Dist, [Raw(""), Entry(e)]), "")
              == Ok([Raw(""), Entry(HostEntry(address, host + "#" + comment, "undefined"))])
  {
    var e := HostEntry(address, host, comment);
    var line := Trim(LineToString(Dist, Entry(e)));
    var read := [Raw(""), Entry(HostEntry(address, host + "#" + comment, "undefined"))];
    DistPrintedEntry(address, host, comment);
    BlankThenLineSplits(Dist, Entry(e));
    assert Classify(Dist, "") == Ok(Raw("")) by { assert Trim("") == ""; }
    MapAllPointwise((l: string) => Classify(Dist, l), ["", line], read);
  }

  /** A blank line followed by one printed line without a newline splits back into those two lines. */
  lemma BlankThenLineSplits(rev: Revision, x: HostLine)
    requires '\n' !in Trim(LineToString(rev, x))
    ensures SplitOn(ToHostsString(rev, [Raw(""), x]), '\n') == ["", Trim(LineToString(rev, x))]
  {
    var line := Trim(LineToString(rev, x));
    assert Printed(rev, [Raw(""), x]) == ["", line] by { assert Trim("") == ""; }
    assert "\n" == ['\n'];
    SplitOfJoin(["", line], '\n');
  }

  /** Dist, first call: the empty file gets a blank line and the entry. */
  lemma DistFirstAdd(address: string, host: string, comment: string)
    requires !("#" <= comment)
    ensures AddHostOutcome(Dist, map[HostsPath := ""], address, host, Some(comment), "")
         == Outcome(Err(UpdateHookMissing),
                    map[HostsPath := ToHostsString(Dist, [Raw(""), Entry(HostEntry(address, host, comment))])])
  {
    var e := NewEntry(Dist, address, host, Some(comment));
    assert e == HostEntry(address, host, comment);
    EmptyFileReads(Dist);
    assert !HasEntry([Raw("")], address, host);
    assert [Raw("")] + [Entry(e)] == [Raw(""), Entry(e)];
    assert Place([Raw("")], Entry(e), "") == Ok([Raw("")] + [Entry(e)]);
  }

  /** Dist, second call: the glued entry does not count as a duplicate, so the entry is appended again. */
  lemma DistSecondAdd(address: string, host: string, comment: string)
    requires IsWord(address) && !("#" <= address) && IsWord(host) && IsWord(comment) && !("#" <= comment)
    ensures var e := HostEntry(address, host, comment);
            var glued := HostEntry(address, host + "#" + comment, "undefined");
            AddHostOutcome(Dist, map[HostsPath := ToHostsString(Dist, [Raw(""), Entry(e)])], address, host, Some(comment), "")
              == Outcome(Err(UpdateHookMissing), map[HostsPath := ToHostsString(Dist, [Raw(""), Entry(glued), Entry(e)])])
  {
    var e := HostEntry(address, host, comment);
    assert NewEntry(Dist, address, host, Some(comment)) == e;
    var glued := HostEntry(address, host + "#" + comment, "undefined");
    DistWrittenEntryReadsGlued(address, host, comment);
    var ls2 := [Raw(""), Entry(glued)];
    assert !HasEntry(ls2, address, host) by { assert |glued.host| > |host|; }
    assert ls2 + [Entry(e)] == [Raw(""), Entry(glued), Entry(e)];
    assert Place(ls2, Entry(e), "") == Ok(ls2 + [Entry(e)]);
  }

  /** Three printed lines join to a longer text than the last one after a blank line. */
  lemma LongerHostsText(ls2: seq<HostLine>, x: HostLine)
    requires |ls2| == 2 && ls2[0] == Raw("")
    ensures |ToHostsString(Dist, ls2 + [x])| > |ToHostsString(Dist, [Raw(""), x])|
  {
    var line := Trim(LineToString(Dist, x));
    var p := Printed(Dist, ls2 + [x]);
    assert Printed(Dist, [Raw(""), x]) == ["", line] by { assert Trim("") == ""; }
    assert p[2] == line;
    JoinCons("", [line], "\n");
    assert p == [p[0]] + [p[1], p[2]];
    JoinCons(p[0], [p[1], p[2]], "\n");
    JoinCons(p[1], [p[2]], "\n");
  }

  /**
   * Dist `addHost` is not idempotent: on an empty hosts file, adding the same
   * address, host and plain comment twice writes the file both times, because
   * the first entry reads back under the host `host#comment`.
   */
  lemma DistAddHostRepeats(address: string, host: string, comment: string)
    requires IsWord(address) && !("#" <= address) && IsWord(host) && IsWord(comment) && !("#" <= comment)
    ensures var files := map[HostsPath := ""];
            var first := AddHostOutcome(Dist, files, address, host, Some(comment), "");
            var second := AddHostOutcome(Dist, first.files, address, host, Some(comment), "");
            first.files != files && second.files != first.files
  {
    var e := HostEntry(address, host, comment);
    var glued := HostEntry(address, host + "#" + comment, "undefined");
    DistFirstAdd(address, host, comment);
    DistSecondAdd(address, host, comment);
    LongerHostsText([Raw(""), Entry(glued)], Entry(e));
    var t1 := ToHostsString(Dist, [Raw(""), Entry(e)]);
    assert |t1| > 0 by {
      assert Printed(Dist, [Raw(""), Entry(e)])[0] == "" by { assert Trim("") == ""; }
      JoinCons("", [Printed(Dist, [Raw(""), Entry(e)])[1]], "\n");
    }
    assert map[HostsPath := t1][HostsPath] != map[HostsPath := ""][HostsPath];
    assert [Raw(""), Entry(glued)] + [Entry(e)] == [Raw(""), Entry(glued), Entry(e)];
  }
}
