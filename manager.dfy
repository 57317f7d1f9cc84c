/**
 * The server manager (dist/manager.js): a `Server` pairs a site configuration
 * with the host name its `server_name` line declares and the entry of the
 * `LibToServe` hosts section that maps that name; `listServers` builds one
 * per site, `enable`, `disable` and `destroy` add and remove the host mapping
 * and the configuration, and `createServer` adds both. The hosts calls go to
 * the TypeScript hosts file editor (`Src`), as src/index.ts wires it.
 */
module Manager {
  import opened Outcomes
  import opened Strings
  import opened HostLine
  import opened Sections
  import opened Templates
  import opened Disk
  import Hosts
  import Sites

  /** The hosts section the manager keeps its mappings in. */
  const HostsSection := "LibToServe"

  /** The address every managed host name is mapped to. */
  const Loopback := "127.0.0.1"

  // ---------------------------------------------------------------- reading a configuration

  function ServerNameTest(): string -> bool {
    (line: string) => "server_name" <= Trim(line)
  }

  /**
   * The host value of a configuration: the first line whose trimmed form
   * starts with `server_name`, trimmed, split on single spaces; its second
   * piece less its first `;`, trimmed. None (`undefined`) when there is no such
   * line or no second piece.
   */
  function HostValue(config: string): Option<string>
  {
    var lines := SplitOn(config, '\n');
    match FindIndex(ServerNameTest(), lines)
    case None => None
    case Some(i) =>
      var parts := SplitOn(Trim(lines[i]), ' ');
      if |parts| < 2 then None else Some(Trim(ReplaceFirst(parts[1], ";", "")))
  }

  function HostTest(value: string): HostLine -> bool {
    (l: HostLine) => l.Entry? && l.entry.host == value
  }

  /** The host entry a listed server is paired with: the first entry of the section with that host, for a non-empty value only. */
  function HostMatch(hostList: seq<HostLine>, value: Option<string>): Option<HostEntry>
  {
    if value.None? || value.value == "" then None
    else
      match FindIndex(HostTest(value.value), hostList)
      case None => None
      case Some(i) =>
        FindIndexHit(HostTest(value.value), hostList);
        Some(hostList[i].entry)
  }

  /** Leading spaces do not change what a line trims to. */
  lemma {:induction false} TrimIndented(indent: string, m: string)
    requires forall k :: 0 <= k < |indent| ==> indent[k] == ' '
    requires m != [] && !IsSpace(m[0]) && !IsSpace(m[|m| - 1])
    ensures Trim(indent + m) == m
  {
    if indent == [] {
      assert indent + m == m;
      TrimBounded(m);
    } else {
      assert (indent + m)[1..] == indent[1..] + m;
      TrimIndented(indent[1..], m);
    }
  }

  /** Two pieces without the separator, joined by it, split back into those two. */
  lemma SplitPair(a: string, c: char, b: string)
    requires c !in a && c !in b
    ensures SplitOn(a + [c] + b, c) == [a, b]
  {
    SplitAround(a, c, b);
    SplitWithoutSeparator(a, c);
    SplitWithoutSeparator(b, c);
  }

  /** `server_name <h>;` splits on single spaces into `server_name` and `<h>;`. */
  lemma SplitServerName(h: string)
    requires IsWord(h)
    ensures SplitOn("server_name " + h + ";", ' ') == ["server_name", h + ";"]
  {
    var name := "server_name";
    assert ' ' !in name by {
      assert forall k :: 0 <= k < |name| ==> name[k] != ' ';
    }
    assert ' ' !in h + ";" by {
      assert forall k :: 0 <= k < |h| ==> (h + ";")[k] == h[k] && !IsSpace(h[k]);
    }
    SplitPair(name, ' ', h + ";");
    assert "server_name " + h + ";" == name + [' '] + (h + ";");
  }

  /** The indented line trims to `server_name <h>;`, which is a `server_name` line. */
  lemma TrimServerName(indent: string, h: string)
    requires forall k :: 0 <= k < |indent| ==> indent[k] == ' '
    requires IsWord(h)
    ensures Trim(indent + "server_name " + h + ";") == "server_name " + h + ";"
    ensures ServerNameTest()(indent + "server_name " + h + ";")
  {
    var m := "server_name " + h + ";";
    assert indent + "server_name " + h + ";" == indent + m;
    TrimIndented(indent, m);
    assert m[..11] == "server_name";
  }

  /** The trimmed line `<indent>server_name <h>;` splits into `server_name` and `<h>;`, and `<h>` is its host. */
  lemma ServerNameLineParses(indent: string, h: string)
    requires forall k :: 0 <= k < |indent| ==> indent[k] == ' '
    requires IsWord(h) && ';' !in h
    ensures var l := indent + "server_name " + h + ";";
            ServerNameTest()(l)
            && |SplitOn(Trim(l), ' ')| >= 2 && Trim(ReplaceFirst(SplitOn(Trim(l), ' ')[1], ";", "")) == h
  {
    TrimServerName(indent, h);
    SplitServerName(h);
    assert h + ";" == h + [';'];
    ReplaceLastChar(h, ';');
    TrimBounded(h);
  }

  /**
   * When line `k` of a configuration is `<indent>server_name <h>;` and no line
   * before it is a `server_name` line, the configuration declares exactly the host `h`.
   */
  lemma HostValueOfServerName(lines: seq<string>, k: nat, indent: string, h: string)
    requires k < |lines| && lines[k] == indent + "server_name " + h + ";"
    requires forall i :: 0 <= i < |lines| ==> '\n' !in lines[i]
    requires forall i :: 0 <= i < k ==> !ServerNameTest()(lines[i])
    requires forall j :: 0 <= j < |indent| ==> indent[j] == ' '
    requires IsWord(h) && ';' !in h
    ensures HostValue(Join(lines, "\n")) == Some(h)
  {
    ServerNameLineParses(indent, h);
    assert SplitOn(Join(lines, "\n"), '\n') == lines by {
      assert "\n" == ['\n'];
      SplitOfJoin(lines, '\n');
    }
    FindIndexAt(ServerNameTest(), lines, k);
  }

  /** A configuration with no `server_name` line declares no host. */
  lemma HostValueWithoutServerName(config: string)
    requires forall i :: 0 <= i < |SplitOn(config, '\n')| ==> !("server_name" <= Trim(SplitOn(config, '\n')[i]))
    ensures HostValue(config).None?
  {
    var lines := SplitOn(config, '\n');
    FindIndexNone(ServerNameTest(), lines);
  }

  /**
   * The match is the first entry of the section with the server's host; there
   * is one exactly when the value is non-empty and some entry has that host.
   */
  lemma HostMatchFirst(hostList: seq<HostLine>, value: Option<string>) returns (i: nat)
    ensures HostMatch(hostList, value).Some?
            <==> value.Some? && value.value != ""
                 && exists j :: 0 <= j < |hostList| && hostList[j].Entry? && hostList[j].entry.host == value.value
    ensures HostMatch(hostList, value).Some? ==>
              i < |hostList| && hostList[i] == Entry(HostMatch(hostList, value).value)
              && HostMatch(hostList, value).value.host == value.value
              && forall j :: 0 <= j < i ==> !(hostList[j].Entry? && hostList[j].entry.host == value.value)
  {
    i := 0;
    if value.Some? && value.value != "" {
      var t := HostTest(value.value);
      FindIndexNone(t, hostList);
      if FindIndex(t, hostList).Some? {
        i := FindIndex(t, hostList).value;
        FindIndexHit(t, hostList);
        assert t(hostList[i]);
        forall j | 0 <= j < i
          ensures !(hostList[j].Entry? && hostList[j].entry.host == value.value)
        {
          FindIndexFirst(t, hostList, j);
        }
      } else {
        forall j | 0 <= j < |hostList|
          ensures !(hostList[j].Entry? && hostList[j].entry.host == value.value)
        {
          assert !t(hostList[j]);
        }
      }
    }
  }

  // ---------------------------------------------------------------- servers

  /** `new Server(site, url, host)`: the site, its host value and its matched host entry. */
  datatype Server = Server(site: string, url: Option<string>, host: Option<HostEntry>)
  {
    /** `valid()`: a host entry was matched and the site name is non-empty. */
    predicate Valid() {
      host.Some? && site != ""
    }

    /**
     * `enable()`: without a non-empty host value it throws; otherwise it adds
     * `127.0.0.1 <url>` with the site as comment to the `LibToServe` section.
     * Whether `addHost` wrote or found the entry already present is discarded.
     */
    method Enable(fs: FileSystem) returns (r: Result<()>)
      modifies fs
      ensures url.None? || url == Some("") ==> r == Err(MissingHostname) && fs.files == old(fs.files)
      ensures url.Some? && url.value != "" ==>
                var o := Hosts.AddHostOutcome(Src, old(fs.files), Loopback, url.value, Some(site), HostsSection);
                fs.files == o.files && r == (if o.result.Err? then Err(o.result.error) else Ok(()))
    {
      if url.None? || url.value == "" {
        return Err(MissingHostname);
      }
      var added := Hosts.AddHost(fs, Src, Loopback, url.value, Some(site), HostsSection);
      if added.Err? {
        return Err(added.error);
      }
      r := Ok(());
    }

    /**
     * `disable()`: without a host entry it throws; otherwise it removes every
     * entry whose comment is that entry's comment (`|| ''` changes nothing on a string).
     */
    method Disable(fs: FileSystem) returns (r: Result<()>)
      modifies fs
      ensures host.None? ==> r == Err(MissingIdentity) && fs.files == old(fs.files)
      ensures host.Some? ==>
                var o := Hosts.RemoveOutcome(Src, old(fs.files), ByComment(host.value.comment));
                fs.files == o.files && r == (if o.result.Err? then Err(o.result.error) else Ok(()))
    {
      if host.None? {
        return Err(MissingIdentity);
      }
      var removed := Hosts.RemoveHostByComment(fs, Src, host.value.comment);
      if removed.Err? {
        return Err(removed.error);
      }
      r := Ok(());
    }

    /**
     * `destroy()`: disables when a host entry is present (an error there
     * escapes before anything else happens), then removes the site
     * configuration. The promise `removeSite` returns is not awaited, so its
     * rejection does not reach the caller.
     */
    method Destroy(fs: FileSystem, output: string) returns (r: Result<()>)
      modifies fs
      ensures host.None? ==>
                r == Ok(()) && fs.files == Sites.RemoveSiteOutcome(old(fs.files), output, site).files
      ensures host.Some? ==>
                var d := Hosts.RemoveOutcome(Src, old(fs.files), ByComment(host.value.comment));
                if d.result.Err? then r == Err(d.result.error) && fs.files == d.files
                else r == Ok(()) && fs.files == Sites.RemoveSiteOutcome(d.files, output, site).files
    {
      if host.Some? {
        var disabled := Disable(fs);
        if disabled.Err? {
          return disabled;
        }
      }
      var _ := Sites.RemoveSite(fs, output, site);
      r := Ok(());
    }
  }

  /** The server `listServers` builds for one site: reading its configuration throws when it is missing. */
  function ServerOf(files: map<string, string>, dir: string, hostList: seq<HostLine>, site: string): Result<Server>
  {
    var path := Sites.ServerPath(dir, site);
    if path !in files then Err(SiteUnreadable(site))
    else
      var url := HostValue(files[path]);
      Ok(Server(site, url, HostMatch(hostList, url)))
  }

  /**
   * `listServers()` with the site list, the configuration directory awaited:
   * the site list rejects without a configuration directory, `getHosts`
   * throws without a readable `LibToServe` section, and then every name of
   * `listing`, the directory listing in the order `readdir` gives it, becomes
   * one server.
   */
  function ListServers(files: map<string, string>, output: string, listing: seq<string>): (r: Result<seq<Server>>)
    ensures r.Ok? ==> Sites.SitesOf(files, output).Ok? && Hosts.ReadHostsFile(Src, files, HostsSection).Ok?
    ensures r.Ok? ==>
              var dir := Sites.ConfigDirOf(output).value;
              var hostList := Hosts.ReadHostsFile(Src, files, HostsSection).value;
              |r.value| == |listing|
              && forall i :: 0 <= i < |listing| ==>
                   Sites.ServerPath(dir, listing[i]) in files
                   && r.value[i].site == listing[i]
                   && r.value[i].url == HostValue(files[Sites.ServerPath(dir, listing[i])])
                   && r.value[i].host == HostMatch(hostList, r.value[i].url)
  {
    var _ :- Sites.SitesOf(files, output);
    var hostList :- Hosts.ReadHostsFile(Src, files, HostsSection);
    var dir := Sites.ConfigDirOf(output).value;
    MapAll((site: string) => ServerOf(files, dir, hostList, site), listing)
  }

  /**
   * `listServers()` as dist/manager.js writes it: `getSites()` is not awaited,
   * so `sites` is a promise; after `getHosts` has run (and possibly thrown),
   * `sites.map` is not a function and the call throws.
   */
  function ListServersAsWritten(files: map<string, string>, output: string): Result<seq<Server>>
  {
    var _ :- Hosts.ReadHostsFile(Src, files, HostsSection);
    Err(NotAFunction("map"))
  }

  /** As written, `listServers` never returns a list, even where the awaited version lists every site. */
  lemma ListServersAsWrittenThrows(files: map<string, string>, output: string, listing: seq<string>)
    ensures ListServersAsWritten(files, output).Err?
    ensures ListServers(files, output, listing).Ok? ==> ListServersAsWritten(files, output) == Err(NotAFunction("map"))
  {
  }

  /**
   * When the directory listing names only configurations of the directory and
   * the section reads, the awaited `listServers` lists one server per name.
   */
  lemma ListedSitesReadable(files: map<string, string>, output: string, listing: seq<string>)
    requires Sites.SitesOf(files, output).Ok? && Hosts.ReadHostsFile(Src, files, HostsSection).Ok?
    requires forall i :: 0 <= i < |listing| ==> listing[i] in Sites.SitesOf(files, output).value
    ensures ListServers(files, output, listing).Ok?
    ensures |ListServers(files, output, listing).value| == |listing|
  {
    var dir := Sites.ConfigDirOf(output).value;
    var hostList := Hosts.ReadHostsFile(Src, files, HostsSection).value;
    MapAllSucceeds((site: string) => ServerOf(files, dir, hostList, site), listing);
  }

  /**
   * A listed server is valid exactly when its site name is non-empty, its
   * configuration declares a non-empty host, and the section has an entry for it.
   */
  lemma ListedServerValid(files: map<string, string>, output: string, listing: seq<string>, i: nat)
    requires ListServers(files, output, listing).Ok? && i < |listing|
    ensures var s := ListServers(files, output, listing).value[i];
            var hostList := Hosts.ReadHostsFile(Src, files, HostsSection).value;
            s.Valid()
            <==> listing[i] != "" && s.url.Some? && s.url.value != ""
                 && exists j :: 0 <= j < |hostList| && hostList[j].Entry? && hostList[j].entry.host == s.url.value
  {
    var s := ListServers(files, output, listing).value[i];
    var hostList := Hosts.ReadHostsFile(Src, files, HostsSection).value;
    var _ := HostMatchFirst(hostList, s.url);
  }

  // ---------------------------------------------------------------- enabling and disabling a listed server

  /** Text lines of a canonical list start with `#` or are empty. */
  lemma CanonicalTextLines(ls: seq<HostLine>)
    requires Hosts.Canonical(ls)
    ensures TextLinesStartWithHash(ls)
  {
    forall i | 0 <= i < |ls| && ls[i].Raw?
      ensures ls[i].text == "" || "#" <= ls[i].text
    {
      assert Hosts.CanonicalLine(ls[i]);
    }
  }

  lemma LoopbackIsAddress()
    ensures IsWord(Loopback) && !("#" <= Loopback)
  {
    assert forall k :: 0 <= k < |Loopback| ==> !IsSpace(Loopback[k]);
    assert Loopback[0] == '1';
  }

  /**
   * The situation the enable lemmas describe: the hosts file holds the
   * canonical lines `ls`, without a `LibToServe` section and without an entry
   * for `127.0.0.1 <url>`, and the site and host value are single words.
   */
  predicate EnableReady(files: map<string, string>, ls: seq<HostLine>, site: string, url: string)
  {
    HostsPath in files && files[HostsPath] == ToHostsString(Src, ls) && Hosts.Canonical(ls) && |ls| >= 1
    && IsWord(url) && IsWord(site)
    && !HasEntry(ls, Loopback, url)
    && MarkerIndex(ls, StartMarker(HostsSection), false).None? && MarkerIndex(ls, EndMarker(HostsSection), false).None?
  }

  /** The lines `enable` writes into a canonical file without a `LibToServe` section. */
  function EnabledLines(ls: seq<HostLine>, site: string, url: string): seq<HostLine>
  {
    ls + [Raw(StartMarker(HostsSection)), Entry(NewEntry(Src, Loopback, url, Some(site))), Raw(EndMarker(HostsSection))]
  }

  /** `enable` on such a file writes `EnabledLines`, a canonical list. */
  lemma EnableCreatesSection(files: map<string, string>, ls: seq<HostLine>, site: string, url: string)
    requires EnableReady(files, ls, site, url)
    ensures Hosts.AddHostOutcome(Src, files, Loopback, url, Some(site), HostsSection)
         == Outcome(Ok(true), files[HostsPath := ToHostsString(Src, EnabledLines(ls, site, url))])
    ensures Hosts.Canonical(EnabledLines(ls, site, url))
  {
    Hosts.WrittenReadsBack(ls);
    assert Hosts.ReadHostsFile(Src, files, "") == Ok(ls);
    CanonicalTextLines(ls);
    LoopbackIsAddress();
    AddCreatesSection(Src, ls, Loopback, url, Some(site), HostsSection);
    Hosts.AddKeepsCanonical(ls, Loopback, url, Some(site), HostsSection);
  }

  /** Reading the `LibToServe` section of the written lines gives its start sentinel and the new entry. */
  lemma EnabledSectionReads(ls: seq<HostLine>, site: string, url: string)
    requires Hosts.Canonical(EnabledLines(ls, site, url)) && TextLinesStartWithHash(ls)
    requires MarkerIndex(ls, StartMarker(HostsSection), false).None? && MarkerIndex(ls, EndMarker(HostsSection), false).None?
    ensures ReadHosts(Src, ToHostsString(Src, EnabledLines(ls, site, url)), HostsSection)
         == Ok([Raw(StartMarker(HostsSection)), Entry(NewEntry(Src, Loopback, url, Some(site)))])
  {
    var ls' := EnabledLines(ls, site, url);
    Hosts.WrittenReadsBack(ls');
    PlaceCreatesSection(ls, Entry(NewEntry(Src, Loopback, url, Some(site))), HostsSection);
  }

  /**
   * Enabling a server whose host value is `url` into a canonical hosts file
   * without a `LibToServe` section creates the section with the new entry,
   * which is then the entry a listing pairs the server's host value with.
   */
  lemma EnableThenMatches(files: map<string, string>, ls: seq<HostLine>, site: string, url: string)
    requires EnableReady(files, ls, site, url)
    ensures var o := Hosts.AddHostOutcome(Src, files, Loopback, url, Some(site), HostsSection);
            var e := NewEntry(Src, Loopback, url, Some(site));
            o.result == Ok(true)
            && Hosts.ReadHostsFile(Src, o.files, HostsSection) == Ok([Raw(StartMarker(HostsSection)), Entry(e)])
            && HostMatch([Raw(StartMarker(HostsSection)), Entry(e)], Some(url)) == Some(e)
  {
    var e := NewEntry(Src, Loopback, url, Some(site));
    EnableCreatesSection(files, ls, site, url);
    CanonicalTextLines(ls);
    EnabledSectionReads(ls, site, url);
    var sec := [Raw(StartMarker(HostsSection)), Entry(e)];
    assert HostTest(url)(sec[1]);
    FindIndexAt(HostTest(url), sec, 1);
  }

  /**
   * Enabling a server whose host value is `url` into a canonical hosts file
   * that already has a `LibToServe` section, none of whose entries has host
   * `url`, appends the new entry to that section, which is then the entry a
   * listing pairs the server's host value with.
   */
  lemma EnableIntoSectionMatches(files: map<string, string>, ls: seq<HostLine>, site: string, url: string)
    requires HostsPath in files && files[HostsPath] == ToHostsString(Src, ls) && Hosts.Canonical(ls) && |ls| >= 1
    requires IsWord(url) && IsWord(site) && !HasEntry(ls, Loopback, url)
    requires SectionOf(ls, HostsSection).Ok?
    requires MarkerIndex(ls, StartMarker(HostsSection), true).value <= MarkerIndex(ls, EndMarker(HostsSection), true).value
    requires forall i :: 0 <= i < |SectionOf(ls, HostsSection).value| ==>
               !(SectionOf(ls, HostsSection).value[i].Entry? && SectionOf(ls, HostsSection).value[i].entry.host == url)
    ensures var o := Hosts.AddHostOutcome(Src, files, Loopback, url, Some(site), HostsSection);
            var e := NewEntry(Src, Loopback, url, Some(site));
            var sec := SectionOf(ls, HostsSection).value;
            o.result == Ok(true)
            && Hosts.ReadHostsFile(Src, o.files, HostsSection) == Ok(sec + [Entry(e)])
            && HostMatch(sec + [Entry(e)], Some(url)) == Some(e)
  {
    var ls' := EnableIntoSectionWrites(files, ls, site, url);
    MatchAppended(SectionOf(ls, HostsSection).value, NewEntry(Src, Loopback, url, Some(site)), url);
  }

  /**
   * `enable` into a canonical file with a `LibToServe` section writes a list
   * whose section reads as the old section followed by the new entry.
   */
  lemma EnableIntoSectionWrites(files: map<string, string>, ls: seq<HostLine>, site: string, url: string)
    returns (ls': seq<HostLine>)
    requires HostsPath in files && files[HostsPath] == ToHostsString(Src, ls) && Hosts.Canonical(ls) && |ls| >= 1
    requires IsWord(url) && IsWord(site) && !HasEntry(ls, Loopback, url)
    requires SectionOf(ls, HostsSection).Ok?
    requires MarkerIndex(ls, StartMarker(HostsSection), true).value <= MarkerIndex(ls, EndMarker(HostsSection), true).value
    ensures Hosts.AddHostOutcome(Src, files, Loopback, url, Some(site), HostsSection)
         == Outcome(Ok(true), files[HostsPath := ToHostsString(Src, ls')])
    ensures ReadHosts(Src, ToHostsString(Src, ls'), HostsSection)
         == Ok(SectionOf(ls, HostsSection).value + [Entry(NewEntry(Src, Loopback, url, Some(site)))])
  {
    assert Hosts.ReadHostsFile(Src, files, "") == Ok(ls) by {
      Hosts.WrittenReadsBack(ls);
    }
    LoopbackIsAddress();
    CanonicalTextLines(ls);
    AddThenReadSection(Src, ls, Loopback, url, Some(site), HostsSection);
    ls' := AddLines(Src, ls, Loopback, url, Some(site), HostsSection).value.value;
    assert ReadHosts(Src, ToHostsString(Src, ls'), "") == Ok(ls') by {
      Hosts.AddKeepsCanonical(ls, Loopback, url, Some(site), HostsSection);
      Hosts.WrittenReadsBack(ls');
    }
  }

  /** An entry appended after lines with no entry for its host is the one that host value is matched with. */
  lemma MatchAppended(sec: seq<HostLine>, e: HostEntry, url: string)
    requires url != "" && e.host == url
    requires forall i :: 0 <= i < |sec| ==> !(sec[i].Entry? && sec[i].entry.host == url)
    ensures HostMatch(sec + [Entry(e)], Some(url)) == Some(e)
  {
    var sec' := sec + [Entry(e)];
    assert HostTest(url)(sec'[|sec|]);
    assert forall j :: 0 <= j < |sec| ==> sec'[j] == sec[j];
    FindIndexAt(HostTest(url), sec', |sec|);
  }

  /** A remove on a file holding a canonical list writes the filtered list when something matched. */
  lemma RemoveFromCanonical(files: map<string, string>, ls: seq<HostLine>, m: Match)
    requires HostsPath in files && files[HostsPath] == ToHostsString(Src, ls)
    requires Hosts.Canonical(ls) && |ls| >= 1 && RemoveLines(ls, m).Some?
    ensures Hosts.RemoveOutcome(Src, files, m)
         == Outcome(Ok(true), files[HostsPath := ToHostsString(Src, RemoveLines(ls, m).value)])
  {
    assert Hosts.ReadHostsFile(Src, files, "") == Ok(ls) by {
      Hosts.WrittenReadsBack(ls);
    }
  }

  /**
   * Disabling the server that enabling paired with the new entry removes that
   * entry again: the hosts file keeps its old lines and the now empty section,
   * and no other file changes.
   */
  lemma DisableUndoesEnable(files: map<string, string>, ls: seq<HostLine>, site: string, url: string)
    requires EnableReady(files, ls, site, url)
    requires forall i :: 0 <= i < |ls| ==> !Matches(ls[i], ByComment(NewEntry(Src, Loopback, url, Some(site)).comment))
    ensures var enabled := Hosts.AddHostOutcome(Src, files, Loopback, url, Some(site), HostsSection);
            var e := NewEntry(Src, Loopback, url, Some(site));
            Hosts.RemoveOutcome(Src, enabled.files, ByComment(e.comment))
            == Outcome(Ok(true), enabled.files[HostsPath := ToHostsString(Src, ls + [Raw(StartMarker(HostsSection)), Raw(EndMarker(HostsSection))])])
  {
    var e := NewEntry(Src, Loopback, url, Some(site));
    var m := ByComment(e.comment);
    var ls' := EnabledLines(ls, site, url);
    EnableCreatesSection(files, ls, site, url);
    assert RemoveLines(ls', m) == Some(ls + [Raw(StartMarker(HostsSection)), Raw(EndMarker(HostsSection))]) by {
      RetainEnabled(ls, site, url);
      assert Matches(ls'[|ls| + 1], m);
    }
    RemoveFromCanonical(files[HostsPath := ToHostsString(Src, ls')], ls', m);
  }

  /** Filtering out the new entry's comment leaves the old lines and the section's two sentinels. */
  lemma RetainEnabled(ls: seq<HostLine>, site: string, url: string)
    requires forall i :: 0 <= i < |ls| ==> !Matches(ls[i], ByComment(NewEntry(Src, Loopback, url, Some(site)).comment))
    ensures Retain(EnabledLines(ls, site, url), ByComment(NewEntry(Src, Loopback, url, Some(site)).comment))
         == ls + [Raw(StartMarker(HostsSection)), Raw(EndMarker(HostsSection))]
  {
    var e := NewEntry(Src, Loopback, url, Some(site));
    var m := ByComment(e.comment);
    var tail := [Raw(StartMarker(HostsSection)), Entry(e), Raw(EndMarker(HostsSection))];
    RetainAppend(ls, tail, m);
    RetainUnmatched(ls, m);
    var last := [Raw(EndMarker(HostsSection))];
    assert last[1..] == [];
    assert Retain(last, m) == last;
    var middle := [Entry(e)] + last;
    assert middle[1..] == last && Matches(middle[0], m);
    assert Retain(middle, m) == last;
    assert tail == [Raw(StartMarker(HostsSection))] + middle;
    assert tail[1..] == middle;
    assert Retain(tail, m) == [Raw(StartMarker(HostsSection))] + last;
  }

  // ---------------------------------------------------------------- creating a server

  /** `{ ...properties, hostName: host }`. */
  function ServerProps(props: Props, host: string): Props
  {
    Assign(Spread([], props), "hostName", host)
  }

  /**
   * `createServer(type, name, host, properties)`. `addSite` is called first,
   * but its body starts by awaiting the configuration directory, so the
   * host mapping is added before the configuration is written; the promise is
   * never awaited (the `!addedConf` check never fires), so how `addSite` ends
   * does not reach the caller, while an error of `addHost` does.
   */
  method CreateServer(fs: FileSystem, output: string, catalog: map<string, string>, siteType: string,
                      name: string, host: string, props: Props, test: Sites.TestRun) returns (r: Result<()>)
    modifies fs
    ensures var h := Hosts.AddHostOutcome(Src, old(fs.files), Loopback, host, Some(name), HostsSection);
            var a := Sites.AddSiteOutcome(Src, h.files, output, catalog, siteType, name, ServerProps(props, host), test);
            fs.files == a.files && r == (if h.result.Err? then Err(h.result.error) else Ok(()))
  {
    var mapped := Hosts.AddHost(fs, Src, Loopback, host, Some(name), HostsSection);
    var _ := Sites.AddSite(fs, Src, output, catalog, siteType, name, ServerProps(props, host), test);
    if mapped.Err? {
      return Err(mapped.error);
    }
    r := Ok(());
  }

  /** The properties `createServer` passes hold `hostName` as `host` and otherwise agree with the caller's. */
  lemma ServerPropsLookup(props: Props, host: string, k: string)
    requires DistinctKeys(props)
    ensures DistinctKeys(ServerProps(props, host))
    ensures Lookup(ServerProps(props, host), k) == if k == "hostName" then Some(host) else Lookup(props, k)
  {
    SpreadDistinct([], props);
    AssignDistinct(Spread([], props), "hostName", host);
    AssignLookup(Spread([], props), "hostName", host, k);
    SpreadLookup([], props, k);
  }

  /** So the template's `{{hostName}}` is filled with `host` (the defaults never define `hostName`). */
  lemma ServerTemplateHostName(props: Props, host: string)
    requires DistinctKeys(props)
    ensures Lookup(AllProps(ServerProps(props, host)), "hostName") == Some(host)
  {
    ServerPropsLookup(props, host, "hostName");
    AllPropsLookup(ServerProps(props, host), "hostName");
    AssignKeys(Spread([], props), "hostName", host);
  }

  /**
   * After `createServer` has written a configuration, `getSiteInfo` on it
   * reads back `hostName` as the host the server was created for; `mid` is
   * the disk as `addHost` left it, which `addSite` starts from.
   */
  lemma CreatedServerRecordsHost(mid: map<string, string>, output: string, catalog: map<string, string>,
                                 siteType: string, name: string, host: string, props: Props, out: string)
    requires Sites.AddSiteOutcome(Src, mid, output, catalog, siteType, name, ServerProps(props, host), Sites.Passed(out)).result == Ok(true)
    requires var rendered := Substitute(Sites.TemplateOf(mid, catalog, siteType).value, AllProps(ServerProps(props, host)));
             forall i :: 0 <= i < |SplitOn(rendered, '\n')| ==> !("##%" <= SplitOn(rendered, '\n')[i])
    requires DistinctKeys(props) && FooterSafe(props) && FooterValue(host) && FooterValue(siteType) && FooterValue(name)
    ensures var a := Sites.AddSiteOutcome(Src, mid, output, catalog, siteType, name, ServerProps(props, host), Sites.Passed(out));
            Sites.SiteInfoOf(a.files, output, name).Ok?
            && Lookup(Sites.SiteInfoOf(a.files, output, name).value, "hostName") == Some(host)
  {
    var sp := ServerProps(props, host);
    ServerPropsSafe(props, host);
    var a := Sites.AddSiteOutcome(Src, mid, output, catalog, siteType, name, sp, Sites.Passed(out));
    assert Sites.SiteInfoOf(a.files, output, name) == Ok(ExtendedProps(sp, siteType, name)) by {
      Sites.AddedSiteReadsBack(mid, output, catalog, siteType, name, sp, out);
    }
    FooterHostName(props, host, siteType, name);
  }

  /** Adding `hostName` keeps the properties writable as footer lines when the host has no line break. */
  lemma ServerPropsSafe(props: Props, host: string)
    requires FooterSafe(props) && FooterValue(host)
    ensures FooterSafe(ServerProps(props, host))
  {
    SpreadSafe([], props);
    assert FooterKey("hostName");
    AssignSafe(Spread([], props), "hostName", host);
  }

  /** The footer `addSite` writes for those properties lists `hostName` as `host`. */
  lemma FooterHostName(props: Props, host: string, siteType: string, name: string)
    requires DistinctKeys(props)
    ensures Lookup(ExtendedProps(ServerProps(props, host), siteType, name), "hostName") == Some(host)
  {
    var sp := ServerProps(props, host);
    ExtendedLookup(sp, siteType, name, "hostName");
    ServerPropsLookup(props, host, "hostName");
    AssignKeys(Spread([], props), "hostName", host);
    SpreadLookup([], sp, "hostName");
  }
}
