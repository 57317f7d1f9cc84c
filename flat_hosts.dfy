/**
 * The flat hosts editor of src/services/hosts.ts: the hosts file is a list of
 * raw text lines, a host is looked up by the second white-space token of a
 * line, adding appends one line after duplicate, address and host-name checks,
 * and removing drops every copy of the line that was found. Each change is
 * staged in `/tmp/hosts` and then copied over `/etc/hosts` with elevated rights.
 */
module FlatHosts {
  import opened Outcomes
  import opened Strings
  import opened Sections
  import opened Disk

  /** `getHostFile()`: the text of `/etc/hosts` split on "\n". */
  function HostFile(files: map<string, string>): (r: Result<seq<string>>)
    ensures HostsPath !in files <==> r == Err(HostsUnreadable)
    ensures r.Ok? ==> Join(r.value, "\n") == files[HostsPath]
    ensures r.Ok? ==> |r.value| >= 1 && forall i :: 0 <= i < |r.value| ==> '\n' !in r.value[i]
  {
    if HostsPath !in files then Err(HostsUnreadable)
    else
      assert "\n" == ['\n'];
      JoinOfSplit(files[HostsPath], '\n');
      Ok(SplitOn(files[HostsPath], '\n'))
  }

  /** The line's non-empty white-space tokens number at least two and the second is `host`. */
  predicate Names(line: string, host: string) {
    var ts := Tokens(line);
    |ts| >= 2 && ts[1] == host
  }

  function NamesTest(host: string): string -> bool {
    (line: string) => Names(line, host)
  }

  /** `getHost(host)` on the lines of the file: the first line that names `host`, or undefined. */
  function GetHost(lines: seq<string>, host: string): Option<string>
  {
    match FindIndex(NamesTest(host), lines)
    case None => None
    case Some(i) => Some(lines[i])
  }

  /** A found line is a line of the file that names the host, and no earlier line does. */
  lemma GetHostFirst(lines: seq<string>, host: string) returns (i: nat)
    requires GetHost(lines, host).Some?
    ensures i < |lines| && lines[i] == GetHost(lines, host).value && Names(lines[i], host)
    ensures forall j :: 0 <= j < i ==> !Names(lines[j], host)
  {
    i := FindIndex(NamesTest(host), lines).value;
    FindIndexHit(NamesTest(host), lines);
    forall j | 0 <= j < i
      ensures !Names(lines[j], host)
    {
      FindIndexFirst(NamesTest(host), lines, j);
    }
  }

  /** Nothing is found exactly when no line names the host. */
  lemma GetHostNone(lines: seq<string>, host: string)
    ensures GetHost(lines, host).None? <==> forall j :: 0 <= j < |lines| ==> !Names(lines[j], host)
  {
    FindIndexNone(NamesTest(host), lines);
    if GetHost(lines, host).None? {
      forall j | 0 <= j < |lines|
        ensures !Names(lines[j], host)
      {
        assert !NamesTest(host)(lines[j]);
      }
    }
  }

  /** A commented-out entry such as `#127.0.0.1 blog.local` is not skipped: it still names `blog.local`. */
  lemma CommentLineMatches(address: string, host: string)
    requires IsWord(address) && IsWord(host)
    ensures GetHost(["#" + address + " " + host], host) == Some("#" + address + " " + host)
  {
    var line := "#" + address + " " + host;
    assert IsWord("#" + address);
    assert line == Join(["#" + address, host], " ");
    TokensOfJoin(["#" + address, host]);
    assert NamesTest(host)([line][0]);
  }

  /** A line of fewer than two tokens is never the line found, whatever the file. */
  lemma ShortLineNeverMatches(lines: seq<string>, line: string, host: string)
    requires |Tokens(line)| < 2
    ensures GetHost(lines, host) != Some(line)
  {
    if GetHost(lines, host).Some? {
      var i := GetHostFirst(lines, host);
    }
  }

  /** `HostRegex.test(host)` for the unanchored `[-.0-9a-z]+`: some character of the host is in the class. */
  predicate HostNameOk(host: string) {
    exists i :: 0 <= i < |host| && host[i] in "-.0123456789abcdefghijklmnopqrstuvwxyz"
  }

  /** The appended line `${address} ${host}` plus ` #${comment}` when the comment is truthy. */
  function NewLine(address: string, host: string, comment: Option<string>): string
  {
    address + " " + host + (if comment.Some? && comment.value != "" then " #" + comment.value else "")
  }

  /** `writeHostFile(content)`: stage the text in /tmp/hosts, then the privileged copy over /etc/hosts, which may fail. */
  function WriteHostFile(files: map<string, string>, content: string, elevated: bool): (o: Outcome)
    ensures StagedHostsPath in o.files && o.files[StagedHostsPath] == content
    ensures o.result == Ok(true) <==> elevated
    ensures o.result != Ok(true) ==> o.result == Err(ElevationFailed) && o.files == files[StagedHostsPath := content]
    ensures o.result == Ok(true) ==> o.files == files[StagedHostsPath := content][HostsPath := content]
  {
    var staged := files[StagedHostsPath := content];
    if elevated then Outcome(Ok(true), staged[HostsPath := content])
    else Outcome(Err(ElevationFailed), staged)
  }

  /**
   * `addHost(host, address, comment)`. `isIp` stands for the address regular
   * expression and `elevated` for the outcome of the privileged copy.
   */
  function AddHostOutcome(files: map<string, string>, host: string, address: string, comment: Option<string>,
                          isIp: string -> bool, elevated: bool): (o: Outcome)
    ensures HostFile(files).Err? ==> o == Outcome(Err(HostsUnreadable), files)
    ensures o.result == Err(HostAlreadyExists)
        <==> HostFile(files).Ok? && GetHost(HostFile(files).value, host).Some?
    ensures o.result == Err(InvalidAddress)
        <==> HostFile(files).Ok? && GetHost(HostFile(files).value, host).None? && !isIp(address)
    ensures o.result == Err(InvalidHostName)
        <==> HostFile(files).Ok? && GetHost(HostFile(files).value, host).None? && isIp(address) && !HostNameOk(host)
    ensures o.result in {Err(HostAlreadyExists), Err(InvalidAddress), Err(InvalidHostName)} ==> o.files == files
    ensures o.result == Ok(true)
        <==> HostFile(files).Ok? && GetHost(HostFile(files).value, host).None? && isIp(address) && HostNameOk(host)
             && elevated
    ensures HostFile(files).Ok? && GetHost(HostFile(files).value, host).None? && isIp(address) && HostNameOk(host)
            && !elevated ==>
              var text := Join(HostFile(files).value + [NewLine(address, host, comment)], "\n");
              o == Outcome(Err(ElevationFailed), files[StagedHostsPath := text])
    ensures o.result == Ok(true) ==>
              var text := Join(HostFile(files).value + [NewLine(address, host, comment)], "\n");
              o.files == files[StagedHostsPath := text][HostsPath := text]
  {
    match HostFile(files)
    case Err(f) => Outcome(Err(f), files)
    case Ok(lines) =>
      if GetHost(lines, host).Some? then Outcome(Err(HostAlreadyExists), files)
      else if !isIp(address) then Outcome(Err(InvalidAddress), files)
      else if !HostNameOk(host) then Outcome(Err(InvalidHostName), files)
      else WriteHostFile(files, Join(lines + [NewLine(address, host, comment)], "\n"), elevated)
  }

  /** `hosts.filter(entry => entry !== line)`: every copy of `line` is dropped, order is kept. */
  function Without(lines: seq<string>, line: string): (r: seq<string>)
    ensures |r| <= |lines|
    ensures forall l :: l in r <==> l in lines && l != line
  {
    if lines == [] then []
    else if lines[0] == line then Without(lines[1..], line)
    else [lines[0]] + Without(lines[1..], line)
  }

  /** `removeHost(host)`: reject a host that is not found, otherwise drop the found line and end the file with "\n". */
  function RemoveHostOutcome(files: map<string, string>, host: string, elevated: bool): (o: Outcome)
    ensures HostFile(files).Err? ==> o == Outcome(Err(HostsUnreadable), files)
    ensures o.result == Err(HostDoesNotExist)
        <==> HostFile(files).Ok? && GetHost(HostFile(files).value, host).None?
    ensures o.result == Err(HostDoesNotExist) ==> o.files == files
    ensures o.result == Ok(true) <==> HostFile(files).Ok? && GetHost(HostFile(files).value, host).Some? && elevated
    ensures HostFile(files).Ok? && GetHost(HostFile(files).value, host).Some? && !elevated ==>
              var text := Join(Without(HostFile(files).value, GetHost(HostFile(files).value, host).value), "\n") + "\n";
              o == Outcome(Err(ElevationFailed), files[StagedHostsPath := text])
    ensures o.result == Ok(true) ==>
              var text := Join(Without(HostFile(files).value, GetHost(HostFile(files).value, host).value), "\n") + "\n";
              o.files == files[StagedHostsPath := text][HostsPath := text]
  {
    match HostFile(files)
    case Err(f) => Outcome(Err(f), files)
    case Ok(lines) =>
      match GetHost(lines, host)
      case None => Outcome(Err(HostDoesNotExist), files)
      case Some(found) => WriteHostFile(files, Join(Without(lines, found), "\n") + "\n", elevated)
  }

  // ---------------------------------------------------------------- against the file system

  method GetHostFile(fs: FileSystem) returns (r: Result<seq<string>>)
    ensures r == HostFile(fs.files)
  {
    if HostsPath !in fs.files {
      return Err(HostsUnreadable);
    }
    r := Ok(SplitOn(fs.files[HostsPath], '\n'));
  }

  method FindHost(fs: FileSystem, host: string) returns (r: Result<Option<string>>)
    ensures HostFile(fs.files).Err? ==> r == Err(HostsUnreadable)
    ensures HostFile(fs.files).Ok? ==> r == Ok(GetHost(HostFile(fs.files).value, host))
  {
    var lines :- GetHostFile(fs);
    r := Ok(GetHost(lines, host));
  }

  method WriteHosts(fs: FileSystem, content: string, elevated: bool) returns (r: Result<bool>)
    modifies fs
    ensures r == WriteHostFile(old(fs.files), content, elevated).result
    ensures fs.files == WriteHostFile(old(fs.files), content, elevated).files
  {
    fs.files := fs.files[StagedHostsPath := content];
    if !elevated {
      return Err(ElevationFailed);
    }
    fs.files := fs.files[HostsPath := content];
    r := Ok(true);
  }

  method AddHost(fs: FileSystem, host: string, address: string, comment: Option<string>,
                 isIp: string -> bool, elevated: bool) returns (r: Result<bool>)
    modifies fs
    ensures r == AddHostOutcome(old(fs.files), host, address, comment, isIp, elevated).result
    ensures fs.files == AddHostOutcome(old(fs.files), host, address, comment, isIp, elevated).files
  {
    var found := FindHost(fs, host);
    if found.Err? {
      return Err(found.error);
    }
    if found.value.Some? {
      return Err(HostAlreadyExists);
    }
    if !isIp(address) {
      return Err(InvalidAddress);
    }
    if !HostNameOk(host) {
      return Err(InvalidHostName);
    }
    var lines := GetHostFile(fs);
    r := WriteHosts(fs, Join(lines.value + [NewLine(address, host, comment)], "\n"), elevated);
  }

  method RemoveHost(fs: FileSystem, host: string, elevated: bool) returns (r: Result<bool>)
    modifies fs
    ensures r == RemoveHostOutcome(old(fs.files), host, elevated).result
    ensures fs.files == RemoveHostOutcome(old(fs.files), host, elevated).files
  {
    var found := FindHost(fs, host);
    if found.Err? {
      return Err(found.error);
    }
    if found.value.None? {
      return Err(HostDoesNotExist);
    }
    var lines := GetHostFile(fs);
    r := WriteHosts(fs, Join(Without(lines.value, found.value.value), "\n") + "\n", elevated);
  }

  // ---------------------------------------------------------------- add, look up, remove

  /** The appended line of a word address, a word host and a single-line comment names the host. */
  lemma NewLineNames(address: string, host: string, comment: Option<string>)
    requires IsWord(address) && IsWord(host)
    requires comment.Some? ==> '\n' !in comment.value
    ensures Names(NewLine(address, host, comment), host) && '\n' !in NewLine(address, host, comment)
  {
    var line := NewLine(address, host, comment);
    assert IsSpace('\n');
    assert '\n' !in address && '\n' !in host;
    if comment.Some? && comment.value != "" {
      var c := "#" + comment.value;
      assert line == address + " " + host + " " + c;
      LeadingWords(address, host, c);
    } else {
      assert line == Join([address, host], " ");
      TokensOfJoin([address, host]);
    }
  }

  /** The lines of the file written by a successful add: the old lines and then the new one. */
  lemma AddedLines(lines: seq<string>, line: string)
    requires |lines| >= 1 && forall i :: 0 <= i < |lines| ==> '\n' !in lines[i]
    requires '\n' !in line
    ensures SplitOn(Join(lines + [line], "\n"), '\n') == lines + [line]
  {
    var all := lines + [line];
    assert "\n" == ['\n'];
    assert forall i :: 0 <= i < |all| ==> '\n' !in all[i] by {
      forall i | 0 <= i < |all|
        ensures '\n' !in all[i]
      {
        if i < |lines| { assert all[i] == lines[i]; }
      }
    }
    SplitOfJoin(all, '\n');
  }

  /** After a successful add, `getHost` finds the appended line. */
  lemma AddThenGetHost(files: map<string, string>, host: string, address: string, comment: Option<string>,
                       isIp: string -> bool)
    requires IsWord(address) && IsWord(host)
    requires comment.Some? ==> '\n' !in comment.value
    requires AddHostOutcome(files, host, address, comment, isIp, true).result == Ok(true)
    ensures var after := AddHostOutcome(files, host, address, comment, isIp, true).files;
            HostFile(after) == Ok(HostFile(files).value + [NewLine(address, host, comment)])
            && GetHost(HostFile(after).value, host) == Some(NewLine(address, host, comment))
  {
    var lines := HostFile(files).value;
    var line := NewLine(address, host, comment);
    NewLineNames(address, host, comment);
    AddedLines(lines, line);
    GetHostNone(lines, host);
    FindIndexNone(NamesTest(host), lines);
    FindIndexAppend(NamesTest(host), lines, [line]);
    assert NamesTest(host)(line);
  }

  /** A second add of the same host is rejected and writes nothing. */
  lemma AddTwiceRejects(files: map<string, string>, host: string, address: string, comment: Option<string>,
                        address2: string, comment2: Option<string>, isIp: string -> bool, elevated: bool)
    requires IsWord(address) && IsWord(host)
    requires comment.Some? ==> '\n' !in comment.value
    requires AddHostOutcome(files, host, address, comment, isIp, true).result == Ok(true)
    ensures var after := AddHostOutcome(files, host, address, comment, isIp, true).files;
            AddHostOutcome(after, host, address2, comment2, isIp, elevated) == Outcome(Err(HostAlreadyExists), after)
  {
    AddThenGetHost(files, host, address, comment, isIp);
  }

  /** Dropping a line that does not occur keeps the lines. */
  lemma {:induction false} WithoutAbsent(lines: seq<string>, line: string)
    requires line !in lines
    ensures Without(lines, line) == lines
  {
    if lines != [] {
      WithoutAbsent(lines[1..], line);
    }
  }

  /**
   * The filter is taken line by line and keeps the order: dropping from a
   * concatenation drops from each part, and a single line is kept exactly
   * when it differs from the dropped one.
   */
  lemma {:induction false} WithoutKeepsOrder(a: seq<string>, b: seq<string>, line: string)
    ensures Without(a + b, line) == Without(a, line) + Without(b, line)
    ensures forall x :: Without([x], line) == (if x == line then [] else [x])
  {
    if a == [] {
      assert a + b == b;
    } else {
      assert (a + b)[1..] == a[1..] + b;
      WithoutKeepsOrder(a[1..], b, line);
    }
    forall x
      ensures Without([x], line) == (if x == line then [] else [x])
    {
      assert [x][1..] == [];
    }
  }

  /** Every copy of the dropped line goes, and every other line keeps its number of copies. */
  lemma {:induction false} WithoutCounts(lines: seq<string>, line: string)
    ensures multiset(Without(lines, line)) == multiset(lines)[line := 0]
  {
    if lines != [] {
      WithoutCounts(lines[1..], line);
      assert lines == [lines[0]] + lines[1..];
    }
  }

  /**
   * Removing a host right after adding it restores the file, except that the
   * file now ends with an extra "\n".
   */
  lemma RemoveUndoesAdd(files: map<string, string>, host: string, address: string, comment: Option<string>,
                        isIp: string -> bool)
    requires IsWord(address) && IsWord(host)
    requires comment.Some? ==> '\n' !in comment.value
    requires AddHostOutcome(files, host, address, comment, isIp, true).result == Ok(true)
    ensures var after := AddHostOutcome(files, host, address, comment, isIp, true).files;
            var removed := RemoveHostOutcome(after, host, true);
            removed.result == Ok(true) && removed.files[HostsPath] == files[HostsPath] + "\n"
  {
    var lines := HostFile(files).value;
    var line := NewLine(address, host, comment);
    AddThenGetHost(files, host, address, comment, isIp);
    GetHostNone(lines, host);
    NewLineNames(address, host, comment);
    forall k | 0 <= k < |lines|
      ensures lines[k] != line
    {
      assert !Names(lines[k], host);
    }
    WithoutAbsent(lines, line);
    WithoutKeepsOrder(lines, [line], line);
    assert Without([line], line) == [];
    assert Without(lines + [line], line) == lines;
  }
}
