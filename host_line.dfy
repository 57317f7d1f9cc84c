/**
 * One line of the hosts file: either an opaque text line (a comment, a blank
 * line, a section sentinel) or a `HostEntry` of address, host and comment.
 * Two revisions of the entry exist: the TypeScript one (`Src`, src/hosts.ts)
 * keeps the comment's leading `#` and prints ` #comment`; the older compiled
 * one (`Dist`, dist/hosts.js) strips the `#` and prints `host#comment`.
 */
module HostLine {
  import opened Outcomes
  import opened Strings

  datatype Revision = Src | Dist

  datatype HostEntry = HostEntry(address: string, host: string, comment: string)

  /** `HostLine = HostEntry | string`: the string case is `Raw`. */
  datatype HostLine = Raw(text: string) | Entry(entry: HostEntry)

  /** The template literal `${comment}`: an absent comment prints as "undefined". */
  function Show(comment: Option<string>): string
  {
    match comment
    case None => "undefined"
    case Some(c) => c
  }

  /**
   * `new HostEntry(address, host, comment)`. Src keeps a comment that starts
   * with `#` and otherwise puts `#` in front, so an absent comment becomes
   * "#undefined"; Dist drops one leading `#`, so an absent comment becomes "undefined".
   */
  function NewEntry(rev: Revision, address: string, host: string, comment: Option<string>): (e: HostEntry)
    ensures e.address == address && e.host == host
    ensures rev == Src ==> "#" <= e.comment && e.comment[1..] == (if "#" <= Show(comment) then Show(comment)[1..] else Show(comment))
    ensures rev == Dist ==> (if "#" <= Show(comment) then "#" + e.comment else e.comment) == Show(comment)
  {
    var text := Show(comment);
    match rev
    case Src => HostEntry(address, host, if "#" <= text then text else "#" + text)
    case Dist => HostEntry(address, host, if "#" <= text then text[1..] else text)
  }

  /** `entry.toString()`: Src prints ` #comment`, Dist prints `#comment` with no space; an empty comment prints nothing. */
  function EntryToString(rev: Revision, e: HostEntry): string
  {
    var tail := if e.comment == "" then "" else (match rev case Src => " " case Dist => "#") + e.comment;
    e.address + " " + e.host + tail
  }

  function LineToString(rev: Revision, l: HostLine): string
  {
    match l
    case Raw(t) => t
    case Entry(e) => EntryToString(rev, e)
  }

  /**
   * `HostEntry.parse(line)`: the first two white-space tokens are address and
   * host, the rest joined by single spaces is the comment (absent when there is
   * no third token). Fewer than two tokens is an error. (`"".split(/\s+/)` is
   * `[""]`, which has fewer than two tokens just as `Tokens("")` does.)
   */
  function Parse(rev: Revision, line: string): (r: Result<HostEntry>)
    ensures r.Ok? <==> |Tokens(line)| >= 2
    ensures r.Ok? ==> r.value.address == Tokens(line)[0] && r.value.host == Tokens(line)[1]
    ensures r.Ok? && |Tokens(line)| == 2 ==> r.value.comment == (match rev case Src => "#undefined" case Dist => "undefined")
    ensures r.Ok? && |Tokens(line)| > 2 ==>
              var rest := Join(Tokens(line)[2..], " ");
              var marked := Tokens(line)[2][0] == '#';
              r.value.comment == (match rev
                                  case Src => if marked then rest else "#" + rest
                                  case Dist => if marked then rest[1..] else rest)
    ensures r.Err? ==> r.error == InvalidHostDefinition(line)
  {
    var parsed := Tokens(line);
    if |parsed| < 2 then Err(InvalidHostDefinition(line))
    else if |parsed| == 2 then
      assert "undefined"[0] != '#';
      Ok(NewEntry(rev, parsed[0], parsed[1], None))
    else
      JoinFirstChar(parsed[2..], " ");
      Ok(NewEntry(rev, parsed[0], parsed[1], Some(Join(parsed[2..], " "))))
  }

  /** A join starts with the first character of its first part. */
  lemma JoinFirstChar(ws: seq<string>, sep: string)
    requires |ws| >= 1 && ws[0] != []
    ensures Join(ws, sep) != [] && Join(ws, sep)[0] == ws[0][0]
  {
    if |ws| > 1 {
      assert Join(ws, sep) == ws[0] + (sep + Join(ws[1..], sep));
    }
  }

  lemma JoinStartsLikeFirst(p: string, ws: seq<string>, sep: string)
    requires |ws| >= 1 && p <= ws[0]
    ensures p <= Join(ws, sep)
  {
    if |ws| > 1 {
      assert Join(ws, sep) == ws[0] + (sep + Join(ws[1..], sep));
    }
  }

  /**
   * Src: a line of three or more tokens whose third token starts with `#`
   * prints back as its tokens joined by single spaces, i.e. the line with its
   * white-space runs collapsed and its ends trimmed.
   */
  lemma SrcPrintsParsedLine(line: string)
    requires |Tokens(line)| >= 3 && "#" <= Tokens(line)[2]
    ensures Parse(Src, line).Ok?
    ensures EntryToString(Src, Parse(Src, line).value) == Join(Tokens(line), " ")
  {
    var ts := Tokens(line);
    var j := Join(ts[2..], " ");
    JoinStartsLikeFirst("#", ts[2..], " ");
    assert Parse(Src, line).value.comment == j;
    assert ts == [ts[0]] + ts[1..] && ts[1..] == [ts[1]] + ts[2..];
    JoinCons(ts[0], ts[1..], " ");
    JoinCons(ts[1], ts[2..], " ");
  }

  /** Src: a two-token line prints back with the comment "#undefined" appended. */
  lemma SrcPrintsUndefinedComment(line: string)
    requires |Tokens(line)| == 2
    ensures Parse(Src, line).Ok?
    ensures EntryToString(Src, Parse(Src, line).value) == Join(Tokens(line), " ") + " #undefined"
  {
    var ts := Tokens(line);
    UndefinedCommentIsWord();
    assert Parse(Src, line).value.comment == "#undefined";
    assert ts == [ts[0]] + ts[1..];
    JoinCons(ts[0], ts[1..], " ");
  }

  lemma JoinFirstTwo(words: seq<string>, sep: string)
    requires |words| >= 3
    ensures Join(words, sep) == words[0] + sep + words[1] + sep + Join(words[2..], sep)
  {
    assert words == [words[0]] + words[1..];
    JoinCons(words[0], words[1..], sep);
    assert words[1..] == [words[1]] + words[2..];
    JoinCons(words[1], words[2..], sep);
  }

  /** Src parses words joined by single spaces, the third starting with `#`, back into those words. */
  lemma SrcParseJoined(words: seq<string>)
    requires AllWords(words) && |words| >= 3 && "#" <= words[2]
    ensures Parse(Src, Join(words, " ")) == Ok(HostEntry(words[0], words[1], Join(words[2..], " ")))
  {
    TokensOfJoin(words);
    JoinStartsLikeFirst("#", words[2..], " ");
  }

  /** The comment Src stores for a two-token line is a single word. */
  lemma UndefinedCommentIsWord()
    ensures !("#" <= "undefined") && IsWord("#undefined")
  {
    assert "undefined"[0] != '#';
  }

  /**
   * The words a parsed Src entry prints as: address, host, then the stored
   * comment's words, the first of which starts with `#`.
   */
  lemma SrcPrintedWords(line: string) returns (words: seq<string>)
    requires Parse(Src, line).Ok?
    ensures AllWords(words) && |words| >= 3 && "#" <= words[2]
    ensures Parse(Src, line) == Ok(HostEntry(words[0], words[1], Join(words[2..], " ")))
  {
    var ts := Tokens(line);
    var e := Parse(Src, line).value;
    if |ts| == 2 {
      UndefinedCommentIsWord();
      words := [e.address, e.host, "#undefined"];
      assert words[2..] == ["#undefined"];
      assert e.comment == "#undefined" == Join(words[2..], " ");
    } else {
      var rest := ts[2..];
      if "#" <= Join(rest, " ") {
        words := [e.address, e.host] + rest;
        assert words[2..] == rest;
        assert e.comment == Join(rest, " ");
      } else {
        words := [e.address, e.host] + (["#" + rest[0]] + rest[1..]);
        JoinPrefixFirst("#", rest[0], rest[1..], " ");
        assert rest == [rest[0]] + rest[1..];
        assert words[2..] == ["#" + rest[0]] + rest[1..];
        assert e.comment == "#" + Join(rest, " ") == Join(words[2..], " ");
      }
    }
    assert e == HostEntry(words[0], words[1], Join(words[2..], " "));
  }

  /**
   * Src round trip: re-parsing the printed form of a parsed entry gives the
   * same entry (parse, print, parse is parse).
   */
  lemma SrcReparse(line: string)
    requires Parse(Src, line).Ok?
    ensures Parse(Src, EntryToString(Src, Parse(Src, line).value)) == Parse(Src, line)
  {
    var words := SrcPrintedWords(line);
    var e := Parse(Src, line).value;
    JoinStartsLikeFirst("#", words[2..], " ");
    assert EntryToString(Src, e) == words[0] + " " + words[1] + " " + Join(words[2..], " ");
    JoinFirstTwo(words, " ");
    SrcParseJoined(words);
  }

  /**
   * Dist: the printed form `address host#comment` re-parses as a two-token
   * line, so the comment is glued onto the host and the comment becomes "undefined".
   */
  lemma DistReparseGluesComment(e: HostEntry)
    requires IsWord(e.address) && IsWord(e.host) && IsWord(e.comment)
    ensures Parse(Dist, EntryToString(Dist, e)) == Ok(HostEntry(e.address, e.host + "#" + e.comment, "undefined"))
  {
    var glued := e.host + "#" + e.comment;
    assert IsWord(glued);
    assert EntryToString(Dist, e) == Join([e.address, glued], " ");
    TokensOfJoin([e.address, glued]);
  }

  /** Dist parses three words joined by single spaces into address, host and comment. */
  lemma DistParseThree(a: string, h: string, c: string)
    requires IsWord(a) && IsWord(h) && IsWord(c) && !("#" <= c)
    ensures Parse(Dist, a + " " + h + " " + c) == Ok(HostEntry(a, h, c))
  {
    var ws := [a, h, c];
    JoinFirstTwo(ws, " ");
    assert ws[2..] == [c];
    TokensOfJoin(ws);
    assert ws[2..] == [c];
  }

  /**
   * Dist loses the round trip: a line of three words whose comment does not
   * start with `#` (for instance `127.0.0.1 blog.local blog`) parses to an entry
   * that prints and re-parses as a different entry.
   */
  lemma DistRoundTripFails(a: string, h: string, c: string)
    requires IsWord(a) && IsWord(h) && IsWord(c) && !("#" <= c)
    ensures Parse(Dist, a + " " + h + " " + c) == Ok(HostEntry(a, h, c))
    ensures Parse(Dist, EntryToString(Dist, HostEntry(a, h, c))) == Ok(HostEntry(a, h + "#" + c, "undefined"))
    ensures Parse(Dist, EntryToString(Dist, Parse(Dist, a + " " + h + " " + c).value)) != Parse(Dist, a + " " + h + " " + c)
  {
    DistParseThree(a, h, c);
    DistReparseGluesComment(HostEntry(a, h, c));
    assert |h + "#" + c| > |h|;
  }
}
