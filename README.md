# libtoserve hosts and nginx sites, in Dafny

libtoserve manages local development web sites on a workstation. Every site
has two halves:

- **the hosts file** (`/etc/hosts`), where a host name is mapped to
  `127.0.0.1` inside a named section delimited by `## <name> ##` and
  `## <name> - End ##`;
- **an nginx server configuration**, `<configDir>/servers/<site>`, rendered
  from a template with `{{property}}` placeholders and followed by a footer of
  `##% key: value` lines that records the properties it was made with.

This project models the code that keeps those two halves in step. Six
modules hold the model, and three small modules support them: **Strings**
(the JavaScript string operations), **Outcomes** (the result and error
types) and **Disk** (the file system).

- **HostLine** (`host_line.dfy`): the `HostEntry` of src/hosts.ts and
  dist/hosts.js. It covers construction, `toString` and `parse`, for both
  revisions. `Src` is the TypeScript source and `Dist` is the compiled
  JavaScript; the two differ in how they print and strip the comment.
- **Sections** (`sections.dfy`): the pure logic of `getHosts`, `addHost`,
  `removeHost` and `removeHostByComment` on a list of lines:
  - classifying the lines;
  - finding the section markers;
  - placing an entry in a section, or creating the section;
  - filtering entries out.
- **Hosts** (`hosts.dfy`): the same operations against the disk. The disk
  (`Disk.FileSystem`) is a map from path to text. Each method is proved
  against an outcome function (`AddHostOutcome`, `RemoveOutcome`).
- **FlatHosts** (`flat_hosts.dfy`): the older promise-based hosts editor of
  src/services/hosts.ts. It treats the hosts file as raw lines, finds a host
  by the second token of a line, and stages every write in `/tmp/hosts`
  before a privileged copy.
- **Templates** and **Sites** (`templates.dfy`, `sites.dfy`): the nginx side.
  - `configDir` is read from the output of `nginx -t`.
  - Property merging follows JavaScript object spread: keys keep their
    insertion order and a later key overrides an earlier one.
  - Template substitution is a `reduce` of `replaceAll`.
  - An unresolved `{{name}}` is reported.
  - The written configuration has a footer, and `getSiteInfo` reads it back.
  - `addSite`, `removeSite` and `getSites` are also modelled.
- **Manager** (`manager.dfy`): dist/manager.js.
  - `Server` (site, host value, matched hosts entry) with `valid`, `enable`,
    `disable` and `destroy`;
  - `listServers`, which reads the `server_name` out of every configuration;
  - `createServer`.

  The manager calls the hosts editor of src/hosts.ts and the site
  functions of src/services/nginx.ts, which is how src/index.ts wires the
  modules. dist/index.js binds `hosts` to `./services/hosts` instead, which
  has neither `getHosts` nor `removeHostByComment`. Its `nginx` is
  dist/services/nginx.js, whose `addSite` writes under `[object Promise]`
  and nests the properties (see Findings).

Things outside the code's own control are parameters of the model:

- the output of `nginx -t`;
- whether the validator ran;
- whether the privileged copy succeeded;
- the built-in template texts;
- the directory listing;
- the IP-address regular expression.

Errors that the JavaScript throws or rejects with are `Err` values of
`Outcomes.Failure`.

## Model

| member | source | states |
|---|---|---|
| HostLine.NewEntry | src/hosts.ts:12-17 | address and host are kept. In Src the comment always starts with `#` and carries the given comment (or `undefined`) with no doubled `#`. In Dist (dist/hosts.js:10-14) the comment is the given one less a leading `#`. |
| HostLine.EntryToString | src/hosts.ts:19-22 | no contract of its own. It prints `address host`, then the comment after a space in Src and glued on in Dist (dist/hosts.js:15-17). HostLine.SrcReparse and HostLine.DistReparseGluesComment state what re-parsing the printed form gives. |
| HostLine.Parse | src/hosts.ts:24-35 | parsing succeeds exactly when the line has at least two white-space separated words. Address and host are the first two words. Otherwise it fails with `Host definition is not valid` naming the line. The comment is given in closed form from the words after the second. With none it is `#undefined` in Src and `undefined` in Dist (dist/hosts.js:18-27). Otherwise it is those words joined by single spaces. Src puts `#` in front unless the third word starts with `#`; Dist drops a leading `#`. |
| HostLine.SrcPrintsParsedLine | src/hosts.ts:19-35 | a line whose third word starts with `#` prints back as its words joined by single spaces. |
| HostLine.SrcPrintsUndefinedComment | src/hosts.ts:16-34 | a two-word line prints back with ` #undefined` appended, because the absent comment becomes the text "undefined". |
| HostLine.SrcParseJoined | src/hosts.ts:24-35 | parsing words joined by spaces gives the first two words, and the remaining words joined as the comment. |
| HostLine.SrcPrintedWords | src/hosts.ts:19-35 | every entry that `parse` yields prints as words whose third word starts with `#`. |
| HostLine.SrcReparse | src/hosts.ts:19-35 | round trip: for any line that parses, re-parsing the printed entry gives the same entry. |
| HostLine.DistReparseGluesComment | dist/hosts.js:15-27 | Dist prints `#comment` glued to the host, so re-parsing gives host `host#comment` and comment `undefined`. |
| HostLine.DistParseThree | dist/hosts.js:18-27 | Dist parses `a h c` into address `a`, host `h` and comment `c`. |
| HostLine.DistRoundTripFails | dist/hosts.js:15-27 | for every three-word line, the Dist round trip parse, print, parse changes the entry. |
| Sections.Classify | src/hosts.ts:48-56 | no contract of its own. Sections.ClassifyLine states how one line is read. |
| Sections.ClassifyLine | src/hosts.ts:48-56 | a line starting with `#` stays text. A blank line becomes "". Any other line must parse, and its parse failure is the read's failure. |
| Sections.ClassifyAll | src/hosts.ts:46-56 | when reading succeeds it gives one classified line per text line, in order. |
| Sections.ReadFailsAtFirstBadLine | src/hosts.ts:48-56 | a failed read fails with the error of the first line that does not parse, and every earlier line parses. |
| Sections.ReadSucceedsWhenEveryLineDoes | src/hosts.ts:48-56 | the read succeeds when every line classifies. |
| Sections.ReadTextLines | src/hosts.ts:48-56 | every text line that is read is empty or starts with `#`. |
| Sections.ToHostsString | src/hosts.ts:82-85 | no contract of its own. Hosts.WrittenReadsBack states that canonical lines read back after printing, and Hosts.AddedListRereads that what `addHost` prints reads back. |
| Sections.MarkerSearchesAgree | src/hosts.ts:59-71 | on lines as read, the marker search of `getHosts` (after `trim`) and that of `addHost` (lines 106-116, without `trim`) find the same index. |
| Sections.SectionOf | src/hosts.ts:58-78 | a missing start or end marker is `Section not found`. Otherwise the result is the lines from the start marker up to, but not including, the end marker, and it is empty when the end comes first. |
| Sections.SectionShape | src/hosts.ts:58-78 | a non-empty section starts with its start marker and contains no end marker. |
| Sections.ReadHosts | src/hosts.ts:38-80 | without a section name, reading is line classification; with one, it is classification followed by the section. |
| Sections.Place | src/hosts.ts:105-128 | placing fails with `Section does not match expected format` exactly when one marker exists without the other. Otherwise the entry is in the result. |
| Sections.AddLines | src/hosts.ts:93-130 | nothing is written exactly when an entry with the same address and host exists anywhere in the file. Otherwise the entry is placed, and placement errors are passed on. |
| Sections.AddIdempotent | src/hosts.ts:98-103 | adding the same address and host to the lines just written writes nothing. |
| Sections.PlaceIntoSection | src/hosts.ts:118-120 | with both markers present, the section afterwards is the old section with the entry at its end. |
| Sections.PlaceCreatesSection | src/hosts.ts:121-124 | with neither marker present, the start marker, the entry and the end marker are appended, and the section then holds just the entry. |
| Sections.AddThenReadSection | src/hosts.ts:93-130 | a new host added to an existing section is read back as that section plus the new entry. |
| Sections.AddCreatesSection | src/hosts.ts:93-130 | a new host added to a file without the section creates the section, and the section reads back holding just that entry. |
| Sections.Retain | src/hosts.ts:135-140 | filtering never lengthens the list. The length is unchanged exactly when no entry matches. |
| Sections.RetainKeeps | src/hosts.ts:135-138 | a line survives the filter exactly when it was present and does not match. Text lines never match. |
| Sections.RemoveLines | src/hosts.ts:132-143 | nothing is removed exactly when no entry matches. Otherwise the result is the filtered list, which is strictly shorter. |
| Sections.PlaceThenRetain | src/hosts.ts:105-138 | filtering out a just-placed entry restores the old lines, plus the two markers when the section was created. |
| Sections.RemoveUndoesAdd | src/hosts.ts:93-143 | `removeHost` of an address and host just added gives back the original lines, plus the markers of a section the add created. |
| Hosts.ReadHostsFile | src/hosts.ts:38-46 | a missing `/etc/hosts` fails. Otherwise the result is the read of its text. |
| Hosts.AddHostOutcome | src/hosts.ts:93-130 | only `/etc/hosts` ever changes. "Already present" and every failure before the write leave the disk unchanged. In Dist a write never reports success. |
| Hosts.RemoveOutcome | src/hosts.ts:132-156 | only `/etc/hosts` ever changes. "Nothing matched" and every failure before the write leave the disk unchanged. In Dist a write never reports success. |
| Hosts.WriteHosts | src/hosts.ts:87-91 | the new disk is the old one with `/etc/hosts` replaced by the joined, trimmed lines. |
| Hosts.GetHosts | src/hosts.ts:38-80 | the method returns the read of the current disk and changes nothing. |
| Hosts.AddHost | src/hosts.ts:93-130 | the result and the new disk are those of `AddHostOutcome` on the old disk. |
| Hosts.RemoveHost | src/hosts.ts:132-143 | the result and the new disk are those of removing the entries with that address and host. |
| Hosts.RemoveHostByComment | src/hosts.ts:145-156 | the result and the new disk are those of removing the entries with that comment. |
| Hosts.CanonicalLineReadsBack | src/hosts.ts:82-85 | a line of canonical shape prints as a single line that classifies back to itself. |
| Hosts.WrittenReadsBack | src/hosts.ts:82-91 | canonical lines written to the file read back unchanged. |
| Hosts.AddKeepsCanonical | src/hosts.ts:93-130 | adding a well-formed entry to canonical lines keeps them canonical. |
| Hosts.ReadLineRereads | src/hosts.ts:48-85 | any line that Src reads, from any hosts file, prints as a single line that Src reads again without error. |
| Hosts.NewEntryRereads | src/hosts.ts:12-22 | the entry `addHost` builds from a one-word address not starting with `#`, a one-word host and a single-line comment prints as a line that reads back as an entry with that address and host. |
| Hosts.AddedListRereads | src/hosts.ts:93-130 | when every old line re-reads, the list `addHost` writes reads back without error and holds an entry with the new address and host. |
| Hosts.ReadListRereads | src/hosts.ts:38-85 | every line of a successful read re-reads after printing. |
| Hosts.SrcAddHostIdempotent | src/hosts.ts:93-130 | on any hosts file that Src reads without error, once `addHost` has succeeded, the same call returns false and leaves the disk unchanged. This needs a one-word address not starting with `#`, a one-word host, and a comment and section name without line breaks. |
| Hosts.EmptyFileReads | src/hosts.ts:45-56 | an empty hosts file reads as a single blank line. |
| Hosts.DistPrintedEntry | dist/hosts.js:15-17 | a Dist entry prints as one line, which classifies as host `host#comment` with comment `undefined`. |
| Hosts.DistWrittenEntryReadsGlued | dist/hosts.js:31-77 | a Dist entry written after a blank line reads back with the comment glued to the host. |
| Hosts.DistFirstAdd | dist/hosts.js:79-120 | adding to an empty file writes the blank line and the entry, then fails at the missing `notifyUpdate`. |
| Hosts.DistSecondAdd | dist/hosts.js:79-120 | the same add again does not find the entry and appends a second copy. |
| Hosts.DistAddHostRepeats | dist/hosts.js:79-120 | in Dist, two identical `addHost` calls on an empty file each change the file. |
| FlatHosts.HostFile | src/services/hosts.ts:12-21 | a missing hosts file fails. Otherwise the result is its lines, which join back to the text. |
| FlatHosts.GetHost | src/services/hosts.ts:28-40 | no contract of its own. FlatHosts.GetHostFirst and FlatHosts.GetHostNone state what it finds. |
| FlatHosts.GetHostFirst | src/services/hosts.ts:28-40 | a found line is the first line whose second token is the host. |
| FlatHosts.GetHostNone | src/services/hosts.ts:28-40 | nothing is found exactly when no line has the host as its second token. |
| FlatHosts.CommentLineMatches | src/services/hosts.ts:31-35 | a commented-out mapping `#addr host` still counts as the host. |
| FlatHosts.ShortLineNeverMatches | src/services/hosts.ts:32-35 | in any file, a line with fewer than two tokens is never the line `getHost` returns. |
| FlatHosts.WriteHostFile | src/services/hosts.ts:99-109 | the text is always staged in `/tmp/hosts`. It reaches `/etc/hosts` exactly when the privileged copy succeeds, and otherwise the call fails. |
| FlatHosts.AddHostOutcome | src/services/hosts.ts:49-72 | checked in order: existing host, invalid address, invalid host name; each rejects with the disk unchanged. When all three pass, the add succeeds exactly when the privileged copy does; then both files hold the old lines plus the new line, and otherwise only the staged copy is written. |
| FlatHosts.NewLine | src/services/hosts.ts:69 | no contract of its own. FlatHosts.AddThenGetHost states that `getHost` finds the appended line. |
| FlatHosts.Without | src/services/hosts.ts:89 | a line is in the result exactly when it was in the input and is not the removed line, and the result is never longer. |
| FlatHosts.WithoutCounts | src/services/hosts.ts:89 | every copy of the removed line goes, and every other line keeps its number of copies. |
| FlatHosts.WithoutKeepsOrder | src/services/hosts.ts:89 | the filter works line by line and keeps the order. The result for a concatenation is the concatenation of the results. A single line is kept exactly when it is not the removed line. |
| FlatHosts.RemoveHostOutcome | src/services/hosts.ts:79-92 | a missing host rejects with the disk unchanged. A found host is removed exactly when the privileged copy succeeds; then both files hold the remaining lines followed by a final newline, and otherwise only the staged copy is written. |
| FlatHosts.GetHostFile | src/services/hosts.ts:12-21 | the method returns `HostFile` of the current disk. |
| FlatHosts.FindHost | src/services/hosts.ts:28-40 | the method returns the first matching line, or the read error. |
| FlatHosts.WriteHosts | src/services/hosts.ts:99-109 | the new disk and result are those of `WriteHostFile`. |
| FlatHosts.AddHost | src/services/hosts.ts:49-72 | the new disk and result are those of `AddHostOutcome`. |
| FlatHosts.RemoveHost | src/services/hosts.ts:79-92 | the new disk and result are those of `RemoveHostOutcome`. |
| FlatHosts.AddThenGetHost | src/services/hosts.ts:49-72 | for a one-word address and host and any comment without a line break: after a successful add, the file reads as the old lines plus the new line, and `getHost` finds the new line. |
| FlatHosts.AddTwiceRejects | src/services/hosts.ts:50-55 | for a one-word address and host and any comment without a line break: a second add of the same host rejects with `Host already exists` and changes nothing. |
| FlatHosts.RemoveUndoesAdd | src/services/hosts.ts:79-92 | for a one-word address and host and any comment without a line break: removing a just-added host succeeds and restores the old text, plus the trailing newline that removal adds. |
| Strings.TrimStartSpec | src/hosts.ts:26 | `trimStart` drops exactly the leading white space. |
| Strings.TrimEndSpec | src/hosts.ts:26 | `trimEnd` drops exactly the trailing white space. |
| Strings.TokensOfJoin | src/hosts.ts:26 | splitting words joined by single spaces on `/\s+/` gives back the words. |
| Strings.SplitOfJoin | src/hosts.ts:46 | splitting on `\n` undoes a join on `\n` of parts that hold no `\n`. |
| Strings.JoinOfSplit | src/hosts.ts:84 | joining the parts of a split on `\n` rebuilds the text. |
| Strings.IndexOf | src/services/nginx.ts:101 | a found index is the first occurrence. Nothing is found exactly when there is no occurrence. |
| Strings.ReplaceAllCut | src/services/nginx.ts:97 | when no match straddles the cut, `replaceAll` of the whole is `replaceAll` of the two parts. |
| Strings.ReplaceAllAbsent | src/services/nginx.ts:97 | `replaceAll` of an absent pattern leaves the text unchanged. |
| Templates.Lookup | src/services/nginx.ts:97 | a property is absent exactly when its key is not among the keys. |
| Templates.AssignLookup | src/services/nginx.ts:110-114 | after `{...p, k: v}`, `k` is `v` and every other key is unchanged. |
| Templates.SpreadLookup | src/services/nginx.ts:88 | in `{...p, ...q}` the keys of `q` win, and other keys come from `p`. |
| Templates.AllProps | src/services/nginx.ts:88 | no contract of its own. Templates.AllPropsLookup and Templates.AllPropsPortFirst state its keys and values. |
| Templates.AllPropsLookup | src/services/nginx.ts:88 | the merged properties are the caller's, with `phpfpmPort` defaulting to `9000`. |
| Templates.AllPropsPortFirst | src/services/nginx.ts:88 | `phpfpmPort` is always the first key substituted. |
| Templates.DistAllProps | dist/services/nginx.js:80 | the dist merge has exactly the keys `phpfpmPort` and `properties`. |
| Templates.UnresolvedName | src/services/nginx.ts:101-105 | no name is reported exactly when the rendered text holds no `{{`. |
| Templates.Render | src/services/nginx.ts:96-108 | success yields the substituted text with no `{{` left. Failure is always an unresolved property. |
| Templates.FirstPlaceholderNamed | src/services/nginx.ts:101-105 | the name reported is the one between the first `{{` and the following `}}`. |
| Templates.Substitute | src/services/nginx.ts:96-98 | no contract of its own. Templates.SubstituteFills and Templates.SubstituteUnchanged state what it renders. |
| Templates.SubstituteFills | src/services/nginx.ts:96-98 | a placeholder of a known key is replaced by that key's value, and the surrounding text is kept. |
| Templates.SubstituteUnchanged | src/services/nginx.ts:96-98 | a template without `{` is rendered unchanged. |
| Templates.UnknownPlaceholderRejected | src/services/nginx.ts:101-107 | a placeholder of an unknown key makes rendering fail, naming that key. |
| Templates.DistHostNameUnresolved | dist/services/nginx.js:80-96 | in dist, a template using `{{hostName}}` always fails with `hostName` unresolved. |
| Templates.ExtendedProps | src/services/nginx.ts:110-114 | no contract of its own. Templates.ExtendedKeys and Templates.ExtendedLookup state its keys and values. |
| Templates.ExtendedKeys | src/services/nginx.ts:110-114 | the footer keys are the caller's keys plus `type` and `name`. |
| Templates.ExtendedLookup | src/services/nginx.ts:110-114 | the footer holds `name`, `type`, and otherwise the caller's values. |
| Templates.SiteConfig | src/services/nginx.ts:116 | no contract of its own. Templates.SiteInfoRoundTrip states that `getSiteInfo` reads its footer back. |
| Templates.FooterLines | src/services/nginx.ts:116 | there is one `##% key: value` line per property, in key order. |
| Templates.InfoEntry | src/services/nginx.ts:172-175 | a footer line fails exactly when it has fewer than two space-separated parts. |
| Templates.InfoEntryOfFooterLine | src/services/nginx.ts:170-175 | a footer line that was written reads back as its key and value. |
| Templates.Collect | src/services/nginx.ts:170-176 | no contract of its own. Templates.CollectSkips and Templates.CollectFooter state what it gathers. |
| Templates.CollectSkips | src/services/nginx.ts:171 | lines not starting with `##%` are ignored. |
| Templates.CollectFooter | src/services/nginx.ts:170-176 | the footer lines rebuild the properties they were written from. |
| Templates.SiteInfo | src/services/nginx.ts:168-176 | no contract of its own. Templates.FooterReadsBack and Templates.SiteInfoRoundTrip state what it reads. |
| Templates.FooterReadsBack | src/services/nginx.ts:161-179 | the properties read from a configuration are those of its footer. |
| Templates.SiteInfoRoundTrip | src/services/nginx.ts:110-116 | `getSiteInfo` on a written configuration gives the caller's properties plus `type` and `name`. |
| Sites.ConfigDirOf | src/services/nginx.ts:56-58 | no contract of its own. Sites.ConfigDirFirstPath and Sites.StripNginxConf state which directory it finds. |
| Sites.ConfigDirFirstPath | src/services/nginx.ts:56-58 | the directory is found exactly when some token starts with `/`. It comes from the first such token, less `/nginx.conf`. |
| Sites.StripNginxConf | src/services/nginx.ts:58 | for `<dir>/nginx.conf` with no `.` in the directory, the directory is recovered. |
| Sites.TemplateSelection | src/services/nginx.ts:91 | a built-in type gives the same template as its lower-case form, so its case does not matter. A type starting with `.` or `/` does not depend on the built-in catalog, and a built-in type does not depend on the files. |
| Strings.LowerIdempotent | src/services/nginx.ts:91 | lower-casing twice is lower-casing once, and a name starts with `.` or `/` exactly when its lower-case form does. |
| Sites.AddSiteOutcome | src/services/nginx.ts:81-131 | an unknown directory, a missing template or an unresolved property rejects with that error and changes nothing. Once the template renders, the add succeeds exactly when the validator passes with some output; a validator that fails gives `ValidatorFailed`, and empty output gives `ValidationFailed`. Success writes the rendered configuration and footer. A failed validation deletes the configuration. |
| Sites.FailedValidationRestores | src/services/nginx.ts:120-124 | when no configuration of that name existed, a failed validation leaves the disk unchanged. |
| Sites.FailedValidationDropsExisting | src/services/nginx.ts:118-124 | a failed validation over an existing configuration of that name deletes the existing one too. |
| Sites.AddedSiteReadsBack | src/services/nginx.ts:85-118 | after a successful add, `getSiteInfo` gives the caller's properties plus `type` and `name`. |
| Sites.DistAddedSiteUnseen | dist/services/nginx.js:78 | in dist, `addSite` never changes what `getSiteInfo` reads, whenever nginx reports a real directory. |
| Sites.RemoveSiteOutcome | src/services/nginx.ts:139-154 | removal succeeds exactly when the configuration exists, and then deletes that file and no other. |
| Sites.SiteInfoOf | src/services/nginx.ts:161-179 | an unknown directory or a missing configuration fails. |
| Sites.SitesOf | src/services/nginx.ts:64-71 | the sites are exactly the names of files directly under `<dir>/servers`. A missing or empty directory name fails. |
| Sites.AddSite | src/services/nginx.ts:81-131 | the result and new disk are those of `AddSiteOutcome`. |
| Sites.RemoveSite | src/services/nginx.ts:139-154 | the result and new disk are those of `RemoveSiteOutcome`. |
| Sites.GetSiteInfo | src/services/nginx.ts:161-179 | the method returns `SiteInfoOf` of the current disk. |
| Sites.RemoveUndoesAddSite | src/services/nginx.ts:139-154 | removing a just-added site succeeds and leaves the disk as it was, less that path. |
| Manager.HostValue | dist/manager.js:46-48 | no contract of its own. Manager.HostValueOfServerName and Manager.HostValueWithoutServerName state the value it reads. |
| Manager.HostValueOfServerName | dist/manager.js:47-48 | the host value is the name on the first `server_name` line, with its `;` dropped. |
| Manager.HostValueWithoutServerName | dist/manager.js:47-48 | a configuration without a `server_name` line has no host value. |
| Manager.HostMatch | dist/manager.js:49-53 | no contract of its own. Manager.HostMatchFirst states which entry it picks. |
| Manager.HostMatchFirst | dist/manager.js:49-53 | a hosts entry is matched exactly when the host value is non-empty and some entry has that host; the match is the first such entry. |
| Manager.ListServers | dist/manager.js:38-56 | there is one server per listed site. Each has the site's host value and the first hosts entry matching it. The configurations are read from the awaited directory (`ConfigDirOf(output)`), not from the `[object Promise]/servers` of line 41; see Findings. |
| Manager.ListServersAsWritten | dist/manager.js:38-45 | no contract of its own. `listServers` as written: after `getHosts`, `sites.map` is called on a promise. Manager.ListServersAsWrittenThrows states the result. |
| Manager.ListServersAsWrittenThrows | dist/manager.js:39-45 | as written, `listServers` (Manager.ListServersAsWritten) always throws, even where the awaited version lists every site. |
| Manager.ListedSitesReadable | dist/manager.js:45-55 | when every listed name is a configuration and the section reads, listing succeeds with one server per name. |
| Manager.ListedServerValid | dist/manager.js:15-17 | a listed server is valid exactly when its site name is non-empty and some section entry has its host value as host. |
| Manager.Server.Enable | dist/manager.js:18-23 | without a host value it throws and changes nothing. Otherwise the disk is that of adding `127.0.0.1 <url> #<site>` to the `LibToServe` section. |
| Manager.Server.Disable | dist/manager.js:24-29 | without a matched entry it throws. Otherwise the disk is that of removing the entries carrying the matched entry's comment. |
| Manager.Server.Destroy | dist/manager.js:30-35 | the host mapping is removed first, and an error there stops the call. The site configuration is removed next, and its outcome is ignored. |
| Manager.EnableCreatesSection | dist/manager.js:22 | enabling on a canonical file without the section appends the section holding the new entry, and the result is canonical. |
| Manager.EnabledSectionReads | dist/manager.js:22 | the enabled file's `LibToServe` section reads as the start marker and the new entry. |
| Manager.EnableThenMatches | dist/manager.js:22 | after the first `enable`, into a canonical file without a `LibToServe` section, the section read by `listServers` matches the url to the new entry. |
| Manager.EnableIntoSectionWrites | dist/manager.js:22 | `enable` into a canonical file that has a `LibToServe` section succeeds, and the section then reads as the old section followed by the new entry. |
| Manager.EnableIntoSectionMatches | dist/manager.js:18-53 | after a later `enable`, into an existing `LibToServe` section with no entry for that url, the section read by `listServers` matches the url to the new entry. |
| Manager.MatchAppended | dist/manager.js:49-53 | an entry appended after lines with no entry for its host is the one that host value is matched with. |
| Manager.RemoveFromCanonical | dist/manager.js:28 | removing from a canonical file writes the filtered lines. |
| Manager.DisableUndoesEnable | dist/manager.js:22-28 | `disable` after `enable` leaves the old lines plus the empty section markers. |
| Manager.RetainEnabled | dist/manager.js:28 | filtering by the site's comment removes exactly the entry that `enable` added. |
| Manager.CreateServer | dist/manager.js:58-65 | the disk is the host mapping followed by the site configuration, rendered with `hostName` set to the host. Only an error of `addHost` reaches the caller. |
| Manager.ServerProps | dist/manager.js:59 | no contract of its own. Manager.ServerPropsLookup states its keys and values. |
| Manager.ServerPropsLookup | dist/manager.js:59 | `{...properties, hostName: host}` holds the host under `hostName` and otherwise the caller's values. |
| Manager.ServerTemplateHostName | dist/manager.js:59 | the template sees `hostName` as the host. |
| Manager.FooterHostName | dist/manager.js:59 | the footer of a created server records `hostName` as the host. |
| Manager.CreatedServerRecordsHost | dist/manager.js:58-63 | after `createServer` has written its configuration, `getSiteInfo` reports `hostName` as the host. |

## Left out

- `restart`, `getVersion` and `test` run external commands and are not modelled as commands. Whether the validator passed, and what `nginx -t` printed, are parameters (`Sites.TestRun`, `output`). The `restartServer` flag and the final restart of `createServer` are left out.
- The privileged copy (`sudo-prompt`) is left out: whether it succeeds is the `elevated` parameter of FlatHosts.
- FlatHosts.AddThenGetHost, FlatHosts.AddTwiceRejects and FlatHosts.RemoveUndoesAdd: stated for a one-word address and host. `getHost` compares the second white-space token of a line with the host, so a host holding white space, which the unanchored host pattern of src/services/hosts.ts:62 lets through, is never found again. A comment or address with a line break would split the appended line in two.
- `IPRegex` is not modelled: whether an address is an IP address is the `isIp` parameter.
- `HostRegex` is modelled as the unanchored test it is: some character of the host is in `[-.0-9a-z]`.
- `String.prototype.replaceAll` is modelled without `$` replacement patterns.
- Object key order is modelled as insertion order, without JavaScript's rule that integer-like keys come first.
- `toLocaleLowerCase` is modelled for ASCII letters only.
- Asynchronous timing is left out; each promise-returning operation is one step, and a rejection is an `Err`. An exception thrown inside an `async` promise executor leaves the promise unsettled. The model gives each such case as an `Err`:
  - a missing template in `addSite` (src/services/nginx.ts:90-94): `Err(TemplateNotFound)`, with nothing written;
  - FlatHosts.HostFile on a missing hosts file (src/services/hosts.ts:13): `await readFile` throws, so the `!buffer` branch never runs; `Err(HostsUnreadable)`;
  - Sites.ConfigDirOf when no token starts with `/` (src/services/nginx.ts:58): `.replace` on `undefined` throws, so every `await configDir()` in `addSite`, `removeSite`, `getSiteInfo` and `getSites` never settles; the model gives this as `Err(ConfigDirUnavailable)`;
  - Templates.InfoEntry on a footer line without a second part (src/services/nginx.ts:174): `values[1]` is `undefined`; `Err(MalformedFooter(line))`;
  - a `test()` that rejects (src/services/nginx.ts:120): the written configuration stays in place; `Err(ValidatorFailed)`.
- Sites.SitesOf: a missing `<dir>/servers` directory is not modelled as a failure. `readdir(...).then(res)` (src/services/nginx.ts:70) has no `catch`, so that promise never settles; the model gives the empty set of sites.
- Manager.Server.Destroy and Manager.CreateServer: the un-awaited `removeSite` and `addSite` promises are modelled as ignored outcomes. On Node 15 and later, an unhandled rejection ends the process by default. Examples are `removeSite`'s `Site does not exist.` and `addSite`'s unresolved property. The model does not capture that the process ends.
- The order of `readdir` is not modelled: `listServers` takes the directory listing as a parameter (`listing`). The `!sites` check of `listServers` can never fire, because `sites` is a promise, and is left out.
- The built-in template texts of src/configs are a parameter (`catalog`).
- Write errors of `writeFile` and `writeFileSync` are left out; writes always succeed.
- Reading `/etc/hosts` fails only when the file is missing.
- The manager is modelled with the hosts editor of src/hosts.ts, as src/index.ts wires it. Under dist/index.js, `hosts` is src/services/hosts.ts, which has no `getHosts` or `removeHostByComment`, so `listServers`, `disable` and `destroy` would throw on a missing function.
- The manager's site calls are modelled on src/services/nginx.ts (`Src`), as src/index.ts wires them. The `require(".")` of dist/manager.js loads dist/services/nginx.js instead. There, by the dist/services/nginx.js:78 and :80 findings, `createServer` writes its configuration under `[object Promise]/servers`, and a template using `{{hostName}}` fails to render, so Manager.CreatedServerRecordsHost and Manager.ServerTemplateHostName do not hold for the dist build.
- src/manager.ts is not part of this model.
- The `Server` of dist/manager.js is a value (`Manager.Server`), because its methods never change its fields.
- Manager.CreatedServerRecordsHost: stated for the disk as the host mapping left it (`mid`), not for the disk before `createServer`.
- Manager.Server.Enable and Manager.Server.Disable: whether `addHost` found the entry already present, or `removeHostByComment` matched nothing, is discarded, as the source discards it.

## Findings

| source | as written | input that shows it | evidently intended | confidence | as-written member | corrected member |
|---|---|---|---|---|---|---|
| dist/hosts.js:15-17 | `toString` prints `#comment` glued to the host, while `parse` splits on white space | the line `a h c` parses to address `a`, host `h`, comment `c`. It prints as `a h#c`, which parses to host `h#c` and comment `undefined` | print ` #comment`, as src/hosts.ts:21 does, so a parsed entry prints back to the same entry | not executed | HostLine.DistRoundTripFails | HostLine.SrcReparse |
| dist/hosts.js:82-88 | the duplicate check compares against entries re-read through the glued form | on an empty hosts file, `addHost("a", "h", "c")` twice appends the entry twice | the second call finds the entry and returns false, as src/hosts.ts:98-103 does | not executed | Hosts.DistAddHostRepeats | Hosts.SrcAddHostIdempotent |
| dist/hosts.js:118 | `addHost` calls `notifyUpdate` from `./manager`, which dist/manager.js does not export | any successful `addHost`: the file is written, and then the call throws | return true after writing, as src/hosts.ts:127-129 does | not executed | Hosts.DistFirstAdd | Manager.EnableThenMatches |
| dist/services/nginx.js:80 | `{ ...defaultProps, properties }` nests the caller's properties under one key | `addSite` with a template using `{{hostName}}` and properties `{hostName: "h"}` fails with `hostName` unresolved | spread the properties, as src/services/nginx.ts:88 does | not executed | Templates.DistHostNameUnresolved | Templates.AllPropsLookup |
| dist/services/nginx.js:78 | the configuration path is built from the promise that `configDir()` returns | `addSite` of any name tries to write `[object Promise]/servers/<name>`, which `getSiteInfo` never reads; that relative directory normally does not exist, so the write rejects | await the directory, as src/services/nginx.ts:85 does | not executed | Sites.DistAddedSiteUnseen | Sites.AddedSiteReadsBack |
| dist/manager.js:39-45 | `getSites()` is not awaited, so `sites.map` is called on a promise. Line 41 also builds `confDir` from the un-awaited `configDir()`, giving `[object Promise]/servers` | any call of `listServers` throws a TypeError. With `sites` awaited alone, every read of `[object Promise]/servers/<site>` would still miss the real configurations | await the site names and the configuration directory, then map over the names | not executed | Manager.ListServersAsWrittenThrows | Manager.ListedSitesReadable |
