/**
 * The nginx site configurations on disk (src/services/nginx.ts and
 * dist/services/nginx.js): `configDir` reads the configuration directory out of
 * the output of `nginx -t`, `addSite` renders a template, writes it under
 * `<dir>/servers/<name>` and deletes it again when validation fails,
 * `removeSite` deletes a configuration, `getSiteInfo` reads its footer back
 * and `getSites` lists the configurations.
 */
module Sites {
  import opened Outcomes
  import opened Strings
  import opened Sections
  import opened Templates
  import opened Disk
  import HostLine

  /** `configDir()` on the output of `nginx -t`: the first white-space token starting with `/`, less its first `/nginx.conf`. */
  function ConfigDirOf(output: string): Option<string>
  {
    match FindIndex(PathTest(), Tokens(output))
    case None => None
    case Some(i) => Some(ReplaceFirst(Tokens(output)[i], "/nginx.conf", ""))
  }

  function PathTest(): string -> bool {
    (t: string) => "/" <= t
  }

  /** Some white-space token of `output` starts with `/`. */
  predicate HasPathToken(output: string)
  {
    exists j :: 0 <= j < |Tokens(output)| && "/" <= Tokens(output)[j]
  }

  /** The directory is found exactly when some token starts with `/`; it comes from the first such token. */
  lemma ConfigDirFirstPath(output: string) returns (i: nat)
    ensures ConfigDirOf(output).Some? <==> HasPathToken(output)
    ensures ConfigDirOf(output).Some? ==>
              i < |Tokens(output)| && "/" <= Tokens(output)[i]
              && ConfigDirOf(output) == Some(ReplaceFirst(Tokens(output)[i], "/nginx.conf", ""))
              && forall j :: 0 <= j < i ==> !("/" <= Tokens(output)[j])
  {
    var ts := Tokens(output);
    if FindIndex(PathTest(), ts).None? {
      i := 0;
      FindIndexNone(PathTest(), ts);
      forall j | 0 <= j < |ts|
        ensures !("/" <= ts[j])
      {
        assert !PathTest()(ts[j]);
      }
      assert !HasPathToken(output);
    } else {
      i := FindIndex(PathTest(), ts).value;
      FindIndexHit(PathTest(), ts);
      assert "/" <= ts[i];
      forall j | 0 <= j < i
        ensures !("/" <= ts[j])
      {
        FindIndexFirst(PathTest(), ts, j);
      }
    }
  }

  /** For a path `<dir>/nginx.conf` whose directory holds no `.`, the directory is what `configDir` yields. */
  lemma StripNginxConf(d: string)
    requires '.' !in d
    ensures ReplaceFirst(d + "/nginx.conf", "/nginx.conf", "") == d
  {
    var pat := "/nginx.conf";
    var s := d + pat;
    assert s[|d|..] == pat;
    assert OccursAt(s, pat, |d|);
    forall j: nat | j < |d|
      ensures !OccursAt(s, pat, j)
    {
      if j + 6 < |d| {
        assert s[j + 6] == d[j + 6] != '.';
      } else {
        assert s[j + 6] == pat[j + 6 - |d|];
        assert pat[j + 6 - |d|] != '.' by {
          assert j + 6 - |d| < 6;
        }
      }
      assert pat[6] == '.';
      assert !(pat <= s[j..]) by {
        if |s[j..]| > 6 {
          assert s[j..][6] == s[j + 6];
        }
      }
    }
    IndexOfAt(s, pat, |d|);
    assert s[..|d|] == d && s[|d| + |pat|..] == [];
  }

  /** `${dir}/servers/${name}`. */
  function ServerPath(dir: string, name: string): string
  {
    dir + "/servers/" + name
  }

  /**
   * Where `addSite` writes. dist/services/nginx.js builds the path from the
   * promise `configDir()` returns instead of its value, so the path starts
   * with the text "[object Promise]".
   */
  function SitePath(rev: HostLine.Revision, output: string, name: string): Option<string>
  {
    match rev
    case Dist => Some(ServerPath("[object Promise]", name))
    case Src =>
      match ConfigDirOf(output)
      case None => None
      case Some(dir) => Some(ServerPath(dir, name))
  }

  /** A type starting with `.` or `/` is a template file; any other names a built-in template, in lower case. */
  function TemplateOf(files: map<string, string>, catalog: map<string, string>, siteType: string): Option<string>
  {
    if "." <= siteType || "/" <= siteType then
      if siteType in files then Some(files[siteType]) else None
    else if Lower(siteType) in catalog then Some(catalog[Lower(siteType)]) else None
  }

  /**
   * How a template is chosen: a built-in type is found whatever its case,
   * since it gives the same template as its lower-case form; a template file
   * does not depend on the catalog of built-in types, and a built-in type does
   * not depend on the files.
   */
  lemma TemplateSelection(files: map<string, string>, files': map<string, string>,
                          catalog: map<string, string>, catalog': map<string, string>, siteType: string)
    ensures !("." <= siteType || "/" <= siteType) ==>
              TemplateOf(files, catalog, siteType) == TemplateOf(files, catalog, Lower(siteType))
    ensures ("." <= siteType || "/" <= siteType) ==>
              TemplateOf(files, catalog, siteType) == TemplateOf(files, catalog', siteType)
    ensures !("." <= siteType || "/" <= siteType) ==>
              TemplateOf(files, catalog, siteType) == TemplateOf(files', catalog, siteType)
  {
    LowerIdempotent(siteType);
  }

  /** The properties the template is rendered with. */
  function RenderProps(rev: HostLine.Revision, props: Props): Props
  {
    match rev
    case Src => AllProps(props)
    case Dist => DistAllProps(props)
  }

  /** What `nginx -t` did when run as the validator: exited with a status of zero and printed `output`, or failed. */
  datatype TestRun = Passed(output: string) | Failed

  /**
   * `addSite(type, name, properties)`. `output` is what `nginx -t` prints for
   * `configDir`, `catalog` the built-in templates and `test` the validator's run.
   */
  function AddSiteOutcome(rev: HostLine.Revision, files: map<string, string>, output: string, catalog: map<string, string>,
                          siteType: string, name: string, props: Props, test: TestRun): (o: Outcome)
    ensures SitePath(rev, output, name).None? ==> o == Outcome(Err(ConfigDirUnavailable), files)
    ensures TemplateOf(files, catalog, siteType).None? ==> o.files == files && o.result.Err?
    ensures o.result.Err? && o.result.error.UnresolvedProperty? ==> o.files == files
    ensures o.result == Ok(true) ==>
              test.Passed? && test.output != ""
              && o.files == files[SitePath(rev, output, name).value := AddedConfig(rev, files, catalog, siteType, name, props)]
    ensures o.result == Err(ValidatorFailed) ==>
              o.files == files[SitePath(rev, output, name).value := AddedConfig(rev, files, catalog, siteType, name, props)]
    ensures o.result == Err(ValidationFailed) ==> test == Passed("") && o.files == files - {SitePath(rev, output, name).value}
    ensures SitePath(rev, output, name).Some? && TemplateOf(files, catalog, siteType).None? ==>
              o == Outcome(Err(TemplateNotFound), files)
    ensures SitePath(rev, output, name).Some? && TemplateOf(files, catalog, siteType).Some?
            && Render(TemplateOf(files, catalog, siteType).value, RenderProps(rev, props)).Err? ==>
              o == Outcome(Err(Render(TemplateOf(files, catalog, siteType).value, RenderProps(rev, props)).error), files)
    ensures SitePath(rev, output, name).Some? && TemplateOf(files, catalog, siteType).Some?
            && Render(TemplateOf(files, catalog, siteType).value, RenderProps(rev, props)).Ok? ==>
              (o.result == Ok(true) <==> test.Passed? && test.output != "")
              && (test == Failed ==> o.result == Err(ValidatorFailed))
              && (test == Passed("") ==> o.result == Err(ValidationFailed))
  {
    match SitePath(rev, output, name)
    case None => Outcome(Err(ConfigDirUnavailable), files)
    case Some(path) =>
      match TemplateOf(files, catalog, siteType)
      case None => Outcome(Err(TemplateNotFound), files)
      case Some(template) =>
        match Render(template, RenderProps(rev, props))
        case Err(f) => Outcome(Err(f), files)
        case Ok(rendered) =>
          var written := files[path := SiteConfig(rendered, props, siteType, name)];
          match test
          case Failed => Outcome(Err(ValidatorFailed), written)
          case Passed(out) =>
            if out == "" then Outcome(Err(ValidationFailed), written - {path})
            else Outcome(Ok(true), written)
  }

  /** The text a successful render writes (empty when the render fails). */
  function AddedConfig(rev: HostLine.Revision, files: map<string, string>, catalog: map<string, string>,
                       siteType: string, name: string, props: Props): string
  {
    match TemplateOf(files, catalog, siteType)
    case None => ""
    case Some(template) =>
      match Render(template, RenderProps(rev, props))
      case Err(_) => ""
      case Ok(rendered) => SiteConfig(rendered, props, siteType, name)
  }

  /** A failed validation leaves the directory as it was when no configuration of that name existed. */
  lemma FailedValidationRestores(rev: HostLine.Revision, files: map<string, string>, output: string,
                                 catalog: map<string, string>, siteType: string, name: string, props: Props)
    requires SitePath(rev, output, name).Some? && SitePath(rev, output, name).value !in files
    ensures var o := AddSiteOutcome(rev, files, output, catalog, siteType, name, props, Passed(""));
            o.result.Err? && o.files == files
  {
  }

  /** A failed validation over an existing configuration of that name deletes the old configuration too. */
  lemma FailedValidationDropsExisting(rev: HostLine.Revision, files: map<string, string>, output: string,
                                      catalog: map<string, string>, siteType: string, name: string, props: Props)
    requires SitePath(rev, output, name).Some? && SitePath(rev, output, name).value in files
    requires TemplateOf(files, catalog, siteType).Some?
    requires Render(TemplateOf(files, catalog, siteType).value, RenderProps(rev, props)).Ok?
    ensures var o := AddSiteOutcome(rev, files, output, catalog, siteType, name, props, Passed(""));
            o.result == Err(ValidationFailed) && SitePath(rev, output, name).value !in o.files
            && o.files.Keys == files.Keys - {SitePath(rev, output, name).value}
  {
  }

  /** After a successful add, `getSiteInfo` reads back the caller's properties, `type` and `name`. */
  lemma AddedSiteReadsBack(files: map<string, string>, output: string, catalog: map<string, string>,
                           siteType: string, name: string, props: Props, out: string)
    requires AddSiteOutcome(HostLine.Src, files, output, catalog, siteType, name, props, Passed(out)).result == Ok(true)
    requires var rendered := Substitute(TemplateOf(files, catalog, siteType).value, AllProps(props));
             forall i :: 0 <= i < |SplitOn(rendered, '\n')| ==> !("##%" <= SplitOn(rendered, '\n')[i])
    requires FooterSafe(props) && FooterValue(siteType) && FooterValue(name)
    ensures var after := AddSiteOutcome(HostLine.Src, files, output, catalog, siteType, name, props, Passed(out)).files;
            SiteInfoOf(after, output, name) == Ok(ExtendedProps(props, siteType, name))
  {
    assert TemplateOf(files, catalog, siteType).Some?;
    var template := TemplateOf(files, catalog, siteType).value;
    assert Render(template, AllProps(props)).Ok?;
    var rendered := Render(template, AllProps(props)).value;
    assert rendered == Substitute(template, AllProps(props));
    SiteInfoRoundTrip(rendered, props, siteType, name);
  }

  /**
   * The dist build writes under `[object Promise]/servers`, so whatever it
   * adds is out of sight of `getSiteInfo` whenever nginx names any other
   * configuration directory.
   */
  lemma DistAddedSiteUnseen(files: map<string, string>, output: string, catalog: map<string, string>,
                            siteType: string, name: string, props: Props, test: TestRun)
    requires ConfigDirOf(output).Some? && ConfigDirOf(output).value != "[object Promise]"
    ensures var after := AddSiteOutcome(HostLine.Dist, files, output, catalog, siteType, name, props, test).files;
            SiteInfoOf(after, output, name) == SiteInfoOf(files, output, name)
  {
    var dir := ConfigDirOf(output).value;
    assert ServerPath(dir, name) != ServerPath("[object Promise]", name) by {
      if |dir| == |"[object Promise]"| {
        assert ServerPath(dir, name)[..|dir|] == dir;
      }
    }
  }

  /** `removeSite(name)`: reject a missing configuration, otherwise delete that file and nothing else. */
  function RemoveSiteOutcome(files: map<string, string>, output: string, name: string): (o: Outcome)
    ensures ConfigDirOf(output).None? ==> o == Outcome(Err(ConfigDirUnavailable), files)
    ensures ConfigDirOf(output).Some? && ServerPath(ConfigDirOf(output).value, name) !in files
            ==> o == Outcome(Err(SiteDoesNotExist), files)
    ensures o.result == Ok(true)
            <==> ConfigDirOf(output).Some? && ServerPath(ConfigDirOf(output).value, name) in files
    ensures o.result == Ok(true) ==> o.files == files - {ServerPath(ConfigDirOf(output).value, name)}
  {
    match ConfigDirOf(output)
    case None => Outcome(Err(ConfigDirUnavailable), files)
    case Some(dir) =>
      var path := ServerPath(dir, name);
      if path !in files then Outcome(Err(SiteDoesNotExist), files)
      else Outcome(Ok(true), files - {path})
  }

  /** `getSiteInfo(name)` on the files. */
  function SiteInfoOf(files: map<string, string>, output: string, name: string): (r: Result<Props>)
    ensures ConfigDirOf(output).None? ==> r == Err(ConfigDirUnavailable)
    ensures ConfigDirOf(output).Some? && ServerPath(ConfigDirOf(output).value, name) !in files ==> r == Err(SiteDoesNotExist)
  {
    match ConfigDirOf(output)
    case None => Err(ConfigDirUnavailable)
    case Some(dir) =>
      var path := ServerPath(dir, name);
      if path !in files then Err(SiteDoesNotExist) else SiteInfo(files[path])
  }

  /** `getSites()`: the names of the files directly under `<dir>/servers`; an empty directory name rejects. */
  function SitesOf(files: map<string, string>, output: string): (r: Result<set<string>>)
    ensures r.Ok? ==> ConfigDirOf(output).Some?
    ensures r.Ok? ==> forall n :: n in r.value ==> ServerPath(ConfigDirOf(output).value, n) in files && '/' !in n
    ensures r.Ok? ==> forall n :: ServerPath(ConfigDirOf(output).value, n) in files && '/' !in n ==> n in r.value
    ensures r.Err? <==> ConfigDirOf(output).None? || ConfigDirOf(output).value == ""
  {
    match ConfigDirOf(output)
    case None => Err(ConfigDirUnavailable)
    case Some(dir) =>
      if dir == "" then Err(ConfigDirUnavailable)
      else
        var prefix := dir + "/servers/";
        var names := set p | p in files && prefix <= p && '/' !in p[|prefix|..] :: p[|prefix|..];
        assert forall n :: ServerPath(dir, n) == prefix + n && (prefix + n)[|prefix|..] == n;
        assert forall p | p in files && prefix <= p :: p == prefix + p[|prefix|..];
        Ok(names)
  }

  // ---------------------------------------------------------------- against the file system

  method AddSite(fs: FileSystem, rev: HostLine.Revision, output: string, catalog: map<string, string>,
                 siteType: string, name: string, props: Props, test: TestRun) returns (r: Result<bool>)
    modifies fs
    ensures r == AddSiteOutcome(rev, old(fs.files), output, catalog, siteType, name, props, test).result
    ensures fs.files == AddSiteOutcome(rev, old(fs.files), output, catalog, siteType, name, props, test).files
  {
    var path := SitePath(rev, output, name);
    if path.None? {
      return Err(ConfigDirUnavailable);
    }
    var template := TemplateOf(fs.files, catalog, siteType);
    if template.None? {
      return Err(TemplateNotFound);
    }
    var rendered := Render(template.value, RenderProps(rev, props));
    if rendered.Err? {
      return Err(rendered.error);
    }
    fs.files := fs.files[path.value := SiteConfig(rendered.value, props, siteType, name)];
    if test.Failed? {
      return Err(ValidatorFailed);
    }
    if test.output == "" {
      fs.files := fs.files - {path.value};
      return Err(ValidationFailed);
    }
    r := Ok(true);
  }

  method RemoveSite(fs: FileSystem, output: string, name: string) returns (r: Result<bool>)
    modifies fs
    ensures r == RemoveSiteOutcome(old(fs.files), output, name).result
    ensures fs.files == RemoveSiteOutcome(old(fs.files), output, name).files
  {
    var dir := ConfigDirOf(output);
    if dir.None? {
      return Err(ConfigDirUnavailable);
    }
    var path := ServerPath(dir.value, name);
    if path !in fs.files {
      return Err(SiteDoesNotExist);
    }
    fs.files := fs.files - {path};
    r := Ok(true);
  }

  method GetSiteInfo(fs: FileSystem, output: string, name: string) returns (r: Result<Props>)
    ensures r == SiteInfoOf(fs.files, output, name)
  {
    var dir := ConfigDirOf(output);
    if dir.None? {
      return Err(ConfigDirUnavailable);
    }
    var path := ServerPath(dir.value, name);
    if path !in fs.files {
      return Err(SiteDoesNotExist);
    }
    r := SiteInfo(fs.files[path]);
  }

  /** Removing a site just added deletes exactly the added file. */
  lemma RemoveUndoesAddSite(files: map<string, string>, output: string, catalog: map<string, string>,
                            siteType: string, name: string, props: Props, out: string)
    requires AddSiteOutcome(HostLine.Src, files, output, catalog, siteType, name, props, Passed(out)).result == Ok(true)
    ensures var after := AddSiteOutcome(HostLine.Src, files, output, catalog, siteType, name, props, Passed(out)).files;
            var removed := RemoveSiteOutcome(after, output, name);
            removed.result == Ok(true) && removed.files == files - {ServerPath(ConfigDirOf(output).value, name)}
  {
    var path := ServerPath(ConfigDirOf(output).value, name);
    var after := AddSiteOutcome(HostLine.Src, files, output, catalog, siteType, name, props, Passed(out)).files;
    assert after - {path} == files - {path};
  }
}
