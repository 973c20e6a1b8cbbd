/** Gorepojack (cmd/gorepojack/main.go): from the module paths required by
    go.mod files, infer each module's repository and user URLs, evaluate
    each repository once, and classify the HTTP status codes of the two URLs
    to warn about repositories that may be hijacked. */
module Gorepojack {
  import opened Results
  import opened Seqs
  import opened Strings

  // ---------------------------------------------------------------------
  // URL inference (main.go:162-187)

  /** inferRepoURL: host, user and repository, the first three segments. */
  function InferRepoURL(repopath: string): string {
    if repopath == "" then ""
    else
      var parts := Split(repopath, '/');
      if |parts| < 3 then ""
      else "https://" + parts[0] + "/" + parts[1] + "/" + parts[2]
  }

  /** inferUserURL: host and user, the first two segments. */
  function InferUserURL(repopath: string): string {
    if repopath == "" then ""
    else
      var parts := Split(repopath, '/');
      if |parts| < 2 then ""
      else "https://" + parts[0] + "/" + parts[1]
  }

  /** The first `n` slash-separated segments of `p`, with their slashes. */
  function Segments(p: string, n: nat): string
    requires 1 <= n <= |Split(p, '/')|
  {
    Join(Split(p, '/')[..n], "/")
  }

  lemma JoinThree(parts: seq<string>)
    requires |parts| >= 3
    ensures Join(parts[..3], "/") == parts[0] + "/" + parts[1] + "/" + parts[2]
  {
    assert parts[..3][1..] == parts[1..3];
    assert parts[1..3][1..] == parts[2..3];
    assert Join(parts[1..3], "/") == parts[1] + "/" + parts[2];
    assert parts[0] + "/" + (parts[1] + "/" + parts[2]) == parts[0] + "/" + parts[1] + "/" + parts[2];
  }

  lemma JoinTwo(parts: seq<string>)
    requires |parts| >= 2
    ensures Join(parts[..2], "/") == parts[0] + "/" + parts[1]
  {
    assert parts[..2][1..] == parts[1..2];
  }

  /** The first `n` segments are a prefix of the path with `n - 1` slashes,
      cut just before a slash or at the end. */
  lemma SegmentsPrefix(p: string, n: nat)
    requires 1 <= n <= |Split(p, '/')|
    ensures var q := Segments(p, n);
      HasPrefix(p, q) && Count(q, '/') == n - 1 && (|q| < |p| ==> p[|q|] == '/')
  {
    SplitPrefix(p, '/', n);
    if n == |Split(p, '/')| {
      JoinSplit(p, '/');
      assert Split(p, '/')[..n] == Split(p, '/');
    }
  }

  /** The repository URL is empty exactly for a path with fewer than three
      segments; otherwise it is "https://" followed by the path cut just
      before its third slash, so later segments are dropped. */
  lemma RepoURLIsPrefix(p: string)
    ensures InferRepoURL(p) == "" <==> Count(p, '/') < 2
    ensures Count(p, '/') >= 2 ==>
      |Split(p, '/')| >= 3 &&
      var q := Segments(p, 3);
      && InferRepoURL(p) == "https://" + q
      && HasPrefix(p, q) && Count(q, '/') == 2
      && (|q| < |p| ==> p[|q|] == '/')
  {
    SplitCount(p, '/');
    if Count(p, '/') >= 2 {
      RepoURLSegments(p);
      SegmentsPrefix(p, 3);
    }
  }

  lemma RepoURLSegments(p: string)
    requires Count(p, '/') >= 2
    ensures |Split(p, '/')| >= 3 && InferRepoURL(p) == "https://" + Segments(p, 3)
  {
    SplitCount(p, '/');
    JoinThree(Split(p, '/'));
  }

  /** The user URL is empty exactly for a path without a slash; otherwise it
      is "https://" followed by the path cut just before its second slash. */
  lemma UserURLIsPrefix(p: string)
    ensures InferUserURL(p) == "" <==> Count(p, '/') < 1
    ensures Count(p, '/') >= 1 ==>
      |Split(p, '/')| >= 2 &&
      var q := Segments(p, 2);
      && InferUserURL(p) == "https://" + q
      && HasPrefix(p, q) && Count(q, '/') == 1
      && (|q| < |p| ==> p[|q|] == '/')
  {
    SplitCount(p, '/');
    if Count(p, '/') >= 1 {
      UserURLSegments(p);
      SegmentsPrefix(p, 2);
    }
  }

  lemma UserURLSegments(p: string)
    requires Count(p, '/') >= 1
    ensures |Split(p, '/')| >= 2 && InferUserURL(p) == "https://" + Segments(p, 2)
  {
    SplitCount(p, '/');
    JoinTwo(Split(p, '/'));
  }

  /** A path of at least three segments gives the URL of the first three,
      and one of at least two the user URL of the first two: the shape of
      every case in gorepojack/cmd/main_test.go. */
  lemma URLsOfSegments(parts: seq<string>)
    requires |parts| >= 1 && forall i :: 0 <= i < |parts| ==> '/' !in parts[i]
    ensures |parts| >= 3 ==> InferRepoURL(Join(parts, "/")) == "https://" + parts[0] + "/" + parts[1] + "/" + parts[2]
    ensures |parts| == 2 ==> InferRepoURL(Join(parts, "/")) == ""
    ensures |parts| >= 2 ==> InferUserURL(Join(parts, "/")) == "https://" + parts[0] + "/" + parts[1]
  {
    SplitJoin(parts, '/');
  }

  // ---------------------------------------------------------------------
  // Modules and the once-per-repository loop (main.go:42-78)

  datatype Module = Module(goModFilePath: string, path: string, repoURL: string, userURL: string)

  /** The module record built for one dependency (main.go:54-59). */
  function ModuleOf(goModFilePath: string, dep: string): Module {
    Module(goModFilePath, dep, InferRepoURL(dep), InferUserURL(dep))
  }

  /** The modules of one go.mod file, one per required module path. */
  function ModulesOf(goModFilePath: string, deps: seq<string>): seq<Module> {
    if deps == [] then []
    else ModulesOf(goModFilePath, deps[..|deps| - 1]) + [ModuleOf(goModFilePath, deps[|deps| - 1])]
  }

  /** A go.mod file that findModFiles found, and what extractDeps gives for
      it: the required module paths, or the read or parse error. */
  datatype ModFile = ModFile(path: string, deps: Result<seq<string>, string>)

  /** The modules of all go.mod files, file by file, or the error of the
      first file whose dependencies cannot be extracted. */
  function AllModules(files: seq<ModFile>): Result<seq<Module>, string> {
    if files == [] then Ok([])
    else
      var init := AllModules(files[..|files| - 1]);
      var last := files[|files| - 1];
      if init.Err? then init
      else if last.deps.Err? then Err(last.deps.error)
      else Ok(init.value + ModulesOf(last.path, last.deps.value))
  }

  /** The dependencies of the files, counted when they could be extracted. */
  function TotalDeps(files: seq<ModFile>): int {
    SumOf(files, (f: ModFile) => if f.deps.Ok? then |f.deps.value| else 0)
  }

  /** The collection loop of main (main.go:47-61): log.Fatal on the first
      extractDeps error, otherwise one module per dependency. */
  method CollectModules(files: seq<ModFile>) returns (r: Result<seq<Module>, string>)
    ensures r == AllModules(files)
  {
    var modules: seq<Module> := [];
    for i := 0 to |files|
      invariant AllModules(files[..i]) == Ok(modules)
    {
      assert files[..i + 1][..i] == files[..i];
      var mf := files[i];
      assert files[..i + 1] == files[..i] + [mf];
      if mf.deps.Err? {
        PrefixError(files, i);
        return Err(mf.deps.error);
      }
      AllModulesSnoc(files[..i], mf);
      modules := AppendModules(modules, mf.path, mf.deps.value);
    }
    assert files[..|files|] == files;
    r := Ok(modules);
  }

  /** The inner loop (main.go:53-60): one module per dependency. */
  method AppendModules(modules: seq<Module>, goModFilePath: string, deps: seq<string>) returns (r: seq<Module>)
    ensures r == modules + ModulesOf(goModFilePath, deps)
  {
    r := modules;
    for j := 0 to |deps|
      invariant r == modules + ModulesOf(goModFilePath, deps[..j])
    {
      assert deps[..j + 1][..j] == deps[..j];
      r := r + [ModuleOf(goModFilePath, deps[j])];
    }
    assert deps[..|deps|] == deps;
  }

  lemma AllModulesSnoc(files: seq<ModFile>, mf: ModFile)
    requires AllModules(files).Ok? && mf.deps.Ok?
    ensures AllModules(files + [mf]) == Ok(AllModules(files).value + ModulesOf(mf.path, mf.deps.value))
  {
    assert (files + [mf])[..|files|] == files;
  }

  /** An error in the files read so far is the error of all of them. */
  lemma {:induction false} PrefixError(files: seq<ModFile>, i: nat)
    requires i < |files| && AllModules(files[..i + 1]).Err?
    ensures AllModules(files) == AllModules(files[..i + 1])
    decreases |files| - i
  {
    if i + 1 < |files| {
      var init := files[..|files| - 1];
      assert init[..i + 1] == files[..i + 1];
      PrefixError(init, i);
    } else {
      assert files[..i + 1] == files;
    }
  }

  /** The collection succeeds exactly when every file's dependencies can be
      extracted, and fails with the error of the first file that fails. */
  lemma {:induction false} AllModulesErrors(files: seq<ModFile>)
    ensures AllModules(files).Ok? <==> forall i :: 0 <= i < |files| ==> files[i].deps.Ok?
    ensures AllModules(files).Err? ==>
      exists k :: 0 <= k < |files| && files[k].deps.Err? && AllModules(files).error == files[k].deps.error
        && forall j :: 0 <= j < k ==> files[j].deps.Ok?
  {
    if files != [] {
      var init := files[..|files| - 1];
      AllModulesErrors(init);
      assert forall j :: 0 <= j < |init| ==> init[j] == files[j];
    }
  }

  /** One module per dependency, with its go.mod file, its path and the URLs
      inferred from that path. */
  lemma {:induction false} ModulesOfShape(goModFilePath: string, deps: seq<string>)
    ensures |ModulesOf(goModFilePath, deps)| == |deps|
    ensures forall i :: 0 <= i < |deps| ==> ModulesOf(goModFilePath, deps)[i] == ModuleOf(goModFilePath, deps[i])
  {
    if deps != [] {
      var init := deps[..|deps| - 1];
      ModulesOfShape(goModFilePath, init);
      assert forall i :: 0 <= i < |init| ==> init[i] == deps[i];
    }
  }

  /** On success there are as many modules as dependencies, and each module
      carries the URLs inferred from its own path and comes from a
      dependency of the go.mod file it names. */
  lemma {:induction false} AllModulesShape(files: seq<ModFile>)
    requires AllModules(files).Ok?
    ensures |AllModules(files).value| == TotalDeps(files)
    ensures forall m :: m in AllModules(files).value ==>
      && m.repoURL == InferRepoURL(m.path) && m.userURL == InferUserURL(m.path)
      && exists i :: 0 <= i < |files| && files[i].path == m.goModFilePath && files[i].deps.Ok? && m.path in files[i].deps.value
  {
    if files != [] {
      var init := files[..|files| - 1];
      var last := files[|files| - 1];
      AllModulesShape(init);
      ModulesOfShape(last.path, last.deps.value);
      forall m | m in AllModules(files).value
        ensures exists i :: 0 <= i < |files| && files[i].path == m.goModFilePath && files[i].deps.Ok? && m.path in files[i].deps.value
      {
        if m in AllModules(init).value {
          var i :| 0 <= i < |init| && init[i].path == m.goModFilePath && init[i].deps.Ok? && m.path in init[i].deps.value;
          assert files[i] == init[i];
        } else {
          var k :| 0 <= k < |last.deps.value| && ModulesOf(last.path, last.deps.value)[k] == m;
          assert files[|files| - 1] == last;
        }
      }
    }
  }

  /** The first module of each repository URL, in module order. */
  function FirstPerRepo(modules: seq<Module>): seq<Module> {
    if modules == [] then []
    else
      var init := FirstPerRepo(modules[..|modules| - 1]);
      var m := modules[|modules| - 1];
      if m.repoURL in RepoURLs(init) then init else init + [m]
  }

  function RepoURLs(modules: seq<Module>): seq<string> {
    Map(modules, (m: Module) => m.repoURL)
  }

  /** The `seen` loop of main.go:63-70: the modules handed to evalModRepo. */
  method Evaluated(modules: seq<Module>) returns (r: seq<Module>)
    ensures r == FirstPerRepo(modules)
  {
    var seen: set<string> := {};
    r := [];
    for i := 0 to |modules|
      invariant r == FirstPerRepo(modules[..i])
      invariant forall u :: u in seen <==> u in RepoURLs(r)
    {
      assert modules[..i + 1][..i] == modules[..i];
      var mod := modules[i];
      if mod.repoURL in seen {
        continue;
      }
      seen := seen + {mod.repoURL};
      r := r + [mod];
      assert RepoURLs(r) == RepoURLs(r[..|r| - 1]) + [mod.repoURL];
    }
    assert modules[..|modules|] == modules;
  }

  /** Each evaluated repository URL is the first occurrence of that URL, and
      every module's repository is evaluated once, in module order. */
  lemma {:induction false} FirstPerRepoURLs(modules: seq<Module>)
    ensures RepoURLs(FirstPerRepo(modules)) == FirstOccurrences(RepoURLs(modules))
  {
    if modules != [] {
      var init := modules[..|modules| - 1];
      var m := modules[|modules| - 1];
      FirstPerRepoURLs(init);
      assert RepoURLs(init) + [m.repoURL] == RepoURLs(modules);
      assert RepoURLs(modules)[..|modules| - 1] == RepoURLs(init);
      var u := FirstPerRepo(init);
      assert RepoURLs(u + [m]) == RepoURLs(u) + [m.repoURL];
    }
  }

  /** Every evaluated module is one of the inputs. */
  lemma {:induction false} FirstPerRepoMembers(modules: seq<Module>)
    ensures forall m :: m in FirstPerRepo(modules) ==> m in modules
  {
    if modules != [] {
      FirstPerRepoMembers(modules[..|modules| - 1]);
    }
  }

  /** Every repository URL among the modules is evaluated, and none twice. */
  lemma EachRepoOnce(modules: seq<Module>)
    ensures NoDuplicates(RepoURLs(FirstPerRepo(modules)))
    ensures forall m :: m in modules ==> m.repoURL in RepoURLs(FirstPerRepo(modules))
  {
    FirstPerRepoURLs(modules);
    FirstOccurrencesMembers(RepoURLs(modules));
    forall m | m in modules ensures m.repoURL in RepoURLs(modules) {
      var i :| 0 <= i < |modules| && modules[i] == m;
      assert RepoURLs(modules)[i] == m.repoURL;
    }
  }

  /** main up to the evaluations (main.go:42-78): findModFiles' error or
      the first extractDeps error ends the program; otherwise the modules
      handed to evalModRepo are the first of each repository URL among all
      the modules collected. */
  method Run(found: Result<seq<ModFile>, string>) returns (r: Result<seq<Module>, string>)
    ensures found.Err? ==> r == Err(found.error)
    ensures found.Ok? && AllModules(found.value).Err? ==> r == AllModules(found.value)
    ensures found.Ok? && AllModules(found.value).Ok? ==> r == Ok(FirstPerRepo(AllModules(found.value).value))
  {
    if found.Err? {
      return Err(found.error);
    }
    var modules := CollectModules(found.value);
    if modules.Err? {
      return modules;
    }
    var evaluated := Evaluated(modules.value);
    r := Ok(evaluated);
  }

  // ---------------------------------------------------------------------
  // The decision table of evalModRepo (main.go:123-160)

  /** What evalModRepo writes: nothing, a log line about a failed GET, or a
      report line. A report line carries its level ("OK" or "WARN") and the
      status codes it shows: the repository's, then the user's when the
      user URL was asked for. */
  datatype Outcome = Nothing | GetFailed(url: string) | Line(level: string, repoStatus: int, userStatus: Option<int>)

  const StatusOK := 200
  const StatusMovedPermanently := 301
  const StatusFound := 302
  const StatusNotFound := 404

  predicate IsRedirect(code: int) { code == StatusMovedPermanently || code == StatusFound }

  /** evalModRepo with the two GETs as inputs: the status each would return,
      or None when the request fails. `userGet` is looked at only after a
      404 for the repository. */
  function EvalModRepo(mod: Module, verbose: bool, repoGet: Option<int>, userGet: Option<int>): Outcome {
    if mod.repoURL == "" || mod.userURL == "" then Nothing
    else if repoGet.None? then GetFailed(mod.repoURL)
    else
      var code := repoGet.value;
      if code == StatusOK then (if verbose then Line("OK", code, None) else Nothing)
      else if IsRedirect(code) then Line("WARN", code, None)
      else if code == StatusNotFound then
        if userGet.None? then GetFailed(mod.userURL)
        else
          var userCode := userGet.value;
          if userCode == StatusOK then (if verbose then Line("OK", code, Some(userCode)) else Nothing)
          else Line("WARN", code, Some(userCode))
      else Line("WARN", code, None)
  }

  predicate Warns(o: Outcome) { o.Line? && o.level == "WARN" }

  /** A warning is printed exactly when both URLs are known and either the
      repository answers with anything but 200 and 404, or it answers 404 and
      the user URL answers with anything but 200. The user URL is asked for
      only after a 404. */
  lemma WarnTable(mod: Module, verbose: bool, repoGet: Option<int>, userGet: Option<int>)
    ensures Warns(EvalModRepo(mod, verbose, repoGet, userGet)) <==>
      && mod.repoURL != "" && mod.userURL != "" && repoGet.Some?
      && (|| (repoGet.value != StatusOK && repoGet.value != StatusNotFound)
          || (repoGet.value == StatusNotFound && userGet.Some? && userGet.value != StatusOK))
    ensures repoGet.Some? && repoGet.value != StatusNotFound ==>
      forall u :: EvalModRepo(mod, verbose, repoGet, userGet) == EvalModRepo(mod, verbose, repoGet, u)
  {
  }

  /** "OK" lines appear only when verbose; an empty URL silences everything. */
  lemma QuietTable(mod: Module, verbose: bool, repoGet: Option<int>, userGet: Option<int>)
    ensures var o := EvalModRepo(mod, verbose, repoGet, userGet);
      && (o.Line? ==> o.level == "OK" || o.level == "WARN")
      && (o.Line? && o.level == "OK" ==> verbose)
      && (mod.repoURL == "" || mod.userURL == "" ==> o == Nothing)
      && (o.Line? ==> (o.userStatus.Some? <==> o.repoStatus == StatusNotFound))
  {
  }
}
