/** Workedon reports how much was changed, and by whom, in a set of git
    repositories during the last few days (cmd/workedon/main.go).

    Git is replaced by an abstract commit log: each commit carries its
    author's name, its committer time and its diff statistics. The sequential
    effect of the goroutine pipeline is modelled: open the paths, analyse each
    repository, then report. */
module Workedon {
  import opened Results
  import opened Seqs
  import opened Strings
  import opened Sorting
  import opened FilePath

  /** One entry of `commit.Stats()`. */
  datatype FileStat = FileStat(name: string, addition: nat, deletion: nat)

  /** A commit in log order: author name, committer time in seconds, and its
      diff statistics, or None when `commit.Stats()` fails. */
  datatype Commit = Commit(author: string, when: int, stats: Option<seq<FileStat>>)

  /** What the tool asks of a git repository: whether `pullRepo` fails and the
      commit log, or None when `repo.Log` fails. */
  datatype Repo = Repo(pullFails: bool, log: Option<seq<Commit>>)

  datatype File = File(path: string, changes: int, authors: seq<string>)

  /** A directory as the report sees it. The repository handle the Go
      struct also carries is passed to the worker beside it. */
  datatype Directory = Directory(path: string, changes: int, authors: seq<string>, files: seq<File>)

  /** The error returned by `parseRepoLogs`: only a pull error is recoverable. */
  datatype ParseError = PullError | LogError | StatsError

  /** The command-line flags: -author, -days, -files, -ignore, -pull. */
  datatype Config = Config(author: string, days: int, byFile: bool, ignore: string, pull: bool)

  // ---------------------------------------------------------------------
  // uniq (main.go:266-276)

  /** Order-preserving dedup with a set of seen strings. */
  method Uniq(ss: seq<string>) returns (r: seq<string>)
    ensures r == FirstOccurrences(ss)
  {
    var keys: set<string> := {};
    r := [];
    for i := 0 to |ss|
      invariant r == FirstOccurrences(ss[..i])
      invariant forall x :: x in keys <==> x in r
    {
      assert ss[..i + 1][..i] == ss[..i];
      if ss[i] !in keys {
        keys := keys + {ss[i]};
        r := r + [ss[i]];
      }
    }
    assert ss[..|ss|] == ss;
  }

  // ---------------------------------------------------------------------
  // The attribution fold of parseRepoLogs (main.go:185-238), specified

  /** parseStat (main.go:278-292): the file name and additions plus deletions. */
  function ParseStat(stat: FileStat): (string, int) {
    (stat.name, stat.addition + stat.deletion)
  }

  /** The -author filter: empty, or the commit author's exact name. */
  predicate Qualifies(c: Commit, author: string) {
    author == "" || c.author == author
  }

  /** The statistics the fold reads from `c`: none unless it qualifies. */
  function Seen(c: Commit, author: string): seq<FileStat> {
    if Qualifies(c, author) && c.stats.Some? then c.stats.value else []
  }

  /** Changes recorded for file `name` by a list of stats. */
  function StatChanges(stats: seq<FileStat>, name: string): int {
    if stats == [] then 0
    else
      var st := stats[|stats| - 1];
      StatChanges(stats[..|stats| - 1], name) + (if st.name == name then st.addition + st.deletion else 0)
  }

  /** One `who` for every stat of the list naming `name`. */
  function StatAuthors(stats: seq<FileStat>, who: string, name: string): seq<string> {
    if stats == [] then []
    else StatAuthors(stats[..|stats| - 1], who, name) + (if stats[|stats| - 1].name == name then [who] else [])
  }

  /** The non-empty file names of a list of stats. */
  function StatNames(stats: seq<FileStat>): set<string> {
    if stats == [] then {}
    else
      var st := stats[|stats| - 1];
      StatNames(stats[..|stats| - 1]) + (if st.name != "" then {st.name} else {})
  }

  /** Sum of additions and deletions over every qualifying stat naming `name`. */
  function Changes(log: seq<Commit>, author: string, name: string): int {
    if log == [] then 0
    else Changes(log[..|log| - 1], author, name) + StatChanges(Seen(log[|log| - 1], author), name)
  }

  /** The author name of every qualifying stat naming `name`, in log order. */
  function Authors(log: seq<Commit>, author: string, name: string): seq<string> {
    if log == [] then []
    else
      var c := log[|log| - 1];
      Authors(log[..|log| - 1], author, name) + StatAuthors(Seen(c, author), c.author, name)
  }

  /** The non-empty file names of qualifying stats: the files that come out. */
  function Touched(log: seq<Commit>, author: string): set<string> {
    if log == [] then {}
    else Touched(log[..|log| - 1], author) + StatNames(Seen(log[|log| - 1], author))
  }

  /** Some qualifying commit's statistics cannot be read. */
  predicate StatsFail(log: seq<Commit>, author: string) {
    log != [] &&
    (StatsFail(log[..|log| - 1], author) || (Qualifies(log[|log| - 1], author) && log[|log| - 1].stats.None?))
  }

  /** `time.Now().Add(-since)` with `since` = `days` times 24 hours, in seconds. */
  function Cutoff(days: int, now: int): int {
    now - days * 86400
  }

  /** What `repo.Log(Since: cutoff)` yields: the commits committed at or after the cutoff. */
  function Window(log: seq<Commit>, cutoff: int): seq<Commit> {
    Filter(log, (c: Commit) => c.when >= cutoff)
  }

  /** Every file of `files` has a path of its own, the changes summed over
      the log and the deduplicated authors of the log. */
  predicate FilesOk(files: seq<File>, log: seq<Commit>, author: string) {
    && (forall i, j :: 0 <= i < j < |files| ==> files[i].path != files[j].path)
    && (forall i :: 0 <= i < |files| ==>
          files[i].changes == Changes(log, author, files[i].path)
          && files[i].authors == FirstOccurrences(Authors(log, author, files[i].path)))
  }

  /** `files` is the attribution of `log`: one file per touched name, each
      with its summed changes and its deduplicated authors. */
  predicate Attributed(files: seq<File>, log: seq<Commit>, author: string) {
    FilesOk(files, log, author) && Paths(files) == Touched(log, author)
  }

  /** The set of paths of a list of files. */
  function Paths(files: seq<File>): (r: set<string>)
    ensures forall i :: 0 <= i < |files| ==> files[i].path in r
  {
    if files == [] then {} else Paths(files[..|files| - 1]) + {files[|files| - 1].path}
  }

  function GetInt(m: map<string, int>, k: string): int { if k in m then m[k] else 0 }

  function GetSeq(m: map<string, seq<string>>, k: string): seq<string> { if k in m then m[k] else [] }

  lemma {:induction false} StatChangesUntouched(stats: seq<FileStat>, name: string)
    requires name != "" && name !in StatNames(stats)
    ensures StatChanges(stats, name) == 0
  {
    if stats != [] {
      StatChangesUntouched(stats[..|stats| - 1], name);
    }
  }

  /** A named file that no qualifying stat touches has no changes. */
  lemma {:induction false} ChangesUntouched(log: seq<Commit>, author: string, name: string)
    requires name != "" && name !in Touched(log, author)
    ensures Changes(log, author, name) == 0
  {
    if log != [] {
      ChangesUntouched(log[..|log| - 1], author, name);
      StatChangesUntouched(Seen(log[|log| - 1], author), name);
    }
  }

  /** A failure in a prefix of the log is a failure of the whole log. */
  lemma {:induction false} StatsFailPrefix(log: seq<Commit>, author: string, k: nat)
    requires k <= |log| && StatsFail(log[..k], author)
    ensures StatsFail(log, author)
    decreases |log| - k
  {
    if k < |log| {
      assert log[..k + 1][..k] == log[..k];
      StatsFailPrefix(log, author, k + 1);
    } else {
      assert log[..k] == log;
    }
  }

  lemma {:induction false} StatNamesNonEmpty(stats: seq<FileStat>)
    ensures "" !in StatNames(stats)
  {
    if stats != [] {
      StatNamesNonEmpty(stats[..|stats| - 1]);
    }
  }

  /** A stat with an empty file name never produces a file. */
  lemma {:induction false} EmptyNameNeverTouched(log: seq<Commit>, author: string)
    ensures "" !in Touched(log, author)
  {
    if log != [] {
      EmptyNameNeverTouched(log[..|log| - 1], author);
      StatNamesNonEmpty(Seen(log[|log| - 1], author));
    }
  }

  // ---------------------------------------------------------------------
  // parseRepoLogs (main.go:185-238)

  /** The statistics loop of one commit (main.go:211-221): a named file gets
      its changes added, and every stat, named or not, records the author. */
  method AddStats(changesPerFile: map<string, int>, authorsPerFile: map<string, seq<string>>,
                  stats: seq<FileStat>, who: string)
    returns (changes: map<string, int>, authors: map<string, seq<string>>)
    requires "" !in changesPerFile
    ensures ChangesSoFar(changes, changesPerFile, stats)
    ensures AuthorsSoFar(authors, authorsPerFile, stats, who)
  {
    changes, authors := changesPerFile, authorsPerFile;
    for j := 0 to |stats|
      invariant ChangesSoFar(changes, changesPerFile, stats[..j])
      invariant AuthorsSoFar(authors, authorsPerFile, stats[..j], who)
    {
      assert stats[..j + 1] == stats[..j] + [stats[j]];
      changes, authors := AddStat(changes, authors, changesPerFile, authorsPerFile, stats[..j], stats[j], who);
    }
    assert stats[..|stats|] == stats;
  }

  /** One iteration of the statistics loop (main.go:212-218). */
  method AddStat(changes: map<string, int>, authors: map<string, seq<string>>,
                 ghost changesBase: map<string, int>, ghost authorsBase: map<string, seq<string>>,
                 ghost init: seq<FileStat>, stat: FileStat, who: string)
    returns (changes': map<string, int>, authors': map<string, seq<string>>)
    requires "" !in changesBase
    requires ChangesSoFar(changes, changesBase, init)
    requires AuthorsSoFar(authors, authorsBase, init, who)
    ensures ChangesSoFar(changes', changesBase, init + [stat])
    ensures AuthorsSoFar(authors', authorsBase, init + [stat], who)
  {
    var (file, nChanges) := ParseStat(stat);
    changes' := changes;
    if file != "" {
      ChangesStep(changes, changesBase, init, stat);
      changes' := changes[file := GetInt(changes, file) + nChanges];
    } else {
      ChangesSkip(changes, changesBase, init, stat);
    }
    AuthorsStep(authors, authorsBase, init, stat, who);
    authors' := authors[file := GetSeq(authors, file) + [who]];
  }

  /** `changes` is `base` with the changes of `stats` added. */
  ghost predicate ChangesSoFar(changes: map<string, int>, base: map<string, int>, stats: seq<FileStat>) {
    && changes.Keys == base.Keys + StatNames(stats)
    && forall f :: f in changes ==> changes[f] == GetInt(base, f) + StatChanges(stats, f)
  }

  /** `authors` is `base` with one `who` appended per stat of `stats`. */
  ghost predicate AuthorsSoFar(authors: map<string, seq<string>>, base: map<string, seq<string>>,
                         stats: seq<FileStat>, who: string) {
    forall f :: GetSeq(authors, f) == GetSeq(base, f) + StatAuthors(stats, who, f)
  }

  /** A stat with no name leaves the changes as they are. */
  lemma ChangesSkip(changes: map<string, int>, base: map<string, int>, init: seq<FileStat>, st: FileStat)
    requires st.name == "" && "" !in base
    requires ChangesSoFar(changes, base, init)
    ensures ChangesSoFar(changes, base, init + [st])
  {
    assert (init + [st])[..|init|] == init;
    StatNamesNonEmpty(init);
  }

  lemma ChangesStep(changes: map<string, int>, base: map<string, int>, init: seq<FileStat>, st: FileStat)
    requires st.name != ""
    requires ChangesSoFar(changes, base, init)
    ensures ChangesSoFar(changes[st.name := GetInt(changes, st.name) + st.addition + st.deletion], base, init + [st])
  {
    assert (init + [st])[..|init|] == init;
    if st.name !in changes {
      StatChangesUntouched(init, st.name);
    }
  }

  lemma AuthorsStep(authors: map<string, seq<string>>, base: map<string, seq<string>>,
                    init: seq<FileStat>, st: FileStat, who: string)
    requires AuthorsSoFar(authors, base, init, who)
    ensures AuthorsSoFar(authors[st.name := GetSeq(authors, st.name) + [who]], base, init + [st], who)
  {
    var stats := init + [st];
    var next := authors[st.name := GetSeq(authors, st.name) + [who]];
    forall f
      ensures GetSeq(next, f) == GetSeq(base, f) + StatAuthors(stats, who, f)
    {
      AuthorsStepAt(authors, base, init, st, who, f);
    }
  }

  /** The step of AuthorsStep for one file name. */
  lemma AuthorsStepAt(authors: map<string, seq<string>>, base: map<string, seq<string>>,
                      init: seq<FileStat>, st: FileStat, who: string, f: string)
    requires GetSeq(authors, f) == GetSeq(base, f) + StatAuthors(init, who, f)
    ensures GetSeq(authors[st.name := GetSeq(authors, st.name) + [who]], f)
         == GetSeq(base, f) + StatAuthors(init + [st], who, f)
  {
    assert (init + [st])[..|init|] == init;
  }

  /** The `ForEach` over the log (main.go:201-224): stops at the first
      qualifying commit whose statistics cannot be read. */
  method FoldLog(log: seq<Commit>, author: string)
    returns (r: Result<(map<string, int>, map<string, seq<string>>), ParseError>)
    ensures r.Err? <==> StatsFail(log, author)
    ensures r.Err? ==> r.error == StatsError
    ensures r.Ok? ==>
      var (changesPerFile, authorsPerFile) := r.value;
      && changesPerFile.Keys == Touched(log, author)
      && (forall f :: f in changesPerFile ==> changesPerFile[f] == Changes(log, author, f))
      && (forall f :: GetSeq(authorsPerFile, f) == Authors(log, author, f))
  {
    var changesPerFile: map<string, int> := map[];
    var authorsPerFile: map<string, seq<string>> := map[];
    for i := 0 to |log|
      invariant !StatsFail(log[..i], author)
      invariant Folded(log[..i], author, changesPerFile, authorsPerFile)
    {
      var commit := log[i];
      assert log[..i + 1][..i] == log[..i];
      assert log[..i + 1] == log[..i] + [commit];
      if author != "" && commit.author != author {
        FoldSkip(log[..i], commit, author, changesPerFile, authorsPerFile);
        continue;
      }
      if commit.stats.None? {
        assert StatsFail(log[..i + 1], author);
        StatsFailPrefix(log, author, i + 1);
        return Err(StatsError);
      }
      changesPerFile, authorsPerFile := FoldCommit(log[..i], commit, author, changesPerFile, authorsPerFile);
    }
    assert log[..|log|] == log;
    return Ok((changesPerFile, authorsPerFile));
  }

  /** The maps hold the attribution of `log`: the touched files, their
      summed changes and their authors. */
  ghost predicate Folded(log: seq<Commit>, author: string, changesPerFile: map<string, int>, authorsPerFile: map<string, seq<string>>) {
    && changesPerFile.Keys == Touched(log, author)
    && (forall f :: f in changesPerFile ==> changesPerFile[f] == Changes(log, author, f))
    && (forall f :: GetSeq(authorsPerFile, f) == Authors(log, author, f))
  }

  /** A commit of another author leaves the maps as they are. */
  lemma FoldSkip(init: seq<Commit>, c: Commit, author: string,
                 changesPerFile: map<string, int>, authorsPerFile: map<string, seq<string>>)
    requires Folded(init, author, changesPerFile, authorsPerFile) && !Qualifies(c, author)
    ensures Folded(init + [c], author, changesPerFile, authorsPerFile)
  {
    assert (init + [c])[..|init|] == init;
  }

  /** The body of the commit loop for a qualifying commit with stats
      (main.go:205-222). */
  method FoldCommit(init: seq<Commit>, commit: Commit, author: string,
                    changesPerFile: map<string, int>, authorsPerFile: map<string, seq<string>>)
    returns (changes: map<string, int>, authors: map<string, seq<string>>)
    requires Folded(init, author, changesPerFile, authorsPerFile)
    requires Qualifies(commit, author) && commit.stats.Some?
    ensures Folded(init + [commit], author, changes, authors)
  {
    assert (init + [commit])[..|init|] == init;
    EmptyNameNeverTouched(init, author);
    changes, authors := AddStats(changesPerFile, authorsPerFile, commit.stats.value, commit.author);
    StatNamesNonEmpty(commit.stats.value);
    forall f | f in changes
      ensures changes[f] == Changes(init + [commit], author, f)
    {
      if f !in changesPerFile {
        ChangesUntouched(init, author, f);
      }
    }
  }

  /** Turns the two maps into files (main.go:229-235), in map iteration order. */
  method FilesOf(changesPerFile: map<string, int>, authorsPerFile: map<string, seq<string>>)
    returns (files: seq<File>)
    ensures FilesFrom(files, changesPerFile, authorsPerFile, changesPerFile.Keys)
  {
    files := [];
    var remaining := changesPerFile.Keys;
    ghost var done: set<string> := {};
    while remaining != {}
      invariant done + remaining == changesPerFile.Keys && done !! remaining
      invariant FilesFrom(files, changesPerFile, authorsPerFile, done)
      decreases remaining
    {
      var f :| f in remaining;
      var authors := Uniq(GetSeq(authorsPerFile, f));
      FilesFromSnoc(files, changesPerFile, authorsPerFile, done, f);
      files := files + [File(f, changesPerFile[f], authors)];
      done, remaining := done + {f}, remaining - {f};
    }
  }

  /** `files` holds one file for each name of `done`, with its count and
      its deduplicated authors. */
  predicate FilesFrom(files: seq<File>, changesPerFile: map<string, int>, authorsPerFile: map<string, seq<string>>, done: set<string>) {
    && (forall i, j :: 0 <= i < j < |files| ==> files[i].path != files[j].path)
    && Paths(files) == done
    && (forall i :: 0 <= i < |files| ==>
          files[i].path in changesPerFile
          && files[i].changes == changesPerFile[files[i].path]
          && files[i].authors == FirstOccurrences(GetSeq(authorsPerFile, files[i].path)))
  }

  lemma FilesFromSnoc(files: seq<File>, changesPerFile: map<string, int>, authorsPerFile: map<string, seq<string>>, done: set<string>, f: string)
    requires FilesFrom(files, changesPerFile, authorsPerFile, done)
    requires f in changesPerFile && f !in done
    ensures FilesFrom(files + [File(f, changesPerFile[f], FirstOccurrences(GetSeq(authorsPerFile, f)))],
                      changesPerFile, authorsPerFile, done + {f})
  {
    var r := files + [File(f, changesPerFile[f], FirstOccurrences(GetSeq(authorsPerFile, f)))];
    assert r[..|files|] == files;
    forall i, j | 0 <= i < j < |r| ensures r[i].path != r[j].path {
      if j == |files| {
        assert r[i].path in Paths(files);
      }
    }
  }

  /** Pull if asked, read the log since `now - days`, and fold the statistics
      of the qualifying commits into per-file changes and authors. */
  method ParseRepoLogs(repo: Repo, pull: bool, author: string, days: int, now: int)
    returns (r: Result<seq<File>, ParseError>)
    ensures pull && repo.pullFails ==> r == Err(PullError)
    ensures !(pull && repo.pullFails) && repo.log.None? ==> r == Err(LogError)
    ensures !(pull && repo.pullFails) && repo.log.Some? ==>
      var log := Window(repo.log.value, Cutoff(days, now));
      && (r.Err? <==> StatsFail(log, author))
      && (r.Err? ==> r.error == StatsError)
      && (r.Ok? ==> Attributed(r.value, log, author))
  {
    if pull && repo.pullFails {
      return Err(PullError);
    }
    if repo.log.None? {
      return Err(LogError);
    }
    var log := Window(repo.log.value, Cutoff(days, now));
    var folded := FoldLog(log, author);
    if folded.Err? {
      return Err(folded.error);
    }
    var files := FilesOf(folded.value.0, folded.value.1);
    return Ok(files);
  }

  // ---------------------------------------------------------------------
  // The worker (main.go:95-115)

  /** The -ignore test of main.go:107: keep unless the base name is ignored. */
  predicate KeptName(path: string, ignore: string) {
    ignore == "" || Base(path) != ignore
  }

  /** The files the worker keeps, in order. */
  function KeptFiles(files: seq<File>, ignore: string): (r: seq<File>)
  {
    if files == [] then []
    else
      var f := files[|files| - 1];
      KeptFiles(files[..|files| - 1], ignore) + (if KeptName(f.path, ignore) then [f] else [])
  }

  /** The names of `names` that survive the -ignore filter. */
  function KeptNames(names: set<string>, ignore: string): set<string> {
    set n | n in names && KeptName(n, ignore)
  }

  function FileChanges(f: File): int { f.changes }

  function FileAuthors(f: File): seq<string> { f.authors }

  /** Filtering by base name keeps files correct and keeps exactly the
      paths that are not ignored. */
  lemma {:induction false} KeptFilesOk(files: seq<File>, log: seq<Commit>, author: string, ignore: string)
    requires FilesOk(files, log, author)
    ensures FilesOk(KeptFiles(files, ignore), log, author)
    ensures Paths(KeptFiles(files, ignore)) == KeptNames(Paths(files), ignore)
  {
    if files != [] {
      var init := files[..|files| - 1];
      var f := files[|files| - 1];
      assert FilesOk(init, log, author);
      KeptFilesOk(init, log, author, ignore);
      var ri := KeptFiles(init, ignore);
      KeptNamesAdd(Paths(init), f.path, ignore);
      if KeptName(f.path, ignore) {
        assert KeptFiles(files, ignore) == ri + [f];
        assert f.path !in Paths(init) by {
          PathsIndex(init, f.path);
        }
        FilesOkSnoc(ri, f, log, author);
      } else {
        assert KeptFiles(files, ignore) == ri;
      }
    }
  }

  lemma KeptNamesAdd(names: set<string>, n: string, ignore: string)
    ensures KeptNames(names + {n}, ignore) == KeptNames(names, ignore) + (if KeptName(n, ignore) then {n} else {})
  {
  }

  /** A file whose path is new and whose counts are right extends a
      correct list. */
  lemma FilesOkSnoc(files: seq<File>, f: File, log: seq<Commit>, author: string)
    requires FilesOk(files, log, author) && f.path !in Paths(files)
    requires f.changes == Changes(log, author, f.path)
    requires f.authors == FirstOccurrences(Authors(log, author, f.path))
    ensures FilesOk(files + [f], log, author)
    ensures Paths(files + [f]) == Paths(files) + {f.path}
  {
    var r := files + [f];
    assert r[..|files|] == files;
    forall i, j | 0 <= i < j < |r| ensures r[i].path != r[j].path {
      if j == |files| {
        assert r[i].path in Paths(files);
      }
    }
  }

  /** Every path in `Paths(files)` is the path of one of the files. */
  lemma {:induction false} PathsIndex(files: seq<File>, p: string)
    requires forall i :: 0 <= i < |files| ==> files[i].path != p
    ensures p !in Paths(files)
  {
    if files != [] {
      PathsIndex(files[..|files| - 1], p);
    }
  }

  /** The loop of main.go:106-113: each file not ignored adds its changes,
      its authors and itself to the directory. */
  method AddFiles(dir: Directory, files: seq<File>, ignore: string) returns (d: Directory)
    ensures d == dir.(changes := dir.changes + SumOf(KeptFiles(files, ignore), FileChanges),
                      authors := dir.authors + FlatMap(KeptFiles(files, ignore), FileAuthors),
                      files := dir.files + KeptFiles(files, ignore))
    ensures dir.changes == SumOf(dir.files, FileChanges) ==> d.changes == SumOf(d.files, FileChanges)
    ensures dir.authors == FlatMap(dir.files, FileAuthors) ==> d.authors == FlatMap(d.files, FileAuthors)
  {
    var changes, authors, kept := dir.changes, dir.authors, dir.files;
    ghost var k: seq<File> := [];
    for i := 0 to |files|
      invariant k == KeptFiles(files[..i], ignore)
      invariant kept == dir.files + k
      invariant changes == dir.changes + SumOf(k, FileChanges)
      invariant authors == dir.authors + FlatMap(k, FileAuthors)
    {
      var f := files[i];
      KeptFilesStep(files, i, ignore);
      if ignore != "" && Base(f.path) == ignore {
        continue;
      }
      AddFileStep(dir, k, f);
      k := k + [f];
      changes := changes + f.changes;
      authors := authors + f.authors;
      kept := kept + [f];
    }
    assert files[..|files|] == files;
    SumOfAppend(dir.files, k, FileChanges);
    FlatMapAppend(dir.files, k, FileAuthors);
    d := dir.(changes := changes, authors := authors, files := kept);
  }

  /** One kept file added to the directory's running totals. */
  lemma AddFileStep(dir: Directory, k: seq<File>, f: File)
    ensures dir.changes + SumOf(k, FileChanges) + f.changes == dir.changes + SumOf(k + [f], FileChanges)
    ensures dir.authors + FlatMap(k, FileAuthors) + f.authors == dir.authors + FlatMap(k + [f], FileAuthors)
    ensures dir.files + k + [f] == dir.files + (k + [f])
  {
    assert (k + [f])[..|k|] == k;
  }

  lemma KeptFilesStep(files: seq<File>, i: nat, ignore: string)
    requires i < |files|
    ensures KeptFiles(files[..i + 1], ignore)
         == KeptFiles(files[..i], ignore) + (if KeptName(files[i].path, ignore) then [files[i]] else [])
  {
    assert files[..i + 1][..i] == files[..i];
  }

  /** What the producer sends for an opened repository (main.go:82-85). */
  function NewDirectory(path: string): Directory {
    Directory(path, 0, [], [])
  }


  predicate PullFailed(repo: Repo, cfg: Config) {
    cfg.pull && repo.pullFails
  }

  /** The worker stops the program: an error other than a pull error. */
  predicate Fatal(repo: Repo, cfg: Config, now: int) {
    !PullFailed(repo, cfg) && (repo.log.None? || StatsFail(Window(repo.log.value, Cutoff(cfg.days, now)), cfg.author))
  }

  /** `d` is what the worker forwards for the repository at `path`. */
  predicate Analysed(d: Directory, path: string, repo: Repo, cfg: Config, now: int) {
    && d.path == path
    && d.changes == SumOf(d.files, FileChanges)
    && d.authors == FlatMap(d.files, FileAuthors)
    && if PullFailed(repo, cfg) then d.files == []
       else
         && repo.log.Some?
         && var log := Window(repo.log.value, Cutoff(cfg.days, now));
         && FilesOk(d.files, log, cfg.author)
         && Paths(d.files) == KeptNames(Touched(log, cfg.author), cfg.ignore)
  }

  /** One directory through the worker: a pull error leaves it empty (and
      so dropped by the report), any other error is fatal. */
  method Work(path: string, repo: Repo, cfg: Config, now: int) returns (r: Result<Directory, string>)
    ensures r.Err? <==> Fatal(repo, cfg, now)
    ensures r.Err? ==> r.error == path
    ensures r.Ok? ==> Analysed(r.value, path, repo, cfg, now)
  {
    var dir := NewDirectory(path);
    var parsed := ParseRepoLogs(repo, cfg.pull, cfg.author, cfg.days, now);
    var files: seq<File> := [];
    if parsed.Err? {
      if parsed.error != PullError {
        return Err(path);
      }
    } else {
      files := parsed.value;
      KeptFilesOk(files, Window(repo.log.value, Cutoff(cfg.days, now)), cfg.author, cfg.ignore);
    }
    var d := AddFiles(dir, files, cfg.ignore);
    assert d.files == KeptFiles(files, cfg.ignore) by {
      assert [] + KeptFiles(files, cfg.ignore) == KeptFiles(files, cfg.ignore);
    }
    assert d.path == path;
    assert d.changes == SumOf(d.files, FileChanges);
    assert d.authors == FlatMap(d.files, FileAuthors);
    return Ok(d);
  }

  // ---------------------------------------------------------------------
  // reportResults (main.go:127-163)

  /** A printed line: path, changes and the joined authors. The percentage
      beside the changes is display-only floating point. */
  datatype Row = Row(path: string, changes: int, authors: string)

  /** Nothing is printed, or the table with the grand total behind it. */
  datatype Report = Silent | Table(total: int, rows: seq<Row>)

  predicate HasFiles(d: Directory) { d.files != [] }

  function DirChanges(d: Directory): int { d.changes }

  /** `totalChanges`: the changes of the directories that have files. */
  function TotalChanges(dirs: seq<Directory>): int {
    if dirs == [] then 0
    else TotalChanges(dirs[..|dirs| - 1]) + (if HasFiles(dirs[|dirs| - 1]) then dirs[|dirs| - 1].changes else 0)
  }

  /** The grand total is the sum over the directories the report keeps. */
  lemma {:induction false} TotalChangesOfKept(dirs: seq<Directory>)
    ensures TotalChanges(dirs) == SumOf(Filter(dirs, HasFiles), DirChanges)
  {
    if dirs != [] {
      var init := dirs[..|dirs| - 1];
      var d := dirs[|dirs| - 1];
      TotalChangesOfKept(init);
      var k := Filter(init, HasFiles);
      if HasFiles(d) {
        assert (k + [d])[..|k|] == k;
      } else {
        assert Filter(dirs, HasFiles) == k + [];
        assert k + [] == k;
      }
    }
  }

  /** sort.Reverse(byDirChanges) (main.go:171-175): non-increasing changes. */
  predicate DirGe(a: Directory, b: Directory) { a.changes >= b.changes }

  /** sort.Reverse(byFileChanges) (main.go:165-169). */
  predicate FileGe(a: File, b: File) { a.changes >= b.changes }

  function DirRow(d: Directory): Row {
    Row(d.path, d.changes, Join(FirstOccurrences(d.authors), ", "))
  }

  function FileRow(dirPath: string, f: File): Row {
    Row(JoinPath(dirPath, f.path), f.changes, Join(FirstOccurrences(f.authors), ", "))
  }

  function FileRows(dirPath: string, files: seq<File>): seq<Row> {
    if files == [] then [] else FileRows(dirPath, files[..|files| - 1]) + [FileRow(dirPath, files[|files| - 1])]
  }

  /** The -files rows: each directory's (sorted) files in directory order. */
  function GroupRows(order: seq<Directory>, groups: seq<seq<File>>): seq<Row>
    requires |order| == |groups|
  {
    if order == [] then []
    else GroupRows(order[..|order| - 1], groups[..|groups| - 1]) + FileRows(order[|order| - 1].path, groups[|groups| - 1])
  }

  lemma DirGeTotal()
    ensures TotalPreorder(DirGe)
  {
  }

  lemma FileGeTotal()
    ensures TotalPreorder(FileGe)
  {
  }

  /** `rep` is the report of `dirs`: nothing when no directory has files;
      otherwise the total of those that do, in non-increasing order of
      changes (`order`), and under -files each one's files in non-increasing
      order (`groups`). Ties may come out in any order. */
  predicate IsReport(rep: Report, dirs: seq<Directory>, byFile: bool, order: seq<Directory>, groups: seq<seq<File>>) {
    var kept := Filter(dirs, HasFiles);
    && (rep.Silent? <==> kept == [])
    && (rep.Table? ==>
          && rep.total == TotalChanges(dirs)
          && multiset(order) == multiset(kept)
          && SortedBy(order, DirGe)
          && if !byFile then
               |rep.rows| == |order| && forall k :: 0 <= k < |order| ==> rep.rows[k] == DirRow(order[k])
             else
               && |groups| == |order|
               && (forall k :: 0 <= k < |order| ==> SortedGroup(groups[k], order[k]))
               && rep.rows == GroupRows(order, groups))
  }

  /** The collecting loop of main.go:130-136. */
  method KeepNonEmpty(out: seq<Directory>) returns (directories: seq<Directory>, totalChanges: int)
    ensures directories == Filter(out, HasFiles)
    ensures totalChanges == TotalChanges(out)
  {
    totalChanges := 0;
    directories := [];
    for i := 0 to |out|
      invariant directories == Filter(out[..i], HasFiles)
      invariant totalChanges == TotalChanges(out[..i])
    {
      assert out[..i + 1][..i] == out[..i];
      if |out[i].files| == 0 {
        continue;
      }
      totalChanges := totalChanges + out[i].changes;
      directories := directories + [out[i]];
    }
    assert out[..|out|] == out;
  }

  /** One row per directory (main.go:154-158). */
  method DirectoryRows(directories: seq<Directory>) returns (rows: seq<Row>)
    ensures |rows| == |directories|
    ensures forall k :: 0 <= k < |directories| ==> rows[k] == DirRow(directories[k])
  {
    rows := [];
    for i := 0 to |directories|
      invariant |rows| == i
      invariant forall k :: 0 <= k < i ==> rows[k] == DirRow(directories[k])
    {
      var dir := directories[i];
      var authors := Uniq(dir.authors);
      rows := rows + [Row(dir.path, dir.changes, Join(authors, ", "))];
    }
  }

  /** The rows of one directory's files (main.go:148-152). */
  method FileRowsOf(dirPath: string, files: seq<File>) returns (rows: seq<Row>)
    ensures rows == FileRows(dirPath, files)
  {
    rows := [];
    for j := 0 to |files|
      invariant rows == FileRows(dirPath, files[..j])
    {
      assert files[..j + 1][..j] == files[..j];
      var authors := Uniq(files[j].authors);
      rows := rows + [Row(JoinPath(dirPath, files[j].path), files[j].changes, Join(authors, ", "))];
    }
    assert files[..|files|] == files;
  }

  /** The printed path of a file row is filepath.Join of the argument and
      the file's path: for the name-only paths git reports, the cleaned
      argument, a slash and the path, or the bare path for ".". */
  lemma {:induction false} FileRowsPaths(dirPath: string, files: seq<File>)
    requires forall i :: 0 <= i < |files| ==> IsNamePath(files[i].path)
    ensures |FileRows(dirPath, files)| == |files|
    ensures forall i :: 0 <= i < |files| ==> FileRows(dirPath, files)[i].path == UnderDir(Clean(dirPath), files[i].path)
  {
    if files != [] {
      var init := files[..|files| - 1];
      var last := files[|files| - 1];
      FileRowsPaths(dirPath, init);
      var rows := FileRows(dirPath, files);
      assert rows == FileRows(dirPath, init) + [FileRow(dirPath, last)];
      forall i | 0 <= i < |files| ensures rows[i].path == UnderDir(Clean(dirPath), files[i].path) {
        if i < |init| {
          assert rows[i] == FileRows(dirPath, init)[i] && init[i] == files[i];
        } else {
          JoinNamePath(dirPath, last.path);
        }
      }
    }
  }

  /** Under -files, each directory's files sorted by non-increasing changes
      (main.go:146-153). */
  method GroupedFileRows(directories: seq<Directory>) returns (rows: seq<Row>, ghost groups: seq<seq<File>>)
    ensures |groups| == |directories|
    ensures forall k :: 0 <= k < |directories| ==> SortedGroup(groups[k], directories[k])
    ensures rows == GroupRows(directories, groups)
  {
    FileGeTotal();
    rows := [];
    groups := [];
    for i := 0 to |directories|
      invariant |groups| == i
      invariant forall k :: 0 <= k < i ==> SortedGroup(groups[k], directories[k])
      invariant rows == GroupRows(directories[..i], groups)
    {
      var dir := directories[i];
      var files := SortBy(dir.files, FileGe);
      var more := FileRowsOf(dir.path, files);
      GroupRowsStep(directories, i, groups, files);
      SortedGroupsStep(directories, i, groups, files);
      rows := rows + more;
      groups := groups + [files];
    }
    assert directories[..|directories|] == directories;
  }

  /** `g` is `d`'s files after sort.Sort(sort.Reverse(byFileChanges)). */
  predicate SortedGroup(g: seq<File>, d: Directory) {
    multiset(g) == multiset(d.files) && SortedBy(g, FileGe)
  }

  lemma SortedGroupsStep(directories: seq<Directory>, i: nat, groups: seq<seq<File>>, files: seq<File>)
    requires i < |directories| && |groups| == i
    requires forall k :: 0 <= k < i ==> SortedGroup(groups[k], directories[k])
    requires SortedGroup(files, directories[i])
    ensures forall k :: 0 <= k < i + 1 ==> SortedGroup((groups + [files])[k], directories[k])
  {
  }

  lemma GroupRowsStep(directories: seq<Directory>, i: nat, groups: seq<seq<File>>, files: seq<File>)
    requires i < |directories| && |groups| == i
    ensures GroupRows(directories[..i + 1], groups + [files])
         == GroupRows(directories[..i], groups) + FileRows(directories[i].path, files)
  {
    assert directories[..i + 1][..i] == directories[..i];
    assert (groups + [files])[..i] == groups;
  }

  /** reportResults: nothing when no directory has files, otherwise the
      grand total and the rows in non-increasing order of changes. */
  method ReportResults(out: seq<Directory>, byFile: bool)
    returns (rep: Report, ghost order: seq<Directory>, ghost groups: seq<seq<File>>)
    ensures IsReport(rep, out, byFile, order, groups)
  {
    var directories, totalChanges := KeepNonEmpty(out);
    if |directories| == 0 {
      return Silent, [], [];
    }
    DirGeTotal();
    directories := SortBy(directories, DirGe);
    order := directories;
    var rows: seq<Row>;
    if byFile {
      rows, groups := GroupedFileRows(directories);
    } else {
      rows := DirectoryRows(directories);
      groups := [];
    }
    rep := Table(totalChanges, rows);
  }

  // ---------------------------------------------------------------------
  // main (main.go:46-125), its sequential effect

  /** A command-line argument: its path, whether git.PlainOpen succeeds on
      it, and the repository it opens. */
  datatype Candidate = Candidate(path: string, opens: bool, repo: Repo)

  predicate Opens(c: Candidate) { c.opens }

  /** Why the program exits with status 1 without a report: no arguments
      (usage), or a fatal parse error in the repository at `path`. */
  datatype Failure = Usage | ParseFailed(path: string)

  /** Paths that fail to open are skipped (main.go:76-80); every opened one
      goes through a worker, and the first fatal error ends the program. On
      success the result holds one analysed directory per opened path, in
      argument order. */
  method WorkAll(args: seq<Candidate>, cfg: Config, now: int) returns (r: Result<seq<Directory>, string>)
    ensures var repos := Filter(args, Opens);
      && (r.Err? <==> exists i :: 0 <= i < |repos| && Fatal(repos[i].repo, cfg, now))
      && (r.Err? ==> exists i :: 0 <= i < |repos| && Fatal(repos[i].repo, cfg, now) && r.error == repos[i].path)
      && (r.Ok? ==>
            && |r.value| == |repos|
            && forall i :: 0 <= i < |r.value| ==> Analysed(r.value[i], repos[i].path, repos[i].repo, cfg, now))
  {
    var out: seq<Directory> := [];
    for i := 0 to |args|
      invariant Progress(args, i, out, cfg, now)
    {
      var c := args[i];
      if !c.opens {
        ProgressSkip(args, i, out, cfg, now);
        continue;
      }
      var w := Work(c.path, c.repo, cfg, now);
      if w.Err? {
        FatalAt(args, i, cfg, now);
        return Err(c.path);
      }
      ProgressAdd(args, i, out, w.value, cfg, now);
      out := out + [w.value];
    }
    assert args[..|args|] == args;
    return Ok(out);
  }

  /** The loop invariant of WorkAll: `out` analyses the opened candidates
      among the first `i` arguments, none of which was fatal. */
  ghost predicate Progress(args: seq<Candidate>, i: nat, out: seq<Directory>, cfg: Config, now: int)
    requires i <= |args|
  {
    var repos := Filter(args[..i], Opens);
    && Pairwise(out, repos, AnalysedBy(cfg, now))
    && (forall k :: 0 <= k < |repos| ==> !Fatal(repos[k].repo, cfg, now))
  }

  /** Analysed, for a directory and the candidate it came from. */
  function AnalysedBy(cfg: Config, now: int): (Directory, Candidate) -> bool {
    (d: Directory, c: Candidate) => Analysed(d, c.path, c.repo, cfg, now)
  }

  lemma ProgressSkip(args: seq<Candidate>, i: nat, out: seq<Directory>, cfg: Config, now: int)
    requires i < |args| && !args[i].opens && Progress(args, i, out, cfg, now)
    ensures Progress(args, i + 1, out, cfg, now)
  {
    assert args[..i + 1][..i] == args[..i];
    assert Filter(args[..i + 1], Opens) == Filter(args[..i], Opens);
  }

  lemma ProgressAdd(args: seq<Candidate>, i: nat, out: seq<Directory>, d: Directory, cfg: Config, now: int)
    requires i < |args| && args[i].opens && Progress(args, i, out, cfg, now)
    requires !Fatal(args[i].repo, cfg, now) && Analysed(d, args[i].path, args[i].repo, cfg, now)
    ensures Progress(args, i + 1, out + [d], cfg, now)
  {
    var repos := Filter(args[..i], Opens);
    assert args[..i + 1][..i] == args[..i];
    assert Filter(args[..i + 1], Opens) == repos + [args[i]];
    PairwiseSnoc(out, repos, d, args[i], AnalysedBy(cfg, now));
  }

  /** A fatal opened argument is one of the opened candidates of the whole
      argument list. */
  lemma FatalAt(args: seq<Candidate>, i: nat, cfg: Config, now: int)
    requires i < |args| && args[i].opens && Fatal(args[i].repo, cfg, now)
    ensures var repos := Filter(args, Opens);
      exists k :: 0 <= k < |repos| && Fatal(repos[k].repo, cfg, now) && repos[k].path == args[i].path
  {
    assert args[..i + 1] == args[..i] + [args[i]];
    FilterAppend(args[..i], [args[i]], Opens);
    OpenedInAll(args, i + 1);
    var j := |Filter(args[..i], Opens)|;
    assert Filter(args, Opens)[..j + 1][j] == args[i];
  }

  /** The whole program: usage without arguments (main.go:59-62), the
      workers, then either the first fatal error or the report. */
  method Run(args: seq<Candidate>, cfg: Config, now: int)
    returns (r: Result<Report, Failure>, ghost dirs: seq<Directory>,
             ghost order: seq<Directory>, ghost groups: seq<seq<File>>)
    ensures args == [] ==> r == Err(Usage)
    ensures args != [] ==>
      var repos := Filter(args, Opens);
      && (r.Err? <==> exists i :: 0 <= i < |repos| && Fatal(repos[i].repo, cfg, now))
      && (r.Err? ==> exists i :: 0 <= i < |repos| && Fatal(repos[i].repo, cfg, now) && r.error == ParseFailed(repos[i].path))
      && (r.Ok? ==>
            && |dirs| == |repos|
            && (forall i :: 0 <= i < |dirs| ==> Analysed(dirs[i], repos[i].path, repos[i].repo, cfg, now))
            && IsReport(r.value, dirs, cfg.byFile, order, groups))
  {
    dirs, order, groups := [], [], [];
    if |args| == 0 {
      return Err(Usage), dirs, order, groups;
    }
    var w := WorkAll(args, cfg, now);
    if w.Err? {
      return Err(ParseFailed(w.error)), dirs, order, groups;
    }
    var rep;
    rep, order, groups := ReportResults(w.value, cfg.byFile);
    return Ok(rep), w.value, order, groups;
  }

  /** The opened candidates of a prefix are a prefix of the opened candidates. */
  lemma OpenedInAll(args: seq<Candidate>, n: nat)
    requires n <= |args|
    ensures var pre, all := Filter(args[..n], Opens), Filter(args, Opens);
      |pre| <= |all| && all[..|pre|] == pre
  {
    assert args == args[..n] + args[n..];
    FilterAppend(args[..n], args[n..], Opens);
  }

  // ---------------------------------------------------------------------
  // Properties of the attribution and of the report

  /** Attribution follows the log: the changes, authors and touched files of
      a concatenated log are those of its parts, in log order. */
  lemma AttributionAppend(a: seq<Commit>, b: seq<Commit>, author: string, name: string)
    ensures Changes(a + b, author, name) == Changes(a, author, name) + Changes(b, author, name)
    ensures Authors(a + b, author, name) == Authors(a, author, name) + Authors(b, author, name)
    ensures Touched(a + b, author) == Touched(a, author) + Touched(b, author)
  {
    ChangesAppend(a, b, author, name);
    AuthorsAppend(a, b, author, name);
    TouchedAppend(a, b, author);
  }

  lemma {:induction false} ChangesAppend(a: seq<Commit>, b: seq<Commit>, author: string, name: string)
    ensures Changes(a + b, author, name) == Changes(a, author, name) + Changes(b, author, name)
    decreases |b|
  {
    if b == [] {
      assert a + b == a;
    } else {
      assert (a + b)[..|a + b| - 1] == a + b[..|b| - 1];
      ChangesAppend(a, b[..|b| - 1], author, name);
    }
  }

  lemma {:induction false} AuthorsAppend(a: seq<Commit>, b: seq<Commit>, author: string, name: string)
    ensures Authors(a + b, author, name) == Authors(a, author, name) + Authors(b, author, name)
    decreases |b|
  {
    if b == [] {
      assert a + b == a;
    } else {
      var init, c := b[..|b| - 1], b[|b| - 1];
      assert (a + b)[..|a + b| - 1] == a + init;
      assert (a + b)[|a + b| - 1] == c;
      var step := StatAuthors(Seen(c, author), c.author, name);
      assert Authors(a + b, author, name) == Authors(a + init, author, name) + step;
      assert Authors(b, author, name) == Authors(init, author, name) + step;
      AuthorsAppend(a, init, author, name);
    }
  }

  lemma {:induction false} TouchedAppend(a: seq<Commit>, b: seq<Commit>, author: string)
    ensures Touched(a + b, author) == Touched(a, author) + Touched(b, author)
    decreases |b|
  {
    if b == [] {
      assert a + b == a;
    } else {
      assert (a + b)[..|a + b| - 1] == a + b[..|b| - 1];
      TouchedAppend(a, b[..|b| - 1], author);
    }
  }

  /** The commits whose author is exactly `author`. */
  function OwnCommits(log: seq<Commit>, author: string): seq<Commit> {
    Filter(log, (c: Commit) => c.author == author)
  }

  /** With -author set, commits by anyone else contribute nothing: the
      attribution is that of the author's own commits with no filter. */
  lemma {:induction false} AuthorFilter(log: seq<Commit>, author: string, name: string)
    requires author != ""
    ensures Changes(log, author, name) == Changes(OwnCommits(log, author), "", name)
    ensures Authors(log, author, name) == Authors(OwnCommits(log, author), "", name)
    ensures Touched(log, author) == Touched(OwnCommits(log, author), "")
    ensures StatsFail(log, author) <==> StatsFail(OwnCommits(log, author), "")
  {
    if log != [] {
      var init, c := log[..|log| - 1], log[|log| - 1];
      AuthorFilter(init, author, name);
      var own := OwnCommits(init, author);
      if c.author == author {
        OwnCommitStep(own, c, author, name);
        assert OwnCommits(log, author) == own + [c];
      } else {
        assert Seen(c, author) == [];
        assert OwnCommits(log, author) == own;
      }
    }
  }

  /** A commit by the author counts the same with and without the filter. */
  lemma OwnCommitStep(own: seq<Commit>, c: Commit, author: string, name: string)
    requires c.author == author
    ensures var o := own + [c];
      && Changes(o, "", name) == Changes(own, "", name) + StatChanges(Seen(c, author), name)
      && Authors(o, "", name) == Authors(own, "", name) + StatAuthors(Seen(c, author), c.author, name)
      && Touched(o, "") == Touched(own, "") + StatNames(Seen(c, author))
      && (StatsFail(o, "") <==> StatsFail(own, "") || (Qualifies(c, author) && c.stats.None?))
  {
    var o := own + [c];
    assert o[..|o| - 1] == own;
    assert Seen(c, author) == Seen(c, "");
  }

  lemma {:induction false} StatAuthorsAreWho(stats: seq<FileStat>, who: string, name: string)
    ensures forall x :: x in StatAuthors(stats, who, name) ==> x == who
  {
    if stats != [] {
      StatAuthorsAreWho(stats[..|stats| - 1], who, name);
    }
  }

  /** With -author set, every author recorded for a file is that author. */
  lemma {:induction false} OnlyTheAuthor(log: seq<Commit>, author: string, name: string)
    requires author != ""
    ensures forall x :: x in Authors(log, author, name) ==> x == author
  {
    if log != [] {
      var c := log[|log| - 1];
      OnlyTheAuthor(log[..|log| - 1], author, name);
      StatAuthorsAreWho(Seen(c, author), c.author, name);
    }
  }

  lemma {:induction false} StatNamesMember(stats: seq<FileStat>, k: nat)
    requires k < |stats| && stats[k].name != ""
    ensures stats[k].name in StatNames(stats)
  {
    if k < |stats| - 1 {
      StatNamesMember(stats[..|stats| - 1], k);
    }
  }

  /** Any named stat of a qualifying commit, even one with no additions and
      no deletions, makes its file come out. */
  lemma NamedStatTouched(log: seq<Commit>, author: string, i: nat, k: nat)
    requires i < |log| && Qualifies(log[i], author) && log[i].stats.Some?
    requires k < |log[i].stats.value| && log[i].stats.value[k].name != ""
    ensures log[i].stats.value[k].name in Touched(log, author)
  {
    StatNamesMember(log[i].stats.value, k);
    assert log == log[..i] + [log[i]] + log[i + 1..];
    TouchedAppend(log[..i] + [log[i]], log[i + 1..], author);
    TouchedAppend(log[..i], [log[i]], author);
    assert [log[i]][..0] == [];
  }

  /** With -ignore set, no file that the worker keeps has the ignored base name. */
  lemma IgnoredNeverKept(d: Directory, path: string, repo: Repo, cfg: Config, now: int)
    requires Analysed(d, path, repo, cfg, now) && cfg.ignore != ""
    ensures forall i :: 0 <= i < |d.files| ==> Base(d.files[i].path) != cfg.ignore
  {
    forall i | 0 <= i < |d.files| ensures Base(d.files[i].path) != cfg.ignore {
      assert d.files[i].path in Paths(d.files);
    }
  }

  /** A repository whose pull fails is left out of the report. */
  lemma PullFailedDropped(d: Directory, path: string, repo: Repo, cfg: Config, now: int)
    requires Analysed(d, path, repo, cfg, now) && PullFailed(repo, cfg)
    ensures !HasFiles(d) && Filter([d], HasFiles) == []
  {
    assert Filter([d], HasFiles) == Filter([], HasFiles) + [];
  }

  /** The workers deliver their directories in any order: a report of one
      arrival order is a report of every other. */
  lemma ArrivalOrder(a: seq<Directory>, b: seq<Directory>, rep: Report, byFile: bool,
                     order: seq<Directory>, groups: seq<seq<File>>)
    requires multiset(a) == multiset(b)
    ensures IsReport(rep, a, byFile, order, groups) <==> IsReport(rep, b, byFile, order, groups)
  {
    FilterPermutation(a, b, HasFiles);
    TotalChangesOfKept(a);
    TotalChangesOfKept(b);
    SumOfPermutation(Filter(a, HasFiles), Filter(b, HasFiles), DirChanges);
    if Filter(a, HasFiles) == [] {
      assert multiset(Filter(b, HasFiles)) == multiset{};
    }
    if Filter(b, HasFiles) == [] {
      assert multiset(Filter(a, HasFiles)) == multiset{};
    }
  }

  /** Without -files the rows come in non-increasing order of changes. */
  lemma DirectoryRowsDescending(rep: Report, dirs: seq<Directory>, order: seq<Directory>, groups: seq<seq<File>>)
    requires IsReport(rep, dirs, false, order, groups) && rep.Table?
    ensures forall i, j :: 0 <= i < j < |rep.rows| ==> rep.rows[i].changes >= rep.rows[j].changes
  {
    forall i, j | 0 <= i < j < |rep.rows| ensures rep.rows[i].changes >= rep.rows[j].changes {
      assert DirGe(order[i], order[j]);
    }
  }

  /** The report holds exactly the directories that have files. */
  lemma ReportedDirectories(rep: Report, dirs: seq<Directory>, byFile: bool, order: seq<Directory>, groups: seq<seq<File>>)
    requires IsReport(rep, dirs, byFile, order, groups) && rep.Table?
    ensures forall d :: d in order <==> d in dirs && HasFiles(d)
  {
    FilterMembers(dirs, HasFiles);
    forall d ensures d in order <==> d in Filter(dirs, HasFiles) {
      assert d in order <==> d in multiset(order);
    }
  }
}
