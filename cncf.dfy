/** CNCF projects and their main programming language (cncf/cncf.go): the
    GitHub URLs taken from column 29 of the landscape CSV file, the
    language with the most code per repository, and the collection of the
    answers. Opening and tokenizing the CSV file and the GitHub API are not
    part of this model: their results are inputs. */
module Cncf {
  import opened Results
  import opened Seqs
  import opened Strings
  import opened SortMap

  /** getOwnerAndRepo (cncf.go:95-99): the last two "/"-separated fields.
      With no "/" there is one field and the index panics, so callers must
      give at least two. */
  function GetOwnerAndRepo(repoURL: string): (r: (string, string))
    requires |Split(repoURL, '/')| >= 2
    ensures '/' !in r.0 && '/' !in r.1
    ensures HasSuffix(repoURL, r.0 + "/" + r.1)
  {
    var fields := Split(repoURL, '/');
    OwnerAndRepoIsSuffix(repoURL);
    (fields[|fields| - 2], fields[|fields| - 1])
  }

  lemma OwnerAndRepoIsSuffix(s: string)
    requires |Split(s, '/')| >= 2
    ensures var f := Split(s, '/');
      HasSuffix(s, f[|f| - 2] + "/" + f[|f| - 1])
  {
    var f := Split(s, '/');
    var k := |f| - 2;
    JoinSplit(s, '/');
    if k > 0 {
      JoinAt(f, "/", k);
    }
    assert f[k..][1..] == [f[|f| - 1]];
    assert Join(f[k..], "/") == f[k] + "/" + f[|f| - 1];
  }

  /** The owner and repository of a URL built from separator-free fields
      are its last two fields. */
  lemma OwnerAndRepoOfJoin(fields: seq<string>)
    requires |fields| >= 2
    requires forall i :: 0 <= i < |fields| ==> '/' !in fields[i]
    ensures |Split(Join(fields, "/"), '/')| >= 2
    ensures GetOwnerAndRepo(Join(fields, "/")) == (fields[|fields| - 2], fields[|fields| - 1])
  {
    SplitJoin(fields, '/');
  }

  /** One call of csv.Reader.Read before the end of the file: a record, or
      an error. The end of the sequence is io.EOF. */
  datatype Read = Rec(fields: seq<string>) | ReadError(msg: string)

  /** What a call ends with: a value, an error, or a run-time panic. */
  datatype Outcome<T> = Done(value: T) | Failed(err: string) | Panicked(why: string)

  function NoColumn(csvFile: string): string {
    "no column 29 in " + csvFile
  }

  /** The field check of githubURLs as written (cncf.go:68-71): fewer than
      29 fields is an error, but field 29 is the thirtieth, so a record of
      exactly 29 fields indexes out of range. */
  function Column29AsWritten(record: seq<string>, csvFile: string): (r: Outcome<string>)
    ensures |record| == 29 ==> r.Panicked?
  {
    if |record| < 29 then Failed(NoColumn(csvFile))
    else if 29 < |record| then Done(record[29])
    else Panicked("index out of range [29] with length 29")
  }

  /** The field check as intended: a record needs 30 fields to have a
      field 29. */
  function Column29(record: seq<string>, csvFile: string): (r: Outcome<string>)
    ensures !r.Panicked?
    ensures r.Done? <==> |record| >= 30
    ensures r.Done? ==> r.value == record[29]
  {
    if |record| < 30 then Failed(NoColumn(csvFile)) else Done(record[29])
  }

  function AsWritten(csvFile: string): seq<string> -> Outcome<string> {
    (rec: seq<string>) => Column29AsWritten(rec, csvFile)
  }

  function Intended(csvFile: string): seq<string> -> Outcome<string> {
    (rec: seq<string>) => Column29(rec, csvFile)
  }

  /** The records after the header, each through `column`, up to the
      first failure. */
  function URLsOf(lines: seq<Read>, column: seq<string> -> Outcome<string>): Outcome<seq<string>>
    decreases |lines|
  {
    if lines == [] then Done([])
    else if lines[0].ReadError? then Failed(lines[0].msg)
    else
      var c := column(lines[0].fields);
      if c.Failed? then Failed(c.err)
      else if c.Panicked? then Panicked(c.why)
      else
        var rest := URLsOf(lines[1..], column);
        if rest.Done? then Done([c.value] + rest.value) else rest
  }

  /** githubURLs as written: os.Open's error, then the header line (the end
      of the file there is io.EOF, an error), then the records. */
  function GithubURLsAsWritten(open: Option<string>, lines: seq<Read>, csvFile: string): Outcome<seq<string>> {
    if open.Some? then Failed(open.value)
    else if lines == [] then Failed("EOF")
    else if lines[0].ReadError? then Failed(lines[0].msg)
    else URLsOf(lines[1..], AsWritten(csvFile))
  }

  /** The off-by-one: a file whose one record after the header has exactly
      29 fields passes the length check and then crashes. csv.Reader takes
      the number of fields from the header and rejects records of another
      length, so such a record is read only when the header has 29 fields
      too. */
  lemma TwentyNineFieldsPanic(header: seq<string>, record: seq<string>, csvFile: string)
    requires |header| == 29 && |record| == 29
    ensures GithubURLsAsWritten(None, [Rec(header), Rec(record)], csvFile).Panicked?
  {
    assert [Rec(header), Rec(record)][1..] == [Rec(record)];
    assert [Rec(record)][1..] == [];
  }

  /** githubURLs (cncf.go:50-74) with the intended check, as its loop. */
  method GithubURLs(open: Option<string>, lines: seq<Read>, csvFile: string) returns (r: Outcome<seq<string>>)
    ensures open.Some? ==> r == Failed(open.value)
    ensures open.None? && lines == [] ==> r == Failed("EOF")
    ensures open.None? && lines != [] && lines[0].ReadError? ==> r == Failed(lines[0].msg)
    ensures open.None? && lines != [] && lines[0].Rec? ==>
      r == URLsOf(lines[1..], Intended(csvFile))
  {
    if open.Some? {
      return Failed(open.value);
    }
    if lines == [] {
      return Failed("EOF");
    }
    if lines[0].ReadError? {
      return Failed(lines[0].msg);
    }
    ghost var column := Intended(csvFile);
    var repos: seq<string> := [];
    PrependEmpty(URLsOf(lines[1..], column));
    var i := 1;
    while i < |lines|
      invariant 1 <= i <= |lines|
      invariant URLsOf(lines[1..], column) == Prepend(repos, URLsOf(lines[i..], column))
    {
      URLsOfAt(lines, i, column);
      var record := lines[i];
      if record.ReadError? {
        return Failed(record.msg);
      }
      if |record.fields| < 30 {
        return Failed(NoColumn(csvFile));
      }
      PrependAppend(repos, record.fields[29], URLsOf(lines[i + 1..], column));
      repos := repos + [record.fields[29]];
      i := i + 1;
    }
    assert lines[i..] == [];
    assert repos + [] == repos;
    r := Done(repos);
  }

  /** `prefix` in front of a successful outcome; failures pass through. */
  function Prepend(prefix: seq<string>, o: Outcome<seq<string>>): Outcome<seq<string>> {
    if o.Done? then Done(prefix + o.value) else o
  }

  lemma PrependEmpty(o: Outcome<seq<string>>)
    ensures Prepend([], o) == o
  {
    if o.Done? {
      assert [] + o.value == o.value;
    }
  }

  lemma PrependAppend(a: seq<string>, x: string, o: Outcome<seq<string>>)
    ensures Prepend(a, Prepend([x], o)) == Prepend(a + [x], o)
  {
    if o.Done? {
      assert a + ([x] + o.value) == a + [x] + o.value;
    }
  }

  /** One step of URLsOf at position `i`. */
  lemma URLsOfAt(lines: seq<Read>, i: nat, column: seq<string> -> Outcome<string>)
    requires i < |lines|
    ensures var c := if lines[i].Rec? then column(lines[i].fields) else Done("");
      URLsOf(lines[i..], column) ==
        if lines[i].ReadError? then Failed(lines[i].msg)
        else if c.Failed? then Failed(c.err)
        else if c.Panicked? then Panicked(c.why)
        else Prepend([c.value], URLsOf(lines[i + 1..], column))
  {
    assert lines[i..][0] == lines[i] && lines[i..][1..] == lines[i + 1..];
  }

  /** With the intended check: the call succeeds exactly when every line
      after the header is a record with a field 29, and then yields that
      field of each, in file order; it never panics. */
  lemma {:induction false} URLsOfColumn29(lines: seq<Read>, csvFile: string)
    ensures var r := URLsOf(lines, Intended(csvFile));
      && !r.Panicked?
      && (r.Done? <==> forall i :: 0 <= i < |lines| ==> lines[i].Rec? && |lines[i].fields| >= 30)
      && (r.Done? ==> |r.value| == |lines| && forall i :: 0 <= i < |lines| ==> r.value[i] == lines[i].fields[29])
    decreases |lines|
  {
    if lines != [] {
      URLsOfColumn29(lines[1..], csvFile);
      assert forall i :: 1 <= i < |lines| ==> lines[i] == lines[1..][i - 1];
    }
  }

  /** Where no record has exactly 29 fields, the code as written and the
      intended check agree. */
  lemma {:induction false} AsWrittenAgrees(lines: seq<Read>, csvFile: string)
    requires forall i :: 0 <= i < |lines| ==> lines[i].Rec? ==> |lines[i].fields| != 29
    ensures URLsOf(lines, AsWritten(csvFile))
         == URLsOf(lines, Intended(csvFile))
    decreases |lines|
  {
    if lines != [] {
      assert forall i :: 0 <= i < |lines[1..]| ==> lines[1..][i] == lines[i + 1];
      AsWrittenAgrees(lines[1..], csvFile);
    }
  }

  /** The header line is skipped: whatever record it is, the URLs are the
      same. */
  lemma HeaderSkipped(h1: seq<string>, h2: seq<string>, lines: seq<Read>, csvFile: string)
    ensures GithubURLsAsWritten(None, [Rec(h1)] + lines, csvFile) == GithubURLsAsWritten(None, [Rec(h2)] + lines, csvFile)
  {
    assert ([Rec(h1)] + lines)[1..] == lines == ([Rec(h2)] + lines)[1..];
  }

  /** topLanguage (cncf.go:77-93) with the answer of ListLanguages as input:
      its error, or the bytes of code per language. No languages give "";
      otherwise the first key of the map sorted by descending value, a
      language with the most code. */
  method TopLanguage(languages: Result<map<string, int>, string>) returns (lang: string, err: Option<string>)
    ensures languages.Err? ==> lang == "" && err == Some(languages.error)
    ensures languages.Ok? ==> err == None
    ensures languages.Ok? && |languages.value| == 0 ==> lang == ""
    ensures languages.Ok? && |languages.value| > 0 ==>
      lang in languages.value && forall l :: l in languages.value ==> languages.value[l] <= languages.value[lang]
  {
    if languages.Err? {
      return "", Some(languages.error);
    }
    var m := languages.value;
    if |m| == 0 {
      return "", None;
    }
    var l := SortMapByValue(m, true);
    lang := l[0].Key;
    err := None;
    forall k | k in m ensures m[k] <= m[lang] {
      assert Pair(k, m[k]) in l;
      var j :| 0 <= j < |l| && l[j] == Pair(k, m[k]);
      assert j == 0 || ValueGe(l[0], l[j]);
    }
  }

  /** Project (cncf.go:16-20). */
  datatype Project = Project(githubURL: string, topLanguage: string, err: Option<string>)

  function URLOf(p: Project): string { p.githubURL }

  predicate HasError(p: Project) { p.err.Some? }

  /** `k` is the first project with an error. */
  predicate FirstError(arrived: seq<Project>, k: int) {
    0 <= k < |arrived| && HasError(arrived[k]) && forall i :: 0 <= i < k ==> !HasError(arrived[i])
  }

  /** CSV (cncf.go:25-48) after the lookups: `urls` is what githubURLs
      gave, `arrived` the projects in the order the goroutines sent them,
      one per URL. The first project with an error in arrival order ends
      the call with that error. */
  method CSV(urls: Result<seq<string>, string>, arrived: seq<Project>) returns (r: Result<seq<Project>, string>)
    requires urls.Ok? ==> multiset(Map(arrived, URLOf)) == multiset(urls.value)
    ensures urls.Err? ==> r == Err(urls.error)
    ensures urls.Ok? ==> (r.Ok? <==> forall i :: 0 <= i < |arrived| ==> !HasError(arrived[i]))
    ensures urls.Ok? && r.Ok? ==> r.value == arrived && multiset(Map(r.value, URLOf)) == multiset(urls.value)
    ensures urls.Ok? && r.Err? ==> exists k :: FirstError(arrived, k) && r.error == arrived[k].err.value
  {
    if urls.Err? {
      return Err(urls.error);
    }
    var projects: seq<Project> := [];
    for i := 0 to |arrived|
      invariant projects == arrived[..i]
      invariant forall j :: 0 <= j < i ==> !HasError(arrived[j])
    {
      var project := arrived[i];
      if project.err.Some? {
        return Err(project.err.value);
      }
      projects := projects + [project];
    }
    assert arrived[..|arrived|] == arrived;
    r := Ok(projects);
  }

  /** A successful CSV holds one project per URL, none with an error. */
  lemma CSVOnePerURL(urls: seq<string>, arrived: seq<Project>)
    requires multiset(Map(arrived, URLOf)) == multiset(urls)
    ensures |arrived| == |urls|
    ensures forall u :: u in urls <==> exists i :: 0 <= i < |arrived| && arrived[i].githubURL == u
  {
    assert |Map(arrived, URLOf)| == |multiset(Map(arrived, URLOf))|;
    assert |urls| == |multiset(urls)|;
    forall u ensures u in urls <==> exists i :: 0 <= i < |arrived| && arrived[i].githubURL == u {
      assert u in urls <==> u in multiset(urls);
      assert u in Map(arrived, URLOf) <==> u in multiset(Map(arrived, URLOf));
      if u in Map(arrived, URLOf) {
        var i :| 0 <= i < |arrived| && Map(arrived, URLOf)[i] == u;
        assert arrived[i].githubURL == u;
      }
      if exists i :: 0 <= i < |arrived| && arrived[i].githubURL == u {
        var i :| 0 <= i < |arrived| && arrived[i].githubURL == u;
        assert Map(arrived, URLOf)[i] == u;
      }
    }
  }
}
