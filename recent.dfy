/** Recent (gotoolz/recent/recent.go): the `n` most recently modified files
    of a directory tree, oldest first. Modification times are modelled as
    integers on one time line; regular-expression matching is a per-call
    input. */
module Recent {
  import opened Results
  import opened Seqs
  import opened Sorting

  datatype File = File(path: string, modTime: int)

  /** getLastNFiles (recent.go:56-61): the last `n` files, or all of them
      when there are fewer. A negative `n` makes the slice expression panic,
      so it is excluded. */
  function GetLastNFiles(files: seq<File>, n: int): (r: seq<File>)
    requires n >= 0
    ensures |r| == Min(n, |files|)
    ensures r == files[|files| - |r|..]
  {
    var m := if n > |files| then |files| else n;
    files[|files| - m..]
  }

  /** oldestToYoungest (recent.go:64-66) as an order: not younger. */
  predicate NotYounger(a: File, b: File) { a.modTime <= b.modTime }

  lemma NotYoungerTotal()
    ensures TotalPreorder(NotYounger)
  {
  }

  /** sortByModTime (recent.go:63-68): sort.Slice with "before" leaves the
      files a permutation of the input, oldest first; files with equal
      times come out in any order. */
  function SortByModTime(files: seq<File>): (r: seq<File>)
    ensures multiset(r) == multiset(files)
    ensures forall i, j :: 0 <= i < j < |r| ==> r[i].modTime <= r[j].modTime
  {
    NotYoungerTotal();
    SortBy(files, NotYounger)
  }

  /** The errors the walk can pass to the callback. */
  datatype WalkError = Permission(msg: string) | Other(msg: string)

  /** One call of the walk callback: the path, whether it names a
      directory, the error passed with it, whether the exclusion pattern
      matches the path, and what d.Info() gives (the modification time or
      an error). */
  datatype Call = Call(path: string, isDir: bool, err: Option<WalkError>, matches: bool, info: Result<int, string>)

  /** The callback over the remaining calls (recent.go:24-44): an excluded
      path is passed over (a directory's contents are still walked), a
      permission error is reported and the call goes on, any other error or
      a failed Info stops the walk with that error, and each remaining file
      is collected. */
  function Collect(calls: seq<Call>, exclude: bool): (seq<File>, Option<string>)
    decreases |calls|
  {
    if calls == [] then ([], None)
    else
      var c := calls[0];
      if exclude && c.matches then Collect(calls[1..], exclude)
      else if c.err.Some? && c.err.value.Other? then ([], Some(c.err.value.msg))
      else if c.isDir then Collect(calls[1..], exclude)
      else if c.info.Err? then ([], Some(c.info.error))
      else
        var rest := Collect(calls[1..], exclude);
        ([File(c.path, c.info.value)] + rest.0, rest.1)
  }

  /** The walk of Files as a loop over its calls; `err` is what
      fs.WalkDir returns. */
  method Walk(calls: seq<Call>, exclude: bool) returns (files: seq<File>, err: Option<string>)
    ensures files == Collect(calls, exclude).0
    ensures err == Collect(calls, exclude).1
  {
    files := [];
    err := None;
    var i := 0;
    assert calls[0..] == calls;
    while i < |calls|
      invariant 0 <= i <= |calls|
      invariant Collect(calls, exclude).0 == files + Collect(calls[i..], exclude).0
      invariant Collect(calls, exclude).1 == Collect(calls[i..], exclude).1
    {
      var c := calls[i];
      CollectAt(calls, i, exclude);
      if exclude && c.matches {
        i := i + 1;
        continue;
      }
      if c.err.Some? && !c.err.value.Permission? {
        err := Some(c.err.value.msg);
        assert files + [] == files;
        return;
      }
      if c.isDir {
        i := i + 1;
        continue;
      }
      if c.info.Err? {
        err := Some(c.info.error);
        assert files + [] == files;
        return;
      }
      AppendAssoc(files, File(c.path, c.info.value), Collect(calls[i + 1..], exclude).0);
      files := files + [File(c.path, c.info.value)];
      i := i + 1;
    }
    assert calls[i..] == [];
  }

  /** One step of Collect at position `i`. */
  lemma CollectAt(calls: seq<Call>, i: nat, exclude: bool)
    requires i < |calls|
    ensures var c := calls[i];
      var rest := Collect(calls[i + 1..], exclude);
      Collect(calls[i..], exclude) ==
        if exclude && c.matches then rest
        else if c.err.Some? && c.err.value.Other? then ([], Some(c.err.value.msg))
        else if c.isDir then rest
        else if c.info.Err? then ([], Some(c.info.error))
        else ([File(c.path, c.info.value)] + rest.0, rest.1)
  {
    assert calls[i..][0] == calls[i] && calls[i..][1..] == calls[i + 1..];
  }

  lemma AppendAssoc(a: seq<File>, x: File, b: seq<File>)
    ensures a + [x] + b == a + ([x] + b)
  {
  }

  /** Files (recent.go:18-47): `compileError` is the error parseRegexp
      gives for a non-empty pattern, `None` when it compiles (an empty
      pattern compiles to no regexp and excludes nothing). The files collected before a walk error are still sorted
      and cut, and returned beside the error. A negative `n` reaches the
      slice, which panics, only when the pattern compiles. */
  method Files(calls: seq<Call>, n: int, excludePath: string, compileError: Option<string>)
    returns (r: seq<File>, err: Option<string>)
    requires n >= 0 || (excludePath != "" && compileError.Some?)
    ensures excludePath != "" && compileError.Some? ==> r == [] && err == compileError
    ensures !(excludePath != "" && compileError.Some?) ==>
      var (collected, walkErr) := Collect(calls, excludePath != "");
      r == GetLastNFiles(SortByModTime(collected), n) && err == walkErr
  {
    if excludePath != "" && compileError.Some? {
      return [], compileError;
    }
    var files;
    files, err := Walk(calls, excludePath != "");
    var sorted := SortByModTime(files);
    r := GetLastNFiles(sorted, n);
  }

  /** Every collected file comes from a call for a file that is no
      directory, whose Info succeeded and, when a pattern is given, that the
      pattern does not match. */
  lemma {:induction false} CollectedFromCalls(calls: seq<Call>, exclude: bool, f: File)
    requires f in Collect(calls, exclude).0
    ensures exists c :: c in calls && c.path == f.path && !c.isDir && c.info == Ok(f.modTime) && !(exclude && c.matches)
    decreases |calls|
  {
    var c := calls[0];
    if (exclude && c.matches) || c.isDir || c.info.Err? || f != File(c.path, c.info.value) {
      CollectedFromCalls(calls[1..], exclude, f);
      var d :| d in calls[1..] && d.path == f.path && !d.isDir && d.info == Ok(f.modTime) && !(exclude && d.matches);
      assert d in calls;
    } else {
      assert c in calls;
    }
  }

  /** Without errors, every file call that survives the exclusion is
      collected, in walk order. */
  lemma {:induction false} CollectAll(calls: seq<Call>, exclude: bool, i: nat)
    requires forall k :: 0 <= k < |calls| ==> calls[k].err.None? && calls[k].info.Ok?
    requires i < |calls| && !calls[i].isDir && !(exclude && calls[i].matches)
    ensures Collect(calls, exclude).1 == None
    ensures File(calls[i].path, calls[i].info.value) in Collect(calls, exclude).0
    decreases |calls|
  {
    if i > 0 {
      assert calls[1..][i - 1] == calls[i];
      CollectAll(calls[1..], exclude, i - 1);
    } else if |calls| > 1 {
      NoErrorCollect(calls[1..], exclude);
    } else {
      assert calls[1..] == [];
    }
  }

  lemma {:induction false} NoErrorCollect(calls: seq<Call>, exclude: bool)
    requires forall k :: 0 <= k < |calls| ==> calls[k].err.None? && calls[k].info.Ok?
    ensures Collect(calls, exclude).1 == None
    decreases |calls|
  {
    if calls != [] {
      assert forall k :: 0 <= k < |calls[1..]| ==> calls[1..][k] == calls[k + 1];
      NoErrorCollect(calls[1..], exclude);
    }
  }

  /** The result holds the youngest files: the kept files are the last `n`
      of the time-ordered list, so none left out is younger than one kept. */
  lemma YoungestKept(files: seq<File>, n: int)
    requires n >= 0
    ensures var sorted := SortByModTime(files);
      var r := GetLastNFiles(sorted, n);
      && multiset(r) <= multiset(files)
      && forall i, j :: 0 <= i < |sorted| - |r| <= j < |sorted| ==> sorted[i].modTime <= sorted[j].modTime
  {
    var sorted := SortByModTime(files);
    var r := GetLastNFiles(sorted, n);
    assert sorted == sorted[..|sorted| - |r|] + r;
    assert multiset(sorted) == multiset(sorted[..|sorted| - |r|]) + multiset(r);
  }

  /** The case of TestFilesReturnsTwoFiles: three files and n = 2 give two. */
  lemma TwoOfThree(files: seq<File>)
    requires |files| == 3
    ensures |GetLastNFiles(SortByModTime(files), 2)| == 2
    ensures |GetLastNFiles(SortByModTime(files), 10)| == 3
  {
  }
}
