/** Markdown files of a directory tree and their HTML names
    (internal/mdsrv/markdown/markdown.go and its copy markdown/markdown.go,
    which differ only in how their ToHTML is driven). */
module Markdown {
  import opened Seqs
  import opened Strings

  /** Is: the extension of the last path element is exactly ".md". */
  predicate Is(file: string) {
    Ext(file) == ".md"
  }

  /** A file is markdown exactly when its path ends in ".md", case
      sensitively: "README.MD" is not. */
  lemma IsSuffix(file: string)
    ensures Is(file) <==> HasSuffix(file, ".md")
  {
    ExtIsMd(file);
  }

  /** ChangeExt (changeExt in the copy): a ".md" path loses its ".md" and
      gets `ext`; any other path is returned as it is. */
  function ChangeExt(path: string, ext: string): (r: string)
    ensures !HasSuffix(path, ".md") ==> r == path
    ensures HasSuffix(path, ".md") ==> r == path[..|path| - 3] + ext
  {
    ExtIsMd(path);
    var oldExt := Ext(path);
    if oldExt != ".md" then path
    else
      var bare := TrimSuffix(path, oldExt);
      bare + ext
  }

  /** Changing to ".md" changes nothing. */
  lemma ChangeExtToMd(path: string)
    ensures ChangeExt(path, ".md") == path
  {
    if HasSuffix(path, ".md") {
      assert path == path[..|path| - 3] + path[|path| - 3..];
    }
  }

  /** The new name ends in `ext`, and stripping `ext` and adding ".md" gives
      the markdown name back. */
  lemma ChangeExtInverse(path: string, ext: string)
    requires Is(path)
    ensures var r := ChangeExt(path, ext);
      HasSuffix(r, ext) && TrimSuffix(r, ext) + ".md" == path
  {
    IsSuffix(path);
    var r := ChangeExt(path, ext);
    assert r[|r| - |ext|..] == ext;
    assert path == path[..|path| - 3] + path[|path| - 3..];
  }

  /** An extension of three or more characters that does not itself end in
      ".md" makes a second change a no-op. */
  lemma ChangeExtIdempotent(path: string, ext: string)
    requires |ext| >= 3 && !HasSuffix(ext, ".md")
    ensures ChangeExt(ChangeExt(path, ext), ext) == ChangeExt(path, ext)
  {
    var r := ChangeExt(path, ext);
    if HasSuffix(path, ".md") {
      assert r[|r| - 3..] == ext[|ext| - 3..];
    }
  }

  lemma ChangeExtHtmlIdempotent(path: string)
    ensures ChangeExt(ChangeExt(path, ".html"), ".html") == ChangeExt(path, ".html")
  {
    ChangeExtIdempotent(path, ".html");
  }

  /** The test table of internal/mdsrv/markdown/markdown_test.go. */
  lemma ChangeExtExamples()
    ensures ChangeExt("file.md", ".html") == "file.html"
    ensures ChangeExt("file.txt", ".html") == "file.txt"
    ensures ChangeExt("dir/subdir/FILE.md", ".html") == "dir/subdir/FILE.html"
  {
    assert HasSuffix("file.md", ".md");
    assert !HasSuffix("file.txt", ".md");
    assert HasSuffix("dir/subdir/FILE.md", ".md");
  }

  /** One call of the walk callback: the path, whether the entry is a
      directory, and whether the call reports an error. The sequence of
      calls is in walk order (lexical, depth first); a directory that cannot
      be read contributes only its own calls. */
  datatype Entry = Entry(path: string, isDir: bool, failed: bool)

  /** The callback appends the path of a readable non-directory markdown
      entry; on an error it returns SkipDir and appends nothing. */
  predicate Kept(e: Entry) {
    !e.failed && !e.isDir && Is(e.path)
  }

  function Paths(entries: seq<Entry>): (r: seq<string>)
    ensures |r| == |entries|
    ensures forall i :: 0 <= i < |entries| ==> r[i] == entries[i].path
  {
    Map(entries, (e: Entry) => e.path)
  }

  /** Files (both copies): the walk never sees another error than SkipDir,
      which fs.WalkDir turns into nil, so only the list is returned. */
  method Files(walk: seq<Entry>) returns (mdfiles: seq<string>)
    ensures mdfiles == Paths(Filter(walk, Kept))
  {
    mdfiles := [];
    for i := 0 to |walk|
      invariant mdfiles == Paths(Filter(walk[..i], Kept))
    {
      assert walk[..i + 1][..i] == walk[..i];
      var entry := walk[i];
      if entry.failed {
        continue;
      }
      if !entry.isDir && Is(entry.path) {
        mdfiles := mdfiles + [entry.path];
      }
    }
    assert walk[..|walk|] == walk;
  }

  /** A path is found exactly when the walk passes it as a readable
      non-directory whose name ends in ".md"; the found paths keep walk
      order. */
  lemma FilesFound(walk: seq<Entry>, p: string)
    ensures p in Paths(Filter(walk, Kept)) <==>
      exists e :: e in walk && e.path == p && !e.failed && !e.isDir && HasSuffix(p, ".md")
    ensures IsSubsequence(Paths(Filter(walk, Kept)), Paths(walk))
  {
    var kept := Filter(walk, Kept);
    FilterMembers(walk, Kept);
    IsSuffix(p);
    if p in Paths(kept) {
      var i :| 0 <= i < |kept| && Paths(kept)[i] == p;
      assert kept[i] in walk;
    }
    if exists e :: e in walk && e.path == p && !e.failed && !e.isDir && HasSuffix(p, ".md") {
      var e :| e in walk && e.path == p && !e.failed && !e.isDir && HasSuffix(p, ".md");
      assert e in kept;
      var i :| 0 <= i < |kept| && kept[i] == e;
      assert Paths(kept)[i] == p;
    }
    FilterIsSubsequence(walk, Kept);
    PathsSubsequence(kept, walk);
  }

  lemma {:induction false} PathsSubsequence(a: seq<Entry>, b: seq<Entry>)
    requires IsSubsequence(a, b)
    ensures IsSubsequence(Paths(a), Paths(b))
    decreases |b|
  {
    if a != [] && b != [] {
      var a0, b0 := a[..|a| - 1], b[..|b| - 1];
      assert Paths(b0) == Paths(b)[..|b| - 1];
      assert Paths(a0) == Paths(a)[..|a| - 1];
      if a[|a| - 1] == b[|b| - 1] {
        PathsSubsequence(a0, b0);
      } else {
        PathsSubsequence(a, b0);
        SubsequenceOfInit(Paths(a), Paths(b));
      }
    }
  }

  /** The cases of TestFiles: an empty tree gives nothing, a directory named
      "dir.md" is not a file, and a ".go" file is skipped. */
  lemma FilesExamples()
    ensures Paths(Filter([], Kept)) == []
    ensures Paths(Filter([Entry(".", true, false), Entry("dir.md", true, false)], Kept)) == []
    ensures !Kept(Entry("file.go", false, false))
  {
    assert !HasSuffix("file.go", ".md");
    IsSuffix("file.go");
  }
}
