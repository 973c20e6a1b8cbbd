/** Fetch (gotoolz/fetch/main.go): the list of URLs to download, taken from
    the command line and an optional file, without duplicates. The
    downloads themselves run concurrently over the network and are not
    part of this model. */
module Fetch {
  import opened Results
  import opened Seqs
  import opened Strings

  /** dedup (main.go:60-70): a URL is appended when the `seen` map does not
      yet hold true for it; a missing key reads as false. */
  method Dedup(ss: seq<string>) returns (ss2: seq<string>)
    ensures ss2 == FirstOccurrences(ss)
  {
    ss2 := [];
    var seen: map<string, bool> := map[];
    for i := 0 to |ss|
      invariant ss2 == FirstOccurrences(ss[..i])
      invariant forall u :: (u in seen && seen[u]) <==> u in ss2
    {
      assert ss[..i + 1][..i] == ss[..i];
      var s := ss[i];
      if !(s in seen && seen[s]) {
        seen := seen[s := true];
        ss2 := ss2 + [s];
      }
    }
    assert ss[..|ss|] == ss;
  }

  /** What dedup promises: no URL twice, the same URLs as the input, each
      at the place of its first occurrence, and a second pass changes
      nothing. */
  lemma DedupProperties(ss: seq<string>)
    ensures NoDuplicates(FirstOccurrences(ss))
    ensures forall u :: u in FirstOccurrences(ss) <==> u in ss
    ensures forall i, j :: 0 <= i < j < |FirstOccurrences(ss)| ==>
      FirstIndex(ss, FirstOccurrences(ss)[i]) < FirstIndex(ss, FirstOccurrences(ss)[j])
    ensures FirstOccurrences(FirstOccurrences(ss)) == FirstOccurrences(ss)
    ensures ss == [] ==> FirstOccurrences(ss) == []
  {
    FirstOccurrencesMembers(ss);
    forall i, j | 0 <= i < j < |FirstOccurrences(ss)|
      ensures FirstIndex(ss, FirstOccurrences(ss)[i]) < FirstIndex(ss, FirstOccurrences(ss)[j])
    {
      FirstOccurrencesOrder(ss, i, j);
    }
    FirstOccurrencesIdempotent(ss);
  }

  predicate NonEmpty(line: string) { line != "" }

  /** The URLs of a `-f` file: its "\n"-separated lines, empty ones
      dropped, in file order. */
  function FileURLs(content: string): seq<string> {
    Filter(Split(content, '\n'), NonEmpty)
  }

  /** A file URL is exactly a non-empty line of the file, and none holds a
      newline. */
  lemma FileURLsAreLines(content: string)
    ensures forall u :: u in FileURLs(content) <==> u in Split(content, '\n') && u != ""
    ensures forall i :: 0 <= i < |FileURLs(content)| ==> '\n' !in FileURLs(content)[i]
    ensures IsSubsequence(FileURLs(content), Split(content, '\n'))
  {
    FilterMembers(Split(content, '\n'), NonEmpty);
    FilterIsSubsequence(Split(content, '\n'), NonEmpty);
    forall i | 0 <= i < |FileURLs(content)| ensures '\n' !in FileURLs(content)[i] {
      assert FileURLs(content)[i] in Split(content, '\n');
    }
  }

  /** The URL list of main (main.go:29-42): the arguments, then, when a
      file is named (`f` non-empty), the URLs read from it (`read` is what
      os.ReadFile returns); a read error ends the program with that error. */
  method URLs(args: seq<string>, f: string, read: Result<string, string>) returns (r: Result<seq<string>, string>)
    ensures f == "" ==> r == Ok(FirstOccurrences(args))
    ensures f != "" && read.Err? ==> r == Err(read.error)
    ensures f != "" && read.Ok? ==> r == Ok(FirstOccurrences(args + FileURLs(read.value)))
  {
    var urls := args;
    if f != "" {
      if read.Err? {
        return Err(read.error);
      }
      var lines := Split(read.value, '\n');
      for i := 0 to |lines|
        invariant urls == args + Filter(lines[..i], NonEmpty)
      {
        assert lines[..i + 1][..i] == lines[..i];
        if lines[i] != "" {
          urls := urls + [lines[i]];
        }
      }
      assert lines[..|lines|] == lines;
    }
    urls := Dedup(urls);
    r := Ok(urls);
  }

  /** A URL given both on the command line and in the file is fetched once,
      at its command-line position. */
  lemma CommandLineFirst(args: seq<string>, content: string, u: string)
    requires u in args
    ensures FirstIndex(args + FileURLs(content), u) == FirstIndex(args, u)
  {
    var k := FirstIndex(args, u);
    var s := args + FileURLs(content);
    assert s[k] == u;
    assert s[..k] == args[..k];
    FirstIndexAt(s, u, k);
  }

  /** The first index of `x` is the index where `x` occurs with no earlier
      occurrence. */
  lemma {:induction false} FirstIndexAt(s: seq<string>, x: string, k: nat)
    requires k < |s| && s[k] == x && x !in s[..k]
    ensures FirstIndex(s, x) == k
  {
    var j := FirstIndex(s, x);
    assert s[..j + 1][j] == x;
  }
}
