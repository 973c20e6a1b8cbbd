/** Lexical path handling of Go's path/filepath on Unix, as far as the
    commands use it: Clean and Join with "/" as the separator. */
module FilePath {
  import opened Strings

  predicate Rooted(p: string) { |p| > 0 && p[0] == '/' }

  /** One element of Clean's scan: empty elements and "." vanish, ".."
      removes the element before it unless that is a ".." too, is dropped
      at the root, and is kept at the front of a relative path. */
  function CleanStep(stack: seq<string>, elem: string, rooted: bool): seq<string> {
    if elem == "" || elem == "." then stack
    else if elem == ".." then
      if stack != [] && stack[|stack| - 1] != ".." then stack[..|stack| - 1]
      else if rooted then stack
      else stack + [".."]
    else stack + [elem]
  }

  /** The elements of the path after the scan, element by element. */
  function CleanElems(elems: seq<string>, rooted: bool): seq<string> {
    if elems == [] then []
    else CleanStep(CleanElems(elems[..|elems| - 1], rooted), elems[|elems| - 1], rooted)
  }

  /** filepath.Clean: the shortest lexically equivalent path, "." for an
      empty result. */
  function Clean(p: string): string {
    var rooted := Rooted(p);
    var body := Join(CleanElems(Split(p, '/'), rooted), "/");
    if rooted then "/" + body else if body == "" then "." else body
  }

  /** filepath.Join of two elements: the non-empty ones joined by "/" and
      cleaned, "" when both are empty. */
  function JoinPath(dir: string, file: string): string {
    if dir != "" then Clean(dir + "/" + file)
    else if file != "" then Clean(file)
    else ""
  }

  /** `file` below the cleaned directory `c`: "." adds nothing, the root
      adds no second slash. */
  function UnderDir(c: string, file: string): string {
    if c == "." then file else if c == "/" then "/" + file else c + "/" + file
  }

  /** A path element that Clean keeps as it is. */
  predicate IsName(e: string) { e != "" && e != "." && e != ".." && '/' !in e }

  /** A relative path made of names only, such as the paths git reports. */
  predicate IsNamePath(p: string) {
    forall i :: 0 <= i < |Split(p, '/')| ==> IsName(Split(p, '/')[i])
  }

  /** The shape of Clean's elements: no empty element and no ".", no
      slash, and ".." only at the front of a relative path. */
  predicate CleanForm(stack: seq<string>, rooted: bool) {
    forall i :: 0 <= i < |stack| ==>
      && stack[i] != "" && stack[i] != "." && '/' !in stack[i]
      && (stack[i] == ".." ==> !rooted && forall j :: 0 <= j < i ==> stack[j] == "..")
  }

  lemma CleanStepForm(stack: seq<string>, elem: string, rooted: bool)
    requires CleanForm(stack, rooted) && '/' !in elem
    ensures CleanForm(CleanStep(stack, elem, rooted), rooted)
  {
    if elem == ".." && stack != [] && stack[|stack| - 1] != ".." {
      assert forall i :: 0 <= i < |stack| - 1 ==> stack[..|stack| - 1][i] == stack[i];
    }
  }

  /** Clean's elements always have the clean shape. */
  lemma {:induction false} CleanElemsForm(elems: seq<string>, rooted: bool)
    requires forall i :: 0 <= i < |elems| ==> '/' !in elems[i]
    ensures CleanForm(CleanElems(elems, rooted), rooted)
  {
    if elems != [] {
      var init := elems[..|elems| - 1];
      assert forall i :: 0 <= i < |init| ==> init[i] == elems[i];
      CleanElemsForm(init, rooted);
      CleanStepForm(CleanElems(init, rooted), elems[|elems| - 1], rooted);
    }
  }

  /** Elements already in the clean shape pass the scan unchanged. */
  lemma {:induction false} CleanElemsOfForm(stack: seq<string>, rooted: bool)
    requires CleanForm(stack, rooted)
    ensures CleanElems(stack, rooted) == stack
  {
    if stack != [] {
      var init := stack[..|stack| - 1];
      assert forall i :: 0 <= i < |init| ==> init[i] == stack[i];
      CleanElemsOfForm(init, rooted);
      assert init + [stack[|stack| - 1]] == stack;
    }
  }

  /** Names appended to the path are appended to its clean elements. */
  lemma {:induction false} CleanElemsNames(a: seq<string>, names: seq<string>, rooted: bool)
    requires forall i :: 0 <= i < |names| ==> IsName(names[i])
    ensures CleanElems(a + names, rooted) == CleanElems(a, rooted) + names
  {
    if names == [] {
      assert a + names == a;
    } else {
      var init := names[..|names| - 1];
      assert (a + names)[..|a + names| - 1] == a + init;
      CleanElemsNames(a, init, rooted);
      assert CleanElems(a, rooted) + init + [names[|names| - 1]] == CleanElems(a, rooted) + names;
    }
  }

  /** A leading empty element, the one before a root slash, changes nothing. */
  lemma {:induction false} CleanElemsLeadingEmpty(elems: seq<string>, rooted: bool)
    ensures CleanElems([""] + elems, rooted) == CleanElems(elems, rooted)
  {
    if elems != [] {
      var init := elems[..|elems| - 1];
      assert ([""] + elems)[..|elems|] == [""] + init;
      CleanElemsLeadingEmpty(init, rooted);
    } else {
      assert [""] + elems == [""];
      assert [""][..0] == [];
    }
  }

  /** Splitting at a separator splits into the pieces of both sides. */
  lemma {:induction false} SplitAppend(a: string, sep: char, b: string)
    ensures Split(a + [sep] + b, sep) == Split(a, sep) + Split(b, sep)
    decreases |a|
  {
    if a == [] {
      SplitFirst(a, sep, b);
    } else {
      assert (a + [sep] + b)[0] == a[0];
      assert (a + [sep] + b)[1..] == a[1..] + [sep] + b;
      SplitAppend(a[1..], sep, b);
    }
  }

  /** A join of pieces that start with a non-empty one starts with it. */
  lemma JoinStart(parts: seq<string>, sep: string)
    requires |parts| >= 1
    ensures |Join(parts, sep)| >= |parts[0]| && Join(parts, sep)[..|parts[0]|] == parts[0]
  {
  }

  /** The string of clean elements, with the root when there is one. */
  function Render(stack: seq<string>, rooted: bool): string {
    var body := Join(stack, "/");
    if rooted then "/" + body else if body == "" then "." else body
  }

  lemma CleanIsRender(p: string)
    ensures Clean(p) == Render(CleanElems(Split(p, '/'), Rooted(p)), Rooted(p))
  {
  }

  lemma SplitRoot()
    ensures Split("/", '/') == ["", ""]
  {
    assert "/"[1..] == "";
  }

  lemma SplitDot()
    ensures Split(".", '/') == ["."]
  {
    assert "."[1..] == "";
    assert Split("", '/') == [""];
    assert ['.'] + "" == ".";
  }

  lemma CleanElemsEmpties(rooted: bool)
    ensures CleanElems([""], rooted) == [] && CleanElems(["", ""], rooted) == []
  {
    assert [""][..0] == [];
    assert ["", ""][..1] == [""];
  }

  /** No elements render as "/" or ".", and both clean to no elements. */
  lemma RenderNothing(rooted: bool)
    ensures Rooted(Render([], rooted)) == rooted
    ensures CleanElems(Split(Render([], rooted), '/'), rooted) == []
  {
    if rooted {
      SplitRoot();
      CleanElemsEmpties(rooted);
    } else {
      SplitDot();
      assert ["."][..0] == [];
    }
  }

  /** The join of clean elements starts with the first of them. */
  lemma JoinOfForm(stack: seq<string>, rooted: bool)
    requires stack != [] && CleanForm(stack, rooted)
    ensures Join(stack, "/") != "" && Join(stack, "/")[0] == stack[0][0] && Join(stack, "/")[0] != '/'
    ensures Join(stack, "/") != "."
  {
    JoinStart(stack, "/");
    if |stack| > 1 {
      assert |Join(stack, "/")| >= |stack[0]| + 1;
    }
  }

  lemma RenderSome(stack: seq<string>, rooted: bool)
    requires stack != [] && CleanForm(stack, rooted)
    ensures Rooted(Render(stack, rooted)) == rooted
    ensures CleanElems(Split(Render(stack, rooted), '/'), rooted) == stack
  {
    SplitJoin(stack, '/');
    CleanElemsOfForm(stack, rooted);
    JoinOfForm(stack, rooted);
    if rooted {
      SplitRooted(Join(stack, "/"));
      CleanElemsLeadingEmpty(stack, rooted);
    }
  }

  /** A root slash adds an empty first element. */
  lemma SplitRooted(body: string)
    ensures Split("/" + body, '/') == [""] + Split(body, '/')
  {
    assert "/" + body == "" + ['/'] + body;
    SplitFirst("", '/', body);
  }

  /** Rendering clean elements and cleaning again gives the same elements
      and the same root. */
  lemma RenderReparses(stack: seq<string>, rooted: bool)
    requires CleanForm(stack, rooted)
    ensures Rooted(Render(stack, rooted)) == rooted
    ensures CleanElems(Split(Render(stack, rooted), '/'), rooted) == stack
  {
    if stack == [] {
      RenderNothing(rooted);
    } else {
      RenderSome(stack, rooted);
    }
  }

  /** Clean is idempotent: a clean path stays as it is. */
  lemma CleanIdempotent(p: string)
    ensures Clean(Clean(p)) == Clean(p)
  {
    var rooted := Rooted(p);
    var stack := CleanElems(Split(p, '/'), rooted);
    CleanElemsForm(Split(p, '/'), rooted);
    RenderReparses(stack, rooted);
    CleanIsRender(Clean(p));
  }

  /** A trailing slash does not change a cleaned path. */
  lemma CleanTrailingSlash(p: string)
    requires p != ""
    ensures Clean(p + "/") == Clean(p)
  {
    assert p + "/" == p + ['/'] + "";
    SplitAppend(p, '/', "");
    assert (Split(p, '/') + [""])[..|Split(p, '/')|] == Split(p, '/');
  }

  /** A path of names is non-empty, relative, cleans to itself and is
      the join of its names. */
  lemma NamePathFacts(file: string)
    requires IsNamePath(file)
    ensures file != "" && !Rooted(file) && Join(Split(file, '/'), "/") == file
    ensures Clean(file) == file
  {
    var names := Split(file, '/');
    JoinSplit(file, '/');
    JoinStart(names, "/");
    assert names[0][0] == file[0];
    CleanElemsNames([], names, false);
    assert [] + names == names;
  }

  /** Rendering clean elements followed by names. */
  lemma RenderNames(stack: seq<string>, names: seq<string>, rooted: bool)
    requires CleanForm(stack, rooted) && names != []
    requires forall i :: 0 <= i < |names| ==> IsName(names[i])
    ensures var c := Render(stack, rooted); var f := Join(names, "/");
      Render(stack + names, rooted) == if c == "." then f else if c == "/" then "/" + f else c + "/" + f
  {
    if stack == [] {
      assert stack + names == names;
      RenderOnlyNames(names, rooted);
    } else {
      RenderMoreNames(stack, names, rooted);
    }
  }

  lemma RenderOnlyNames(names: seq<string>, rooted: bool)
    requires names != [] && forall i :: 0 <= i < |names| ==> IsName(names[i])
    ensures Render(names, rooted) == if rooted then "/" + Join(names, "/") else Join(names, "/")
    ensures Render([], rooted) == if rooted then "/" else "."
  {
    JoinStart(names, "/");
    assert Join(names, "/") != "";
  }

  lemma RenderMoreNames(stack: seq<string>, names: seq<string>, rooted: bool)
    requires stack != [] && CleanForm(stack, rooted) && names != []
    ensures Render(stack, rooted) != "." && Render(stack, rooted) != "/"
    ensures Render(stack + names, rooted) == Render(stack, rooted) + "/" + Join(names, "/")
  {
    JoinOfForm(stack, rooted);
    JoinAt(stack + names, "/", |stack|);
    assert (stack + names)[..|stack|] == stack && (stack + names)[|stack|..] == names;
    var body := Join(stack, "/");
    if rooted {
      assert |"/" + body| > 1;
    }
  }

  lemma JoinPathElems(dir: string, file: string)
    requires dir != "" && IsNamePath(file)
    ensures JoinPath(dir, file) == Render(CleanElems(Split(dir, '/'), Rooted(dir)) + Split(file, '/'), Rooted(dir))
  {
    SplitAppend(dir, '/', file);
    CleanElemsNames(Split(dir, '/'), Split(file, '/'), Rooted(dir));
    assert Rooted(dir + "/" + file) == Rooted(dir);
  }

  /** Joining a directory with a path of names: the path itself when the
      directory cleans to ".", below the root when it cleans to "/", and
      otherwise the cleaned directory, a slash and the path. */
  lemma JoinNamePath(dir: string, file: string)
    requires IsNamePath(file)
    ensures JoinPath(dir, file) == UnderDir(Clean(dir), file)
  {
    NamePathFacts(file);
    if dir == "" {
      SplitDot();
      assert Split(dir, '/') == [""] && [""][..0] == [];
    } else {
      var rooted := Rooted(dir);
      var stack := CleanElems(Split(dir, '/'), rooted);
      CleanElemsForm(Split(dir, '/'), rooted);
      JoinPathElems(dir, file);
      RenderNames(stack, Split(file, '/'), rooted);
    }
  }

  /** The two spellings of a directory argument that filepath.Join
      normalises: "dir/" joins like "dir", and "." joins to the bare path. */
  lemma JoinDirSpellings(dir: string, file: string)
    requires dir != "" && IsNamePath(file)
    ensures JoinPath(dir + "/", file) == JoinPath(dir, file)
    ensures JoinPath(".", file) == file
  {
    CleanTrailingSlash(dir);
    JoinNamePath(dir + "/", file);
    JoinNamePath(dir, file);
    JoinNamePath(".", file);
    SplitDot();
    assert ["."][..0] == [];
  }
}
