/** Helm-hardcoded (cmd/helm-hardcoded/main.go): the lines of Helm chart
    templates that contain a given value outside template actions. */
module Helm {
  import opened Seqs
  import opened Strings

  /** formatLines (main.go:53-58): the singular only for exactly one. */
  function FormatLines(count: int): (r: string)
    ensures r == "line" <==> count == 1
    ensures r == "line" || r == "lines"
  {
    if count == 1 then "line" else "lines"
  }

  /** removeFirstStringBeforeSlash (main.go:60-66): strings.SplitN(path, "/", 2)
      has a second part exactly when the path contains a slash. */
  function RemoveFirstStringBeforeSlash(path: string): (r: string)
    ensures '/' !in path ==> r == path
    ensures '/' in path ==>
      var k := FirstIndex(path, '/');
      r == path[k + 1..] && path == path[..k] + "/" + r
  {
    if '/' in path then path[FirstIndex(path, '/') + 1..] else path
  }

  /** The template-action test of main.go:73 on the trimmed line. */
  predicate IsTemplateLine(line: string) {
    var t := TrimSpace(line);
    Contains(t, "{{") && Contains(t, "}}")
  }

  /** A line is reported when it is no template line and its trimmed form
      contains the value. */
  predicate Reported(line: string, value: string) {
    !IsTemplateLine(line) && Contains(TrimSpace(line), value)
  }

  /** linesWithHardcodedValue (main.go:68-81). */
  method LinesWithHardcodedValue(templateContent: string, value: string) returns (results: seq<string>)
    ensures results == Filter(Split(templateContent, '\n'), (line: string) => Reported(line, value))
  {
    results := [];
    var lines := Split(templateContent, '\n');
    for i := 0 to |lines|
      invariant results == Filter(lines[..i], (line: string) => Reported(line, value))
    {
      assert lines[..i + 1][..i] == lines[..i];
      var line := lines[i];
      var trimmedLine := TrimSpace(line);
      if Contains(trimmedLine, "{{") && Contains(trimmedLine, "}}") {
        continue;
      }
      if Contains(trimmedLine, value) {
        results := results + [line];
      }
    }
    assert lines[..|lines|] == lines;
  }

  /** The reported lines are the untrimmed lines of the template, in order,
      and a line is reported exactly when it is no template line and
      contains the value. */
  lemma ReportedLines(templateContent: string, value: string)
    ensures var lines := Split(templateContent, '\n');
      var r := Filter(lines, (line: string) => Reported(line, value));
      && IsSubsequence(r, lines)
      && forall line :: line in r <==> line in lines && !IsTemplateLine(line) && Contains(TrimSpace(line), value)
  {
    var lines := Split(templateContent, '\n');
    FilterIsSubsequence(lines, (line: string) => Reported(line, value));
    FilterMembers(lines, (line: string) => Reported(line, value));
  }

  /** Every string contains the empty string, so an empty value reports
      every line that is no template line. */
  lemma EmptyValueMatchesAll(line: string)
    ensures Reported(line, "") <==> !IsTemplateLine(line)
  {
    assert HasPrefix(TrimSpace(line), "");
  }

  /** A template holds its path and its data. */
  datatype Template = Template(path: string, data: string)

  /** One finding per template with at least one reported line: the path
      printed for it and its lines. */
  datatype Finding = Finding(path: string, lines: seq<string>)

  function FindingsOf(templates: seq<Template>, value: string): seq<Finding> {
    if templates == [] then []
    else
      var t := templates[|templates| - 1];
      var lines := Filter(Split(t.data, '\n'), (line: string) => Reported(line, value));
      FindingsOf(templates[..|templates| - 1], value)
        + (if |lines| > 0 then [Finding(RemoveFirstStringBeforeSlash(t.path), lines)] else [])
  }

  /** The template loop of main.go:36-50: templates without a reported line
      print nothing. */
  method Findings(templates: seq<Template>, value: string) returns (r: seq<Finding>)
    ensures r == FindingsOf(templates, value)
  {
    r := [];
    for i := 0 to |templates|
      invariant r == FindingsOf(templates[..i], value)
    {
      assert templates[..i + 1][..i] == templates[..i];
      var tpl := templates[i];
      var lines := LinesWithHardcodedValue(tpl.data, value);
      var n := |lines|;
      if n > 0 {
        r := r + [Finding(RemoveFirstStringBeforeSlash(tpl.path), lines)];
      }
    }
    assert templates[..|templates|] == templates;
  }

  /** Every finding has at least one line, none of them a template line. */
  lemma {:induction false} FindingsNonEmpty(templates: seq<Template>, value: string)
    ensures forall f :: f in FindingsOf(templates, value) ==>
      |f.lines| > 0 && forall l :: l in f.lines ==> !IsTemplateLine(l)
  {
    if templates != [] {
      FindingsNonEmpty(templates[..|templates| - 1], value);
    }
  }
}
