/** Cncf-projects (cmd/cncf-projects/cncf-projects.go): how many CNCF
    projects have each language as their top language, most used first,
    and the number of projects. The percentage column is floating point
    and is not part of this model; a printed row is its count and
    language. */
module CncfProjects {
  import opened Seqs
  import opened Sorting
  import opened SortMap
  import opened Cncf

  /** The number of projects whose top language is `lang`. */
  function NumberWith(projects: seq<Project>, lang: string): nat {
    if projects == [] then 0
    else NumberWith(projects[..|projects| - 1], lang) + (if projects[|projects| - 1].topLanguage == lang then 1 else 0)
  }

  /** The number of projects whose top language is in `langs`. */
  function NumberIn(projects: seq<Project>, langs: set<string>): nat {
    if projects == [] then 0
    else NumberIn(projects[..|projects| - 1], langs) + (if projects[|projects| - 1].topLanguage in langs then 1 else 0)
  }

  /** Some project has `lang` as its top language. */
  predicate Occurs(projects: seq<Project>, lang: string) {
    exists i :: 0 <= i < |projects| && projects[i].topLanguage == lang
  }

  /** The counting loop (cncf-projects.go:33-44): a language seen for the
      first time is stored with 1, a known one is incremented. The empty
      language of a repository without code counts like any other. */
  method ProjectsPerLanguage(projects: seq<Project>) returns (m: map<string, int>)
    ensures forall l :: l in m <==> Occurs(projects, l)
    ensures forall l :: l in m ==> m[l] == NumberWith(projects, l) && m[l] >= 1
  {
    m := map[];
    for i := 0 to |projects|
      invariant forall l :: l in m <==> Occurs(projects[..i], l)
      invariant forall l :: l in m ==> m[l] == NumberWith(projects[..i], l) && m[l] >= 1
    {
      var lang := projects[i].topLanguage;
      assert projects[..i + 1][..i] == projects[..i];
      assert projects[..i + 1][i] == projects[i];
      OccursSnoc(projects, i);
      if lang !in m {
        m := m[lang := 1];
        NumberWithAbsent(projects[..i], lang);
      } else {
        m := m[lang := m[lang] + 1];
      }
    }
    assert projects[..|projects|] == projects;
  }

  lemma OccursSnoc(projects: seq<Project>, i: nat)
    requires i < |projects|
    ensures forall l :: Occurs(projects[..i + 1], l) <==> Occurs(projects[..i], l) || projects[i].topLanguage == l
  {
    forall l | Occurs(projects[..i + 1], l) && projects[i].topLanguage != l ensures Occurs(projects[..i], l) {
      var k :| 0 <= k < i + 1 && projects[..i + 1][k].topLanguage == l;
      assert projects[..i][k].topLanguage == l;
    }
    forall l | Occurs(projects[..i], l) ensures Occurs(projects[..i + 1], l) {
      var k :| 0 <= k < i && projects[..i][k].topLanguage == l;
      assert projects[..i + 1][k].topLanguage == l;
    }
    assert projects[..i + 1][i] == projects[i];
  }

  /** A language that does not occur is counted zero times. */
  lemma {:induction false} NumberWithAbsent(projects: seq<Project>, lang: string)
    requires !Occurs(projects, lang)
    ensures NumberWith(projects, lang) == 0
  {
    if projects != [] {
      var init := projects[..|projects| - 1];
      assert forall k :: 0 <= k < |init| ==> init[k] == projects[k];
      NumberWithAbsent(init, lang);
    }
  }

  /** Adding a new language adds its projects. */
  lemma {:induction false} NumberInAdd(projects: seq<Project>, langs: set<string>, lang: string)
    requires lang !in langs
    ensures NumberIn(projects, langs + {lang}) == NumberIn(projects, langs) + NumberWith(projects, lang)
  {
    if projects != [] {
      NumberInAdd(projects[..|projects| - 1], langs, lang);
    }
  }

  /** When all languages are in `langs`, every project is counted. */
  lemma {:induction false} NumberInAll(projects: seq<Project>, langs: set<string>)
    requires forall i :: 0 <= i < |projects| ==> projects[i].topLanguage in langs
    ensures NumberIn(projects, langs) == |projects|
  {
    if projects != [] {
      var init := projects[..|projects| - 1];
      assert forall i :: 0 <= i < |init| ==> init[i] == projects[i];
      NumberInAll(init, langs);
    }
  }

  function Value(p: Pair): int { p.Value }

  function KeySet(pairs: seq<Pair>): set<string> {
    set i | 0 <= i < |pairs| :: pairs[i].Key
  }

  /** Summing the counts of distinct languages counts the projects with
      one of those languages. */
  lemma {:induction false} SumOfCounts(projects: seq<Project>, pairs: seq<Pair>)
    requires forall i :: 0 <= i < |pairs| ==> pairs[i].Value == NumberWith(projects, pairs[i].Key)
    requires forall i, j :: 0 <= i < j < |pairs| ==> pairs[i].Key != pairs[j].Key
    ensures SumOf(pairs, Value) == NumberIn(projects, KeySet(pairs))
  {
    if pairs == [] {
      assert KeySet(pairs) == {};
      NumberInEmpty(projects);
    } else {
      var init := pairs[..|pairs| - 1];
      var last := pairs[|pairs| - 1];
      assert forall i :: 0 <= i < |init| ==> init[i] == pairs[i];
      SumOfCounts(projects, init);
      assert KeySet(pairs) == KeySet(init) + {last.Key} by {
        forall k | k in KeySet(pairs) ensures k in KeySet(init) + {last.Key} {
          var i :| 0 <= i < |pairs| && pairs[i].Key == k;
          if i < |init| {
            assert init[i].Key == k;
          }
        }
        forall k | k in KeySet(init) ensures k in KeySet(pairs) {
          var i :| 0 <= i < |init| && init[i].Key == k;
          assert pairs[i].Key == k;
        }
      }
      NumberInAdd(projects, KeySet(init), last.Key);
    }
  }

  lemma {:induction false} NumberInEmpty(projects: seq<Project>)
    ensures NumberIn(projects, {}) == 0
  {
    if projects != [] {
      NumberInEmpty(projects[..|projects| - 1]);
    }
  }

  /** The summing loop (cncf-projects.go:46-49) over the sorted entries. */
  method TotalProjects(pairs: seq<Pair>) returns (total: int)
    ensures total == SumOf(pairs, Value)
  {
    total := 0;
    for i := 0 to |pairs|
      invariant total == SumOf(pairs[..i], Value)
    {
      assert pairs[..i + 1][..i] == pairs[..i];
      total := total + pairs[i].Value;
    }
    assert pairs[..|pairs|] == pairs;
  }

  /** The sum of the stored counts is the number of projects. */
  lemma TotalIsNumberOfProjects(projects: seq<Project>, m: map<string, int>, pairs: seq<Pair>)
    requires forall l :: l in m <==> Occurs(projects, l)
    requires forall l :: l in m ==> m[l] == NumberWith(projects, l)
    requires EntriesOf(pairs, m)
    ensures SumOf(pairs, Value) == |projects|
  {
    SumOfCounts(projects, pairs);
    EntriesOfComplete(pairs, m);
    forall i | 0 <= i < |projects| ensures projects[i].topLanguage in KeySet(pairs) {
      var l := projects[i].topLanguage;
      assert Occurs(projects, l);
      var j :| 0 <= j < |pairs| && pairs[j] == Pair(l, m[l]);
      assert pairs[j].Key == l;
    }
    NumberInAll(projects, KeySet(pairs));
  }

  /** main after cncf.CSV (cncf-projects.go:32-55): the rows printed, most
      projects first, and the total printed after "---". */
  method Report(projects: seq<Project>) returns (rows: seq<Pair>, total: int)
    ensures total == |projects|
    ensures SortedBy(rows, ValueGe)
    ensures forall i :: 0 <= i < |rows| ==> rows[i].Value == NumberWith(projects, rows[i].Key) && rows[i].Value >= 1
    ensures forall i, j :: 0 <= i < j < |rows| ==> rows[i].Key != rows[j].Key
    ensures forall i :: 0 <= i < |projects| ==> exists j :: 0 <= j < |rows| && rows[j].Key == projects[i].topLanguage
  {
    var m := ProjectsPerLanguage(projects);
    var ascending := SortMapByValue(m, false);
    total := TotalProjects(ascending);
    TotalIsNumberOfProjects(projects, m, ascending);
    rows := SortMapByValue(m, true);
    EntriesOfComplete(rows, m);
    forall i | 0 <= i < |projects| ensures exists j :: 0 <= j < |rows| && rows[j].Key == projects[i].topLanguage {
      var l := projects[i].topLanguage;
      assert Occurs(projects, l);
      var j :| 0 <= j < |rows| && rows[j] == Pair(l, m[l]);
    }
  }
}
