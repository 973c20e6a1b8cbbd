/** Statistics of a user's GitHub repositories (ghstats/ghstats.go): the
    ordering by a chosen column and the printed table with its totals.
    Fetching the statistics from the GitHub API is not part of this model.
    A push time is an instant on one integer time line. */
module GhStats {
  import opened Results
  import opened Seqs
  import opened Strings
  import opened Sorting
  import opened Numerals

  /** Stat (ghstats.go:16-23). */
  datatype Stat = Stat(
    repository: string,
    pushed: int,
    stars: int,
    uniqueVisitors: int,
    uniqueCloners: int,
    releaseDownloads: int)

  /** The columns Sort accepts: 1 Repository, 2 Pushed, 3 Stars,
      4 UniqueVisitors, 5 UniqueCloners, 6 ReleaseDownloads. */
  predicate ValidColumn(column: int) { 1 <= column <= 6 }

  /** The counter shown in columns 3 to 6. */
  function Count(column: int, s: Stat): int
    requires 3 <= column <= 6
  {
    if column == 3 then s.stars
    else if column == 4 then s.uniqueVisitors
    else if column == 5 then s.uniqueCloners
    else s.releaseDownloads
  }

  /** The `less` closure of Sort (ghstats.go:107-140): the chosen column
      decides when it differs, the repository name breaks the tie. */
  predicate Less(column: int, x: Stat, y: Stat)
    requires ValidColumn(column)
  {
    if column == 1 && x.repository != y.repository then LexLess(x.repository, y.repository)
    else if column == 2 && x.pushed != y.pushed then x.pushed > y.pushed
    else if 3 <= column && Count(column, x) != Count(column, y) then Count(column, x) > Count(column, y)
    else x.repository != y.repository && LexLess(x.repository, y.repository)
  }

  /** `x` may come before `y`: `y` is not less than `x`. */
  predicate Before(column: int, x: Stat, y: Stat) {
    ValidColumn(column) && !Less(column, y, x)
  }

  /** The order of each column in its own terms: column 1 by name
      ascending, column 2 newest push first, columns 3 to 6 largest count
      first, ties by name ascending. */
  lemma LessByColumn(column: int, x: Stat, y: Stat)
    requires ValidColumn(column)
    ensures column == 1 ==> (Less(column, x, y) <==> LexLess(x.repository, y.repository))
    ensures column == 2 ==> (Less(column, x, y) <==>
      x.pushed > y.pushed || (x.pushed == y.pushed && LexLess(x.repository, y.repository)))
    ensures 3 <= column ==> (Less(column, x, y) <==>
      Count(column, x) > Count(column, y) || (Count(column, x) == Count(column, y) && LexLess(x.repository, y.repository)))
  {
    if x.repository == y.repository {
      LexLessIrreflexive(x.repository);
    }
  }

  /** Less is a strict weak order: irreflexive, and its complement is a
      total preorder, so sort.Sort is given a consistent comparator. */
  lemma LessIsStrictWeakOrder(column: int)
    requires ValidColumn(column)
    ensures forall x :: !Less(column, x, x)
    ensures TotalPreorder((x: Stat, y: Stat) => Before(column, x, y))
  {
    forall x, y ensures Before(column, x, y) || Before(column, y, x) {
      LessByColumn(column, x, y);
      LessByColumn(column, y, x);
      if x.repository != y.repository {
        LexLessTotal(x.repository, y.repository);
      }
      if LexLess(x.repository, y.repository) && LexLess(y.repository, x.repository) {
        LexLessTransitive(x.repository, y.repository, x.repository);
        LexLessIrreflexive(x.repository);
      }
    }
    forall x, y, z | Before(column, x, y) && Before(column, y, z) ensures Before(column, x, z) {
      BeforeTransitive(column, x, y, z);
    }
  }

  lemma BeforeTransitive(column: int, x: Stat, y: Stat, z: Stat)
    requires ValidColumn(column) && Before(column, x, y) && Before(column, y, z)
    ensures Before(column, x, z)
  {
    LessByColumn(column, x, y);
    LessByColumn(column, y, z);
    LessByColumn(column, z, x);
    LessByColumn(column, y, x);
    LessByColumn(column, z, y);
    if LexLess(z.repository, x.repository) {
      if x.repository != y.repository {
        LexLessTotal(x.repository, y.repository);
        if LexLess(x.repository, y.repository) {
          LexLessTransitive(z.repository, x.repository, y.repository);
        }
      }
      if y.repository != z.repository {
        LexLessTotal(y.repository, z.repository);
        if LexLess(y.repository, z.repository) {
          LexLessTransitive(y.repository, z.repository, x.repository);
        }
      }
      if x.repository == y.repository && y.repository == z.repository {
        LexLessIrreflexive(x.repository);
      }
    }
  }

  /** The message of log.Fatalf for an unknown column (ghstats.go:134). */
  function FatalColumn(column: int): string {
    "can't sort by column " + FormatInt(column, 10)
  }

  /** Stats.Sort (ghstats.go:106-141), sort.Sort over the slice in place.
      With an unknown column the comparator is fatal as soon as it runs,
      which is whenever two or more stats are to be ordered; the program
      then ends with nothing reordered. */
  method Sort(stats: array<Stat>, column: int) returns (fatal: Option<string>)
    modifies stats
    ensures !ValidColumn(column) && stats.Length >= 2 ==> fatal == Some(FatalColumn(column))
    ensures ValidColumn(column) || stats.Length < 2 ==> fatal == None
    ensures !ValidColumn(column) ==> stats[..] == old(stats[..])
    ensures ValidColumn(column) ==> multiset(stats[..]) == multiset(old(stats[..]))
    ensures ValidColumn(column) ==> SortedBy(stats[..], (x: Stat, y: Stat) => Before(column, x, y))
  {
    if !ValidColumn(column) {
      if stats.Length >= 2 {
        return Some(FatalColumn(column));
      }
      return None;
    }
    LessIsStrictWeakOrder(column);
    var sorted := SortBy(stats[..], (x: Stat, y: Stat) => Before(column, x, y));
    for i := 0 to stats.Length
      invariant forall k :: 0 <= k < i ==> stats[k] == sorted[k]
    {
      stats[i] := sorted[i];
    }
    assert stats[..] == sorted;
    fatal := None;
  }

  /** What Sort leaves, column by column: in a sorted slice no stat is
      less than one before it. */
  lemma SortedByColumn(s: seq<Stat>, column: int, i: nat, j: nat)
    requires ValidColumn(column) && SortedBy(s, (x: Stat, y: Stat) => Before(column, x, y))
    requires i < j < |s|
    ensures column == 1 ==> !LexLess(s[j].repository, s[i].repository)
    ensures column == 2 ==> s[i].pushed >= s[j].pushed
    ensures 3 <= column ==> Count(column, s[i]) >= Count(column, s[j])
    ensures column != 1 && Key(column, s[i]) == Key(column, s[j]) ==> !LexLess(s[j].repository, s[i].repository)
  {
    assert Before(column, s[i], s[j]);
    LessByColumn(column, s[j], s[i]);
  }

  /** The value of columns 2 to 6. */
  function Key(column: int, s: Stat): int
    requires 2 <= column <= 6
  {
    if column == 2 then s.pushed else Count(column, s)
  }

  /** How many stats Print shows: `topN` when it is between 0 and the
      number of stats, all of them otherwise. */
  function Shown(n: nat, topN: int): (k: nat)
    ensures k <= n
  {
    if 0 <= topN <= n then topN else n
  }

  lemma ShownCases(n: nat, topN: int)
    ensures topN == 0 ==> Shown(n, topN) == 0
    ensures topN < 0 || topN >= n ==> Shown(n, topN) == n
    ensures 0 <= topN <= n ==> Shown(n, topN) == topN
  {
  }

  /** The four sums of the footer. */
  datatype Totals = Totals(stars: int, visitors: int, cloners: int, downloads: int)

  function Stars(s: Stat): int { s.stars }
  function Visitors(s: Stat): int { s.uniqueVisitors }
  function Cloners(s: Stat): int { s.uniqueCloners }
  function Downloads(s: Stat): int { s.releaseDownloads }

  function TotalsOf(stats: seq<Stat>): Totals {
    Totals(SumOf(stats, Stars), SumOf(stats, Visitors), SumOf(stats, Cloners), SumOf(stats, Downloads))
  }

  const Header: seq<string> := ["Repository", "Pushed", "Stars", "Visitors (2w)", "Cloners (2w)", "Release downloads"]
  const Rule: seq<string> := ["----------", "------", "-----", "-------------", "------------", "-----------------"]
  const FooterRule: seq<string> := ["          ", "      ", "-----", "-------------", "------------", "-----------------"]

  /** A row of the table; `day` is what Format("2006-01-02") gives for a
      push time. */
  function RowOf(s: Stat, day: int -> string): seq<string> {
    [s.repository, day(s.pushed), FormatInt(s.stars, 10), FormatInt(s.uniqueVisitors, 10),
     FormatInt(s.uniqueCloners, 10), FormatInt(s.releaseDownloads, 10)]
  }

  function TotalsRow(t: Totals): seq<string> {
    ["", "", FormatInt(t.stars, 10), FormatInt(t.visitors, 10), FormatInt(t.cloners, 10), FormatInt(t.downloads, 10)]
  }

  /** The printed table: header, one row per stat, and the footer. */
  function TableOf(printed: seq<Stat>, total: Totals, day: int -> string): (table: seq<seq<string>>)
    ensures |table| == |printed| + 4
    ensures table[..2] == [Header, Rule]
    ensures forall i :: 0 <= i < |printed| ==> table[i + 2] == RowOf(printed[i], day)
    ensures table[|table| - 2..] == [FooterRule, TotalsRow(total)]
  {
    [Header, Rule] + Map(printed, (s: Stat) => RowOf(s, day)) + [FooterRule, TotalsRow(total)]
  }

  /** Stats.Print (ghstats.go:152-181): the header, one row per stat until
      `n` reaches `topN`, then the footer with the totals of the rows
      shown. The table is returned as its rows of cells. */
  method Print(stats: seq<Stat>, topN: int, day: int -> string) returns (table: seq<seq<string>>, total: Totals)
    ensures total == TotalsOf(stats[..Shown(|stats|, topN)])
    ensures table == TableOf(stats[..Shown(|stats|, topN)], total, day)
  {
    var n := 0;
    total := Totals(0, 0, 0, 0);
    while n < |stats| && n != topN
      invariant 0 <= n <= |stats|
      invariant topN < 0 || n <= topN
      invariant total == TotalsOf(stats[..n])
    {
      var s := stats[n];
      TotalsSnoc(stats, n);
      n := n + 1;
      total := Totals(total.stars + s.stars, total.visitors + s.uniqueVisitors,
                      total.cloners + s.uniqueCloners, total.downloads + s.releaseDownloads);
    }
    assert n == Shown(|stats|, topN);
    table := TableOf(stats[..n], total, day);
  }

  /** One more stat adds its counters to the totals. */
  lemma TotalsSnoc(stats: seq<Stat>, n: nat)
    requires n < |stats|
    ensures var (t, s) := (TotalsOf(stats[..n]), stats[n]);
      TotalsOf(stats[..n + 1]) == Totals(t.stars + s.stars, t.visitors + s.uniqueVisitors,
                                         t.cloners + s.uniqueCloners, t.downloads + s.releaseDownloads)
  {
    assert stats[..n + 1][..n] == stats[..n];
  }

  /** The footer sums the shown rows and never more than the whole list:
      what is left out adds the totals of the remaining stats. */
  lemma TotalsSplit(stats: seq<Stat>, topN: int)
    ensures var k := Shown(|stats|, topN);
      var (shown, rest) := (TotalsOf(stats[..k]), TotalsOf(stats[k..]));
      TotalsOf(stats) == Totals(shown.stars + rest.stars, shown.visitors + rest.visitors,
                                shown.cloners + rest.cloners, shown.downloads + rest.downloads)
  {
    var k := Shown(|stats|, topN);
    assert stats == stats[..k] + stats[k..];
    SumOfAppend(stats[..k], stats[k..], Stars);
    SumOfAppend(stats[..k], stats[k..], Visitors);
    SumOfAppend(stats[..k], stats[k..], Cloners);
    SumOfAppend(stats[..k], stats[k..], Downloads);
  }
}
