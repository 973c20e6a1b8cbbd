# A verified model of jreisinger/tools

jreisinger/tools is a collection of small Go command-line programs and
packages. This project models their logic in Dafny and proves properties of
that model. Each core Go file has its own module:

- **workedon**: which files of which git repositories changed, by how much
  and by whom, over the last days.
- **gorepojack**: the GitHub repository and user URLs of the modules in
  go.mod files, and when a warning is printed about them.
- **ghstats**: sorting and printing GitHub repository statistics.
- **cncf** and **cncf-projects**: the GitHub URLs of the CNCF projects in a
  landscape CSV, their top languages, and the count of projects per
  language.
- **info** (ipaddr): the DNS names of an IP address, its ipinfo.io record,
  and whether an AWS prefix contains it.
- **bts**: airport flights from a page's HTML tree, the flight-type flag,
  and the busiest hour.
- **markdown** (both copies): markdown files in a tree and changing their
  extension.
- **fetch**: the order-preserving deduplication of URLs.
- **helm-hardcoded**: template lines that hard-code a value.
- **tlsver**: TLS version names and the option-configured getter.
- **decodeurl**: the printed layout of a decoded URL with sorted query keys.
- **recent**: the n most recently modified files of a tree.
- **extracturl**: the href values of anchor tags.
- **repr** (both copies): a number in bases 2, 8, 10 and 16.
- **sortmap**: a map turned into pairs sorted by value.
- **reverse**: reversing a string.

Shared modules:

- `Results`: Option and Result.
- `Seqs`: filtering, first-occurrence deduplication, sums and maps.
- `Strings`: split, join, suffixes and lexicographic order.
- `Sorting`: a specified sort standing in for `sort.Sort`, `sort.Slice` and
  `sort.Strings`.
- `Numerals`: `strconv.FormatInt` and `strconv.ParseInt`.
- `FilePath`: `filepath.Clean` and the two-element `filepath.Join` on Unix.

Some Go semantics are modelled as follows:

- **Map iteration.** Its order is a nondeterministic choice.
- **Library sorts.** Go's sorts are unstable. So every contract about a
  sort states only "a permutation, ordered by the comparator". The order of
  ties is never stated.
- **Goroutines.** Their delivery order is an arbitrary permutation. Lemmas
  show that the results do not depend on it.
- **Time.** Clock readings and instants are integers. The bts times are a
  date as `Format("2006-01-02")` prints it, an hour and the nanoseconds past
  it, so each instant has one value and `IsZero` is equality with the zero
  time.
- **Strings.** A Go string is a sequence of runes (`seq<char>`).
- **Foreign calls.** Results of network calls, git, the file system walk,
  CSV and JSON decoding, the HTML tokenizer, `url.Parse` and
  `net.ParseCIDR` are inputs to the model.

## Model

| member | source | states |
|---|---|---|
| Workedon.Uniq | cmd/workedon/main.go:266-276 | the result is the first occurrence of every input string, in input order |
| Workedon.AddStats | cmd/workedon/main.go:211-221 | a named stat adds its additions plus deletions to its file's count; every stat, named or not, appends the author; the file keys grow by exactly the stat names |
| Workedon.AddStat | cmd/workedon/main.go:212-218 | one stat extends the running changes (only when it has a name) and the running authors (always) by exactly that stat |
| Workedon.ParseStat | cmd/workedon/main.go:278-292 | specified through AddStats and NamedStatTouched: a stat counts additions plus deletions under its file name |
| Workedon.Qualifies | cmd/workedon/main.go:202-204 | specified by AuthorFilter and OnlyTheAuthor: an empty -author admits every commit, otherwise only the author's own |
| Workedon.Cutoff | cmd/workedon/main.go:192 | the cutoff is now minus the days in seconds; ParseRepoLogs states what follows from it |
| Workedon.Window | cmd/workedon/main.go:193 | the commits the log yields are those committed at or after the cutoff, as used by ParseRepoLogs |
| Workedon.FoldLog | cmd/workedon/main.go:201-224 | fails exactly when some qualifying commit's stats cannot be read; otherwise the per-file changes and authors are those of the qualifying commits, and the keys are exactly the touched files |
| Workedon.FoldSkip | cmd/workedon/main.go:202-204 | a commit by another author than -author leaves the attribution unchanged |
| Workedon.FoldCommit | cmd/workedon/main.go:205-222 | a qualifying commit with stats extends the attribution of the log so far to the log with that commit |
| Workedon.FilesOf | cmd/workedon/main.go:229-235 | one file per key with distinct paths, the key's count and the deduplicated authors |
| Workedon.ParseRepoLogs | cmd/workedon/main.go:185-238 | a failed pull gives a pull error; an unreadable log gives a log error; otherwise the files are attributed from the commits inside the day window, with a stats error exactly when the fold fails |
| Workedon.AuthorFilter | cmd/workedon/main.go:202-204 | with -author set, the changes, authors, touched files and failures equal those of the author's own commits without a filter |
| Workedon.OnlyTheAuthor | cmd/workedon/main.go:202-204 | with -author set, every recorded author is that author |
| Workedon.NamedStatTouched | cmd/workedon/main.go:211-218 | any named stat of a qualifying commit makes its file come out, even with zero additions and deletions |
| Workedon.EmptyNameNeverTouched | cmd/workedon/main.go:214-216 | a stat with an empty name never produces a file |
| Workedon.ChangesUntouched | cmd/workedon/main.go:211-221 | a named file that no qualifying stat touches has no changes |
| Workedon.StatsFailPrefix | cmd/workedon/main.go:205-208 | a stats failure in a prefix of the log is a failure of the whole log |
| Workedon.AttributionAppend | cmd/workedon/main.go:201-224 | the changes, authors and touched files of a concatenated log are those of its parts, in log order |
| Workedon.KeptFilesOk | cmd/workedon/main.go:106-109 | filtering by base name keeps the files correct and keeps exactly the paths that are not ignored |
| Workedon.AddFiles | cmd/workedon/main.go:106-113 | the directory gains the kept files, their summed changes and their concatenated authors, in order; the sum and concatenation invariants are preserved |
| Workedon.Work | cmd/workedon/main.go:95-115 | fatal exactly when the pull did not fail and the log is unreadable or the fold fails; a failed pull leaves the directory empty; otherwise the directory is analysed with ignored files left out |
| Workedon.IgnoredNeverKept | cmd/workedon/main.go:107 | with -ignore set, no kept file has the ignored base name |
| Workedon.PullFailedDropped | cmd/workedon/main.go:100-101 | a repository whose pull fails is left out of the report |
| Workedon.KeepNonEmpty | cmd/workedon/main.go:130-136 | the kept directories are those with files, in order, and the total is the sum of their changes |
| Workedon.TotalChangesOfKept | cmd/workedon/main.go:131-134 | the grand total is the sum over the directories that have files |
| Workedon.DirectoryRows | cmd/workedon/main.go:155-158 | one row per directory with its path, changes and deduplicated authors joined by ", " |
| Workedon.FileRowsOf | cmd/workedon/main.go:150-153 | one row per file with the path filepath.Join gives, its changes and its deduplicated authors |
| Workedon.FileRowsPaths | cmd/workedon/main.go:153 | a row's path is the cleaned argument, a slash and the file's path; for an argument that cleans to "." it is the bare path |
| FilePath.JoinPath | cmd/workedon/main.go:153 | specified by JoinNamePath and JoinDirSpellings: "" for two empty elements, otherwise the cleaned join |
| FilePath.JoinNamePath | cmd/workedon/main.go:153 | joining with a name-only path gives the path alone under ".", one slash under "/", else the cleaned directory, a slash and the path |
| FilePath.JoinDirSpellings | cmd/workedon/main.go:153 | "dir/" joins like "dir", and "." joins to the bare path |
| FilePath.CleanIdempotent | cmd/workedon/main.go:153 | cleaning a cleaned path changes nothing |
| FilePath.CleanElemsForm | cmd/workedon/main.go:153 | the cleaned elements have no empty or "." element, and ".." only at the front of a relative path |
| FilePath.CleanTrailingSlash | cmd/workedon/main.go:153 | a trailing slash does not change a cleaned non-empty path |
| Workedon.GroupedFileRows | cmd/workedon/main.go:147-154 | each directory's files are a permutation sorted by non-increasing changes, and its rows follow in directory order |
| Workedon.ReportResults | cmd/workedon/main.go:127-163 | nothing when no directory has files; otherwise the total and the rows of the non-empty directories, a permutation in non-increasing order of changes |
| Workedon.DirGeTotal | cmd/workedon/main.go:171-175 | sort.Reverse of byDirChanges compares by non-increasing changes, a total preorder |
| Workedon.FileGeTotal | cmd/workedon/main.go:165-169 | sort.Reverse of byFileChanges compares by non-increasing changes, a total preorder |
| Workedon.StatAuthorsAreWho | cmd/workedon/main.go:217-219 | a commit's stats record only that commit's author |
| Workedon.StatChangesUntouched | cmd/workedon/main.go:211-218 | a named file that none of a commit's stats names gets no changes from it |
| Workedon.DirectoryRowsDescending | cmd/workedon/main.go:146 | without -files the rows come in non-increasing order of changes |
| Workedon.ReportedDirectories | cmd/workedon/main.go:130-136 | the report holds exactly the directories that have files |
| Workedon.ArrivalOrder | cmd/workedon/main.go:114-130 | the report of one arrival order of the workers' directories is a report of every other |
| Workedon.WorkAll | cmd/workedon/main.go:75-115 | paths that fail to open are skipped; an error exactly when some opened repository is fatal, naming such a path; otherwise one analysed directory per opened path |
| Workedon.FatalAt | cmd/workedon/main.go:75-103 | a fatal opened argument is among the opened candidates of the whole argument list |
| Workedon.Run | cmd/workedon/main.go:45-125 | usage without arguments; otherwise the error of some fatal opened repository, or the report of one analysed directory per opened path |
| Gorepojack.RepoURLIsPrefix | cmd/gorepojack/main.go:175-187 | the repository URL is empty exactly for paths with fewer than two slashes; otherwise it is "https://" and the path cut just before its third segment |
| Gorepojack.UserURLIsPrefix | cmd/gorepojack/main.go:162-173 | the user URL is empty exactly for paths without a slash; otherwise it is "https://" and the path cut just before its second slash |
| Gorepojack.RepoURLSegments | cmd/gorepojack/main.go:175-187 | with two or more slashes the repository URL is "https://" and the first three segments |
| Gorepojack.UserURLSegments | cmd/gorepojack/main.go:162-173 | with a slash the user URL is "https://" and the first two segments |
| Gorepojack.SegmentsPrefix | cmd/gorepojack/main.go:175-187 | the first n segments are a prefix with n-1 slashes, cut at a slash or at the end |
| Gorepojack.URLsOfSegments | cmd/gorepojack/main.go:162-187 | a path joined from slash-free segments gives the URL of its first three segments and the user URL of its first two; two segments give no repository URL |
| Gorepojack.InferRepoURL | cmd/gorepojack/main.go:175-187 | specified by RepoURLIsPrefix and RepoURLSegments: "" below three segments, else "https://" and the first three |
| Gorepojack.InferUserURL | cmd/gorepojack/main.go:162-173 | specified by UserURLIsPrefix and UserURLSegments: "" below two segments, else "https://" and the first two |
| Gorepojack.ModulesOfShape | cmd/gorepojack/main.go:53-60 | one module per dependency, in order, with its go.mod path and the URLs inferred from its path |
| Gorepojack.CollectModules | cmd/gorepojack/main.go:47-61 | the loop over the go.mod files yields the modules of all files in order, or the first extractDeps error |
| Gorepojack.AppendModules | cmd/gorepojack/main.go:53-60 | the dependency loop appends one module per dependency, in order |
| Gorepojack.AllModulesErrors | cmd/gorepojack/main.go:48-52 | collecting succeeds exactly when every file's dependencies are extracted, and otherwise fails with the first failing file's error |
| Gorepojack.AllModulesShape | cmd/gorepojack/main.go:47-61 | there are as many modules as dependencies; each carries the URLs inferred from its own path and a dependency of the go.mod file it names |
| Gorepojack.EachRepoOnce | cmd/gorepojack/main.go:63-70 | every repository URL among the modules is evaluated, and none twice |
| Gorepojack.Run | cmd/gorepojack/main.go:42-78 | findModFiles' error or the first extractDeps error ends the program; otherwise the first module of each repository URL among all collected modules is evaluated |
| Gorepojack.Evaluated | cmd/gorepojack/main.go:63-71 | the modules evaluated are the first with each repository URL |
| Gorepojack.FirstPerRepoURLs | cmd/gorepojack/main.go:63-71 | the evaluated repository URLs are the first occurrences of all of them, in module order |
| Gorepojack.FirstPerRepoMembers | cmd/gorepojack/main.go:63-71 | every evaluated module is one of the inputs |
| Gorepojack.WarnTable | cmd/gorepojack/main.go:123-160 | a warning exactly when both URLs are known, the repository answers and its status is neither 200 nor 404, or it is 404 and the user URL does not answer 200; the user URL matters only after a 404 |
| Gorepojack.EvalModRepo | cmd/gorepojack/main.go:123-160 | specified by WarnTable and QuietTable below |
| Gorepojack.QuietTable | cmd/gorepojack/main.go:123-160 | OK lines only when verbose; an empty URL prints nothing; the user status is shown exactly after a 404 |
| GhStats.LessByColumn | ghstats/ghstats.go:107-140 | column 1 orders by name; column 2 puts the newest push first; columns 3 to 6 put the largest count first; ties go by name ascending |
| GhStats.Less | ghstats/ghstats.go:107-140 | specified by LessByColumn and LessIsStrictWeakOrder |
| GhStats.LessIsStrictWeakOrder | ghstats/ghstats.go:107-140 | the comparator is irreflexive and its complement is a total preorder |
| GhStats.Sort | ghstats/ghstats.go:106-141 | an unknown column is fatal once two stats are compared and leaves the slice unchanged; otherwise the slice becomes a permutation sorted by the comparator |
| GhStats.BeforeTransitive | ghstats/ghstats.go:107-140 | the comparator is transitive in every valid column |
| GhStats.SortedByColumn | ghstats/ghstats.go:107-140 | in a sorted slice no later stat beats an earlier one in the chosen column, and equal keys are in name order |
| GhStats.ShownCases | ghstats/ghstats.go:164-166 | topN 0 shows nothing; a negative or too large topN shows all; otherwise exactly topN |
| GhStats.TableOf | ghstats/ghstats.go:153-180 | the header and rule, one row per shown stat, then the footer rule and the totals |
| GhStats.Print | ghstats/ghstats.go:152-181 | the totals are the sums over the stats shown, and the table is their rows and footer |
| GhStats.TotalsSplit | ghstats/ghstats.go:163-172 | the footer's totals plus those of the stats not shown are the totals of all stats |
| Cncf.GetOwnerAndRepo | cncf/cncf.go:95-99 | owner and repository are free of slashes, and "owner/repo" is a suffix of the URL |
| Cncf.OwnerAndRepoIsSuffix | cncf/cncf.go:95-99 | the last two slash-separated fields, joined by a slash, end the URL |
| Cncf.OwnerAndRepoOfJoin | cncf/cncf.go:95-99 | a URL joined from slash-free fields gives its last two fields |
| Cncf.Column29AsWritten | cncf/cncf.go:68-71 | as written, a record of exactly 29 fields passes the check and panics on index 29 |
| Cncf.Column29 | cncf/cncf.go:68-71 | with the corrected check it never panics; it succeeds exactly for 30 or more fields, giving field 29 |
| Cncf.TwentyNineFieldsPanic | cncf/cncf.go:68-71 | a file whose one data record has exactly 29 fields makes githubURLs panic as written |
| Cncf.GithubURLs | cncf/cncf.go:50-74 | an open error, an empty file or a header read error is returned; otherwise the URLs of every line after the header, with the corrected field check |
| Cncf.URLsOf | cncf/cncf.go:60-73 | specified by URLsOfColumn29, AsWrittenAgrees and HeaderSkipped: the records' fields in order, up to the first failure |
| Cncf.GithubURLsAsWritten | cncf/cncf.go:50-74 | specified by TwentyNineFieldsPanic and AsWrittenAgrees: githubURLs with the field check as written |
| Cncf.URLsOfColumn29 | cncf/cncf.go:59-73 | succeeds exactly when every line after the header is a record with a field 29, and then gives that field of each, in order |
| Cncf.AsWrittenAgrees | cncf/cncf.go:59-73 | when no record has exactly 29 fields, the code as written and the corrected check agree |
| Cncf.HeaderSkipped | cncf/cncf.go:55-58 | whatever the header record is, the URLs are the same |
| Cncf.TopLanguage | cncf/cncf.go:77-93 | an API error is returned with ""; no languages give ""; otherwise a language with the most bytes of code |
| Cncf.CSV | cncf/cncf.go:25-48 | a githubURLs error is passed on; success exactly when no project has an error, with all projects; otherwise the error of the first failing project to arrive |
| Cncf.CSVOnePerURL | cncf/cncf.go:30-47 | a successful result holds one project per URL, none with an error |
| CncfProjects.ProjectsPerLanguage | cmd/cncf-projects/cncf-projects.go:33-44 | a language is a key exactly when some project has it, and its value is its number of projects, at least 1 |
| CncfProjects.TotalProjects | cmd/cncf-projects/cncf-projects.go:46-49 | the total is the sum of the pair values |
| CncfProjects.SumOfCounts | cmd/cncf-projects/cncf-projects.go:46-49 | the counts of distinct languages sum to the number of projects with one of them |
| CncfProjects.TotalIsNumberOfProjects | cmd/cncf-projects/cncf-projects.go:33-49 | the summed counts equal the number of projects |
| CncfProjects.Report | cmd/cncf-projects/cncf-projects.go:32-55 | the total is the number of projects; the rows are sorted by non-increasing count, each the count of its language, with distinct languages, covering every project's language |
| DecodeUrl.CollectKeys | decodeurl/decodeurl.go:35-38 | each key of the query, once |
| DecodeUrl.FormatLines | decodeurl/decodeurl.go:41-43 | one "\tkey = [values]" line per key, in key order |
| DecodeUrl.ParseQuery | decodeurl/decodeurl.go:31-45 | the lines of the query's keys in strictly ascending order, joined by newlines |
| DecodeUrl.SortedKeysUnique | decodeurl/decodeurl.go:35-40 | the sorted keys of a map are unique, so the output does not depend on map iteration order |
| DecodeUrl.StrictlySorted | decodeurl/decodeurl.go:35-40 | sorting distinct keys keeps the same keys and puts them in strictly ascending order |
| DecodeUrl.QueryShape | decodeurl/decodeurl.go:41-44 | an empty query gives "", one line per key, and a single key gives just its line |
| DecodeUrl.String | decodeurl/decodeurl.go:21-29 | the labelled layout of scheme, host, path and the parsed query |
| DecodeUrl.LayoutFields | decodeurl/decodeurl.go:21-29 | each field follows its own label, and the query text ends the string |
| TlsVer.String | internal/tlsver/tlsver.go:12-27 | 0 is "", 0x0301 to 0x0304 are "1.0" to "1.3", and anything else is "unknown " and the decimal number |
| TlsVer.VersionOfString | internal/tlsver/tlsver.go:12-27 | every version can be read back from its string |
| TlsVer.StringInjective | internal/tlsver/tlsver.go:12-27 | different versions print differently |
| TlsVer.JoinHostPort | internal/tlsver/tlsver.go:53 | a host holding a colon is put in brackets before ":port"; any other host is joined to the port with a colon |
| TlsVer.JoinHostPortSplits | internal/tlsver/tlsver.go:53 | without colons, the address splits at its one colon into host and port |
| TlsVer.JoinHostPortBracketed | internal/tlsver/tlsver.go:53 | a host with a colon is put in square brackets before ":port" |
| TlsVer.Getter.constructor | internal/tlsver/tlsver.go:51-61 | the address of host and port, a 10-second timeout, certificate checking on, then the options in argument order |
| TlsVer.Getter.Apply | internal/tlsver/tlsver.go:39-49 | a timeout option sets only the timeout; an insecure option sets only the insecure flag |
| TlsVer.LastTimeoutWins | internal/tlsver/tlsver.go:57-59 | the last WithTimeout wins |
| TlsVer.NoTimeoutOption | internal/tlsver/tlsver.go:54-59 | without a WithTimeout the default timeout is kept |
| TlsVer.LastInsecureWins | internal/tlsver/tlsver.go:57-59 | the last WithInsecure wins |
| TlsVer.NoInsecureOption | internal/tlsver/tlsver.go:54-59 | without a WithInsecure certificates stay verified |
| TlsVer.Getter.Get | internal/tlsver/tlsver.go:63-76 | a handshake error is stored and the version kept; otherwise the negotiated version is stored |
| TlsVer.CloudflareCase | internal/tlsver/tlsver_test.go:9-20 | a fresh getter that negotiates TLS 1.3 shows "1.3" |
| IpInfo.TrimDotAtMostOne | gotoolz/ipaddr/info/info.go:61-63 | a name ending in "." loses exactly one dot, and a name ending in ".." still ends in "." |
| IpInfo.TrimNames | gotoolz/ipaddr/info/info.go:61-63 | every name in the array is replaced by its trimmed form, in place |
| IpInfo.GetDnsNames | gotoolz/ipaddr/info/info.go:51-65 | a lookup error with names is returned with the names untouched; with no names it is dropped; otherwise every name is trimmed |
| IpInfo.AwsIsOn | gotoolz/ipaddr/info/info.go:123-135 | IsOn holds exactly when some prefix contains the address |
| IpInfo.AwsLastHit | gotoolz/ipaddr/info/info.go:128-132 | the prefix, region and border group come from the last containing prefix |
| IpInfo.AwsNoHit | gotoolz/ipaddr/info/info.go:123-135 | without a containing prefix nothing is set |
| IpInfo.AwsServices | gotoolz/ipaddr/info/info.go:133 | one service per containing prefix, in list order, repeats kept |
| IpInfo.IsOnAWS | gotoolz/ipaddr/info/info.go:101-138 | a fetch error gives nothing set; the first unparsable prefix stops the loop with its error and what was gathered before it; otherwise what all prefixes give |
| IpInfo.Get | gotoolz/ipaddr/info/info.go:25-49 | the first failing step ends Get with its error and the fields of the earlier steps; a failing AWS step leaves the AWS field unset |
| Bts.String | internal/bts/bts.go:22-24 | Arrival, Departure and Both print as "arrival", "departure" and "both" |
| Bts.ApplyAttr | internal/bts/bts.go:90-114 | specified by FlightTypeOf, LastTypeWins and LastDateWins: each known key sets its one field, other keys change nothing |
| Bts.FlightOf | internal/bts/bts.go:88-115 | specified by BuildFlight, FlightTypeOf, LastTypeWins and LastDateWins |
| Bts.BuildFlight | internal/bts/bts.go:88-115 | the flight after applying the attributes in order |
| Bts.FlightTypeOf | internal/bts/bts.go:90-94 | the type is always Arrival or Departure, Arrival when no flight-type attribute is present, and decided by the value when the flight-type attribute comes last (LastTypeWins covers any position) |
| Bts.LastTypeWins | internal/bts/bts.go:88-94 | the last flight-type attribute decides the type wherever it stands: Arrival exactly when it says "arrival" |
| Bts.LastDateWins | internal/bts/bts.go:101-103 | only the last flight-date attribute decides the date |
| Bts.Visit | internal/bts/bts.go:86-124 | specified by VisitIsPreOrder and FlightsOfButtons |
| Bts.IsFlightButton | internal/bts/bts.go:87-116 | a button element whose date, after its attributes, is not the zero instant |
| Bts.ZeroDateDropped | internal/bts/bts.go:116 | a button whose last date attribute parses to the zero instant gives no flight |
| Bts.VisitIsPreOrder | internal/bts/bts.go:86-124 | visit appends the flights of the tree's flight buttons in pre-order |
| Bts.FlightsOfButtons | internal/bts/bts.go:116-120 | every flight found has a date that is not the zero instant and comes from a button element's attributes |
| Bts.GetFlights | internal/bts/bts.go:45-67 | Both gives arrivals followed by departures; a failing parse gives its error |
| BtsFlag.ParseFlightType | internal/bts/flag.go:10-23 | only the exact names "arrival", "departure" and "both" name a type, and that type prints as the name |
| BtsFlag.SetStringRoundTrip | internal/bts/flag.go:10-23 | setting a flag to a type's name gives that type back |
| BtsFlag.FlightTypeFlag.constructor | internal/bts/flag.go:27-31 | the flag starts at its default |
| BtsFlag.FlightTypeFlag.Set | internal/bts/flag.go:10-23 | a known name stores its type; anything else is an error and the value stays |
| Busy.Key | bts/busy.go:11-16 | specified by KeyIsDateAndHour: the date, then the hour of the current time unless that is zero, else of the planned time |
| Busy.KeyIsDateAndHour | bts/busy.go:11-16 | for ten-character dates, two flights share a bucket exactly when they share the date and the bucket hour |
| Busy.BucketMembers | bts/busy.go:9-18 | a bucket holds every flight with its key, in input order |
| Busy.CountByDateHour | bts/busy.go:9-18 | each key maps to its non-empty bucket, and keys without flights are absent |
| Busy.MostBusy | bts/busy.go:20-27 | no bucket has more flights than the chosen one; an empty map gives 0 |
| Busy.Busy | bts/busy.go:6-30 | no flights give none; otherwise a whole bucket that no other bucket outnumbers |
| Busy.SingleFlight | internal/bts/busy_test.go:24-71 | a single flight is the only member of its hour's bucket |
| Busy.TwoInOneHour | internal/bts/busy_test.go:24-71 | two flights in one hour and a third in another give a busiest bucket of the two |
| Busy.TestKeys | internal/bts/busy_test.go:24-71 | the test's flights: 08:32 on 12 June has key "2023-06-128", shares it with 08:42 that day, not with 08:32 on 13 June, and a current time of 09:05 moves it to "2023-06-129" |
| Markdown.Is | markdown/markdown.go:48-50 | specified by IsSuffix: the extension is exactly ".md" |
| Markdown.IsSuffix | internal/mdsrv/markdown/markdown.go:52-54 | a file is markdown exactly when its path ends in ".md", case-sensitively |
| Markdown.ChangeExt | internal/mdsrv/markdown/markdown.go:56-63 | a ".md" path loses ".md" and gets the new extension; any other path is returned unchanged |
| Markdown.ChangeExtInverse | markdown/markdown.go:52-59 | the new name ends in the extension, and swapping back gives the markdown name |
| Markdown.ChangeExtIdempotent | markdown/markdown.go:52-59 | a second change with a non-".md" extension of three or more characters changes nothing |
| Markdown.ChangeExtToMd | markdown/markdown.go:52-59 | changing to ".md" changes nothing |
| Markdown.ChangeExtHtmlIdempotent | markdown/markdown.go:52-59 | changing to ".html" twice is the same as changing it once |
| Markdown.ChangeExtExamples | internal/mdsrv/markdown/markdown_test.go:44-60 | the cases of the ChangeExt test table |
| Markdown.Files | internal/mdsrv/markdown/markdown.go:37-50 | the paths of the readable non-directory markdown entries, in walk order |
| Markdown.FilesFound | markdown/markdown.go:33-46 | a path is found exactly when the walk passes it as a readable non-directory ending in ".md", and the paths keep walk order |
| Markdown.FilesExamples | internal/mdsrv/markdown/markdown_test.go:22-42 | an empty tree and a directory named "dir.md" give nothing, and a ".go" file is skipped |
| Fetch.Dedup | gotoolz/fetch/main.go:60-70 | the first occurrence of every URL, in order |
| Fetch.DedupProperties | gotoolz/fetch/main.go:60-70 | no URL twice, the same URLs as the input, in first-occurrence order, and a second pass changes nothing |
| Fetch.FileURLsAreLines | gotoolz/fetch/main.go:36-40 | a file URL is exactly a non-empty line, with no newline in it, in file order |
| Fetch.URLs | gotoolz/fetch/main.go:29-42 | the arguments, then the file's non-empty lines, deduplicated; a read error is returned |
| Fetch.CommandLineFirst | gotoolz/fetch/main.go:29-42 | a URL both on the command line and in the file keeps its command-line position |
| Helm.FormatLines | cmd/helm-hardcoded/main.go:53-58 | "line" exactly for a count of 1, otherwise "lines" |
| Helm.RemoveFirstStringBeforeSlash | cmd/helm-hardcoded/main.go:60-66 | a path without a slash is kept; otherwise the part after its first slash |
| Helm.LinesWithHardcodedValue | cmd/helm-hardcoded/main.go:68-81 | the lines that are no template lines and contain the value once trimmed, in order |
| Helm.ReportedLines | cmd/helm-hardcoded/main.go:68-81 | reported lines are untrimmed template lines, in order, and a line is reported exactly when it is no template line and contains the value |
| Helm.EmptyValueMatchesAll | cmd/helm-hardcoded/main.go:73-77 | an empty value reports every line that is no template line |
| Helm.FindingsOf | cmd/helm-hardcoded/main.go:36-50 | specified by Findings and FindingsNonEmpty |
| Helm.Findings | cmd/helm-hardcoded/main.go:36-50 | one finding per template with reported lines, in order |
| Helm.FindingsNonEmpty | cmd/helm-hardcoded/main.go:36-50 | every finding has at least one line, none of them a template line |
| Recent.GetLastNFiles | gotoolz/recent/recent.go:56-61 | the last min(n, len) files |
| Recent.SortByModTime | gotoolz/recent/recent.go:63-68 | a permutation ordered oldest first |
| Recent.NotYoungerTotal | gotoolz/recent/recent.go:63-68 | the modification-time order is a total preorder |
| Recent.Walk | gotoolz/recent/recent.go:24-44 | the files and the error the walk callback collects |
| Recent.Collect | gotoolz/recent/recent.go:24-44 | specified by CollectedFromCalls and CollectAll |
| Recent.Files | gotoolz/recent/recent.go:18-47 | a bad pattern is returned with no files; otherwise the last n of the collected files sorted by time, or the walk's error |
| Recent.CollectedFromCalls | gotoolz/recent/recent.go:24-44 | every collected file comes from a readable, non-directory, non-excluded entry |
| Recent.CollectAll | gotoolz/recent/recent.go:24-44 | without errors every non-directory, non-excluded entry is collected |
| Recent.YoungestKept | gotoolz/recent/recent.go:56-68 | no file left out is younger than a kept one |
| Recent.TwoOfThree | gotoolz/recent/recent_test.go:11-25 | three files and n = 2 give two files |
| Repr.ReprRoundTrip | cmd/repr/repr.go:50-56 | each rendering parsed back in its own base gives the value |
| Repr.Reprs | cmd/repr/repr.go:40-58 | succeeds exactly when every argument parses, with one row per argument in order; otherwise the first failing argument |
| Repr.PrintReprs | cmd/repr/repr.go:25-34 | the header and rule, even with no rows, then one row per repr |
| Repr.PrintReprsUnlessEmpty | gotoolz/repr/main.go:21-33 | nothing for no rows, otherwise the table |
| Repr.ReprMain | cmd/repr/repr.go:36-60 | a table exactly when every argument parses; otherwise exit 1 for the first failing argument |
| Repr.GotoolzReprMain | gotoolz/repr/main.go:35-63 | a table exactly when every argument parses, empty for no arguments; otherwise exit 1 for the first failing argument |
| Repr.NoPrefix | cmd/repr/repr.go:52-55 | a rendering starts with "0" only for zero |
| Repr.CellShape | cmd/repr/repr.go:52-55 | a leading "-" exactly for negatives, lower-case digits, no base prefix and no leading zeros |
| Numerals.ParseFormatInt | cmd/repr/repr.go:42-55 | every 64-bit value formatted in a base from 2 to 36 parses back to itself |
| Numerals.ParseErrors | cmd/repr/repr.go:42-48 | the empty string, a lone sign, a digit too large for the base and an invalid base are rejected |
| Numerals.ParseRange | cmd/repr/repr.go:42-48 | magnitudes of 2^63 and more are out of range except -2^63 |
| SortMap.SortMapByValue | sortmap.go:16-29 | the entries of the map, each once, sorted by value ascending or descending |
| SortMap.ValueOrdersTotal | sortmap.go:12-14 | ascending and descending order by value are both total preorders |
| SortMap.EntriesOfComplete | sortmap.go:16-23 | every key of the map appears in the pairs with its value |
| SortMap.Entries | sortmap.go:17-22 | a new slice of len(m) holding each entry of the map exactly once |
| Reverse.Reverse | reverse.go:4-15 | the runes in the opposite order |
| Reverse.Reverse2 | reverse.go:18-26 | the runes in the opposite order, by swapping in place |
| Reverse.ReversedTwice | reverse.go:4-26 | reversing twice gives the original |
| Reverse.ReversedExamples | reverse_test.go:5-21 | the cases of the test table, with multi-byte runes kept whole |
| ExtractUrl.URLsOf | cmd/extracturl/main.go:32-61 | specified by URLsMembers, AfterErrorIgnored and NoAnchorNoURLs |
| ExtractUrl.AppendHrefs | cmd/extracturl/main.go:52-56 | the href values of the attributes are appended in attribute order |
| ExtractUrl.ExtractURLs | cmd/extracturl/main.go:32-61 | a fetch error gives no URLs; otherwise, with no error, the URLs of the tokens before the first error token |
| ExtractUrl.BeforeErrorAt | cmd/extracturl/main.go:42-47 | the tokens read are exactly those before the first error token |
| ExtractUrl.AfterErrorIgnored | cmd/extracturl/main.go:45-47 | nothing after the first error token counts |
| ExtractUrl.URLsMembers | cmd/extracturl/main.go:51-56 | a URL is extracted exactly when some anchor start tag has an href attribute with that value |
| ExtractUrl.NoAnchorNoURLs | cmd/extracturl/main.go:51 | tokens other than anchor start tags, self-closing anchors included, add nothing |

## Left out

- Concurrency: goroutines and channels are modelled as arbitrary delivery orders. Go's scheduler is not modelled.
- Network access:
  - the GitHub API, ipinfo.io and the AWS ranges fetch;
  - the bts page fetch, the extracturl fetch and the fetch command's downloads;
  - TLS dialing;
  - gorepojack's getURL.
  Their answers are inputs.
- git internals: PlainOpen, Pull and Log are an abstract repository value with a pull outcome and a commit list.
- The file system walk: `fs.WalkDir` is its sequence of callback calls, and SkipDir is not modelled. `os.ReadFile` is an input.
- Parsers from libraries: goldmark `toHTML`/`ToHTML`, text/tabwriter alignment and the HTML tokenizer and parser are not modelled.
- Other library calls: regexp matching, `url.Parse`, CSV tokenizing, JSON decoding, `net.ParseCIDR`/`Contains` and `time.Parse`/`Format`.
- Floating point: the percentage columns of workedon and cncf-projects, and mtime's day ages.
- Integer width: the sums of changes, stars, visitors, cloners and downloads are unbounded integers. int64 overflow is not modelled.
- Workedon.Cutoff: subtracts an unbounded `days * 86400` seconds, while `time.Hour*24*time.Duration(*days)` (cmd/workedon/main.go:96) wraps int64 for days above 106751.
- Numerals.ParseInt: base-0 underscores are not accepted.
- Repr.PrintReprsUnlessEmpty, Repr.GotoolzReprMain: the `%q` "char" column of gotoolz/repr is not modelled: the table lacks the sixth header cell "char", its rule cell and the per-row cell.
- IpInfo.CidrError: `%q` is written as plain double quotes, without Go's escaping of special characters.
- Recent.GetLastNFiles: requires n >= 0, because a negative n makes the slice expression panic.
- Recent.Files: requires n >= 0 unless the exclude pattern fails to compile, because only then is the slice never reached.
- Bts.String: requires one of the three flight types, because any other value makes the array index panic.
- Strings are sequences of runes. Go's conversion of invalid UTF-8 to U+FFFD in `[]rune(s)` (reverse.go) and byte-level string operations on such input are not modelled.
- recent's panic on a nil DirEntry is not modelled.
- GhStats Get and getAllRepos are left out: they are GitHub API calls.
- GhStats.Stat: `Pushed` is an integer instant. `time.Time` comparison by location and monotonic reading is not modelled.
- GhStats.Sort: the program ends at the fatal log. The partial reordering sort.Sort may have done before that is not modelled.
- Cncf.GetOwnerAndRepo: requires a URL with a slash, because without one the index panics. The containerd example from the source comment is covered only by OwnerAndRepoOfJoin.
- Cncf.CSV: the topLanguage goroutines' arrival order is an input, and so are each arriving project's language and error: TopLanguage is not composed into CSV, so the model does not tie a project's fields to what topLanguage returns for its URL. The `project.Err` log line of cncf-projects is not modelled, because CSV never returns a project with an error.
- decodeurl `Decode` and `Main` are left out: they are `url.Parse` and printing.
- TlsVer.Getter.Get: the handshake itself is an input. The timeout and insecure flags it would use are not modelled.
- CLI glue without logic of its own is left out: cmd/bts, cmd/ghfind, cmd/ghstats, gotoolz/ipaddr/ipaddr.go, the recent command and mtime.
- The servers and rendering are left out: mdsrv, html, users and btsaero printing.
- Dead code in workedon is left out: `msgsPerFile`, and the map check in parseStat that can never fire.

## Findings

| source | as written | input that shows it | evidently intended | confidence | as-written member | corrected member |
|---|---|---|---|---|---|---|
| cncf/cncf.go:68-71 | a record with fewer than 29 fields is rejected, then `record[29]` is read | a CSV whose header and following record both have exactly 29 fields (csv.Reader takes the field count from the header, so a 29-field record needs a 29-field header): the check passes and indexing field 29 panics | reject records with fewer than 30 fields, since index 29 is the thirtieth field | not executed | Cncf.TwentyNineFieldsPanic | Cncf.URLsOfColumn29 |
