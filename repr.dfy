/** Repr (cmd/repr/repr.go and gotoolz/repr/main.go): each command-line
    argument parsed as an integer in the base given by -b, then shown in
    bases 2, 8, 10 and 16 in a table. Column alignment by text/tabwriter is
    not part of this model: a table is its rows of cells. */
module Repr {
  import opened Results
  import opened Numerals

  /** repr (repr.go:17-23): the argument and its four renderings. */
  datatype Repr = Repr(input: string, dec: string, bin: string, oct: string, hex: string)

  /** The struct literal of repr.go:50-56; gotoolz/repr/main.go:49-59
      writes the same strings with the %b, %o, %d and %x verbs. */
  function ReprOf(arg: string, i: int): Repr {
    Repr(arg, FormatInt(i, 10), FormatInt(i, 2), FormatInt(i, 8), FormatInt(i, 16))
  }

  /** Each rendering of a parsed value, parsed back in its own base, gives
      that value. */
  lemma ReprRoundTrip(arg: string, i: int)
    requires IsInt64(i)
    ensures var r := ReprOf(arg, i);
      && r.input == arg
      && ParseInt(r.bin, 2) == Ok(i) && ParseInt(r.oct, 8) == Ok(i)
      && ParseInt(r.dec, 10) == Ok(i) && ParseInt(r.hex, 16) == Ok(i)
  {
    ParseFormatInt(i, 2);
    ParseFormatInt(i, 8);
    ParseFormatInt(i, 10);
    ParseFormatInt(i, 16);
  }

  /** The first argument that does not parse, with the base and the error
      reported for it. */
  datatype Failure = Failure(arg: string, base: int, err: NumError)

  /** The argument loop of main (repr.go:40-58, main.go:39-61): parse each
      argument in turn; the first failure ends the loop. */
  method Reprs(args: seq<string>, base: int) returns (r: Result<seq<Repr>, Failure>)
    ensures r.Ok? <==> forall i :: 0 <= i < |args| ==> ParseInt(args[i], base).Ok?
    ensures r.Ok? ==> |r.value| == |args|
    ensures r.Ok? ==> forall i :: 0 <= i < |args| ==>
      ParseInt(args[i], base).Ok? && r.value[i] == ReprOf(args[i], ParseInt(args[i], base).value)
    ensures r.Err? ==> exists k :: 0 <= k < |args| && FirstFailure(args, base, k) && r.error == FailureAt(args, base, k)
  {
    var reprs: seq<Repr> := [];
    for n := 0 to |args|
      invariant ReprsSoFar(args, base, n, reprs)
    {
      var parsed := ParseInt(args[n], base);
      if parsed.Err? {
        assert FirstFailure(args, base, n);
        return Err(Failure(args[n], base, parsed.error));
      }
      ReprsStep(args, base, n, reprs);
      reprs := reprs + [ReprOf(args[n], parsed.value)];
    }
    r := Ok(reprs);
  }

  /** `reprs` holds the rows of the first `n` arguments, all of which parse. */
  predicate ReprsSoFar(args: seq<string>, base: int, n: nat, reprs: seq<Repr>)
    requires n <= |args|
  {
    && |reprs| == n
    && forall i :: 0 <= i < n ==> ParseInt(args[i], base).Ok? && reprs[i] == ReprOf(args[i], ParseInt(args[i], base).value)
  }

  lemma ReprsStep(args: seq<string>, base: int, n: nat, reprs: seq<Repr>)
    requires n < |args| && ReprsSoFar(args, base, n, reprs) && ParseInt(args[n], base).Ok?
    ensures ReprsSoFar(args, base, n + 1, reprs + [ReprOf(args[n], ParseInt(args[n], base).value)])
  {
  }

  function FailureAt(args: seq<string>, base: int, k: nat): Failure
    requires k < |args| && ParseInt(args[k], base).Err?
  {
    Failure(args[k], base, ParseInt(args[k], base).error)
  }

  /** Argument `k` is the first that does not parse. */
  predicate FirstFailure(args: seq<string>, base: int, k: nat)
    requires k < |args|
  {
    ParseInt(args[k], base).Err? && forall i :: 0 <= i < k ==> ParseInt(args[i], base).Ok?
  }

  /** What a run writes: the table rows on standard output, or the error
      line on standard error and exit status 1, with nothing on standard
      output. */
  datatype Output = Table(rows: seq<seq<string>>) | Exit1(arg: string, base: int, err: NumError)

  function Row(r: Repr): seq<string> {
    [r.input, r.bin, r.oct, r.dec, r.hex]
  }

  const Header: seq<string> := ["input", "bin", "oct", "dec", "hex"]
  const Rule: seq<string> := ["-----", "---", "---", "---", "---"]

  /** printReprs of cmd/repr (repr.go:25-34): the header even when there
      are no rows. */
  function PrintReprs(reprs: seq<Repr>): (rows: seq<seq<string>>)
    ensures |rows| == |reprs| + 2 && rows[0] == Header && rows[1] == Rule
    ensures forall i :: 0 <= i < |reprs| ==> rows[i + 2] == Row(reprs[i])
  {
    [Header, Rule] + seq(|reprs|, i requires 0 <= i < |reprs| => Row(reprs[i]))
  }

  /** printReprs of gotoolz/repr (main.go:21-33): nothing at all for no
      rows. The "char" column (%q) is not part of this model. */
  function PrintReprsUnlessEmpty(reprs: seq<Repr>): (rows: seq<seq<string>>)
    ensures reprs == [] <==> rows == []
    ensures reprs != [] ==> rows == PrintReprs(reprs)
  {
    if |reprs| == 0 then [] else PrintReprs(reprs)
  }

  /** main of cmd/repr. */
  method ReprMain(args: seq<string>, base: int) returns (out: Output)
    ensures (forall i :: 0 <= i < |args| ==> ParseInt(args[i], base).Ok?) <==> out.Table?
    ensures out.Table? ==> |out.rows| == |args| + 2 && out.rows[0] == Header
    ensures out.Exit1? ==> exists k :: 0 <= k < |args| && FirstFailure(args, base, k) && out.arg == args[k]
  {
    var r := Reprs(args, base);
    if r.Err? {
      return Exit1(r.error.arg, r.error.base, r.error.err);
    }
    out := Table(PrintReprs(r.value));
  }

  /** main of gotoolz/repr. */
  method GotoolzReprMain(args: seq<string>, base: int) returns (out: Output)
    ensures (forall i :: 0 <= i < |args| ==> ParseInt(args[i], base).Ok?) <==> out.Table?
    ensures args == [] ==> out == Table([])
    ensures out.Table? && args != [] ==> |out.rows| == |args| + 2 && out.rows[0] == Header
    ensures out.Exit1? ==> exists k :: 0 <= k < |args| && FirstFailure(args, base, k) && out.arg == args[k]
  {
    var r := Reprs(args, base);
    if r.Err? {
      return Exit1(r.error.arg, r.error.base, r.error.err);
    }
    out := Table(PrintReprsUnlessEmpty(r.value));
  }

  /** The renderings carry no base prefix and no leading zeros: a cell
      starts with '0' only for zero, and with '-' exactly for a negative
      value; all other characters are digits or lower-case letters. */
  lemma {:induction false} NoPrefix(n: nat, base: nat)
    requires ValidBase(base)
    ensures FormatNat(n, base)[0] == '0' ==> n == 0
    decreases n
  {
    if n >= base {
      QuotientSmaller(n, base);
      NoPrefix(n / base, base);
      assert FormatNat(n, base)[0] == FormatNat(n / base, base)[0];
    }
  }

  lemma CellShape(i: int, base: nat)
    requires ValidBase(base)
    ensures var s := FormatInt(i, base);
      && (s[0] == '-' <==> i < 0)
      && (forall k :: 0 < k < |s| ==> '0' <= s[k] <= '9' || 'a' <= s[k] <= 'z')
      && (s[0] == '0' ==> i == 0)
      && (i < 0 ==> |s| >= 2 && s[1] != '0')
  {
    var s := FormatInt(i, base);
    if i < 0 {
      NoPrefix(-i, base);
      assert s[1..] == FormatNat(-i, base);
      assert s[1] == FormatNat(-i, base)[0];
    } else {
      NoPrefix(i, base);
    }
  }
}
