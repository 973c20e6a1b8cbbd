/** TLS versions and the getter that asks a server for one
    (internal/tlsver/tlsver.go). The TLS handshake itself is not part of
    this model: its outcome is an input of Get. */
module TlsVer {
  import opened Results
  import opened Strings
  import opened Numerals

  /** TLSversion (tlsver.go:10): a uint16. */
  newtype TLSversion = v: int | 0 <= v < 0x1_0000

  /** The protocol numbers of crypto/tls: 0x0301 for TLS 1.0 up to 0x0304
      for TLS 1.3. */
  const VersionTLS10: TLSversion := 0x0301
  const VersionTLS11: TLSversion := 0x0302
  const VersionTLS12: TLSversion := 0x0303
  const VersionTLS13: TLSversion := 0x0304

  const Unknown := "unknown "

  /** TLSversion.String (tlsver.go:12-27). */
  function String(v: TLSversion): (s: string)
    ensures v == 0 <==> s == ""
    ensures v == VersionTLS10 ==> s == "1.0"
    ensures v == VersionTLS11 ==> s == "1.1"
    ensures v == VersionTLS12 ==> s == "1.2"
    ensures v == VersionTLS13 ==> s == "1.3"
    ensures v != 0 && !(VersionTLS10 <= v <= VersionTLS13) ==> s == Unknown + FormatInt(v as int, 10)
  {
    if v == 0 then ""
    else if v == VersionTLS10 then "1.0"
    else if v == VersionTLS11 then "1.1"
    else if v == VersionTLS12 then "1.2"
    else if v == VersionTLS13 then "1.3"
    else Unknown + FormatInt(v as int, 10)
  }

  /** Reading a printed version back: the inverse of String. */
  function VersionOf(s: string): Option<TLSversion> {
    if s == "" then Some(0)
    else if s == "1.0" then Some(VersionTLS10)
    else if s == "1.1" then Some(VersionTLS11)
    else if s == "1.2" then Some(VersionTLS12)
    else if s == "1.3" then Some(VersionTLS13)
    else if |s| > |Unknown| && s[..|Unknown|] == Unknown then
      var n := ParseInt(s[|Unknown|..], 10);
      if n.Ok? && 0 <= n.value < 0x1_0000 then Some(n.value as TLSversion) else None
    else None
  }

  /** Every version reads back from its string: the decimal number after
      "unknown " is the version itself. */
  lemma VersionOfString(v: TLSversion)
    ensures VersionOf(String(v)) == Some(v)
  {
    if v != 0 && !(VersionTLS10 <= v <= VersionTLS13) {
      var f := FormatInt(v as int, 10);
      ParseFormatInt(v as int, 10);
      assert (Unknown + f)[..|Unknown|] == Unknown;
      assert (Unknown + f)[|Unknown|..] == f;
    }
  }

  /** Different versions print differently. */
  lemma StringInjective(a: TLSversion, b: TLSversion)
    requires a != b
    ensures String(a) != String(b)
  {
    VersionOfString(a);
    VersionOfString(b);
  }

  /** net.JoinHostPort: a host holding a colon (an IPv6 literal) goes in
      square brackets, as in section 3.2.2 of RFC 3986. */
  function JoinHostPort(host: string, port: string): (r: string)
    ensures ':' in host ==> r == "[" + host + "]:" + port
    ensures ':' !in host ==> r == host + ":" + port
  {
    if ':' in host then "[" + host + "]:" + port else host + ":" + port
  }

  /** Without colons in host and port, the address splits at its one
      colon into the two again. */
  lemma JoinHostPortSplits(host: string, port: string)
    requires ':' !in host && ':' !in port
    ensures Split(JoinHostPort(host, port), ':') == [host, port]
  {
    assert Join([host, port], [':']) == host + ":" + port by {
      assert [host, port][1..] == [port];
    }
    SplitJoin([host, port], ':');
  }

  /** A bracketed address starts with the host between brackets and ends
      with the port. */
  lemma JoinHostPortBracketed(host: string, port: string)
    requires ':' in host
    ensures var r := JoinHostPort(host, port);
      r[0] == '[' && r[1..|host| + 1] == host && r[|host| + 1..] == "]:" + port
  {
  }

  /** One option of NewGetter (tlsver.go:37-49); each closure sets one
      field. */
  datatype GetterOption = WithTimeout(timeout: int) | WithInsecure(insecure: bool)

  /** 10 * time.Second, in nanoseconds. */
  const DefaultTimeout: int := 10_000_000_000

  /** The timeout after the options, applied in order, starting from `t`. */
  function TimeoutAfter(opts: seq<GetterOption>, t: int): int {
    if opts == [] then t
    else
      var last := opts[|opts| - 1];
      if last.WithTimeout? then last.timeout else TimeoutAfter(opts[..|opts| - 1], t)
  }

  function InsecureAfter(opts: seq<GetterOption>, b: bool): bool {
    if opts == [] then b
    else
      var last := opts[|opts| - 1];
      if last.WithInsecure? then last.insecure else InsecureAfter(opts[..|opts| - 1], b)
  }

  /** The last timeout option wins; without one the start value stays. */
  lemma {:induction false} LastTimeoutWins(opts: seq<GetterOption>, t: int, k: nat)
    requires k < |opts| && opts[k].WithTimeout?
    requires forall i :: k < i < |opts| ==> !opts[i].WithTimeout?
    ensures TimeoutAfter(opts, t) == opts[k].timeout
  {
    if k < |opts| - 1 {
      var init := opts[..|opts| - 1];
      assert forall i :: k < i < |init| ==> init[i] == opts[i];
      LastTimeoutWins(init, t, k);
    }
  }

  lemma {:induction false} NoTimeoutOption(opts: seq<GetterOption>, t: int)
    requires forall i :: 0 <= i < |opts| ==> !opts[i].WithTimeout?
    ensures TimeoutAfter(opts, t) == t
  {
    if opts != [] {
      var init := opts[..|opts| - 1];
      assert forall i :: 0 <= i < |init| ==> init[i] == opts[i];
      NoTimeoutOption(init, t);
    }
  }

  lemma {:induction false} LastInsecureWins(opts: seq<GetterOption>, b: bool, k: nat)
    requires k < |opts| && opts[k].WithInsecure?
    requires forall i :: k < i < |opts| ==> !opts[i].WithInsecure?
    ensures InsecureAfter(opts, b) == opts[k].insecure
  {
    if k < |opts| - 1 {
      var init := opts[..|opts| - 1];
      assert forall i :: k < i < |init| ==> init[i] == opts[i];
      LastInsecureWins(init, b, k);
    }
  }

  lemma {:induction false} NoInsecureOption(opts: seq<GetterOption>, b: bool)
    requires forall i :: 0 <= i < |opts| ==> !opts[i].WithInsecure?
    ensures InsecureAfter(opts, b) == b
  {
    if opts != [] {
      var init := opts[..|opts| - 1];
      assert forall i :: 0 <= i < |init| ==> init[i] == opts[i];
      NoInsecureOption(init, b);
    }
  }

  /** Getter (tlsver.go:29-35). */
  class Getter {
    var tcpAddr: string
    var timeout: int
    var insecure: bool
    var tlsVersion: TLSversion
    var err: Option<string>

    /** NewGetter (tlsver.go:51-61): the address, the defaults (10 seconds,
        certificates verified, no version, no error), then the options in
        argument order. */
    constructor (host: string, port: string, opts: seq<GetterOption>)
      ensures tcpAddr == JoinHostPort(host, port)
      ensures timeout == TimeoutAfter(opts, DefaultTimeout)
      ensures insecure == InsecureAfter(opts, false)
      ensures tlsVersion == 0 && err == None
    {
      tcpAddr := JoinHostPort(host, port);
      timeout := DefaultTimeout;
      insecure := false;
      tlsVersion := 0;
      err := None;
      new;
      for i := 0 to |opts|
        invariant timeout == TimeoutAfter(opts[..i], DefaultTimeout)
        invariant insecure == InsecureAfter(opts[..i], false)
        invariant tcpAddr == JoinHostPort(host, port) && tlsVersion == 0 && err == None
      {
        assert opts[..i + 1][..i] == opts[..i];
        Apply(opts[i]);
      }
      assert opts[..|opts|] == opts;
    }

    /** opt(g): the closure sets its one field. */
    method Apply(opt: GetterOption)
      modifies this
      ensures opt.WithTimeout? ==> timeout == opt.timeout && insecure == old(insecure)
      ensures opt.WithInsecure? ==> insecure == opt.insecure && timeout == old(timeout)
      ensures tcpAddr == old(tcpAddr) && tlsVersion == old(tlsVersion) && err == old(err)
    {
      match opt
      case WithTimeout(t) => timeout := t;
      case WithInsecure(b) => insecure := b;
    }

    /** Get (tlsver.go:63-76) with the outcome of the handshake as input:
        an error is stored and the version kept, otherwise the negotiated
        version is stored. */
    method Get(dial: Result<TLSversion, string>)
      modifies this
      ensures dial.Err? ==> err == Some(dial.error) && tlsVersion == old(tlsVersion)
      ensures dial.Ok? ==> tlsVersion == dial.value && err == old(err)
      ensures tcpAddr == old(tcpAddr) && timeout == old(timeout) && insecure == old(insecure)
    {
      if dial.Err? {
        err := Some(dial.error);
        return;
      }
      tlsVersion := dial.value;
    }
  }

  /** The case of TestGetGetsTLSVersionOfCloudflareServer: a fresh getter
      for 1.1.1.1:443 has the defaults, and a handshake that negotiates TLS
      1.3 shows "1.3". */
  method CloudflareCase() returns (shown: string)
    ensures shown == "1.3"
  {
    var g := new Getter("1.1.1.1", "443", []);
    assert g.timeout == DefaultTimeout && !g.insecure;
    g.Get(Ok(VersionTLS13));
    shown := String(g.tlsVersion);
  }
}
