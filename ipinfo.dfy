/** Information about an IP address (gotoolz/ipaddr/info/info.go): its DNS
    names, its ipinfo.io record and whether an AWS prefix contains it. The
    reverse lookup, both HTTP fetches, JSON decoding and net.ParseCIDR with
    Contains are foreign: their results are inputs here, the CIDR parser
    and the containment test as functions over an abstract network type. */
module IpInfo {
  import opened Results
  import opened Seqs
  import opened Strings

  /** strings.TrimSuffix(name, ".") (info.go:62). */
  function TrimDot(name: string): string {
    TrimSuffix(name, ".")
  }

  /** A name loses one trailing dot and no more; a name without one is
      kept. */
  lemma TrimDotAtMostOne(name: string)
    ensures HasSuffix(name, ".") ==> TrimDot(name) + "." == name
    ensures !HasSuffix(name, ".") ==> TrimDot(name) == name
    ensures HasSuffix(name, "..") ==> HasSuffix(TrimDot(name), ".")
  {
    if HasSuffix(name, "..") {
      var r := TrimDot(name);
      assert r == name[..|name| - 1];
      assert r[|r| - 1] == name[|name| - 2] == '.';
    }
  }

  /** The trimming loop of getDnsNames (info.go:61-63), in place. */
  method TrimNames(names: array<string>)
    modifies names
    ensures names[..] == Map(old(names[..]), TrimDot)
  {
    for i := 0 to names.Length
      invariant forall k :: 0 <= k < i ==> names[k] == TrimDot(old(names[k]))
      invariant forall k :: i <= k < names.Length ==> names[k] == old(names[k])
    {
      names[i] := TrimDot(names[i]);
    }
  }

  /** A lookup error counts only when names came with it. */
  predicate LookupFails(names: array<string>, lookupErr: Option<string>) {
    lookupErr.Some? && names.Length > 0
  }

  /** getDnsNames (info.go:51-65), given the answer of net.LookupAddr: an
      error with no names is dropped, an error with names is returned with
      the names untouched, otherwise every name is trimmed. */
  method GetDnsNames(names: array<string>, lookupErr: Option<string>) returns (err: Option<string>)
    modifies names
    ensures LookupFails(names, lookupErr) ==> err == lookupErr && names[..] == old(names[..])
    ensures !LookupFails(names, lookupErr) ==> err == None && names[..] == Map(old(names[..]), TrimDot)
  {
    if lookupErr.Some? && names.Length > 0 {
      return lookupErr;
    }
    TrimNames(names);
    err := None;
  }

  /** One entry of ip-ranges.json (info.go:104-109). */
  datatype Prefix = Prefix(ipPrefix: string, region: string, service: string, networkBorderGroup: string)

  /** AWS (info.go:93-99). */
  datatype AWS = AWS(isOn: bool, ipPrefix: string, region: string, services: seq<string>, networkBorderGroup: string)

  const NotOnAWS := AWS(false, "", "", [], "")

  /** The prefix parses and its network contains the address. */
  predicate Hit<N>(p: Prefix, parse: string -> Result<N, string>, contains: N -> bool) {
    parse(p.ipPrefix).Ok? && contains(parse(p.ipPrefix).value)
  }

  function HitBy<N>(parse: string -> Result<N, string>, contains: N -> bool): Prefix -> bool {
    (p: Prefix) => Hit(p, parse, contains)
  }

  function Service(p: Prefix): string { p.service }

  /** What the loop of isOnAWS has gathered after `ps` (info.go:128-134):
      a containing prefix turns IsOn on, overwrites the prefix, region and
      border group and appends its service. */
  function AwsOf<N>(ps: seq<Prefix>, parse: string -> Result<N, string>, contains: N -> bool): AWS {
    if ps == [] then NotOnAWS
    else
      var a := AwsOf(ps[..|ps| - 1], parse, contains);
      var p := ps[|ps| - 1];
      if Hit(p, parse, contains) then AWS(true, p.ipPrefix, p.region, a.services + [p.service], p.networkBorderGroup)
      else a
  }

  /** IsOn holds exactly when some prefix contains the address. */
  lemma {:induction false} AwsIsOn<N>(ps: seq<Prefix>, parse: string -> Result<N, string>, contains: N -> bool)
    ensures AwsOf(ps, parse, contains).isOn <==> exists i :: 0 <= i < |ps| && Hit(ps[i], parse, contains)
  {
    if ps != [] {
      var init := ps[..|ps| - 1];
      AwsIsOn(init, parse, contains);
      assert forall i :: 0 <= i < |init| ==> init[i] == ps[i];
    }
  }

  /** The prefix, region and border group are those of the last containing
      prefix. */
  lemma {:induction false} AwsLastHit<N>(ps: seq<Prefix>, parse: string -> Result<N, string>, contains: N -> bool, k: nat)
    requires k < |ps| && Hit(ps[k], parse, contains)
    requires forall i :: k < i < |ps| ==> !Hit(ps[i], parse, contains)
    ensures var a := AwsOf(ps, parse, contains);
      a.ipPrefix == ps[k].ipPrefix && a.region == ps[k].region && a.networkBorderGroup == ps[k].networkBorderGroup
  {
    if k < |ps| - 1 {
      var init := ps[..|ps| - 1];
      assert forall i :: k < i < |init| ==> init[i] == ps[i];
      AwsLastHit(init, parse, contains, k);
    }
  }

  /** Without a containing prefix nothing is set. */
  lemma {:induction false} AwsNoHit<N>(ps: seq<Prefix>, parse: string -> Result<N, string>, contains: N -> bool)
    requires forall i :: 0 <= i < |ps| ==> !Hit(ps[i], parse, contains)
    ensures AwsOf(ps, parse, contains) == NotOnAWS
  {
    if ps != [] {
      var init := ps[..|ps| - 1];
      assert forall i :: 0 <= i < |init| ==> init[i] == ps[i];
      AwsNoHit(init, parse, contains);
    }
  }

  /** Services holds one service per containing prefix, in list order,
      repeats kept. */
  lemma {:induction false} AwsServices<N>(ps: seq<Prefix>, parse: string -> Result<N, string>, contains: N -> bool)
    ensures AwsOf(ps, parse, contains).services == Map(Filter(ps, HitBy(parse, contains)), Service)
  {
    if ps != [] {
      AwsServices(ps[..|ps| - 1], parse, contains);
    }
  }

  /** The error of fmt.Errorf("parse CIDR %q: %v") for a prefix that does
      not parse. */
  function CidrError(ipPrefix: string, e: string): string {
    "parse CIDR \"" + ipPrefix + "\": " + e
  }

  /** The error of the first prefix that does not parse, if any. */
  function FirstFailure<N>(ps: seq<Prefix>, parse: string -> Result<N, string>): Option<string> {
    if ps == [] then None
    else if parse(ps[0].ipPrefix).Err? then Some(CidrError(ps[0].ipPrefix, parse(ps[0].ipPrefix).error))
    else FirstFailure(ps[1..], parse)
  }

  /** `k` is the first prefix that does not parse. */
  predicate FirstBad<N>(ps: seq<Prefix>, parse: string -> Result<N, string>, k: nat) {
    k < |ps| && parse(ps[k].ipPrefix).Err? && forall i :: 0 <= i < k ==> parse(ps[i].ipPrefix).Ok?
  }

  lemma {:induction false} FirstFailureNone<N>(ps: seq<Prefix>, parse: string -> Result<N, string>)
    requires forall i :: 0 <= i < |ps| ==> parse(ps[i].ipPrefix).Ok?
    ensures FirstFailure(ps, parse) == None
  {
    if ps != [] {
      assert forall i :: 0 <= i < |ps| - 1 ==> ps[1..][i] == ps[i + 1];
      FirstFailureNone(ps[1..], parse);
    }
  }

  lemma {:induction false} FirstFailureAt<N>(ps: seq<Prefix>, parse: string -> Result<N, string>, k: nat)
    requires FirstBad(ps, parse, k)
    ensures FirstFailure(ps, parse) == Some(CidrError(ps[k].ipPrefix, parse(ps[k].ipPrefix).error))
  {
    if k > 0 {
      assert parse(ps[0].ipPrefix).Ok?;
      assert forall i :: 0 <= i < k - 1 ==> ps[1..][i] == ps[i + 1];
      FirstFailureAt(ps[1..], parse, k - 1);
    }
  }

  /** The loop stopped at its first unparsable prefix with what it had
      gathered before it. */
  ghost predicate StoppedAtFirstBad<N>(ps: seq<Prefix>, parse: string -> Result<N, string>, contains: N -> bool, a: AWS) {
    exists k: nat :: FirstBad(ps, parse, k) && a == AwsOf(ps[..k], parse, contains)
  }

  /** isOnAWS (info.go:101-138) after the fetch and the decoding: a fetch
      error is returned with nothing set; an unparsable prefix ends the loop
      with its error and the fields gathered so far; otherwise the fields
      of all prefixes. */
  method IsOnAWS<N>(fetched: Result<seq<Prefix>, string>, parse: string -> Result<N, string>, contains: N -> bool)
    returns (a: AWS, err: Option<string>)
    ensures fetched.Err? ==> a == NotOnAWS && err == Some(fetched.error)
    ensures fetched.Ok? ==> err == FirstFailure(fetched.value, parse)
    ensures fetched.Ok? && err.None? ==> a == AwsOf(fetched.value, parse, contains)
    ensures fetched.Ok? && err.Some? ==> StoppedAtFirstBad(fetched.value, parse, contains, a)
  {
    a := NotOnAWS;
    if fetched.Err? {
      return a, Some(fetched.error);
    }
    var ps := fetched.value;
    for i := 0 to |ps|
      invariant forall k :: 0 <= k < i ==> parse(ps[k].ipPrefix).Ok?
      invariant a == AwsOf(ps[..i], parse, contains)
    {
      var p := ps[i];
      var network := parse(p.ipPrefix);
      if network.Err? {
        assert FirstBad(ps, parse, i);
        FirstFailureAt(ps, parse, i);
        return a, Some(CidrError(p.ipPrefix, network.error));
      }
      assert ps[..i + 1][..i] == ps[..i];
      if contains(network.value) {
        a := AWS(true, p.ipPrefix, p.region, a.services + [p.service], p.networkBorderGroup);
      }
    }
    assert ps[..|ps|] == ps;
    FirstFailureNone(ps, parse);
    err := None;
  }

  /** The error isOnAWS returns. */
  function AwsError<N>(fetched: Result<seq<Prefix>, string>, parse: string -> Result<N, string>): Option<string> {
    if fetched.Err? then Some(fetched.error) else FirstFailure(fetched.value, parse)
  }

  /** The answer of ipinfo.io (info.go:67-74). */
  datatype IpInfoRecord = IpInfoRecord(hostname: string, city: string, region: string, country: string, org: string, timezone: string)

  datatype Geolocation = Geolocation(city: string, country: string)

  /** Info (info.go:13-18). */
  datatype Info = Info(dnsNames: seq<string>, org: string, geolocation: Geolocation, aws: AWS)

  const NoInfo := Info([], "", Geolocation("", ""), NotOnAWS)

  /** Get (info.go:25-49): the DNS names, then the ipinfo.io record, then
      the AWS prefixes; the first step that fails ends Get with its error
      and the fields of the steps before it. A failing isOnAWS leaves the
      AWS field unset, whatever it had gathered. */
  method Get<N>(names: array<string>, lookupErr: Option<string>, record: Result<IpInfoRecord, string>,
                fetched: Result<seq<Prefix>, string>, parse: string -> Result<N, string>, contains: N -> bool)
    returns (info: Info, err: Option<string>)
    modifies names
    ensures LookupFails(names, lookupErr) ==> info == NoInfo && err == lookupErr
    ensures !LookupFails(names, lookupErr) ==> names[..] == Map(old(names[..]), TrimDot)
    ensures !LookupFails(names, lookupErr) && record.Err? ==> info == NoInfo.(dnsNames := names[..]) && err == Some(record.error)
    ensures !LookupFails(names, lookupErr) && record.Ok? ==> err == AwsError(fetched, parse)
    ensures !LookupFails(names, lookupErr) && record.Ok? ==>
      info == Info(names[..], record.value.org, Geolocation(record.value.city, record.value.country),
                   if err.None? then AwsOf(fetched.value, parse, contains) else NotOnAWS)
  {
    info := NoInfo;
    err := GetDnsNames(names, lookupErr);
    if err.Some? {
      return;
    }
    info := info.(dnsNames := names[..]);
    if record.Err? {
      return info, Some(record.error);
    }
    info := info.(org := record.value.org, geolocation := Geolocation(record.value.city, record.value.country));
    var aws;
    aws, err := IsOnAWS(fetched, parse, contains);
    if err.Some? {
      return;
    }
    info := info.(aws := aws);
  }
}
