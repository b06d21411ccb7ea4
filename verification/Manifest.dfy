/** Manifests (manifest/types.go, manifest/parse.go, provider/cluster/util/util.go). */
module Manifest {
  import opened Wrappers
  import opened ResourceTypes

  datatype ServiceExpose = ServiceExpose(
    port: nat,
    externalPort: nat,
    proto: string,
    service: string,
    global: bool,
    hosts: seq<string>)

  datatype Service = Service(
    name: string,
    image: string,
    args: seq<string>,
    env: seq<string>,
    resources: ResourceUnits,
    count: nat,
    expose: seq<ServiceExpose>)

  datatype Group = Group(name: string, services: seq<Service>)

  function GroupResources(g: Group): seq<Resources> {
    ServiceResources(g.services)
  }

  function ServiceResources(ss: seq<Service>): (r: seq<Resources>)
    ensures |r| == |ss| && forall i :: 0 <= i < |ss| ==> r[i] == Resources(ss[i].resources, ss[i].count)
  {
    if ss == [] then [] else [Resources(ss[0].resources, ss[0].count)] + ServiceResources(ss[1..])
  }

  function ExposeExternalPort(e: ServiceExpose): nat {
    if e.externalPort == 0 then e.port else e.externalPort
  }

  predicate ShouldBeIngress(e: ServiceExpose) {
    e.proto == "TCP" && e.global && ExposeExternalPort(e) == 80
  }

  function Upper(c: char): char {
    if 'a' <= c <= 'z' then c - 'a' + 'A' else c
  }

  function Uppercase(s: string): (r: string)
    ensures |r| == |s| && forall i :: 0 <= i < |s| ==> r[i] == Upper(s[i])
  {
    seq(|s|, i requires 0 <= i < |s| => Upper(s[i]))
  }

  /** Case-insensitive; an empty protocol means TCP. */
  function ParseServiceProtocol(input: string): Option<string> {
    if input == "" then Some("TCP")
    else
      var upper := Uppercase(input);
      if upper == "TCP" || upper == "UDP" then Some(upper) else None
  }

  /** Two spellings that differ in case only. */
  ghost predicate SameLetters(a: string, b: string) {
    |a| == |b| && forall i :: 0 <= i < |a| ==> Upper(a[i]) == Upper(b[i])
  }

  /** A protocol is TCP if it is not given or spells TCP in any case, UDP if it spells that, and otherwise unknown. */
  lemma ProtocolMeans(input: string)
    ensures ParseServiceProtocol(input) == Some("TCP") <==> input == "" || SameLetters(input, "tcp")
    ensures ParseServiceProtocol(input) == Some("UDP") <==> SameLetters(input, "udp")
    ensures ParseServiceProtocol(input).Some? ==> ParseServiceProtocol(input).value in {"TCP", "UDP"}
  {
    SpelledIff(input, "tcp", "TCP");
    SpelledIff(input, "udp", "UDP");
  }

  lemma SpelledIff(input: string, lower: string, upper: string)
    requires upper == Uppercase(lower)
    ensures Uppercase(input) == upper <==> SameLetters(input, lower)
  {
    if SameLetters(input, lower) {
      assert Uppercase(input) == upper;
    }
    if Uppercase(input) == upper {
      forall i | 0 <= i < |input| ensures Upper(input[i]) == Upper(lower[i]) {
        assert Uppercase(input)[i] == upper[i];
      }
    }
  }
}
