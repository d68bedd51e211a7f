/** How a port of a service, or of an endpoint slice, becomes the name of a cluster. CDS and
    EDS meet only through these names. */
module Naming {
  import opened Text

  type Int32 = x: int | -0x8000_0000 <= x < 0x8000_0000

  datatype EnvoyProtocol = TCP | UDP

  datatype ClusterName = ClusterName(name: string, protocol: EnvoyProtocol)

  /** The name of the port, or its number in decimal if it has none. */
  function PortKey(portName: string, portNumber: Int32): string {
    if portName == "" then Itoa(portNumber) else portName
  }

  predicate Supported(portProtocol: string) {
    portProtocol == "TCP" || portProtocol == "" || portProtocol == "UDP"
  }

  function ProtocolOf(portProtocol: string): EnvoyProtocol {
    if portProtocol == "UDP" then UDP else TCP
  }

  function Suffix(protocol: EnvoyProtocol): string {
    if protocol == UDP then ":udp" else ""
  }

  /** namespace:service:port[:udp], or the empty name if Envoy does not speak the protocol. */
  function NameCluster(
    namespace: string, service: string, portName: string, portNumber: Int32, portProtocol: string): ClusterName
  {
    if !Supported(portProtocol) then ClusterName("", TCP)
    else
      var protocol := ProtocolOf(portProtocol);
      ClusterName(namespace + ":" + (service + ":" + (PortKey(portName, portNumber) + Suffix(protocol))), protocol)
  }

  /** The text that stands for a port: its name, or else its number in decimal. */
  predicate StandsForPort(key: string, portName: string, portNumber: Int32) {
    if portName != "" then key == portName else Writes(key, portNumber)
  }

  /** Which name and which protocol a port gets, spelled out: TCP is the default and leaves no
      trace in the name, UDP is appended to it, and no other protocol is named. */
  lemma NameSpelled(
    namespace: string, service: string, portName: string, portNumber: Int32, portProtocol: string)
    returns (key: string)
    ensures StandsForPort(key, portName, portNumber)
    ensures var c := NameCluster(namespace, service, portName, portNumber, portProtocol);
      if portProtocol == "TCP" || portProtocol == "" then
        c == ClusterName(namespace + ":" + service + ":" + key, TCP)
      else if portProtocol == "UDP" then
        c == ClusterName(namespace + ":" + service + ":" + key + ":udp", UDP)
      else c.name == ""
  {
    key := PortKey(portName, portNumber);
    ItoaWrites(key, portNumber);
    Spelled(namespace, service, key, "");
    Spelled(namespace, service, key, ":udp");
  }

  lemma Spelled(a: string, b: string, c: string, d: string)
    ensures a + ":" + (b + ":" + (c + d)) == a + ":" + b + ":" + c + d
  {
    assert b + ":" + (c + d) == b + ":" + c + d;
  }

  lemma EmptyNameIffUnsupported(ns: string, svc: string, portName: string, port: Int32, proto: string)
    ensures NameCluster(ns, svc, portName, port, proto).name == "" <==> !Supported(proto)
  {
    if Supported(proto) {
      assert NameCluster(ns, svc, portName, port, proto).name[|ns|] == ':';
    }
  }

  lemma OnlyUdpAddsColon(k: string, p: EnvoyProtocol)
    requires ColonFree(k)
    ensures ColonFree(k + Suffix(p)) <==> p == TCP
  {
    if p == UDP {
      assert (k + ":udp")[|k|] == ':';
    }
  }

  lemma SuffixApart(k1: string, p1: EnvoyProtocol, k2: string, p2: EnvoyProtocol)
    requires ColonFree(k1) && ColonFree(k2) && k1 + Suffix(p1) == k2 + Suffix(p2)
    ensures k1 == k2 && p1 == p2
  {
    OnlyUdpAddsColon(k1, p1);
    OnlyUdpAddsColon(k2, p2);
    var s := k1 + Suffix(p1);
    assert k1 == s[..|s| - |Suffix(p1)|] == s[..|s| - |Suffix(p2)|] == k2;
  }

  /** Colon-free parts can be read back from the name: two supported ports get one name
      exactly when namespace, service, port key and protocol agree. */
  lemma NamesAgree(
    ns1: string, svc1: string, name1: string, num1: Int32, proto1: string,
    ns2: string, svc2: string, name2: string, num2: Int32, proto2: string)
    requires ColonFree(ns1) && ColonFree(svc1) && ColonFree(name1)
    requires ColonFree(ns2) && ColonFree(svc2) && ColonFree(name2)
    requires Supported(proto1) && Supported(proto2)
    ensures NameCluster(ns1, svc1, name1, num1, proto1).name == NameCluster(ns2, svc2, name2, num2, proto2).name
      <==> ns1 == ns2 && svc1 == svc2 && PortKey(name1, num1) == PortKey(name2, num2)
           && ProtocolOf(proto1) == ProtocolOf(proto2)
  {
    var t1 := PortKey(name1, num1) + Suffix(ProtocolOf(proto1));
    var t2 := PortKey(name2, num2) + Suffix(ProtocolOf(proto2));
    if ns1 + ":" + (svc1 + ":" + t1) == ns2 + ":" + (svc2 + ":" + t2) {
      SplitAtColon(ns1, svc1 + ":" + t1, ns2, svc2 + ":" + t2);
      SplitAtColon(svc1, t1, svc2, t2);
      SuffixApart(PortKey(name1, num1), ProtocolOf(proto1), PortKey(name2, num2), ProtocolOf(proto2));
    }
  }

  /** Unnamed ports of one service get one name only if they have one number. */
  lemma UnnamedPortsAgree(ns: string, svc: string, num1: Int32, num2: Int32, proto: string)
    requires ColonFree(ns) && ColonFree(svc) && Supported(proto)
    requires NameCluster(ns, svc, "", num1, proto).name == NameCluster(ns, svc, "", num2, proto).name
    ensures num1 == num2
  {
    NamesAgree(ns, svc, "", num1, proto, ns, svc, "", num2, proto);
    ItoaInjective(num1, num2);
  }

  /** Colons spoil it: two services in different namespaces can collide. */
  lemma ColonsCollide()
    ensures NameCluster("a", "b:c", "p", 1, "TCP") == NameCluster("a:b", "c", "p", 1, "TCP")
  {
    assert "a" + ":" + ("b:c" + ":" + ("p" + "")) == "a:b" + ":" + ("c" + ":" + ("p" + ""));
  }
}
