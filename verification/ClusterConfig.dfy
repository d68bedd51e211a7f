/** The cluster configuration as objects: messages that are cloned, merged into and finished
    in place, while the configured ones stay as they are. */
module ClusterConfigObject {
  import opened Naming
  import opened Options
  import opened Overrides
  import opened Services
  import opened Slices

  class Message {
    var name: string
    var discovery: Option<Discovery>
    var timeout: Option<Duration>
    var filters: seq<string>
    var load: Option<Assignment>

    function Value(): Cluster
      reads this
    {
      Cluster(name, discovery, timeout, filters, load)
    }

    constructor (c: Cluster)
      ensures Value() == c
    {
      name, discovery, timeout, filters, load := c.name, c.discovery, c.timeout, c.filters, c.load;
    }

    /** proto.Merge(this, src). */
    method MergeFrom(src: Message)
      modifies this
      ensures Value() == Merge(old(Value()), old(src.Value()))
    {
      var s := src.Value();
      if s.name != "" {
        name := s.name;
      }
      discovery := MergeDiscovery(discovery, s.discovery);
      timeout := MergeTimeout(timeout, s.timeout);
      filters := filters + s.filters;
      load := MergeLoad(load, s.load);
    }
  }

  /** What the messages say. */
  function Values(ms: seq<Message>): seq<Cluster>
    reads ms
  {
    if ms == [] then [] else Values(ms[..|ms| - 1]) + [ms[|ms| - 1].Value()]
  }

  datatype ClusterOverride = ClusterOverride(matchers: seq<Option<Matcher>>, override: Message?, suppress: bool)

  class ClusterConfig {
    const base: Message
    const overrides: seq<ClusterOverride>

    ghost function Owned(): set<Message> {
      {base} + set i | 0 <= i < |overrides| && overrides[i].override != null :: overrides[i].override
    }

    ghost function RuleOf(o: ClusterOverride): Rule
      reads o.override
    {
      Rule(o.matchers, if o.override == null then None else Some(o.override.Value()), o.suppress)
    }

    ghost function Settings(): Settings
      reads Owned()
    {
      Services.Settings(base.Value(), seq(|overrides|, i requires 0 <= i < |overrides| reads Owned() => RuleOf(overrides[i])))
    }

    constructor (base: Message, overrides: seq<ClusterOverride>)
      ensures this.base == base && this.overrides == overrides
    {
      this.base, this.overrides := base, overrides;
    }

    /** A deep copy. */
    method GetBaseConfig() returns (c: Message)
      ensures fresh(c) && c.Value() == base.Value()
    {
      c := new Message(base.Value());
    }

    method Matches(o: ClusterOverride, cluster: Message, port: Option<ServicePort>) returns (matched: bool)
      ensures matched == Accepts(RuleOf(o), cluster.name, port)
    {
      matched := false;
      for j := 0 to |o.matchers|
        invariant !matched
        invariant forall k :: 0 <= k < j ==> !Evaluate(o.matchers[k], cluster.name, port)
      {
        matched := matched || Evaluate(o.matchers[j], cluster.name, port);
        if matched {
          break;
        }
      }
    }

    /** Applies the rules to the message; null if one of them suppresses it. */
    method ApplyOverride(cluster: Message, port: Option<ServicePort>) returns (r: Message?)
      requires cluster !in Owned()
      modifies cluster
      ensures match Fold(Settings().rules, old(cluster.Value()), port)
        case None => r == null
        case Some(v) => r == cluster && cluster.Value() == v
    {
      ghost var rules := Settings().rules;
      ghost var start := cluster.Value();
      assert rules[0..] == rules;
      for i := 0 to |overrides|
        invariant Settings().rules == rules
        invariant Fold(rules[i..], cluster.Value(), port) == Fold(rules, start, port)
      {
        var o := overrides[i];
        assert rules[i] == RuleOf(o) && rules[i..][1..] == rules[i + 1..];
        var matched := Matches(o, cluster, port);
        if matched {
          if o.override != null {
            assert o.override in Owned();
            cluster.MergeFrom(o.override);
            continue;
          }
          if o.suppress {
            return null;
          }
        }
      }
      assert rules[|overrides|..] == [];
      return cluster;
    }

    /** One round of the loop over a service's ports; null if the port makes no cluster. */
    method ClusterFromPort(s: Service, port: ServicePort) returns (r: Message?)
      ensures match FromPort(Settings(), s, port)
        case None => r == null
        case Some(v) => r != null && fresh(r) && r.Value() == v
    {
      var cl := GetBaseConfig();
      var named := NameCluster(s.namespace, s.name, port.name, port.number, port.protocol);
      cl.name := named.name;
      if cl.name == "" {
        return null;
      }
      r := ApplyOverride(cl, Some(port));
      if r == null {
        return;
      }
      if !IsEDS(r.Value()) {
        if r.discovery == None {
          r.discovery := Some(Type(STRICT_DNS));
        }
        r.load := Some(SingleTarget(r.name, s.name + "." + s.namespace + ".svc.cluster.local.", port.number, named.protocol));
      }
    }

    /** New messages with the clusters of a service; the configuration itself is not touched. */
    method ClustersFromService(svc: Option<Service>) returns (result: seq<Message>)
      ensures forall m :: m in result ==> fresh(m)
      ensures Settings() == old(Settings()) && Values(result) == FromService(Settings(), svc)
    {
      result := [];
      if svc.None? {
        return;
      }
      var ports := svc.value.ports;
      ghost var cfg := Settings();
      ghost var values: seq<Cluster> := [];
      for i := 0 to |ports|
        invariant Settings() == cfg && forall m :: m in result ==> fresh(m)
        invariant |values| == |result| && forall k :: 0 <= k < |result| ==> result[k].Value() == values[k]
        invariant values == FromPorts(cfg, svc.value, ports[..i])
      {
        assert ports[..i + 1][..i] == ports[..i];
        var cl := ClusterFromPort(svc.value, ports[i]);
        if cl != null {
          result, values := result + [cl], values + [cl.Value()];
        }
      }
      assert ports[..|ports|] == ports;
      ValuesAre(result, values);
    }
  }

  lemma {:induction false} ValuesAre(ms: seq<Message>, values: seq<Cluster>)
    requires |values| == |ms| && forall k :: 0 <= k < |ms| ==> ms[k].Value() == values[k]
    ensures Values(ms) == values
  {
    if ms != [] {
      var n := |ms| - 1;
      ValuesAre(ms[..n], values[..n]);
      assert values == values[..n] + [values[n]];
    }
  }
}
