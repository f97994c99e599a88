/**
 * `load_services_with_ingress` and the per-service decisions of the page loop:
 * which services get a page, the URL each is reached at, and how it is shown.
 */
module Services {
  import opened Wrappers
  import opened Values
  import opened Links

  /** `enable_ingress` or `ingress.enabled` is truthy. */
  predicate HasIngress(c: ServiceConfig) {
    c.enableIngress || c.ingressEnabled
  }

  /** A service gets a page when it has an ingress or a `loadbalancer` key. */
  predicate Selected(c: ServiceConfig) {
    HasIngress(c) || c.loadbalancer.Some?
  }

  /** The host part: the load balancer address when there is one, else `<beamline>-<name>.<namespace>`. */
  function Host(beamline: string, namespace: string, name: string, c: ServiceConfig): string
  {
    match c.loadbalancer
    case Some(lb) => lb
    case None => beamline + "-" + name + "." + namespace
  }

  /** `http://<host>` followed by the configured `path`, if any. */
  function ServiceUrl(beamline: string, namespace: string, name: string, c: ServiceConfig): string
  {
    "http://" + Host(beamline, namespace, name, c) + c.path.GetOr("")
  }

  /** One element of the returned `services` list. */
  datatype Service = Service(name: string, config: ServiceConfig, url: string)

  function ServiceOf(beamline: string, namespace: string, e: ServiceEntry): Service
  {
    Service(e.name, e.config, ServiceUrl(beamline, namespace, e.name, e.config))
  }

  /** The services list for the entries, in their order. */
  function Selection(beamline: string, namespace: string, entries: seq<ServiceEntry>): seq<Service>
  {
    if entries == [] then []
    else
      var init := Selection(beamline, namespace, entries[..|entries| - 1]);
      var e := entries[|entries| - 1];
      if Selected(e.config) then init + [ServiceOf(beamline, namespace, e)] else init
  }

  /** `load_services_with_ingress` over the loaded values. */
  method LoadServices(values: Values) returns (services: seq<Service>)
    ensures services == Selection(values.beamline, values.namespace, values.services)
    ensures |services| <= |values.services|
  {
    services := [];
    var beamline := values.beamline;
    var namespace := values.namespace;
    var entries := values.services;
    for i := 0 to |entries|
      invariant services == Selection(beamline, namespace, entries[..i])
      invariant |services| <= i
    {
      var name := entries[i].name;
      var config := entries[i].config;
      assert entries[..i + 1][..i] == entries[..i];
      if config.enableIngress || config.ingressEnabled || config.loadbalancer.Some? {
        var url;
        if config.loadbalancer.Some? {
          url := "http://" + config.loadbalancer.value;
        } else {
          url := "http://" + beamline + "-" + name + "." + namespace;
        }
        ghost var base := url;
        assert base == "http://" + Host(beamline, namespace, name, config);
        if config.path.Some? {
          url := url + config.path.value;
        } else {
          assert url == base + "";
        }
        services := services + [Service(name, config, url)];
      }
    }
    assert entries[..|entries|] == entries;
  }

  /** A service is listed exactly when a selected entry produced it, with the derived URL. */
  lemma {:induction false} SelectionMembers(beamline: string, namespace: string, entries: seq<ServiceEntry>, s: Service)
    ensures s in Selection(beamline, namespace, entries) <==>
      exists i :: 0 <= i < |entries| && Selected(entries[i].config) && s == ServiceOf(beamline, namespace, entries[i])
  {
    if entries != [] {
      var init := entries[..|entries| - 1];
      SelectionMembers(beamline, namespace, init, s);
      if exists i :: 0 <= i < |init| && Selected(init[i].config) && s == ServiceOf(beamline, namespace, init[i]) {
        var i :| 0 <= i < |init| && Selected(init[i].config) && s == ServiceOf(beamline, namespace, init[i]);
        assert entries[i] == init[i];
      }
      if exists i :: 0 <= i < |entries| && Selected(entries[i].config) && s == ServiceOf(beamline, namespace, entries[i]) {
        var i :| 0 <= i < |entries| && Selected(entries[i].config) && s == ServiceOf(beamline, namespace, entries[i]);
        if i < |init| {
          assert init[i] == entries[i];
        }
      }
    }
  }

  /** Selection keeps config order: selecting a concatenation concatenates the selections. */
  lemma {:induction false} SelectionAppend(beamline: string, namespace: string, a: seq<ServiceEntry>, b: seq<ServiceEntry>)
    ensures Selection(beamline, namespace, a + b) == Selection(beamline, namespace, a) + Selection(beamline, namespace, b)
    decreases |b|
  {
    if b != [] {
      assert (a + b)[..|a + b| - 1] == a + b[..|b| - 1];
      SelectionAppend(beamline, namespace, a, b[..|b| - 1]);
    } else {
      assert a + b == a;
    }
  }

  predicate DistinctNames(entries: seq<ServiceEntry>) {
    forall i, j :: 0 <= i < j < |entries| ==> entries[i].name != entries[j].name
  }

  predicate DistinctServiceNames(services: seq<Service>) {
    forall i, j :: 0 <= i < j < |services| ==> services[i].name != services[j].name
  }

  /** The services mapping has one entry per name, so the list has at most one service per name. */
  lemma {:induction false} SelectionDistinct(beamline: string, namespace: string, entries: seq<ServiceEntry>)
    requires DistinctNames(entries)
    ensures DistinctServiceNames(Selection(beamline, namespace, entries))
  {
    if entries != [] {
      var init := entries[..|entries| - 1];
      var e := entries[|entries| - 1];
      SelectionDistinct(beamline, namespace, init);
      var sel := Selection(beamline, namespace, init);
      forall k | 0 <= k < |sel|
        ensures sel[k].name != e.name
      {
        SelectionMembers(beamline, namespace, init, sel[k]);
        var i :| 0 <= i < |init| && Selected(init[i].config) && sel[k] == ServiceOf(beamline, namespace, init[i]);
        assert init[i] == entries[i];
      }
    }
  }

  /**
   * The URL of a listed service: it starts with `http://`, ends with the configured path,
   * and in between is the load balancer address when one is set, else `<beamline>-<name>.<namespace>`.
   * This spells out the definition of `ServiceUrl`; that the loop of `LoadServices` builds
   * exactly these URLs is the postcondition of `LoadServices` itself.
   */
  lemma ServiceUrlParts(beamline: string, namespace: string, name: string, c: ServiceConfig)
    ensures var url := ServiceUrl(beamline, namespace, name, c);
      && |url| >= 7 && url[..7] == "http://"
      && (c.path.Some? ==> url[|url| - |c.path.value|..] == c.path.value)
      && (c.loadbalancer.Some? ==> url == "http://" + c.loadbalancer.value + c.path.GetOr(""))
      && (c.loadbalancer.None? ==> url == "http://" + beamline + "-" + name + "." + namespace + c.path.GetOr(""))
  {
  }

  /** What a service page shows first: a plain address line, or a section holding the link. */
  datatype Connection = ConnectionIp(address: string) | ServiceUrlSection(url: string)

  /** The connection shown for a service: the address only for a load balancer without ingress. */
  function ConnectionOf(s: Service): Connection
  {
    match s.config.loadbalancer
    case Some(lb) => if !HasIngress(s.config) then ConnectionIp(lb) else ServiceUrlSection(s.url)
    case None => ServiceUrlSection(s.url)
  }

  /** The markdown of the connection part of a service page. */
  function ConnectionText(c: Connection): string
  {
    match c
    case ConnectionIp(address) => "**Connection IP:** " + address
    case ServiceUrlSection(url) => "## Service URL\n\n" + MarkdownLink(url)
  }

  const DefaultServiceDescription := "This is an EPICS service with ingress enabled."

  /** `service_config.get('desc', ...)`. */
  function ServiceDescription(c: ServiceConfig): string
  {
    c.desc.GetOr(DefaultServiceDescription)
  }

  /** The description shown: the configured `desc` as it is, else the fixed default text. */
  lemma ServiceDescriptionDefault(c: ServiceConfig)
    ensures c.desc.None? ==> ServiceDescription(c) == DefaultServiceDescription
    ensures c.desc.Some? ==> ServiceDescription(c) == c.desc.value
    ensures DefaultServiceDescription == "This is an EPICS service with ingress enabled."
  {
  }

  /**
   * For every listed service, the URL section is shown exactly when it has an ingress,
   * the address line otherwise, and the address is then the load balancer that the URL points at.
   */
  lemma ConnectionOfListed(beamline: string, namespace: string, entries: seq<ServiceEntry>, s: Service)
    requires s in Selection(beamline, namespace, entries)
    ensures ConnectionOf(s).ServiceUrlSection? <==> HasIngress(s.config)
    ensures ConnectionOf(s).ServiceUrlSection? ==> ConnectionOf(s).url == s.url
    ensures ConnectionOf(s).ConnectionIp? ==>
      s.config.loadbalancer == Some(ConnectionOf(s).address)
      && s.url == "http://" + ConnectionOf(s).address + s.config.path.GetOr("")
  {
    SelectionMembers(beamline, namespace, entries, s);
  }

  /** A service with a load balancer at 10.0.0.5 and no ingress is listed and shows the bare address. */
  lemma LoadBalancerAddress(beamline: string, namespace: string, name: string)
    ensures var c := ServiceConfig(false, false, Some("10.0.0.5"), None, None);
      Selection(beamline, namespace, [ServiceEntry(name, c)]) == [Service(name, c, "http://10.0.0.5")]
      && ConnectionText(ConnectionOf(Service(name, c, "http://10.0.0.5"))) == "**Connection IP:** 10.0.0.5"
  {
    var c := ServiceConfig(false, false, Some("10.0.0.5"), None, None);
    assert "http://" + "10.0.0.5" + "" == "http://10.0.0.5";
    assert ServiceUrl(beamline, namespace, name, c) == "http://10.0.0.5";
  }

  /** With ingress enabled, the same load balancer is shown as a link to its URL. */
  lemma LoadBalancerIngress(beamline: string, namespace: string, name: string)
    ensures var c := ServiceConfig(true, false, Some("10.0.0.5"), None, None);
      ConnectionOf(ServiceOf(beamline, namespace, ServiceEntry(name, c))) == ServiceUrlSection("http://10.0.0.5")
  {
    var c := ServiceConfig(true, false, Some("10.0.0.5"), None, None);
    assert "http://" + "10.0.0.5" + "" == "http://10.0.0.5";
    assert ServiceUrl(beamline, namespace, name, c) == "http://10.0.0.5";
  }
}
