// The automation service's main loop: the startup sync over the services
// already running, then one step per Docker service event. The engine tracks
// which hostnames it provisioned for which service id, and drives the
// directory client, the certificate directory and the catalog registry.
module Engine {
  import opened Wrappers
  import opened Seqs
  import opened Hostnames
  import opened FreeIpa
  import opened Catalog

  /** A Docker service as the engine sees it: its id, its name and its labels. */
  datatype Service = Service(id: string, name: string, labels: Labels)

  datatype Action = Create | Update | Remove | OtherAction

  /** A service event; the actor id may be missing. */
  datatype Event = Event(action: Action, serviceId: Option<string>)

  /** What `services.get(id)` finds when the event is handled. */
  type Cluster = map<string, Service>

  datatype Config = Config(client: Client, ips: seq<string>, requiredLabel: string, fromTraefik: bool)

  /** Seconds between re-authentications. */
  const KinitInterval := 3600

  /** The client operations the engine invokes, in the order it invokes them. */
  datatype Call =
    | Authenticate
    | AddDns(host: string, ips: seq<string>)
    | RequestCert(host: string)
    | RemoveDns(host: string, ips: seq<string>)
    | RevokeCert(host: string)

  /** What an event amounts to. */
  datatype Plan =
    | Ignore
    | Retire(id: string, hosts: seq<string>)
    | Provision(id: string, serviceName: string, hosts: seq<string>)

  /** A service takes part only when its required label is exactly "true". */
  predicate Enrolled(cfg: Config, s: Service) {
    Get(s.labels, cfg.requiredLabel) == Some("true")
  }

  /** The decision the event loop takes for one event. */
  function PlanFor(cfg: Config, managed: map<string, seq<string>>, e: Event, cluster: Cluster): Plan {
    match e.serviceId
    case None => Ignore
    case Some(id) =>
      if id == "" then Ignore
      else if e.action == Remove then (if id in managed then Retire(id, managed[id]) else Ignore)
      else if id !in cluster || !Enrolled(cfg, cluster[id]) then Ignore
      else
        var hosts := Hostnames.Hostnames(cluster[id].labels, cfg.client.zone, cfg.fromTraefik);
        if hosts == [] || e.action == OtherAction then Ignore
        else Provision(id, cluster[id].name, hosts)
  }

  /** The tracked services after carrying out a plan. */
  function AfterPlan(managed: map<string, seq<string>>, p: Plan): map<string, seq<string>> {
    match p
    case Ignore => managed
    case Retire(id, _) => managed - {id}
    case Provision(id, _, hosts) => managed[id := hosts]
  }

  /** The tracked services after the event. */
  function Tracked(cfg: Config, managed: map<string, seq<string>>, e: Event, cluster: Cluster): map<string, seq<string>> {
    AfterPlan(managed, PlanFor(cfg, managed, e, cluster))
  }

  /** The calls made for one hostname of a created or updated service. */
  function HostCalls(cfg: Config, host: string): seq<Call> {
    [AddDns(host, cfg.ips)] + (if cfg.client.certEnabled then [RequestCert(host)] else [])
  }

  function ProvisionCalls(cfg: Config, hosts: seq<string>): seq<Call>
    decreases |hosts|
  {
    if hosts == [] then [] else ProvisionCalls(cfg, hosts[..|hosts| - 1]) + HostCalls(cfg, hosts[|hosts| - 1])
  }

  /** The calls made for one hostname of a removed service. */
  function RetireCalls(cfg: Config, hosts: seq<string>): seq<Call>
    decreases |hosts|
  {
    if hosts == [] then []
    else
      var h := hosts[|hosts| - 1];
      RetireCalls(cfg, hosts[..|hosts| - 1]) + [RemoveDns(h, cfg.ips), RevokeCert(h)]
  }

  function PlanCalls(cfg: Config, p: Plan): seq<Call> {
    match p
    case Ignore => []
    case Retire(_, hosts) => RetireCalls(cfg, hosts)
    case Provision(_, _, hosts) => ProvisionCalls(cfg, hosts)
  }

  /**
   * Provisioning visits the hostnames in order: for hostname `i`, the DNS
   * add comes first, followed by the certificate request when certificates
   * are enabled.
   */
  lemma {:induction false} ProvisionCallsAt(cfg: Config, hosts: seq<string>)
    ensures var w := if cfg.client.certEnabled then 2 else 1;
      |ProvisionCalls(cfg, hosts)| == w * |hosts| &&
      forall i :: 0 <= i < |hosts| ==>
        ProvisionCalls(cfg, hosts)[w * i] == AddDns(hosts[i], cfg.ips) &&
        (cfg.client.certEnabled ==> ProvisionCalls(cfg, hosts)[w * i + 1] == RequestCert(hosts[i]))
    decreases |hosts|
  {
    if hosts != [] {
      var n := |hosts| - 1;
      ProvisionCallsAt(cfg, hosts[..n]);
      var w := if cfg.client.certEnabled then 2 else 1;
      forall i | 0 <= i < n ensures hosts[..n][i] == hosts[i] {
      }
      assert w * n + w == w * (n + 1);
    }
  }

  /** Retirement visits the recorded hostnames in order: DNS removal, then revocation, for each. */
  lemma {:induction false} RetireCallsAt(cfg: Config, hosts: seq<string>)
    ensures |RetireCalls(cfg, hosts)| == 2 * |hosts|
    ensures forall i :: 0 <= i < |hosts| ==>
      RetireCalls(cfg, hosts)[2 * i] == RemoveDns(hosts[i], cfg.ips) &&
      RetireCalls(cfg, hosts)[2 * i + 1] == RevokeCert(hosts[i])
    decreases |hosts|
  {
    if hosts != [] {
      var n := |hosts| - 1;
      RetireCallsAt(cfg, hosts[..n]);
      forall i | 0 <= i < n ensures hosts[..n][i] == hosts[i] {
      }
    }
  }

  /**
   * The event cases: an event without an id, a removal of an untracked id,
   * and a create or update of a service that is gone, not enrolled or without
   * hostnames change nothing; a removal forgets the id; a create or update
   * replaces the id's hostname list with the new one.
   */
  lemma TrackedSpec(cfg: Config, managed: map<string, seq<string>>, e: Event, cluster: Cluster)
    ensures e.serviceId.None? || e.serviceId == Some("") ==> Tracked(cfg, managed, e, cluster) == managed
    ensures e.serviceId.Some? && e.serviceId.value != "" && e.action == Remove ==>
      Tracked(cfg, managed, e, cluster) == managed - {e.serviceId.value}
    ensures (e.serviceId.Some? && e.action != Remove &&
              (e.serviceId.value !in cluster || !Enrolled(cfg, cluster[e.serviceId.value]) ||
               Hostnames.Hostnames(cluster[e.serviceId.value].labels, cfg.client.zone, cfg.fromTraefik) == [])) ==>
      Tracked(cfg, managed, e, cluster) == managed
    ensures (e.serviceId.Some? && e.serviceId.value != "" && (e.action == Create || e.action == Update) &&
             e.serviceId.value in cluster && Enrolled(cfg, cluster[e.serviceId.value]) &&
             Hostnames.Hostnames(cluster[e.serviceId.value].labels, cfg.client.zone, cfg.fromTraefik) != []) ==>
      Tracked(cfg, managed, e, cluster) ==
        managed[e.serviceId.value := Hostnames.Hostnames(cluster[e.serviceId.value].labels, cfg.client.zone, cfg.fromTraefik)]
  {
  }

  /** Creating an enrolled service and then removing it leaves the other tracked services as they were. */
  lemma CreateThenRemove(cfg: Config, managed: map<string, seq<string>>, id: string, cluster: Cluster, later: Cluster)
    requires id != "" && id in cluster && Enrolled(cfg, cluster[id])
    requires Hostnames.Hostnames(cluster[id].labels, cfg.client.zone, cfg.fromTraefik) != []
    ensures var once := Tracked(cfg, managed, Event(Create, Some(id)), cluster);
      id in once &&
      PlanFor(cfg, once, Event(Remove, Some(id)), later) ==
        Retire(id, Hostnames.Hostnames(cluster[id].labels, cfg.client.zone, cfg.fromTraefik)) &&
      Tracked(cfg, once, Event(Remove, Some(id)), later) == managed - {id}
  {
    var once := Tracked(cfg, managed, Event(Create, Some(id)), cluster);
    assert once == managed[id := Hostnames.Hostnames(cluster[id].labels, cfg.client.zone, cfg.fromTraefik)];
    assert once - {id} == managed - {id};
  }

  /** The calls the startup sync makes for one service. */
  function SyncCalls(cfg: Config, s: Service): seq<Call> {
    if Synced(cfg, s) then ProvisionCalls(cfg, Hostnames.Hostnames(s.labels, cfg.client.zone, cfg.fromTraefik)) else []
  }

  /** The calls the startup sync makes for `services`, in order. */
  function StartupCalls(cfg: Config, services: seq<Service>): seq<Call>
    decreases |services|
  {
    if services == [] then [] else StartupCalls(cfg, services[..|services| - 1]) + SyncCalls(cfg, services[|services| - 1])
  }

  /** The tracked services after the startup sync over `services`. */
  function InitialTracked(cfg: Config, services: seq<Service>): map<string, seq<string>>
    decreases |services|
  {
    if services == [] then map[]
    else
      var s := services[|services| - 1];
      var m := InitialTracked(cfg, services[..|services| - 1]);
      if Synced(cfg, s) then m[s.id := Hostnames.Hostnames(s.labels, cfg.client.zone, cfg.fromTraefik)] else m
  }

  /** A service the startup sync provisions: enrolled and yielding hostnames. */
  predicate Synced(cfg: Config, s: Service) {
    Enrolled(cfg, s) && Hostnames.Hostnames(s.labels, cfg.client.zone, cfg.fromTraefik) != []
  }

  /** After the sync, an id is tracked exactly when some enrolled service with that id yields hostnames. */
  lemma {:induction false} InitialTrackedKeys(cfg: Config, services: seq<Service>)
    ensures forall id :: id in InitialTracked(cfg, services) <==>
      exists i :: 0 <= i < |services| && services[i].id == id && Synced(cfg, services[i])
    decreases |services|
  {
    if services != [] {
      var n := |services| - 1;
      InitialTrackedKeys(cfg, services[..n]);
      assert forall i :: 0 <= i < n ==> services[..n][i] == services[i];
    }
  }

  /** After the sync, every tracked id holds a non-empty, duplicate-free hostname list. */
  lemma {:induction false} InitialTrackedWellFormed(cfg: Config, services: seq<Service>)
    ensures forall id :: id in InitialTracked(cfg, services) ==>
      InitialTracked(cfg, services)[id] != [] && NoDup(InitialTracked(cfg, services)[id])
    decreases |services|
  {
    if services != [] {
      var n := |services| - 1;
      InitialTrackedWellFormed(cfg, services[..n]);
      HostnamesSpec(services[n].labels, cfg.client.zone, cfg.fromTraefik);
    }
  }

  function AsSet(hosts: seq<string>): set<string> { set h | h in hosts }

  /** The certificate and key file names of some hostnames. */
  function CertNames(hosts: seq<string>): set<string> {
    (set h | h in hosts :: CrtName(h)) + (set h | h in hosts :: KeyName(h))
  }

  /** The certificate names of one more hostname. */
  lemma FilesStep(h: string, hosts: seq<string>)
    ensures CertNames(hosts + [h]) == CertNames(hosts) + {CrtName(h), KeyName(h)}
  {
  }

  /**
   * What the engine changes besides its tracking table: the catalog's
   * entries and their insertion order, the certificate directory, and the
   * directory Traefik's configuration was last written from (`None` while
   * this process has written none).
   */
  datatype Store = Store(entries: map<string, Entry>, order: seq<string>, files: set<string>, served: Option<set<string>>)

  /**
   * One hostname of a created, updated or synced service: request_certificate
   * (a no-op when certificates are disabled), Traefik's list rewritten when a
   * certificate was issued, then the hostname's catalog entry.
   */
  function ProvisionStep(c: Client, s: Store, host: string, name: string, shell: Shell,
                         parseDate: string -> Option<int>, now: int, stamp: string): Store
  {
    var r := RequestCertificate(c, host, s.files, shell, parseDate, now);
    Store(s.entries[host := AutoEntry(host, name, c.zone, true, c.certEnabled && r.ok, "", stamp)],
          Upsert(s.order, host), r.files, if r.rebuilt then Some(r.files) else s.served)
  }

  /** Provisioning `hosts` in turn. */
  function ProvisionStore(c: Client, s: Store, hosts: seq<string>, name: string, shell: Shell,
                          parseDate: string -> Option<int>, now: int, stamp: string): Store
    decreases |hosts|
  {
    if hosts == [] then s
    else
      var n := |hosts| - 1;
      ProvisionStep(c, ProvisionStore(c, s, hosts[..n], name, shell, parseDate, now, stamp), hosts[n], name, shell, parseDate, now, stamp)
  }

  /** One hostname of a removed service: revoke_certificate, then remove_from_registry. */
  function RetireStep(c: Client, s: Store, host: string): Store {
    var r := RevokeCertificate(c, host, s.files);
    Store(s.entries - {host}, Without(s.order, host), r.files, if r.rebuilt then Some(r.files) else s.served)
  }

  /** Retiring `hosts` in turn. */
  function RetireStore(c: Client, s: Store, hosts: seq<string>): Store
    decreases |hosts|
  {
    if hosts == [] then s else RetireStep(c, RetireStore(c, s, hosts[..|hosts| - 1]), hosts[|hosts| - 1])
  }

  /** The store after carrying out a plan. */
  function PlanStore(c: Client, p: Plan, s: Store, shell: Shell, parseDate: string -> Option<int>, now: int,
                     stamp: string): Store
  {
    match p
    case Ignore => s
    case Retire(_, hosts) => RetireStore(c, s, hosts)
    case Provision(_, name, hosts) => ProvisionStore(c, s, hosts, name, shell, parseDate, now, stamp)
  }

  /**
   * The registry after provisioning `hosts` of service `name`: those hosts
   * hold discovered entries (with a certificate flag that can only be set
   * when certificates are enabled); every other entry is untouched.
   */
  ghost predicate Provisioned(before: map<string, Entry>, after: map<string, Entry>, hosts: seq<string>,
                              name: string, c: Client, stamp: string) {
    && (forall k :: k in after <==> k in before || k in hosts)
    && (forall k :: k in after && k !in hosts ==> after[k] == before[k])
    && (forall h :: h in hosts ==>
          after[h] == AutoEntry(h, name, c.zone, true, after[h].hasCertificate, "", stamp) &&
          (after[h].hasCertificate ==> c.certEnabled))
  }

  lemma ProvisionedStep(before: map<string, Entry>, mid: map<string, Entry>, hosts: seq<string>, h: string,
                        name: string, c: Client, stamp: string, hasCert: bool)
    requires Provisioned(before, mid, hosts, name, c, stamp)
    requires hasCert ==> c.certEnabled
    ensures Provisioned(before, mid[h := AutoEntry(h, name, c.zone, true, hasCert, "", stamp)], hosts + [h], name, c, stamp)
  {
    var after := mid[h := AutoEntry(h, name, c.zone, true, hasCert, "", stamp)];
    forall k ensures k in hosts + [h] <==> k in hosts || k == h {
    }
    forall k | k in after && k !in hosts + [h] ensures after[k] == before[k] {
      assert k != h && k !in hosts;
    }
    forall x | x in hosts + [h]
      ensures after[x] == AutoEntry(x, name, c.zone, true, after[x].hasCertificate, "", stamp)
      ensures after[x].hasCertificate ==> c.certEnabled
    {
      if x != h {
        assert x in hosts && after[x] == mid[x];
      }
    }
  }

  /** Provisioning writes a discovered entry for each hostname and leaves the other entries alone. */
  lemma {:induction false} ProvisionEntries(c: Client, s: Store, hosts: seq<string>, name: string, shell: Shell,
                                            parseDate: string -> Option<int>, now: int, stamp: string)
    ensures Provisioned(s.entries, ProvisionStore(c, s, hosts, name, shell, parseDate, now, stamp).entries, hosts, name, c, stamp)
    decreases |hosts|
  {
    if hosts != [] {
      var n := |hosts| - 1;
      var m := ProvisionStore(c, s, hosts[..n], name, shell, parseDate, now, stamp);
      ProvisionEntries(c, s, hosts[..n], name, shell, parseDate, now, stamp);
      var r := RequestCertificate(c, hosts[n], m.files, shell, parseDate, now);
      ProvisionedStep(s.entries, m.entries, hosts[..n], hosts[n], name, c, stamp, c.certEnabled && r.ok);
      assert hosts == hosts[..n] + [hosts[n]];
    }
  }

  /**
   * A new hostname joins the end of the insertion order and the keys already
   * there keep their places.
   */
  lemma {:induction false} ProvisionOrder(c: Client, s: Store, hosts: seq<string>, name: string, shell: Shell,
                                          parseDate: string -> Option<int>, now: int, stamp: string)
    ensures var t := ProvisionStore(c, s, hosts, name, shell, parseDate, now, stamp);
      && |s.order| <= |t.order| && t.order[..|s.order|] == s.order
      && (forall k :: k in t.order <==> k in s.order || k in hosts)
    decreases |hosts|
  {
    if hosts != [] {
      var n := |hosts| - 1;
      var m := ProvisionStore(c, s, hosts[..n], name, shell, parseDate, now, stamp);
      ProvisionOrder(c, s, hosts[..n], name, shell, parseDate, now, stamp);
      var t := ProvisionStore(c, s, hosts, name, shell, parseDate, now, stamp);
      assert t.order == Upsert(m.order, hosts[n]);
      assert forall k :: k in hosts <==> k in hosts[..n] || k == hosts[n] by {
        assert hosts == hosts[..n] + [hosts[n]];
      }
      assert Upsert(m.order, hosts[n])[..|s.order|] == m.order[..|s.order|];
    }
  }

  /**
   * The directory only gains the hostnames' certificates and keys, and
   * nothing on disk changes when certificates are disabled.
   */
  lemma {:induction false} ProvisionFiles(c: Client, s: Store, hosts: seq<string>, name: string, shell: Shell,
                                          parseDate: string -> Option<int>, now: int, stamp: string)
    ensures var t := ProvisionStore(c, s, hosts, name, shell, parseDate, now, stamp);
      && s.files <= t.files <= s.files + CertNames(hosts)
      && (!c.certEnabled ==> t.files == s.files && t.served == s.served)
    decreases |hosts|
  {
    if hosts != [] {
      var n := |hosts| - 1;
      var m := ProvisionStore(c, s, hosts[..n], name, shell, parseDate, now, stamp);
      ProvisionFiles(c, s, hosts[..n], name, shell, parseDate, now, stamp);
      var t := ProvisionStep(c, m, hosts[n], name, shell, parseDate, now, stamp);
      assert ProvisionStore(c, s, hosts, name, shell, parseDate, now, stamp) == t;
      StepFiles(c, m, hosts[n], name, shell, parseDate, now, stamp);
      FilesStep(hosts[n], hosts[..n]);
      assert hosts == hosts[..n] + [hosts[n]];
      var pair := {CrtName(hosts[n]), KeyName(hosts[n])};
      assert s.files + CertNames(hosts) == (s.files + CertNames(hosts[..n])) + pair;
      assert t.files <= m.files + pair;
    }
  }

  lemma StepFiles(c: Client, s: Store, host: string, name: string, shell: Shell,
                  parseDate: string -> Option<int>, now: int, stamp: string)
    ensures var t := ProvisionStep(c, s, host, name, shell, parseDate, now, stamp);
      && s.files <= t.files <= s.files + {CrtName(host), KeyName(host)}
      && (!c.certEnabled ==> t.files == s.files && t.served == s.served)
  {
    RequestCertificateSpec(c, host, s.files, shell, parseDate, now);
  }

  /** The certificate flag for `hosts[i]`: its request_certificate against the directory the hostnames before it left. */
  function FlagAt(c: Client, s: Store, hosts: seq<string>, i: nat, name: string, shell: Shell,
                  parseDate: string -> Option<int>, now: int, stamp: string): bool
    requires i < |hosts|
  {
    c.certEnabled &&
    RequestCertificate(c, hosts[i], ProvisionStore(c, s, hosts[..i], name, shell, parseDate, now, stamp).files,
                       shell, parseDate, now).ok
  }

  /**
   * The certificate flag recorded for each of a duplicate-free list of
   * hostnames is the outcome of its own request_certificate, made against
   * the directory as the hostnames before it left it.
   */
  lemma {:induction false} ProvisionFlags(c: Client, s: Store, hosts: seq<string>, name: string, shell: Shell,
                                          parseDate: string -> Option<int>, now: int, stamp: string)
    requires NoDup(hosts)
    ensures forall i :: 0 <= i < |hosts| ==>
      hosts[i] in ProvisionStore(c, s, hosts, name, shell, parseDate, now, stamp).entries &&
      ProvisionStore(c, s, hosts, name, shell, parseDate, now, stamp).entries[hosts[i]].hasCertificate ==
        FlagAt(c, s, hosts, i, name, shell, parseDate, now, stamp)
    decreases |hosts|
  {
    if hosts != [] {
      var n := |hosts| - 1;
      var m := ProvisionStore(c, s, hosts[..n], name, shell, parseDate, now, stamp);
      var t := ProvisionStore(c, s, hosts, name, shell, parseDate, now, stamp);
      ProvisionFlags(c, s, hosts[..n], name, shell, parseDate, now, stamp);
      assert t == ProvisionStep(c, m, hosts[n], name, shell, parseDate, now, stamp);
      forall i | 0 <= i < |hosts|
        ensures hosts[i] in t.entries && t.entries[hosts[i]].hasCertificate == FlagAt(c, s, hosts, i, name, shell, parseDate, now, stamp)
      {
        if i < n {
          assert hosts[..n][i] == hosts[i] && hosts[..n][..i] == hosts[..i] && hosts[i] != hosts[n];
          assert FlagAt(c, s, hosts[..n], i, name, shell, parseDate, now, stamp) == FlagAt(c, s, hosts, i, name, shell, parseDate, now, stamp);
        }
      }
    }
  }

  /** The keys of `order` that are not among `hosts`, in their order. */
  function FilterOut(order: seq<string>, hosts: seq<string>): seq<string>
    decreases |order|
  {
    if order == [] then []
    else (if order[0] in hosts then [] else [order[0]]) + FilterOut(order[1..], hosts)
  }

  /** Deleting one more key from a filtered order filters out that key as well. */
  lemma {:induction false} WithoutFilterOut(order: seq<string>, hosts: seq<string>, h: string)
    ensures Without(FilterOut(order, hosts), h) == FilterOut(order, hosts + [h])
    decreases |order|
  {
    if order != [] {
      var x := order[0];
      var rest := FilterOut(order[1..], hosts);
      WithoutFilterOut(order[1..], hosts, h);
      assert x in hosts + [h] <==> x in hosts || x == h;
      if x in hosts {
        assert FilterOut(order, hosts) == rest;
        assert FilterOut(order, hosts + [h]) == FilterOut(order[1..], hosts + [h]);
      } else {
        assert FilterOut(order, hosts) == [x] + rest;
        assert ([x] + rest)[0] == x && ([x] + rest)[1..] == rest;
        assert Without([x] + rest, h) == (if x == h then [] else [x]) + Without(rest, h);
        assert FilterOut(order, hosts + [h]) == (if x == h then [] else [x]) + FilterOut(order[1..], hosts + [h]);
      }
    }
  }

  /** Retiring keeps the remaining keys of the insertion order in their order. */
  lemma {:induction false} RetireOrder(c: Client, s: Store, hosts: seq<string>)
    ensures RetireStore(c, s, hosts).order == FilterOut(s.order, hosts)
    decreases |hosts|
  {
    if hosts == [] {
      FilterOutNone(s.order);
    } else {
      var n := |hosts| - 1;
      RetireOrder(c, s, hosts[..n]);
      WithoutFilterOut(s.order, hosts[..n], hosts[n]);
      assert hosts == hosts[..n] + [hosts[n]];
    }
  }

  lemma {:induction false} FilterOutNone(order: seq<string>)
    ensures FilterOut(order, []) == order
    decreases |order|
  {
    if order != [] {
      FilterOutNone(order[1..]);
      assert order == [order[0]] + order[1..];
    }
  }

  /** Retiring removes exactly the hostnames' entries and keys, and keeps the others. */
  lemma {:induction false} RetireEntries(c: Client, s: Store, hosts: seq<string>)
    ensures var t := RetireStore(c, s, hosts);
      && t.entries == s.entries - AsSet(hosts)
      && (forall k :: k in t.order <==> k in s.order && k !in hosts)
    decreases |hosts|
  {
    if hosts != [] {
      var n := |hosts| - 1;
      RetireEntries(c, s, hosts[..n]);
      WithoutMembers(RetireStore(c, s, hosts[..n]).order, hosts[n]);
      assert hosts == hosts[..n] + [hosts[n]];
      assert AsSet(hosts) == AsSet(hosts[..n]) + {hosts[n]};
    }
  }

  /**
   * Retiring deletes the hostnames' certificates and keys; when certificates
   * are enabled Traefik's list is then written from the final directory,
   * otherwise nothing on disk changes.
   */
  lemma {:induction false} RetireFiles(c: Client, s: Store, hosts: seq<string>)
    ensures var t := RetireStore(c, s, hosts);
      && t.files == (if c.certEnabled then s.files - CertNames(hosts) else s.files)
      && t.served == (if c.certEnabled && hosts != [] then Some(t.files) else s.served)
    decreases |hosts|
  {
    if hosts != [] {
      var n := |hosts| - 1;
      RetireFiles(c, s, hosts[..n]);
      FilesStep(hosts[n], hosts[..n]);
      assert hosts == hosts[..n] + [hosts[n]];
    }
  }

  /** After retiring with certificates enabled, none of the hostnames is served any more. */
  lemma RetiredUnserved(c: Client, s: Store, hosts: seq<string>)
    requires c.certEnabled
    ensures forall h :: h in hosts ==> !Served(RetireStore(c, s, hosts).files, h)
  {
    RetireFiles(c, s, hosts);
    forall h | h in hosts ensures CrtName(h) in CertNames(hosts) {
    }
  }

  /** The store after load_manual_services. */
  function LoadStore(s: Store, manual: seq<ManualService>, stamp: string): Store {
    Store(s.entries + ManualMap(manual, stamp), ManualOrder(s.order, manual), s.files, s.served)
  }

  /** The store after the startup sync over `services`. */
  function SyncStore(cfg: Config, s: Store, services: seq<Service>, shell: Shell, parseDate: string -> Option<int>,
                     now: int, stamp: string): Store
    decreases |services|
  {
    if services == [] then s
    else
      var t := SyncStore(cfg, s, services[..|services| - 1], shell, parseDate, now, stamp);
      var sv := services[|services| - 1];
      if Synced(cfg, sv)
      then ProvisionStore(cfg.client, t, Hostnames.Hostnames(sv.labels, cfg.client.zone, cfg.fromTraefik), sv.name,
                          shell, parseDate, now, stamp)
      else t
  }

  /** The startup sync drops no catalog entry, so every manual service is still listed afterwards. */
  lemma {:induction false} SyncStoreKeeps(cfg: Config, s: Store, services: seq<Service>, shell: Shell,
                                          parseDate: string -> Option<int>, now: int, stamp: string)
    ensures s.entries.Keys <= SyncStore(cfg, s, services, shell, parseDate, now, stamp).entries.Keys
    decreases |services|
  {
    if services != [] {
      var n := |services| - 1;
      SyncStoreKeeps(cfg, s, services[..n], shell, parseDate, now, stamp);
      var sv := services[n];
      if Synced(cfg, sv) {
        ProvisionEntries(cfg.client, SyncStore(cfg, s, services[..n], shell, parseDate, now, stamp),
                           Hostnames.Hostnames(sv.labels, cfg.client.zone, cfg.fromTraefik), sv.name,
                           shell, parseDate, now, stamp);
      }
    }
  }

  /** One clock reading, Docker snapshot and tool oracle per event. */
  datatype Tick = Tick(event: Event, cluster: Cluster, shell: Shell, now: int, stamp: string)

  /** Everything the event loop changes. */
  datatype Run = Run(managed: map<string, seq<string>>, lastKinit: int, log: seq<Call>, store: Store)

  /** One pass of the event loop's body. */
  function Step(cfg: Config, r: Run, t: Tick, parseDate: string -> Option<int>): Run {
    var reauth := t.now - r.lastKinit > KinitInterval;
    var p := PlanFor(cfg, r.managed, t.event, t.cluster);
    Run(AfterPlan(r.managed, p), if reauth then t.now else r.lastKinit,
        r.log + (if reauth then [Authenticate] else []) + PlanCalls(cfg, p),
        PlanStore(cfg.client, p, r.store, t.shell, parseDate, t.now, t.stamp))
  }

  /** The event loop over a sequence of events. */
  function RunAll(cfg: Config, r: Run, ticks: seq<Tick>, parseDate: string -> Option<int>): Run
    decreases |ticks|
  {
    if ticks == [] then r else Step(cfg, RunAll(cfg, r, ticks[..|ticks| - 1], parseDate), ticks[|ticks| - 1], parseDate)
  }

  /** The tracked services after a sequence of events. */
  function TrackedAll(cfg: Config, managed: map<string, seq<string>>, ticks: seq<Tick>): map<string, seq<string>>
    decreases |ticks|
  {
    if ticks == [] then managed
    else
      var t := ticks[|ticks| - 1];
      Tracked(cfg, TrackedAll(cfg, managed, ticks[..|ticks| - 1]), t.event, t.cluster)
  }

  /** The event loop's tracking table depends on the events and the Docker snapshots alone. */
  lemma {:induction false} RunAllTracked(cfg: Config, r: Run, ticks: seq<Tick>, parseDate: string -> Option<int>)
    ensures RunAll(cfg, r, ticks, parseDate).managed == TrackedAll(cfg, r.managed, ticks)
    decreases |ticks|
  {
    if ticks != [] {
      RunAllTracked(cfg, r, ticks[..|ticks| - 1], parseDate);
    }
  }

  /** Every tracked hostname has an auto-discovered catalog entry. */
  ghost predicate Corresponds(managed: map<string, seq<string>>, entries: map<string, Entry>) {
    forall id, h :: id in managed && h in managed[id] ==> h in entries && entries[h].autoDiscovered
  }

  /** No hostname is tracked under two service ids. */
  ghost predicate Disjoint(managed: map<string, seq<string>>) {
    forall id1, id2, h :: id1 in managed && id2 in managed && id1 != id2 && h in managed[id1] ==> h !in managed[id2]
  }

  /**
   * One pass of the loop keeps the tracked hostnames listed in the catalog
   * as discovered, provided no hostname is tracked under two ids (a removal
   * deletes the entries of all its hostnames, whoever else tracks them).
   */
  lemma StepCorresponds(cfg: Config, r: Run, t: Tick, parseDate: string -> Option<int>)
    requires Corresponds(r.managed, r.store.entries) && Disjoint(r.managed)
    ensures Corresponds(Step(cfg, r, t, parseDate).managed, Step(cfg, r, t, parseDate).store.entries)
  {
    var p := PlanFor(cfg, r.managed, t.event, t.cluster);
    var next := Step(cfg, r, t, parseDate);
    match p
    case Ignore =>
    case Retire(id, hosts) =>
      assert id in r.managed && hosts == r.managed[id];
      RetireEntries(cfg.client, r.store, hosts);
      forall id2, h | id2 in next.managed && h in next.managed[id2]
        ensures h in next.store.entries && next.store.entries[h].autoDiscovered
      {
        assert id2 != id && h in r.managed[id2];
        assert h !in AsSet(hosts);
      }
    case Provision(id, name, hosts) =>
      ProvisionEntries(cfg.client, r.store, hosts, name, t.shell, parseDate, t.now, t.stamp);
      forall id2, h | id2 in next.managed && h in next.managed[id2]
        ensures h in next.store.entries && next.store.entries[h].autoDiscovered
      {
        if h !in hosts {
          assert id2 != id && h in r.managed[id2];
        }
      }
  }

  /**
   * Over a run of events, every tracked hostname keeps an auto-discovered
   * catalog entry, provided no hostname is tracked under two ids before any event.
   */
  lemma {:induction false} RunAllCorresponds(cfg: Config, r: Run, ticks: seq<Tick>, parseDate: string -> Option<int>)
    requires Corresponds(r.managed, r.store.entries)
    requires forall k :: 0 <= k < |ticks| ==> Disjoint(TrackedAll(cfg, r.managed, ticks[..k]))
    ensures Corresponds(RunAll(cfg, r, ticks, parseDate).managed, RunAll(cfg, r, ticks, parseDate).store.entries)
    decreases |ticks|
  {
    if ticks != [] {
      var n := |ticks| - 1;
      forall k | 0 <= k < n ensures Disjoint(TrackedAll(cfg, r.managed, ticks[..n][..k])) {
        assert ticks[..n][..k] == ticks[..k];
      }
      RunAllCorresponds(cfg, r, ticks[..n], parseDate);
      RunAllTracked(cfg, r, ticks[..n], parseDate);
      StepCorresponds(cfg, RunAll(cfg, r, ticks[..n], parseDate), ticks[n], parseDate);
    }
  }

  /** Events never leave an empty or repeating hostname list behind. */
  lemma {:induction false} TrackedAllWellFormed(cfg: Config, managed: map<string, seq<string>>, ticks: seq<Tick>)
    requires forall id :: id in managed ==> managed[id] != [] && NoDup(managed[id])
    ensures forall id :: id in TrackedAll(cfg, managed, ticks) ==>
      TrackedAll(cfg, managed, ticks)[id] != [] && NoDup(TrackedAll(cfg, managed, ticks)[id])
    decreases |ticks|
  {
    if ticks != [] {
      var t := ticks[|ticks| - 1];
      var m := TrackedAll(cfg, managed, ticks[..|ticks| - 1]);
      TrackedAllWellFormed(cfg, managed, ticks[..|ticks| - 1]);
      var p := PlanFor(cfg, m, t.event, t.cluster);
      if p.Provision? {
        HostnamesSpec(t.cluster[p.id].labels, cfg.client.zone, cfg.fromTraefik);
      }
    }
  }

  class Engine {
    const cfg: Config
    const registry: Registry
    /** `managed_services`: service id to the hostnames provisioned for it. */
    var managed: map<string, seq<string>>
    /** The file names in the certificate directory. */
    var certFiles: set<string>
    /** The Traefik certificate configuration this process last wrote, if any. */
    var written: Option<TlsConfig>
    /** The certificate directory as it was when that configuration was written. */
    ghost var writtenFrom: set<string>
    var lastKinit: int
    var log: seq<Call>

    ghost predicate Valid()
      reads this, registry
    {
      && registry.Valid()
      && (forall id :: id in managed ==> managed[id] != [] && NoDup(managed[id]))
      && (written.Some? ==> ConfigFor(cfg.client, writtenFrom, written.value))
    }

    /** The engine's store: the registry, the certificate directory and what Traefik's configuration was written from. */
    ghost function Snap(): Store
      reads this, registry
    {
      Store(registry.entries, registry.order, certFiles, if written.Some? then Some(writtenFrom) else None)
    }

    ghost function Current(): Run
      reads this, registry
    {
      Run(managed, lastKinit, log, Snap())
    }

    constructor (cfg: Config, registry: Registry, certFiles: set<string>)
      requires registry.Valid()
      ensures Valid()
      ensures this.cfg == cfg && this.registry == registry && this.certFiles == certFiles
      ensures managed == map[] && written == None && log == []
    {
      this.cfg := cfg;
      this.registry := registry;
      this.certFiles := certFiles;
      managed := map[];
      written := None;
      writtenFrom := {};
      lastKinit := 0;
      log := [];
    }

    /** update_traefik_certificates, writing the configuration for the current directory. */
    method Rebuild()
      requires Valid()
      modifies this
      ensures Valid()
      ensures written.Some? && writtenFrom == certFiles
      ensures managed == old(managed) && certFiles == old(certFiles) && log == old(log) && lastKinit == old(lastKinit)
    {
      var tls := UpdateTraefikCertificates(cfg.client, certFiles);
      written := Some(tls);
      writtenFrom := certFiles;
    }

    /**
     * The certificate part of the per-hostname loop: request_certificate, when
     * certificates are enabled; Traefik's list is rewritten exactly when a
     * certificate was issued.
     */
    method Certify(host: string, shell: Shell, parseDate: string -> Option<int>, now: int) returns (hasCert: bool)
      requires Valid()
      modifies this
      ensures Valid()
      ensures managed == old(managed) && lastKinit == old(lastKinit)
      ensures log == old(log) + (if cfg.client.certEnabled then [RequestCert(host)] else [])
      ensures var r := RequestCertificate(cfg.client, host, old(certFiles), shell, parseDate, now);
        && hasCert == (cfg.client.certEnabled && r.ok)
        && certFiles == r.files
        && (r.rebuilt ==> written.Some? && writtenFrom == certFiles)
        && (!r.rebuilt ==> written == old(written) && writtenFrom == old(writtenFrom))
    {
      hasCert := false;
      if cfg.client.certEnabled {
        var r := RequestCertificate(cfg.client, host, certFiles, shell, parseDate, now);
        log := log + [RequestCert(host)];
        certFiles := r.files;
        if r.rebuilt {
          Rebuild();
        }
        hasCert := r.ok;
      }
    }

    /** The body of the per-hostname loop for a created, updated or synced service. */
    method ProvisionHost(host: string, serviceName: string, shell: Shell, parseDate: string -> Option<int>,
                         now: int, stamp: string)
      requires Valid()
      modifies this, registry
      ensures Valid()
      ensures managed == old(managed) && lastKinit == old(lastKinit)
      ensures log == old(log) + HostCalls(cfg, host)
      ensures Snap() == ProvisionStep(cfg.client, old(Snap()), host, serviceName, shell, parseDate, now, stamp)
      ensures !RequestCertificate(cfg.client, host, old(certFiles), shell, parseDate, now).rebuilt ==> written == old(written)
    {
      ghost var s0 := Snap();
      ghost var r := RequestCertificate(cfg.client, host, certFiles, shell, parseDate, now);
      var _, _ := AddDnsRecord(cfg.client, host, cfg.ips, shell);
      log := log + [AddDns(host, cfg.ips)];
      var hasCert := Certify(host, shell, parseDate, now);
      assert certFiles == r.files && hasCert == (cfg.client.certEnabled && r.ok);
      assert (if written.Some? then Some(writtenFrom) else None) == if r.rebuilt then Some(r.files) else s0.served;
      registry.Update(host, serviceName, cfg.client.zone, true, hasCert, "", stamp);
      assert Snap() == Store(s0.entries[host := AutoEntry(host, serviceName, cfg.client.zone, true, hasCert, "", stamp)],
                             Upsert(s0.order, host), r.files, if r.rebuilt then Some(r.files) else s0.served);
    }

    /** The body of the per-hostname loop for a removed service. */
    method RetireHost(host: string, shell: Shell)
      requires Valid()
      modifies this, registry
      ensures Valid()
      ensures managed == old(managed) && lastKinit == old(lastKinit)
      ensures log == old(log) + [RemoveDns(host, cfg.ips), RevokeCert(host)]
      ensures Snap() == RetireStep(cfg.client, old(Snap()), host)
      ensures !cfg.client.certEnabled ==> written == old(written)
    {
      ghost var s0 := Snap();
      var _, _ := RemoveDnsRecord(cfg.client, host, cfg.ips, shell);
      log := log + [RemoveDns(host, cfg.ips)];
      var r := RevokeCertificate(cfg.client, host, certFiles);
      log := log + [RevokeCert(host)];
      certFiles := r.files;
      if r.rebuilt {
        Rebuild();
      }
      assert (if written.Some? then Some(writtenFrom) else None) == if r.rebuilt then Some(r.files) else s0.served;
      registry.Remove(host);
      assert Snap() == Store(s0.entries - {host}, Without(s0.order, host), r.files,
                             if r.rebuilt then Some(r.files) else s0.served);
    }

    /** Provision every hostname of a service, in order. */
    method ProvisionAll(hosts: seq<string>, serviceName: string, shell: Shell, parseDate: string -> Option<int>,
                        now: int, stamp: string)
      requires Valid()
      modifies this, registry
      ensures Valid()
      ensures managed == old(managed) && lastKinit == old(lastKinit)
      ensures log == old(log) + ProvisionCalls(cfg, hosts)
      ensures Snap() == ProvisionStore(cfg.client, old(Snap()), hosts, serviceName, shell, parseDate, now, stamp)
    {
      var i := 0;
      while i < |hosts|
        invariant 0 <= i <= |hosts|
        invariant Valid()
        invariant managed == old(managed) && lastKinit == old(lastKinit)
        invariant log == old(log) + ProvisionCalls(cfg, hosts[..i])
        invariant Snap() == ProvisionStore(cfg.client, old(Snap()), hosts[..i], serviceName, shell, parseDate, now, stamp)
      {
        PrefixSnoc(hosts, i);
        ConcatAssoc(old(log), ProvisionCalls(cfg, hosts[..i]), HostCalls(cfg, hosts[i]));
        ProvisionHost(hosts[i], serviceName, shell, parseDate, now, stamp);
        i := i + 1;
      }
      assert hosts[..i] == hosts;
    }

    /** Provision every hostname of a service, then record them as the service's tracked hostnames. */
    method Track(id: string, serviceName: string, hosts: seq<string>, shell: Shell, parseDate: string -> Option<int>,
                 now: int, stamp: string)
      requires Valid() && hosts != [] && NoDup(hosts)
      modifies this, registry
      ensures Valid()
      ensures managed == old(managed)[id := hosts] && lastKinit == old(lastKinit)
      ensures log == old(log) + ProvisionCalls(cfg, hosts)
      ensures Snap() == ProvisionStore(cfg.client, old(Snap()), hosts, serviceName, shell, parseDate, now, stamp)
    {
      ProvisionAll(hosts, serviceName, shell, parseDate, now, stamp);
      managed := managed[id := hosts];
    }

    /**
     * Retire every recorded hostname of a removed service, in order. When
     * certificates are enabled, the configuration written last serves none of them.
     */
    method RetireAll(hosts: seq<string>, shell: Shell)
      requires Valid()
      modifies this, registry
      ensures Valid()
      ensures managed == old(managed) && lastKinit == old(lastKinit)
      ensures log == old(log) + RetireCalls(cfg, hosts)
      ensures Snap() == RetireStore(cfg.client, old(Snap()), hosts)
      ensures cfg.client.certEnabled && hosts != [] ==>
        written.Some? && forall h :: h in hosts ==> PairFor(cfg.client, h) !in written.value.certificates
    {
      var i := 0;
      while i < |hosts|
        invariant 0 <= i <= |hosts|
        invariant Valid()
        invariant managed == old(managed) && lastKinit == old(lastKinit)
        invariant log == old(log) + RetireCalls(cfg, hosts[..i])
        invariant Snap() == RetireStore(cfg.client, old(Snap()), hosts[..i])
      {
        PrefixSnoc(hosts, i);
        ConcatAssoc(old(log), RetireCalls(cfg, hosts[..i]), [RemoveDns(hosts[i], cfg.ips), RevokeCert(hosts[i])]);
        RetireHost(hosts[i], shell);
        i := i + 1;
      }
      assert hosts[..i] == hosts;
      if cfg.client.certEnabled && hosts != [] {
        RetireFiles(cfg.client, old(Snap()), hosts);
        RetiredUnserved(cfg.client, old(Snap()), hosts);
      }
    }

    /** Re-authenticate when the last kinit is more than an hour old. */
    method Reauthenticate(now: int)
      requires Valid()
      modifies this
      ensures Valid()
      ensures managed == old(managed) && certFiles == old(certFiles)
      ensures written == old(written) && writtenFrom == old(writtenFrom)
      ensures lastKinit == if now - old(lastKinit) > KinitInterval then now else old(lastKinit)
      ensures log == old(log) + (if now - old(lastKinit) > KinitInterval then [Authenticate] else [])
    {
      if now - lastKinit > KinitInterval {
        log := log + [Authenticate];
        lastKinit := now;
      }
    }

    /** Act on one event as `PlanFor` decides. */
    method Act(e: Event, cluster: Cluster, shell: Shell, parseDate: string -> Option<int>, now: int, stamp: string)
      requires Valid()
      modifies this, registry
      ensures Valid()
      ensures lastKinit == old(lastKinit)
      ensures var p := PlanFor(cfg, old(managed), e, cluster);
        && managed == AfterPlan(old(managed), p)
        && log == old(log) + PlanCalls(cfg, p)
        && Snap() == PlanStore(cfg.client, p, old(Snap()), shell, parseDate, now, stamp)
        && (p.Ignore? ==> written == old(written))
        && (p.Retire? && cfg.client.certEnabled && p.hosts != [] ==>
              written.Some? && forall h :: h in p.hosts ==> PairFor(cfg.client, h) !in written.value.certificates)
    {
      ghost var p := PlanFor(cfg, managed, e, cluster);
      if e.serviceId.None? || e.serviceId.value == "" {
        assert p == Ignore;
        return;
      }
      var id := e.serviceId.value;
      if e.action == Remove {
        if id in managed {
          assert p == Retire(id, managed[id]);
          RetireAll(managed[id], shell);
          managed := managed - {id};
        } else {
          assert p == Ignore;
        }
        return;
      }
      if id !in cluster {
        assert p == Ignore;
        return;
      }
      var service := cluster[id];
      if Get(service.labels, cfg.requiredLabel) != Some("true") {
        assert p == Ignore;
        return;
      }
      var hostnames := ExtractHostnames(service.labels, cfg.client.zone, cfg.fromTraefik);
      if hostnames == [] || !(e.action == Create || e.action == Update) {
        assert p == Ignore;
        return;
      }
      assert p == Provision(id, service.name, hostnames);
      HostnamesSpec(service.labels, cfg.client.zone, cfg.fromTraefik);
      Track(id, service.name, hostnames, shell, parseDate, now, stamp);
    }

    /**
     * One step of the event loop: re-authenticate when the last kinit is more
     * than an hour old, then act on the event as `PlanFor` decides.
     */
    method HandleEvent(e: Event, cluster: Cluster, shell: Shell, parseDate: string -> Option<int>, now: int, stamp: string)
      requires Valid()
      modifies this, registry
      ensures Valid()
      ensures managed == Tracked(cfg, old(managed), e, cluster)
      ensures lastKinit == if now - old(lastKinit) > KinitInterval then now else old(lastKinit)
      ensures log == old(log) + (if now - old(lastKinit) > KinitInterval then [Authenticate] else []) +
                     PlanCalls(cfg, PlanFor(cfg, old(managed), e, cluster))
      ensures var p := PlanFor(cfg, old(managed), e, cluster);
        && Snap() == PlanStore(cfg.client, p, old(Snap()), shell, parseDate, now, stamp)
        && (p.Ignore? ==> written == old(written))
        && (p.Retire? && cfg.client.certEnabled && p.hosts != [] ==>
              written.Some? && forall h :: h in p.hosts ==> PairFor(cfg.client, h) !in written.value.certificates)
    {
      Reauthenticate(now);
      Act(e, cluster, shell, parseDate, now, stamp);
    }

    /** One service of the startup sync: provision it and track it when it is enrolled and yields hostnames. */
    method SyncService(service: Service, shell: Shell, parseDate: string -> Option<int>, now: int, stamp: string)
      requires Valid()
      modifies this, registry
      ensures Valid()
      ensures managed == if Synced(cfg, service)
        then old(managed)[service.id := Hostnames.Hostnames(service.labels, cfg.client.zone, cfg.fromTraefik)]
        else old(managed)
      ensures lastKinit == old(lastKinit)
      ensures log == old(log) + SyncCalls(cfg, service)
      ensures Snap() == if Synced(cfg, service)
        then ProvisionStore(cfg.client, old(Snap()), Hostnames.Hostnames(service.labels, cfg.client.zone, cfg.fromTraefik),
                            service.name, shell, parseDate, now, stamp)
        else old(Snap())
    {
      if Get(service.labels, cfg.requiredLabel) == Some("true") {
        var hostnames := ExtractHostnames(service.labels, cfg.client.zone, cfg.fromTraefik);
        if hostnames != [] {
          HostnamesSpec(service.labels, cfg.client.zone, cfg.fromTraefik);
          Track(service.id, service.name, hostnames, shell, parseDate, now, stamp);
        }
      }
    }

    /**
     * Startup: load the manual services into the catalog, authenticate
     * (giving up when that fails), then provision every enrolled service that
     * yields hostnames and start tracking it.
     */
    method Startup(manual: seq<ManualService>, services: seq<Service>, shell: Shell,
                   parseDate: string -> Option<int>, now: int, stamp: string) returns (ok: bool)
      requires Valid() && managed == map[]
      modifies this, registry
      ensures Valid()
      ensures ok <==> shell(Kinit).returncode == 0
      ensures ok ==> managed == InitialTracked(cfg, services) && lastKinit == now
      ensures ok ==> log == old(log) + [Authenticate] + StartupCalls(cfg, services)
      ensures !ok ==> managed == map[] && log == old(log) + [Authenticate]
      ensures Snap() == if ok then SyncStore(cfg, LoadStore(old(Snap()), manual, stamp), services, shell, parseDate, now, stamp)
                        else LoadStore(old(Snap()), manual, stamp)
    {
      registry.LoadManualServices(manual, stamp);
      log := log + [Authenticate];
      if shell(Kinit).returncode != 0 {
        return false;
      }
      ghost var loaded := Snap();
      var i := 0;
      while i < |services|
        invariant 0 <= i <= |services|
        invariant Valid()
        invariant managed == InitialTracked(cfg, services[..i])
        invariant log == old(log) + [Authenticate] + StartupCalls(cfg, services[..i])
        invariant Snap() == SyncStore(cfg, loaded, services[..i], shell, parseDate, now, stamp)
      {
        PrefixSnoc(services, i);
        ConcatAssoc(old(log) + [Authenticate], StartupCalls(cfg, services[..i]), SyncCalls(cfg, services[i]));
        SyncService(services[i], shell, parseDate, now, stamp);
        i := i + 1;
      }
      assert services[..i] == services;
      lastKinit := now;
      ok := true;
    }

    /** The event loop over a finite prefix of the event stream. */
    method Monitor(ticks: seq<Tick>, parseDate: string -> Option<int>)
      requires Valid()
      modifies this, registry
      ensures Valid()
      ensures Current() == RunAll(cfg, old(Current()), ticks, parseDate)
      ensures managed == TrackedAll(cfg, old(managed), ticks)
      ensures Corresponds(old(managed), old(registry.entries)) &&
              (forall k :: 0 <= k < |ticks| ==> Disjoint(TrackedAll(cfg, old(managed), ticks[..k]))) ==>
                Corresponds(managed, registry.entries)
    {
      var i := 0;
      while i < |ticks|
        invariant 0 <= i <= |ticks|
        invariant Valid()
        invariant Current() == RunAll(cfg, old(Current()), ticks[..i], parseDate)
      {
        var t := ticks[i];
        PrefixSnoc(ticks, i);
        HandleEvent(t.event, t.cluster, t.shell, parseDate, t.now, t.stamp);
        i := i + 1;
      }
      assert ticks[..i] == ticks;
      RunAllTracked(cfg, old(Current()), ticks, parseDate);
      if Corresponds(old(managed), old(registry.entries)) &&
         forall k :: 0 <= k < |ticks| ==> Disjoint(TrackedAll(cfg, old(managed), ticks[..k])) {
        RunAllCorresponds(cfg, old(Current()), ticks, parseDate);
      }
    }
  }
}
