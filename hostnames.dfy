/**
 * Which hostnames a service asks for (extract_hostnames): the explicit
 * `dns.hostname` label first, then, when router-rule extraction is on, the
 * host of the first Host(`...`) in every Traefik router rule label whose host
 * lies in the managed zone, each short name listed once.
 */
module Hostnames {
  import opened Wrappers
  import opened Text
  import opened Patterns
  import opened Seqs

  /** A service's labels, in the order the label dictionary iterates them. */
  type Labels = seq<(string, string)>

  /** `labels.get(key)`: the value of the first label with that key. */
  function Get(labels: Labels, key: string): (r: Option<string>)
    ensures r.Some? <==> exists i :: 0 <= i < |labels| && labels[i].0 == key
    ensures r.Some? ==> (key, r.value) in labels
  {
    if labels == [] then None
    else if labels[0].0 == key then Some(labels[0].1)
    else
      var r := Get(labels[1..], key);
      assert forall i :: 1 <= i < |labels| ==> labels[1..][i - 1] == labels[i];
      r
  }

  const HostnameLabel := "dns.hostname"

  /** ".zone": what is removed from a name to make it a short hostname. */
  function ZoneSuffix(zone: string): string { "." + zone }

  /** `name.replace('.' + zone, '')` */
  function StripZone(name: string, zone: string): string {
    ReplaceAll(name, ZoneSuffix(zone), "")
  }

  /** The hostname named by the `dns.hostname` label, if the label is there; no suffix check is made. */
  function ExplicitHostname(labels: Labels, zone: string): seq<string> {
    match Get(labels, HostnameLabel)
    case Some(v) => [StripZone(v, zone)]
    case None => []
  }

  /** A label key that looks like a Traefik router rule. */
  predicate IsRouterRuleKey(key: string) {
    Contains(key, "traefik.http.routers") && Contains(key, ".rule")
  }

  /** The short hostname a router rule yields: the first Host(`...`) token, kept only inside the zone. */
  function RuleHostname(value: string, zone: string): Option<string> {
    match Search(HostRule, value)
    case Some(fqdn) =>
      if EndsWith(fqdn, ZoneSuffix(zone)) then Some(StripZone(fqdn, zone)) else None
    case None => None
  }

  /** What one label contributes to the router-rule candidates. */
  function LabelCandidate(kv: (string, string), zone: string): seq<string> {
    if !IsRouterRuleKey(kv.0) then []
    else match RuleHostname(kv.1, zone)
      case Some(h) => [h]
      case None => []
  }

  /** Label `kv` is a router rule whose host is `h` in the zone. */
  predicate Yields(kv: (string, string), zone: string, h: string) {
    IsRouterRuleKey(kv.0) && RuleHostname(kv.1, zone) == Some(h)
  }

  lemma LabelCandidateYields(kv: (string, string), zone: string, h: string)
    ensures h in LabelCandidate(kv, zone) <==> Yields(kv, zone, h)
  {
  }

  /** The contribution of each label, as a function value. */
  function RuleCandidate(zone: string): ((string, string)) -> seq<string> {
    kv => LabelCandidate(kv, zone)
  }

  /** The router-rule candidates of all labels, in label order, repeats included. */
  function RuleCandidates(labels: Labels, zone: string): seq<string> {
    FlatMap(labels, RuleCandidate(zone))
  }

  /** Extending the labels by one extends the candidates by that label's contribution. */
  lemma RuleCandidatesSnoc(labels: Labels, zone: string, i: nat)
    requires i < |labels|
    ensures RuleCandidates(labels[..i + 1], zone) == RuleCandidates(labels[..i], zone) + LabelCandidate(labels[i], zone)
  {
    FlatMapSnoc(labels, RuleCandidate(zone), i);
  }

  /** Every candidate in the order it is considered, repeats included. */
  function Candidates(labels: Labels, zone: string, fromTraefik: bool): seq<string> {
    ExplicitHostname(labels, zone) + (if fromTraefik then RuleCandidates(labels, zone) else [])
  }

  /** The reference definition: the candidates, each kept at its first occurrence. */
  function Hostnames(labels: Labels, zone: string, fromTraefik: bool): seq<string> {
    Dedup(Candidates(labels, zone, fromTraefik))
  }

  /** extract_hostnames, building the list with `append` as the source does. */
  method ExtractHostnames(labels: Labels, zone: string, fromTraefik: bool) returns (hostnames: seq<string>)
    ensures hostnames == Hostnames(labels, zone, fromTraefik)
  {
    hostnames := [];
    var explicit := Get(labels, HostnameLabel);
    if explicit.Some? {
      hostnames := hostnames + [StripZone(explicit.value, zone)];
    }
    assert hostnames == ExplicitHostname(labels, zone);
    if fromTraefik {
      hostnames := AddRouterRuleHosts(labels, zone, hostnames);
    } else {
      assert Candidates(labels, zone, false) == hostnames;
      DedupNoDup(hostnames);
    }
  }

  /** The checks made on one label: a router rule key, a Host(`...`) in its value, a host inside the zone. */
  method RouterRuleHost(kv: (string, string), zone: string) returns (found: Option<string>)
    ensures LabelCandidate(kv, zone) == if found.Some? then [found.value] else []
  {
    found := None;
    var key := kv.0;
    var value := kv.1;
    if IsRouterRuleKey(key) {
      var m := Search(HostRule, value);
      if m.Some? {
        var fqdn := m.value;
        if EndsWith(fqdn, ZoneSuffix(zone)) {
          found := Some(StripZone(fqdn, zone));
        }
      }
    }
  }

  /**
   * The router-rule pass of extract_hostnames: append the host of every
   * router rule in the zone to `explicit`, unless it is already listed.
   */
  method AddRouterRuleHosts(labels: Labels, zone: string, explicit: seq<string>) returns (hostnames: seq<string>)
    requires |explicit| <= 1
    ensures hostnames == Dedup(explicit + RuleCandidates(labels, zone))
  {
    hostnames := explicit;
    ghost var cands := explicit;
    DedupNoDup(explicit);
    assert RuleCandidates(labels[..0], zone) == [];
    var i := 0;
    while i < |labels|
      invariant 0 <= i <= |labels|
      invariant cands == explicit + RuleCandidates(labels[..i], zone)
      invariant hostnames == Dedup(cands)
    {
      var found := RouterRuleHost(labels[i], zone);
      RuleCandidatesSnoc(labels, zone, i);
      ConcatAssoc(explicit, RuleCandidates(labels[..i], zone), LabelCandidate(labels[i], zone));
      if found.Some? {
        DedupSnoc(cands, found.value);
        if found.value !in hostnames {
          hostnames := hostnames + [found.value];
        }
      } else {
        assert cands + [] == cands;
      }
      cands := cands + LabelCandidate(labels[i], zone);
      i := i + 1;
    }
    assert labels[..|labels|] == labels;
  }

  /** A hostname is a router-rule candidate exactly when some router rule label yields it. */
  lemma RuleCandidatesMembers(labels: Labels, zone: string, h: string)
    ensures h in RuleCandidates(labels, zone) <==> exists i :: 0 <= i < |labels| && Yields(labels[i], zone, h)
  {
    FlatMapMembers(labels, RuleCandidate(zone), h);
    forall i | 0 <= i < |labels| ensures h in RuleCandidate(zone)(labels[i]) <==> Yields(labels[i], zone, h) {
      LabelCandidateYields(labels[i], zone, h);
    }
  }

  /** With a `dns.hostname` label, its value stripped of the zone is the first hostname. */
  lemma ExplicitComesFirst(labels: Labels, zone: string, fromTraefik: bool, v: string)
    requires Get(labels, HostnameLabel) == Some(v)
    ensures Hostnames(labels, zone, fromTraefik) != []
    ensures Hostnames(labels, zone, fromTraefik)[0] == StripZone(v, zone)
  {
    DedupHead(Candidates(labels, zone, fromTraefik));
  }

  /**
   * The hostnames are duplicate-free, listed in first-seen order, and are
   * exactly the explicit hostname plus, with extraction on, the hosts of
   * the router rules that lie in the zone.
   */
  lemma HostnamesSpec(labels: Labels, zone: string, fromTraefik: bool)
    ensures NoDup(Hostnames(labels, zone, fromTraefik))
    ensures forall h :: h in Hostnames(labels, zone, fromTraefik) <==>
      h in ExplicitHostname(labels, zone) ||
      (fromTraefik && exists i :: 0 <= i < |labels| && Yields(labels[i], zone, h))
    ensures forall i, j :: 0 <= i < j < |Hostnames(labels, zone, fromTraefik)| ==>
      var c := Candidates(labels, zone, fromTraefik);
      var hs := Hostnames(labels, zone, fromTraefik);
      hs[i] in c && hs[j] in c && FirstIndex(c, hs[i]) < FirstIndex(c, hs[j])
  {
    var c := Candidates(labels, zone, fromTraefik);
    DedupSpec(c);
    DedupOrder(c);
    forall h ensures h in RuleCandidates(labels, zone) <==> exists i :: 0 <= i < |labels| && Yields(labels[i], zone, h)
    {
      RuleCandidatesMembers(labels, zone, h);
    }
  }

  /** Without router-rule extraction only the explicit label counts. */
  lemma OnlyExplicitWithoutTraefik(labels: Labels, zone: string)
    ensures Hostnames(labels, zone, false) == ExplicitHostname(labels, zone)
  {
    assert Candidates(labels, zone, false) == ExplicitHostname(labels, zone);
    assert NoDup(ExplicitHostname(labels, zone));
    DedupNoDup(ExplicitHostname(labels, zone));
  }

  /**
   * A router host "p.zone" in which ".zone" occurs only as the suffix yields
   * exactly the short name `p`; a host outside the zone yields nothing.
   */
  lemma RuleHostnameStripsZone(value: string, zone: string, fqdn: string)
    requires Search(HostRule, value) == Some(fqdn)
    ensures !EndsWith(fqdn, ZoneSuffix(zone)) ==> RuleHostname(value, zone).None?
    ensures EndsWith(fqdn, ZoneSuffix(zone)) &&
            (forall i :: 0 <= i < |fqdn| - |ZoneSuffix(zone)| ==> !OccursAt(fqdn, ZoneSuffix(zone), i)) ==>
            RuleHostname(value, zone) == Some(fqdn[..|fqdn| - |ZoneSuffix(zone)|])
  {
    var suffix := ZoneSuffix(zone);
    if EndsWith(fqdn, suffix) &&
       (forall i :: 0 <= i < |fqdn| - |suffix| ==> !OccursAt(fqdn, suffix, i)) {
      var p := fqdn[..|fqdn| - |suffix|];
      assert fqdn == p + suffix;
      RemoveSoleSuffix(p, suffix);
    }
  }
}
