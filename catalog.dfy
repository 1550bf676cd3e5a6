// The web catalog's service registry: entries keyed by hostname (for
// discovered services) or by a slug of the name (for manual ones), kept in
// insertion order like a Python dict, and the counts and category groups the
// catalog page shows.
module Catalog {
  import opened Wrappers
  import opened Text
  import opened Seqs
  import opened Sorting

  /** One registry entry; `serviceName` is absent on manual entries. */
  datatype Entry = Entry(
    id: string,
    serviceName: Option<string>,
    name: string,
    hostname: string,
    url: string,
    description: string,
    category: string,
    autoDiscovered: bool,
    hasCertificate: bool,
    lastUpdated: string)

  /** A manual service from the configuration; description and category may be missing. */
  datatype ManualService = ManualService(name: string, url: string, description: Option<string>, category: Option<string>)

  const InfrastructureWords: seq<string> := ["traefik", "portainer", "prometheus", "grafana", "dns", "catalog"]
  const MonitoringWords: seq<string> := ["monitor", "cadvisor", "node-exporter", "alertmanager"]

  function ServiceUrl(hostname: string, zone: string): string { "https://" + hostname + "." + zone }

  /** The host name can be read back from the catalog url. */
  lemma ServiceUrlHost(hostname: string, zone: string)
    ensures StartsWith(ServiceUrl(hostname, zone), "https://")
    ensures EndsWith(ServiceUrl(hostname, zone), "." + zone)
    ensures ServiceUrl(hostname, zone)[8..8 + |hostname|] == hostname
  {
    var u := ServiceUrl(hostname, zone);
    assert u == "https://" + (hostname + ("." + zone));
  }

  /** `any(w in s for w in words)` */
  function MentionsAny(s: string, words: seq<string>): bool {
    if words == [] then false
    else Contains(s, words[0]) || MentionsAny(s, words[1..])
  }

  /** Some word of the list occurs in `s`, exactly when `MentionsAny` says so. */
  lemma {:induction false} MentionsAnySpec(s: string, words: seq<string>)
    ensures MentionsAny(s, words) <==> exists i :: 0 <= i < |words| && Occurs(s, words[i])
    decreases |words|
  {
    if words != [] {
      MentionsAnySpec(s, words[1..]);
      assert forall i :: 1 <= i < |words| ==> words[i] == words[1..][i - 1];
      if !Contains(s, words[0]) && exists i :: 0 <= i < |words| && Occurs(s, words[i]) {
        var i :| 0 <= i < |words| && Occurs(s, words[i]);
        assert Occurs(s, words[1..][i - 1]);
      }
    }
  }

  /** The category of a discovered service, decided by words in its lower-cased name. */
  function Category(serviceName: string): string {
    var lower := ToLower(serviceName);
    if MentionsAny(lower, InfrastructureWords) then "Infrastructure"
    else if MentionsAny(lower, MonitoringWords) then "Monitoring"
    else "Applications"
  }

  lemma ToLowerIdempotent(s: string)
    ensures ToLower(ToLower(s)) == ToLower(s)
  {
  }

  /**
   * The category does not depend on letter case, and an infrastructure word
   * wins over a monitoring word.
   */
  lemma CategorySpec(serviceName: string)
    ensures Category(serviceName) == Category(ToLower(serviceName))
    ensures Category(serviceName) == "Infrastructure" <==>
      exists i :: 0 <= i < |InfrastructureWords| && Occurs(ToLower(serviceName), InfrastructureWords[i])
    ensures Category(serviceName) == "Monitoring" <==>
      !(exists i :: 0 <= i < |InfrastructureWords| && Occurs(ToLower(serviceName), InfrastructureWords[i])) &&
      exists i :: 0 <= i < |MonitoringWords| && Occurs(ToLower(serviceName), MonitoringWords[i])
    ensures Category(serviceName) == "Applications" <==>
      !(exists i :: 0 <= i < |InfrastructureWords| && Occurs(ToLower(serviceName), InfrastructureWords[i])) &&
      !(exists i :: 0 <= i < |MonitoringWords| && Occurs(ToLower(serviceName), MonitoringWords[i]))
  {
    ToLowerIdempotent(serviceName);
    MentionsAnySpec(ToLower(serviceName), InfrastructureWords);
    MentionsAnySpec(ToLower(serviceName), MonitoringWords);
  }

  /** A name mentioning a monitoring word and "grafana" is still infrastructure. */
  lemma InfrastructureWins(serviceName: string)
    requires Contains(ToLower(serviceName), "grafana")
    ensures Category(serviceName) == "Infrastructure"
  {
    assert InfrastructureWords[3] == "grafana";
    MentionsAnySpec(ToLower(serviceName), InfrastructureWords);
  }

  /** `_` and `-` become spaces. */
  function Spaced(c: char): char { if c == '_' || c == '-' then ' ' else c }

  /** The catalog's display name: `_` and `-` replaced by spaces, then title-cased. */
  function DisplayName(serviceName: string): string {
    Title(ReplaceAll(ReplaceAll(serviceName, "_", " "), "-", " "))
  }

  /**
   * Character by character: separators become spaces, a letter is upper-cased
   * at the start of a word and lower-cased inside one, anything else is kept.
   */
  lemma {:induction false} DisplayNameAt(serviceName: string)
    ensures |DisplayName(serviceName)| == |serviceName|
    ensures forall i :: 0 <= i < |serviceName| ==>
      DisplayName(serviceName)[i] ==
        TitleChar(Spaced(serviceName[i]), if i == 0 then false else IsLetter(serviceName[i - 1]))
  {
    var a := ReplaceAll(serviceName, "_", " ");
    var b := ReplaceAll(a, "-", " ");
    ReplaceCharAt(serviceName, '_', ' ');
    assert ReplaceAll(serviceName, "_", " ") == ReplaceAll(serviceName, ['_'], [' ']);
    ReplaceCharAt(a, '-', ' ');
    assert ReplaceAll(a, "-", " ") == ReplaceAll(a, ['-'], [' ']);
    TitleAt(b, false);
    forall i | 0 <= i < |serviceName| ensures b[i] == Spaced(serviceName[i]) && IsLetter(b[i]) == IsLetter(serviceName[i]) {
    }
  }

  /** Title-casing keeps letters letters and leaves other characters alone; applying it twice is applying it once. */
  lemma TitleCharFacts(c: char, prevCased: bool)
    ensures IsLetter(TitleChar(c, prevCased)) == IsLetter(c)
    ensures !IsLetter(c) ==> TitleChar(c, prevCased) == c
    ensures TitleChar(TitleChar(c, prevCased), prevCased) == TitleChar(c, prevCased)
  {
  }

  /** A display name has no `_` or `-`, and displaying it again changes nothing. */
  lemma DisplayNameClean(serviceName: string)
    ensures forall i :: 0 <= i < |DisplayName(serviceName)| ==>
      DisplayName(serviceName)[i] != '_' && DisplayName(serviceName)[i] != '-'
    ensures DisplayName(DisplayName(serviceName)) == DisplayName(serviceName)
  {
    var d := DisplayName(serviceName);
    DisplayNameAt(serviceName);
    DisplayNameAt(d);
    forall i | 0 <= i < |d| ensures d[i] != '_' && d[i] != '-' && IsLetter(d[i]) == IsLetter(serviceName[i]) {
      var p := if i == 0 then false else IsLetter(serviceName[i - 1]);
      assert d[i] == TitleChar(Spaced(serviceName[i]), p);
      TitleCharFacts(Spaced(serviceName[i]), p);
    }
    forall i | 0 <= i < |d| ensures DisplayName(d)[i] == d[i] {
      var p := if i == 0 then false else IsLetter(serviceName[i - 1]);
      var q := if i == 0 then false else IsLetter(d[i - 1]);
      assert p == q;
      assert d[i] == TitleChar(Spaced(serviceName[i]), p);
      TitleCharFacts(Spaced(serviceName[i]), p);
      assert Spaced(d[i]) == d[i];
      assert DisplayName(d)[i] == TitleChar(Spaced(d[i]), q);
    }
  }

  /** The id of a manual service: its name lower-cased, spaces replaced by `-`. */
  function ManualId(name: string): string {
    ReplaceAll(ToLower(name), " ", "-")
  }

  /** A manual id has the name's length, no spaces and no upper-case letters; it is its own id. */
  lemma ManualIdSpec(name: string)
    ensures |ManualId(name)| == |name|
    ensures forall i :: 0 <= i < |name| ==> ManualId(name)[i] != ' ' && !IsUpper(ManualId(name)[i])
    ensures ManualId(ManualId(name)) == ManualId(name)
  {
    var id := ManualId(name);
    ReplaceCharAt(ToLower(name), ' ', '-');
    assert ReplaceAll(ToLower(name), " ", "-") == ReplaceAll(ToLower(name), [' '], ['-']);
    ReplaceCharAt(ToLower(id), ' ', '-');
    assert ReplaceAll(ToLower(id), " ", "-") == ReplaceAll(ToLower(id), [' '], ['-']);
    assert ToLower(id) == id;
  }

  /** The entry update_service_registry writes for a discovered host. */
  function AutoEntry(hostname: string, serviceName: string, zone: string, autoDiscovered: bool,
                     hasCertificate: bool, description: string, now: string): Entry
  {
    Entry(hostname, Some(serviceName), DisplayName(serviceName), hostname, ServiceUrl(hostname, zone),
          description, Category(serviceName), autoDiscovered, hasCertificate, now)
  }

  /** The entry load_manual_services writes for a configured service. */
  function ManualEntry(s: ManualService, now: string): Entry {
    Entry(ManualId(s.name), None, s.name, "", s.url, s.description.GetOr(""), s.category.GetOr("Other"),
          false, StartsWith(s.url, "https://"), now)
  }

  /** The registry contents after loading manual services in order: a later service with the same id replaces an earlier one. */
  function ManualMap(services: seq<ManualService>, now: string): map<string, Entry>
    decreases |services|
  {
    if services == [] then map[]
    else
      var last := services[|services| - 1];
      ManualMap(services[..|services| - 1], now)[ManualId(last.name) := ManualEntry(last, now)]
  }

  /** The loaded entries are keyed by exactly the ids of the configured services. */
  lemma {:induction false} ManualMapKeys(services: seq<ManualService>, now: string)
    ensures forall k :: k in ManualMap(services, now) <==>
      exists j :: 0 <= j < |services| && ManualId(services[j].name) == k
    decreases |services|
  {
    if services != [] {
      var n := |services| - 1;
      ManualMapKeys(services[..n], now);
      forall j | 0 <= j < n ensures services[j] == services[..n][j] {
      }
    }
  }

  /** The last configured service with a given id is the one whose entry the registry keeps. */
  lemma {:induction false} ManualMapLast(services: seq<ManualService>, now: string, j: int)
    requires 0 <= j < |services|
    requires forall j' :: j < j' < |services| ==> ManualId(services[j'].name) != ManualId(services[j].name)
    ensures ManualId(services[j].name) in ManualMap(services, now)
    ensures ManualMap(services, now)[ManualId(services[j].name)] == ManualEntry(services[j], now)
    decreases |services|
  {
    var n := |services| - 1;
    if j < n {
      assert services[..n][j] == services[j];
      forall j' | j < j' < n ensures ManualId(services[..n][j'].name) != ManualId(services[..n][j].name) {
        assert services[..n][j'] == services[j'];
      }
      ManualMapLast(services[..n], now, j);
    }
  }

  lemma UnionUpdate<K, V>(a: map<K, V>, b: map<K, V>, k: K, v: V)
    ensures (a + b)[k := v] == a + b[k := v]
  {
  }

  /** Dict insertion order: a new key goes to the end, an existing key keeps its place. */
  function Upsert(order: seq<string>, k: string): seq<string> {
    if k in order then order else order + [k]
  }

  /** The key order after loading manual services in turn. */
  function ManualOrder(order: seq<string>, services: seq<ManualService>): seq<string>
    decreases |services|
  {
    if services == [] then order
    else Upsert(ManualOrder(order, services[..|services| - 1]), ManualId(services[|services| - 1].name))
  }

  /** Dict deletion: the other keys keep their order. */
  function Without(order: seq<string>, k: string): seq<string> {
    if order == [] then []
    else (if order[0] == k then [] else [order[0]]) + Without(order[1..], k)
  }

  /** Deleting a key that is not there changes nothing. */
  lemma {:induction false} WithoutAbsent(order: seq<string>, k: string)
    requires k !in order
    ensures Without(order, k) == order
  {
    if order != [] {
      WithoutAbsent(order[1..], k);
      assert order == [order[0]] + order[1..];
    }
  }

  /** Deleting a key removes it and only it, keeps the order duplicate-free, and deleting it again changes nothing. */
  lemma {:induction false} WithoutSpec(order: seq<string>, k: string)
    ensures forall x :: x in Without(order, k) <==> x in order && x != k
    ensures NoDup(order) ==> NoDup(Without(order, k))
    ensures Without(Without(order, k), k) == Without(order, k)
  {
    WithoutMembers(order, k);
    WithoutAbsent(Without(order, k), k);
    if NoDup(order) {
      WithoutNoDup(order, k);
    }
  }

  lemma {:induction false} WithoutMembers(order: seq<string>, k: string)
    ensures forall x :: x in Without(order, k) <==> x in order && x != k
  {
    if order != [] {
      WithoutMembers(order[1..], k);
    }
  }

  lemma {:induction false} WithoutNoDup(order: seq<string>, k: string)
    requires NoDup(order)
    ensures NoDup(Without(order, k))
  {
    if order != [] {
      assert NoDup(order[1..]) by {
        forall i, j | 0 <= i < j < |order[1..]| ensures order[1..][i] != order[1..][j] {
          assert order[1..][i] == order[i + 1] && order[1..][j] == order[j + 1];
        }
      }
      WithoutNoDup(order[1..], k);
      WithoutMembers(order[1..], k);
      assert order[0] !in order[1..];
    }
  }

  /** The number of entries flagged auto-discovered, manual, or with a certificate. */
  function AutoKeys(m: map<string, Entry>): set<string> { set k | k in m && m[k].autoDiscovered }
  function ManualKeys(m: map<string, Entry>): set<string> { set k | k in m && !m[k].autoDiscovered }
  function CertKeys(m: map<string, Entry>): set<string> { set k | k in m && m[k].hasCertificate }

  /** Every entry is auto-discovered or manual, never both: the page's "total minus auto" is the manual count. */
  lemma AutoManualPartition(m: map<string, Entry>)
    ensures |m| == |AutoKeys(m)| + |ManualKeys(m)|
  {
    assert m.Keys == AutoKeys(m) + ManualKeys(m);
    assert AutoKeys(m) * ManualKeys(m) == {};
  }

  /** The keys among `ks` whose entries are auto-discovered, or carry a certificate. */
  function AutoIn(m: map<string, Entry>, ks: seq<string>): set<string> {
    set k | k in ks && k in m && m[k].autoDiscovered
  }
  function CertIn(m: map<string, Entry>, ks: seq<string>): set<string> {
    set k | k in ks && k in m && m[k].hasCertificate
  }

  /** Counting one more key that was not counted before. */
  lemma CountStep(m: map<string, Entry>, ks: seq<string>, k: string)
    requires k in m && k !in ks
    ensures |AutoIn(m, ks + [k])| == |AutoIn(m, ks)| + (if m[k].autoDiscovered then 1 else 0)
    ensures |CertIn(m, ks + [k])| == |CertIn(m, ks)| + (if m[k].hasCertificate then 1 else 0)
  {
    if m[k].autoDiscovered {
      assert AutoIn(m, ks + [k]) == AutoIn(m, ks) + {k};
    } else {
      assert AutoIn(m, ks + [k]) == AutoIn(m, ks);
    }
    if m[k].hasCertificate {
      assert CertIn(m, ks + [k]) == CertIn(m, ks) + {k};
    } else {
      assert CertIn(m, ks + [k]) == CertIn(m, ks);
    }
  }

  /** The categories of the entries under the keys `ks`, in key order, repeats included. */
  function CategoriesIn(m: map<string, Entry>, ks: seq<string>): seq<string>
    decreases |ks|
  {
    if ks == [] then []
    else
      var k := ks[|ks| - 1];
      CategoriesIn(m, ks[..|ks| - 1]) + (if k in m then [m[k].category] else [])
  }

  /** The entries under the keys `ks` whose category is `c`, in key order. */
  function GroupOf(m: map<string, Entry>, ks: seq<string>, c: string): seq<Entry>
    decreases |ks|
  {
    if ks == [] then []
    else
      var k := ks[|ks| - 1];
      GroupOf(m, ks[..|ks| - 1], c) + (if k in m && m[k].category == c then [m[k]] else [])
  }

  lemma {:induction false} CategoriesInMembers(m: map<string, Entry>, ks: seq<string>)
    ensures forall c :: c in CategoriesIn(m, ks) <==> exists k :: k in ks && k in m && m[k].category == c
    decreases |ks|
  {
    if ks != [] {
      var n := |ks| - 1;
      CategoriesInMembers(m, ks[..n]);
      assert ks == ks[..n] + [ks[n]];
    }
  }

  /** A category's group holds exactly the entries of that category. */
  lemma {:induction false} GroupOfMembers(m: map<string, Entry>, ks: seq<string>, c: string)
    ensures forall e :: e in GroupOf(m, ks, c) <==> e.category == c && exists k :: k in ks && k in m && m[k] == e
    decreases |ks|
  {
    if ks != [] {
      var n := |ks| - 1;
      GroupOfMembers(m, ks[..n], c);
      assert ks == ks[..n] + [ks[n]];
    }
  }

  /** Entries carry their own key as id, so distinct keys give a group without repeats. */
  lemma {:induction false} GroupOfNoDup(m: map<string, Entry>, ks: seq<string>, c: string)
    requires NoDup(ks)
    requires forall k :: k in m ==> m[k].id == k
    ensures NoDup(GroupOf(m, ks, c))
    decreases |ks|
  {
    if ks != [] {
      var n := |ks| - 1;
      var k := ks[n];
      assert NoDup(ks[..n]);
      GroupOfNoDup(m, ks[..n], c);
      GroupOfMembers(m, ks[..n], c);
      if k in m {
        assert k !in ks[..n];
        forall k' | k' in ks[..n] && k' in m ensures m[k'] != m[k] {
          assert m[k'].id == k' != k == m[k].id;
        }
        assert m[k] !in GroupOf(m, ks[..n], c);
      }
    }
  }

  /** A category no key's entry carries has an empty group. */
  lemma {:induction false} GroupOfUnseen(m: map<string, Entry>, ks: seq<string>, c: string)
    requires c !in CategoriesIn(m, ks)
    ensures GroupOf(m, ks, c) == []
    decreases |ks|
  {
    if ks != [] {
      GroupOfUnseen(m, ks[..|ks| - 1], c);
    }
  }

  /** `groups` maps each category met among the keys `ks` to its group; `categories` lists them in first-seen order. */
  ghost predicate Grouped(m: map<string, Entry>, ks: seq<string>, categories: seq<string>, groups: map<string, seq<Entry>>) {
    && categories == Dedup(CategoriesIn(m, ks))
    && (forall c :: c in groups <==> c in categories)
    && (forall c :: c in groups ==> groups[c] == GroupOf(m, ks, c))
  }

  /** Filing the entry under one more key: a new category starts an empty group first. */
  lemma GroupStep(m: map<string, Entry>, ks: seq<string>, k: string, categories: seq<string>, groups: map<string, seq<Entry>>)
    requires Grouped(m, ks, categories, groups) && k in m
    ensures var c := m[k].category;
      var started := if c in groups then groups else groups[c := []];
      Grouped(m, ks + [k], if c in groups then categories else categories + [c], started[c := started[c] + [m[k]]])
  {
    var c := m[k].category;
    var ks' := ks + [k];
    assert ks'[..|ks'| - 1] == ks;
    var categories' := if c in groups then categories else categories + [c];
    var started := if c in groups then groups else groups[c := []];
    var groups' := started[c := started[c] + [m[k]]];
    assert categories' == Dedup(CategoriesIn(m, ks')) by {
      assert CategoriesIn(m, ks') == CategoriesIn(m, ks) + [c];
      DedupSnoc(CategoriesIn(m, ks), c);
    }
    assert started[c] == GroupOf(m, ks, c) by {
      if c !in groups {
        DedupSpec(CategoriesIn(m, ks));
        GroupOfUnseen(m, ks, c);
      }
    }
    forall c' ensures c' in groups' <==> c' in categories' {
    }
    forall c' | c' in groups' ensures groups'[c'] == GroupOf(m, ks', c') {
      assert GroupOf(m, ks', c') == GroupOf(m, ks, c') + (if c' == c then [m[k]] else []);
    }
  }

  /** The function of a section's entries the page sorts them by. */
  function NameOf(e: Entry): string { e.name }
  function Itself(c: string): string { c }

  /** The page's sections: the sorted categories, each with its group sorted by display name. */
  function SectionsOf(m: map<string, Entry>, ks: seq<string>, categories: seq<string>): seq<Section> {
    seq(|categories|, t requires 0 <= t < |categories| => SectionFor(m, ks, categories[t]))
  }

  /** The section of category `c`: its group sorted by display name. */
  function SectionFor(m: map<string, Entry>, ks: seq<string>, c: string): Section {
    Section(c, SortBy(GroupOf(m, ks, c), NameOf))
  }

  /** One category's section holds exactly its entries, once each, sorted by name. */
  lemma SectionAt(m: map<string, Entry>, ks: seq<string>, c: string)
    requires NoDup(ks) && forall k :: k in ks <==> k in m
    requires forall k :: k in m ==> m[k].id == k
    requires c in CategoriesIn(m, ks)
    ensures forall e :: e in SortBy(GroupOf(m, ks, c), NameOf) <==> e in m.Values && e.category == c
    ensures SortBy(GroupOf(m, ks, c), NameOf) != []
    ensures NoDup(SortBy(GroupOf(m, ks, c), NameOf)) && SortedBy(SortBy(GroupOf(m, ks, c), NameOf), NameOf)
  {
    var g := GroupOf(m, ks, c);
    GroupOfMembers(m, ks, c);
    GroupOfNoDup(m, ks, c);
    SortBySpec(g, NameOf);
    SortByMembers(g, NameOf);
    SortByNoDup(g, NameOf);
    CategoriesInMembers(m, ks);
    var k :| k in ks && k in m && m[k].category == c;
    assert m[k] in g;
    forall e ensures e in m.Values <==> exists k' :: k' in ks && k' in m && m[k'] == e {
    }
  }

  /**
   * What the page promises of its sections over the registry `m`: every category
   * once, in ascending order; every entry lies in the section of its category;
   * each section holds exactly its category's entries, without repeats, sorted by name.
   */
  ghost predicate Catalogued(m: map<string, Entry>, sections: seq<Section>) {
    && (forall i, j :: 0 <= i < j < |sections| ==>
          LessEq(sections[i].category, sections[j].category) && sections[i].category != sections[j].category)
    && (forall k :: k in m ==> exists i :: 0 <= i < |sections| && sections[i].category == m[k].category)
    && (forall i, e :: 0 <= i < |sections| ==>
          (e in sections[i].services <==> e in m.Values && e.category == sections[i].category))
    && (forall i :: 0 <= i < |sections| ==>
          sections[i].services != [] && NoDup(sections[i].services) && SortedBy(sections[i].services, NameOf))
  }

  /** Sections over distinct categories in ascending order come in strictly ascending order. */
  lemma SectionsOrdered(m: map<string, Entry>, ks: seq<string>, sorted: seq<string>, sections: seq<Section>)
    requires NoDup(sorted) && SortedBy(sorted, Itself)
    requires sections == SectionsOf(m, ks, sorted)
    ensures forall i, j :: 0 <= i < j < |sections| ==>
      LessEq(sections[i].category, sections[j].category) && sections[i].category != sections[j].category
  {
    forall i, j | 0 <= i < j < |sections|
      ensures LessEq(sections[i].category, sections[j].category) && sections[i].category != sections[j].category
    {
      assert Itself(sorted[i]) == sorted[i] && Itself(sorted[j]) == sorted[j];
    }
  }

  /** When every category met is listed, every entry has a section of its category. */
  lemma SectionsCover(m: map<string, Entry>, ks: seq<string>, sorted: seq<string>, sections: seq<Section>)
    requires forall k :: k in m ==> k in ks
    requires forall c :: c in CategoriesIn(m, ks) ==> c in sorted
    requires sections == SectionsOf(m, ks, sorted)
    ensures forall k :: k in m ==> exists i :: 0 <= i < |sections| && sections[i].category == m[k].category
  {
    CategoriesInMembers(m, ks);
    forall k | k in m ensures exists i :: 0 <= i < |sections| && sections[i].category == m[k].category {
      assert m[k].category in sorted;
      var i :| 0 <= i < |sorted| && sorted[i] == m[k].category;
      assert sections[i].category == m[k].category;
    }
  }

  /** When only categories met are listed, each section holds exactly its entries, once each, sorted by name. */
  lemma SectionsExact(m: map<string, Entry>, ks: seq<string>, sorted: seq<string>, sections: seq<Section>)
    requires NoDup(ks) && forall k :: k in ks <==> k in m
    requires forall k :: k in m ==> m[k].id == k
    requires forall c :: c in sorted ==> c in CategoriesIn(m, ks)
    requires sections == SectionsOf(m, ks, sorted)
    ensures forall i, e :: 0 <= i < |sections| ==>
      (e in sections[i].services <==> e in m.Values && e.category == sections[i].category)
    ensures forall i :: 0 <= i < |sections| ==>
      sections[i].services != [] && NoDup(sections[i].services) && SortedBy(sections[i].services, NameOf)
  {
    forall i | 0 <= i < |sections|
      ensures forall e :: e in sections[i].services <==> e in m.Values && e.category == sections[i].category
      ensures sections[i].services != [] && NoDup(sections[i].services) && SortedBy(sections[i].services, NameOf)
    {
      assert sorted[i] in sorted;
      SectionAt(m, ks, sorted[i]);
    }
  }

  /**
   * Over all keys of the registry, the sections list every category once in
   * ascending order, every entry lies in the section of its category, and each
   * section holds exactly its category's entries, without repeats, sorted by name.
   */
  lemma SectionsSpec(m: map<string, Entry>, ks: seq<string>, sections: seq<Section>)
    requires NoDup(ks) && forall k :: k in ks <==> k in m
    requires forall k :: k in m ==> m[k].id == k
    requires sections == SectionsOf(m, ks, SortBy(Dedup(CategoriesIn(m, ks)), Itself))
    ensures Catalogued(m, sections)
  {
    var cats := Dedup(CategoriesIn(m, ks));
    var sorted := SortBy(cats, Itself);
    DedupSpec(CategoriesIn(m, ks));
    SortBySpec(cats, Itself);
    SortByMembers(cats, Itself);
    SortByNoDup(cats, Itself);
    SectionsOrdered(m, ks, sorted, sections);
    SectionsCover(m, ks, sorted, sections);
    SectionsExact(m, ks, sorted, sections);
  }

  /** One category section of the catalog page. */
  datatype Section = Section(category: string, services: seq<Entry>)

  /** What the catalog page shows: the four counts and the category sections in order. */
  datatype Page = Page(total: int, auto: int, manual: int, cert: int, sections: seq<Section>)

  /** The service registry, a dict from id to entry; `order` is the dict's insertion order. */
  class Registry {
    var entries: map<string, Entry>
    var order: seq<string>

    ghost predicate Valid()
      reads this
    {
      && NoDup(order)
      && (forall k :: k in order <==> k in entries)
      && (forall k :: k in entries ==> entries[k].id == k)
    }

    constructor ()
      ensures Valid() && entries == map[] && order == []
    {
      entries := map[];
      order := [];
    }

    /** `service_registry[k] = e` */
    method Put(k: string, e: Entry)
      requires Valid() && e.id == k
      modifies this
      ensures Valid()
      ensures entries == old(entries)[k := e]
      ensures order == Upsert(old(order), k)
    {
      if k !in order {
        order := order + [k];
      }
      entries := entries[k := e];
    }

    /** update_service_registry: overwrite the entry under `hostname`; every other entry is unchanged. */
    method Update(hostname: string, serviceName: string, zone: string, autoDiscovered: bool,
                  hasCertificate: bool, description: string, now: string)
      requires Valid()
      modifies this
      ensures Valid()
      ensures entries == old(entries)[hostname := AutoEntry(hostname, serviceName, zone, autoDiscovered, hasCertificate, description, now)]
      ensures order == Upsert(old(order), hostname)
    {
      Put(hostname, AutoEntry(hostname, serviceName, zone, autoDiscovered, hasCertificate, description, now));
    }

    /** remove_from_registry: delete the entry if there is one. */
    method Remove(hostname: string)
      requires Valid()
      modifies this
      ensures Valid()
      ensures entries == old(entries) - {hostname}
      ensures order == Without(old(order), hostname)
    {
      WithoutSpec(order, hostname);
      if hostname in entries {
        entries := entries - {hostname};
        order := Without(order, hostname);
      } else {
        WithoutAbsent(order, hostname);
      }
    }

    /** load_manual_services: write each configured service under its id, in order. */
    method LoadManualServices(services: seq<ManualService>, now: string)
      requires Valid()
      modifies this
      ensures Valid()
      ensures entries == old(entries) + ManualMap(services, now)
      ensures order == ManualOrder(old(order), services)
    {
      var i := 0;
      while i < |services|
        invariant 0 <= i <= |services|
        invariant Valid()
        invariant entries == old(entries) + ManualMap(services[..i], now)
        invariant order == ManualOrder(old(order), services[..i])
      {
        var s := services[i];
        Put(ManualId(s.name), ManualEntry(s, now));
        assert services[..i + 1][..i] == services[..i];
        assert entries == old(entries) + ManualMap(services[..i + 1], now) by {
          assert ManualMap(services[..i + 1], now) == ManualMap(services[..i], now)[ManualId(s.name) := ManualEntry(s, now)];
          UnionUpdate(old(entries), ManualMap(services[..i], now), ManualId(s.name), ManualEntry(s, now));
        }
        assert order == ManualOrder(old(order), services[..i + 1]);
        i := i + 1;
      }
      assert services[..i] == services;
    }

    /**
     * The first pass of send_catalog: count the auto-discovered and the
     * certified entries, and collect the entries by category in first-seen order.
     */
    method Tally() returns (categories: seq<string>, groups: map<string, seq<Entry>>, auto: int, cert: int)
      requires Valid()
      ensures auto == |AutoKeys(entries)| && cert == |CertKeys(entries)|
      ensures Grouped(entries, order, categories, groups)
    {
      groups := map[];
      categories := [];
      auto := 0;
      cert := 0;
      var i := 0;
      while i < |order|
        invariant 0 <= i <= |order|
        invariant auto == |AutoIn(entries, order[..i])| && cert == |CertIn(entries, order[..i])|
        invariant Grouped(entries, order[..i], categories, groups)
      {
        var id := order[i];
        var service := entries[id];
        ghost var seen, categories0, groups0 := order[..i], categories, groups;
        var category := service.category;
        if category !in groups {
          groups := groups[category := []];
          categories := categories + [category];
        }
        groups := groups[category := groups[category] + [service]];
        if service.autoDiscovered {
          auto := auto + 1;
        }
        if service.hasCertificate {
          cert := cert + 1;
        }
        i := i + 1;
        assert order[..i] == seen + [id];
        assert auto == |AutoIn(entries, seen + [id])| && cert == |CertIn(entries, seen + [id])| by {
          assert id !in seen;
          CountStep(entries, seen, id);
        }
        assert Grouped(entries, seen + [id], categories, groups) by {
          GroupStep(entries, seen, id, categories0, groups0);
        }
      }
      assert order[..i] == order;
      assert AutoIn(entries, order) == AutoKeys(entries);
      assert CertIn(entries, order) == CertKeys(entries);
    }

    /** The second pass of send_catalog: each category in the given order, with its entries sorted by display name. */
    method Sections(sorted: seq<string>, groups: map<string, seq<Entry>>) returns (sections: seq<Section>)
      requires forall c :: c in sorted ==> c in groups && groups[c] == GroupOf(entries, order, c)
      ensures sections == SectionsOf(entries, order, sorted)
    {
      sections := [];
      var j := 0;
      while j < |sorted|
        invariant 0 <= j <= |sorted|
        invariant |sections| == j
        invariant forall t :: 0 <= t < j ==> sections[t] == SectionFor(entries, order, sorted[t])
      {
        var category := sorted[j];
        var section := Section(category, SortBy(groups[category], NameOf));
        assert section == SectionFor(entries, order, category);
        sections := sections + [section];
        j := j + 1;
      }
    }

    /**
     * send_catalog's data: one pass over the registry counts the entries and
     * collects them by category; the categories are then sorted, and each
     * category's entries are sorted by display name.
     */
    method SendCatalog() returns (page: Page)
      requires Valid()
      ensures page.total == |entries|
      ensures page.auto == |AutoKeys(entries)| && page.cert == |CertKeys(entries)|
      ensures page.manual == |ManualKeys(entries)|
      ensures Catalogued(entries, page.sections)
    {
      var categories, groups, auto, cert := Tally();
      AutoManualPartition(entries);
      var sorted := SortBy(categories, Itself);
      SortByMembers(categories, Itself);
      var sections := Sections(sorted, groups);
      page := Page(|entries|, auto, |entries| - auto, cert, sections);
      SectionsSpec(entries, order, page.sections);
    }
  }
}
