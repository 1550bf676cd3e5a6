# traefik-freeipa-sync, modelled in Dafny

The automation watches Docker Swarm services and keeps three things in step
with them:

- the DNS A records of a FreeIPA zone;
- the TLS certificates that FreeIPA's CA issues and Traefik serves;
- a small web catalog of the services.

A service takes part when its required label is exactly `"true"`. Its
hostnames come from an explicit `dns.hostname` label and, when extraction
is on, from the `Host(...)` token of every Traefik router rule whose host
lies in the managed zone.

For every hostname, the automation:

- adds one A record per Traefik address, where "already exists" counts as
  success;
- when certificates are enabled, makes sure the HTTP service principal
  exists, keeps a certificate that is still valid past the renewal threshold,
  and otherwise issues a new one and rewrites Traefik's certificate list;
- writes a catalog entry.

When a tracked service is removed, each of its hostnames gets the reverse:
its records are deleted ("not found" counts as success), its certificate
and key are deleted, and its catalog entry is dropped. The catalog page
shows four counts and the entries grouped by category, with categories and
entries sorted.

The Dafny modules follow the program's structure:

| file | module | models |
|---|---|---|
| `wrappers.dfy` | `Wrappers` | `Option` |
| `text.dfy` | `Text` | `in` on strings, `lower`, `startswith`/`endswith`, `replace` and `title`, on ASCII text |
| `patterns.dfy` | `Patterns` | the two `re.search` patterns the program uses, as the leftmost match and its first group |
| `seqs.dfy` | `Seqs` | duplicate-free lists and "append unless present" |
| `sorting.dfy` | `Sorting` | Python's string order and `sorted` with a key |
| `hostnames.dfy` | `Hostnames` | `extract_hostnames` |
| `freeipa.dfy` | `FreeIpa` | `FreeIPAClient`: DNS records, principals, certificate request, validity and revocation, and the Traefik certificate list |
| `catalog.dfy` | `Catalog` | the service registry of `web_catalog.py` (a `class` over a map plus the dict's insertion order) and the data of the catalog page |
| `engine.dfy` | `Engine` | `main`: the startup sync and the event loop, as a `class` whose fields are the tracked services, the certificate directory, the last written Traefik configuration, the time of the last `kinit` and the trace of client calls |

How the outside world is modelled:

- Every command the client shells out to (`kinit`, `ipa ...`, `openssl ...`)
  is a `Command`. What the tools answer is a parameter `shell: Command ->
  Response`, fixed for one operation or one event.
- The certificate directory is the set of file names in it.
- Dates are a parameter `parseDate: string -> Option<int>` giving seconds,
  and the clock is a parameter `now`.
- A reference `Zone` (a set of records that answers adds and deletes the
  way FreeIPA does) is used to state what the DNS calls achieve.

On these points the model follows the code as written:

- A hostname is shortened with `str.replace('.' + zone, '')`, which removes
  every occurrence of `.zone`, not just the suffix.
  `Hostnames.RuleHostnameStripsZone` and `Text.RemoveSoleSuffix` show the two
  agree when the zone occurs only at the end.
- The explicit `dns.hostname` label is taken as it is, with no zone check.
- `request_certificate` returns true without doing anything when
  certificates are disabled, and an existing valid certificate is kept
  without rewriting Traefik's list.
- `revoke_certificate` only deletes the local files; it does not revoke
  anything at the CA.

## Model

| member | source | states |
|---|---|---|
| Text.Contains | dns-automation.py:86 | `pat in s` is true exactly when `pat` occurs at some index of `s` |
| Text.ReplaceAbsent | dns-automation.py:351 | replacing a pattern that does not occur leaves the string unchanged |
| Text.RemoveSoleSuffix | dns-automation.py:361-362 | when `.zone` occurs in `p + ".zone"` only at the end, `replace` yields exactly `p`, the same as stripping the suffix |
| Text.ReplaceCharAt | web_catalog.py:357 | replacing one character by another keeps the length and maps every position on its own |
| Text.TitleAt | web_catalog.py:357 | `title()` keeps the length; character i is upper-cased when it starts a run of letters, lower-cased inside one, and otherwise kept |
| Patterns.SearchFromFirst | dns-automation.py:358 | `re.search` from index i returns the capture of the first index at or after i where a match starts |
| Patterns.SearchFromFound | dns-automation.py:358-360 | a result is the capture of a match at some index j with no match starting between i and j |
| Patterns.SearchFromNone | dns-automation.py:358-359 | no result means no match starts at any index from i on |
| Patterns.HostMatchAt | dns-automation.py:358 | a `Host(...)` match at i captures t exactly when "Host(`" + t + "`)" occurs at i with t non-empty and free of backticks |
| Patterns.SerialMatchAt | dns-automation.py:216 | a serial match at i captures t exactly when "Serial number: " + t occurs at i, t is a non-empty run of digits and no digit follows it |
| Seqs.DedupSnoc | dns-automation.py:363-365 | one step of "append unless already present" |
| Seqs.DedupSpec | dns-automation.py:363-365 | the de-duplicated list has no repeats and holds exactly the elements of the input |
| Seqs.DedupOrder | dns-automation.py:363-365 | the de-duplicated list keeps the elements in the order of their first occurrence |
| Seqs.DedupHead | dns-automation.py:349-352 | the first element survives de-duplication in first place |
| Seqs.FlatMapMembers | dns-automation.py:356-365 | an element of the concatenated contributions comes from the contribution of some element |
| Sorting.SortBySpec | web_catalog.py:243-244 | `sorted` returns a permutation of its input in ascending key order |
| Sorting.SortByMembers | web_catalog.py:243-244 | sorting keeps the length and the elements |
| Sorting.SortByNoDup | web_catalog.py:243-244 | sorting a duplicate-free list gives a duplicate-free list |
| Hostnames.Get | dns-automation.py:349-350 | the label lookup finds a value exactly when a label has the key, and then that label's value |
| Hostnames.ExtractHostnames | dns-automation.py:341-367 | the method that appends as the source does returns the reference list `Hostnames`: the candidates, each kept at its first occurrence |
| Hostnames.RouterRuleHost | dns-automation.py:357-362 | the checks on one label (router rule key, first `Host(...)` token, host inside the zone) give exactly that label's candidate |
| Hostnames.AddRouterRuleHosts | dns-automation.py:355-365 | the router-rule loop turns the explicit hostname into the de-duplicated explicit-plus-router-rule candidates |
| Hostnames.RuleCandidatesMembers | dns-automation.py:356-362 | a hostname is a router-rule candidate exactly when some router rule label yields it |
| Hostnames.ExplicitComesFirst | dns-automation.py:348-352 | with a `dns.hostname` label, its value stripped of the zone comes first |
| Hostnames.HostnamesSpec | dns-automation.py:341-367 | the hostnames are duplicate-free, are exactly the explicit one plus (with extraction on) the router rule hosts in the zone, and come in first-seen order |
| Hostnames.OnlyExplicitWithoutTraefik | dns-automation.py:355 | with extraction off, only the explicit label counts |
| Hostnames.RuleHostnameStripsZone | dns-automation.py:361-362 | a host outside the zone yields nothing; "p.zone" with the zone only at the end yields exactly p |
| FreeIpa.FirstFailure | dns-automation.py:74-92 | every command before the returned index is tolerated, and the one at it is not |
| FreeIpa.ChangeDnsRecord | dns-automation.py:69-123 | the loop succeeds exactly when every address's command is tolerated; it sends `kinit` and then the commands up to and including the first failure |
| FreeIpa.AddDnsRecord | dns-automation.py:69-95 | as above, with "already exists" tolerated |
| FreeIpa.RemoveDnsRecord | dns-automation.py:97-123 | as above, with "not found" tolerated |
| FreeIpa.StopsAtFirstFailure | dns-automation.py:74-92 | the loop runs to the end exactly when every command is tolerated |
| FreeIpa.RepeatsNeverFail | dns-automation.py:84-87 | against a zone that answers as FreeIPA does, neither call ever fails, whatever records are already there |
| FreeIpa.AnswerTolerated | dns-automation.py:84-87 | a zone that answers as FreeIPA does gives, to each add or delete, an answer the loop tolerates |
| FreeIpa.AddEffect | dns-automation.py:74-92 | the add commands leave the zone with exactly the host's records added |
| FreeIpa.RemoveEffect | dns-automation.py:102-120 | the delete commands leave the zone without any of the host's records |
| FreeIpa.AddIdempotent | dns-automation.py:69-95 | adding again succeeds and leaves the zone as the first add left it |
| FreeIpa.PrincipalIgnoresHostAdd | dns-automation.py:125-152 | `ensure_service_principal` succeeds exactly when `service-add` succeeds or reports "already exists"; the `host-add` answer does not matter |
| FreeIpa.ValidityBoundary | dns-automation.py:271-292 | with the date read, a certificate is valid exactly when it expires no earlier than now plus the threshold; checked one day inside, at and one day past the threshold |
| FreeIpa.Configured | dns-automation.py:49-51 | certificates are off and the directory is `/certs/services` unless configured; the renewal threshold defaults to 30 days (read at dns-automation.py:285) |
| FreeIpa.UnreadableIsInvalid | dns-automation.py:275-278 | a certificate whose end date cannot be read is not valid |
| FreeIpa.RequestCertificateSpec | dns-automation.py:158-241 | disabled: true and nothing sent; no principal: false and no files; a valid certificate is kept without rebuild; only the key and the certificate can be added; success means the certificate is there; Traefik's list is rebuilt exactly when a new certificate was issued |
| FreeIpa.IssueNeedsSerial | dns-automation.py:215-219 | without a serial number in the CA's answer, no certificate is fetched and Traefik's list is not rewritten; the call can then succeed only by keeping the directory as it was |
| FreeIpa.RevokeRemovesHost | dns-automation.py:247-265 | after revocation the host is no longer served, other hosts are unaffected, and revoking twice is revoking once |
| FreeIpa.UpdateTraefikCertificates | dns-automation.py:298-329 | the list holds one pair per host whose certificate and key are both in the directory, and nothing else, without repeats; the TLS options are fixed |
| Catalog.ServiceUrlHost | web_catalog.py:344 | the url is https, ends in the zone, and carries the hostname right after the scheme |
| Catalog.MentionsAnySpec | web_catalog.py:348-350 | `any(w in s for w in words)` holds exactly when some word occurs in s |
| Catalog.CategorySpec | web_catalog.py:346-351 | the category ignores letter case; it is Infrastructure exactly with an infrastructure word, Monitoring with a monitoring word and none of those, Applications otherwise |
| Catalog.InfrastructureWins | web_catalog.py:348-351 | a name mentioning "grafana" is infrastructure even when it also mentions a monitoring word |
| Catalog.DisplayNameAt | web_catalog.py:357 | the display name is character by character: `_` and `-` become spaces, then title case |
| Catalog.DisplayNameClean | web_catalog.py:357 | a display name has no `_` or `-`, and displaying it again changes nothing |
| Catalog.ManualIdSpec | web_catalog.py:380 | a manual id keeps the name's length, has no spaces and no upper-case letters, and is its own id |
| Catalog.ManualMapKeys | web_catalog.py:379-391 | after loading, the manual keys are exactly the ids of the configured services |
| Catalog.ManualMapLast | web_catalog.py:379-391 | the last configured service with a given id is the one whose entry stays |
| Catalog.WithoutSpec | web_catalog.py:369-373 | deleting a key from the dict's order removes it and only it, keeps it duplicate-free, and is idempotent |
| Catalog.AutoManualPartition | web_catalog.py:276-278 | total minus auto-discovered is the number of manual entries |
| Catalog.CountStep | web_catalog.py:236-239 | counting one more entry adds one to each count whose flag it carries |
| Catalog.CategoriesInMembers | web_catalog.py:230-234 | a category is met exactly when some entry has it |
| Catalog.GroupOfMembers | web_catalog.py:230-234 | a category's group holds exactly the entries of that category |
| Catalog.GroupOfNoDup | web_catalog.py:230-234 | with distinct keys, a group has no repeats |
| Catalog.GroupOfUnseen | web_catalog.py:232-233 | a category not met yet has an empty group |
| Catalog.GroupStep | web_catalog.py:230-234 | filing one more entry (opening its category when new) keeps the grouping right |
| Catalog.SectionAt | web_catalog.py:243-244 | a category's sorted group holds exactly its entries, at least one, once each, sorted by display name |
| Catalog.SectionsOrdered | web_catalog.py:243 | sections over distinct ascending categories are strictly ascending |
| Catalog.SectionsCover | web_catalog.py:230-243 | every entry has a section of its category |
| Catalog.SectionsExact | web_catalog.py:243-244 | each section holds exactly its category's entries, without repeats, sorted by name |
| Catalog.SectionsSpec | web_catalog.py:222-244 | the page's sections over the whole registry satisfy all of the above |
| Catalog.Registry.Put | web_catalog.py:354-365 | a dict assignment: the key's entry replaced, a new key appended to the order |
| Catalog.Registry.Update | web_catalog.py:340-365 | the hostname's entry becomes the discovered entry and every other entry is unchanged |
| Catalog.Registry.Remove | web_catalog.py:369-373 | the hostname's entry is removed if present and the others keep their order |
| Catalog.Registry.LoadManualServices | web_catalog.py:375-391 | the registry becomes the old one overwritten by the manual entries, in configuration order |
| Catalog.Registry.Tally | web_catalog.py:226-239 | the first pass counts the auto-discovered and the certified entries and groups all entries by category in first-seen order |
| Catalog.Registry.Sections | web_catalog.py:243-244 | the second pass builds, for each category in order, the section of its entries sorted by name |
| Catalog.Registry.SendCatalog | web_catalog.py:222-279 | the page's four counts are the registry's sizes, and its sections satisfy the section properties above |
| Engine.TrackedSpec | dns-automation.py:447-501 | event cases: no id, removal of an untracked id, or a create/update of a service that is gone, not enrolled or has no hostnames changes nothing; removal forgets the id; create/update records the new hostname list |
| Engine.CreateThenRemove | dns-automation.py:456-501 | creating an enrolled service and removing it retires exactly its hostnames and restores the other tracked services |
| Engine.ProvisionCallsAt | dns-automation.py:493-499 | per hostname, in order: the DNS add, then the certificate request when certificates are enabled |
| Engine.RetireCallsAt | dns-automation.py:462-465 | per recorded hostname, in order: the DNS removal, then the revocation |
| Engine.InitialTrackedKeys | dns-automation.py:410-430 | after the sync, an id is tracked exactly when some enrolled service with that id yields hostnames |
| Engine.InitialTrackedWellFormed | dns-automation.py:416-430 | after the sync, each tracked id holds a non-empty, duplicate-free hostname list |
| Engine.ProvisionedStep | dns-automation.py:499 | writing one more discovered entry keeps the registry provisioned for the longer list |
| Engine.ProvisionEntries | dns-automation.py:493-499 | provisioning hostnames in turn writes a discovered entry for each of them, certified only when certificates are enabled, and leaves every other entry alone |
| Engine.ProvisionOrder | dns-automation.py:499 | a new hostname joins the end of the catalog's insertion order; keys already there keep their places |
| Engine.ProvisionFiles | dns-automation.py:495-497 | the certificate directory only gains the hostnames' certificates and keys; with certificates disabled nothing on disk changes |
| Engine.StepFiles | dns-automation.py:495-497 | the same for one hostname |
| Engine.ProvisionFlags | dns-automation.py:494-499 | for duplicate-free hostnames, each one's certificate flag is the result of its own `request_certificate` against the directory the earlier hostnames left |
| Engine.RetireEntries | dns-automation.py:462-465 | retiring removes exactly the hostnames' entries and keys and keeps every other entry |
| Engine.WithoutFilterOut | web_catalog.py:369-373 | deleting one more key from the order equals filtering that key out together with the others |
| Engine.RetireOrder | dns-automation.py:462-465 | after retiring, the insertion order is exactly the old order with the hostnames filtered out, the other keys in their old relative order (`FilterOut`) |
| Engine.RetireFiles | dns-automation.py:464 | retiring deletes the hostnames' certificates and keys; with certificates enabled Traefik's list is then written from the final directory, otherwise nothing on disk changes |
| Engine.RetiredUnserved | dns-automation.py:464 | after retiring with certificates enabled, no retired hostname is served |
| Engine.SyncStoreKeeps | dns-automation.py:383-430 | the startup sync removes no catalog entry, so the manual services stay listed |
| Engine.RunAllTracked | dns-automation.py:440-501 | the event loop's tracking table is the fold `TrackedAll` over the events, whatever the tools answer |
| Engine.StepCorresponds | dns-automation.py:447-501 | one pass of the loop keeps every tracked hostname listed in the catalog as auto-discovered, provided no hostname is tracked under two service ids |
| Engine.RunAllCorresponds | dns-automation.py:440-501 | over a run of events, every tracked hostname keeps an auto-discovered catalog entry, provided no hostname is tracked under two ids before any event |
| Engine.TrackedAllWellFormed | dns-automation.py:440-501 | no sequence of events leaves an empty or repeating hostname list behind |
| Engine.Engine.Rebuild | dns-automation.py:239 | Traefik's configuration is rewritten for the current directory: one pair per served host, none twice, TLS 1.2 at least, SNI not strict (the engine's invariant) |
| Engine.Engine.Certify | dns-automation.py:495-497 | with certificates enabled, the result and the directory are those of `request_certificate`, and Traefik's list is rewritten from the new directory exactly when a certificate was issued; otherwise the directory and the written list stay as they were |
| Engine.Engine.ProvisionHost | dns-automation.py:493-499 | one hostname: DNS add, certificate request, then the discovered entry; registry, order, directory and written list are those of the reference step `ProvisionStep` |
| Engine.Engine.RetireHost | dns-automation.py:462-465 | one hostname: DNS removal, certificate and key deleted with the Traefik list rewritten, entry removed from the registry and from the order, as the reference step `RetireStep` says |
| Engine.Engine.ProvisionAll | dns-automation.py:493-499 | the hostnames are provisioned in order: the calls, and the registry, order, directory and written list of the fold `ProvisionStore` |
| Engine.Engine.Track | dns-automation.py:489-501 | the hostnames are provisioned as `ProvisionStore` says and then recorded for the service id |
| Engine.Engine.RetireAll | dns-automation.py:456-467 | every recorded hostname is retired in order as the fold `RetireStore` says, and the last written configuration serves none of them |
| Engine.Engine.Reauthenticate | dns-automation.py:443-445 | `kinit` runs when the last one is more than an hour old; the tracked services, the directory and the written list stay as they were |
| Engine.Engine.Act | dns-automation.py:447-501 | the event is carried out as `PlanFor` decides: tracked services, calls, and the store of `PlanStore`; an ignored event changes nothing, and a removal leaves none of its hostnames served |
| Engine.Engine.HandleEvent | dns-automation.py:440-501 | one loop step: re-authentication, then the event's plan, with the same store and the same frame as `Act` |
| Engine.Engine.SyncService | dns-automation.py:412-430 | one service of the startup sync: when it is enrolled and yields hostnames, they are provisioned in order (calls, and the store of `ProvisionStore`) and tracked; otherwise nothing changes |
| Engine.Engine.Startup | dns-automation.py:383-437 | manual services loaded, then `kinit`; failure stops everything; success makes the sync's calls for every service in order, tracks exactly the services it provisions, and leaves the store of the fold `SyncStore` |
| Engine.Engine.Monitor | dns-automation.py:440-504 | over a sequence of events, the tracked services, the time of the last `kinit`, the calls and the store follow the reference fold `RunAll`, and the tracked services the fold `TrackedAll`; a run that starts with every tracked hostname in the catalog and never tracks a hostname under two ids ends that way too |

## Left out

- Subprocess execution, the `kinit` password pipe, the Docker SDK, YAML
  writing, logging and exceptions. Commands are data, and their answers come
  from the `shell` parameter.
- Each adapter's answer is a function of the command, so two identical
  commands in one call (a repeated address) get the same answer.
- The engine's trace records the client calls (`AddDns`, `RequestCert`,
  `RemoveDns`, `RevokeCert`, `Authenticate`), not the commands each call
  sends inside. Those are stated in `FreeIpa`.
- Date parsing: `strip`, the removal of `notAfter=` and `strptime` are the
  `parseDate` parameter. Time zones and `datetime` arithmetic are seconds
  on `int`.
- File permissions (`chmod`), the CSR file in `/tmp` and its clean-up, and
  `os.makedirs`.
- The HTTP server, the HTML and JSON rendering, `send_json_api`,
  `send_health`, the server thread and `start_web_server`. The page is
  modelled by its counts and its sorted sections.
- Unicode: lower-casing, title-casing and `\d` are modelled on ASCII only.
- The catalog's `'Uncategorized'` default: every writer sets a category, so
  it cannot be reached.
- Sort stability: `SortBy` inserts stably, as Python's `sorted` does, but no
  lemma states it.
- Which calls run after an exception: every modelled operation either
  completes or reports failure through its result.
- Hostnames shared between services: the engine keeps one registry entry
  per hostname, as the source does. Removing one service then deletes the
  entry another service still tracks, so "every tracked hostname has a
  discovered catalog entry" (`Corresponds`) is proved only for runs where
  no hostname is tracked under two service ids.
- The return values of `add_dns_record`, `remove_dns_record` and
  `revoke_certificate` in `main`, which the source ignores. The engine
  ignores them too.
- Engine.Engine.Rebuild: the order of the pairs in the written list is not
  stated, because it follows the directory listing, which is not modelled.
  The engine's store records only the directory the list was written from.
