/**
 * The FreeIPA client (FreeIPAClient): DNS A-record add and remove, host and
 * service principal creation, certificate request, validity check and
 * revocation, and the rebuild of Traefik's certificate list.
 *
 * Every shelled-out command (`kinit`, `ipa ...`, `openssl ...`) is a `Command`;
 * what the tools answer is given by a `Shell`, a function from command to
 * (returncode, stdout, stderr). The certificate directory is the set of file
 * names in it.
 */
module FreeIpa {
  import opened Wrappers
  import opened Text
  import opened Patterns
  import opened Seqs

  /** What a finished subprocess reports. */
  datatype Response = Response(returncode: int, stdout: string, stderr: string)

  datatype Command =
    | Kinit                                                  // echo password | kinit user@REALM
    | DnsRecordAdd(zone: string, name: string, ip: string)   // ipa dnsrecord-add zone name --a-rec ip
    | DnsRecordDel(zone: string, name: string, ip: string)   // ipa dnsrecord-del zone name --a-rec ip
    | HostAdd(fqdn: string)                                  // ipa host-add fqdn --force
    | ServiceAdd(principal: string)                          // ipa service-add HTTP/fqdn
    | EndDate(certFile: string)                              // openssl x509 -in cert -noout -enddate
    | GenRsa(keyFile: string)                                // openssl genrsa -out key 2048
    | NewCsr(keyFile: string, csrFile: string, subject: string)  // openssl req -new -key .. -out .. -subj ..
    | CertRequest(csrFile: string, principal: string)        // ipa cert-request csr --principal=..
    | CertShow(serial: string, outFile: string)              // ipa cert-show serial --out=cert

  /** How the directory and the local tools answer each command during one operation. */
  type Shell = Command -> Response

  /** The client's settings, read once from the configuration. */
  datatype Client = Client(zone: string, certEnabled: bool, certPath: string, renewThresholdDays: int)

  const DefaultCertPath := "/certs/services"
  const DefaultRenewThresholdDays := 30

  /**
   * The client as the configuration sets it up: certificates are off, the
   * directory is "/certs/services" and the renewal threshold is 30 days
   * unless the `certificates` section says otherwise.
   */
  function Configured(zone: string, enabled: Option<bool>, certPath: Option<string>, renewThresholdDays: Option<int>): (c: Client)
    ensures c.zone == zone
    ensures c.certEnabled <==> enabled == Some(true)
    ensures c.certPath == if certPath.Some? then certPath.value else DefaultCertPath
    ensures c.renewThresholdDays == if renewThresholdDays.Some? then renewThresholdDays.value else DefaultRenewThresholdDays
  {
    Client(zone, enabled.Some? && enabled.value,
           match certPath case Some(p) => p case None => DefaultCertPath,
           match renewThresholdDays case Some(d) => d case None => DefaultRenewThresholdDays)
  }
  const SecondsPerDay := 86400

  const AlreadyExists := "already exists"
  const NotFound := "not found"

  /**
   * A command counts as done when it succeeded or when its error output
   * contains `benign`, in any letter case.
   */
  predicate Tolerated(r: Response, benign: string) {
    r.returncode == 0 || Contains(ToLower(r.stderr), benign)
  }

  // ---------------------------------------------------------------- DNS records

  datatype RecordChange = AddRecord | DeleteRecord

  function RecordCommand(op: RecordChange, zone: string, host: string, ip: string): Command {
    match op
    case AddRecord => DnsRecordAdd(zone, host, ip)
    case DeleteRecord => DnsRecordDel(zone, host, ip)
  }

  /** The error text that still counts as done: a record to add is there, a record to delete is gone. */
  function Benign(op: RecordChange): string {
    match op
    case AddRecord => AlreadyExists
    case DeleteRecord => NotFound
  }

  /** The record commands for `ips`, one per address, in order. */
  function RecordCommands(op: RecordChange, zone: string, host: string, ips: seq<string>): (cmds: seq<Command>)
    ensures |cmds| == |ips|
    ensures forall k :: 0 <= k < |ips| ==> cmds[k] == RecordCommand(op, zone, host, ips[k])
  {
    seq(|ips|, k requires 0 <= k < |ips| => RecordCommand(op, zone, host, ips[k]))
  }

  /** The index of the first address whose command is not tolerated, or |ips| when there is none. */
  function FirstFailure(op: RecordChange, zone: string, host: string, ips: seq<string>, shell: Shell): (k: nat)
    ensures k <= |ips|
    ensures forall j :: 0 <= j < k ==> Tolerated(shell(RecordCommand(op, zone, host, ips[j])), Benign(op))
    ensures k < |ips| ==> !Tolerated(shell(RecordCommand(op, zone, host, ips[k])), Benign(op))
  {
    if ips == [] then 0
    else if !Tolerated(shell(RecordCommand(op, zone, host, ips[0])), Benign(op)) then 0
    else 1 + FirstFailure(op, zone, host, ips[1..], shell)
  }

  /**
   * add_dns_record / remove_dns_record: authenticate, then one command per
   * address in order, stopping at the first one that is not tolerated.
   * `issued` is the commands sent, in order.
   */
  method ChangeDnsRecord(c: Client, op: RecordChange, host: string, ips: seq<string>, shell: Shell)
    returns (ok: bool, issued: seq<Command>)
    ensures ok <==> forall j :: 0 <= j < |ips| ==> Tolerated(shell(RecordCommand(op, c.zone, host, ips[j])), Benign(op))
    ensures var f := FirstFailure(op, c.zone, host, ips, shell);
      issued == [Kinit] + RecordCommands(op, c.zone, host, ips[..if ok then f else f + 1])
  {
    issued := [Kinit];
    var i := 0;
    while i < |ips|
      invariant 0 <= i <= |ips|
      invariant forall j :: 0 <= j < i ==> Tolerated(shell(RecordCommand(op, c.zone, host, ips[j])), Benign(op))
      invariant issued == [Kinit] + RecordCommands(op, c.zone, host, ips[..i])
    {
      var cmd := RecordCommand(op, c.zone, host, ips[i]);
      issued := issued + [cmd];
      assert RecordCommands(op, c.zone, host, ips[..i + 1]) == RecordCommands(op, c.zone, host, ips[..i]) + [cmd];
      var result := shell(cmd);
      if result.returncode == 0 {
        // the record was added or removed
      } else if Contains(ToLower(result.stderr), Benign(op)) {
        // already there, or already gone: logged as a warning
      } else {
        ok := false;
        return;
      }
      i := i + 1;
    }
    assert ips[..i] == ips;
    ok := true;
  }

  /** add_dns_record: "already exists" counts as success. */
  method AddDnsRecord(c: Client, host: string, ips: seq<string>, shell: Shell) returns (ok: bool, issued: seq<Command>)
    ensures ok <==> forall j :: 0 <= j < |ips| ==> Tolerated(shell(DnsRecordAdd(c.zone, host, ips[j])), AlreadyExists)
    ensures var f := FirstFailure(AddRecord, c.zone, host, ips, shell);
      issued == [Kinit] + RecordCommands(AddRecord, c.zone, host, ips[..if ok then f else f + 1])
  {
    ok, issued := ChangeDnsRecord(c, AddRecord, host, ips, shell);
  }

  /** remove_dns_record: "not found" counts as success. */
  method RemoveDnsRecord(c: Client, host: string, ips: seq<string>, shell: Shell) returns (ok: bool, issued: seq<Command>)
    ensures ok <==> forall j :: 0 <= j < |ips| ==> Tolerated(shell(DnsRecordDel(c.zone, host, ips[j])), NotFound)
    ensures var f := FirstFailure(DeleteRecord, c.zone, host, ips, shell);
      issued == [Kinit] + RecordCommands(DeleteRecord, c.zone, host, ips[..if ok then f else f + 1])
  {
    ok, issued := ChangeDnsRecord(c, DeleteRecord, host, ips, shell);
  }

  /** The call stops exactly at its first intolerable answer: every command before it was tolerated. */
  lemma StopsAtFirstFailure(op: RecordChange, zone: string, host: string, ips: seq<string>, shell: Shell)
    ensures var f := FirstFailure(op, zone, host, ips, shell);
      (f == |ips| <==> forall j :: 0 <= j < |ips| ==> Tolerated(shell(RecordCommand(op, zone, host, ips[j])), Benign(op)))
  {
  }

  // ----------------------------------------------- a directory that keeps records

  /**
   * A reference directory zone: it stores A records as (name, ip) pairs,
   * answers an add of a stored record with an "already exists" error and a
   * delete of a missing record with a "not found" error.
   */
  datatype Zone = Zone(name: string, records: set<(string, string)>)

  function Answer(z: Zone, cmd: Command): Response {
    match cmd
    case DnsRecordAdd(zn, n, ip) =>
      if zn == z.name && (n, ip) in z.records then Response(1, "", "ipa: ERROR: " + AlreadyExists)
      else Response(0, "", "")
    case DnsRecordDel(zn, n, ip) =>
      if zn == z.name && (n, ip) in z.records then Response(0, "", "")
      else Response(2, "", "ipa: ERROR: " + NotFound)
    case _ => Response(0, "", "")
  }

  /** How the zone changes when it carries out a command. */
  function Apply(z: Zone, cmd: Command): Zone {
    match cmd
    case DnsRecordAdd(zn, n, ip) => if zn == z.name then z.(records := z.records + {(n, ip)}) else z
    case DnsRecordDel(zn, n, ip) => if zn == z.name then z.(records := z.records - {(n, ip)}) else z
    case _ => z
  }

  function ApplyAll(z: Zone, cmds: seq<Command>): Zone
    decreases |cmds|
  {
    if cmds == [] then z else ApplyAll(Apply(z, cmds[0]), cmds[1..])
  }

  /** The A records of `host` for the addresses `ips`. */
  function AddressRecords(host: string, ips: seq<string>): set<(string, string)> {
    set ip | ip in ips :: (host, ip)
  }

  /** A lower-case marker after a fixed prefix is found by the case-insensitive test. */
  lemma MarkerFound(prefix: string, marker: string)
    requires ToLower(marker) == marker
    ensures Contains(ToLower(prefix + marker), marker)
  {
    var s := ToLower(prefix + marker);
    assert s[|prefix|..|prefix| + |marker|] == ToLower(marker);
    assert OccursAt(s, marker, |prefix|);
  }

  /**
   * Against the reference zone, whatever records it already holds, neither
   * call fails: a record that is already there, or already gone, never makes
   * add_dns_record or remove_dns_record report failure.
   */
  lemma {:induction false} RepeatsNeverFail(z: Zone, op: RecordChange, host: string, ips: seq<string>)
    ensures FirstFailure(op, z.name, host, ips, cmd => Answer(z, cmd)) == |ips|
    decreases |ips|
  {
    if ips != [] {
      AnswerTolerated(z, op, host, ips[0]);
      RepeatsNeverFail(z, op, host, ips[1..]);
    }
  }

  /** The reference zone's answer to one record command is always tolerated. */
  lemma AnswerTolerated(z: Zone, op: RecordChange, host: string, ip: string)
    ensures Tolerated(Answer(z, RecordCommand(op, z.name, host, ip)), Benign(op))
  {
    assert ToLower(AlreadyExists) == AlreadyExists;
    assert ToLower(NotFound) == NotFound;
    MarkerFound("ipa: ERROR: ", AlreadyExists);
    MarkerFound("ipa: ERROR: ", NotFound);
  }

  /** Carrying out the commands of an add leaves the zone with exactly the host's addresses added. */
  lemma {:induction false} AddEffect(z: Zone, host: string, ips: seq<string>)
    ensures ApplyAll(z, RecordCommands(AddRecord, z.name, host, ips)) ==
            z.(records := z.records + AddressRecords(host, ips))
    decreases |ips|
  {
    var cmds := RecordCommands(AddRecord, z.name, host, ips);
    if ips != [] {
      var z1 := Apply(z, cmds[0]);
      assert cmds[1..] == RecordCommands(AddRecord, z1.name, host, ips[1..]);
      AddEffect(z1, host, ips[1..]);
      assert AddressRecords(host, ips) == {(host, ips[0])} + AddressRecords(host, ips[1..]);
    } else {
      assert AddressRecords(host, ips) == {};
    }
  }

  /** Carrying out the commands of a removal leaves the zone without any of the host's addresses. */
  lemma {:induction false} RemoveEffect(z: Zone, host: string, ips: seq<string>)
    ensures ApplyAll(z, RecordCommands(DeleteRecord, z.name, host, ips)) ==
            z.(records := z.records - AddressRecords(host, ips))
    decreases |ips|
  {
    var cmds := RecordCommands(DeleteRecord, z.name, host, ips);
    if ips != [] {
      var z1 := Apply(z, cmds[0]);
      assert cmds[1..] == RecordCommands(DeleteRecord, z1.name, host, ips[1..]);
      RemoveEffect(z1, host, ips[1..]);
      assert AddressRecords(host, ips) == {(host, ips[0])} + AddressRecords(host, ips[1..]);
    } else {
      assert AddressRecords(host, ips) == {};
    }
  }

  /**
   * add_dns_record is idempotent against the reference zone: a second call
   * with the same host and addresses succeeds and leaves the zone as the
   * first call left it.
   */
  lemma AddIdempotent(z: Zone, host: string, ips: seq<string>)
    ensures var once := ApplyAll(z, RecordCommands(AddRecord, z.name, host, ips));
      FirstFailure(AddRecord, once.name, host, ips, cmd => Answer(once, cmd)) == |ips| &&
      ApplyAll(once, RecordCommands(AddRecord, once.name, host, ips)) == once
  {
    var once := ApplyAll(z, RecordCommands(AddRecord, z.name, host, ips));
    AddEffect(z, host, ips);
    AddEffect(once, host, ips);
    RepeatsNeverFail(once, AddRecord, host, ips);
  }

  // ------------------------------------------------------ principals and certificates

  function Fqdn(c: Client, host: string): string { host + "." + c.zone }
  function HttpPrincipal(c: Client, host: string): string { "HTTP/" + Fqdn(c, host) }

  /** The names, inside the certificate directory, of a host's certificate and key. */
  function CrtName(host: string): string { host + ".crt" }
  function KeyName(host: string): string { host + ".key" }
  function InCertDir(c: Client, name: string): string { c.certPath + "/" + name }
  function CsrFile(host: string): string { "/tmp/" + host + ".csr" }

  /** What a certificate operation did: its result, the certificate directory after it, the commands it sent, and whether it rewrote Traefik's certificate list. */
  datatype CertOutcome = CertOutcome(ok: bool, files: set<string>, issued: seq<Command>, rebuilt: bool)

  /** ensure_service_principal: create the host (its failure is only a warning), then the HTTP service principal. */
  function EnsureServicePrincipal(c: Client, host: string, shell: Shell): (r: CertOutcome)
  {
    var fqdn := Fqdn(c, host);
    CertOutcome(Tolerated(shell(ServiceAdd(HttpPrincipal(c, host))), AlreadyExists), {},
                [Kinit, HostAdd(fqdn), ServiceAdd(HttpPrincipal(c, host))], false)
  }

  /** The outcome of ensure_service_principal is decided by the service-add answer alone. */
  lemma PrincipalIgnoresHostAdd(c: Client, host: string, shell1: Shell, shell2: Shell)
    requires shell1(ServiceAdd(HttpPrincipal(c, host))) == shell2(ServiceAdd(HttpPrincipal(c, host)))
    ensures EnsureServicePrincipal(c, host, shell1).ok == EnsureServicePrincipal(c, host, shell2).ok
    ensures EnsureServicePrincipal(c, host, shell1).ok <==>
      shell1(ServiceAdd(HttpPrincipal(c, host))).returncode == 0 ||
      Contains(ToLower(shell1(ServiceAdd(HttpPrincipal(c, host))).stderr), AlreadyExists)
  {
  }

  /**
   * is_certificate_valid: `openssl x509 -enddate` must succeed and its date
   * must parse (`parseDate` stands for the strip, the removal of "notAfter="
   * and `strptime`); the certificate is valid unless it expires before
   * `now` plus the renewal threshold. Times are in seconds.
   */
  function IsCertificateValid(c: Client, certFile: string, shell: Shell, parseDate: string -> Option<int>, now: int): bool {
    var r := shell(EndDate(certFile));
    if r.returncode != 0 then false
    else match parseDate(r.stdout)
      case None => false
      case Some(expiry) => !(expiry < now + c.renewThresholdDays * SecondsPerDay)
  }

  /**
   * The renewal boundary: with the date read, a certificate is valid exactly
   * when it expires no earlier than the threshold; one expiring a day inside
   * the threshold is renewed, one expiring exactly at it or a day after it is kept.
   */
  lemma ValidityBoundary(c: Client, certFile: string, shell: Shell, parseDate: string -> Option<int>, now: int, expiry: int)
    requires shell(EndDate(certFile)).returncode == 0
    requires parseDate(shell(EndDate(certFile)).stdout) == Some(expiry)
    ensures IsCertificateValid(c, certFile, shell, parseDate, now) <==>
            expiry >= now + c.renewThresholdDays * SecondsPerDay
    ensures expiry == now + (c.renewThresholdDays - 1) * SecondsPerDay ==> !IsCertificateValid(c, certFile, shell, parseDate, now)
    ensures expiry == now + c.renewThresholdDays * SecondsPerDay ==> IsCertificateValid(c, certFile, shell, parseDate, now)
    ensures expiry == now + (c.renewThresholdDays + 1) * SecondsPerDay ==> IsCertificateValid(c, certFile, shell, parseDate, now)
  {
  }

  /** A certificate whose end date cannot be read is never valid. */
  lemma UnreadableIsInvalid(c: Client, certFile: string, shell: Shell, parseDate: string -> Option<int>, now: int)
    requires shell(EndDate(certFile)).returncode != 0 || parseDate(shell(EndDate(certFile)).stdout).None?
    ensures !IsCertificateValid(c, certFile, shell, parseDate, now)
  {
  }

  /**
   * request_certificate: nothing to do when certificates are disabled;
   * otherwise a service principal is required, a valid existing certificate
   * is kept, and else a key (if missing), a signing request, the request to
   * the CA, the serial number in its answer and the retrieval of the
   * certificate follow, the first failing step ending the call with false.
   */
  function RequestCertificate(c: Client, host: string, files: set<string>, shell: Shell,
                              parseDate: string -> Option<int>, now: int): CertOutcome
  {
    if !c.certEnabled then CertOutcome(true, files, [], false)
    else
      var principal := EnsureServicePrincipal(c, host, shell);
      var sent := [Kinit] + principal.issued;
      if !principal.ok then CertOutcome(false, files, sent, false)
      else
        var certFile := InCertDir(c, CrtName(host));
        var present := CrtName(host) in files;
        var checked := sent + (if present then [EndDate(certFile)] else []);
        if present && IsCertificateValid(c, certFile, shell, parseDate, now) then CertOutcome(true, files, checked, false)
        else Issue(c, host, files, shell, checked)
  }

  /** The issuing part of request_certificate, after the principal and the validity check. */
  function Issue(c: Client, host: string, files: set<string>, shell: Shell, sent: seq<Command>): CertOutcome {
    var keyFile := InCertDir(c, KeyName(host));
    var certFile := InCertDir(c, CrtName(host));
    var genKey := KeyName(host) !in files;
    var keyStep := if genKey then [GenRsa(keyFile)] else [];
    if genKey && shell(GenRsa(keyFile)).returncode != 0 then CertOutcome(false, files, sent + keyStep, false)
    else
      var files1 := files + {KeyName(host)};
      var csr := NewCsr(keyFile, CsrFile(host), "/CN=" + Fqdn(c, host) + "/O=ZCloud");
      var sent1 := sent + keyStep + [csr];
      if shell(csr).returncode != 0 then CertOutcome(false, files1, sent1, false)
      else
        var request := CertRequest(CsrFile(host), HttpPrincipal(c, host));
        var sent2 := sent1 + [request];
        var answer := shell(request);
        if answer.returncode != 0 then CertOutcome(false, files1, sent2, false)
        else match Search(SerialNumber, answer.stdout)
          case None => CertOutcome(false, files1, sent2, false)
          case Some(serial) =>
            var show := CertShow(serial, certFile);
            if shell(show).returncode != 0 then CertOutcome(false, files1, sent2 + [show], false)
            else CertOutcome(true, files1 + {CrtName(host)}, sent2 + [show], true)
  }

  /** The order of decisions in request_certificate, and what each outcome leaves on disk. */
  lemma RequestCertificateSpec(c: Client, host: string, files: set<string>, shell: Shell,
                               parseDate: string -> Option<int>, now: int)
    ensures var r := RequestCertificate(c, host, files, shell, parseDate, now);
      && (!c.certEnabled ==> r.ok && r.files == files && r.issued == [])
      && (c.certEnabled && !EnsureServicePrincipal(c, host, shell).ok ==> !r.ok && r.files == files)
      && (c.certEnabled && EnsureServicePrincipal(c, host, shell).ok && CrtName(host) in files &&
          IsCertificateValid(c, InCertDir(c, CrtName(host)), shell, parseDate, now) ==>
            r.ok && r.files == files && !r.rebuilt)
      && files <= r.files <= files + {CrtName(host), KeyName(host)}
      && (r.ok && c.certEnabled ==> CrtName(host) in r.files)
      && (r.rebuilt <==> r.ok && c.certEnabled && r.files == files + {CrtName(host), KeyName(host)} &&
                         CertRequest(CsrFile(host), HttpPrincipal(c, host)) in r.issued)
  {
  }

  /**
   * A certificate is only issued anew when the CA's answer names a serial
   * number: without one nothing is fetched and Traefik's list is not
   * rewritten, and the call succeeds only by keeping the certificate it has.
   */
  lemma IssueNeedsSerial(c: Client, host: string, files: set<string>, shell: Shell,
                         parseDate: string -> Option<int>, now: int)
    requires c.certEnabled
    requires Search(SerialNumber, shell(CertRequest(CsrFile(host), HttpPrincipal(c, host))).stdout).None?
    ensures var r := RequestCertificate(c, host, files, shell, parseDate, now);
      && !r.rebuilt
      && (r.ok ==> r.files == files)
      && forall s :: CertShow(s, InCertDir(c, CrtName(host))) !in r.issued
  {
  }

  /** revoke_certificate: delete the certificate and the key if present and rebuild Traefik's list. */
  function RevokeCertificate(c: Client, host: string, files: set<string>): CertOutcome {
    if !c.certEnabled then CertOutcome(true, files, [], false)
    else CertOutcome(true, files - {CrtName(host), KeyName(host)}, [], true)
  }

  // ------------------------------------------------- Traefik's certificate list

  datatype CertPair = CertPair(certFile: string, keyFile: string)

  /** The configuration written to certificates.yml. */
  datatype TlsConfig = TlsConfig(certificates: seq<CertPair>, minVersion: string, sniStrict: bool)

  function PairFor(c: Client, host: string): CertPair {
    CertPair(InCertDir(c, CrtName(host)), InCertDir(c, KeyName(host)))
  }

  /**
   * A configuration written for the directory `files`: one pair per served
   * host, no pair twice, TLS 1.2 at least and SNI not strict.
   */
  ghost predicate ConfigFor(c: Client, files: set<string>, tls: TlsConfig) {
    && tls.minVersion == "VersionTLS12" && !tls.sniStrict
    && NoDup(tls.certificates)
    && (forall h :: PairFor(c, h) in tls.certificates <==> Served(files, h))
  }

  /** Traefik serves a host exactly when the directory holds both its certificate and its key. */
  predicate Served(files: set<string>, host: string) {
    CrtName(host) in files && KeyName(host) in files
  }

  lemma PairForInjective(c: Client, h1: string, h2: string)
    requires PairFor(c, h1) == PairFor(c, h2)
    ensures h1 == h2
  {
    var p := c.certPath + "/";
    assert PairFor(c, h1).certFile == p + (h1 + ".crt");
    assert |h1| == |h2|;
    assert h1 == (p + (h1 + ".crt"))[|p|..|p| + |h1|];
    assert h2 == (p + (h2 + ".crt"))[|p|..|p| + |h2|];
  }

  /**
   * update_traefik_certificates: the list is built from scratch by walking the
   * directory listing (in whatever order it comes) and taking each "h.crt"
   * whose "h.key" is also there; the TLS options are fixed.
   */
  method UpdateTraefikCertificates(c: Client, files: set<string>) returns (cfg: TlsConfig)
    ensures cfg.minVersion == "VersionTLS12" && !cfg.sniStrict
    ensures NoDup(cfg.certificates)
    ensures forall h :: PairFor(c, h) in cfg.certificates <==> Served(files, h)
    ensures forall p :: p in cfg.certificates ==> exists h :: Served(files, h) && p == PairFor(c, h)
  {
    var certificates: seq<CertPair> := [];
    ghost var hosts: seq<string> := [];
    var remaining := files;
    while remaining != {}
      invariant remaining <= files
      invariant NoDup(certificates)
      invariant |hosts| == |certificates|
      invariant forall i :: 0 <= i < |certificates| ==> certificates[i] == PairFor(c, hosts[i])
      invariant forall h :: PairFor(c, h) in certificates <==> Served(files, h) && CrtName(h) !in remaining
      decreases remaining
    {
      var filename :| filename in remaining;
      ghost var before := certificates;
      if EndsWith(filename, ".crt") {
        var hostname := filename[..|filename| - 4];
        assert CrtName(hostname) == filename;
        if KeyName(hostname) in files {
          assert PairFor(c, hostname) !in certificates;
          certificates := certificates + [PairFor(c, hostname)];
          hosts := hosts + [hostname];
        }
      }
      forall h | CrtName(h) == filename ensures EndsWith(filename, ".crt") && h == filename[..|filename| - 4] {
        assert filename[|filename| - 4..] == ".crt";
      }
      forall h ensures PairFor(c, h) in certificates <==> PairFor(c, h) in before || (CrtName(h) == filename && KeyName(h) in files) {
        if PairFor(c, h) in certificates && PairFor(c, h) !in before {
          assert PairFor(c, h) == PairFor(c, filename[..|filename| - 4]);
          PairForInjective(c, h, filename[..|filename| - 4]);
        }
      }
      remaining := remaining - {filename};
    }
    cfg := TlsConfig(certificates, "VersionTLS12", false);
    forall p | p in cfg.certificates ensures exists h :: Served(files, h) && p == PairFor(c, h) {
      var i :| 0 <= i < |certificates| && certificates[i] == p;
      assert p == PairFor(c, hosts[i]);
    }
  }

  /** Right after a revocation the host is no longer served; revoking twice is revoking once. */
  lemma RevokeRemovesHost(c: Client, host: string, files: set<string>)
    requires c.certEnabled
    ensures !Served(RevokeCertificate(c, host, files).files, host)
    ensures RevokeCertificate(c, host, RevokeCertificate(c, host, files).files) == RevokeCertificate(c, host, files)
    ensures forall h :: h != host ==> (Served(RevokeCertificate(c, host, files).files, h) <==> Served(files, h))
  {
    forall h | h != host ensures CrtName(h) != CrtName(host) && CrtName(h) != KeyName(host) &&
                                 KeyName(h) != CrtName(host) && KeyName(h) != KeyName(host) {
      NamesDistinct(h, host);
    }
  }

  lemma NamesDistinct(h1: string, h2: string)
    requires h1 != h2
    ensures CrtName(h1) != CrtName(h2) && KeyName(h1) != KeyName(h2)
    ensures CrtName(h1) != KeyName(h2)
  {
    if |h1| == |h2| {
      assert CrtName(h1)[..|h1|] == h1 && CrtName(h2)[..|h2|] == h2;
      assert KeyName(h1)[..|h1|] == h1 && KeyName(h2)[..|h2|] == h2;
    }
    assert CrtName(h1)[|CrtName(h1)| - 1] == 't';
    assert KeyName(h2)[|KeyName(h2)| - 1] == 'y';
  }
}
