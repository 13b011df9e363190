/**
 * The reverse zone written for bind (src/create_reverse_dns_config.rs): the
 * DNS prologue verbatim, then one PTR record per host entry, naming the
 * entry's primary name under the domain. It has no epilogue.
 */
module ReverseDnsConfig {
  import opened Wrappers
  import opened Text
  import opened Address
  import opened Parser
  import opened Writer

  /** The name a PTR record points to: the domain itself for `@`, otherwise
      the name under the domain, both fully qualified. */
  function PtrTarget(name: string, domain: string): string {
    if name == "@" then domain + "." else name + "." + domain + "."
  }

  /** `{addr:3} IN PTR {target}`, `addr` being the text after the last dot of
      the IP (src/create_reverse_dns_config.rs:18-24). */
  function PtrRecord(ip: string, name: string, domain: string): string {
    PadRight(LastField(ip, '.'), 3) + " IN PTR " + PtrTarget(name, domain)
  }

  /** Only host entries are written. */
  predicate IsHost(e: ProcessedLine) {
    e.Line?
  }

  /** The record of one entry: its primary name only; a `NoOp` writes nothing. */
  function EntryPtr(e: ProcessedLine, domain: string): seq<string> {
    if e.Line? && e.names != [] then [PtrRecord(e.ip, e.names[0], domain)] else []
  }

  function Render(domain: string): ProcessedLine -> seq<string> {
    e => EntryPtr(e, domain)
  }

  /** The reverse zone file for `info`. */
  function ReverseZone(info: ParsedInfo): seq<string> {
    info.dnsPrefix + Emit(Render(info.domain), info.ipLines)
  }

  /** `write_reverse_dns_config` (src/create_reverse_dns_config.rs:9-28), with
      the file it writes seen as its list of lines. The source indexes
      `names[0]`, so every host entry must have a name. */
  method WriteReverseDnsConfig(info: ParsedInfo) returns (out: seq<string>)
    requires HasNames(info.ipLines)
    ensures out == ReverseZone(info)
  {
    out := WriteLines([], info.dnsPrefix);
    var i := 0;
    while i < |info.ipLines|
      invariant 0 <= i <= |info.ipLines|
      invariant out == info.dnsPrefix + Emit(Render(info.domain), info.ipLines[..i])
    {
      EmitNext(Render(info.domain), info.ipLines, i);
      ghost var before := Emit(Render(info.domain), info.ipLines[..i]);
      ghost var own := Render(info.domain)(info.ipLines[i]);
      out := WritePtr(out, info.ipLines[i], info.domain);
      assert out == info.dnsPrefix + (before + own);
      i := i + 1;
    }
    assert info.ipLines[..|info.ipLines|] == info.ipLines;
  }

  /** The body of the loop of `write_reverse_dns_config`
      (src/create_reverse_dns_config.rs:17-25): a host entry writes the PTR
      record of its primary name. */
  method WritePtr(out: seq<string>, line: ProcessedLine, domain: string) returns (r: seq<string>)
    requires line.Line? ==> line.names != []
    ensures r == out + Render(domain)(line)
  {
    r := out;
    if line.Line? {
      var name := line.names[0];
      var addr := LastField(line.ip, '.');
      if name == "@" {
        r := out + [PadRight(addr, 3) + " IN PTR " + domain + "."];
        assert PadRight(addr, 3) + " IN PTR " + domain + "." == PtrRecord(line.ip, name, domain);
      } else {
        r := out + [PadRight(addr, 3) + " IN PTR " + name + "." + domain + "."];
        assert PadRight(addr, 3) + " IN PTR " + name + "." + domain + "." == PtrRecord(line.ip, name, domain);
      }
    }
  }

  /** The reverse zone is the DNS prologue verbatim followed by exactly one PTR
      record per host entry, the `k`-th for the `k`-th host entry in entry
      order, built from its IP and primary name; `NoOp` entries write none. */
  lemma ReverseZoneLayout(info: ParsedInfo)
    requires HasNames(info.ipLines)
    ensures var zone := ReverseZone(info); var hosts := Filter(IsHost, info.ipLines); var p := |info.dnsPrefix|;
      && |zone| == p + |hosts|
      && zone[..p] == info.dnsPrefix
      && forall k :: 0 <= k < |hosts| ==> zone[p + k] == PtrRecord(hosts[k].ip, hosts[k].names[0], info.domain)
  {
    var render := Render(info.domain);
    var hosts := Filter(IsHost, info.ipLines);
    HostRecords(info.ipLines, info.domain);
    var rs := Emit(render, hosts);
    assert ReverseZone(info) == info.dnsPrefix + rs;
  }

  /** The records of the entries are one per host entry, in order. */
  lemma HostRecords(entries: seq<ProcessedLine>, domain: string)
    requires HasNames(entries)
    ensures var hosts := Filter(IsHost, entries);
      && HasNames(hosts)
      && Emit(Render(domain), entries) == Emit(Render(domain), hosts)
      && |Emit(Render(domain), hosts)| == |hosts|
      && forall k :: 0 <= k < |hosts| ==> Emit(Render(domain), hosts)[k] == PtrRecord(hosts[k].ip, hosts[k].names[0], domain)
  {
    var render := Render(domain);
    var hosts := Filter(IsHost, entries);
    FilterKeeps(IsHost, entries, Named);
    EmitSkips(render, IsHost, entries);
    HostWidths(hosts, domain);
    EmitUniform(render, 1, hosts);
    forall k | 0 <= k < |hosts| ensures Emit(render, hosts)[k] == PtrRecord(hosts[k].ip, hosts[k].names[0], domain) {
      HostRecordAt(hosts, domain, k);
    }
  }

  /** Every kept entry writes one record. */
  lemma HostWidths(hosts: seq<ProcessedLine>, domain: string)
    requires HasNames(hosts) && forall k :: 0 <= k < |hosts| ==> IsHost(hosts[k])
    ensures forall k :: 0 <= k < |hosts| ==> |Render(domain)(hosts[k])| == 1
  {
  }

  /** The record of the `k`-th kept entry, once the records before it are `k` lines. */
  lemma HostRecordAt(hosts: seq<ProcessedLine>, domain: string, k: nat)
    requires k < |hosts| && hosts[k].Line? && hosts[k].names != []
    requires |Emit(Render(domain), hosts[..k])| == k
    ensures k < |Emit(Render(domain), hosts)|
    ensures Emit(Render(domain), hosts)[k] == PtrRecord(hosts[k].ip, hosts[k].names[0], domain)
  {
    var all := Emit(Render(domain), hosts);
    var own := Render(domain)(hosts[k]);
    assert own == [PtrRecord(hosts[k].ip, hosts[k].names[0], domain)];
    EmitAt(Render(domain), hosts, k);
    assert all[k..k + 1] == own;
    assert all[k] == all[k..k + 1][0];
  }

  /** Aliases never reach the reverse zone: entries that agree on being host
      entries, on their IP and on their primary name give the same zone,
      whatever their aliases, MACs, texts and line numbers. */
  lemma ReverseIgnoresAliases(info: ParsedInfo, other: ParsedInfo)
    requires HasNames(info.ipLines) && HasNames(other.ipLines)
    requires info.dnsPrefix == other.dnsPrefix && info.domain == other.domain
    requires |info.ipLines| == |other.ipLines|
    requires forall a :: 0 <= a < |info.ipLines| ==>
      var e, f := info.ipLines[a], other.ipLines[a];
      e.Line? == f.Line? && (e.Line? ==> e.ip == f.ip && e.names[0] == f.names[0])
    ensures ReverseZone(info) == ReverseZone(other)
  {
    EmitAlike(Render(info.domain), info.ipLines, Render(other.domain), other.ipLines);
  }

  /** The host part of an IPv4 address is a short space-free field. */
  lemma HostPartPlain(ip: string)
    requires IsIPv4(ip)
    ensures var host := LastField(ip, '.'); host != [] && |host| <= 3 && NoDelimiter(host, Char(' '))
  {
    var host := LastField(ip, '.');
    IPv4HostPart(ip);
    forall i | 0 <= i < |host| ensures host[i] != ' ' {
      assert IsDigit(host[i]);
    }
  }

  /** Read back as space-separated fields (section 5.1 of RFC 1035), a PTR
      record is the host part of the address, `IN`, `PTR` and the target. */
  lemma PtrRecordFields(ip: string, name: string, domain: string)
    requires IsIPv4(ip)
    requires name != [] && NoDelimiter(name, Char(' ')) && NoDelimiter(domain, Char(' '))
    ensures Tokens(PtrRecord(ip, name, domain), Char(' ')) == [LastField(ip, '.'), "IN", "PTR", PtrTarget(name, domain)]
  {
    HostPartPlain(ip);
    TargetPlain(name, domain);
    PtrFields(LastField(ip, '.'), PtrTarget(name, domain));
  }

  /** A padded host part and a target, both single fields, read back as four fields. */
  lemma PtrFields(host: string, target: string)
    requires host != [] && NoDelimiter(host, Char(' '))
    requires target != [] && NoDelimiter(target, Char(' '))
    ensures Tokens(PadRight(host, 3) + " IN PTR " + target, Char(' ')) == [host, "IN", "PTR", target]
  {
    var d := Char(' ');
    var rest := "IN" + " " + ("PTR" + " " + target);
    PtrRecordSplit(PadRight(host, 3), target);
    TokensPadded(host, 3, rest, d);
    TokensOfWord(host, d);
    PtrTailFields(target);
    assert Tokens(PadRight(host, 3) + " IN PTR " + target, d) == [host] + ["IN", "PTR", target];
  }

  /** The fields after the host part of a PTR record. */
  lemma PtrTailFields(target: string)
    requires target != [] && NoDelimiter(target, Char(' '))
    ensures Tokens("IN" + " " + ("PTR" + " " + target), Char(' ')) == ["IN", "PTR", target]
  {
    var d := Char(' ');
    var kind := "PTR" + " " + target;
    TokensOfWord(target, d);
    TokensLeadingWord("PTR", target, d);
    assert Tokens(kind, d) == ["PTR", target];
    TokensLeadingWord("IN", kind, d);
  }

  /** The literal after the host part of a PTR record. */
  lemma PtrRecordSplit(field: string, target: string)
    ensures field + " IN PTR " + target == field + " " + ("IN" + " " + ("PTR" + " " + target))
  {
    var (dIn, dPtr) := ("IN" + " ", "PTR" + " ");
    assert " IN PTR " == " " + dIn + dPtr;
    Assoc(field, " IN PTR ", target);
    Assoc(" " + dIn, dPtr, target);
    Assoc(" ", dIn, dPtr + target);
    Assoc(field, " ", dIn + (dPtr + target));
  }

  /** The host part is at most three characters, so ` IN PTR ` always starts
      at the fourth column. */
  lemma PtrRecordColumn(ip: string, name: string, domain: string)
    requires IsIPv4(ip)
    ensures PtrRecord(ip, name, domain)[3..] == " IN PTR " + PtrTarget(name, domain)
  {
    var host := LastField(ip, '.');
    HostPartPlain(ip);
    PadRightSpec(host, 3);
    var field := PadRight(host, 3);
    assert |field| == 3;
    var r := PtrRecord(ip, name, domain);
    assert r == field + (" IN PTR " + PtrTarget(name, domain));
  }

  /** A target built from space-free parts is a single field. */
  lemma TargetPlain(name: string, domain: string)
    requires NoDelimiter(name, Char(' ')) && NoDelimiter(domain, Char(' '))
    ensures PtrTarget(name, domain) != [] && NoDelimiter(PtrTarget(name, domain), Char(' '))
  {
    var t := PtrTarget(name, domain);
    if name == "@" {
      assert forall i :: 0 <= i < |t| ==> t[i] == if i < |domain| then domain[i] else '.';
    } else {
      assert forall i :: 0 <= i < |t| ==> t[i] == if i < |name| then name[i]
        else if i == |name| then '.' else if i < |name| + 1 + |domain| then domain[i - |name| - 1] else '.';
    }
  }
}
