/**
 * The host reservations written for ISC dhcpd (src/create_dhcp_config.rs):
 * the DHCP prologue verbatim, then, for every host entry that has a MAC, a
 * blank line and a `host` block fixing the entry's primary name to its MAC.
 */
module DhcpConfig {
  import opened Wrappers
  import opened Text
  import opened Address
  import opened Parser
  import opened Writer

  /** The block name: the domain itself for `@`, otherwise the name. */
  function HostKey(name: string, domain: string): string {
    if name == "@" then domain else name
  }

  /** The fixed address: the domain itself for `@`, otherwise the name under
      the domain. */
  function FixedAddress(name: string, domain: string): string {
    if name == "@" then domain else name + "." + domain
  }

  /** The five lines of one reservation (src/create_dhcp_config.rs:19-29). */
  function HostBlock(mac: string, name: string, domain: string): seq<string> {
    [ "",
      "host " + HostKey(name, domain) + " {",
      "  hardware ethernet " + mac + ";",
      "  fixed-address " + FixedAddress(name, domain) + ";",
      "}" ]
  }

  /** Only host entries with a MAC get a reservation. */
  predicate HasMac(e: ProcessedLine) {
    e.Line? && e.mac.Some?
  }

  /** The lines of one entry: its reservation, using the primary name only. */
  function EntryBlock(e: ProcessedLine, domain: string): seq<string> {
    if e.Line? && e.mac.Some? && e.names != [] then HostBlock(e.mac.value, e.names[0], domain) else []
  }

  function Render(domain: string): ProcessedLine -> seq<string> {
    e => EntryBlock(e, domain)
  }

  /** The reservations file for `info`. */
  function Reservations(info: ParsedInfo): seq<string> {
    info.dhcpPrefix + Emit(Render(info.domain), info.ipLines)
  }

  /** The DHCP writer (src/create_dhcp_config.rs:9-34, declared there under
      the name `write_reverse_dns_config`), with the file it writes seen as its
      list of lines. The source indexes `names[0]` of every host entry. */
  method WriteDhcpConfig(info: ParsedInfo) returns (out: seq<string>)
    requires HasNames(info.ipLines)
    ensures out == Reservations(info)
  {
    out := WriteLines([], info.dhcpPrefix);
    var i := 0;
    while i < |info.ipLines|
      invariant 0 <= i <= |info.ipLines|
      invariant out == info.dhcpPrefix + Emit(Render(info.domain), info.ipLines[..i])
    {
      EmitNext(Render(info.domain), info.ipLines, i);
      ghost var before := Emit(Render(info.domain), info.ipLines[..i]);
      ghost var own := Render(info.domain)(info.ipLines[i]);
      out := WriteHost(out, info.ipLines[i], info.domain);
      assert out == info.dhcpPrefix + (before + own);
      i := i + 1;
    }
    assert info.ipLines[..|info.ipLines|] == info.ipLines;
  }

  /** The body of the loop of the DHCP writer (src/create_dhcp_config.rs:16-30):
      a host entry with a MAC writes its reservation. */
  method WriteHost(out: seq<string>, line: ProcessedLine, domain: string) returns (r: seq<string>)
    requires line.Line? ==> line.names != []
    ensures r == out + Render(domain)(line)
  {
    r := out;
    if line.Line? {
      var name := line.names[0];
      if line.mac.Some? {
        var macAddress := line.mac.value;
        r := r + [""];
        if name == "@" {
          r := r + ["host " + domain + " {"];
          r := r + ["  hardware ethernet " + macAddress + ";"];
          r := r + ["  fixed-address " + domain + ";"];
        } else {
          r := r + ["host " + name + " {"];
          r := r + ["  hardware ethernet " + macAddress + ";"];
          r := r + ["  fixed-address " + name + "." + domain + ";"];
        }
        r := r + ["}"];
        ghost var block := HostBlock(macAddress, name, domain);
        assert "host " + domain + " {" == block[1] || "host " + name + " {" == block[1];
        assert name == "@" ==> "  fixed-address " + domain + ";" == block[3];
        assert name != "@" ==> "  fixed-address " + name + "." + domain + ";" == block[3];
        assert r == out + HostBlock(macAddress, name, domain);
      }
    }
  }

  /** The blocks of the entries are one per host entry with a MAC, in order,
      five lines each. */
  lemma MacBlocks(entries: seq<ProcessedLine>, domain: string)
    requires HasNames(entries)
    ensures var hosts := Filter(HasMac, entries);
      && HasNames(hosts)
      && (forall k :: 0 <= k < |hosts| ==> hosts[k].Line? && hosts[k].mac.Some?)
      && Emit(Render(domain), entries) == Emit(Render(domain), hosts)
      && |Emit(Render(domain), hosts)| == 5 * |hosts|
      && forall k :: 0 <= k < |hosts| ==>
           Emit(Render(domain), hosts)[5 * k..5 * k + 5] == HostBlock(hosts[k].mac.value, hosts[k].names[0], domain)
  {
    var render := Render(domain);
    var hosts := Filter(HasMac, entries);
    FilterKeeps(HasMac, entries, Named);
    EmitSkips(render, HasMac, entries);
    BlockWidths(hosts, domain);
    EmitUniform(render, 5, hosts);
    forall k | 0 <= k < |hosts|
      ensures Emit(render, hosts)[5 * k..5 * k + 5] == HostBlock(hosts[k].mac.value, hosts[k].names[0], domain)
    {
      HostBlockAt(hosts, domain, k);
    }
  }

  /** Every kept entry writes five lines. */
  lemma BlockWidths(hosts: seq<ProcessedLine>, domain: string)
    requires HasNames(hosts) && forall k :: 0 <= k < |hosts| ==> HasMac(hosts[k])
    ensures forall k :: 0 <= k < |hosts| ==> |Render(domain)(hosts[k])| == 5
  {
  }

  /** The block of the `k`-th kept entry, once the blocks before it are `5 * k` lines. */
  lemma HostBlockAt(hosts: seq<ProcessedLine>, domain: string, k: nat)
    requires k < |hosts| && HasMac(hosts[k]) && hosts[k].names != []
    requires |Emit(Render(domain), hosts[..k])| == 5 * k
    ensures 5 * k + 5 <= |Emit(Render(domain), hosts)|
    ensures Emit(Render(domain), hosts)[5 * k..5 * k + 5] == HostBlock(hosts[k].mac.value, hosts[k].names[0], domain)
  {
    var own := Render(domain)(hosts[k]);
    EmitAt(Render(domain), hosts, k);
    assert own == HostBlock(hosts[k].mac.value, hosts[k].names[0], domain);
  }

  /** The reservations are the DHCP prologue verbatim followed by exactly one
      five-line block per host entry with a MAC, the `k`-th block for the
      `k`-th such entry in entry order; entries without a MAC and `NoOp`
      entries write nothing. */
  lemma ReservationsLayout(info: ParsedInfo)
    requires HasNames(info.ipLines)
    ensures var out := Reservations(info); var hosts := Filter(HasMac, info.ipLines); var p := |info.dhcpPrefix|;
      && |out| == p + 5 * |hosts|
      && out[..p] == info.dhcpPrefix
      && forall k :: 0 <= k < |hosts| ==>
           out[p + 5 * k..p + 5 * k + 5] == HostBlock(hosts[k].mac.value, hosts[k].names[0], info.domain)
  {
    var hosts := Filter(HasMac, info.ipLines);
    MacBlocks(info.ipLines, info.domain);
    var bs := Emit(Render(info.domain), hosts);
    PrefixBlocks(Reservations(info), info.dhcpPrefix, bs, hosts, info.domain);
  }

  /** Blocks written after a prologue keep their order and contents. */
  lemma PrefixBlocks(out: seq<string>, prefix: seq<string>, bs: seq<string>, hosts: seq<ProcessedLine>, domain: string)
    requires HasNames(hosts) && forall k :: 0 <= k < |hosts| ==> hosts[k].Line? && hosts[k].mac.Some?
    requires |bs| == 5 * |hosts| && out == prefix + bs
    requires forall k :: 0 <= k < |hosts| ==>
      bs[5 * k..5 * k + 5] == HostBlock(hosts[k].mac.value, hosts[k].names[0], domain)
    ensures var p := |prefix|;
      && |out| == p + 5 * |hosts|
      && out[..p] == prefix
      && forall k :: 0 <= k < |hosts| ==>
           out[p + 5 * k..p + 5 * k + 5] == HostBlock(hosts[k].mac.value, hosts[k].names[0], domain)
  {
    assert out[..|prefix|] == prefix;
    forall k | 0 <= k < |hosts|
      ensures out[|prefix| + 5 * k..|prefix| + 5 * k + 5] == HostBlock(hosts[k].mac.value, hosts[k].names[0], domain)
    {
      BlockAt(prefix, bs, k, HostBlock(hosts[k].mac.value, hosts[k].names[0], domain));
    }
  }

  lemma BlockAt(prefix: seq<string>, blocks: seq<string>, k: nat, block: seq<string>)
    requires 5 * k + 5 <= |blocks| && blocks[5 * k..5 * k + 5] == block
    ensures (prefix + blocks)[|prefix| + 5 * k..|prefix| + 5 * k + 5] == block
  {
    SliceMiddle(prefix, blocks, [], 5 * k, 5);
    assert prefix + blocks + [] == prefix + blocks;
  }

  /** Only the primary name reaches the reservations: entries that agree on
      being host entries, on their MAC and on their primary name give the
      same file, whatever their aliases, IPs, texts and line numbers. */
  lemma ReservationsIgnoreAliases(info: ParsedInfo, other: ParsedInfo)
    requires HasNames(info.ipLines) && HasNames(other.ipLines)
    requires info.dhcpPrefix == other.dhcpPrefix && info.domain == other.domain
    requires |info.ipLines| == |other.ipLines|
    requires forall a :: 0 <= a < |info.ipLines| ==>
      var e, f := info.ipLines[a], other.ipLines[a];
      e.Line? == f.Line? && (e.Line? ==> e.mac == f.mac && e.names[0] == f.names[0])
    ensures Reservations(info) == Reservations(other)
  {
    EmitAlike(Render(info.domain), info.ipLines, Render(other.domain), other.ipLines);
  }

  /** Read as space-separated words, a block is a blank line, `host` with
      the block name and `{`, the MAC after `hardware ethernet`, the address
      after `fixed-address`, each closed by `;`, and `}`. */
  lemma HostBlockFields(mac: string, name: string, domain: string)
    requires HostKey(name, domain) != [] && NoDelimiter(HostKey(name, domain), Char(' '))
    requires NoDelimiter(mac, Char(' ')) && NoDelimiter(FixedAddress(name, domain), Char(' '))
    ensures var b := HostBlock(mac, name, domain); var d := Char(' ');
      && Tokens(b[0], d) == []
      && Tokens(b[1], d) == ["host", HostKey(name, domain), "{"]
      && Tokens(b[2], d) == ["hardware", "ethernet", mac + ";"]
      && Tokens(b[3], d) == ["fixed-address", FixedAddress(name, domain) + ";"]
      && Tokens(b[4], d) == ["}"]
  {
    var d := Char(' ');
    assert Tokens([], d) == [];
    OpeningFields(HostKey(name, domain));
    HardwareFields(mac);
    AddressFields(FixedAddress(name, domain));
    TokensOfWord("}", d);
  }

  /** The opening line of a block is `host`, the block name and `{`. */
  lemma OpeningFields(key: string)
    requires key != [] && NoDelimiter(key, Char(' '))
    ensures Tokens("host " + key + " {", Char(' ')) == ["host", key, "{"]
  {
    OpeningSplit(key);
    TokensOfThree(0, "host", key, "{", Char(' '));
  }

  lemma OpeningSplit(key: string)
    ensures "host " + key + " {" == Spaces(0) + ("host" + " " + (key + " " + "{"))
  {
  }

  /** The hardware line is `hardware`, `ethernet` and the MAC with its `;`. */
  lemma HardwareFields(mac: string)
    requires NoDelimiter(mac, Char(' '))
    ensures Tokens("  hardware ethernet " + mac + ";", Char(' ')) == ["hardware", "ethernet", mac + ";"]
  {
    Terminated(mac);
    HardwareSplit(mac + ";");
    assert "  hardware ethernet " + mac + ";" == "  hardware ethernet " + (mac + ";");
    TokensOfThree(2, "hardware", "ethernet", mac + ";", Char(' '));
  }

  lemma HardwareSplit(word: string)
    ensures "  hardware ethernet " + word == Spaces(2) + ("hardware" + " " + ("ethernet" + " " + word))
  {
    var (lead, dHardware, dEthernet) := (Spaces(2), "hardware" + " ", "ethernet" + " ");
    assert "  hardware ethernet " == lead + dHardware + dEthernet by {
      assert lead == "  ";
    }
    Assoc(lead + dHardware, dEthernet, word);
    Assoc(lead, dHardware, dEthernet + word);
  }

  /** The address line is `fixed-address` and the address with its `;`. */
  lemma AddressFields(address: string)
    requires NoDelimiter(address, Char(' '))
    ensures Tokens("  fixed-address " + address + ";", Char(' ')) == ["fixed-address", address + ";"]
  {
    Terminated(address);
    AddressSplit(address + ";");
    assert "  fixed-address " + address + ";" == "  fixed-address " + (address + ";");
    TokensOfTwo(2, "fixed-address", address + ";", Char(' '));
  }

  lemma AddressSplit(word: string)
    ensures "  fixed-address " + word == Spaces(2) + ("fixed-address" + " " + word)
  {
    var (lead, dAddress) := (Spaces(2), "fixed-address" + " ");
    assert "  fixed-address " == lead + dAddress by {
      assert lead == "  ";
    }
    Assoc(lead, dAddress, word);
  }

  /** A space-free word followed by `;` is a single non-empty space-free word. */
  lemma Terminated(w: string)
    requires NoDelimiter(w, Char(' '))
    ensures w + ";" != [] && NoDelimiter(w + ";", Char(' '))
  {
    var t := w + ";";
    assert forall i :: 0 <= i < |t| ==> t[i] == if i < |w| then w[i] else ';';
  }
}
