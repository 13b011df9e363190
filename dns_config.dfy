/**
 * The forward zone written for bind (src/create_dns_config.rs): the DNS
 * prologue verbatim, then for every host entry an A record for its primary
 * name and a CNAME record per alias pointing at the primary name, with all
 * names padded to one column, then the DNS epilogue verbatim.
 */
module DnsConfig {
  import opened Wrappers
  import opened Text
  import opened Parser
  import opened Writer

  /** `names.iter().map(|s| s.len()).max().unwrap()`. */
  function LongestName(names: seq<string>): (n: nat)
    requires names != []
    ensures forall k :: 0 <= k < |names| ==> |names[k]| <= n
  {
    if |names| == 1 then |names[0]|
    else
      var rest := LongestName(names[1..]);
      assert forall k :: 1 <= k < |names| ==> names[k] == names[1..][k - 1];
      if |names[0]| < rest then rest else |names[0]|
  }

  /** The width one entry asks for: its longest name, or 0 for a `NoOp`. */
  function EntryWidth(e: ProcessedLine): nat
    requires e.Line? ==> e.names != []
  {
    if e.Line? then LongestName(e.names) else 0
  }

  /** `compute_max_name_lenght` (src/create_dns_config.rs:35-42): the longest
      name over every name of every host entry. The source panics on an empty
      list, so a non-empty one is required. */
  function MaxNameLength(entries: seq<ProcessedLine>): (longest: nat)
    requires entries != [] && HasNames(entries)
    ensures forall a, k :: 0 <= a < |entries| && entries[a].Line? && 0 <= k < |entries[a].names| ==>
      |entries[a].names[k]| <= longest
  {
    if |entries| == 1 then EntryWidth(entries[0])
    else
      var rest := MaxNameLength(entries[1..]);
      assert forall a :: 1 <= a < |entries| ==> entries[a] == entries[1..][a - 1];
      if EntryWidth(entries[0]) < rest then rest else EntryWidth(entries[0])
  }

  /** The longest name is attained: by the `k`-th name of some entry `a`. */
  lemma {:induction false} LongestNameAttained(names: seq<string>) returns (k: nat)
    requires names != []
    ensures k < |names| && |names[k]| == LongestName(names)
  {
    if |names| == 1 {
      k := 0;
    } else {
      var j := LongestNameAttained(names[1..]);
      if |names[0]| < LongestName(names[1..]) {
        k := j + 1;
      } else {
        k := 0;
      }
    }
  }

  /** A non-zero column width is attained by some name `k` of some entry `a`. */
  lemma {:induction false} MaxNameAttained(entries: seq<ProcessedLine>) returns (a: nat, k: nat)
    requires entries != [] && HasNames(entries) && MaxNameLength(entries) > 0
    ensures a < |entries| && entries[a].Line? && k < |entries[a].names|
    ensures |entries[a].names[k]| == MaxNameLength(entries)
  {
    var tail := entries[1..];
    if |entries| > 1 && EntryWidth(entries[0]) < MaxNameLength(tail) {
      var b, j := MaxNameAttained(tail);
      a, k := b + 1, j;
      assert entries[a] == tail[b];
    } else {
      a := 0;
      k := LongestNameAttained(entries[0].names);
    }
  }

  // ---------------------------------------------------------------- one entry

  /** `{a:width$} IN A     {ip}` with `width = longest + 1`. */
  function ARecord(name: string, ip: string, longest: nat): string {
    PadRight(name, longest + 1) + " IN A     " + ip
  }

  /** `{0:1$} IN CNAME {2}` for an alias of `primary`. */
  function CnameRecord(alias: string, primary: string, longest: nat): string {
    PadRight(alias, longest + 1) + " IN CNAME " + primary
  }

  /** The records of one host entry: an A record for the primary name, then
      one CNAME per alias, in alias order. */
  function IpGroup(ip: string, names: seq<string>, longest: nat): (group: seq<string>)
    requires names != []
  {
    [ARecord(names[0], ip, longest)]
      + seq(|names| - 1, k requires 0 <= k < |names| - 1 => CnameRecord(names[k + 1], names[0], longest))
  }

  /** `write_ip_group` (src/create_dns_config.rs:26-33). */
  method WriteIpGroup(out: seq<string>, ip: string, names: seq<string>, longest: nat) returns (r: seq<string>)
    requires names != []
    ensures r == out + IpGroup(ip, names, longest)
  {
    var a := names[0];
    var width := longest + 1;
    r := out + [PadRight(a, width) + " IN A     " + ip];
    var i := 1;
    while i < |names|
      invariant 1 <= i <= |names|
      invariant r == out + IpGroup(ip, names[..i], longest)
    {
      assert IpGroup(ip, names[..i + 1], longest) == IpGroup(ip, names[..i], longest)
        + [CnameRecord(names[i], a, longest)];
      r := r + [PadRight(names[i], longest + 1) + " IN CNAME " + a];
      i := i + 1;
    }
    assert names[..|names|] == names;
  }

  /** A name no longer than `longest`, padded to `longest + 1` and followed
      by ` IN ` and more: the name is kept whole, spaces fill the field, and
      ` IN ` starts right after it. */
  lemma RecordField(name: string, tail: string, longest: nat)
    requires |name| <= longest
    ensures var r := PadRight(name, longest + 1) + " IN " + tail;
      && |r| > longest + 4
      && r[..|name|] == name
      && (forall i :: |name| <= i <= longest ==> r[i] == ' ')
      && r[longest + 1..longest + 5] == " IN "
  {
    PadRightSpec(name, longest + 1);
    var field := PadRight(name, longest + 1);
    var r := field + " IN " + tail;
    assert r[..|name|] == field[..|name|];
    assert r[longest + 1..longest + 5] == (" IN " + tail)[..4];
  }

  /** Both kinds of record have that shape. */
  lemma RecordColumns(name: string, other: string, longest: nat)
    requires |name| <= longest
    ensures var r := ARecord(name, other, longest);
      |r| > longest + 4 && r[..|name|] == name && (forall i :: |name| <= i <= longest ==> r[i] == ' ')
      && r[longest + 1..longest + 5] == " IN "
    ensures var r := CnameRecord(name, other, longest);
      |r| > longest + 4 && r[..|name|] == name && (forall i :: |name| <= i <= longest ==> r[i] == ' ')
      && r[longest + 1..longest + 5] == " IN "
  {
    RecordField(name, "A     " + other, longest);
    assert ARecord(name, other, longest) == PadRight(name, longest + 1) + " IN " + ("A     " + other);
    RecordField(name, "CNAME " + other, longest);
    assert CnameRecord(name, other, longest) == PadRight(name, longest + 1) + " IN " + ("CNAME " + other);
  }

  /** A group holds one record per name: the A record first, then the `k`-th
      alias's CNAME at position `k`. */
  lemma GroupShape(ip: string, names: seq<string>, longest: nat)
    requires names != []
    ensures var group := IpGroup(ip, names, longest);
      && |group| == |names|
      && group[0] == ARecord(names[0], ip, longest)
      && forall k :: 1 <= k < |group| ==> group[k] == CnameRecord(names[k], names[0], longest)
  {
    var group := IpGroup(ip, names, longest);
    var cnames := seq(|names| - 1, k requires 0 <= k < |names| - 1 => CnameRecord(names[k + 1], names[0], longest));
    assert group == [ARecord(names[0], ip, longest)] + cnames;
    forall k | 1 <= k < |group| ensures group[k] == CnameRecord(names[k], names[0], longest) {
      assert group[k] == cnames[k - 1];
    }
  }

  /** When no name is longer than `longest`, every record of a group has its
      name, unshortened, in a field of width exactly `longest + 1`, followed by
      ` IN `. */
  lemma GroupColumns(ip: string, names: seq<string>, longest: nat)
    requires names != []
    requires forall k :: 0 <= k < |names| ==> |names[k]| <= longest
    ensures var group := IpGroup(ip, names, longest);
      forall k :: 0 <= k < |group| ==>
        && |group[k]| > longest + 4
        && group[k][..|names[k]|] == names[k]
        && (forall i :: |names[k]| <= i <= longest ==> group[k][i] == ' ')
        && group[k][longest + 1..longest + 5] == " IN "
  {
    var group := IpGroup(ip, names, longest);
    GroupShape(ip, names, longest);
    forall k | 0 <= k < |group|
      ensures |group[k]| > longest + 4
      ensures group[k][..|names[k]|] == names[k]
      ensures forall i :: |names[k]| <= i <= longest ==> group[k][i] == ' '
      ensures group[k][longest + 1..longest + 5] == " IN "
    {
      RecordColumns(names[k], if k == 0 then ip else names[0], longest);
    }
  }

  /** Read back as space-separated fields (the master file syntax of
      section 5.1 of RFC 1035), an A record is the name, `IN`, `A` and the
      address. */
  lemma ARecordFields(name: string, ip: string, longest: nat)
    requires name != [] && NoDelimiter(name, Char(' '))
    requires ip != [] && NoDelimiter(ip, Char(' '))
    ensures Tokens(ARecord(name, ip, longest), Char(' ')) == [name, "IN", "A", ip]
  {
    var d := Char(' ');
    var rest := "IN" + " " + ("A" + " " + (Spaces(4) + ip));
    assert ARecord(name, ip, longest) == PadRight(name, longest + 1) + " " + rest by {
      ARecordSplit(PadRight(name, longest + 1), ip);
    }
    TokensPadded(name, longest + 1, rest, d);
    TokensOfWord(name, d);
    ATailFields(ip);
    assert Tokens(ARecord(name, ip, longest), d) == [name] + ["IN", "A", ip];
  }

  /** The literal after the name field of an A record. */
  lemma ARecordSplit(field: string, ip: string)
    ensures field + " IN A     " + ip == field + " " + ("IN" + " " + ("A" + " " + (Spaces(4) + ip)))
  {
    var (dIn, dA, gap) := ("IN" + " ", "A" + " ", Spaces(4));
    assert " IN A     " == " " + dIn + dA + gap by {
      assert gap == "    ";
    }
    Assoc(field, " IN A     ", ip);
    Assoc(" " + dIn + dA, gap, ip);
    Assoc(" " + dIn, dA, gap + ip);
    Assoc(" ", dIn, dA + (gap + ip));
    Assoc(field, " ", dIn + (dA + (gap + ip)));
  }

  /** The fields after the name of an A record. */
  lemma ATailFields(ip: string)
    requires ip != [] && NoDelimiter(ip, Char(' '))
    ensures Tokens("IN" + " " + ("A" + " " + (Spaces(4) + ip)), Char(' ')) == ["IN", "A", ip]
  {
    var d := Char(' ');
    var gap := Spaces(4) + ip;
    var kind := "A" + " " + gap;
    TokensOfWord(ip, d);
    TokensLeadingSpaces(4, ip, d);
    assert Tokens(gap, d) == [ip];
    TokensLeadingWord("A", gap, d);
    assert Tokens(kind, d) == ["A", ip];
    TokensLeadingWord("IN", kind, d);
  }

  /** Read back likewise, a CNAME record is the alias, `IN`, `CNAME` and the
      primary name. */
  lemma CnameRecordFields(alias: string, primary: string, longest: nat)
    requires alias != [] && NoDelimiter(alias, Char(' '))
    requires primary != [] && NoDelimiter(primary, Char(' '))
    ensures Tokens(CnameRecord(alias, primary, longest), Char(' ')) == [alias, "IN", "CNAME", primary]
  {
    var d := Char(' ');
    var rest := "IN" + " " + ("CNAME" + " " + primary);
    assert CnameRecord(alias, primary, longest) == PadRight(alias, longest + 1) + " " + rest by {
      CnameRecordSplit(PadRight(alias, longest + 1), primary);
    }
    TokensPadded(alias, longest + 1, rest, d);
    TokensOfWord(alias, d);
    CnameTailFields(primary);
    assert Tokens(CnameRecord(alias, primary, longest), d) == [alias] + ["IN", "CNAME", primary];
  }

  /** The literal after the name field of a CNAME record. */
  lemma CnameRecordSplit(field: string, primary: string)
    ensures field + " IN CNAME " + primary == field + " " + ("IN" + " " + ("CNAME" + " " + primary))
  {
    var (dIn, dCname) := ("IN" + " ", "CNAME" + " ");
    assert " IN CNAME " == " " + dIn + dCname;
    Assoc(field, " IN CNAME ", primary);
    Assoc(" " + dIn, dCname, primary);
    Assoc(" ", dIn, dCname + primary);
    Assoc(field, " ", dIn + (dCname + primary));
  }

  /** The fields after the alias of a CNAME record. */
  lemma CnameTailFields(primary: string)
    requires primary != [] && NoDelimiter(primary, Char(' '))
    ensures Tokens("IN" + " " + ("CNAME" + " " + primary), Char(' ')) == ["IN", "CNAME", primary]
  {
    var d := Char(' ');
    var kind := "CNAME" + " " + primary;
    TokensOfWord(primary, d);
    TokensLeadingWord("CNAME", primary, d);
    assert Tokens(kind, d) == ["CNAME", primary];
    TokensLeadingWord("IN", kind, d);
  }

  // ---------------------------------------------------------------- the whole zone

  /** The records of one entry; a `NoOp` writes nothing. */
  function EntryRecords(e: ProcessedLine, longest: nat): seq<string> {
    if e.Line? && e.names != [] then IpGroup(e.ip, e.names, longest) else []
  }

  /** Rendering of one entry at column width `longest`. */
  function Render(longest: nat): ProcessedLine -> seq<string> {
    e => EntryRecords(e, longest)
  }

  /** The zone file for `info` with its name column `longest + 1` wide. */
  function Zone(info: ParsedInfo, longest: nat): seq<string> {
    info.dnsPrefix + Emit(Render(longest), info.ipLines) + info.dnsSuffix
  }

  /** The zone file for `info`, its name column sized for the longest name. */
  function DnsZone(info: ParsedInfo): seq<string>
    requires info.ipLines != [] && HasNames(info.ipLines)
  {
    Zone(info, MaxNameLength(info.ipLines))
  }

  /** `write_dns_config` (src/create_dns_config.rs:6-24), with the file it
      writes seen as its list of lines. */
  method WriteDnsConfig(info: ParsedInfo) returns (out: seq<string>)
    requires info.ipLines != [] && HasNames(info.ipLines)
    ensures out == DnsZone(info)
  {
    out := WriteLines([], info.dnsPrefix);
    var longest := MaxNameLength(info.ipLines);
    out := WriteHosts(out, info.ipLines, longest);
    out := WriteLines(out, info.dnsSuffix);
  }

  /** The loop over the entries of `write_dns_config`
      (src/create_dns_config.rs:14-18): the records of every entry, in order. */
  method WriteHosts(out: seq<string>, entries: seq<ProcessedLine>, longest: nat) returns (r: seq<string>)
    requires HasNames(entries)
    ensures r == out + Emit(Render(longest), entries)
  {
    r := out;
    var i := 0;
    while i < |entries|
      invariant 0 <= i <= |entries|
      invariant r == out + Emit(Render(longest), entries[..i])
    {
      EmitNext(Render(longest), entries, i);
      ghost var before := Emit(Render(longest), entries[..i]);
      ghost var own := Render(longest)(entries[i]);
      r := WriteEntry(r, entries[i], longest);
      assert r == out + (before + own);
      i := i + 1;
    }
    assert entries[..|entries|] == entries;
  }

  /** The body of the loop over the entries of `write_dns_config`
      (src/create_dns_config.rs:14-18): a host entry writes its group. */
  method WriteEntry(out: seq<string>, line: ProcessedLine, longest: nat) returns (r: seq<string>)
    requires line.Line? ==> line.names != []
    ensures r == out + Render(longest)(line)
  {
    r := out;
    if line.Line? {
      r := WriteIpGroup(out, line.ip, line.names, longest);
    }
  }

  /** How many names the host entries hold. */
  function NameCount(entries: seq<ProcessedLine>): nat
    decreases |entries|
  {
    if entries == [] then 0
    else NameCount(entries[..|entries| - 1]) + (if entries[|entries| - 1].Line? then |entries[|entries| - 1].names| else 0)
  }

  /** One record per name of every host entry. */
  lemma {:induction false} RecordCount(entries: seq<ProcessedLine>, longest: nat)
    requires HasNames(entries)
    ensures |Emit(Render(longest), entries)| == NameCount(entries)
    ensures forall a :: 0 <= a <= |entries| ==> |Emit(Render(longest), entries[..a])| == NameCount(entries[..a])
    decreases |entries|
  {
    if entries != [] {
      var n := |entries| - 1;
      var init := entries[..n];
      RecordCount(init, longest);
      if entries[n].Line? {
        GroupShape(entries[n].ip, entries[n].names, longest);
      }
      forall a | 0 <= a <= |entries| ensures |Emit(Render(longest), entries[..a])| == NameCount(entries[..a]) {
        if a <= n {
          assert entries[..a] == init[..a];
        } else {
          assert entries[..a] == entries;
        }
      }
    }
  }

  /** The zone is the DNS prologue verbatim, one record per name of every
      host entry, then the DNS epilogue verbatim; a `NoOp` writes no line. */
  lemma DnsZoneLayout(info: ParsedInfo)
    requires info.ipLines != [] && HasNames(info.ipLines)
    ensures var zone := DnsZone(info); var p := |info.dnsPrefix|;
      && |zone| == p + NameCount(info.ipLines) + |info.dnsSuffix|
      && zone[..p] == info.dnsPrefix
      && zone[p + NameCount(info.ipLines)..] == info.dnsSuffix
  {
    var e := info.ipLines;
    var p := |info.dnsPrefix|;
    var zone := DnsZone(info);
    var rs := Emit(Render(MaxNameLength(e)), e);
    RecordCount(e, MaxNameLength(e));
    assert zone == info.dnsPrefix + rs + info.dnsSuffix;
    assert zone[..p] == info.dnsPrefix;
    assert zone[p + |rs|..] == info.dnsSuffix;
  }

  /** Host entry `a`'s group sits in the zone right after the prologue and the
      records of the entries before it, so groups follow entry order. */
  lemma DnsZoneGroup(info: ParsedInfo, a: nat)
    requires info.ipLines != [] && HasNames(info.ipLines)
    requires a < |info.ipLines| && info.ipLines[a].Line?
    ensures var zone := DnsZone(info); var e := info.ipLines[a];
      var at := |info.dnsPrefix| + NameCount(info.ipLines[..a]);
      at + |e.names| <= |zone| && zone[at..at + |e.names|] == IpGroup(e.ip, e.names, MaxNameLength(info.ipLines))
  {
    var longest := MaxNameLength(info.ipLines);
    GroupAt(info.ipLines, longest, a);
    ZoneGroupAt(info, longest, a);
  }

  /** Host entry `a`'s group, once found among the records, in the zone laid
      out at the same column width. */
  lemma ZoneGroupAt(info: ParsedInfo, longest: nat, a: nat)
    requires a < |info.ipLines| && info.ipLines[a].Line? && info.ipLines[a].names != []
    requires var rs := Emit(Render(longest), info.ipLines); var at := NameCount(info.ipLines[..a]);
      var e := info.ipLines[a];
      at + |e.names| <= |rs| && rs[at..at + |e.names|] == IpGroup(e.ip, e.names, longest)
    ensures var zone := Zone(info, longest); var e := info.ipLines[a];
      var at := |info.dnsPrefix| + NameCount(info.ipLines[..a]);
      at + |e.names| <= |zone| && zone[at..at + |e.names|] == IpGroup(e.ip, e.names, longest)
  {
    var e := info.ipLines;
    ZoneSlice(info, longest, NameCount(e[..a]), |e[a].names|, IpGroup(e[a].ip, e[a].names, longest));
  }

  /** A run of records stays whole between the prologue and the epilogue. */
  lemma ZoneSlice(info: ParsedInfo, longest: nat, i: nat, n: nat, group: seq<string>)
    requires var rs := Emit(Render(longest), info.ipLines); i + n <= |rs| && rs[i..i + n] == group
    ensures var zone := Zone(info, longest); var p := |info.dnsPrefix|;
      p + i + n <= |zone| && zone[p + i..p + i + n] == group
  {
    SliceMiddle(info.dnsPrefix, Emit(Render(longest), info.ipLines), info.dnsSuffix, i, n);
  }

  /** Where the group of host entry `a` sits among the records. */
  lemma GroupAt(entries: seq<ProcessedLine>, longest: nat, a: nat)
    requires HasNames(entries) && a < |entries| && entries[a].Line?
    ensures var rs := Emit(Render(longest), entries); var at := NameCount(entries[..a]);
      var e := entries[a];
      at + |e.names| <= |rs| && rs[at..at + |e.names|] == IpGroup(e.ip, e.names, longest)
  {
    var e := entries[a];
    RecordCount(entries, longest);
    EmitAt(Render(longest), entries, a);
    GroupShape(e.ip, e.names, longest);
    assert Render(longest)(e) == IpGroup(e.ip, e.names, longest);
    assert |Emit(Render(longest), entries[..a])| == NameCount(entries[..a]);
  }

  /** Every record line of the zone has ` IN ` at the same column, right after
      a field of width one more than the longest name. */
  lemma DnsZoneColumns(info: ParsedInfo)
    requires info.ipLines != [] && HasNames(info.ipLines)
    ensures var zone := DnsZone(info); var p := |info.dnsPrefix|; var longest := MaxNameLength(info.ipLines);
      forall i :: p <= i < |zone| - |info.dnsSuffix| ==>
        |zone[i]| > longest + 4 && zone[i][longest + 1..longest + 5] == " IN "
  {
    var e := info.ipLines;
    var longest := MaxNameLength(e);
    var p := |info.dnsPrefix|;
    var zone := DnsZone(info);
    var rs := Emit(Render(longest), e);
    RecordCount(e, longest);
    assert zone == info.dnsPrefix + rs + info.dnsSuffix;
    forall i | p <= i < |zone| - |info.dnsSuffix| ensures |zone[i]| > longest + 4 && zone[i][longest + 1..longest + 5] == " IN " {
      var a, k := EmitSource(Render(longest), e, i - p);
      GroupColumns(e[a].ip, e[a].names, longest);
      assert zone[i] == rs[i - p];
    }
  }
}
