/**
 * The scenarios of tests/validation_tests.rs. Each feeds `principal`
 * (src/lib.rs:12-17) a registry of three host lines, the first followed by a
 * comment, a blank line and the four settings; parsing succeeds and
 * validation reports the first duplicate, line 2 against line 1.
 */
module ValidationScenarios {
  import opened Wrappers
  import opened Text
  import opened Address
  import opened Parser
  import opened Validation

  /** The words a scenario is written from: three MACs, three IPs, three
      names, the comment of the first line and the four setting values. */
  predicate PlainWords(macs: seq<string>, ips: seq<string>, names: seq<string>, comment: string, settings: seq<string>) {
    && |macs| == 3 && |ips| == 3 && |names| == 3 && |settings| == 4
    && (forall a :: 0 <= a < 3 ==> IsMac(macs[a]) && IsIPv4(ips[a]) && IsWord(names[a]))
    && (forall a :: 0 <= a < 4 ==> IsWord(settings[a]))
    && NoDelimiter(comment, Char('\n')) && (comment == [] || comment[|comment| - 1] != '\r')
  }

  /** The lines of a scenario: three host lines, the first followed by a
      comment, a blank line, then the four settings in the tests' order. */
  predicate LaidOut(lines: seq<string>, macs: seq<string>, ips: seq<string>, names: seq<string>, comment: string,
    settings: seq<string>)
    requires |macs| == 3 && |ips| == 3 && |names| == 3 && |settings| == 4
  {
    && |lines| == 8
    && lines[0] == HostLineText(Some(macs[0]), ips[0], [names[0]]) + " ;" + comment
    && lines[1] == HostLineText(Some(macs[1]), ips[1], [names[1]])
    && lines[2] == HostLineText(Some(macs[2]), ips[2], [names[2]])
    && lines[3] == ""
    && lines[4] == Key(Domain) + " " + settings[0]
    && lines[5] == Key(DnsFileName) + " " + settings[1]
    && lines[6] == Key(ReverseDnsFileName) + " " + settings[2]
    && lines[7] == Key(DhcpFileName) + " " + settings[3]
  }

  /** The entries of a scenario's lines: host lines 1 to 3, then the blank line 4. */
  function TestEntries(lines: seq<string>, macs: seq<string>, ips: seq<string>, names: seq<string>)
    : seq<ProcessedLine>
    requires |lines| == 8 && |macs| == 3 && |ips| == 3 && |names| == 3
  {
    [ Line(1, lines[0], Some(macs[0]), ips[0], [names[0]]),
      Line(2, lines[1], Some(macs[1]), ips[1], [names[1]]),
      Line(3, lines[2], Some(macs[2]), ips[2], [names[2]]),
      NoOp(4, lines[3]) ]
  }

  /** What a scenario parses to: its entries, its settings and no blocks. */
  function TestInfo(lines: seq<string>, macs: seq<string>, ips: seq<string>, names: seq<string>, settings: seq<string>)
    : ParsedInfo
    requires |lines| == 8 && |macs| == 3 && |ips| == 3 && |names| == 3 && |settings| == 4
  {
    ParsedInfo(TestEntries(lines, macs, ips, names), settings[0], [], [], [], settings[1], settings[2], settings[3])
  }

  /** A host line of one MAC, one IP and one name, read where host lines
      are expected, is appended to the entries. */
  lemma TestHostStep(s: Scan, k: nat, text: string, mac: string, ip: string, name: string, tail: string)
    requires s.status == IpLines && IsMac(mac) && IsIPv4(ip) && IsWord(name)
    requires text == HostLineText(Some(mac), ip, [name]) + tail
    requires ProcessLine(k + 1, text) == Ok(Line(k + 1, text, Some(mac), ip, [name]))
    ensures Step(s, k, text) == Ok(s.(ipLines := s.ipLines + [Line(k + 1, text, Some(mac), ip, [name])]))
  {
    HostLineToken(Some(mac), ip, [name], tail);
    AddressNotKeyword(mac);
  }

  /** A host line followed by a comment is appended to the entries whole. */
  lemma CommentedHostStep(s: Scan, k: nat, mac: string, ip: string, name: string, comment: string)
    requires s.status == IpLines && IsMac(mac) && IsIPv4(ip) && IsWord(name)
    ensures var text := HostLineText(Some(mac), ip, [name]) + " ;" + comment;
      Step(s, k, text) == Ok(s.(ipLines := s.ipLines + [Line(k + 1, text, Some(mac), ip, [name])]))
  {
    var host := HostLineText(Some(mac), ip, [name]);
    assert host + " ;" + comment == host + (" ;" + comment);
    CommentedHostLineRoundTrip(k + 1, Some(mac), ip, [name], comment);
    TestHostStep(s, k, host + " ;" + comment, mac, ip, name, " ;" + comment);
  }

  /** A host line without a comment is appended to the entries. */
  lemma PlainHostStep(s: Scan, k: nat, mac: string, ip: string, name: string)
    requires s.status == IpLines && IsMac(mac) && IsIPv4(ip) && IsWord(name)
    ensures var text := HostLineText(Some(mac), ip, [name]);
      Step(s, k, text) == Ok(s.(ipLines := s.ipLines + [Line(k + 1, text, Some(mac), ip, [name])]))
  {
    var text := HostLineText(Some(mac), ip, [name]);
    assert text == text + "";
    HostLineRoundTrip(k + 1, Some(mac), ip, [name]);
    TestHostStep(s, k, text, mac, ip, name, "");
  }

  /** A blank line is read as a `NoOp` entry. */
  lemma BlankStep(s: Scan, k: nat)
    requires s.status == IpLines
    ensures Step(s, k, "") == Ok(s.(ipLines := s.ipLines + [NoOp(k + 1, "")]))
  {
    TokensOfEmpty(Whitespace);
    RemoveCommentEmptyExamples();
    ProcessLineNoOp(k + 1, "");
  }

  /** Line `k`, a host line followed by a comment, moves the loop on with one more entry. */
  lemma CommentedHostScan(s: Scan, lines: seq<string>, k: nat, mac: string, ip: string, name: string, comment: string,
    e: ProcessedLine)
    requires s.status == IpLines && IsMac(mac) && IsIPv4(ip) && IsWord(name)
    requires k < |lines| && lines[k] == HostLineText(Some(mac), ip, [name]) + " ;" + comment
    requires e == Line(k + 1, lines[k], Some(mac), ip, [name])
    ensures ScanFrom(s, lines[k..], k) == ScanFrom(s.(ipLines := s.ipLines + [e]), lines[k + 1..], k + 1)
  {
    CommentedHostStep(s, k, mac, ip, name, comment);
    ScanAt(s, lines, k, lines[k], s.(ipLines := s.ipLines + [e]));
  }

  /** Line `k`, a host line, moves the loop on with one more entry. */
  lemma PlainHostScan(s: Scan, lines: seq<string>, k: nat, mac: string, ip: string, name: string, e: ProcessedLine)
    requires s.status == IpLines && IsMac(mac) && IsIPv4(ip) && IsWord(name)
    requires k < |lines| && lines[k] == HostLineText(Some(mac), ip, [name])
    requires e == Line(k + 1, lines[k], Some(mac), ip, [name])
    ensures ScanFrom(s, lines[k..], k) == ScanFrom(s.(ipLines := s.ipLines + [e]), lines[k + 1..], k + 1)
  {
    PlainHostStep(s, k, mac, ip, name);
    ScanAt(s, lines, k, lines[k], s.(ipLines := s.ipLines + [e]));
  }

  /** Line `k`, a blank line, moves the loop on with one more `NoOp` entry. */
  lemma BlankScan(s: Scan, lines: seq<string>, k: nat, e: ProcessedLine)
    requires s.status == IpLines && k < |lines| && lines[k] == ""
    requires e == NoOp(k + 1, lines[k])
    ensures ScanFrom(s, lines[k..], k) == ScanFrom(s.(ipLines := s.ipLines + [e]), lines[k + 1..], k + 1)
  {
    BlankStep(s, k);
    ScanAt(s, lines, k, lines[k], s.(ipLines := s.ipLines + [e]));
  }

  /** Four lines the loop moves through one at a time, from `s0` to `s4`. */
  lemma ScanFour(s0: Scan, s1: Scan, s2: Scan, s3: Scan, s4: Scan, lines: seq<string>, k: nat)
    requires k + 4 <= |lines|
    requires ScanFrom(s0, lines[k..], k) == ScanFrom(s1, lines[k + 1..], k + 1)
    requires ScanFrom(s1, lines[k + 1..], k + 1) == ScanFrom(s2, lines[k + 2..], k + 2)
    requires ScanFrom(s2, lines[k + 2..], k + 2) == ScanFrom(s3, lines[k + 3..], k + 3)
    requires ScanFrom(s3, lines[k + 3..], k + 3) == ScanFrom(s4, lines[k + 4..], k + 4)
    ensures ScanFrom(s0, lines[k..], k) == ScanFrom(s4, lines[k + 4..], k + 4)
  {
  }

  /** Four entries appended one by one are the four appended at once. */
  lemma AppendFour(xs: seq<ProcessedLine>, e: seq<ProcessedLine>)
    requires |e| == 4
    ensures xs + [e[0]] + [e[1]] + [e[2]] + [e[3]] == xs + e
  {
    assert e == [e[0], e[1], e[2], e[3]];
  }

  /** The three host lines and the blank line of a scenario are read as its entries. */
  lemma ScanTestHosts(s: Scan, lines: seq<string>, macs: seq<string>, ips: seq<string>, names: seq<string>,
    comment: string)
    requires s.status == IpLines && |lines| == 8 && |macs| == 3 && |ips| == 3 && |names| == 3
    requires forall a :: 0 <= a < 3 ==> IsMac(macs[a]) && IsIPv4(ips[a]) && IsWord(names[a])
    requires lines[0] == HostLineText(Some(macs[0]), ips[0], [names[0]]) + " ;" + comment
    requires lines[1] == HostLineText(Some(macs[1]), ips[1], [names[1]])
    requires lines[2] == HostLineText(Some(macs[2]), ips[2], [names[2]])
    requires lines[3] == ""
    ensures ScanFrom(s, lines, 0) == ScanFrom(s.(ipLines := s.ipLines + TestEntries(lines, macs, ips, names)), lines[4..], 4)
  {
    var e := TestEntries(lines, macs, ips, names);
    var s1 := s.(ipLines := s.ipLines + [e[0]]);
    var s2 := s1.(ipLines := s1.ipLines + [e[1]]);
    var s3 := s2.(ipLines := s2.ipLines + [e[2]]);
    var s4 := s3.(ipLines := s3.ipLines + [e[3]]);
    CommentedHostScan(s, lines, 0, macs[0], ips[0], names[0], comment, e[0]);
    PlainHostScan(s1, lines, 1, macs[1], ips[1], names[1], e[1]);
    PlainHostScan(s2, lines, 2, macs[2], ips[2], names[2], e[2]);
    BlankScan(s3, lines, 3, e[3]);
    ScanFour(s, s1, s2, s3, s4, lines, 0);
    assert lines[0..] == lines;
    AppendFour(s.ipLines, e);
    assert s4 == s.(ipLines := s.ipLines + e);
  }

  /** Line `k`, a setting line, moves the loop on with that setting assigned. */
  lemma SettingScan(s: Scan, lines: seq<string>, k: nat, setting: Setting, value: string, t: Scan)
    requires s.status == IpLines && IsWord(value)
    requires k < |lines| && lines[k] == Key(setting) + " " + value
    requires t == Set(s, setting, value)
    ensures ScanFrom(s, lines[k..], k) == ScanFrom(t, lines[k + 1..], k + 1)
  {
    SettingLineStep(s, k, setting, value);
    ScanAt(s, lines, k, lines[k], t);
  }

  /** Past the last line the loop stops with the state it has. */
  lemma ScanEnd(s: Scan, lines: seq<string>)
    ensures ScanFrom(s, lines[|lines|..], |lines|) == Ok(s)
  {
    assert lines[|lines|..] == [];
  }

  /** The four setting lines of a scenario assign the four settings. */
  lemma ScanTestSettings(s: Scan, lines: seq<string>, settings: seq<string>)
    requires s.status == IpLines && |lines| == 8 && |settings| == 4
    requires forall a :: 0 <= a < 4 ==> IsWord(settings[a])
    requires lines[4] == Key(Domain) + " " + settings[0]
    requires lines[5] == Key(DnsFileName) + " " + settings[1]
    requires lines[6] == Key(ReverseDnsFileName) + " " + settings[2]
    requires lines[7] == Key(DhcpFileName) + " " + settings[3]
    ensures ScanFrom(s, lines[4..], 4) ==
      Ok(s.(domain := Some(settings[0]), dnsFileName := Some(settings[1]),
            reverseDnsFileName := Some(settings[2]), dhcpFileName := Some(settings[3])))
  {
    var s5 := s.(domain := Some(settings[0]));
    var s6 := s5.(dnsFileName := Some(settings[1]));
    var s7 := s6.(reverseDnsFileName := Some(settings[2]));
    var s8 := s7.(dhcpFileName := Some(settings[3]));
    SettingScan(s, lines, 4, Domain, settings[0], s5);
    SettingScan(s5, lines, 5, DnsFileName, settings[1], s6);
    SettingScan(s6, lines, 6, ReverseDnsFileName, settings[2], s7);
    SettingScan(s7, lines, 7, DhcpFileName, settings[3], s8);
    ScanFour(s, s5, s6, s7, s8, lines, 4);
    ScanEnd(s8, lines);
  }

  /** The parse of lines the loop gets through in two stretches. */
  lemma ParseThrough(lines: seq<string>, s: Scan, n: nat, t: Scan)
    requires n <= |lines|
    requires ScanFrom(Start, lines, 0) == ScanFrom(s, lines[n..], n) && ScanFrom(s, lines[n..], n) == Ok(t)
    ensures ParseLines(lines) == Finish(t)
  {
  }

  /** A registry laid out like the tests' parses to its three host entries,
      the blank line and its four settings. */
  lemma ParseTestLines(lines: seq<string>, macs: seq<string>, ips: seq<string>, names: seq<string>, comment: string,
    settings: seq<string>)
    requires PlainWords(macs, ips, names, comment, settings) && LaidOut(lines, macs, ips, names, comment, settings)
    ensures ParseLines(lines) == Ok(TestInfo(lines, macs, ips, names, settings))
  {
    var s4 := Start.(ipLines := Start.ipLines + TestEntries(lines, macs, ips, names));
    var s8 := s4.(domain := Some(settings[0]), dnsFileName := Some(settings[1]),
      reverseDnsFileName := Some(settings[2]), dhcpFileName := Some(settings[3]));
    ScanTestHosts(Start, lines, macs, ips, names, comment);
    ScanTestSettings(s4, lines, settings);
    ParseThrough(lines, s4, 4, s8);
    assert s8.ipLines == TestEntries(lines, macs, ips, names);
    assert Finish(s8) == Ok(TestInfo(lines, macs, ips, names, settings));
  }

  // ---------------------------------------------------------------- reading the text back into lines

  /** What `str::lines` needs of a line to give it back: no line break in
      it and no carriage return at its end. */
  predicate LineBreakFree(text: string) {
    NoDelimiter(text, Char('\n')) && (text == [] || text[|text| - 1] != '\r')
  }

  /** Two pieces without line breaks make a line without them. */
  lemma ConcatLineBreakFree(a: string, b: string)
    requires LineBreakFree(a) && LineBreakFree(b)
    ensures LineBreakFree(a + b)
  {
    if b == [] {
      assert a + b == a;
    }
  }

  /** Words joined by single blanks make a line without line breaks. */
  lemma WordsLineBreakFree(words: seq<string>)
    requires |words| >= 1 && forall k :: 0 <= k < |words| ==> words[k] != [] && NoDelimiter(words[k], Whitespace)
    ensures LineBreakFree(Join(words, ' '))
  {
    forall k | 0 <= k < |words| ensures NoDelimiter(words[k], Char('\n')) {
      assert forall i :: 0 <= i < |words[k]| ==> !IsWhitespace(words[k][i]);
    }
    JoinKeepsOut(words, ' ', Char('\n'));
    JoinEnds(words, ' ');
    var last := words[|words| - 1];
    assert !IsWhitespace(last[|last| - 1]);
  }

  /** A host line of one MAC, one IP and one name holds no line break. */
  lemma HostLineBreakFree(mac: string, ip: string, name: string)
    requires IsMac(mac) && IsIPv4(ip) && IsWord(name)
    ensures LineBreakFree(HostLineText(Some(mac), ip, [name]))
  {
    HostWordsPlain(Some(mac), ip, [name]);
    WordsLineBreakFree(AddressTokens(Some(mac), ip) + [name]);
  }

  /** A setting line of the key and a plain value holds no line break. */
  lemma SettingLineBreakFree(setting: Setting, value: string)
    requires IsWord(value)
    ensures LineBreakFree(Key(setting) + " " + value)
  {
    KeyIsWord(setting);
    assert Key(setting) + " " + value == Join([Key(setting), value], ' ');
    WordsLineBreakFree([Key(setting), value]);
  }

  /** No line of a scenario holds a line break, so `str::lines` splits the
      text written from them back into them. */
  lemma LaidOutSplits(lines: seq<string>, macs: seq<string>, ips: seq<string>, names: seq<string>, comment: string,
    settings: seq<string>)
    requires PlainWords(macs, ips, names, comment, settings) && LaidOut(lines, macs, ips, names, comment, settings)
    ensures Lines(Unlines(lines)) == lines
  {
    var host := HostLineText(Some(macs[0]), ips[0], [names[0]]);
    HostLineBreakFree(macs[0], ips[0], names[0]);
    ConcatLineBreakFree(host, " ;");
    ConcatLineBreakFree(host + " ;", comment);
    HostLineBreakFree(macs[1], ips[1], names[1]);
    HostLineBreakFree(macs[2], ips[2], names[2]);
    SettingLineBreakFree(Domain, settings[0]);
    SettingLineBreakFree(DnsFileName, settings[1]);
    SettingLineBreakFree(ReverseDnsFileName, settings[2]);
    SettingLineBreakFree(DhcpFileName, settings[3]);
    assert forall k :: 0 <= k < 8 ==> LineBreakFree(lines[k]);
    LinesOfUnlines(lines);
  }

  // ---------------------------------------------------------------- the first duplicate

  /** The claims of a scenario's entries: one per host entry, in line order. */
  lemma TestClaims(kind: Kind, lines: seq<string>, macs: seq<string>, ips: seq<string>, names: seq<string>)
    requires |lines| == 8 && |macs| == 3 && |ips| == 3 && |names| == 3 && lines[3] == ""
    ensures var c := Claims(kind, TestEntries(lines, macs, ips, names));
      |c| == 3 && forall a :: 0 <= a < 3 ==> c[a] == match kind
        case Mac => Claim(ToLower(macs[a]), a + 1, macs[a])
        case Ip => Claim(ips[a], a + 1, ips[a])
        case Host => Claim(names[a], a + 1, names[a])
  {
    var entries := TestEntries(lines, macs, ips, names);
    ClaimsOfFour(kind, entries);
    forall a | 0 <= a < 3 ensures entries[a].number == a + 1 && entries[a].mac == Some(macs[a]) {
    }
  }

  /** The claims of three one-key host entries and a `NoOp`, in order. */
  lemma ClaimsOfFour(kind: Kind, entries: seq<ProcessedLine>)
    requires |entries| == 4 && entries[3].NoOp?
    requires forall a :: 0 <= a < 3 ==> entries[a].Line? && entries[a].mac.Some? && |entries[a].names| == 1
    ensures var c := Claims(kind, entries);
      |c| == 3 && forall a :: 0 <= a < 3 ==> c[a] == ClaimsOf(kind, entries[a])[0]
  {
    forall a | 0 <= a < 3 ensures |ClaimsOf(kind, entries[a])| == 1 {
    }
    assert entries[..0] == [];
    ClaimsNext(kind, entries, 0);
    ClaimsNext(kind, entries, 1);
    ClaimsNext(kind, entries, 2);
    ClaimsSkip(kind, entries, 3);
    assert entries[..4] == entries;
  }

  /** Three claims whose first two keys are equal repeat first at the second. */
  lemma RepeatAtSecond(kind: Kind, claims: seq<Claim>, r: Result<(), ValidationError>)
    requires |claims| == 3 && claims[0].key == claims[1].key
    requires Verdict(kind, claims, r)
    ensures r == Err(Duplicate(kind, claims[1].number, claims[0].number, claims[1].shown))
  {
    assert !Distinct(claims) by {
      assert claims[0].key == claims[1].key;
    }
    var i: nat, j: nat :| FirstRepeat(claims, i, j)
      && r.error == Duplicate(kind, claims[j].number, claims[i].number, claims[j].shown);
  }

  /** Three claims with pairwise different keys repeat none. */
  lemma KeysApart(claims: seq<Claim>)
    requires |claims| == 3
    requires claims[0].key != claims[1].key && claims[0].key != claims[2].key && claims[1].key != claims[2].key
    ensures Distinct(claims)
  {
  }

  /** MACs whose folded forms are pairwise apart. */
  predicate MacsApart(macs: seq<string>)
    requires |macs| == 3
  {
    ToLower(macs[0]) != ToLower(macs[1]) && ToLower(macs[0]) != ToLower(macs[2]) && ToLower(macs[1]) != ToLower(macs[2])
  }

  /** `principal` (src/lib.rs:12-14) on a scenario whose MACs are apart and
      whose first two host lines share an IP: the text parses, and the IP
      scan reports line 2 against line 1. */
  method FirstDuplicateIp(content: string, lines: seq<string>, macs: seq<string>, ips: seq<string>,
    names: seq<string>, comment: string, settings: seq<string>)
    returns (parsed: Result<ParsedInfo, ParsingError>, r: Result<(), ValidationError>)
    requires PlainWords(macs, ips, names, comment, settings) && LaidOut(lines, macs, ips, names, comment, settings)
    requires content == Unlines(lines)
    requires MacsApart(macs) && ips[0] == ips[1]
    ensures parsed == Ok(TestInfo(lines, macs, ips, names, settings))
    ensures r == Err(DuplicateIpAddress(2, 1, ips[1]))
  {
    LaidOutSplits(lines, macs, ips, names, comment, settings);
    ParseTestLines(lines, macs, ips, names, comment, settings);
    parsed := Parse(content);
    var entries := TestEntries(lines, macs, ips, names);
    assert parsed.value.ipLines == entries;
    r := Validate(parsed.value);
    TestClaims(Mac, lines, macs, ips, names);
    TestClaims(Ip, lines, macs, ips, names);
    KeysApart(Claims(Mac, entries));
    RepeatAtSecond(Ip, Claims(Ip, entries), r);
  }

  /** `principal` on a scenario whose first two host lines share a MAC: the
      text parses, and the MAC scan reports line 2 against line 1 before
      looking at IPs or names. */
  method FirstDuplicateMac(content: string, lines: seq<string>, macs: seq<string>, ips: seq<string>,
    names: seq<string>, comment: string, settings: seq<string>)
    returns (parsed: Result<ParsedInfo, ParsingError>, r: Result<(), ValidationError>)
    requires PlainWords(macs, ips, names, comment, settings) && LaidOut(lines, macs, ips, names, comment, settings)
    requires content == Unlines(lines)
    requires macs[0] == macs[1]
    ensures parsed == Ok(TestInfo(lines, macs, ips, names, settings))
    ensures r == Err(DuplicateMacAddress(2, 1, macs[1]))
  {
    LaidOutSplits(lines, macs, ips, names, comment, settings);
    ParseTestLines(lines, macs, ips, names, comment, settings);
    parsed := Parse(content);
    var entries := TestEntries(lines, macs, ips, names);
    assert parsed.value.ipLines == entries;
    r := Validate(parsed.value);
    TestClaims(Mac, lines, macs, ips, names);
    RepeatAtSecond(Mac, Claims(Mac, entries), r);
  }

  /** `principal` on a scenario whose MACs and IPs are apart and whose first
      two host lines share a name: the text parses, and the name scan
      reports line 2 against line 1. */
  method FirstDuplicateHostName(content: string, lines: seq<string>, macs: seq<string>, ips: seq<string>,
    names: seq<string>, comment: string, settings: seq<string>)
    returns (parsed: Result<ParsedInfo, ParsingError>, r: Result<(), ValidationError>)
    requires PlainWords(macs, ips, names, comment, settings) && LaidOut(lines, macs, ips, names, comment, settings)
    requires content == Unlines(lines)
    requires MacsApart(macs) && ips[0] != ips[1] && ips[0] != ips[2] && ips[1] != ips[2]
    requires names[0] == names[1]
    ensures parsed == Ok(TestInfo(lines, macs, ips, names, settings))
    ensures r == Err(DuplicateHostName(2, 1, names[1]))
  {
    LaidOutSplits(lines, macs, ips, names, comment, settings);
    ParseTestLines(lines, macs, ips, names, comment, settings);
    parsed := Parse(content);
    var entries := TestEntries(lines, macs, ips, names);
    assert parsed.value.ipLines == entries;
    r := Validate(parsed.value);
    TestClaims(Mac, lines, macs, ips, names);
    TestClaims(Ip, lines, macs, ips, names);
    TestClaims(Host, lines, macs, ips, names);
    KeysApart(Claims(Mac, entries));
    KeysApart(Claims(Ip, entries));
    RepeatAtSecond(Host, Claims(Host, entries), r);
  }

  // ---------------------------------------------------------------- the three tests

  /** The comment after the first host line of every test. */
  const TestComment := " Comment"

  /** The values of the settings every test declares. */
  const TestSettings := ["foo.net", "db.foo", "db.0.0.10", "reservations.conf"]

  /** A host line of one MAC, one IP and one name is the three, blank-separated. */
  lemma HostLineOfThree(mac: string, ip: string, name: string)
    ensures HostLineText(Some(mac), ip, [name]) == mac + " " + ip + " " + name
  {
    var words := AddressTokens(Some(mac), ip) + [name];
    assert words == [mac, ip, name] && words[1..] == [ip, name] && [ip, name][1..] == [name];
    assert Join([name], ' ') == name;
    assert Join([ip, name], ' ') == ip + " " + name;
    assert Join(words, ' ') == mac + " " + (ip + " " + name);
  }

  /** The MACs the tests write. */
  predicate TestMac(mac: string) {
    mac == "10:00:00:00:00:aa" || mac == "10:00:00:00:00:bb" || mac == "10:00:00:00:00:cc"
  }

  /** The IPs the tests write. */
  predicate TestIp(ip: string) {
    ip == "10.0.0.1" || ip == "10.0.0.2" || ip == "10.0.0.3"
  }

  /** The names the tests write. */
  predicate TestName(name: string) {
    name == "host1.net" || name == "host2.net" || name == "host3.net"
  }

  /** The addresses of the tests have the MAC shape. */
  lemma TestMacs(mac: string)
    requires TestMac(mac)
    ensures IsMac(mac)
  {
  }

  /** The IPs of the tests are IPv4 addresses. */
  lemma TestIps(ip: string)
    requires TestIp(ip)
    ensures IsIPv4(ip)
  {
    if ip == "10.0.0.1" {
      TenDotted("1");
      assert "10.0.0." + "1" == ip;
    } else if ip == "10.0.0.2" {
      TenDotted("2");
      assert "10.0.0." + "2" == ip;
    } else {
      TenDotted("3");
      assert "10.0.0." + "3" == ip;
    }
  }

  /** `10.0.0.` followed by one digit is an IPv4 address. */
  lemma TenDotted(last: string)
    requires |last| == 1 && IsDigit(last[0])
    ensures IsIPv4("10.0.0." + last)
  {
    DottedQuad(["10", "0", "0", last]);
    JoinOfFour("10", "0", "0", last, '.');
    assert "10" + "." + "0" + "." + "0" + "." + last == "10.0.0." + last;
  }

  /** Four pieces joined by a separator. */
  lemma JoinOfFour(a: string, b: string, c: string, d: string, sep: char)
    ensures Join([a, b, c, d], sep) == a + [sep] + b + [sep] + c + [sep] + d
  {
    assert [a, b, c, d][1..] == [b, c, d] && [b, c, d][1..] == [c, d] && [c, d][1..] == [d];
    assert Join([c, d], sep) == c + [sep] + d;
    assert Join([b, c, d], sep) == b + [sep] + (c + [sep] + d);
    assert a + [sep] + (b + [sep] + (c + [sep] + d)) == a + [sep] + b + [sep] + c + [sep] + d;
  }

  /** The names of the tests are plain words. */
  lemma TestNames(name: string)
    requires TestName(name)
    ensures IsWord(name)
  {
    PrintableWord(name);
  }

  /** The settings and the comment of the tests are plain. */
  lemma TestWordsPlain()
    ensures forall a :: 0 <= a < 4 ==> IsWord(TestSettings[a])
    ensures NoDelimiter(TestComment, Char('\n'))
  {
    PrintableWord(TestSettings[0]);
    PrintableWord(TestSettings[1]);
    PrintableWord(TestSettings[2]);
    PrintableWord(TestSettings[3]);
  }

  /** The setting lines of the tests are the keys followed by the values. */
  lemma TestSettingLines()
    ensures "domain foo.net" == Key(Domain) + " " + TestSettings[0]
    ensures "dns_file_name db.foo" == Key(DnsFileName) + " " + TestSettings[1]
    ensures "reverse_dns_file_name db.0.0.10" == Key(ReverseDnsFileName) + " " + TestSettings[2]
    ensures "dhcp_file_name reservations.conf" == Key(DhcpFileName) + " " + TestSettings[3]
  {
  }

  /** Words the tests write make plain scenario words. */
  lemma TestPlain(macs: seq<string>, ips: seq<string>, names: seq<string>)
    requires |macs| == 3 && |ips| == 3 && |names| == 3
    requires TestMac(macs[0]) && TestMac(macs[1]) && TestMac(macs[2])
    requires TestIp(ips[0]) && TestIp(ips[1]) && TestIp(ips[2])
    requires TestName(names[0]) && TestName(names[1]) && TestName(names[2])
    ensures PlainWords(macs, ips, names, TestComment, TestSettings)
  {
    TestMacs(macs[0]);
    TestMacs(macs[1]);
    TestMacs(macs[2]);
    TestIps(ips[0]);
    TestIps(ips[1]);
    TestIps(ips[2]);
    TestNames(names[0]);
    TestNames(names[1]);
    TestNames(names[2]);
    TestWordsPlain();
  }

  /** The three different MACs of the tests stay apart once lowercased. */
  lemma TestMacsApart(macs: seq<string>)
    requires macs == ["10:00:00:00:00:aa", "10:00:00:00:00:bb", "10:00:00:00:00:cc"]
    ensures MacsApart(macs)
  {
    TestMacs(macs[0]);
    TestMacs(macs[1]);
    TestMacs(macs[2]);
    MacIsPlain(macs[0]);
    MacIsPlain(macs[1]);
    MacIsPlain(macs[2]);
  }

  /** The first host line of every test, with its comment. */
  lemma TestFirstLine()
    ensures "10:00:00:00:00:aa 10.0.0.1 host1.net ; Comment"
      == HostLineText(Some("10:00:00:00:00:aa"), "10.0.0.1", ["host1.net"]) + " ;" + TestComment
  {
    HostLineOfThree("10:00:00:00:00:aa", "10.0.0.1", "host1.net");
  }

  /** The third host line of every test. */
  lemma TestThirdLine()
    ensures "10:00:00:00:00:cc 10.0.0.3 host3.net" == HostLineText(Some("10:00:00:00:00:cc"), "10.0.0.3", ["host3.net"])
  {
    HostLineOfThree("10:00:00:00:00:cc", "10.0.0.3", "host3.net");
  }

  /** Lines written as in the tests, the second from the second MAC, IP and
      name, are laid out as a scenario. */
  lemma TestLaidOut(lines: seq<string>, macs: seq<string>, ips: seq<string>, names: seq<string>)
    requires |macs| == 3 && |ips| == 3 && |names| == 3 && |lines| == 8
    requires macs[0] == "10:00:00:00:00:aa" && ips[0] == "10.0.0.1" && names[0] == "host1.net"
    requires macs[2] == "10:00:00:00:00:cc" && ips[2] == "10.0.0.3" && names[2] == "host3.net"
    requires lines[0] == "10:00:00:00:00:aa 10.0.0.1 host1.net ; Comment"
    requires lines[1] == macs[1] + " " + ips[1] + " " + names[1]
    requires lines[2] == "10:00:00:00:00:cc 10.0.0.3 host3.net"
    requires lines[3] == "" && lines[4] == "domain foo.net" && lines[5] == "dns_file_name db.foo"
    requires lines[6] == "reverse_dns_file_name db.0.0.10" && lines[7] == "dhcp_file_name reservations.conf"
    ensures LaidOut(lines, macs, ips, names, TestComment, TestSettings)
  {
    TestFirstLine();
    HostLineOfThree(macs[1], ips[1], names[1]);
    TestThirdLine();
    TestSettingLines();
  }

  /** How the lines of the DuplicateIp test are written. */
  lemma DuplicateIpTestLines(lines: seq<string>, macs: seq<string>, ips: seq<string>, names: seq<string>)
    requires macs == ["10:00:00:00:00:aa", "10:00:00:00:00:bb", "10:00:00:00:00:cc"]
    requires ips == ["10.0.0.1", "10.0.0.1", "10.0.0.3"]
    requires names == ["host1.net", "host2.net", "host3.net"]
    requires lines == [
      "10:00:00:00:00:aa 10.0.0.1 host1.net ; Comment",
      "10:00:00:00:00:bb 10.0.0.1 host2.net",
      "10:00:00:00:00:cc 10.0.0.3 host3.net",
      "",
      "domain foo.net",
      "dns_file_name db.foo",
      "reverse_dns_file_name db.0.0.10",
      "dhcp_file_name reservations.conf"]
    ensures LaidOut(lines, macs, ips, names, TestComment, TestSettings)
  {
    TestLaidOut(lines, macs, ips, names);
  }

  /** tests/validation_tests.rs:13-25: line 2 repeats the IP of line 1. */
  method DuplicateIpScenario(content: string) returns (parsed: Result<ParsedInfo, ParsingError>, r: Result<(), ValidationError>)
    requires content == Unlines([
      "10:00:00:00:00:aa 10.0.0.1 host1.net ; Comment",
      "10:00:00:00:00:bb 10.0.0.1 host2.net",
      "10:00:00:00:00:cc 10.0.0.3 host3.net",
      "",
      "domain foo.net",
      "dns_file_name db.foo",
      "reverse_dns_file_name db.0.0.10",
      "dhcp_file_name reservations.conf"])
    ensures parsed.Ok? && r == Err(DuplicateIpAddress(2, 1, "10.0.0.1"))
  {
    var macs := ["10:00:00:00:00:aa", "10:00:00:00:00:bb", "10:00:00:00:00:cc"];
    var ips := ["10.0.0.1", "10.0.0.1", "10.0.0.3"];
    var names := ["host1.net", "host2.net", "host3.net"];
    var lines := [
      "10:00:00:00:00:aa 10.0.0.1 host1.net ; Comment",
      "10:00:00:00:00:bb 10.0.0.1 host2.net",
      "10:00:00:00:00:cc 10.0.0.3 host3.net",
      "",
      "domain foo.net",
      "dns_file_name db.foo",
      "reverse_dns_file_name db.0.0.10",
      "dhcp_file_name reservations.conf"];
    TestPlain(macs, ips, names);
    TestMacsApart(macs);
    DuplicateIpTestLines(lines, macs, ips, names);
    parsed, r := FirstDuplicateIp(content, lines, macs, ips, names, TestComment, TestSettings);
  }

  /** How the lines of the DuplicateMac test are written. */
  lemma DuplicateMacTestLines(lines: seq<string>, macs: seq<string>, ips: seq<string>, names: seq<string>)
    requires macs == ["10:00:00:00:00:aa", "10:00:00:00:00:aa", "10:00:00:00:00:cc"]
    requires ips == ["10.0.0.1", "10.0.0.2", "10.0.0.3"]
    requires names == ["host1.net", "host2.net", "host3.net"]
    requires lines == [
      "10:00:00:00:00:aa 10.0.0.1 host1.net ; Comment",
      "10:00:00:00:00:aa 10.0.0.2 host2.net",
      "10:00:00:00:00:cc 10.0.0.3 host3.net",
      "",
      "domain foo.net",
      "dns_file_name db.foo",
      "reverse_dns_file_name db.0.0.10",
      "dhcp_file_name reservations.conf"]
    ensures LaidOut(lines, macs, ips, names, TestComment, TestSettings)
  {
    TestLaidOut(lines, macs, ips, names);
  }

  /** tests/validation_tests.rs:27-40: line 2 repeats the MAC of line 1. */
  method DuplicateMacScenario(content: string) returns (parsed: Result<ParsedInfo, ParsingError>, r: Result<(), ValidationError>)
    requires content == Unlines([
      "10:00:00:00:00:aa 10.0.0.1 host1.net ; Comment",
      "10:00:00:00:00:aa 10.0.0.2 host2.net",
      "10:00:00:00:00:cc 10.0.0.3 host3.net",
      "",
      "domain foo.net",
      "dns_file_name db.foo",
      "reverse_dns_file_name db.0.0.10",
      "dhcp_file_name reservations.conf"])
    ensures parsed.Ok? && r == Err(DuplicateMacAddress(2, 1, "10:00:00:00:00:aa"))
  {
    var macs := ["10:00:00:00:00:aa", "10:00:00:00:00:aa", "10:00:00:00:00:cc"];
    var ips := ["10.0.0.1", "10.0.0.2", "10.0.0.3"];
    var names := ["host1.net", "host2.net", "host3.net"];
    var lines := [
      "10:00:00:00:00:aa 10.0.0.1 host1.net ; Comment",
      "10:00:00:00:00:aa 10.0.0.2 host2.net",
      "10:00:00:00:00:cc 10.0.0.3 host3.net",
      "",
      "domain foo.net",
      "dns_file_name db.foo",
      "reverse_dns_file_name db.0.0.10",
      "dhcp_file_name reservations.conf"];
    TestPlain(macs, ips, names);
    DuplicateMacTestLines(lines, macs, ips, names);
    parsed, r := FirstDuplicateMac(content, lines, macs, ips, names, TestComment, TestSettings);
  }

  /** How the lines of the DuplicateHostName test are written. */
  lemma DuplicateHostNameTestLines(lines: seq<string>, macs: seq<string>, ips: seq<string>, names: seq<string>)
    requires macs == ["10:00:00:00:00:aa", "10:00:00:00:00:bb", "10:00:00:00:00:cc"]
    requires ips == ["10.0.0.1", "10.0.0.2", "10.0.0.3"]
    requires names == ["host1.net", "host1.net", "host3.net"]
    requires lines == [
      "10:00:00:00:00:aa 10.0.0.1 host1.net ; Comment",
      "10:00:00:00:00:bb 10.0.0.2 host1.net",
      "10:00:00:00:00:cc 10.0.0.3 host3.net",
      "",
      "domain foo.net",
      "dns_file_name db.foo",
      "reverse_dns_file_name db.0.0.10",
      "dhcp_file_name reservations.conf"]
    ensures LaidOut(lines, macs, ips, names, TestComment, TestSettings)
  {
    TestLaidOut(lines, macs, ips, names);
  }

  /** tests/validation_tests.rs:42-55: line 2 repeats the name of line 1. */
  method DuplicateHostNameScenario(content: string) returns (parsed: Result<ParsedInfo, ParsingError>, r: Result<(), ValidationError>)
    requires content == Unlines([
      "10:00:00:00:00:aa 10.0.0.1 host1.net ; Comment",
      "10:00:00:00:00:bb 10.0.0.2 host1.net",
      "10:00:00:00:00:cc 10.0.0.3 host3.net",
      "",
      "domain foo.net",
      "dns_file_name db.foo",
      "reverse_dns_file_name db.0.0.10",
      "dhcp_file_name reservations.conf"])
    ensures parsed.Ok? && r == Err(DuplicateHostName(2, 1, "host1.net"))
  {
    var macs := ["10:00:00:00:00:aa", "10:00:00:00:00:bb", "10:00:00:00:00:cc"];
    var ips := ["10.0.0.1", "10.0.0.2", "10.0.0.3"];
    var names := ["host1.net", "host1.net", "host3.net"];
    var lines := [
      "10:00:00:00:00:aa 10.0.0.1 host1.net ; Comment",
      "10:00:00:00:00:bb 10.0.0.2 host1.net",
      "10:00:00:00:00:cc 10.0.0.3 host3.net",
      "",
      "domain foo.net",
      "dns_file_name db.foo",
      "reverse_dns_file_name db.0.0.10",
      "dhcp_file_name reservations.conf"];
    TestPlain(macs, ips, names);
    TestMacsApart(macs);
    DuplicateHostNameTestLines(lines, macs, ips, names);
    parsed, r := FirstDuplicateHostName(content, lines, macs, ips, names, TestComment, TestSettings);
  }
}
