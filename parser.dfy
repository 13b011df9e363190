/**
 * The section parser of src/parser.rs: one pass over the lines of the
 * configuration, driven by a four-state machine, producing the host entries,
 * the four settings and the three verbatim template blocks.
 */
module Parser {
  import opened Wrappers
  import opened Text
  import opened Address

  /** One scanned host line (src/parser.rs:6-9). `number` is 1-based. */
  datatype ProcessedLine =
    | NoOp(number: nat, text: string)
    | Line(number: nat, text: string, mac: Option<string>, ip: string, names: seq<string>)

  /** The registry handed to the validator and the renderers (src/parser.rs:11-20). */
  datatype ParsedInfo = ParsedInfo(
    ipLines: seq<ProcessedLine>,
    domain: string,
    dnsPrefix: seq<string>,
    dnsSuffix: seq<string>,
    dhcpPrefix: seq<string>,
    dnsFileName: string,
    reverseDnsFileName: string,
    dhcpFileName: string)

  /** src/parser.rs:22-46; line numbers are 1-based. */
  datatype ParsingError =
    | NoMacOrIp(line: nat, text: string)
    | NoIpAddress(line: nat, text: string)
    | NoServerNames(line: nat, text: string)
    | DnsPrefixNotTerminated
    | DnsSuffixNotTerminated
    | DhcpPrefixNotTerminated
    | NoParentDomain
    | NoDnsFileName
    | NoReverseDnsFileName
    | NoDhcpFileName
    | BadValueSpecifier(line: nat, text: string, valueName: string)

  /** The parsing stage (src/parser.rs:54-59): host lines, or inside one of the
      three verbatim sections. */
  datatype ParsingStatus = IpLines | DnsPrefix | DnsSuffix | DhcpPrefix

  /** The line that opens a section. */
  function StartMarker(section: ParsingStatus): string
    requires section != IpLines
  {
    match section
    case DnsPrefix => "DNS_PREFIX_START"
    case DnsSuffix => "DNS_SUFFIX_START"
    case DhcpPrefix => "DHCP_PREFIX_START"
  }

  /** The line that closes a section. */
  function EndMarker(section: ParsingStatus): string
    requires section != IpLines
  {
    match section
    case DnsPrefix => "DNS_PREFIX_END"
    case DnsSuffix => "DNS_SUFFIX_END"
    case DhcpPrefix => "DHCP_PREFIX_END"
  }

  /** The error for a section still open at the end of the input. */
  function NotTerminated(section: ParsingStatus): ParsingError
    requires section != IpLines
  {
    match section
    case DnsPrefix => DnsPrefixNotTerminated
    case DnsSuffix => DnsSuffixNotTerminated
    case DhcpPrefix => DhcpPrefixNotTerminated
  }

  /** The four scalar settings and the key that assigns each. */
  datatype Setting = Domain | DnsFileName | ReverseDnsFileName | DhcpFileName

  function Key(setting: Setting): string {
    match setting
    case Domain => "domain"
    case DnsFileName => "dns_file_name"
    case ReverseDnsFileName => "reverse_dns_file_name"
    case DhcpFileName => "dhcp_file_name"
  }

  /** The name `get_value` puts into `BadValueSpecifier` (src/parser.rs:91-94). */
  function ValueName(setting: Setting): string {
    match setting
    case Domain => "parent domain"
    case DnsFileName => "DNS file name"
    case ReverseDnsFileName => "reverse DNS file name"
    case DhcpFileName => "DHCP file name"
  }

  /** The setting a first token assigns, if any. */
  function SettingOf(token: string): (r: Option<Setting>)
    ensures r.Some? ==> Key(r.value) == token
    ensures (exists s: Setting :: Key(s) == token) ==> r.Some?
  {
    if token == "domain" then Some(Domain)
    else if token == "dns_file_name" then Some(DnsFileName)
    else if token == "reverse_dns_file_name" then Some(ReverseDnsFileName)
    else if token == "dhcp_file_name" then Some(DhcpFileName)
    else None
  }

  /** The section a first token opens, if any. */
  function SectionOf(token: string): (r: ParsingStatus)
    ensures r != IpLines ==> StartMarker(r) == token
    ensures (exists s: ParsingStatus :: s != IpLines && StartMarker(s) == token) ==> r != IpLines
  {
    if token == "DNS_PREFIX_START" then DnsPrefix
    else if token == "DNS_SUFFIX_START" then DnsSuffix
    else if token == "DHCP_PREFIX_START" then DhcpPrefix
    else IpLines
  }

  /** A first token the host-line state interprets itself rather than as a host line. */
  predicate IsKeyword(token: string) {
    SectionOf(token) != IpLines || SettingOf(token).Some?
  }

  // ---------------------------------------------------------------- tokenisers

  /** `remove_comment` (src/parser.rs:132): the text before the first `;`, trimmed. */
  function RemoveComment(line: string): (r: string)
    ensures r == Trim(line[..Find(line, Char(';'))])
    ensures NoDelimiter(r, Char(';'))
    ensures r == [] <==> AllWhitespace(line[..Find(line, Char(';'))])
  {
    var before := Split(line, Char(';'))[0];
    SplitFirst(line, Char(';'));
    TrimEmpty(before);
    TrimKeepsOut(before, Char(';'));
    Trim(before)
  }

  /** The example of src/parser.rs:212-217 with a comment after the text. */
  lemma RemoveCommentExamples()
    ensures RemoveComment("text ; comment") == "text"
  {
    assert Find("text ; comment", Char(';')) == 5;
    assert "text ; comment"[..5] == "text ";
    assert TrimStartIndex("text ") == 0 && TrimEndIndex("text ") == 4;
  }

  /** The example of src/parser.rs:212-217 without a comment. */
  lemma RemoveCommentPlainExample()
    ensures RemoveComment("text") == "text"
  {
    assert Find("text", Char(';')) == 4;
    assert "text"[..4] == "text";
    assert TrimStartIndex("text") == 0 && TrimEndIndex("text") == 4;
  }

  /** The examples of src/parser.rs:212-217 that keep nothing. */
  lemma RemoveCommentEmptyExamples()
    ensures RemoveComment("") == ""
    ensures RemoveComment("; comment") == ""
  {
  }

  /** `get_token` (src/parser.rs:151): the first whitespace-separated token of
      the RAW line, comment included, or `""`. */
  function GetToken(text: string): (r: string)
    ensures r == [] <==> Tokens(text, Whitespace) == []
    ensures r != [] ==> r == Tokens(text, Whitespace)[0]
  {
    var tokens := Tokens(text, Whitespace);
    TokensSpec(text, Whitespace);
    if tokens == [] then "" else tokens[0]
  }

  /** `get_value` (src/parser.rs:134-149): the comment-stripped line must hold
      exactly the key and one value; `number` is the 0-based line index. */
  function GetValue(text: string, number: nat, valueName: string): (r: Result<string, ParsingError>)
    ensures var tokens := Tokens(RemoveComment(text), Whitespace);
      && (r.Ok? <==> |tokens| == 2)
      && (r.Ok? ==> r.value == tokens[1] && r.value != [] && NoDelimiter(r.value, Whitespace))
      && (r.Err? ==> r.error == BadValueSpecifier(number + 1, text, valueName))
  {
    var tokens := Tokens(Trim(RemoveComment(text)), Whitespace);
    TrimIdempotent(text[..Find(text, Char(';'))]);
    TokensSpec(RemoveComment(text), Whitespace);
    // skip past the key
    var rest := if tokens == [] then [] else tokens[1..];
    if rest == [] then Err(BadValueSpecifier(number + 1, text, valueName))
    else if |rest| > 1 then Err(BadValueSpecifier(number + 1, text, valueName))
    else Ok(rest[0])
  }

  /** `process_line` (src/parser.rs:153-195): an optional lowercase MAC, a
      mandatory IPv4 address, then at least one name, split on single spaces. */
  function ProcessLine(number: nat, text: string): (r: Result<ProcessedLine, ParsingError>)
    ensures r.Ok? ==> r.value.number == number && r.value.text == text
    ensures r.Err? ==> r.error.NoMacOrIp? || r.error.NoIpAddress? || r.error.NoServerNames?
    ensures r.Err? ==> r.error.line == number && r.error.text == text
  {
    var active := Trim(RemoveComment(text));
    if active == [] then Ok(NoOp(number, text))
    else Classify(number, text, Tokens(active, Char(' ')))
  }

  /** The part of `process_line` that reads the space-separated terms of a
      non-blank line (src/parser.rs:163-194). */
  function Classify(number: nat, text: string, terms: seq<string>): (r: Result<ProcessedLine, ParsingError>)
    ensures r.Ok? ==> r.value.number == number && r.value.text == text
    ensures r.Err? ==> r.error.NoMacOrIp? || r.error.NoIpAddress? || r.error.NoServerNames?
    ensures r.Err? ==> r.error.line == number && r.error.text == text
  {
    if terms == [] then Ok(NoOp(number, text))
    else
      var mac := if IsMac(terms[0]) then Some(terms[0]) else None;
      var rest := if mac.Some? then terms[1..] else terms;
      if rest == [] || !IsIPv4(rest[0]) then
        if mac.None? then Err(NoMacOrIp(number, text)) else Err(NoIpAddress(number, text))
      else if |rest| == 1 then Err(NoServerNames(number, text))
      else Ok(Line(number, text, mac, rest[0], rest[1..]))
  }

  /** The address part of a host line as tokens: the MAC, if any, then the IP. */
  function AddressTokens(mac: Option<string>, ip: string): seq<string> {
    if mac.Some? then [mac.value, ip] else [ip]
  }

  /** The space-separated tokens `process_line` classifies. */
  function HostTokens(text: string): seq<string> {
    Tokens(RemoveComment(text), Char(' '))
  }

  /** `process_line` classifies the terms of the comment-stripped line. */
  lemma ProcessLineTerms(number: nat, text: string)
    ensures ProcessLine(number, text) ==
      if RemoveComment(text) == [] then Ok(NoOp(number, text)) else Classify(number, text, HostTokens(text))
  {
    TrimIdempotent(text[..Find(text, Char(';'))]);
  }

  /** A word holding a character that is neither a digit nor a dot is no IPv4 address. */
  lemma NotIPv4(s: string, i: nat)
    requires i < |s| && !IsDigit(s[i]) && s[i] != '.'
    ensures !IsIPv4(s)
  {
    if IsIPv4(s) {
      IPv4IsPlain(s);
    }
  }

  /** A single word: non-empty, without blanks and without `;`. */
  predicate IsWord(w: string) {
    w != [] && NoDelimiter(w, Whitespace) && NoDelimiter(w, Char(';'))
  }

  /** Printable ASCII text without `;` is a plain word. */
  lemma PrintableWord(w: string)
    requires w != [] && forall i :: 0 <= i < |w| ==> '!' <= w[i] <= '~' && w[i] != ';'
    ensures IsWord(w)
  {
  }

  /** A line written as a blank, `body`, a blank and a comment has `body`
      as its active part. */
  lemma RemoveCommentAround(body: string, comment: string)
    requires body != [] && NoDelimiter(body, Char(';'))
    requires !IsWhitespace(body[0]) && !IsWhitespace(body[|body| - 1])
    ensures RemoveComment(" " + body + " ;" + comment) == body
  {
    var text := " " + body + " ;" + comment;
    var before := " " + body + " ";
    assert text[..|before|] == before;
    assert NoDelimiter(before, Char(';')) by {
      assert forall i :: 0 <= i < |before| ==> before[i] == ' ' || before[i] == body[i - 1];
    }
    assert text[|before|] == ';';
    FindFirst(text, before, Char(';'));
    TrimAround(body);
  }

  /** A line whose first term is neither a MAC nor an IPv4 address fails
      with `NoMacOrIp`, whatever follows. */
  lemma NoMacOrIpLine(number: nat, text: string)
    requires HostTokens(text) != []
    requires !IsMac(HostTokens(text)[0]) && !IsIPv4(HostTokens(text)[0])
    ensures ProcessLine(number, text) == Err(NoMacOrIp(number, text))
  {
    TokensOfEmpty(Char(' '));
    ProcessLineClassification(number, text);
  }

  /** A line whose first term is a MAC and whose second term is missing or
      not an IPv4 address fails with `NoIpAddress`, not `NoMacOrIp`, since
      the MAC was recognised. */
  lemma NoIpAddressLine(number: nat, text: string)
    requires HostTokens(text) != [] && IsMac(HostTokens(text)[0])
    requires |HostTokens(text)| == 1 || !IsIPv4(HostTokens(text)[1])
    ensures ProcessLine(number, text) == Err(NoIpAddress(number, text))
  {
    TokensOfEmpty(Char(' '));
    ProcessLineClassification(number, text);
  }

  /** The terms of a line laid out as a blank, one word, a blank and a comment. */
  lemma OneWordTerms(text: string, word: string, comment: string)
    requires IsWord(word) && text == " " + word + " ;" + comment
    ensures HostTokens(text) == [word]
  {
    RemoveCommentAround(word, comment);
    TokensOfWord(word, Char(' '));
    WordSpaceFree(word);
  }

  /** The terms of a line laid out as a blank, a MAC, a blank, one word,
      a blank and a comment. */
  lemma MacWordTerms(text: string, mac: string, word: string, comment: string)
    requires IsMac(mac) && IsWord(word)
    requires text == " " + (mac + " " + word) + " ;" + comment
    ensures HostTokens(text) == [mac, word]
  {
    var body := mac + " " + word;
    MacIsPlain(mac);
    WordSpaceFree(word);
    assert NoDelimiter(body, Char(';')) by {
      assert forall i :: 0 <= i < |body| ==>
        (body[i] == ' ' || (i < |mac| && body[i] == mac[i]) || (i > |mac| && body[i] == word[i - |mac| - 1]));
    }
    RemoveCommentAround(body, comment);
    TokensOfTwo(0, mac, word, Char(' '));
    assert Spaces(0) + body == body;
  }

  /** A word has no space in it. */
  lemma WordSpaceFree(w: string)
    requires IsWord(w)
    ensures NoDelimiter(w, Char(' '))
  {
    assert forall i :: 0 <= i < |w| ==> !IsWhitespace(w[i]);
  }

  /** The all-zero address has the MAC shape. */
  lemma ZeroMac()
    ensures IsMac("00:00:00:00:00:00")
  {
  }

  /** How the first example below is written. */
  lemma NoMacOrIpText(text: string)
    requires text == " server.com ; comment"
    ensures text == " " + "server.com" + " ;" + " comment"
  {
  }

  /** How the second example below is written. */
  lemma NoIpAddressText(text: string)
    requires text == " 00:00:00:00:00:00 server.com ; comment"
    ensures text == " " + ("00:00:00:00:00:00" + " " + "server.com") + " ;" + " comment"
  {
  }

  /** The name of both examples is a plain word and no address. */
  lemma ServerName()
    ensures IsWord("server.com") && !IsMac("server.com") && !IsIPv4("server.com")
  {
    PrintableWord("server.com");
    NotIPv4("server.com", 0);
  }

  /** The first example of src/parser.rs:224: a name where the address
      should be, and no MAC before it. */
  lemma NoMacOrIpExample(text: string)
    requires text == " server.com ; comment"
    ensures ProcessLine(2, text) == Err(NoMacOrIp(2, text))
  {
    ServerName();
    NoMacOrIpText(text);
    OneWordTerms(text, "server.com", " comment");
    NoMacOrIpLine(2, text);
  }

  /** The second example of src/parser.rs:225: a MAC, then a name where the
      address should be. */
  lemma NoIpAddressExample(text: string)
    requires text == " 00:00:00:00:00:00 server.com ; comment"
    ensures ProcessLine(2, text) == Err(NoIpAddress(2, text))
  {
    ServerName();
    ZeroMac();
    NoIpAddressText(text);
    MacWordTerms(text, "00:00:00:00:00:00", "server.com", " comment");
    NoIpAddressLine(2, text);
  }

  /** One blank on each side of a string without outer blanks trims away. */
  lemma TrimAround(s: string)
    requires s != [] && !IsWhitespace(s[0]) && !IsWhitespace(s[|s| - 1])
    ensures Trim(" " + s + " ") == s
  {
    var t := " " + s + " ";
    assert SkipForward(t, 1) == 1;
    assert TrimStartIndex(t) == 1;
    assert SkipBackward(t, |t| - 1, 1) == |t| - 1;
    assert TrimEndIndex(t) == |t| - 1;
    assert t[1..|t| - 1] == s;
  }

  /** A trimmed non-empty string has a first space-separated token. */
  lemma TokensOfTrimmed(s: string)
    requires s != [] && !IsWhitespace(s[0])
    ensures Tokens(s, Char(' ')) != []
  {
    var i := Find(s, Char(' '));
    assert i > 0;
    assert Split(s, Char(' '))[0] != [];
  }

  /** `process_line` gives `NoOp` exactly for blank or comment-only lines, and
      then never fails. */
  lemma ProcessLineNoOp(number: nat, text: string)
    ensures ProcessLine(number, text) == Ok(NoOp(number, text)) <==> RemoveComment(text) == []
    ensures RemoveComment(text) == [] ==> ProcessLine(number, text) == Ok(NoOp(number, text))
  {
    ProcessLineTerms(number, text);
    if RemoveComment(text) != [] {
      HostTokensNonEmpty(text);
      ClassifyNonEmpty(number, text, HostTokens(text));
    }
  }

  /** The classification of a non-blank host line by its tokens. */
  lemma ProcessLineClassification(number: nat, text: string)
    requires RemoveComment(text) != []
    ensures var t := HostTokens(text); var r := ProcessLine(number, text);
      && t != []
      && (r == Err(NoMacOrIp(number, text)) <==> !IsMac(t[0]) && !IsIPv4(t[0]))
      && (r == Err(NoIpAddress(number, text)) <==> IsMac(t[0]) && (|t| == 1 || !IsIPv4(t[1])))
      && (r == Err(NoServerNames(number, text)) <==>
           (!IsMac(t[0]) && IsIPv4(t[0]) && |t| == 1) || (IsMac(t[0]) && |t| == 2 && IsIPv4(t[1])))
      && (r.Ok? ==> r.value.Line?)
  {
    ProcessLineTerms(number, text);
    HostTokensNonEmpty(text);
    ClassifyCases(number, text, HostTokens(text));
    ClassifyNonEmpty(number, text, HostTokens(text));
  }

  /** A non-blank line has a first term. */
  lemma HostTokensNonEmpty(text: string)
    requires RemoveComment(text) != []
    ensures HostTokens(text) != []
  {
    TrimStarts(text[..Find(text, Char(';'))]);
    TokensOfTrimmed(RemoveComment(text));
  }

  /** How `Classify` decides on a non-empty list of terms. */
  lemma ClassifyCases(number: nat, text: string, t: seq<string>)
    requires t != []
    ensures var r := Classify(number, text, t);
      && (r == Err(NoMacOrIp(number, text)) <==> !IsMac(t[0]) && !IsIPv4(t[0]))
      && (r == Err(NoIpAddress(number, text)) <==> IsMac(t[0]) && (|t| == 1 || !IsIPv4(t[1])))
      && (r == Err(NoServerNames(number, text)) <==>
           (!IsMac(t[0]) && IsIPv4(t[0]) && |t| == 1) || (IsMac(t[0]) && |t| == 2 && IsIPv4(t[1])))
  {
  }

  /** On a non-empty list of terms `Classify` yields a host line or an error. */
  lemma ClassifyNonEmpty(number: nat, text: string, t: seq<string>)
    requires t != []
    ensures Classify(number, text, t).Ok? ==> Classify(number, text, t).value.Line?
  {
  }

  /** A successful classification reads the terms back: the MAC if the first
      term has the MAC shape, then the IP, then the names in order. */
  lemma ClassifyLine(number: nat, text: string, t: seq<string>)
    requires Classify(number, text, t).Ok? && Classify(number, text, t).value.Line?
    ensures var l := Classify(number, text, t).value;
      && t == AddressTokens(l.mac, l.ip) + l.names
      && (l.mac.Some? <==> IsMac(t[0]))
      && IsIPv4(l.ip)
      && l.names != []
  {
    var l := Classify(number, text, t).value;
    if l.mac.Some? {
      assert t == [t[0], t[1]] + t[2..];
    } else {
      assert t == [t[0]] + t[1..];
    }
  }

  /** A successful host line is its tokens, read back, and every name is a
      non-empty run of non-space characters. */
  lemma ProcessLineLine(number: nat, text: string)
    requires ProcessLine(number, text).Ok? && ProcessLine(number, text).value.Line?
    ensures var l := ProcessLine(number, text).value;
      && HostTokens(text) == AddressTokens(l.mac, l.ip) + l.names
      && (l.mac.Some? <==> IsMac(HostTokens(text)[0]))
      && IsIPv4(l.ip)
      && l.names != []
      && forall k :: 0 <= k < |l.names| ==> l.names[k] != [] && NoDelimiter(l.names[k], Char(' '))
  {
    ProcessLineTerms(number, text);
    var t := HostTokens(text);
    TokensSpec(RemoveComment(text), Char(' '));
    ClassifyLine(number, text, t);
    var l := Classify(number, text, t).value;
    SuffixTokens(AddressTokens(l.mac, l.ip), l.names);
  }

  /** The tail of a list of space-free tokens is space-free. */
  lemma SuffixTokens(head: seq<string>, tail: seq<string>)
    requires forall k :: 0 <= k < |head + tail| ==> (head + tail)[k] != [] && NoDelimiter((head + tail)[k], Char(' '))
    ensures forall k :: 0 <= k < |tail| ==> tail[k] != [] && NoDelimiter(tail[k], Char(' '))
  {
    forall k | 0 <= k < |tail|
      ensures tail[k] != [] && NoDelimiter(tail[k], Char(' '))
    {
      assert tail[k] == (head + tail)[k + |head|];
    }
  }

  /** Join of delimiter-free pieces by a non-delimiter is delimiter-free. */
  lemma {:induction false} JoinKeepsOut(pieces: seq<string>, sep: char, d: Delimiter)
    requires |pieces| >= 1 && !IsDelimiter(sep, d)
    requires forall k :: 0 <= k < |pieces| ==> NoDelimiter(pieces[k], d)
    ensures NoDelimiter(Join(pieces, sep), d)
  {
    if |pieces| > 1 {
      JoinKeepsOut(pieces[1..], sep, d);
      var j := Join(pieces, sep);
      var p := pieces[0];
      var rest := Join(pieces[1..], sep);
      assert j == p + [sep] + rest;
      forall i | 0 <= i < |j| ensures !IsDelimiter(j[i], d) {
        if i < |p| { assert j[i] == p[i]; }
        else if i > |p| { assert j[i] == rest[i - |p| - 1]; }
      }
    }
  }

  /** The first and last characters of a join of non-empty pieces. */
  lemma {:induction false} JoinEnds(pieces: seq<string>, sep: char)
    requires |pieces| >= 1 && forall k :: 0 <= k < |pieces| ==> pieces[k] != []
    ensures var j := Join(pieces, sep); var last := pieces[|pieces| - 1];
      j != [] && j[0] == pieces[0][0] && j[|j| - 1] == last[|last| - 1]
  {
    if |pieces| > 1 {
      JoinEnds(pieces[1..], sep);
    }
  }

  /** A host line written as its tokens joined by single spaces. */
  function HostLineText(mac: Option<string>, ip: string, names: seq<string>): string {
    Join(AddressTokens(mac, ip) + names, ' ')
  }

  /** A host line written from plain words has no comment and no outer blanks. */
  lemma HostLineActive(words: seq<string>)
    requires |words| >= 1
    requires forall k :: 0 <= k < |words| ==> words[k] != [] && NoDelimiter(words[k], Whitespace) && NoDelimiter(words[k], Char(';'))
    ensures var text := Join(words, ' '); RemoveComment(text) == text && text != []
  {
    var text := Join(words, ' ');
    JoinKeepsOut(words, ' ', Char(';'));
    JoinEnds(words, ' ');
    var last := words[|words| - 1];
    assert !IsDelimiter(words[0][0], Whitespace);
    assert !IsDelimiter(last[|last| - 1], Whitespace);
    CommentFree(text);
  }

  /** A line without `;` and without outer blanks is its own active part. */
  lemma CommentFree(text: string)
    requires text != [] && NoDelimiter(text, Char(';'))
    requires !IsWhitespace(text[0]) && !IsWhitespace(text[|text| - 1])
    ensures RemoveComment(text) == text
  {
    assert text[..|text|] == text;
    FindFirst(text, text, Char(';'));
    TrimUnchanged(text);
  }

  /** The words of a host entry are plain. */
  lemma HostWordsPlain(mac: Option<string>, ip: string, names: seq<string>)
    requires mac.Some? ==> IsMac(mac.value)
    requires IsIPv4(ip)
    requires forall k :: 0 <= k < |names| ==> IsWord(names[k])
    ensures var words := AddressTokens(mac, ip) + names;
      forall k :: 0 <= k < |words| ==>
        words[k] != [] && NoDelimiter(words[k], Whitespace) && NoDelimiter(words[k], Char(';'))
        && NoDelimiter(words[k], Char(' '))
  {
    IPv4IsPlain(ip);
    if mac.Some? { MacIsPlain(mac.value); }
    var words := AddressTokens(mac, ip) + names;
    var shift := |AddressTokens(mac, ip)|;
    forall k | shift <= k < |words|
      ensures NoDelimiter(words[k], Char(' '))
    {
      assert words[k] == names[k - shift];
      assert forall i :: 0 <= i < |words[k]| ==> IsDelimiter(words[k][i], Char(' ')) ==> IsDelimiter(words[k][i], Whitespace);
    }
  }

  /** The terms of a host entry classify as that entry. */
  lemma ClassifyEntry(number: nat, text: string, mac: Option<string>, ip: string, names: seq<string>)
    requires mac.Some? ==> IsMac(mac.value)
    requires IsIPv4(ip) && names != []
    ensures Classify(number, text, AddressTokens(mac, ip) + names) == Ok(Line(number, text, mac, ip, names))
  {
    var words := AddressTokens(mac, ip) + names;
    IPv4IsNotMac(ip);
    if mac.Some? {
      assert words[1..] == [ip] + names;
    }
  }

  /** Writing a host entry as a line and classifying that line gives the entry back. */
  lemma HostLineRoundTrip(number: nat, mac: Option<string>, ip: string, names: seq<string>)
    requires mac.Some? ==> IsMac(mac.value)
    requires IsIPv4(ip)
    requires names != [] && forall k :: 0 <= k < |names| ==> IsWord(names[k])
    ensures var text := HostLineText(mac, ip, names);
      ProcessLine(number, text) == Ok(Line(number, text, mac, ip, names))
  {
    var words := AddressTokens(mac, ip) + names;
    var text := Join(words, ' ');
    HostWordsPlain(mac, ip, names);
    HostLineActive(words);
    TokensOfJoin(words, Char(' '));
    ProcessLineTerms(number, text);
    ClassifyEntry(number, text, mac, ip, names);
  }

  /** One blank after a string without outer blanks trims away. */
  lemma TrimTrailingBlank(s: string)
    requires s != [] && !IsWhitespace(s[0]) && !IsWhitespace(s[|s| - 1])
    ensures Trim(s + " ") == s
  {
    var t := s + " ";
    assert TrimStartIndex(t) == 0;
    assert SkipBackward(t, |t| - 1, 0) == |t| - 1;
    assert TrimEndIndex(t) == |t| - 1;
    assert t[0..|t| - 1] == s;
  }

  /** A line written as `body`, a blank and a comment has `body` as its active part. */
  lemma RemoveCommentAfter(body: string, comment: string)
    requires body != [] && NoDelimiter(body, Char(';'))
    requires !IsWhitespace(body[0]) && !IsWhitespace(body[|body| - 1])
    ensures RemoveComment(body + " ;" + comment) == body
  {
    var text := body + " ;" + comment;
    var before := body + " ";
    assert text[..|before|] == before;
    assert NoDelimiter(before, Char(';')) by {
      assert forall i :: 0 <= i < |before| ==> before[i] == ' ' || before[i] == body[i];
    }
    assert text[|before|] == ';';
    FindFirst(text, before, Char(';'));
    TrimTrailingBlank(body);
  }

  /** A host line followed by a blank and a comment reads as the same entry
      as the line alone: the comment is dropped, the text kept whole. */
  lemma CommentedHostLineRoundTrip(number: nat, mac: Option<string>, ip: string, names: seq<string>, comment: string)
    requires mac.Some? ==> IsMac(mac.value)
    requires IsIPv4(ip)
    requires names != [] && forall k :: 0 <= k < |names| ==> IsWord(names[k])
    ensures var text := HostLineText(mac, ip, names) + " ;" + comment;
      ProcessLine(number, text) == Ok(Line(number, text, mac, ip, names))
  {
    var words := AddressTokens(mac, ip) + names;
    var body := Join(words, ' ');
    var text := body + " ;" + comment;
    HostWordsPlain(mac, ip, names);
    JoinKeepsOut(words, ' ', Char(';'));
    JoinEnds(words, ' ');
    var last := words[|words| - 1];
    assert !IsDelimiter(words[0][0], Whitespace);
    assert !IsDelimiter(last[|last| - 1], Whitespace);
    RemoveCommentAfter(body, comment);
    TokensOfJoin(words, Char(' '));
    ProcessLineTerms(number, text);
    ClassifyEntry(number, text, mac, ip, names);
  }

  /** The first token of a host line, whatever follows it, is its first
      address: the MAC, or the IP when there is no MAC. */
  lemma HostLineToken(mac: Option<string>, ip: string, names: seq<string>, tail: string)
    requires mac.Some? ==> IsMac(mac.value)
    requires IsIPv4(ip)
    requires names != [] && forall k :: 0 <= k < |names| ==> IsWord(names[k])
    ensures GetToken(HostLineText(mac, ip, names) + tail) == AddressTokens(mac, ip)[0]
  {
    var words := AddressTokens(mac, ip) + names;
    HostWordsPlain(mac, ip, names);
    var rest := Join(words[1..], ' ');
    assert Join(words, ' ') == words[0] + " " + rest;
    assert Join(words, ' ') + tail == words[0] + " " + (rest + tail);
    TokensLeadingWord(words[0], rest + tail, Whitespace);
  }

  /** No address is a keyword, so a line that starts with one is a host line. */
  lemma AddressNotKeyword(w: string)
    requires IsMac(w) || IsIPv4(w)
    ensures !IsKeyword(w)
  {
    if IsIPv4(w) {
      IPv4IsPlain(w);
      IPv4IsNotMac(w);
      assert IsDigit(w[0]) || w[0] == '.';
    } else {
      assert w[2] == ':';
    }
  }

  /** Every key is a plain word that opens no section and names its own setting. */
  lemma KeyIsWord(setting: Setting)
    ensures var key := Key(setting);
      IsWord(key) && SectionOf(key) == IpLines && SettingOf(key) == Some(setting)
  {
    PrintableWord(Key(setting));
  }

  /** A key, one blank and a plain value: the tokens are the key and the
      value, and there is no comment to strip. */
  lemma SettingLineTokens(key: string, value: string)
    requires IsWord(key) && IsWord(value)
    ensures var text := key + " " + value;
      Tokens(text, Whitespace) == [key, value] && RemoveComment(text) == text
  {
    var text := key + " " + value;
    TokensLeadingWord(key, value, Whitespace);
    TokensOfWord(value, Whitespace);
    assert Tokens(text, Whitespace) == [key, value] by {
      assert [key] + [value] == [key, value];
    }
    assert NoDelimiter(text, Char(';')) by {
      assert forall i :: 0 <= i < |text| ==>
        (text[i] == ' ' || (i < |key| && text[i] == key[i]) || (i > |key| && text[i] == value[i - |key| - 1]));
    }
    assert text[|text| - 1] == value[|value| - 1];
    CommentFree(text);
  }

  /** A line of the key, one blank and a plain value, read where host lines
      are expected, assigns that value to the key's setting. */
  lemma SettingLineStep(s: Scan, number: nat, setting: Setting, value: string)
    requires s.status == IpLines && IsWord(value)
    ensures Step(s, number, Key(setting) + " " + value) == Ok(Set(s, setting, value))
  {
    var key := Key(setting);
    var text := key + " " + value;
    KeyIsWord(setting);
    SettingLineTokens(key, value);
    assert GetToken(text) == key;
    assert GetValue(text, number, ValueName(setting)) == Ok(value);
  }

  // ---------------------------------------------------------------- the scan

  /** The mutable state of the loop in `parse` (src/parser.rs:62-71). */
  datatype Scan = Scan(
    status: ParsingStatus,
    dnsPrefix: seq<string>,
    dnsSuffix: seq<string>,
    dhcpPrefix: seq<string>,
    domain: Option<string>,
    dnsFileName: Option<string>,
    reverseDnsFileName: Option<string>,
    dhcpFileName: Option<string>,
    ipLines: seq<ProcessedLine>)

  const Start := Scan(IpLines, [], [], [], None, None, None, None, [])

  /** The block a section collects. */
  function Block(s: Scan, section: ParsingStatus): seq<string>
    requires section != IpLines
  {
    match section
    case DnsPrefix => s.dnsPrefix
    case DnsSuffix => s.dnsSuffix
    case DhcpPrefix => s.dhcpPrefix
  }

  /** Appends lines to one section's block. */
  function AppendBlock(s: Scan, section: ParsingStatus, lines: seq<string>): (r: Scan)
    requires section != IpLines
    ensures Block(r, section) == Block(s, section) + lines
    ensures forall other :: other != IpLines && other != section ==> Block(r, other) == Block(s, other)
    ensures r.status == s.status && r.ipLines == s.ipLines
    ensures forall setting :: Get(r, setting) == Get(s, setting)
  {
    match section
    case DnsPrefix => s.(dnsPrefix := s.dnsPrefix + lines)
    case DnsSuffix => s.(dnsSuffix := s.dnsSuffix + lines)
    case DhcpPrefix => s.(dhcpPrefix := s.dhcpPrefix + lines)
  }

  /** The current value of one setting. */
  function Get(s: Scan, setting: Setting): Option<string> {
    match setting
    case Domain => s.domain
    case DnsFileName => s.dnsFileName
    case ReverseDnsFileName => s.reverseDnsFileName
    case DhcpFileName => s.dhcpFileName
  }

  /** Assigns one setting; a later assignment overwrites an earlier one. */
  function Set(s: Scan, setting: Setting, value: string): (r: Scan)
    ensures Get(r, setting) == Some(value)
    ensures forall other :: other != setting ==> Get(r, other) == Get(s, other)
    ensures r.status == s.status && r.ipLines == s.ipLines
    ensures forall section :: section != IpLines ==> Block(r, section) == Block(s, section)
  {
    match setting
    case Domain => s.(domain := Some(value))
    case DnsFileName => s.(dnsFileName := Some(value))
    case ReverseDnsFileName => s.(reverseDnsFileName := Some(value))
    case DhcpFileName => s.(dhcpFileName := Some(value))
  }

  /** One iteration of the loop of `parse` (src/parser.rs:73-98) on the line
      with 0-based index `number`. */
  function Step(s: Scan, number: nat, text: string): Result<Scan, ParsingError>
  {
    var token := GetToken(text);
    match s.status
    case DnsPrefix =>
      if token == "DNS_PREFIX_END" then Ok(s.(status := IpLines)) else Ok(AppendBlock(s, DnsPrefix, [text]))
    case DnsSuffix =>
      if token == "DNS_SUFFIX_END" then Ok(s.(status := IpLines)) else Ok(AppendBlock(s, DnsSuffix, [text]))
    case DhcpPrefix =>
      if token == "DHCP_PREFIX_END" then Ok(s.(status := IpLines)) else Ok(AppendBlock(s, DhcpPrefix, [text]))
    case IpLines =>
      if SectionOf(token) != IpLines then Ok(s.(status := SectionOf(token)))
      else if SettingOf(token).Some? then
        var setting := SettingOf(token).value;
        match GetValue(text, number, ValueName(setting))
        case Err(e) => Err(e)
        case Ok(v) => Ok(Set(s, setting, v))
      else
        match ProcessLine(number + 1, text)
        case Err(e) => Err(e)
        case Ok(l) => Ok(s.(ipLines := s.ipLines + [l]))
  }

  /** Inside a section nothing fails: the section ends on a line whose first
      token is its end marker, which is not stored, and every other line is
      appended to that section's block, whatever it holds. */
  lemma StepInSection(s: Scan, number: nat, text: string)
    requires s.status != IpLines
    ensures var r := Step(s, number, text);
      if GetToken(text) == EndMarker(s.status) then r == Ok(s.(status := IpLines))
      else r == Ok(AppendBlock(s, s.status, [text]))
  {
  }

  /** Outside sections a line opens a section, assigns a setting or is read as
      a host line; the blocks never change there. */
  lemma StepOutside(s: Scan, number: nat, text: string)
    requires s.status == IpLines
    ensures var r := Step(s, number, text); var token := GetToken(text);
      && (SectionOf(token) != IpLines ==> r == Ok(s.(status := SectionOf(token))))
      && (SectionOf(token) == IpLines && SettingOf(token).Some? ==>
           var setting := SettingOf(token).value;
           var v := GetValue(text, number, ValueName(setting));
           r == if v.Ok? then Ok(Set(s, setting, v.value)) else Err(v.error))
      && (!IsKeyword(token) ==>
           var l := ProcessLine(number + 1, text);
           r == if l.Ok? then Ok(s.(ipLines := s.ipLines + [l.value])) else Err(l.error))
      && (r.Ok? ==> forall section :: section != IpLines ==> Block(r.value, section) == Block(s, section))
  {
  }

  /** The host entries after a step: one more, read by `process_line`, for a
      host line, the same for any other line. */
  lemma StepEntries(s: Scan, number: nat, text: string)
    requires Step(s, number, text).Ok?
    ensures var after := Step(s, number, text).value;
      if s.status == IpLines && !IsKeyword(GetToken(text)) then
        ProcessLine(number + 1, text).Ok? && after.ipLines == s.ipLines + [ProcessLine(number + 1, text).value]
      else after.ipLines == s.ipLines
  {
    if s.status == IpLines {
      StepOutside(s, number, text);
    } else {
      StepInSection(s, number, text);
    }
  }

  /** Two states agree on all four settings. */
  predicate SameSettings(a: Scan, b: Scan) {
    a.domain == b.domain && a.dnsFileName == b.dnsFileName
    && a.reverseDnsFileName == b.reverseDnsFileName && a.dhcpFileName == b.dhcpFileName
  }

  /** The settings after a step: a setting line assigns the value `get_value`
      accepted, any other line leaves the settings alone. */
  lemma StepSettings(s: Scan, number: nat, text: string)
    requires Step(s, number, text).Ok?
    ensures var after := Step(s, number, text).value; var token := GetToken(text);
      if s.status == IpLines && SectionOf(token) == IpLines && SettingOf(token).Some? then
        var setting := SettingOf(token).value;
        var v := GetValue(text, number, ValueName(setting));
        v.Ok? && after == Set(s, setting, v.value)
      else SameSettings(after, s)
  {
    if s.status == IpLines {
      StepOutside(s, number, text);
    } else {
      StepInSection(s, number, text);
    }
  }

  /** A loop over `lines` that applies `step` to each line and its 0-based
      index (the first line has index `first`), stopping at the first error. */
  function Run(step: (Scan, nat, string) -> Result<Scan, ParsingError>, s: Scan, lines: seq<string>, first: nat)
    : Result<Scan, ParsingError>
    decreases |lines|, 0
  {
    if lines == [] then Ok(s) else Continue(step, step(s, first, lines[0]), lines[1..], first + 1)
  }

  /** Goes on from a step's result, unless it failed. */
  function Continue(step: (Scan, nat, string) -> Result<Scan, ParsingError>, r: Result<Scan, ParsingError>,
    lines: seq<string>, first: nat): Result<Scan, ParsingError>
    decreases |lines|, 1
  {
    match r
    case Err(e) => Err(e)
    case Ok(t) => Run(step, t, lines, first)
  }

  /** Running over `a + b` is running over `a`, then over `b` from where `a` ended. */
  lemma {:induction false} RunAppend(step: (Scan, nat, string) -> Result<Scan, ParsingError>, s: Scan,
    a: seq<string>, b: seq<string>, first: nat)
    ensures Run(step, s, a + b, first) == Continue(step, Run(step, s, a, first), b, first + |a|)
    decreases |a|
  {
    if a == [] {
      assert a + b == b;
    } else {
      assert (a + b)[0] == a[0];
      assert (a + b)[1..] == a[1..] + b;
      var r := step(s, first, a[0]);
      if r.Ok? {
        RunAppend(step, r.value, a[1..], b, first + 1);
      }
    }
  }

  /** The loop of `parse` over `lines`, the first of which has 0-based index `first`. */
  function ScanFrom(s: Scan, lines: seq<string>, first: nat): Result<Scan, ParsingError> {
    Run(Step, s, lines, first)
  }

  /** A successful step on line `k`, which reads `text`, moves the loop on to line `k + 1`. */
  lemma ScanAt(s: Scan, lines: seq<string>, k: nat, text: string, t: Scan)
    requires k < |lines| && lines[k] == text && Step(s, k, text) == Ok(t)
    ensures ScanFrom(s, lines[k..], k) == ScanFrom(t, lines[k + 1..], k + 1)
  {
    assert lines[k..][0] == lines[k];
    assert lines[k..][1..] == lines[k + 1..];
    assert Run(Step, s, lines[k..], k) == Continue(Step, Step(s, k, lines[k]), lines[k + 1..], k + 1);
  }

  /** All four settings were assigned. */
  predicate AllSet(s: Scan) {
    s.domain.Some? && s.dnsFileName.Some? && s.reverseDnsFileName.Some? && s.dhcpFileName.Some?
  }

  /** The checks after the loop (src/parser.rs:102-129): the missing settings
      in the order domain, DNS file, reverse DNS file, DHCP file, and only then
      an unterminated section. */
  function Finish(s: Scan): (r: Result<ParsedInfo, ParsingError>)
    ensures r.Ok? <==> s.status == IpLines && AllSet(s)
    ensures r.Ok? ==> AllSet(s) && r.value == ParsedInfo(s.ipLines, s.domain.value, s.dnsPrefix, s.dnsSuffix,
      s.dhcpPrefix, s.dnsFileName.value, s.reverseDnsFileName.value, s.dhcpFileName.value)
    ensures r == Err(NoParentDomain) <==> s.domain.None?
    ensures r == Err(NoDnsFileName) <==> s.domain.Some? && s.dnsFileName.None?
    ensures r == Err(NoReverseDnsFileName) <==>
      s.domain.Some? && s.dnsFileName.Some? && s.reverseDnsFileName.None?
    ensures r == Err(NoDhcpFileName) <==>
      s.domain.Some? && s.dnsFileName.Some? && s.reverseDnsFileName.Some? && s.dhcpFileName.None?
    ensures s.status != IpLines ==>
      (r == Err(NotTerminated(s.status)) <==> AllSet(s))
  {
    if s.domain.None? then Err(NoParentDomain)
    else if s.dnsFileName.None? then Err(NoDnsFileName)
    else if s.reverseDnsFileName.None? then Err(NoReverseDnsFileName)
    else if s.dhcpFileName.None? then Err(NoDhcpFileName)
    else match s.status
      case DnsPrefix => Err(DnsPrefixNotTerminated)
      case DnsSuffix => Err(DnsSuffixNotTerminated)
      case DhcpPrefix => Err(DhcpPrefixNotTerminated)
      case IpLines => Ok(ParsedInfo(s.ipLines, s.domain.value, s.dnsPrefix, s.dnsSuffix,
        s.dhcpPrefix, s.dnsFileName.value, s.reverseDnsFileName.value, s.dhcpFileName.value))
  }

  /** What `parse` returns for the given lines. */
  function ParseLines(lines: seq<string>): Result<ParsedInfo, ParsingError> {
    match ScanFrom(Start, lines, 0)
    case Err(e) => Err(e)
    case Ok(s) => Finish(s)
  }

  /** Running over one line is one step. */
  lemma RunOne(step: (Scan, nat, string) -> Result<Scan, ParsingError>, s: Scan, text: string, first: nat)
    ensures Run(step, s, [text], first) == step(s, first, text)
  {
    var r := step(s, first, text);
    assert [text][1..] == [];
    if r.Ok? {
      assert Run(step, r.value, [], first + 1) == Ok(r.value);
    }
  }

  /** One more line of the input is one more step. */
  lemma RunPrefixStep(step: (Scan, nat, string) -> Result<Scan, ParsingError>, s: Scan, lines: seq<string>, n: nat)
    requires n < |lines|
    ensures Run(step, s, lines[..n + 1], 0) == Continue(step, Run(step, s, lines[..n], 0), [lines[n]], n)
  {
    assert lines[..n + 1] == lines[..n] + [lines[n]];
    RunAppend(step, s, lines[..n], [lines[n]], 0);
  }

  /** Once a prefix of the input fails, the whole input fails with that error. */
  lemma RunPrefixFails(step: (Scan, nat, string) -> Result<Scan, ParsingError>, s: Scan, lines: seq<string>,
    n: nat, e: ParsingError)
    requires n <= |lines| && Run(step, s, lines[..n], 0) == Err(e)
    ensures Run(step, s, lines, 0) == Err(e)
  {
    assert lines == lines[..n] + lines[n..];
    RunAppend(step, s, lines[..n], lines[n..], 0);
  }

  /** `parse` (src/parser.rs:61-130): a for loop over the lines that updates
      the parsing status, the three blocks, the four settings and the host
      entries in place, returning at the first malformed line. */
  method Parse(content: string) returns (r: Result<ParsedInfo, ParsingError>)
    ensures r == ParseLines(Lines(content))
  {
    var lines := Lines(content);
    var parsingStatus := IpLines;
    var dnsPrefix: seq<string> := [];
    var dnsSuffix: seq<string> := [];
    var dhcpPrefix: seq<string> := [];
    var domain: Option<string> := None;
    var dnsFileName: Option<string> := None;
    var reverseDnsFileName: Option<string> := None;
    var dhcpFileName: Option<string> := None;
    var ipLines: seq<ProcessedLine> := [];
    for number := 0 to |lines|
      invariant ScanFrom(Start, lines[..number], 0) == Ok(Scan(parsingStatus, dnsPrefix, dnsSuffix,
        dhcpPrefix, domain, dnsFileName, reverseDnsFileName, dhcpFileName, ipLines))
    {
      var text := lines[number];
      var token := GetToken(text);
      ghost var before := Scan(parsingStatus, dnsPrefix, dnsSuffix,
        dhcpPrefix, domain, dnsFileName, reverseDnsFileName, dhcpFileName, ipLines);
      RunPrefixStep(Step, Start, lines, number);
      RunOne(Step, before, text, number);
      match parsingStatus {
        case DnsPrefix =>
          if token == "DNS_PREFIX_END" { parsingStatus := IpLines; } else { dnsPrefix := dnsPrefix + [text]; }
        case DnsSuffix =>
          if token == "DNS_SUFFIX_END" { parsingStatus := IpLines; } else { dnsSuffix := dnsSuffix + [text]; }
        case DhcpPrefix =>
          if token == "DHCP_PREFIX_END" { parsingStatus := IpLines; } else { dhcpPrefix := dhcpPrefix + [text]; }
        case IpLines =>
          var section := SectionOf(token);
          var setting := SettingOf(token);
          if section != IpLines {
            parsingStatus := section;
          } else if setting.Some? {
            var value := GetValue(text, number, ValueName(setting.value));
            if value.Err? {
              RunPrefixFails(Step, Start, lines, number + 1, value.error);
              return Err(value.error);
            }
            match setting.value {
              case Domain => domain := Some(value.value);
              case DnsFileName => dnsFileName := Some(value.value);
              case ReverseDnsFileName => reverseDnsFileName := Some(value.value);
              case DhcpFileName => dhcpFileName := Some(value.value);
            }
          } else {
            var line := ProcessLine(number + 1, text);
            if line.Err? {
              RunPrefixFails(Step, Start, lines, number + 1, line.error);
              return Err(line.error);
            }
            ipLines := ipLines + [line.value];
          }
      }
    }
    assert lines[..|lines|] == lines;

    if domain.None? {
      return Err(NoParentDomain);
    }
    if dnsFileName.None? {
      return Err(NoDnsFileName);
    }
    if reverseDnsFileName.None? {
      return Err(NoReverseDnsFileName);
    }
    if dhcpFileName.None? {
      return Err(NoDhcpFileName);
    }
    match parsingStatus {
      case DnsPrefix => r := Err(DnsPrefixNotTerminated);
      case DnsSuffix => r := Err(DnsSuffixNotTerminated);
      case DhcpPrefix => r := Err(DhcpPrefixNotTerminated);
      case IpLines =>
        r := Ok(ParsedInfo(ipLines, domain.value, dnsPrefix, dnsSuffix, dhcpPrefix,
          dnsFileName.value, reverseDnsFileName.value, dhcpFileName.value));
    }
  }

  // ---------------------------------------------------------------- properties of the scan

  /** The state after the first `n` lines. */
  function ScanPrefix(lines: seq<string>, n: nat): Result<Scan, ParsingError>
    requires n <= |lines|
  {
    ScanFrom(Start, lines[..n], 0)
  }

  /** Running over one more line is one more step, unless the run already failed. */
  lemma RunNext(step: (Scan, nat, string) -> Result<Scan, ParsingError>, s: Scan, lines: seq<string>, n: nat)
    requires n < |lines|
    ensures var before := Run(step, s, lines[..n], 0);
      Run(step, s, lines[..n + 1], 0) == if before.Ok? then step(before.value, n, lines[n]) else before
  {
    RunPrefixStep(step, s, lines, n);
    var before := Run(step, s, lines[..n], 0);
    if before.Ok? {
      RunOne(step, before.value, lines[n], n);
    }
  }

  /** The first malformed line is the error of the whole parse. */
  lemma ParseStopsAtFirstError(lines: seq<string>, n: nat, e: ParsingError)
    requires n <= |lines| && ScanPrefix(lines, n) == Err(e)
    ensures ParseLines(lines) == Err(e)
  {
    RunPrefixFails(Step, Start, lines, n, e);
  }

  /** A line's host entry, when the line is read as a host line, grows the
      host list by exactly that entry; any other line leaves the list alone. */
  lemma HostEntryStep(lines: seq<string>, n: nat)
    requires n < |lines| && ScanPrefix(lines, n + 1).Ok?
    ensures ScanPrefix(lines, n).Ok?
    ensures var before := ScanPrefix(lines, n).value; var after := ScanPrefix(lines, n + 1).value;
      if before.status == IpLines && !IsKeyword(GetToken(lines[n])) then
        ProcessLine(n + 1, lines[n]).Ok? && after.ipLines == before.ipLines + [ProcessLine(n + 1, lines[n]).value]
      else after.ipLines == before.ipLines
  {
    RunNext(Step, Start, lines, n);
    StepEntries(ScanPrefix(lines, n).value, n, lines[n]);
  }

  /** How a host line is read: `process_line` in the parse, a parameter in the
      lemmas about numbering, which hold for any reader. */
  type Reader = (nat, string) -> Result<ProcessedLine, ParsingError>

  /** Host entries numbered by their 1-based line, each what `read` makes of
      its own line, in strictly increasing line order, all before line `upto`. */
  predicate Numbered(read: Reader, entries: seq<ProcessedLine>, lines: seq<string>, upto: nat)
    decreases |entries|
  {
    if entries == [] then true
    else
      var e := entries[|entries| - 1];
      && 1 <= e.number <= upto && e.number <= |lines|
      && read(e.number, lines[e.number - 1]) == Ok(e)
      && Numbered(read, entries[..|entries| - 1], lines, e.number - 1)
  }

  /** Numbered entries, element by element. */
  lemma {:induction false} NumberedSpec(read: Reader, entries: seq<ProcessedLine>, lines: seq<string>, upto: nat)
    requires Numbered(read, entries, lines, upto)
    ensures forall k :: 0 <= k < |entries| ==>
      1 <= entries[k].number <= upto && entries[k].number <= |lines|
      && read(entries[k].number, lines[entries[k].number - 1]) == Ok(entries[k])
    ensures forall j, k :: 0 <= j < k < |entries| ==> entries[j].number < entries[k].number
    decreases |entries|
  {
    if entries != [] {
      var n := |entries| - 1;
      var init := entries[..n];
      var last := entries[n];
      NumberedSpec(read, init, lines, last.number - 1);
      forall k | 0 <= k < |entries|
        ensures 1 <= entries[k].number <= upto && entries[k].number <= |lines|
        ensures read(entries[k].number, lines[entries[k].number - 1]) == Ok(entries[k])
      {
        if k < n { assert entries[k] == init[k]; }
      }
      forall j, k | 0 <= j < k < |entries| ensures entries[j].number < entries[k].number {
        assert entries[j] == init[j];
        if k < n { assert entries[k] == init[k]; }
      }
    }
  }

  /** Every assigned setting is a single non-empty whitespace-free token. */
  predicate SettingsPlain(s: Scan) {
    PlainValue(s.domain) && PlainValue(s.dnsFileName)
    && PlainValue(s.reverseDnsFileName) && PlainValue(s.dhcpFileName)
  }

  /** An assigned value is a single non-empty whitespace-free token. */
  predicate PlainValue(v: Option<string>) {
    v.Some? ==> v.value != [] && NoDelimiter(v.value, Whitespace)
  }

  /** Entries numbered before line `upto` are numbered before any later line. */
  lemma NumberedLater(read: Reader, entries: seq<ProcessedLine>, lines: seq<string>, upto: nat, later: nat)
    requires Numbered(read, entries, lines, upto) && upto <= later
    ensures Numbered(read, entries, lines, later)
  {
  }

  /** What a reader returns for line `m` (0-based) it returns for line `n` numbered from 1. */
  lemma ReadShift(read: Reader, lines: seq<string>, m: nat, n: nat, e: ProcessedLine)
    requires m < |lines| && m + 1 == n && read(m + 1, lines[m]) == Ok(e)
    ensures read(n, lines[n - 1]) == Ok(e)
  {
  }

  /** The entry of line `n` extends entries numbered before it. */
  lemma NumberedAppend(read: Reader, entries: seq<ProcessedLine>, lines: seq<string>, n: nat, e: ProcessedLine)
    requires 0 < n <= |lines| && Numbered(read, entries, lines, n - 1) && read(n, lines[n - 1]) == Ok(e)
    requires e.number == n
    ensures Numbered(read, entries + [e], lines, n)
  {
    assert (entries + [e])[..|entries|] == entries;
  }

  /** Assigning a plain value keeps the settings plain. */
  lemma SettingsPlainSet(t: Scan, setting: Setting, v: string)
    requires SettingsPlain(t) && v != [] && NoDelimiter(v, Whitespace)
    ensures SettingsPlain(Set(t, setting, v))
  {
  }

  /** The step on line `n - 1` (0-based) keeps the host entries numbered:
      only a host line adds an entry, the one `process_line` reads from it. */
  lemma EntriesStep(t: Scan, after: Scan, lines: seq<string>, n: nat)
    requires 0 < n <= |lines| && Numbered(ProcessLine, t.ipLines, lines, n - 1)
    requires Step(t, n - 1, lines[n - 1]) == Ok(after)
    ensures Numbered(ProcessLine, after.ipLines, lines, n)
  {
    var m := n - 1;
    var text := lines[m];
    StepEntries(t, m, text);
    NumberedLater(ProcessLine, t.ipLines, lines, m, n);
    if t.status == IpLines && !IsKeyword(GetToken(text)) {
      var e := ProcessLine(m + 1, text).value;
      ReadShift(ProcessLine, lines, m, n, e);
      NumberedAppend(ProcessLine, t.ipLines, lines, n, e);
    }
  }

  /** One step keeps the settings plain: a setting is only ever assigned a
      value `get_value` accepted. */
  lemma SettingsStep(t: Scan, after: Scan, number: nat, text: string)
    requires SettingsPlain(t) && Step(t, number, text) == Ok(after)
    ensures SettingsPlain(after)
  {
    var token := GetToken(text);
    StepSettings(t, number, text);
    if t.status == IpLines && SectionOf(token) == IpLines && SettingOf(token).Some? {
      var setting := SettingOf(token).value;
      SettingsPlainSet(t, setting, GetValue(text, number, ValueName(setting)).value);
    } else {
      SameSettingsPlain(after, t);
    }
  }

  /** States with the same settings are alike plain. */
  lemma SameSettingsPlain(a: Scan, b: Scan)
    requires SameSettings(a, b) && SettingsPlain(b)
    ensures SettingsPlain(a)
  {
  }

  /** What stays true of the scan state from line to line. */
  lemma {:induction false} ScanInvariant(lines: seq<string>, n: nat)
    requires n <= |lines| && ScanPrefix(lines, n).Ok?
    ensures Numbered(ProcessLine, ScanPrefix(lines, n).value.ipLines, lines, n)
    ensures SettingsPlain(ScanPrefix(lines, n).value)
  {
    if n == 0 {
      assert lines[..0] == [];
    } else {
      ScanNext(lines, n);
      ScanInvariant(lines, n - 1);
      var t := ScanPrefix(lines, n - 1).value;
      var after := ScanPrefix(lines, n).value;
      EntriesStep(t, after, lines, n);
      SettingsStep(t, after, n - 1, lines[n - 1]);
    }
  }

  /** The state after the first `n` lines is one step from the state after
      the first `n - 1`, which did not fail. */
  lemma ScanNext(lines: seq<string>, n: nat)
    requires 0 < n <= |lines| && ScanPrefix(lines, n).Ok?
    ensures ScanPrefix(lines, n - 1).Ok?
    ensures ScanPrefix(lines, n) == Step(ScanPrefix(lines, n - 1).value, n - 1, lines[n - 1])
  {
    RunBack(Step, Start, lines, n);
  }

  /** A run over the first `n` lines that did not fail is one step from a run
      over the first `n - 1` that did not fail either. */
  lemma RunBack(step: (Scan, nat, string) -> Result<Scan, ParsingError>, s: Scan, lines: seq<string>, n: nat)
    requires 0 < n <= |lines| && Run(step, s, lines[..n], 0).Ok?
    ensures Run(step, s, lines[..n - 1], 0).Ok?
    ensures Run(step, s, lines[..n], 0) == step(Run(step, s, lines[..n - 1], 0).value, n - 1, lines[n - 1])
  {
    var m := n - 1;
    RunNext(step, s, lines, m);
    assert m + 1 == n;
  }

  /** A host entry read from a line has an IPv4 address, a well-formed MAC
      if any, and at least one name, each non-empty and free of spaces. */
  predicate WellFormedEntry(entry: ProcessedLine) {
    entry.Line? ==> (IsIPv4(entry.ip) && entry.names != [] && (entry.mac.Some? ==> IsMac(entry.mac.value))
      && forall k :: 0 <= k < |entry.names| ==> entry.names[k] != [] && NoDelimiter(entry.names[k], Char(' ')))
  }

  /** Every host entry has at least one name, so its primary name exists. */
  predicate HasNames(entries: seq<ProcessedLine>) {
    forall a :: 0 <= a < |entries| ==> entries[a].Line? ==> entries[a].names != []
  }

  /** A host line has at least one name (what `HasNames` asks of each entry). */
  predicate Named(e: ProcessedLine) {
    e.Line? ==> e.names != []
  }

  /** Entry `e` is what `process_line` reads from its own line, numbered from 1. */
  predicate ReadsBack(lines: seq<string>, e: ProcessedLine) {
    1 <= e.number <= |lines| && ProcessLine(e.number, lines[e.number - 1]) == Ok(e)
  }

  /** A successful parse holds, for each host line in order, its entry, numbered
      by its 1-based line, and four non-empty settings. */
  lemma ParseResult(lines: seq<string>)
    requires ParseLines(lines).Ok?
    ensures var p := ParseLines(lines).value;
      && (forall k :: 0 <= k < |p.ipLines| ==> ReadsBack(lines, p.ipLines[k]))
      && (forall j, k :: 0 <= j < k < |p.ipLines| ==> p.ipLines[j].number < p.ipLines[k].number)
      && p.domain != [] && p.dnsFileName != [] && p.reverseDnsFileName != [] && p.dhcpFileName != []
  {
    var s := ParseScan(lines);
    ScanResult(lines, s, ParseLines(lines).value);
  }

  /** Line `n` (0-based) is read as a host line: the scan reaches it with no
      section open, its first token is no keyword, and `process_line` accepts it. */
  predicate IsHostLine(lines: seq<string>, n: nat)
    requires n < |lines|
  {
    && ScanPrefix(lines, n).Ok? && ScanPrefix(lines, n).value.status == IpLines
    && !IsKeyword(GetToken(lines[n])) && ProcessLine(n + 1, lines[n]).Ok?
  }

  /** The entries `process_line` reads from the host lines among the first `n`
      lines, in line order. */
  function HostEntriesUpTo(lines: seq<string>, n: nat): seq<ProcessedLine>
    requires n <= |lines|
  {
    if n == 0 then []
    else if IsHostLine(lines, n - 1) then HostEntriesUpTo(lines, n - 1) + [ProcessLine(n, lines[n - 1]).value]
    else HostEntriesUpTo(lines, n - 1)
  }

  /** After the first `n` lines the scan holds exactly the entries of the host
      lines among them. */
  lemma {:induction false} ScanHostEntries(lines: seq<string>, n: nat)
    requires n <= |lines| && ScanPrefix(lines, n).Ok?
    ensures ScanPrefix(lines, n).value.ipLines == HostEntriesUpTo(lines, n)
  {
    if n == 0 {
      assert lines[..0] == [];
    } else {
      var m := n - 1;
      HostEntryStep(lines, m);
      ScanHostEntries(lines, m);
      var before := ScanPrefix(lines, m).value;
      var after := ScanPrefix(lines, n).value;
      if before.status == IpLines && !IsKeyword(GetToken(lines[m])) {
        assert after.ipLines == before.ipLines + [ProcessLine(n, lines[m]).value];
        assert IsHostLine(lines, m);
      } else {
        assert after.ipLines == before.ipLines;
        assert !IsHostLine(lines, m);
      }
    }
  }

  /** A successful parse keeps every host line's entry, in line order, and
      nothing else. */
  lemma ParseHostEntries(lines: seq<string>)
    requires ParseLines(lines).Ok?
    ensures ParseLines(lines).value.ipLines == HostEntriesUpTo(lines, |lines|)
  {
    var s := ParseScan(lines);
    assert lines[..|lines|] == lines;
    ScanHostEntries(lines, |lines|);
  }

  /** The result built from a final scan state whose host entries were
      numbered by `process_line` and whose settings were all assigned plain
      values. */
  lemma ScanResult(lines: seq<string>, s: Scan, p: ParsedInfo)
    requires AllSet(s) && SettingsPlain(s)
    requires p == ParsedInfo(s.ipLines, s.domain.value, s.dnsPrefix, s.dnsSuffix,
      s.dhcpPrefix, s.dnsFileName.value, s.reverseDnsFileName.value, s.dhcpFileName.value)
    requires Numbered(ProcessLine, p.ipLines, lines, |lines|)
    ensures forall k :: 0 <= k < |p.ipLines| ==> ReadsBack(lines, p.ipLines[k])
    ensures forall j, k :: 0 <= j < k < |p.ipLines| ==> p.ipLines[j].number < p.ipLines[k].number
    ensures p.domain != [] && p.dnsFileName != [] && p.reverseDnsFileName != [] && p.dhcpFileName != []
  {
    NumberedSpec(ProcessLine, p.ipLines, lines, |lines|);
    SettingsNonEmpty(s);
  }

  /** Every host entry of a successful parse is well formed. */
  lemma ParsedWellFormed(lines: seq<string>)
    requires ParseLines(lines).Ok?
    ensures forall k :: 0 <= k < |ParseLines(lines).value.ipLines| ==>
      WellFormedEntry(ParseLines(lines).value.ipLines[k])
  {
    ParseResult(lines);
    EntriesWellFormed(ParseLines(lines).value.ipLines, lines);
  }

  /** A successful parse is the final scan state, with no section open, every
      setting assigned a plain value and the host entries numbered by
      `process_line`. */
  lemma ParseScan(lines: seq<string>) returns (s: Scan)
    requires ParseLines(lines).Ok?
    ensures s.status == IpLines && AllSet(s) && SettingsPlain(s)
    ensures Numbered(ProcessLine, s.ipLines, lines, |lines|)
    ensures ParseLines(lines).value == ParsedInfo(s.ipLines, s.domain.value, s.dnsPrefix, s.dnsSuffix,
      s.dhcpPrefix, s.dnsFileName.value, s.reverseDnsFileName.value, s.dhcpFileName.value)
  {
    assert lines[..|lines|] == lines;
    s := ScanPrefix(lines, |lines|).value;
    ScanInvariant(lines, |lines|);
  }

  /** Plain assigned settings are non-empty. */
  lemma SettingsNonEmpty(s: Scan)
    requires SettingsPlain(s) && AllSet(s)
    ensures s.domain.value != [] && s.dnsFileName.value != []
    ensures s.reverseDnsFileName.value != [] && s.dhcpFileName.value != []
  {
  }

  /** Entries that `process_line` read from their lines are well formed. */
  lemma EntriesWellFormed(entries: seq<ProcessedLine>, lines: seq<string>)
    requires forall k :: 0 <= k < |entries| ==> ReadsBack(lines, entries[k])
    ensures forall k :: 0 <= k < |entries| ==> WellFormedEntry(entries[k])
  {
    forall k | 0 <= k < |entries| ensures WellFormedEntry(entries[k]) {
      ProcessLineWellFormed(entries[k].number, lines[entries[k].number - 1]);
    }
  }

  /** What `process_line` reads from a line is well formed. */
  lemma ProcessLineWellFormed(number: nat, text: string)
    requires ProcessLine(number, text).Ok?
    ensures WellFormedEntry(ProcessLine(number, text).value)
  {
    var l := ProcessLine(number, text).value;
    if l.Line? {
      ProcessLineLine(number, text);
      if l.mac.Some? {
        assert HostTokens(text)[0] == l.mac.value;
      }
    }
  }

  /** What the parser returns meets what the renderers need of it: every host
      entry has a primary name. */
  lemma ParsedHasNames(lines: seq<string>)
    requires ParseLines(lines).Ok?
    ensures HasNames(ParseLines(lines).value.ipLines)
  {
    ParsedWellFormed(lines);
  }

  /** Appending to a block twice is appending the concatenation. */
  lemma AppendBlockTwice(s: Scan, section: ParsingStatus, a: seq<string>, b: seq<string>)
    requires section != IpLines
    ensures AppendBlock(AppendBlock(s, section, a), section, b) == AppendBlock(s, section, a + b)
  {
    match section
    case DnsPrefix => assert s.dnsPrefix + a + b == s.dnsPrefix + (a + b);
    case DnsSuffix => assert s.dnsSuffix + a + b == s.dnsSuffix + (a + b);
    case DhcpPrefix => assert s.dhcpPrefix + a + b == s.dhcpPrefix + (a + b);
  }

  /** Inside a section, lines whose first token is not the end marker are
      appended verbatim, in order, to that section's block alone. */
  lemma {:induction false} SectionBody(s: Scan, body: seq<string>, first: nat)
    requires s.status != IpLines
    requires forall k :: 0 <= k < |body| ==> GetToken(body[k]) != EndMarker(s.status)
    ensures ScanFrom(s, body, first) == Ok(AppendBlock(s, s.status, body))
    decreases |body|
  {
    if body == [] {
      assert AppendBlock(s, s.status, body) == s by {
        match s.status
        case DnsPrefix => assert s.dnsPrefix + [] == s.dnsPrefix;
        case DnsSuffix => assert s.dnsSuffix + [] == s.dnsSuffix;
        case DhcpPrefix => assert s.dhcpPrefix + [] == s.dhcpPrefix;
      }
    } else {
      StepInSection(s, first, body[0]);
      var t := AppendBlock(s, s.status, [body[0]]);
      assert Run(Step, s, body, first) == Continue(Step, Ok(t), body[1..], first + 1);
      SectionBody(t, body[1..], first + 1);
      AppendBlockTwice(s, s.status, [body[0]], body[1..]);
      assert [body[0]] + body[1..] == body;
    }
  }

  /** A whole section: its start line, a body without its end marker and its
      end line add exactly the body to the section's block and return to host lines. */
  lemma SectionBlock(s: Scan, section: ParsingStatus, opening: string, body: seq<string>, closing: string, first: nat)
    requires s.status == IpLines && section != IpLines
    requires GetToken(opening) == StartMarker(section) && GetToken(closing) == EndMarker(section)
    requires forall k :: 0 <= k < |body| ==> GetToken(body[k]) != EndMarker(section)
    ensures ScanFrom(s, [opening] + body + [closing], first) == Ok(AppendBlock(s, section, body).(status := IpLines))
  {
    var inside := s.(status := section);
    var filled := AppendBlock(inside, section, body);
    SectionOpens(s, section, opening, first);
    SectionBody(inside, body, first + 1);
    SectionCloses(filled, closing, first + 1 + |body|);
    RunAround(Step, s, opening, body, closing, first, inside, filled, filled.(status := IpLines));
    AppendBlockStatus(s, section, body);
  }

  /** Lines around a body: a run over the opening line, then the body, then
      the closing line, each from where the one before ended. */
  lemma RunAround(step: (Scan, nat, string) -> Result<Scan, ParsingError>, s: Scan,
    opening: string, body: seq<string>, closing: string, first: nat, s1: Scan, s2: Scan, s3: Scan)
    requires Run(step, s, [opening], first) == Ok(s1)
    requires Run(step, s1, body, first + 1) == Ok(s2)
    requires Run(step, s2, [closing], first + 1 + |body|) == Ok(s3)
    ensures Run(step, s, [opening] + body + [closing], first) == Ok(s3)
  {
    RunAppend(step, s, [opening], body + [closing], first);
    assert [opening] + body + [closing] == [opening] + (body + [closing]);
    RunAppend(step, s1, body, [closing], first + 1);
  }

  /** The status a block is filled under does not show once the status is reset. */
  lemma AppendBlockStatus(s: Scan, section: ParsingStatus, body: seq<string>)
    requires section != IpLines
    ensures AppendBlock(s.(status := section), section, body).(status := IpLines)
      == AppendBlock(s, section, body).(status := IpLines)
  {
  }

  /** A start marker outside sections opens its section. */
  lemma SectionOpens(s: Scan, section: ParsingStatus, opening: string, first: nat)
    requires s.status == IpLines && section != IpLines
    requires GetToken(opening) == StartMarker(section)
    ensures ScanFrom(s, [opening], first) == Ok(s.(status := section))
  {
    StepOutside(s, first, opening);
    assert SectionOf(StartMarker(section)) == section;
    RunOne(Step, s, opening, first);
  }

  /** The end marker of the current section closes it. */
  lemma SectionCloses(s: Scan, closing: string, first: nat)
    requires s.status != IpLines && GetToken(closing) == EndMarker(s.status)
    ensures ScanFrom(s, [closing], first) == Ok(s.(status := IpLines))
  {
    StepInSection(s, first, closing);
    RunOne(Step, s, closing, first);
  }

}
