# generate-dhcp-dns, modelled in Dafny

`generate-dhcp-dns` reads one plain-text configuration describing the hosts of
a small network. It writes three files from it:

- a forward DNS zone for bind;
- a reverse DNS zone for bind;
- a host-reservation file for ISC dhcpd.

This project models the core of that pipeline:

- **Parser** (`src/parser.rs`).
  - A single pass over the lines drives a four-state machine. The states are host lines, DNS prologue, DNS epilogue and DHCP prologue.
  - Outside a section, a line's first whitespace token is a section marker, one of the four settings (`domain`, `dns_file_name`, `reverse_dns_file_name`, `dhcp_file_name`), or neither. A line that is neither is a host line.
  - A host line is an optional MAC, an IPv4 address and one or more names. A blank or comment-only host line becomes a `NoOp` entry.
  - After the last line, the parser checks that all four settings were given and that no section is still open.
- **Validation** (`src/validation.rs`).
  - Three scans look for a repeated MAC (compared lowercased), IP or host name, each stopping at the first repeat.
  - A final check requires the four settings to be non-empty.
- **Renderers** (`src/create_dns_config.rs`, `src/create_reverse_dns_config.rs`, `src/create_dhcp_config.rs`). Each writes its file as a sequence of lines.
  - DNS zone: an A record for each primary name and a CNAME for each alias, with the name column padded to one more than the longest name.
  - Reverse zone: one PTR record per host entry.
  - DHCP file: one five-line `host` block per host entry that has a MAC.

How it is modelled:

- Where the source updates variables step by step, the model has a method with a loop. This covers the parse loop, the three map-based uniqueness scans and the writers.
- Each such method is proved equal to a specification function, or to a declarative verdict.
- The properties are proved as lemmas about those functions:
  - the error cases of the parser;
  - what a successful parse contains;
  - the first-duplicate rule of the validator;
  - the layout, order and columns of each output file.
- The modules are `Wrappers`, `Text` (the string library calls the source relies on), `Address`, `Parser`, `Validation`, `Writer` (line output), `DnsConfig`, `ReverseDnsConfig` and `DhcpConfig`.
- `ValidationScenarios` runs the parse and the validation that `principal` (`src/lib.rs`) chains, on the texts of `tests/validation_tests.rs`.

The model follows these behaviours of the code, which a reader of the input format might not expect:

- A section ends at a line whose first whitespace-separated token is the end marker, not only at a line that is exactly the marker.
- Keywords are recognised from the first token of the raw line, not of the comment-stripped line.
- A host line is split on single spaces, as `split(' ')` does. A tab inside a host line is therefore part of a token.
- The IPv4 pattern accepts octets with leading zeros, such as `001`, because `[01]?[0-9][0-9]?` allows them.
- The writers write to fixed paths. They do not use the file-name settings.
- The host-name scan reports a name repeated within one entry as a duplicate whose current and earlier lines are the same line.

## Model

| member | source | states |
|---|---|---|
| Text.TrimIdempotent | src/parser.rs:154 | Trimming text that has already been trimmed changes nothing. This is why `process_line` can trim the comment-stripped text a second time. |
| Text.TrimEmpty | src/parser.rs:156 | The trimmed text is empty exactly when every character is whitespace. |
| Text.LinesOfUnlines | src/parser.rs:72 | Splitting a text made of lines joined by line feeds gives those lines back. This holds when no line holds a line feed or ends in a carriage return. |
| Text.PadRightSpec | src/create_dns_config.rs:30 | Padding to a width keeps the text whole and fills with spaces up to the width. Text longer than the width is never truncated. |
| Address.OctetIsByte | src/parser.rs:172 | The octet pattern accepts exactly the strings of one to three digits whose value is at most 255. |
| Address.IPv4IsNotMac | src/parser.rs:170-172 | No string matches both the IPv4 pattern and the MAC pattern. |
| Address.MacIsPlain | src/parser.rs:170 | A MAC contains no whitespace, space or `;`, and lowercasing leaves it unchanged. |
| Address.IPv4HostPart | src/create_reverse_dns_config.rs:19 | The text after the last dot of an IPv4 address is its last octet: one to three digits. |
| Parser.SettingOf | src/parser.rs:91-94 | A token selects a setting exactly when it is that setting's keyword. |
| Parser.SectionOf | src/parser.rs:87-89 | A token opens a section exactly when it is that section's start marker. |
| Parser.RemoveComment | src/parser.rs:132 | The result is the trimmed text before the first `;`. It contains no `;`. It is empty exactly when that text is all whitespace. |
| Parser.RemoveCommentExamples | src/parser.rs:213 | `"text ; comment"` becomes `"text"`. |
| Parser.RemoveCommentPlainExample | src/parser.rs:214 | `"text"` stays `"text"`. |
| Parser.RemoveCommentEmptyExamples | src/parser.rs:215-216 | `""` and `"; comment"` both become empty. |
| Parser.GetToken | src/parser.rs:151 | The result is the first whitespace-separated token, or empty when the line has none. |
| Parser.GetValue | src/parser.rs:134-149 | Succeeds exactly when the comment-stripped line has two tokens, and then returns the second token, which is non-empty and has no whitespace. Otherwise the error is `BadValueSpecifier` with the 1-based line, the text and the value's name. |
| Parser.ProcessLine | src/parser.rs:153-195 | A result keeps the line number and the text. Every error is one of `NoMacOrIp`, `NoIpAddress` and `NoServerNames`, carrying that line and text. |
| Parser.Classify | src/parser.rs:159-194 | The classification of the tokens keeps the line number and text, and fails only with one of the three host-line errors. |
| Parser.ProcessLineTerms | src/parser.rs:154-159 | A blank or comment-only line is a `NoOp`. Any other line is classified from its space-separated tokens. |
| Parser.ProcessLineNoOp | src/parser.rs:154-158 | A line becomes `NoOp` exactly when its comment-stripped text is empty. |
| Parser.ProcessLineClassification | src/parser.rs:175-192 | When the first token is neither a MAC nor an IPv4 address, the error is `NoMacOrIp`, and only then. When a MAC is not followed by an IPv4 address, the error is `NoIpAddress`, and only then. When the address has no name after it, the error is `NoServerNames`, and only then. Every success is a host entry. |
| Parser.ProcessLineLine | src/parser.rs:176-194 | A host entry's optional MAC, its IP and its names are exactly the line's tokens. The MAC is present exactly when the first token is one. The IP matches the pattern. There is at least one name, and every name is non-empty and space-free. |
| Parser.HostLineRoundTrip | src/parser.rs:153-195 | Printing an optional MAC, an IP and names as a host line and parsing it gives back exactly that entry. |
| Parser.NoMacOrIpLine | src/parser.rs:175-185 | Any line whose first space-separated term is neither a MAC nor an IPv4 address fails with `NoMacOrIp` at its line, whatever follows. |
| Parser.NoIpAddressLine | src/parser.rs:175-185 | Any line whose first term is a MAC and whose second term is missing or not an IPv4 address fails with `NoIpAddress`, not `NoMacOrIp`. |
| Parser.CommentedHostLineRoundTrip | src/parser.rs:153-195 | A host line followed by a blank and a `;` comment reads as the entry of the line alone. The entry keeps the whole text, comment included. |
| Parser.HostLineToken | src/parser.rs:151 | The first token of a host line, whatever follows it, is its MAC, or its IP when it has no MAC. |
| Parser.AddressNotKeyword | src/parser.rs:85-96 | No MAC or IPv4 address is a section marker or a setting keyword, so a line starting with one is read as a host line. |
| Parser.NoMacOrIpExample | src/parser.rs:224 | `" server.com ; comment"` on line 2 fails with `NoMacOrIp(2, …)`. |
| Parser.NoIpAddressExample | src/parser.rs:225 | `" 00:00:00:00:00:00 server.com ; comment"` on line 2 fails with `NoIpAddress(2, …)`. |
| Parser.AppendBlock | src/parser.rs:77-82 | A section line is added to the end of its own block. Every other block, the entries and the settings stay unchanged. |
| Parser.Set | src/parser.rs:91-94 | A setting line sets that setting. A later occurrence overwrites an earlier one. Nothing else changes. |
| Parser.StepInSection | src/parser.rs:76-83 | Inside a section, a line whose first token is that section's end marker closes the section. Any other line is stored verbatim. |
| Parser.StepOutside | src/parser.rs:85-98 | Outside a section:<br>- a start marker opens its section;<br>- a setting keyword stores the value or fails with the value error;<br>- any other line adds its parsed entry, numbered from 1, or fails with the host-line error.<br>The blocks are not touched. |
| Parser.StepEntries | src/parser.rs:96 | A step adds an entry exactly when it reads a host line outside a section, and then adds exactly one. |
| Parser.StepSettings | src/parser.rs:91-94 | A step changes a setting only on a setting line outside a section, and then to that line's value. |
| Parser.Finish | src/parser.rs:102-129 | After the last line:<br>- the missing domain is reported first, then the DNS, reverse DNS and DHCP file names, in that order;<br>- an open section is reported only when all settings are present;<br>- success returns the entries, the settings and the blocks. |
| Parser.Parse | src/parser.rs:61-130 | The loop over the lines returns the result of the specification fold over `Lines(content)`. |
| Parser.ParseStopsAtFirstError | src/parser.rs:91-96 | Once a prefix of the lines fails, the whole parse fails with that same error. |
| Parser.SettingLineStep | src/parser.rs:91-94 | Outside a section, a line made of a setting's keyword, a blank and a plain value assigns that value to that setting. |
| Parser.ScanAt | src/parser.rs:72-100 | A successful step on one line hands the rest of the loop the next line and the new state. |
| Parser.HostEntryStep | src/parser.rs:96 | Line `n` adds the entry `ProcessLine(n + 1, line)` exactly when it is read outside a section and is not a keyword. |
| Parser.ScanInvariant | src/parser.rs:71-100 | After any successful prefix:<br>- every entry is the parse of the line its number names;<br>- the entries' numbers strictly increase;<br>- every setting value is a non-empty single token. |
| Parser.ParseResult | src/parser.rs:72-128 | On success, every entry reads back from its own input line and the numbers strictly increase. The domain and the three file names are non-empty. |
| Parser.ScanHostEntries | src/parser.rs:71-100 | After any successful prefix, the entries are exactly those of the host lines in it, in line order. |
| Parser.ParseHostEntries | src/parser.rs:72-128 | On success, the entries are exactly `ProcessLine(n + 1, line n)` for each line `n` read outside a section that is not a keyword, in line order, and nothing else. |
| Parser.ParsedWellFormed | src/parser.rs:176-194 | On success, every host entry has an IPv4 address, a well-formed MAC when it has one, and at least one plain name. |
| Parser.ParsedHasNames | src/parser.rs:190-193 | On success, every host entry has a primary name. The renderers' `names[0]` relies on this. |
| Parser.SectionBody | src/parser.rs:77-82 | Inside a section, lines that do not end it are stored verbatim and in order, blank lines included. |
| Parser.SectionBlock | src/parser.rs:76-89 | A start marker, a body without the end marker, and the end marker capture exactly the body into that section's block. The parser then returns to host lines. |
| Validation.CheckUniqueMac | src/validation.rs:32-52 | The verdict on the entries' MACs, compared lowercased:<br>- Ok exactly when no MAC repeats;<br>- otherwise `DuplicateMacAddress` for the first repeat, with the current line, the earlier line and the MAC as written. |
| Validation.CheckUniqueIp | src/validation.rs:54-70 | The same verdict on IP addresses, as `DuplicateIpAddress`. |
| Validation.CheckUniqueHost | src/validation.rs:72-91 | The same verdict on all names, primary and aliases, in scan order, as `DuplicateHostName`. |
| Validation.CheckRequiredFields | src/validation.rs:93-107 | Ok exactly when the domain and the three file names are non-empty. Otherwise the error names the first empty one, in source order. |
| Validation.Validate | src/validation.rs:24-30 | Ok exactly when MACs, IPs and names are all distinct and the required fields are present. Otherwise the error is that of the first failing check, in the order MAC, IP, names, fields. |
| Validation.FirstRepeatUnique | src/validation.rs:36-48 | The first repeat is unique, so the reported duplicate is determined by the input. |
| Validation.RepeatLines | src/validation.rs:32-91 | For entries in line order, the earlier line of a reported duplicate is not after the current one. For MACs and IPs it is strictly before. It is the line of an entry that claims the same key. |
| Validation.ValidatedDistinct | src/validation.rs:24-91 | After the three scans pass, MACs differ lowercased, IPs differ, and no name occurs twice, whether in different entries or within one. |
| Validation.ParsedIsOrderedAndComplete | src/validation.rs:93-107 | The output of a successful parse always passes the required-fields check, and its entries are in strictly increasing line order. |
| ValidationScenarios.LaidOutSplits | src/parser.rs:72 | The text written from a registry laid out like the tests' splits back into its eight lines. |
| ValidationScenarios.ParseTestLines | src/parser.rs:61-130 | Three host lines, the first with a `;` comment, a blank line and the four setting lines parse to the three host entries numbered 1 to 3, a `NoOp` on line 4 and the four settings, with no blocks. |
| ValidationScenarios.FirstDuplicateIp | src/lib.rs:12-14 | Parsing such a text succeeds. When the MACs differ lowercased and the first two IPs agree, validation fails with `DuplicateIpAddress(2, 1, ip)`. |
| ValidationScenarios.FirstDuplicateMac | src/lib.rs:12-14 | Parsing such a text succeeds. When the first two MACs agree, validation fails with `DuplicateMacAddress(2, 1, mac)` before IPs and names are looked at. |
| ValidationScenarios.FirstDuplicateHostName | src/lib.rs:12-14 | Parsing such a text succeeds. When the MACs differ lowercased, the IPs differ and the first two names agree, validation fails with `DuplicateHostName(2, 1, name)`. |
| ValidationScenarios.DuplicateIpScenario | tests/validation_tests.rs:13-25 | The test's text, comment included, parses, and validation fails with the duplicate IP `10.0.0.1` on line 2, first seen on line 1. |
| ValidationScenarios.DuplicateMacScenario | tests/validation_tests.rs:27-40 | The test's text parses, and validation fails with the duplicate MAC `10:00:00:00:00:aa` on line 2, first seen on line 1. |
| ValidationScenarios.DuplicateHostNameScenario | tests/validation_tests.rs:42-55 | The test's text parses, and validation fails with the duplicate name `host1.net` on line 2, first seen on line 1. |
| Address.DottedQuad | src/parser.rs:172 | Four strings that each match the octet pattern, joined by dots, match the IPv4 pattern. |
| Writer.FilterKeeps | src/create_reverse_dns_config.rs:16-18 | Whatever holds of every entry, such as having a primary name, holds of every entry a filter keeps. |
| Writer.WriteLines | src/create_dns_config.rs:10-11 | Writing a block line by line appends exactly its lines, in order. |
| DnsConfig.LongestName | src/create_dns_config.rs:39 | No name of a list is longer than the result. |
| DnsConfig.LongestNameAttained | src/create_dns_config.rs:39 | Some name of the list has exactly that length. |
| DnsConfig.MaxNameLength | src/create_dns_config.rs:35-42 | No name of any host entry is longer than the result. |
| DnsConfig.MaxNameAttained | src/create_dns_config.rs:35-42 | When the result is positive, some name of some host entry has exactly that length. |
| DnsConfig.WriteIpGroup | src/create_dns_config.rs:26-33 | The group written is the A record for the first name followed by a CNAME to it for each further name. |
| DnsConfig.GroupShape | src/create_dns_config.rs:26-31 | A group has one record per name. It starts with the A record, and the `k`-th alias's CNAME is at position `k`. |
| DnsConfig.GroupColumns | src/create_dns_config.rs:29-31 | When no name is longer than `longest`, every record starts with its name, unshortened, followed by spaces up to column `longest + 1`, where ` IN ` starts. |
| DnsConfig.ARecordFields | src/create_dns_config.rs:30 | Split on spaces, an A record is exactly the name, `IN`, `A` and the IP. |
| DnsConfig.CnameRecordFields | src/create_dns_config.rs:31 | Split on spaces, a CNAME record is exactly the alias, `IN`, `CNAME` and the primary name. |
| DnsConfig.WriteDnsConfig | src/create_dns_config.rs:6-24 | The file written is the DNS zone: the prologue, the records of every entry and the epilogue. The column width comes from the longest name. |
| DnsConfig.WriteHosts | src/create_dns_config.rs:14-18 | The loop appends the records of every entry in entry order. A `NoOp` entry writes nothing. |
| DnsConfig.WriteEntry | src/create_dns_config.rs:15-17 | A host entry writes its group. A `NoOp` entry writes nothing. |
| DnsConfig.RecordCount | src/create_dns_config.rs:14-18 | The records number exactly the names of all host entries, for the whole list and for every prefix of it. |
| DnsConfig.DnsZoneLayout | src/create_dns_config.rs:10-21 | The zone is the prologue verbatim, one record per name and the epilogue verbatim. |
| DnsConfig.DnsZoneGroup | src/create_dns_config.rs:13-18 | Host entry `a`'s group follows the prologue and the records of the entries before it, so groups keep entry order. |
| DnsConfig.DnsZoneColumns | src/create_dns_config.rs:29-42 | Every record line has ` IN ` at the same column, one past the longest name. |
| ReverseDnsConfig.WriteReverseDnsConfig | src/create_reverse_dns_config.rs:9-28 | The file written is the reverse zone: the DNS prologue, then the PTR records of the entries. There is no epilogue. |
| ReverseDnsConfig.WritePtr | src/create_reverse_dns_config.rs:17-25 | A host entry writes the PTR record of its primary name. The target is `domain.` for `@` and `name.domain.` otherwise. |
| ReverseDnsConfig.ReverseZoneLayout | src/create_reverse_dns_config.rs:14-24 | The zone is the DNS prologue followed by exactly one PTR record per host entry, in entry order. `NoOp` entries write none. |
| ReverseDnsConfig.HostRecords | src/create_reverse_dns_config.rs:16-17 | The entries' records are those of the host entries alone: one each, in order. |
| ReverseDnsConfig.ReverseIgnoresAliases | src/create_reverse_dns_config.rs:18 | Aliases, MACs, line numbers and texts never reach the reverse zone. Entries that agree on their IP and primary name give the same zone. |
| ReverseDnsConfig.HostPartPlain | src/create_reverse_dns_config.rs:19 | The address field of a PTR record is one to three characters with no space. |
| ReverseDnsConfig.PtrRecordFields | src/create_reverse_dns_config.rs:19-23 | Split on spaces, a PTR record is exactly the last octet, `IN`, `PTR` and the target. |
| ReverseDnsConfig.PtrRecordColumn | src/create_reverse_dns_config.rs:19-23 | The padded octet is three characters wide, so ` IN PTR ` always starts at the fourth column. |
| DhcpConfig.WriteDhcpConfig | src/create_dhcp_config.rs:9-34 | The file written is the DHCP prologue followed by the reservation of every entry. |
| DhcpConfig.WriteHost | src/create_dhcp_config.rs:16-30 | A host entry with a MAC writes its block for the primary name. Any other entry writes nothing. |
| DhcpConfig.MacBlocks | src/create_dhcp_config.rs:15-29 | The entries' blocks are five lines per host entry with a MAC, in entry order. |
| DhcpConfig.ReservationsLayout | src/create_dhcp_config.rs:13-29 | The file is the DHCP prologue verbatim, then the `k`-th five-line block for the `k`-th entry with a MAC. Entries without a MAC write nothing. |
| DhcpConfig.ReservationsIgnoreAliases | src/create_dhcp_config.rs:17-18 | Aliases, IPs and line numbers never reach the reservations. Entries that agree on MAC and primary name give the same file. |
| DhcpConfig.HostBlockFields | src/create_dhcp_config.rs:19-29 | Split on spaces, a block is:<br>- a blank line;<br>- `host`, the block name and `{`;<br>- `hardware ethernet` and the MAC with `;`;<br>- `fixed-address` and the address with `;`;<br>- `}`. |

## Left out

- File output: each writer returns the lines it writes instead of creating a file. Line endings, the `BufWriter`, and the fixed output paths (`./db.ionescu`, `./db.0.0.10`, `./oi_reservations.conf`) are not modelled.
- Write errors: `writeln!` errors and their `?` propagation are not modelled, because writing a line to a sequence cannot fail.
- Driver glue: `src/main.rs` (reading the input file, reporting errors), `create_output_files` in `src/lib.rs` and `tests/common.rs` are not part of this model. Of `principal`, only the parse and the validation are modelled, in `ValidationScenarios`; the file output it then calls is left out as above.
- Regular expressions: the MAC and IPv4 patterns are modelled as predicates equivalent to them, not through a regex engine.
- Error messages: the display strings of the error enums are not modelled. The errors are compared by variant and payload, also where `tests/validation_tests.rs` compares the strings.
- `HashMap`: it is modelled as a Dafny `map` from key to entry. Hashing and iteration order play no part, because the scans only insert and look up.
- Validation.CheckUniqueMac: `to_lowercase` is modelled for ASCII letters only. Parsed MACs are lowercase hex, so the difference never shows on parser output.
- DnsConfig.MaxNameLength: requires a non-empty entry list in which every host entry has a name. On an empty list or an entry without names the source panics in `unwrap`. The same precondition is on `DnsConfig.DnsZone` and `DnsConfig.WriteDnsConfig`.
- ReverseDnsConfig.WriteReverseDnsConfig: requires every host entry to have a name. The source indexes `names[0]` and would panic; `Parser.ParsedHasNames` shows that parsed input always meets this. The same holds for `DhcpConfig.WriteDhcpConfig`.
- DnsConfig.DnsZoneColumns: widths count characters. The source pads by `char` count but measures the longest name with `len()`, which counts bytes, so the column argument holds for ASCII names only.
- Text.Lines: `str::lines` is modelled by its documented behaviour (split at `\n`, drop one `\r` before it, no final empty line), not by its implementation.
- `src/validation.rs` destructures each entry as a plain `Line` record, which does not match the `ProcessedLine` enum of `src/parser.rs`. The model reads it over the `Line` variant of the entries; `NoOp` entries claim no key.
- The `process` name imported by `src/lib.rs` is modelled as the parser's `parse`, which is `Parser.Parse`.
- Concrete reverse-zone and DHCP records for a literal `@` entry are not proved as examples. The general lemmas cover `@` through `PtrTarget`, `HostKey` and `FixedAddress`.
