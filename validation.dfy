/**
 * The validator of src/validation.rs: three first-duplicate-wins uniqueness
 * scans over the host entries (MAC, then IP, then every name), then a check
 * that the four settings are non-empty.
 */
module Validation {
  import opened Wrappers
  import opened Text
  import opened Parser

  /** src/validation.rs:6-22; line numbers are those of the host entries. */
  datatype ValidationError =
    | DuplicateMacAddress(current: nat, earlier: nat, mac: string)
    | DuplicateIpAddress(current: nat, earlier: nat, ip: string)
    | DuplicateHostName(current: nat, earlier: nat, name: string)
    | MissingDomain
    | MissingDnsFileName
    | MissingReverseDnsFileName
    | MissingDhcpFileName

  /** Which uniqueness scan. */
  datatype Kind = Mac | Ip | Host

  /** The duplicate error each scan reports. */
  function Duplicate(kind: Kind, current: nat, earlier: nat, shown: string): ValidationError {
    match kind
    case Mac => DuplicateMacAddress(current, earlier, shown)
    case Ip => DuplicateIpAddress(current, earlier, shown)
    case Host => DuplicateHostName(current, earlier, shown)
  }

  // ---------------------------------------------------------------- claims

  /** One key a host entry claims: the map key, the entry's line number and
      the text the error shows. */
  datatype Claim = Claim(key: string, number: nat, shown: string)

  /** The keys one entry claims, in the order the scan inserts them: its MAC
      lowercased (if any), its IP, or each of its names. `NoOp` entries claim nothing. */
  function ClaimsOf(kind: Kind, e: ProcessedLine): (r: seq<Claim>)
    ensures forall k :: 0 <= k < |r| ==> r[k].number == e.number
    ensures kind == Host && e.Line? ==> |r| == |e.names|
  {
    if e.NoOp? then []
    else match kind
      case Mac => if e.mac.Some? then [Claim(ToLower(e.mac.value), e.number, e.mac.value)] else []
      case Ip => [Claim(e.ip, e.number, e.ip)]
      case Host => seq(|e.names|, k requires 0 <= k < |e.names| => Claim(e.names[k], e.number, e.names[k]))
  }

  /** The claims of all entries, in scan order. */
  function Claims(kind: Kind, entries: seq<ProcessedLine>): seq<Claim>
    decreases |entries|
  {
    if entries == [] then []
    else Claims(kind, entries[..|entries| - 1]) + ClaimsOf(kind, entries[|entries| - 1])
  }

  /** No two claims share a key. */
  predicate Distinct(claims: seq<Claim>) {
    forall a, b :: 0 <= a < b < |claims| ==> claims[a].key != claims[b].key
  }

  /** Claim `j` is the first whose key was claimed before, by claim `i`. */
  predicate FirstRepeat(claims: seq<Claim>, i: nat, j: nat) {
    i < j < |claims| && claims[i].key == claims[j].key && Distinct(claims[..j])
  }

  /** What a scan over `claims` returns: Ok when no key repeats, otherwise the
      error for the first repeat, showing the current line, the earlier line
      and the repeated text. */
  ghost predicate Verdict(kind: Kind, claims: seq<Claim>, r: Result<(), ValidationError>) {
    && (r.Ok? <==> Distinct(claims))
    && (r.Err? ==> exists i: nat, j: nat :: (FirstRepeat(claims, i, j)
         && r.error == Duplicate(kind, claims[j].number, claims[i].number, claims[j].shown)))
  }

  /** Claims of a prefix of the entries are a prefix of all claims. */
  lemma {:induction false} ClaimsPrefix(kind: Kind, entries: seq<ProcessedLine>, n: nat)
    requires n <= |entries|
    ensures var p := Claims(kind, entries[..n]); var all := Claims(kind, entries);
      |p| <= |all| && all[..|p|] == p
    decreases |entries|
  {
    if n < |entries| {
      var init := entries[..|entries| - 1];
      assert init[..n] == entries[..n];
      ClaimsPrefix(kind, init, n);
    } else {
      assert entries[..n] == entries;
    }
  }

  /** The claims of one more entry. */
  lemma ClaimsNext(kind: Kind, entries: seq<ProcessedLine>, n: nat)
    requires n < |entries|
    ensures Claims(kind, entries[..n + 1]) == Claims(kind, entries[..n]) + ClaimsOf(kind, entries[n])
  {
    assert entries[..n + 1][..n] == entries[..n];
  }

  /** The map of a uniqueness scan holds exactly the keys claimed so far, each
      with the entry that claimed it; the keys so far are distinct. */
  ghost predicate Tracks(uniq: map<string, ProcessedLine>, seen: seq<Claim>) {
    && Distinct(seen)
    && (forall a :: 0 <= a < |seen| ==> seen[a].key in uniq && uniq[seen[a].key].number == seen[a].number)
    && (forall key :: key in uniq ==> exists a :: 0 <= a < |seen| && seen[a].key == key)
  }

  /** Inserting a fresh key keeps the map in step with the claims. */
  lemma TracksInsert(uniq: map<string, ProcessedLine>, seen: seq<Claim>, c: Claim, e: ProcessedLine)
    requires Tracks(uniq, seen) && c.key !in uniq && e.number == c.number
    ensures Tracks(uniq[c.key := e], seen + [c])
  {
    var all := seen + [c];
    var after := uniq[c.key := e];
    forall key | key in after ensures exists a :: 0 <= a < |all| && all[a].key == key {
      if key == c.key {
        assert all[|seen|].key == key;
      } else {
        var a :| 0 <= a < |seen| && seen[a].key == key;
        assert all[a].key == key;
      }
    }
  }

  /** A key already in the map is the first repeat of the claims so far. */
  lemma TracksRepeat(uniq: map<string, ProcessedLine>, seen: seq<Claim>, c: Claim, all: seq<Claim>)
    requires Tracks(uniq, seen) && c.key in uniq
    requires |seen| < |all| && all[..|seen| + 1] == seen + [c]
    ensures all[|seen|] == c
    ensures exists i: nat :: FirstRepeat(all, i, |seen|) && uniq[c.key].number == all[i].number
  {
    var i :| 0 <= i < |seen| && seen[i].key == c.key;
    assert all[..|seen|] == seen;
    assert all[i] == seen[i] && all[|seen|] == c;
    assert FirstRepeat(all, i, |seen|);
  }

  /** A scan that inserted every claim has seen distinct keys. */
  lemma TracksAll(uniq: map<string, ProcessedLine>, kind: Kind, entries: seq<ProcessedLine>)
    requires Tracks(uniq, Claims(kind, entries[..|entries|]))
    ensures Verdict(kind, Claims(kind, entries), Ok(()))
  {
    assert entries[..|entries|] == entries;
  }

  /** The error for a first repeat is the scan's verdict. */
  lemma VerdictOfRepeat(kind: Kind, claims: seq<Claim>, i: nat, j: nat)
    requires FirstRepeat(claims, i, j)
    ensures Verdict(kind, claims, Err(Duplicate(kind, claims[j].number, claims[i].number, claims[j].shown)))
  {
  }

  /** An entry that claims nothing leaves the claims alone. */
  lemma ClaimsSkip(kind: Kind, entries: seq<ProcessedLine>, n: nat)
    requires n < |entries| && ClaimsOf(kind, entries[n]) == []
    ensures Claims(kind, entries[..n + 1]) == Claims(kind, entries[..n])
  {
    ClaimsNext(kind, entries, n);
    assert Claims(kind, entries[..n]) + [] == Claims(kind, entries[..n]);
  }

  /** A key already in the map is the first repeat of all claims, and the
      entry the map held for it is that of the earlier claim. */
  lemma RepeatAt(kind: Kind, all: seq<Claim>, seen: seq<Claim>, uniq: map<string, ProcessedLine>, c: Claim)
    requires Tracks(uniq, seen) && c.key in uniq
    requires |seen| < |all| && all[..|seen| + 1] == seen + [c]
    ensures Verdict(kind, all, Err(Duplicate(kind, c.number, uniq[c.key].number, c.shown)))
  {
    TracksRepeat(uniq, seen, c, all);
    var i: nat :| FirstRepeat(all, i, |seen|) && uniq[c.key].number == all[i].number;
    VerdictOfRepeat(kind, all, i, |seen|);
  }

  /** The same, for an entry that claims one key. */
  lemma ScanRepeat(kind: Kind, entries: seq<ProcessedLine>, n: nat, uniq: map<string, ProcessedLine>, c: Claim)
    requires n < |entries| && Tracks(uniq, Claims(kind, entries[..n])) && c.key in uniq
    requires ClaimsOf(kind, entries[n]) == [c]
    ensures Verdict(kind, Claims(kind, entries),
      Err(Duplicate(kind, c.number, uniq[c.key].number, c.shown)))
  {
    ClaimsNext(kind, entries, n);
    ClaimsPrefix(kind, entries, n + 1);
    RepeatAt(kind, Claims(kind, entries), Claims(kind, entries[..n]), uniq, c);
  }

  /** A fresh key extends the claims the map tracks. */
  lemma ScanInsert(kind: Kind, entries: seq<ProcessedLine>, n: nat, uniq: map<string, ProcessedLine>, c: Claim)
    requires n < |entries| && Tracks(uniq, Claims(kind, entries[..n])) && c.key !in uniq
    requires ClaimsOf(kind, entries[n]) == [c]
    ensures Tracks(uniq[c.key := entries[n]], Claims(kind, entries[..n + 1]))
  {
    ClaimsNext(kind, entries, n);
    assert ClaimsOf(kind, entries[n])[0] == c;
    TracksInsert(uniq, Claims(kind, entries[..n]), c, entries[n]);
  }

  // ---------------------------------------------------------------- the scans

  /** `check_unique_mac` (src/validation.rs:32-52): entries without a MAC are
      skipped; MACs are compared lowercased, and the error shows the MAC as written. */
  method CheckUniqueMac(info: ParsedInfo) returns (r: Result<(), ValidationError>)
    ensures Verdict(Mac, Claims(Mac, info.ipLines), r)
  {
    var entries := info.ipLines;
    var uniq: map<string, ProcessedLine> := map[];
    for i := 0 to |entries|
      invariant Tracks(uniq, Claims(Mac, entries[..i]))
    {
      var ipLine := entries[i];
      if ipLine.Line? && ipLine.mac.Some? {
        var mac := ipLine.mac.value;
        var key := ToLower(mac);
        ghost var before := uniq;
        // `insert` returns the entry the key had before, if any
        var previous := if key in uniq then Some(uniq[key]) else None;
        uniq := uniq[key := ipLine];
        if previous.Some? {
          ScanRepeat(Mac, entries, i, before, Claim(key, ipLine.number, mac));
          return Err(DuplicateMacAddress(ipLine.number, previous.value.number, mac));
        }
        ScanInsert(Mac, entries, i, before, Claim(key, ipLine.number, mac));
      } else {
        ClaimsSkip(Mac, entries, i);
      }
    }
    TracksAll(uniq, Mac, entries);
    return Ok(());
  }

  /** `check_unique_ip` (src/validation.rs:54-70): IPs are compared exactly. */
  method CheckUniqueIp(info: ParsedInfo) returns (r: Result<(), ValidationError>)
    ensures Verdict(Ip, Claims(Ip, info.ipLines), r)
  {
    var entries := info.ipLines;
    var uniq: map<string, ProcessedLine> := map[];
    for i := 0 to |entries|
      invariant Tracks(uniq, Claims(Ip, entries[..i]))
    {
      var ipLine := entries[i];
      if ipLine.Line? {
        ghost var before := uniq;
        var previous := if ipLine.ip in uniq then Some(uniq[ipLine.ip]) else None;
        uniq := uniq[ipLine.ip := ipLine];
        if previous.Some? {
          ScanRepeat(Ip, entries, i, before, Claim(ipLine.ip, ipLine.number, ipLine.ip));
          return Err(DuplicateIpAddress(ipLine.number, previous.value.number, ipLine.ip));
        }
        ScanInsert(Ip, entries, i, before, Claim(ipLine.ip, ipLine.number, ipLine.ip));
      } else {
        ClaimsSkip(Ip, entries, i);
      }
    }
    TracksAll(uniq, Ip, entries);
    return Ok(());
  }

  /** A prefix of `before + own` that ends inside `own`. */
  lemma PrefixInside(all: seq<Claim>, before: seq<Claim>, own: seq<Claim>, n: nat)
    requires n < |own| && |before| + |own| <= |all| && all[..|before| + |own|] == before + own
    ensures all[..|before| + n + 1] == before + own[..n] + [own[n]]
  {
    assert all[..|before| + n + 1] == (before + own)[..|before| + n + 1];
    assert (before + own)[..|before| + n + 1] == before + own[..n] + [own[n]];
  }

  /** The name claims made before name `n` of entry `i`, and that name's claim. */
  lemma NamePrefix(entries: seq<ProcessedLine>, i: nat, n: nat)
    requires i < |entries| && entries[i].Line? && n < |entries[i].names|
    ensures var e := entries[i]; var seen := Claims(Host, entries[..i]) + ClaimsOf(Host, e)[..n];
      var all := Claims(Host, entries);
      |seen| < |all| && all[..|seen| + 1] == seen + [Claim(e.names[n], e.number, e.names[n])]
  {
    var e := entries[i];
    var own := ClaimsOf(Host, e);
    ClaimsNext(Host, entries, i);
    ClaimsPrefix(Host, entries, i + 1);
    assert own[n] == Claim(e.names[n], e.number, e.names[n]);
    PrefixInside(Claims(Host, entries), Claims(Host, entries[..i]), own, n);
  }

  /** `check_unique_host` (src/validation.rs:72-91): every name of every entry,
      the alias names included, is one key; a name repeated within one entry
      reports that entry's line as both current and earlier. */
  method CheckUniqueHost(info: ParsedInfo) returns (r: Result<(), ValidationError>)
    ensures Verdict(Host, Claims(Host, info.ipLines), r)
  {
    var entries := info.ipLines;
    var uniq: map<string, ProcessedLine> := map[];
    for i := 0 to |entries|
      invariant Tracks(uniq, Claims(Host, entries[..i]))
    {
      var ipLine := entries[i];
      if ipLine.Line? {
        var number := ipLine.number;
        var names := ipLine.names;
        NamesStart(entries, i, uniq);
        for n := 0 to |names|
          invariant Tracks(uniq, Claims(Host, entries[..i]) + ClaimsOf(Host, ipLine)[..n])
        {
          var name := names[n];
          ghost var before := uniq;
          var previous := if name in uniq then Some(uniq[name]) else None;
          uniq := uniq[name := ipLine];
          if previous.Some? {
            NameRepeat(entries, i, n, before);
            return Err(DuplicateHostName(number, previous.value.number, name));
          }
          NameInsert(entries, i, n, before);
        }
        NamesDone(entries, i, uniq);
      } else {
        ClaimsSkip(Host, entries, i);
      }
    }
    TracksAll(uniq, Host, entries);
    return Ok(());
  }

  /** Before its first name, an entry has added no claim. */
  lemma NamesStart(entries: seq<ProcessedLine>, i: nat, uniq: map<string, ProcessedLine>)
    requires i < |entries| && Tracks(uniq, Claims(Host, entries[..i]))
    ensures Tracks(uniq, Claims(Host, entries[..i]) + ClaimsOf(Host, entries[i])[..0])
  {
    assert Claims(Host, entries[..i]) + ClaimsOf(Host, entries[i])[..0] == Claims(Host, entries[..i]);
  }

  /** After its last name, an entry has added all its claims. */
  lemma NamesDone(entries: seq<ProcessedLine>, i: nat, uniq: map<string, ProcessedLine>)
    requires i < |entries| && entries[i].Line?
    requires Tracks(uniq, Claims(Host, entries[..i]) + ClaimsOf(Host, entries[i])[..|entries[i].names|])
    ensures Tracks(uniq, Claims(Host, entries[..i + 1]))
  {
    var own := ClaimsOf(Host, entries[i]);
    assert own[..|entries[i].names|] == own;
    ClaimsNext(Host, entries, i);
  }

  /** A name already in the map is the first repeat of all name claims. */
  lemma NameRepeat(entries: seq<ProcessedLine>, i: nat, n: nat, uniq: map<string, ProcessedLine>)
    requires i < |entries| && entries[i].Line? && n < |entries[i].names|
    requires Tracks(uniq, Claims(Host, entries[..i]) + ClaimsOf(Host, entries[i])[..n])
    requires entries[i].names[n] in uniq
    ensures var e := entries[i]; Verdict(Host, Claims(Host, entries),
      Err(DuplicateHostName(e.number, uniq[e.names[n]].number, e.names[n])))
  {
    var e := entries[i];
    NamePrefix(entries, i, n);
    RepeatAt(Host, Claims(Host, entries), Claims(Host, entries[..i]) + ClaimsOf(Host, e)[..n], uniq,
      Claim(e.names[n], e.number, e.names[n]));
  }

  /** A fresh name extends the claims the map tracks. */
  lemma NameInsert(entries: seq<ProcessedLine>, i: nat, n: nat, uniq: map<string, ProcessedLine>)
    requires i < |entries| && entries[i].Line? && n < |entries[i].names|
    requires Tracks(uniq, Claims(Host, entries[..i]) + ClaimsOf(Host, entries[i])[..n])
    requires entries[i].names[n] !in uniq
    ensures Tracks(uniq[entries[i].names[n] := entries[i]], Claims(Host, entries[..i]) + ClaimsOf(Host, entries[i])[..n + 1])
  {
    var e := entries[i];
    var own := ClaimsOf(Host, e);
    var c := Claim(e.names[n], e.number, e.names[n]);
    var before := Claims(Host, entries[..i]);
    TracksInsert(uniq, before + own[..n], c, e);
    assert own[..n + 1] == own[..n] + [c];
    assert before + own[..n + 1] == before + own[..n] + [c];
  }

  // ---------------------------------------------------------------- required fields and the whole check

  /** `check_required_fields` (src/validation.rs:93-107): the first empty
      setting, in the order domain, DNS file, reverse DNS file, DHCP file. */
  function CheckRequiredFields(info: ParsedInfo): (r: Result<(), ValidationError>)
    ensures r.Ok? <==> info.domain != [] && info.dnsFileName != [] && info.reverseDnsFileName != [] && info.dhcpFileName != []
    ensures r == Err(MissingDomain) <==> info.domain == []
    ensures r == Err(MissingDnsFileName) <==> info.domain != [] && info.dnsFileName == []
    ensures r == Err(MissingReverseDnsFileName) <==>
      info.domain != [] && info.dnsFileName != [] && info.reverseDnsFileName == []
    ensures r == Err(MissingDhcpFileName) <==>
      info.domain != [] && info.dnsFileName != [] && info.reverseDnsFileName != [] && info.dhcpFileName == []
  {
    if info.domain == [] then Err(MissingDomain)
    else if info.dnsFileName == [] then Err(MissingDnsFileName)
    else if info.reverseDnsFileName == [] then Err(MissingReverseDnsFileName)
    else if info.dhcpFileName == [] then Err(MissingDhcpFileName)
    else Ok(())
  }

  /** `validate` (src/validation.rs:24-30): the MAC scan, then the IP scan,
      then the name scan, then the settings; the first failure is the result. */
  method Validate(info: ParsedInfo) returns (r: Result<(), ValidationError>)
    ensures r.Ok? <==> (Distinct(Claims(Mac, info.ipLines)) && Distinct(Claims(Ip, info.ipLines))
      && Distinct(Claims(Host, info.ipLines)) && CheckRequiredFields(info).Ok?)
    ensures !Distinct(Claims(Mac, info.ipLines)) ==> Verdict(Mac, Claims(Mac, info.ipLines), r)
    ensures Distinct(Claims(Mac, info.ipLines)) && !Distinct(Claims(Ip, info.ipLines)) ==>
      Verdict(Ip, Claims(Ip, info.ipLines), r)
    ensures (Distinct(Claims(Mac, info.ipLines)) && Distinct(Claims(Ip, info.ipLines))
      && !Distinct(Claims(Host, info.ipLines))) ==> Verdict(Host, Claims(Host, info.ipLines), r)
    ensures (Distinct(Claims(Mac, info.ipLines)) && Distinct(Claims(Ip, info.ipLines))
      && Distinct(Claims(Host, info.ipLines))) ==> r == CheckRequiredFields(info)
  {
    r := CheckUniqueMac(info);
    if r.Err? {
      return;
    }
    r := CheckUniqueIp(info);
    if r.Err? {
      return;
    }
    r := CheckUniqueHost(info);
    if r.Err? {
      return;
    }
    r := CheckRequiredFields(info);
  }

  // ---------------------------------------------------------------- properties

  /** The first repeat of a list of claims is unique, so the reported error is determined. */
  lemma FirstRepeatUnique(claims: seq<Claim>, i: nat, j: nat, i2: nat, j2: nat)
    requires FirstRepeat(claims, i, j) && FirstRepeat(claims, i2, j2)
    ensures i == i2 && j == j2
  {
  }

  /** Host entries in strictly increasing line order, as the parser produces them. */
  predicate Increasing(entries: seq<ProcessedLine>) {
    forall a, b :: 0 <= a < b < |entries| ==> entries[a].number < entries[b].number
  }

  /** Where the claims of entry `a` sit among all claims. */
  lemma ClaimsAt(kind: Kind, entries: seq<ProcessedLine>, a: nat)
    requires a < |entries|
    ensures var off := |Claims(kind, entries[..a])|; var own := ClaimsOf(kind, entries[a]);
      off + |own| == |Claims(kind, entries[..a + 1])| <= |Claims(kind, entries)|
      && Claims(kind, entries)[off..off + |own|] == own
  {
    ClaimsNext(kind, entries, a);
    ClaimsPrefix(kind, entries, a + 1);
    var off := |Claims(kind, entries[..a])|;
    var own := ClaimsOf(kind, entries[a]);
    var all := Claims(kind, entries);
    assert all[off..off + |own|] == all[..off + |own|][off..];
  }

  /** Claims of a shorter prefix are no more than those of a longer one. */
  lemma ClaimsGrow(kind: Kind, entries: seq<ProcessedLine>, a: nat, b: nat)
    requires a <= b <= |entries|
    ensures |Claims(kind, entries[..a])| <= |Claims(kind, entries[..b])|
  {
    assert entries[..b][..a] == entries[..a];
    ClaimsPrefix(kind, entries[..b], a);
  }

  /** Every claim comes from an entry: the `k`-th claim of entry `a`. */
  lemma {:induction false} ClaimSource(kind: Kind, entries: seq<ProcessedLine>, c: nat) returns (a: nat, k: nat)
    requires c < |Claims(kind, entries)|
    ensures a < |entries| && k < |ClaimsOf(kind, entries[a])|
    ensures ClaimsOf(kind, entries[a])[k] == Claims(kind, entries)[c]
    decreases |entries|
  {
    var n := |entries| - 1;
    var init := entries[..n];
    var head := Claims(kind, init);
    if c < |head| {
      a, k := ClaimSource(kind, init, c);
      assert init[a] == entries[a];
    } else {
      a, k := n, c - |head|;
    }
  }

  /** Claims of entries whose lines are all before `bound` are all before it. */
  lemma {:induction false} ClaimsBelow(kind: Kind, entries: seq<ProcessedLine>, bound: int)
    requires forall a :: 0 <= a < |entries| ==> entries[a].number < bound
    ensures forall c :: 0 <= c < |Claims(kind, entries)| ==> Claims(kind, entries)[c].number < bound
  {
    forall c | 0 <= c < |Claims(kind, entries)| ensures Claims(kind, entries)[c].number < bound {
      var a, k := ClaimSource(kind, entries, c);
    }
  }

  /** On entries in line order the claims are in line order too, strictly so
      for MACs and IPs, where an entry claims at most one key. */
  lemma {:induction false} ClaimsOrdered(kind: Kind, entries: seq<ProcessedLine>)
    requires Increasing(entries)
    ensures forall c1, c2 :: 0 <= c1 < c2 < |Claims(kind, entries)| ==>
      Claims(kind, entries)[c1].number <= Claims(kind, entries)[c2].number
      && (kind != Host ==> Claims(kind, entries)[c1].number < Claims(kind, entries)[c2].number)
    decreases |entries|
  {
    if entries != [] {
      var n := |entries| - 1;
      var init := entries[..n];
      ClaimsOrdered(kind, init);
      ClaimsBelow(kind, init, entries[n].number);
      var cl := Claims(kind, entries);
      var head := Claims(kind, init);
      var own := ClaimsOf(kind, entries[n]);
      assert cl == head + own;
      forall c1, c2 | 0 <= c1 < c2 < |cl|
        ensures cl[c1].number <= cl[c2].number && (kind != Host ==> cl[c1].number < cl[c2].number)
      {
        if c2 < |head| {
          assert cl[c1] == head[c1] && cl[c2] == head[c2];
        } else if c1 < |head| {
          assert cl[c1] == head[c1] && cl[c2] == own[c2 - |head|];
        } else {
          assert cl[c1] == own[c1 - |head|] && cl[c2] == own[c2 - |head|];
        }
      }
    }
  }

  /** In a duplicate error over entries in line order, the earlier line is
      at most the current one (strictly before it for MACs and IPs), and it
      is the line of entry `a`, whose `k`-th claim has the repeated key. */
  lemma RepeatLines(kind: Kind, entries: seq<ProcessedLine>, i: nat, j: nat) returns (a: nat, k: nat)
    requires Increasing(entries) && FirstRepeat(Claims(kind, entries), i, j)
    ensures Claims(kind, entries)[i].number <= Claims(kind, entries)[j].number
    ensures kind != Host ==> Claims(kind, entries)[i].number < Claims(kind, entries)[j].number
    ensures a < |entries| && k < |ClaimsOf(kind, entries[a])|
    ensures entries[a].number == Claims(kind, entries)[i].number
    ensures ClaimsOf(kind, entries[a])[k].key == Claims(kind, entries)[j].key
  {
    ClaimsOrdered(kind, entries);
    a, k := ClaimSource(kind, entries, i);
  }

  /** The `k`-th claim of entry `a` sits at the number of claims before `a`, plus `k`. */
  lemma ClaimAt(kind: Kind, entries: seq<ProcessedLine>, a: nat, k: nat)
    requires a < |entries| && k < |ClaimsOf(kind, entries[a])|
    ensures |Claims(kind, entries[..a])| + |ClaimsOf(kind, entries[a])| <= |Claims(kind, entries)|
    ensures Claims(kind, entries)[|Claims(kind, entries[..a])| + k] == ClaimsOf(kind, entries[a])[k]
  {
    ClaimsAt(kind, entries, a);
    var all := Claims(kind, entries);
    var off := |Claims(kind, entries[..a])|;
    var own := ClaimsOf(kind, entries[a]);
    SliceIndex(all, off, |own|, k);
  }

  /** An element of a slice is the element of the whole list it was taken from. */
  lemma SliceIndex<U>(s: seq<U>, i: nat, n: nat, k: nat)
    requires i + n <= |s| && k < n
    ensures s[i..i + n][k] == s[i + k]
  {
  }

  /** Two claims of different entries, or two of the same entry, are two claims of the list. */
  lemma ClaimsApart(kind: Kind, entries: seq<ProcessedLine>, a: nat, b: nat, ka: nat, kb: nat)
    requires a <= b < |entries| && ka < |ClaimsOf(kind, entries[a])| && kb < |ClaimsOf(kind, entries[b])|
    requires a < b || ka < kb
    ensures var cl := Claims(kind, entries); var oa := |Claims(kind, entries[..a])|;
      var ob := |Claims(kind, entries[..b])|;
      oa + ka < ob + kb < |cl| && cl[oa + ka] == ClaimsOf(kind, entries[a])[ka]
      && cl[ob + kb] == ClaimsOf(kind, entries[b])[kb]
  {
    ClaimAt(kind, entries, a, ka);
    ClaimAt(kind, entries, b, kb);
    if a < b {
      ClaimsNext(kind, entries, a);
      ClaimsGrow(kind, entries, a + 1, b);
    }
  }

  /** Distinct claims are distinct across entries and within each entry. */
  lemma DistinctEntries(kind: Kind, entries: seq<ProcessedLine>)
    requires Distinct(Claims(kind, entries))
    ensures forall a, b, ka, kb :: (0 <= a <= b < |entries| && 0 <= ka < |ClaimsOf(kind, entries[a])|
      && 0 <= kb < |ClaimsOf(kind, entries[b])| && (a < b || ka < kb)) ==>
        ClaimsOf(kind, entries[a])[ka].key != ClaimsOf(kind, entries[b])[kb].key
  {
    forall a, b, ka, kb | 0 <= a <= b < |entries| && 0 <= ka < |ClaimsOf(kind, entries[a])|
      && 0 <= kb < |ClaimsOf(kind, entries[b])| && (a < b || ka < kb)
      ensures ClaimsOf(kind, entries[a])[ka].key != ClaimsOf(kind, entries[b])[kb].key
    {
      ClaimsApart(kind, entries, a, b, ka, kb);
    }
  }

  /** After a successful validation, MACs (lowercased), IPs and names are
      pairwise distinct over all host entries, a name also within one entry,
      and all four settings are non-empty. */
  lemma ValidatedDistinct(info: ParsedInfo)
    requires Distinct(Claims(Mac, info.ipLines)) && Distinct(Claims(Ip, info.ipLines))
    requires Distinct(Claims(Host, info.ipLines))
    ensures var e := info.ipLines;
      forall a, b :: 0 <= a < b < |e| && e[a].Line? && e[b].Line? && e[a].mac.Some? && e[b].mac.Some? ==>
        ToLower(e[a].mac.value) != ToLower(e[b].mac.value)
    ensures var e := info.ipLines;
      forall a, b :: 0 <= a < b < |e| && e[a].Line? && e[b].Line? ==> e[a].ip != e[b].ip
    ensures var e := info.ipLines;
      forall a, b, ka, kb :: (0 <= a < b < |e| && e[a].Line? && e[b].Line?
        && 0 <= ka < |e[a].names| && 0 <= kb < |e[b].names|) ==> e[a].names[ka] != e[b].names[kb]
    ensures var e := info.ipLines;
      forall a, ka, kb :: 0 <= a < |e| && e[a].Line? && 0 <= ka < kb < |e[a].names| ==>
        e[a].names[ka] != e[a].names[kb]
  {
    var e := info.ipLines;
    DistinctEntries(Mac, e);
    DistinctEntries(Ip, e);
    DistinctEntries(Host, e);
    forall a, b | 0 <= a < b < |e| && e[a].Line? && e[b].Line? && e[a].mac.Some? && e[b].mac.Some?
      ensures ToLower(e[a].mac.value) != ToLower(e[b].mac.value)
    {
      assert ClaimsOf(Mac, e[a])[0].key == ToLower(e[a].mac.value);
      assert ClaimsOf(Mac, e[b])[0].key == ToLower(e[b].mac.value);
    }
    forall a, b | 0 <= a < b < |e| && e[a].Line? && e[b].Line? ensures e[a].ip != e[b].ip {
      assert ClaimsOf(Ip, e[a])[0].key == e[a].ip;
      assert ClaimsOf(Ip, e[b])[0].key == e[b].ip;
    }
    forall a, b, ka, kb | 0 <= a < b < |e| && e[a].Line? && e[b].Line?
      && 0 <= ka < |e[a].names| && 0 <= kb < |e[b].names|
      ensures e[a].names[ka] != e[b].names[kb]
    {
      assert ClaimsOf(Host, e[a])[ka].key == e[a].names[ka];
      assert ClaimsOf(Host, e[b])[kb].key == e[b].names[kb];
    }
    forall a, ka, kb | 0 <= a < |e| && e[a].Line? && 0 <= ka < kb < |e[a].names|
      ensures e[a].names[ka] != e[a].names[kb]
    {
      assert ClaimsOf(Host, e[a])[ka].key == e[a].names[ka];
      assert ClaimsOf(Host, e[a])[kb].key == e[a].names[kb];
    }
  }

  /** What the parser hands over always has its settings present and its
      entries in line order, so only the uniqueness scans can fail on it. */
  lemma ParsedIsOrderedAndComplete(lines: seq<string>)
    requires ParseLines(lines).Ok?
    ensures Increasing(ParseLines(lines).value.ipLines)
    ensures CheckRequiredFields(ParseLines(lines).value) == Ok(())
  {
    ParseResult(lines);
  }
}
