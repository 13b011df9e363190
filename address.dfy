/**
 * The two address patterns a host line is classified by (src/parser.rs:170-172),
 * written out as predicates instead of regular expressions.
 */
module Address {
  import opened Text

  predicate IsDigit(c: char) { '0' <= c <= '9' }

  predicate IsLowerHex(c: char) { IsDigit(c) || 'a' <= c <= 'f' }

  /** `^([0-9a-f]{2}:){5}[0-9a-f]{2}$`: six pairs of lowercase hex digits
      joined by colons, the IEEE EUI-48 colon form. */
  predicate IsMac(s: string) {
    && |s| == 17
    && forall i :: 0 <= i < 17 ==> if i % 3 == 2 then s[i] == ':' else IsLowerHex(s[i])
  }

  /** `25[0-5] | 2[0-4][0-9] | [01]?[0-9][0-9]?`, one alternative per line. */
  predicate MatchesOctet(p: string) {
    || (|p| == 3 && p[0] == '2' && p[1] == '5' && '0' <= p[2] <= '5')
    || (|p| == 3 && p[0] == '2' && '0' <= p[1] <= '4' && IsDigit(p[2]))
    || (|p| == 1 && IsDigit(p[0]))
    || (|p| == 2 && IsDigit(p[0]) && IsDigit(p[1]))
    || (|p| == 2 && (p[0] == '0' || p[0] == '1') && IsDigit(p[1]))
    || (|p| == 3 && (p[0] == '0' || p[0] == '1') && IsDigit(p[1]) && IsDigit(p[2]))
  }

  /** `^(?:OCTET\.){3}OCTET$`: since no octet holds a dot, the string splits on
      dots into exactly four pieces, each matching the octet pattern. */
  predicate IsIPv4(s: string) {
    var parts := Split(s, Char('.'));
    |parts| == 4 && forall k :: 0 <= k < 4 ==> MatchesOctet(parts[k])
  }

  function DigitValue(c: char): (n: nat)
    requires IsDigit(c)
    ensures n <= 9
  {
    c as int - '0' as int
  }

  /** The decimal value of a string of digits. */
  function DecimalValue(p: string): (n: nat)
    requires forall i :: 0 <= i < |p| ==> IsDigit(p[i])
  {
    if p == [] then 0 else 10 * DecimalValue(p[..|p| - 1]) + DigitValue(p[|p| - 1])
  }

  /** The octet pattern accepts exactly the strings of one to three decimal
      digits whose value is at most 255, leading zeros included ("007"). */
  lemma OctetIsByte(p: string)
    ensures MatchesOctet(p) <==>
      && 1 <= |p| <= 3
      && (forall i :: 0 <= i < |p| ==> IsDigit(p[i]))
      && DecimalValue(p) <= 255
  {
    if 1 <= |p| <= 3 && forall i :: 0 <= i < |p| ==> IsDigit(p[i]) {
      assert DecimalValue(p[..1]) == DigitValue(p[0]) by {
        assert p[..1][..0] == [];
      }
      if |p| >= 2 {
        assert DecimalValue(p[..2]) == 10 * DigitValue(p[0]) + DigitValue(p[1]) by {
          assert p[..2][..1] == p[..1];
        }
      }
      if |p| == 3 {
        assert p[..|p|] == p;
        assert DecimalValue(p) == 100 * DigitValue(p[0]) + 10 * DigitValue(p[1]) + DigitValue(p[2]);
      } else if |p| == 2 {
        assert p[..|p|] == p;
      }
    }
  }

  /** An address of the MAC shape contains no character that the tokenisers,
      the comment stripper or the case folding treat specially. */
  lemma MacIsPlain(s: string)
    requires IsMac(s)
    ensures NoDelimiter(s, Whitespace) && NoDelimiter(s, Char(' ')) && NoDelimiter(s, Char(';'))
    ensures ToLower(s) == s
  {
    ToLowerUnchanged(s);
  }

  /** The MAC shape requires colons, the IPv4 shape allows only digits and dots,
      so no token is both. */
  lemma IPv4IsNotMac(s: string)
    requires IsIPv4(s)
    ensures !IsMac(s)
  {
    IPv4IsPlain(s);
    if |s| == 17 {
      assert IsDigit(s[2]) || s[2] == '.';
    }
  }

  /** An IPv4 address is free of whitespace and comment characters. */
  lemma IPv4IsPlain(s: string)
    requires IsIPv4(s)
    ensures NoDelimiter(s, Whitespace) && NoDelimiter(s, Char(' ')) && NoDelimiter(s, Char(';'))
    ensures forall i :: 0 <= i < |s| ==> IsDigit(s[i]) || s[i] == '.'
  {
    var parts := Split(s, Char('.'));
    JoinSplit(s, '.');
    JoinPlain(parts);
  }

  /** Four strings matching the octet pattern, joined by dots, form an IPv4 address. */
  lemma DottedQuad(octets: seq<string>)
    requires |octets| == 4 && forall k :: 0 <= k < 4 ==> MatchesOctet(octets[k])
    ensures IsIPv4(Join(octets, '.'))
  {
    forall k | 0 <= k < 4 ensures NoDelimiter(octets[k], Char('.')) {
      assert MatchesOctet(octets[k]);
    }
    SplitJoin(octets, '.', Char('.'));
  }

  lemma {:induction false} JoinPlain(parts: seq<string>)
    requires |parts| >= 1
    requires forall k :: 0 <= k < |parts| ==> MatchesOctet(parts[k])
    ensures forall i :: 0 <= i < |Join(parts, '.')| ==> IsDigit(Join(parts, '.')[i]) || Join(parts, '.')[i] == '.'
  {
    if |parts| > 1 {
      JoinPlain(parts[1..]);
      var j := Join(parts, '.');
      assert j == parts[0] + "." + Join(parts[1..], '.');
      forall i | 0 <= i < |j| ensures IsDigit(j[i]) || j[i] == '.' {
        if i < |parts[0]| { assert j[i] == parts[0][i]; }
        else if i > |parts[0]| { assert j[i] == Join(parts[1..], '.')[i - |parts[0]| - 1]; }
      }
    }
  }

  /** The text after the last dot of an IPv4 address is its fourth octet:
      one to three digits, at most 255, so it fits a field of width 3. */
  lemma IPv4HostPart(s: string)
    requires IsIPv4(s)
    ensures var h := LastField(s, '.');
      && h == Split(s, Char('.'))[3]
      && 1 <= |h| <= 3
      && (forall i :: 0 <= i < |h| ==> IsDigit(h[i]))
      && DecimalValue(h) <= 255
  {
    OctetIsByte(Split(s, Char('.'))[3]);
  }
}
