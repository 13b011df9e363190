/**
 * The string primitives of Rust's standard library that the parser and the
 * renderers rely on: `char::is_whitespace`, `str::trim`, `str::split`,
 * `str::split_whitespace`, `str::lines` and `{:width$}` padding.
 * Strings are sequences of Unicode scalar values, as Dafny's `string` is.
 */
module Text {

  /** `char::is_whitespace`: the characters with the Unicode White_Space property. */
  predicate IsWhitespace(c: char) {
    || c == ' '
    || ('\t' <= c <= '\r')
    || c == '\U{85}' || c == '\U{A0}' || c == '\U{1680}'
    || ('\U{2000}' <= c <= '\U{200A}')
    || c == '\U{2028}' || c == '\U{2029}' || c == '\U{202F}' || c == '\U{205F}' || c == '\U{3000}'
  }

  predicate AllWhitespace(s: string) {
    forall i :: 0 <= i < |s| ==> IsWhitespace(s[i])
  }

  /** The index of the first non-whitespace character at or after `i`. */
  function SkipForward(s: string, i: nat): (j: nat)
    requires i <= |s|
    ensures i <= j <= |s|
    ensures forall k :: i <= k < j ==> IsWhitespace(s[k])
    ensures j < |s| ==> !IsWhitespace(s[j])
    decreases |s| - i
  {
    if i == |s| || !IsWhitespace(s[i]) then i else SkipForward(s, i + 1)
  }

  /** The index just past the last non-whitespace character in `s[lo..j]`,
      or `lo` when there is none. */
  function SkipBackward(s: string, j: nat, lo: nat): (k: nat)
    requires lo <= j <= |s|
    ensures lo <= k <= j
    ensures forall m :: k <= m < j ==> IsWhitespace(s[m])
    ensures k > lo ==> !IsWhitespace(s[k - 1])
    decreases j
  {
    if j == lo || !IsWhitespace(s[j - 1]) then j else SkipBackward(s, j - 1, lo)
  }

  /** Where the trimmed text starts and ends. */
  function TrimStartIndex(s: string): nat
    ensures TrimStartIndex(s) <= |s|
  {
    SkipForward(s, 0)
  }

  function TrimEndIndex(s: string): nat
    ensures TrimStartIndex(s) <= TrimEndIndex(s) <= |s|
  {
    SkipBackward(s, |s|, TrimStartIndex(s))
  }

  /** `str::trim`: the slice of `s` between its leading and its trailing whitespace. */
  function Trim(s: string): (r: string)
  {
    s[TrimStartIndex(s)..TrimEndIndex(s)]
  }

  /** Trim removes only whitespace, from both ends, and leaves none at either end. */
  lemma TrimSpec(s: string)
    ensures var r := Trim(s); var a := TrimStartIndex(s); var b := TrimEndIndex(s);
      && r == s[a..b]
      && (forall i :: 0 <= i < a ==> IsWhitespace(s[i]))
      && (forall i :: b <= i < |s| ==> IsWhitespace(s[i]))
      && (r == [] || (!IsWhitespace(r[0]) && !IsWhitespace(r[|r| - 1])))
  {
  }

  /** A string is trimmed to nothing exactly when it is all whitespace. */
  lemma TrimEmpty(s: string)
    ensures Trim(s) == [] <==> AllWhitespace(s)
  {
    TrimSpec(s);
  }

  /** Trimming adds no character. */
  lemma TrimKeepsOut(s: string, d: Delimiter)
    requires NoDelimiter(s, d)
    ensures NoDelimiter(Trim(s), d)
  {
    var a := TrimStartIndex(s);
    var r := Trim(s);
    forall i | 0 <= i < |r| ensures !IsDelimiter(r[i], d) {
      assert r[i] == s[a + i];
    }
  }

  /** A string with no whitespace at its ends is its own trim. */
  lemma TrimUnchanged(s: string)
    requires s == [] || (!IsWhitespace(s[0]) && !IsWhitespace(s[|s| - 1]))
    ensures Trim(s) == s
  {
    assert s[0..|s|] == s;
  }

  /** A non-empty trimmed string starts with a non-whitespace character. */
  lemma TrimStarts(s: string)
    requires Trim(s) != []
    ensures !IsWhitespace(Trim(s)[0])
  {
    TrimSpec(s);
  }

  /** Trimming twice is trimming once. */
  lemma TrimIdempotent(s: string)
    ensures Trim(Trim(s)) == Trim(s)
  {
    TrimSpec(s);
    TrimUnchanged(Trim(s));
  }

  /** What `str::split` splits on: one given character, or any whitespace. */
  datatype Delimiter = Char(c: char) | Whitespace

  predicate IsDelimiter(x: char, d: Delimiter) {
    match d
    case Char(c) => x == c
    case Whitespace => IsWhitespace(x)
  }

  predicate NoDelimiter(s: string, d: Delimiter) {
    forall i :: 0 <= i < |s| ==> !IsDelimiter(s[i], d)
  }

  /** The index of the first delimiter in `s`, or `|s|` when there is none. */
  function Find(s: string, d: Delimiter): (i: nat)
    ensures i <= |s|
    ensures i < |s| ==> IsDelimiter(s[i], d)
    ensures forall k :: 0 <= k < i ==> !IsDelimiter(s[k], d)
  {
    FindFrom(s, 0, d)
  }

  function FindFrom(s: string, from: nat, d: Delimiter): (i: nat)
    requires from <= |s|
    ensures from <= i <= |s|
    ensures i < |s| ==> IsDelimiter(s[i], d)
    ensures forall k :: from <= k < i ==> !IsDelimiter(s[k], d)
    decreases |s| - from
  {
    if from == |s| || IsDelimiter(s[from], d) then from else FindFrom(s, from + 1, d)
  }

  /** `str::split` with a char or `char::is_whitespace` pattern: the pieces
      between delimiters, empty pieces included, so there is always one more
      piece than there are delimiters. */
  function Split(s: string, d: Delimiter): (r: seq<string>)
    ensures |r| >= 1
    decreases |s|
  {
    var i := Find(s, d);
    if i == |s| then [s] else [s[..i]] + Split(s[i + 1..], d)
  }

  /** No piece of a split holds a delimiter. */
  lemma {:induction false} SplitPieces(s: string, d: Delimiter)
    ensures forall k :: 0 <= k < |Split(s, d)| ==> NoDelimiter(Split(s, d)[k], d)
    decreases |s|
  {
    var i := Find(s, d);
    if i < |s| {
      SplitPieces(s[i + 1..], d);
      assert Split(s, d) == [s[..i]] + Split(s[i + 1..], d);
    }
  }

  /** The first piece of a split is the text before the first delimiter. */
  lemma SplitFirst(s: string, d: Delimiter)
    ensures Split(s, d)[0] == s[..Find(s, d)]
  {
    var i := Find(s, d);
    if i == |s| { assert s[..i] == s; }
  }

  /** `sep.join(pieces)`, for a one-character separator. */
  function Join(pieces: seq<string>, sep: char): (r: string)
    requires |pieces| >= 1
  {
    if |pieces| == 1 then pieces[0] else pieces[0] + [sep] + Join(pieces[1..], sep)
  }

  /** Joining the pieces of a split on a character gives back the string. */
  lemma {:induction false} JoinSplit(s: string, c: char)
    ensures Join(Split(s, Char(c)), c) == s
    decreases |s|
  {
    var i := Find(s, Char(c));
    var pieces := Split(s, Char(c));
    if i < |s| {
      var rest := s[i + 1..];
      var tail := Split(rest, Char(c));
      assert pieces == [s[..i]] + tail;
      assert pieces[1..] == tail;
      JoinSplit(rest, c);
      assert Join(pieces, c) == s[..i] + [c] + Join(tail, c);
      assert s == s[..i] + [c] + rest;
    } else {
      assert pieces == [s];
    }
  }

  /** Splitting pieces joined by a delimiter character gives back the pieces. */
  lemma {:induction false} SplitJoin(pieces: seq<string>, sep: char, d: Delimiter)
    requires |pieces| >= 1
    requires IsDelimiter(sep, d)
    requires forall k :: 0 <= k < |pieces| ==> NoDelimiter(pieces[k], d)
    ensures Split(Join(pieces, sep), d) == pieces
  {
    var s := Join(pieces, sep);
    var p := pieces[0];
    FindFirst(s, p, d);
    if |pieces| > 1 {
      SplitJoin(pieces[1..], sep, d);
      assert s[|p| + 1..] == Join(pieces[1..], sep);
    }
  }

  /** When `s` starts with a delimiter-free `p` followed by a delimiter (or ends), Find is `|p|`. */
  lemma FindFirst(s: string, p: string, d: Delimiter)
    requires |p| <= |s| && s[..|p|] == p && NoDelimiter(p, d)
    requires |p| < |s| ==> IsDelimiter(s[|p|], d)
    ensures Find(s, d) == |p|
  {
  }

  /** The non-empty strings of `pieces`, in order (`.filter(|x| !x.is_empty())`). */
  function NonEmpty(pieces: seq<string>): (r: seq<string>)
    ensures |r| <= |pieces|
  {
    if pieces == [] then []
    else if pieces[0] == [] then NonEmpty(pieces[1..])
    else [pieces[0]] + NonEmpty(pieces[1..])
  }

  /** The filter keeps exactly the non-empty pieces: each element it keeps is a
      non-empty piece, and a list without empty pieces is kept whole. */
  lemma {:induction false} NonEmptySpec(pieces: seq<string>)
    ensures forall k :: 0 <= k < |NonEmpty(pieces)| ==>
      NonEmpty(pieces)[k] != [] && NonEmpty(pieces)[k] in pieces
    ensures (forall k :: 0 <= k < |pieces| ==> pieces[k] != []) ==> NonEmpty(pieces) == pieces
  {
    if pieces != [] {
      NonEmptySpec(pieces[1..]);
      if pieces[0] != [] {
        assert NonEmpty(pieces) == [pieces[0]] + NonEmpty(pieces[1..]);
      }
    }
  }

  /** `s.split(d).filter(|x| !x.is_empty())`; with `Whitespace` this is `split_whitespace`. */
  function Tokens(s: string, d: Delimiter): (r: seq<string>)
  {
    NonEmpty(Split(s, d))
  }

  /** Every token is non-empty and free of delimiters. */
  lemma TokensSpec(s: string, d: Delimiter)
    ensures forall k :: 0 <= k < |Tokens(s, d)| ==> Tokens(s, d)[k] != [] && NoDelimiter(Tokens(s, d)[k], d)
  {
    SplitPieces(s, d);
    NonEmptySpec(Split(s, d));
  }

  /** Words joined by single spaces tokenise back to those words. */
  lemma TokensOfJoin(words: seq<string>, d: Delimiter)
    requires |words| >= 1
    requires IsDelimiter(' ', d)
    requires forall k :: 0 <= k < |words| ==> words[k] != [] && NoDelimiter(words[k], d)
    ensures Tokens(Join(words, ' '), d) == words
  {
    SplitJoin(words, ' ', d);
    NonEmptySpec(words);
  }

  /** A string with no delimiter in it, and not empty, is one token. */
  lemma TokensOfWord(w: string, d: Delimiter)
    requires w != [] && NoDelimiter(w, d)
    ensures Tokens(w, d) == [w]
  {
    FindFirst(w, w, d);
  }

  /** The empty string has no token. */
  lemma TokensOfEmpty(d: Delimiter)
    ensures Tokens([], d) == []
  {
    assert Split([], d) == [[]];
  }

  /** Drops one `'\r'` from the end, as `str::lines` does before a `'\n'`. */
  function StripCarriageReturn(s: string): (r: string)
  {
    if s != [] && s[|s| - 1] == '\r' then s[..|s| - 1] else s
  }

  /** `str::lines`: the line ending is `"\n"` or `"\r\n"`; the last line's ending
      is optional, so a final empty piece is not a line. */
  function Lines(s: string): (r: seq<string>)
    decreases |s|
  {
    if s == [] then []
    else
      var i := Find(s, Char('\n'));
      if i == |s| then [s] else [StripCarriageReturn(s[..i])] + Lines(s[i + 1..])
  }

  /** The text of lines written one after the other, each followed by `'\n'`
      (what a sequence of `writeln!` produces). */
  function Unlines(lines: seq<string>): (r: string)
  {
    if lines == [] then [] else lines[0] + "\n" + Unlines(lines[1..])
  }

  /** `Lines` recovers lines written with `writeln!`, provided no line holds a
      `'\n'` or ends in a `'\r'`. */
  lemma {:induction false} LinesOfUnlines(lines: seq<string>)
    requires forall k :: 0 <= k < |lines| ==> NoDelimiter(lines[k], Char('\n'))
    requires forall k :: 0 <= k < |lines| ==> lines[k] == [] || lines[k][|lines[k]| - 1] != '\r'
    ensures Lines(Unlines(lines)) == lines
  {
    if lines != [] {
      var s := Unlines(lines);
      var l := lines[0];
      FindFirst(s, l, Char('\n'));
      assert s[..|l|] == l;
      assert s[|l| + 1..] == Unlines(lines[1..]);
      LinesOfUnlines(lines[1..]);
    }
  }

  /** `n` spaces. */
  function Spaces(n: nat): (r: string)
    ensures |r| == n && forall i :: 0 <= i < n ==> r[i] == ' '
  {
    if n == 0 then [] else Spaces(n - 1) + " "
  }

  /** `format!("{:w$}", s)`: left-aligned, padded with spaces to at least `w`
      characters, never truncated. */
  function PadRight(s: string, w: nat): (r: string)
  {
    if |s| < w then s + Spaces(w - |s|) else s
  }

  /** Padding keeps the whole string, adds only spaces, and reaches the width. */
  lemma PadRightSpec(s: string, w: nat)
    ensures var r := PadRight(s, w);
      && |r| == (if |s| < w then w else |s|)
      && r[..|s|] == s
      && forall i :: |s| <= i < |r| ==> r[i] == ' '
  {
  }

  /** Splitting at a delimiter splits the two sides independently. */
  lemma {:induction false} SplitAround(a: string, c: char, b: string, d: Delimiter)
    requires IsDelimiter(c, d)
    ensures Split(a + [c] + b, d) == Split(a, d) + Split(b, d)
    decreases |a|
  {
    var i := Find(a, d);
    if i == |a| {
      SplitAroundWord(a, c, b, d);
    } else {
      var t := a[i + 1..];
      SplitAroundStep(a, c, b, d);
      SplitAround(t, c, b, d);
      var first := [a[..i]];
      assert first + (Split(t, d) + Split(b, d)) == (first + Split(t, d)) + Split(b, d);
    }
  }

  /** With no delimiter in `a`, `a` is the first piece. */
  lemma SplitAroundWord(a: string, c: char, b: string, d: Delimiter)
    requires IsDelimiter(c, d) && Find(a, d) == |a|
    ensures Split(a + [c] + b, d) == [a] + Split(b, d)
    ensures Split(a, d) == [a]
  {
    var s := a + [c] + b;
    assert s[..|a|] == a;
    FindFirst(s, a, d);
    assert s[|a| + 1..] == b;
  }

  /** With a delimiter in `a`, the first piece is the same on both sides. */
  lemma SplitAroundStep(a: string, c: char, b: string, d: Delimiter)
    requires IsDelimiter(c, d) && Find(a, d) < |a|
    ensures var i := Find(a, d);
      && Split(a + [c] + b, d) == [a[..i]] + Split(a[i + 1..] + [c] + b, d)
      && Split(a, d) == [a[..i]] + Split(a[i + 1..], d)
  {
    var s := a + [c] + b;
    var i := Find(a, d);
    assert s[..i] == a[..i];
    FindFirst(s, a[..i], d);
    assert s[i + 1..] == a[i + 1..] + [c] + b;
  }

  /** The filter distributes over concatenation. */
  lemma {:induction false} NonEmptyAppend(p: seq<string>, q: seq<string>)
    ensures NonEmpty(p + q) == NonEmpty(p) + NonEmpty(q)
    decreases |p|
  {
    if p != [] {
      NonEmptyAppend(p[1..], q);
      assert (p + q)[1..] == p[1..] + q;
    } else {
      assert p + q == q;
    }
  }

  /** Tokenising at a delimiter tokenises the two sides independently. */
  lemma TokensAround(a: string, c: char, b: string, d: Delimiter)
    requires IsDelimiter(c, d)
    ensures Tokens(a + [c] + b, d) == Tokens(a, d) + Tokens(b, d)
  {
    SplitAround(a, c, b, d);
    NonEmptyAppend(Split(a, d), Split(b, d));
  }

  /** Trailing spaces add no token when a space is a delimiter. */
  lemma {:induction false} TokensTrailingSpaces(a: string, n: nat, d: Delimiter)
    requires IsDelimiter(' ', d)
    ensures Tokens(a + Spaces(n), d) == Tokens(a, d)
  {
    if n == 0 {
      assert a + Spaces(n) == a;
    } else {
      TokensTrailingSpaces(a, n - 1, d);
      TokensAround(a + Spaces(n - 1), ' ', [], d);
      assert a + Spaces(n) == a + Spaces(n - 1) + [' '] + [];
      assert Tokens([], d) == [];
    }
  }

  /** A padded field followed by a space and more text tokenises as the
      field's tokens followed by the rest's. */
  lemma TokensPadded(s: string, w: nat, rest: string, d: Delimiter)
    requires IsDelimiter(' ', d)
    ensures Tokens(PadRight(s, w) + " " + rest, d) == Tokens(s, d) + Tokens(rest, d)
  {
    TokensAround(PadRight(s, w), ' ', rest, d);
    if |s| < w {
      TokensTrailingSpaces(s, w - |s|, d);
    }
  }

  /** A word, a space, and more text: the word is the first token. */
  lemma TokensLeadingWord(w: string, rest: string, d: Delimiter)
    requires IsDelimiter(' ', d) && w != [] && NoDelimiter(w, d)
    ensures Tokens(w + " " + rest, d) == [w] + Tokens(rest, d)
  {
    TokensAround(w, ' ', rest, d);
    TokensOfWord(w, d);
  }

  /** A leading space adds no token when a space is a delimiter. */
  lemma TokensLeadingSpace(rest: string, d: Delimiter)
    requires IsDelimiter(' ', d)
    ensures Tokens(" " + rest, d) == Tokens(rest, d)
  {
    TokensAround([], ' ', rest, d);
    assert [] + [' '] + rest == " " + rest;
    assert Tokens([], d) == [];
  }

  /** Leading spaces add no token when a space is a delimiter. */
  lemma {:induction false} TokensLeadingSpaces(n: nat, rest: string, d: Delimiter)
    requires IsDelimiter(' ', d)
    ensures Tokens(Spaces(n) + rest, d) == Tokens(rest, d)
  {
    if n > 0 {
      assert Spaces(n) + rest == Spaces(n - 1) + (" " + rest);
      TokensLeadingSpaces(n - 1, " " + rest, d);
      TokensLeadingSpace(rest, d);
    } else {
      assert Spaces(n) + rest == rest;
    }
  }

  /** Concatenation regroups. */
  lemma Assoc(a: string, b: string, c: string)
    ensures a + b + c == a + (b + c)
  {
  }

  /** Two words after leading spaces are the two tokens. */
  lemma TokensOfTwo(lead: nat, w1: string, w2: string, d: Delimiter)
    requires IsDelimiter(' ', d)
    requires w1 != [] && NoDelimiter(w1, d) && w2 != [] && NoDelimiter(w2, d)
    ensures Tokens(Spaces(lead) + (w1 + " " + w2), d) == [w1, w2]
  {
    TokensLeadingSpaces(lead, w1 + " " + w2, d);
    TokensLeadingWord(w1, w2, d);
    TokensOfWord(w2, d);
  }

  /** Three words after leading spaces are the three tokens. */
  lemma TokensOfThree(lead: nat, w1: string, w2: string, w3: string, d: Delimiter)
    requires IsDelimiter(' ', d)
    requires w1 != [] && NoDelimiter(w1, d) && w2 != [] && NoDelimiter(w2, d)
    requires w3 != [] && NoDelimiter(w3, d)
    ensures Tokens(Spaces(lead) + (w1 + " " + (w2 + " " + w3)), d) == [w1, w2, w3]
  {
    TokensLeadingSpaces(lead, w1 + " " + (w2 + " " + w3), d);
    TokensLeadingWord(w1, w2 + " " + w3, d);
    TokensOfTwo(0, w2, w3, d);
    assert Spaces(0) + (w2 + " " + w3) == w2 + " " + w3;
  }

  /** `s.to_lowercase()` on ASCII letters; other characters are unchanged. */
  function ToLower(s: string): string
    decreases |s|
  {
    if s == [] then [] else [LowerChar(s[0])] + ToLower(s[1..])
  }

  /** Case folding keeps the length and maps each character on its own. */
  lemma {:induction false} ToLowerSpec(s: string)
    ensures |ToLower(s)| == |s|
    ensures forall i :: 0 <= i < |s| ==> ToLower(s)[i] == LowerChar(s[i])
    decreases |s|
  {
    if s != [] {
      ToLowerSpec(s[1..]);
      var r := ToLower(s);
      assert r == [LowerChar(s[0])] + ToLower(s[1..]);
      forall i | 0 <= i < |s| ensures r[i] == LowerChar(s[i]) {
        if i > 0 {
          assert r[i] == ToLower(s[1..])[i - 1];
          assert s[1..][i - 1] == s[i];
        }
      }
    }
  }

  /** Text without capital letters is its own lower case. */
  lemma ToLowerUnchanged(s: string)
    requires forall i :: 0 <= i < |s| ==> !('A' <= s[i] <= 'Z')
    ensures ToLower(s) == s
  {
    ToLowerSpec(s);
  }

  function LowerChar(c: char): char {
    if 'A' <= c <= 'Z' then (c - 'A' + 'a') as char else c
  }

  /** `s.rsplit('.').next().unwrap()`: the text after the last `'.'`, or all of
      `s` when it has none. */
  function LastField(s: string, c: char): (r: string)
  {
    var pieces := Split(s, Char(c));
    pieces[|pieces| - 1]
  }

  /** The last field is a suffix of `s` free of the separator, and what comes
      before it is empty or ends with the separator. */
  lemma {:induction false} LastFieldSpec(s: string, c: char)
    ensures var r := LastField(s, c);
      && |r| <= |s| && s[|s| - |r|..] == r && c !in r
      && (|r| == |s| || s[|s| - |r| - 1] == c)
    decreases |s|
  {
    var i := Find(s, Char(c));
    var r := LastField(s, c);
    if i == |s| {
      assert NoDelimiter(r, Char(c));
    } else {
      var t := s[i + 1..];
      LastFieldSpec(t, c);
      assert LastField(s, c) == LastField(t, c);
      assert s[|s| - |r|..] == t[|t| - |r|..];
      if |r| == |t| { assert s[|s| - |r| - 1] == s[i]; }
      else { assert s[|s| - |r| - 1] == t[|t| - |r| - 1]; }
    }
    assert NoDelimiter(r, Char(c));
  }
}
