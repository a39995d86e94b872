/**
 * The parts of Go's `strings` and `strconv` packages that the plugin relies on,
 * over `string` (a sequence of Unicode scalar values).
 *
 * Go strings are UTF-8 byte strings; every use in this plugin either compares
 * whole strings, looks for ASCII text, or classifies characters, so working
 * on characters instead of bytes gives the same results (README, "Left out",
 * says where the byte and character readings could differ and why they do not).
 */
module GoStrings {

  // ---------------------------------------------------------------------------
  // Whitespace and trimming (strings.TrimSpace)
  // ---------------------------------------------------------------------------

  /** Go's unicode.IsSpace: the characters strings.TrimSpace removes. */
  predicate IsSpace(c: char) {
    || c == ' ' || c == '\t' || c == '\n' || c == '\U{B}' || c == '\U{C}' || c == '\r'
    || c == '\U{85}' || c == '\U{A0}' || c == '\U{1680}'
    || ('\U{2000}' <= c <= '\U{200A}')
    || c == '\U{2028}' || c == '\U{2029}' || c == '\U{202F}' || c == '\U{205F}' || c == '\U{3000}'
  }

  predicate AllSpace(s: string) {
    forall i :: 0 <= i < |s| ==> IsSpace(s[i])
  }

  /** Drops leading white space. */
  function TrimLeft(s: string): string {
    if s != [] && IsSpace(s[0]) then TrimLeft(s[1..]) else s
  }

  /** The result of TrimLeft is a suffix, what it drops is white space, and it starts with no space. */
  lemma {:induction false} TrimLeftShape(s: string)
    ensures var r := TrimLeft(s);
      && |r| <= |s| && r == s[|s| - |r|..]
      && AllSpace(s[..|s| - |r|])
      && (r != [] ==> !IsSpace(r[0]))
  {
    if s != [] && IsSpace(s[0]) {
      TrimLeftShape(s[1..]);
      var r := TrimLeft(s);
      assert s[..|s| - |r|] == [s[0]] + s[1..][..|s| - 1 - |r|];
    }
  }

  /** Drops trailing white space. */
  function TrimRight(s: string): string {
    if s != [] && IsSpace(s[|s| - 1]) then TrimRight(s[..|s| - 1]) else s
  }

  /** The result of TrimRight is a prefix, what it drops is white space, and it ends with no space. */
  lemma {:induction false} TrimRightShape(s: string)
    ensures var r := TrimRight(s);
      && |r| <= |s| && r == s[..|r|]
      && AllSpace(s[|r|..])
      && (r != [] ==> !IsSpace(r[|r| - 1]))
  {
    if s != [] && IsSpace(s[|s| - 1]) {
      var init := s[..|s| - 1];
      TrimRightShape(init);
      var r := TrimRight(s);
      assert s[|r|..] == init[|r|..] + [s[|s| - 1]];
    }
  }

  /** strings.TrimSpace: drops white space at both ends; only an all-space text trims to "". */
  function TrimSpace(s: string): (r: string)
    ensures |r| <= |s|
    ensures r != [] ==> !IsSpace(r[0]) && !IsSpace(r[|r| - 1])
    ensures r == [] <==> AllSpace(s)
  {
    var l := TrimLeft(s);
    var r := TrimRight(l);
    TrimLeftShape(s);
    TrimRightShape(l);
    assert r != [] ==> r[0] == l[0];
    assert r == [] ==> AllSpace(s) by {
      if r == [] {
        assert s[..|s|] == s;
      }
    }
    r
  }

  /** A text with no white space at either end is its own trim. */
  lemma TrimSpaceKeeps(s: string)
    requires |s| >= 1 && !IsSpace(s[0]) && !IsSpace(s[|s| - 1])
    ensures TrimSpace(s) == s
  {
    assert TrimLeft(s) == s;
  }

  /** Trimming twice trims nothing more. */
  lemma TrimSpaceIdempotent(s: string)
    ensures TrimSpace(TrimSpace(s)) == TrimSpace(s)
  {
    var t := TrimSpace(s);
    if t != [] {
      assert TrimLeft(t) == t;
      assert TrimRight(t) == t;
    }
  }

  // ---------------------------------------------------------------------------
  // Lower-casing (strings.ToLower)
  // ---------------------------------------------------------------------------

  /**
   * Go's unicode.ToLower, as far as it yields an ASCII result: ASCII capitals,
   * LATIN CAPITAL LETTER I WITH DOT ABOVE (to 'i') and KELVIN SIGN (to 'k').
   * Every other non-ASCII character is kept; Go maps some of them to other
   * non-ASCII letters, which no use in this plugin can tell apart.
   */
  function LowerChar(c: char): char {
    if 'A' <= c <= 'Z' then (c as int + 32) as char
    else if c == '\U{130}' then 'i'
    else if c == '\U{212A}' then 'k'
    else c
  }

  /** strings.ToLower, character by character. */
  function ToLower(s: string): (r: string)
    ensures |r| == |s|
  {
    if s == [] then [] else [LowerChar(s[0])] + ToLower(s[1..])
  }

  /** Each character of ToLower(s) is the lower-cased character of `s` at the same place. */
  lemma {:induction false} ToLowerAt(s: string)
    ensures forall i :: 0 <= i < |s| ==> ToLower(s)[i] == LowerChar(s[i])
  {
    if s != [] {
      ToLowerAt(s[1..]);
    }
  }

  /** Lower-casing twice changes nothing more. */
  lemma ToLowerIdempotent(s: string)
    ensures ToLower(ToLower(s)) == ToLower(s)
  {
    var l := ToLower(s);
    ToLowerAt(s);
    ToLowerAt(l);
    forall i | 0 <= i < |l| ensures LowerChar(l[i]) == l[i] {
      assert l[i] == LowerChar(s[i]);
    }
  }

  // ---------------------------------------------------------------------------
  // Splitting on one separator character (strings.Split with a one-byte separator)
  // ---------------------------------------------------------------------------

  function Count(s: string, c: char): (n: nat)
    ensures n == 0 <==> c !in s
  {
    if s == [] then 0 else (if s[0] == c then 1 else 0) + Count(s[1..], c)
  }

  function Split(s: string, sep: char): (parts: seq<string>)
    ensures parts != []
  {
    if s == [] then [[]]
    else
      var rest := Split(s[1..], sep);
      if s[0] == sep then [[]] + rest
      else [[s[0]] + rest[0]] + rest[1..]
  }

  /** One piece more than there are separators; a single piece exactly when there is no separator. */
  lemma {:induction false} SplitCount(s: string, sep: char)
    ensures |Split(s, sep)| == Count(s, sep) + 1
    ensures |Split(s, sep)| == 1 <==> sep !in s
  {
    if s != [] {
      SplitCount(s[1..], sep);
    }
  }

  /** No piece holds the separator. */
  lemma {:induction false} SplitPiecesFree(s: string, sep: char)
    ensures forall i :: 0 <= i < |Split(s, sep)| ==> sep !in Split(s, sep)[i]
  {
    if s != [] {
      SplitPiecesFree(s[1..], sep);
      var rest := Split(s[1..], sep);
      if s[0] != sep {
        assert sep !in [s[0]] + rest[0];
      }
    }
  }

  /** strings.Join(parts, string(sep)). */
  function Join(parts: seq<string>, sep: char): string {
    if parts == [] then []
    else if |parts| == 1 then parts[0]
    else parts[0] + [sep] + Join(parts[1..], sep)
  }

  /** Joining a piece in front of at least one more piece puts a separator between them. */
  lemma JoinCons(p: string, rest: seq<string>, sep: char)
    requires rest != []
    ensures Join([p] + rest, sep) == p + [sep] + Join(rest, sep)
  {
    assert ([p] + rest)[1..] == rest;
  }

  /** Extending the first piece at the front extends the joined text at the front. */
  lemma JoinExtendFirst(c: char, parts: seq<string>, sep: char)
    requires parts != []
    ensures Join([[c] + parts[0]] + parts[1..], sep) == [c] + Join(parts, sep)
  {
    if |parts| > 1 {
      JoinCons([c] + parts[0], parts[1..], sep);
      JoinCons(parts[0], parts[1..], sep);
      assert parts == [parts[0]] + parts[1..];
    }
  }

  /** Joining the pieces again gives back the original text. */
  lemma {:induction false} SplitJoin(s: string, sep: char)
    ensures Join(Split(s, sep), sep) == s
  {
    if s != [] {
      var rest := Split(s[1..], sep);
      SplitJoin(s[1..], sep);
      if s[0] == sep {
        JoinCons([], rest, sep);
      } else {
        JoinExtendFirst(s[0], rest, sep);
      }
      assert s == [s[0]] + s[1..];
    }
  }

  /** A piece without the separator, then the separator: the piece comes first and the rest splits on. */
  lemma {:induction false} SplitCons(a: string, rest: string, sep: char)
    requires sep !in a
    ensures Split(a + [sep] + rest, sep) == [a] + Split(rest, sep)
  {
    var s := a + [sep] + rest;
    if a == [] {
      assert s == [sep] + rest;
      assert s[1..] == rest;
    } else {
      assert s[0] == a[0] != sep by {
        assert a[0] in a;
      }
      assert s[1..] == a[1..] + [sep] + rest;
      SplitCons(a[1..], rest, sep);
      var r := Split(s[1..], sep);
      assert r == [a[1..]] + Split(rest, sep);
      assert Split(s, sep) == [[a[0]] + r[0]] + r[1..];
      assert a == [a[0]] + a[1..];
    }
  }

  /** A text without the separator is a single piece. */
  lemma {:induction false} SplitWhole(a: string, sep: char)
    requires sep !in a
    ensures Split(a, sep) == [a]
  {
    if a != [] {
      SplitWhole(a[1..], sep);
      assert a == [a[0]] + a[1..];
    }
  }

  /** Splitting the pieces joined by a separator they do not hold gives them back. */
  lemma {:induction false} JoinSplit(parts: seq<string>, sep: char)
    requires parts != []
    requires forall i :: 0 <= i < |parts| ==> sep !in parts[i]
    ensures Split(Join(parts, sep), sep) == parts
  {
    if |parts| == 1 {
      SplitWhole(parts[0], sep);
    } else {
      var p, rest := parts[0], parts[1..];
      JoinCons(p, rest, sep);
      assert parts == [p] + rest;
      SplitCons(p, Join(rest, sep), sep);
      JoinSplit(rest, sep);
    }
  }

  /** The last piece of `s`. */
  function LastPiece(s: string, sep: char): string {
    var parts := Split(s, sep);
    parts[|parts| - 1]
  }

  /** A leading separator, or a separator further on, leaves the last piece to the rest of the text. */
  lemma LastPieceSkip(s: string, sep: char)
    requires s != [] && (s[0] == sep || |Split(s[1..], sep)| > 1)
    ensures LastPiece(s, sep) == LastPiece(s[1..], sep)
  {
    var rest := Split(s[1..], sep);
    if s[0] == sep {
      assert Split(s, sep) == [[]] + rest;
    } else {
      assert Split(s, sep) == [[s[0]] + rest[0]] + rest[1..];
    }
  }

  /** With more than one piece, the last piece is shorter than the text. */
  lemma LastPieceShorter(t: string, sep: char)
    requires |Split(t, sep)| > 1
    requires |LastPiece(t, sep)| <= |t| && LastPiece(t, sep) == t[|t| - |LastPiece(t, sep)|..]
    ensures |LastPiece(t, sep)| < |t|
  {
    SplitPiecesFree(t, sep);
    SplitCount(t, sep);
    assert sep !in LastPiece(t, sep) && sep in t;
  }

  /** A text whose tail holds no separator, and which does not start with one, is its own last piece. */
  lemma LastPieceWhole(s: string, sep: char)
    requires s != [] && s[0] != sep && |Split(s[1..], sep)| == 1
    ensures LastPiece(s, sep) == s
  {
    var t := s[1..];
    SplitCount(t, sep);
    SplitWhole(t, sep);
    var rest := Split(t, sep);
    assert rest == [t];
    assert Split(s, sep) == [[s[0]] + rest[0]] + rest[1..];
    assert [s[0]] + t == s;
  }

  /** The last piece is the text after the last separator (all of `s` when there is none). */
  lemma {:induction false} SplitLast(s: string, sep: char)
    ensures var last := LastPiece(s, sep);
            |last| <= |s| && last == s[|s| - |last|..]
            && (|last| < |s| ==> s[|s| - |last| - 1] == sep)
  {
    if s != [] {
      var t := s[1..];
      SplitLast(t, sep);
      var last := LastPiece(t, sep);
      if s[0] == sep || |Split(t, sep)| > 1 {
        LastPieceSkip(s, sep);
        if s[0] != sep {
          LastPieceShorter(t, sep);
        }
        assert t[|t| - |last|..] == s[|s| - |last|..];
        assert |last| < |t| ==> s[|s| - |last| - 1] == t[|t| - |last| - 1];
      } else {
        LastPieceWhole(s, sep);
      }
    }
  }

  // ---------------------------------------------------------------------------
  // Searching and replacing (strings.Index, strings.Contains, strings.ReplaceAll)
  // ---------------------------------------------------------------------------

  predicate OccursAt(s: string, pat: string, i: int) {
    0 <= i && i + |pat| <= |s| && s[i..i + |pat|] == pat
  }

  function FindFrom(s: string, pat: string, from: nat): (r: int)
    ensures r == -1 || (from <= r && OccursAt(s, pat, r))
    ensures r == -1 ==> forall i :: from <= i ==> !OccursAt(s, pat, i)
    ensures r != -1 ==> forall i :: from <= i < r ==> !OccursAt(s, pat, i)
    decreases |s| - from
  {
    if from + |pat| > |s| then -1
    else if s[from..from + |pat|] == pat then from
    else FindFrom(s, pat, from + 1)
  }

  /** strings.Index: the first position where `pat` occurs, or -1 when it does not occur. */
  function Find(s: string, pat: string): (r: int)
    ensures r == -1 || OccursAt(s, pat, r)
    ensures r == -1 <==> forall i :: !OccursAt(s, pat, i)
    ensures forall i :: 0 <= i < r ==> !OccursAt(s, pat, i)
  {
    FindFrom(s, pat, 0)
  }

  /** strings.Contains. */
  predicate Contains(s: string, pat: string) {
    Find(s, pat) != -1
  }

  /** strings.ReplaceAll for a non-empty pattern: leftmost, non-overlapping replacement. */
  function ReplaceAll(s: string, pat: string, sub: string): string
    requires pat != []
    decreases |s|
  {
    if |s| < |pat| then s
    else if s[..|pat|] == pat then sub + ReplaceAll(s[|pat|..], pat, sub)
    else [s[0]] + ReplaceAll(s[1..], pat, sub)
  }

  /** A first character that cannot start the pattern is kept and the scan moves on. */
  lemma ReplaceMiss(s: string, pat: string, sub: string)
    requires pat != [] && s != [] && s[0] != pat[0]
    ensures ReplaceAll(s, pat, sub) == [s[0]] + ReplaceAll(s[1..], pat, sub)
  {
    if |s| < |pat| {
      assert ReplaceAll(s[1..], pat, sub) == s[1..];
      assert s == [s[0]] + s[1..];
    } else {
      assert s[..|pat|][0] != pat[0];
    }
  }

  /** Text that does not hold the pattern's first character passes through unchanged. */
  lemma {:induction false} ReplaceSkip(a: string, b: string, pat: string, sub: string)
    requires pat != [] && pat[0] !in a
    ensures ReplaceAll(a + b, pat, sub) == a + ReplaceAll(b, pat, sub)
  {
    var s := a + b;
    if a == [] {
      assert s == b;
    } else {
      assert a[0] in a && s[0] == a[0];
      ReplaceMiss(s, pat, sub);
      assert s[1..] == a[1..] + b;
      ReplaceSkip(a[1..], b, pat, sub);
      assert a == [a[0]] + a[1..];
    }
  }

  /** An occurrence at the front is replaced and the scan resumes after it. */
  lemma ReplaceHit(pat: string, b: string, sub: string)
    requires pat != []
    ensures ReplaceAll(pat + b, pat, sub) == sub + ReplaceAll(b, pat, sub)
  {
    assert (pat + b)[..|pat|] == pat;
    assert (pat + b)[|pat|..] == b;
  }

  /** Text that lacks one of the pattern's characters holds no occurrence and is unchanged. */
  lemma {:induction false} ReplaceAbsent(s: string, pat: string, sub: string, c: char)
    requires pat != [] && c in pat && c !in s
    ensures ReplaceAll(s, pat, sub) == s
    decreases |s|
  {
    if |s| >= |pat| {
      assert c !in s[..|pat|];
      assert s[..|pat|] != pat;
      ReplaceAbsent(s[1..], pat, sub, c);
      assert s == [s[0]] + s[1..];
    }
  }

  /** strings.HasSuffix. */
  predicate HasSuffix(s: string, suffix: string) {
    |suffix| <= |s| && s[|s| - |suffix|..] == suffix
  }

  // ---------------------------------------------------------------------------
  // Decimal text of integers (strconv.Itoa and friends)
  // ---------------------------------------------------------------------------

  predicate IsDigit(c: char) {
    '0' <= c <= '9'
  }

  predicate AllDigits(s: string) {
    forall i :: 0 <= i < |s| ==> IsDigit(s[i])
  }

  function DigitChar(d: int): (c: char)
    requires 0 <= d < 10
    ensures IsDigit(c)
  {
    ('0' as int + d) as char
  }

  function DigitValue(c: char): (d: nat)
    requires IsDigit(c)
    ensures d < 10 && DigitChar(d) == c
  {
    c as int - '0' as int
  }

  /** The shortest decimal text of a natural number: digits only, no leading zero. */
  function NatToDecimal(n: nat): (r: string)
    ensures |r| >= 1 && AllDigits(r)
    ensures |r| > 1 ==> r[0] != '0'
    ensures n < 10 <==> |r| == 1
    decreases n
  {
    if n < 10 then [DigitChar(n)]
    else NatToDecimal(n / 10) + [DigitChar(n % 10)]
  }

  /** The value of a text of decimal digits, most significant first. */
  function DecimalToNat(s: string): nat
    requires AllDigits(s)
    decreases |s|
  {
    if s == [] then 0 else DecimalToNat(s[..|s| - 1]) * 10 + DigitValue(s[|s| - 1])
  }

  /** Reading back the decimal text of `n` gives `n`. */
  lemma {:induction false} NatDecimalRoundTrip(n: nat)
    ensures DecimalToNat(NatToDecimal(n)) == n
  {
    if n >= 10 {
      NatDecimalRoundTrip(n / 10);
      var r := NatToDecimal(n);
      assert r[..|r| - 1] == NatToDecimal(n / 10);
    }
  }

  /** Go's decimal text of an integer (strconv.Itoa, and FormatFloat(x, 'f', -1, 64) of an integral x). */
  function IntToDecimal(n: int): (r: string)
    ensures |r| >= 1
  {
    if n < 0 then "-" + NatToDecimal(-n) else NatToDecimal(n)
  }
}
