/**
 * The parts of Python's string and integer behaviour that the inventory
 * scripts depend on: `str.lower`, `str.title`, `str.isspace` (which is also
 * what `\s`, `str.strip()` and `str.split()` use), `str.split`, `str.join`,
 * `int(...)` on text and the `:03d` format.
 * Case mapping and the `\w` class are modelled on ASCII only.
 */
module Text {
  import opened Outcomes

  // ---------------------------------------------------------------------
  // Character classes
  // ---------------------------------------------------------------------

  predicate IsAsciiUpper(c: char) { 'A' <= c <= 'Z' }
  predicate IsAsciiLower(c: char) { 'a' <= c <= 'z' }
  predicate IsAsciiLetter(c: char) { IsAsciiUpper(c) || IsAsciiLower(c) }
  predicate IsDigit(c: char) { '0' <= c <= '9' }

  /** The regular-expression class `[a-zA-Z0-9]`. */
  predicate IsAlnum(c: char) { IsAsciiLetter(c) || IsDigit(c) }

  /** The regular-expression class `\w` (ASCII part). */
  predicate IsWordChar(c: char) { IsAlnum(c) || c == '_' }

  /** Python's `str.isspace()` for one character. */
  predicate IsSpace(c: char) {
    ('\t' <= c <= '\r') || ('\U{1C}' <= c <= '\U{1F}') || c == ' ' || c == '\U{85}' ||
    c == '\U{A0}' || c == '\U{1680}' || ('\U{2000}' <= c <= '\U{200A}') ||
    c == '\U{2028}' || c == '\U{2029}' || c == '\U{202F}' || c == '\U{205F}' || c == '\U{3000}'
  }

  predicate NoSpace(s: string) { forall i :: 0 <= i < |s| ==> !IsSpace(s[i]) }
  predicate AllAlnum(s: string) { forall i :: 0 <= i < |s| ==> IsAlnum(s[i]) }
  predicate AllDigits(s: string) { forall i :: 0 <= i < |s| ==> IsDigit(s[i]) }
  predicate HasNoUpper(s: string) { forall i :: 0 <= i < |s| ==> !IsAsciiUpper(s[i]) }
  predicate AllWordChars(s: string) { forall i :: 0 <= i < |s| ==> IsWordChar(s[i]) }

  /** Letters, digits and "_" are not whitespace. */
  lemma WordCharsNoSpace(s: string)
    requires AllWordChars(s)
    ensures NoSpace(s)
  {
  }

  // ---------------------------------------------------------------------
  // Case mapping
  // ---------------------------------------------------------------------

  function LowerChar(c: char): char { if IsAsciiUpper(c) then (c as int + 32) as char else c }
  function UpperChar(c: char): char { if IsAsciiLower(c) then (c as int - 32) as char else c }

  /** `s.lower()` */
  function Lower(s: string): (r: string)
    ensures |r| == |s|
    ensures forall i :: 0 <= i < |s| ==> r[i] == LowerChar(s[i])
  {
    seq(|s|, i requires 0 <= i < |s| => LowerChar(s[i]))
  }

  lemma LowerHasNoUpper(s: string)
    ensures HasNoUpper(Lower(s))
  {
  }

  lemma LowerConcat(a: string, b: string)
    ensures Lower(a + b) == Lower(a) + Lower(b)
  {
    assert forall i :: 0 <= i < |a + b| ==> Lower(a + b)[i] == (Lower(a) + Lower(b))[i];
  }

  lemma LowerIdempotent(s: string)
    ensures Lower(Lower(s)) == Lower(s)
  {
  }

  /**
   * `s.title()`: a letter is upper-cased when the character before it is not
   * a letter, and lower-cased when it is.
   */
  function TitleFrom(s: string, afterLetter: bool): (r: string)
    ensures |r| == |s|
  {
    if s == [] then []
    else
      var c := s[0];
      [if !IsAsciiLetter(c) then c else if afterLetter then LowerChar(c) else UpperChar(c)]
      + TitleFrom(s[1..], IsAsciiLetter(c))
  }

  /** `s.title()`: the same length, and only the case of letters changes. */
  function Title(s: string): (r: string)
    ensures |r| == |s|
    ensures Lower(r) == Lower(s)
  {
    LowerOfTitleFrom(s, false);
    TitleFrom(s, false)
  }

  /** Title-casing changes only the case of letters: lower-casing undoes it. */
  lemma {:induction false} LowerOfTitleFrom(s: string, afterLetter: bool)
    ensures Lower(TitleFrom(s, afterLetter)) == Lower(s)
  {
    if s != [] {
      LowerOfTitleFrom(s[1..], IsAsciiLetter(s[0]));
      var c := s[0];
      var h := if !IsAsciiLetter(c) then c else if afterLetter then LowerChar(c) else UpperChar(c);
      LowerConcat([h], TitleFrom(s[1..], IsAsciiLetter(c)));
      LowerConcat([c], s[1..]);
      assert s == [c] + s[1..];
    }
  }

  // ---------------------------------------------------------------------
  // Filtering and stripping
  // ---------------------------------------------------------------------

  /** `re.sub(r'[^a-zA-Z0-9]', '', s)`: the alphanumeric characters of s, in order. */
  function KeepAlnum(s: string): (r: string)
    ensures AllAlnum(r)
    ensures forall c :: c in r ==> c in s
    ensures AllAlnum(s) ==> r == s
    ensures |s| == 1 ==> r == (if IsAlnum(s[0]) then s else [])
  {
    if s == [] then [] else (if IsAlnum(s[0]) then [s[0]] else []) + KeepAlnum(s[1..])
  }

  /** Filtering a concatenation filters each part: with the one-character case
      above, every letter and digit is kept, in order, and nothing else. */
  lemma {:induction false} KeepAlnumConcat(a: string, b: string)
    ensures KeepAlnum(a + b) == KeepAlnum(a) + KeepAlnum(b)
  {
    if a != [] {
      KeepAlnumConcat(a[1..], b);
      assert (a + b)[1..] == a[1..] + b;
    } else {
      assert a + b == b;
    }
  }

  /** For example, "a-b" gives "ab": the letters on both sides of the dash are kept. */
  lemma KeepAlnumOfDashed()
    ensures KeepAlnum("a-b") == "ab"
  {
    assert "a-b"[1..] == "-b" && "-b"[1..] == "b";
  }

  lemma KeepAlnumOfLowerHasNoUpper(s: string)
    ensures HasNoUpper(KeepAlnum(Lower(s)))
  {
    var r := KeepAlnum(Lower(s));
    forall i | 0 <= i < |r| ensures !IsAsciiUpper(r[i]) {
      assert r[i] in Lower(s);
    }
  }

  /** The suffix of s left after dropping the leading characters that satisfy p. */
  function TrimStart(s: string, p: char -> bool): (r: string)
    ensures |r| <= |s|
    ensures r != [] ==> !p(r[0])
    ensures forall i :: 0 <= i < |s| - |r| ==> p(s[i])
    ensures s != [] && p(s[0]) ==> |r| < |s|
    ensures s != [] && !p(s[0]) ==> r == s
  {
    if s != [] && p(s[0]) then TrimStart(s[1..], p) else s
  }

  /** The prefix of s left after dropping the trailing characters that satisfy p. */
  function TrimEnd(s: string, p: char -> bool): (r: string)
    ensures |r| <= |s|
    ensures r != [] ==> !p(r[|r| - 1])
    ensures forall i :: |r| <= i < |s| ==> p(s[i])
    ensures s != [] && !p(s[|s| - 1]) ==> r == s
  {
    if s != [] && p(s[|s| - 1]) then TrimEnd(s[..|s| - 1], p) else s
  }

  /** Putting the first element back in front of the rest. */
  lemma ConsRest(a: string, x: string)
    requires a != []
    ensures [a[0]] + (a[1..] + x) == a + x
  {
    assert a == [a[0]] + a[1..];
    assert forall i :: 0 <= i < |a| + |x| ==> ([a[0]] + (a[1..] + x))[i] == (a + x)[i];
  }

  /** What TrimStart keeps is a suffix of s. */
  lemma {:induction false} TrimStartSuffix(s: string, p: char -> bool)
    ensures TrimStart(s, p) == s[|s| - |TrimStart(s, p)|..]
  {
    if s != [] && p(s[0]) {
      TrimStartSuffix(s[1..], p);
      assert s[1..][|s| - 1 - |TrimStart(s[1..], p)|..] == s[|s| - |TrimStart(s[1..], p)|..];
    }
  }

  /** What TrimEnd keeps is a prefix of s. */
  lemma {:induction false} TrimEndPrefix(s: string, p: char -> bool)
    ensures TrimEnd(s, p) == s[..|TrimEnd(s, p)|]
  {
    if s != [] && p(s[|s| - 1]) {
      TrimEndPrefix(s[..|s| - 1], p);
      assert s[..|s| - 1][..|TrimEnd(s[..|s| - 1], p)|] == s[..|TrimEnd(s[..|s| - 1], p)|];
    }
  }

  /** `s.strip()` (p = IsSpace) or `s.strip(chars)` (p = membership in chars). */
  function Strip(s: string, p: char -> bool): (r: string)
    ensures |r| <= |s|
    ensures r != [] ==> !p(r[0]) && !p(r[|r| - 1])
  {
    var t := TrimStart(s, p);
    TrimEndPrefix(t, p);
    var r := TrimEnd(t, p);
    assert r != [] ==> r[0] == t[0];
    r
  }

  /** What stripping keeps: a slice of s starting after the stripped front. */
  lemma StripSlice(s: string, p: char -> bool)
    ensures |s| - |TrimStart(s, p)| + |Strip(s, p)| <= |s|
    ensures Strip(s, p) == s[|s| - |TrimStart(s, p)|..|s| - |TrimStart(s, p)| + |Strip(s, p)|]
  {
    var t := TrimStart(s, p);
    var r := TrimEnd(t, p);
    var a := |s| - |t|;
    TrimStartSuffix(s, p);
    TrimEndPrefix(t, p);
    assert t == s[a..];
    assert r == t[..|r|];
    assert s[a..][..|r|] == s[a..a + |r|];
  }

  /** Nothing is lost when neither end of s satisfies p. */
  lemma StripClean(s: string, p: char -> bool)
    requires s != [] && !p(s[0]) && !p(s[|s| - 1])
    ensures Strip(s, p) == s
  {
    assert TrimStart(s, p) == s;
  }

  /** Something is lost when the last character satisfies p. */
  lemma StripShrinks(s: string, p: char -> bool)
    requires s != [] && p(s[|s| - 1])
    ensures |Strip(s, p)| < |s|
  {
    var t := TrimStart(s, p);
    TrimStartSuffix(s, p);
    if |t| == |s| {
      assert t == s;
    }
  }

  /** Stripping leaves a string that starts with `a` unchanged at the front when
      neither end of `a` is stripped. */
  lemma StripKeepsPrefix(a: string, b: string, p: char -> bool)
    requires a != [] && !p(a[0]) && !p(a[|a| - 1])
    ensures a <= Strip(a + b, p)
  {
    var s := a + b;
    assert TrimStart(s, p) == s;
    TrimEndPrefix(s, p);
    assert !p(s[|a| - 1]);
    assert a == s[..|a|];
  }

  // ---------------------------------------------------------------------
  // Splitting and joining
  // ---------------------------------------------------------------------

  /** The longest prefix of s without whitespace. */
  function TakeWord(s: string): (w: string)
    ensures |w| <= |s| && w == s[..|w|]
    ensures NoSpace(w)
    ensures |w| < |s| ==> IsSpace(s[|w|])
    ensures s != [] && !IsSpace(s[0]) ==> w != []
  {
    if s == [] || IsSpace(s[0]) then [] else [s[0]] + TakeWord(s[1..])
  }

  /** `s.split()`: the maximal runs of non-whitespace characters, in order. */
  function Split(s: string): (words: seq<string>)
    ensures forall i :: 0 <= i < |words| ==> words[i] != [] && NoSpace(words[i])
    decreases |s|
  {
    if s == [] then []
    else if IsSpace(s[0]) then Split(s[1..])
    else
      var w := TakeWord(s);
      [w] + Split(s[|w|..])
  }

  /** The total length of the parts. */
  function SumLengths(parts: seq<string>): nat
  {
    if parts == [] then 0 else |parts[0]| + SumLengths(parts[1..])
  }

  /** `sep.join(parts)`: the parts in order with one separator between
      neighbours, so it starts with the first part. */
  function Join(sep: string, parts: seq<string>): (r: string)
    ensures parts == [] ==> r == []
    ensures parts != [] ==> parts[0] <= r
    ensures |r| == SumLengths(parts) + (if parts == [] then 0 else |sep| * (|parts| - 1))
  {
    if parts == [] then []
    else if |parts| == 1 then parts[0]
    else parts[0] + sep + Join(sep, parts[1..])
  }

  lemma {:induction false} TakeWordOfConcat(w: string, t: string)
    requires NoSpace(w)
    requires t == [] || IsSpace(t[0])
    ensures TakeWord(w + t) == w
  {
    if w != [] {
      assert (w + t)[1..] == w[1..] + t;
      TakeWordOfConcat(w[1..], t);
    } else {
      assert w + t == t;
    }
  }

  /** Joining words with one space and splitting again gives the words back. */
  lemma {:induction false} SplitJoin(words: seq<string>)
    requires forall i :: 0 <= i < |words| ==> words[i] != [] && NoSpace(words[i])
    ensures Split(Join(" ", words)) == words
  {
    if |words| == 1 {
      TakeWordOfConcat(words[0], []);
      assert words[0] + [] == words[0];
      assert words[0][|words[0]|..] == [];
    } else if |words| > 1 {
      var w, tail := words[0], Join(" ", words[1..]);
      var s := w + " " + tail;
      assert s == w + (" " + tail);
      TakeWordOfConcat(w, " " + tail);
      assert s[|w|..] == " " + tail;
      assert (" " + tail)[1..] == tail;
      SplitJoin(words[1..]);
      assert [w] + words[1..] == words;
    }
  }

  /** `s.split(c)` for a one-character separator: the pieces between occurrences of c. */
  function SplitOn(s: string, c: char): (pieces: seq<string>)
    ensures |pieces| >= 1
    ensures forall i :: 0 <= i < |pieces| ==> c !in pieces[i]
  {
    if s == [] then [[]]
    else
      var rest := SplitOn(s[1..], c);
      if s[0] == c then [[]] + rest else [[s[0]] + rest[0]] + rest[1..]
  }

  lemma {:induction false} SplitOnWithout(a: string, c: char)
    requires c !in a
    ensures SplitOn(a, c) == [a]
  {
    if a != [] {
      SplitOnWithout(a[1..], c);
      assert [a[0]] + a[1..] == a;
    }
  }

  lemma {:induction false} SplitOnConcat(a: string, b: string, c: char)
    requires c !in a
    ensures SplitOn(a + [c] + b, c) == [a] + SplitOn(b, c)
  {
    if a == [] {
      assert a + [c] + b == [c] + b;
      assert ([c] + b)[1..] == b;
    } else {
      assert (a + [c] + b)[1..] == a[1..] + [c] + b;
      SplitOnConcat(a[1..], b, c);
      assert [a[0]] + a[1..] == a;
    }
  }

  /** Joining pieces with a separator they do not contain and splitting on it gives them back. */
  lemma {:induction false} SplitOnJoin(pieces: seq<string>, c: char)
    requires |pieces| >= 1
    requires forall i :: 0 <= i < |pieces| ==> c !in pieces[i]
    ensures SplitOn(Join([c], pieces), c) == pieces
  {
    if |pieces| == 1 {
      SplitOnWithout(pieces[0], c);
    } else {
      SplitOnJoin(pieces[1..], c);
      SplitOnConcat(pieces[0], Join([c], pieces[1..]), c);
      assert [pieces[0]] + pieces[1..] == pieces;
    }
  }

  // ---------------------------------------------------------------------
  // Decimal numbers
  // ---------------------------------------------------------------------

  function DigitChar(d: int): char
    requires 0 <= d < 10
  {
    ('0' as int + d) as char
  }

  function DigitValue(c: char): int
    requires IsDigit(c)
  {
    c as int - '0' as int
  }

  /** `str(n)` for a natural number. */
  function NatToString(n: nat): (s: string)
    ensures |s| >= 1 && AllDigits(s)
  {
    if n < 10 then [DigitChar(n)] else NatToString(n / 10) + [DigitChar(n % 10)]
  }

  /** The value of a string of decimal digits (leading zeros allowed). */
  function DigitsValue(s: string): nat
    requires AllDigits(s)
  {
    if s == [] then 0 else DigitsValue(s[..|s| - 1]) * 10 + DigitValue(s[|s| - 1])
  }

  lemma {:induction false} NatToStringValue(n: nat)
    ensures DigitsValue(NatToString(n)) == n
  {
    if n >= 10 {
      var s := NatToString(n);
      assert s[..|s| - 1] == NatToString(n / 10);
      NatToStringValue(n / 10);
    }
  }

  lemma NatToStringInjective(m: nat, n: nat)
    requires NatToString(m) == NatToString(n)
    ensures m == n
  {
    NatToStringValue(m);
    NatToStringValue(n);
  }

  function Zeros(k: nat): (z: string)
    ensures |z| == k && AllDigits(z)
    ensures forall i :: 0 <= i < k ==> z[i] == '0'
  {
    seq(k, i => '0')
  }

  lemma {:induction false} ZerosValue(k: nat)
    ensures DigitsValue(Zeros(k)) == 0
  {
    if k > 0 {
      assert Zeros(k)[..k - 1] == Zeros(k - 1);
      ZerosValue(k - 1);
    }
  }

  lemma {:induction false} LeadingZerosValue(k: nat, s: string)
    requires AllDigits(s)
    ensures AllDigits(Zeros(k) + s)
    ensures DigitsValue(Zeros(k) + s) == DigitsValue(s)
  {
    var t := Zeros(k) + s;
    assert AllDigits(t);
    if s == [] {
      assert t == Zeros(k);
      ZerosValue(k);
    } else {
      assert t[..|t| - 1] == Zeros(k) + s[..|s| - 1];
      LeadingZerosValue(k, s[..|s| - 1]);
    }
  }

  /** `f"{n:03d}"`: the decimal digits of n, left-padded with zeros to width 3. */
  function Pad3(n: nat): (s: string)
    ensures |s| >= 3 && AllDigits(s)
  {
    var d := NatToString(n);
    Zeros(if |d| < 3 then 3 - |d| else 0) + d
  }

  lemma Pad3Value(n: nat)
    ensures DigitsValue(Pad3(n)) == n
  {
    var d := NatToString(n);
    LeadingZerosValue(if |d| < 3 then 3 - |d| else 0, d);
    NatToStringValue(n);
  }

  /** A decimal integer literal as `int()` accepts it: digits with single
      underscores between them. */
  predicate IsDecimalLiteral(b: string) {
    && |b| > 0 && IsDigit(b[0]) && IsDigit(b[|b| - 1])
    && (forall i :: 0 <= i < |b| ==> IsDigit(b[i]) || b[i] == '_')
    && (forall i :: 0 <= i < |b| - 1 ==> b[i] == '_' ==> b[i + 1] != '_')
  }

  function DropUnderscores(s: string): (r: string)
    ensures (forall i :: 0 <= i < |s| ==> IsDigit(s[i]) || s[i] == '_') ==> AllDigits(r)
    ensures AllDigits(s) ==> r == s
  {
    if s == [] then [] else (if s[0] == '_' then [] else [s[0]]) + DropUnderscores(s[1..])
  }

  /** `int(s)`: surrounding whitespace, an optional sign, then a decimal literal;
      None where Python raises ValueError. */
  function ParseInt(s: string): (r: Option<int>)
    ensures Strip(s, IsSpace) == [] ==> r.None?
    ensures r.Some? && r.value < 0 ==> Strip(s, IsSpace)[0] == '-'
  {
    var t := Strip(s, IsSpace);
    if |t| > 0 && (t[0] == '+' || t[0] == '-') then
      var body := t[1..];
      if IsDecimalLiteral(body) then
        Some((if t[0] == '-' then -1 else 1) * DigitsValue(DropUnderscores(body)))
      else None
    else if IsDecimalLiteral(t) then Some(DigitsValue(DropUnderscores(t)))
    else None
  }

  /** The zero-padded form reads back as the number it was made from. */
  lemma ParseDigits(s: string)
    requires |s| > 0 && AllDigits(s)
    ensures ParseInt(s) == Some(DigitsValue(s))
  {
    assert !IsSpace(s[0]) && !IsSpace(s[|s| - 1]);
    StripClean(s, IsSpace);
    DigitsAreLiteral(s);
  }

  lemma DigitsAreLiteral(s: string)
    requires |s| > 0 && AllDigits(s)
    ensures IsDecimalLiteral(s) && DropUnderscores(s) == s
    ensures s[0] != '+' && s[0] != '-'
  {
  }

  lemma ParsePad3(n: nat)
    ensures ParseInt(Pad3(n)) == Some(n)
  {
    ParseDigits(Pad3(n));
    Pad3Value(n);
  }

  // ---------------------------------------------------------------------
  // Ordering of strings
  // ---------------------------------------------------------------------

  /** Python's `a < b` on strings: lexicographic by code point. */
  predicate LexLess(a: string, b: string)
  {
    if a == [] then b != []
    else if b == [] then false
    else if a[0] != b[0] then a[0] < b[0]
    else LexLess(a[1..], b[1..])
  }

  predicate LexLessEq(a: string, b: string) { a == b || LexLess(a, b) }

  lemma {:induction false} LexTotal(a: string, b: string)
    ensures LexLessEq(a, b) || LexLessEq(b, a)
  {
    if a != [] && b != [] && a[0] == b[0] {
      LexTotal(a[1..], b[1..]);
      assert a == [a[0]] + a[1..] && b == [b[0]] + b[1..];
    }
  }
}
