/**
 * Text as the Rust standard library sees it: a string is a sequence of Unicode
 * scalar values, trimming removes characters of the White_Space property, and
 * lengths in bytes are lengths of the UTF-8 encoding.
 */
module Text {
  import opened Wrappers

  predicate IsWhitespace(c: char) {
    var n := c as int;
    9 <= n <= 13 || n == 0x20 || n == 0x85 || n == 0xA0 || n == 0x1680 || 0x2000 <= n <= 0x200A
    || n == 0x2028 || n == 0x2029 || n == 0x202F || n == 0x205F || n == 0x3000
  }

  /** `s.trim().is_empty()` */
  predicate Blank(s: string) {
    forall i | 0 <= i < |s| :: IsWhitespace(s[i])
  }

  function TrimStart(s: string): (r: string)
    ensures |r| <= |s| && r == s[|s| - |r|..]
    ensures Blank(s[..|s| - |r|])
    ensures r != [] ==> !IsWhitespace(r[0])
  {
    hide IsWhitespace;
    if s != [] && IsWhitespace(s[0]) then TrimStart(s[1..]) else s
  }

  function TrimEnd(s: string): (r: string)
    ensures r <= s
    ensures Blank(s[|r|..])
    ensures r != [] ==> !IsWhitespace(r[|r| - 1])
  {
    hide IsWhitespace;
    if s != [] && IsWhitespace(s[|s| - 1]) then TrimEnd(s[..|s| - 1]) else s
  }

  function Trim(s: string): string {
    TrimEnd(TrimStart(s))
  }

  /** A string without white space at either end. */
  predicate Trimmed(s: string) {
    s != [] ==> !IsWhitespace(s[0]) && !IsWhitespace(s[|s| - 1])
  }

  lemma TrimFixed(s: string)
    requires Trimmed(s)
    ensures Trim(s) == s
  {
  }

  lemma TrimIsTrimmed(s: string)
    ensures Trimmed(Trim(s))
  {
    var a := TrimStart(s);
    var r := TrimEnd(a);
    if r != [] {
      assert r[0] == a[0];
    }
  }

  lemma TrimIdempotent(s: string)
    ensures Trim(Trim(s)) == Trim(s)
  {
    TrimIsTrimmed(s);
    TrimFixed(Trim(s));
  }

  lemma {:induction false} TrimStartConcat(a: string, b: string)
    ensures TrimStart(a + b) == if Blank(a) then TrimStart(b) else TrimStart(a) + b
  {
    hide IsWhitespace, TrimStart, Blank;
    if a == [] {
      assert a + b == b;
      BlankStep(a);
    } else {
      assert (a + b)[1..] == a[1..] + b && (a + b)[0] == a[0];
      TrimStartConcat(a[1..], b);
      TrimStartStep(a + b);
      TrimStartStep(a);
      BlankStep(a);
    }
  }

  lemma TrimStartStep(s: string)
    requires s != []
    ensures TrimStart(s) == if IsWhitespace(s[0]) then TrimStart(s[1..]) else s
  {
    hide IsWhitespace;
  }

  lemma BlankStep(s: string)
    ensures Blank(s) <==> s == [] || (IsWhitespace(s[0]) && Blank(s[1..]))
  {
    hide IsWhitespace;
    if s != [] {
      assert forall i | 1 <= i < |s| :: s[i] == s[1..][i - 1];
    }
  }

  lemma {:induction false} TrimStartBlank(w: string)
    requires Blank(w)
    ensures TrimStart(w) == []
  {
    hide IsWhitespace;
    if w != [] {
      TrimStartBlank(w[1..]);
    }
  }

  lemma TrimEmptyIffBlank(s: string)
    ensures Trim(s) == [] <==> Blank(s)
  {
    var a := TrimStart(s);
    assert s == s[..|s| - |a|] + a;
    if Trim(s) == [] {
      assert a[0..] == a;
    } else {
      assert s[|s| - |a|] == a[0];
    }
  }

  // ---------------------------------------------------------------- numbers

  function Digit(d: nat): (c: char)
    requires d < 10
    ensures '0' <= c <= '9' && c as int == '0' as int + d
  {
    ('0' as int + d) as char
  }

  /** Decimal notation without leading zeros. */
  function Decimal(n: nat): (s: string)
    ensures s != [] && forall i | 0 <= i < |s| :: '0' <= s[i] <= '9'
  {
    if n < 10 then [Digit(n)] else Decimal(n / 10) + [Digit(n % 10)]
  }

  predicate AllDigits(s: string) {
    forall i | 0 <= i < |s| :: '0' <= s[i] <= '9'
  }

  function DigitsValue(s: string): nat
    requires AllDigits(s)
  {
    if s == [] then 0 else 10 * DigitsValue(s[..|s| - 1]) + (s[|s| - 1] as int - '0' as int)
  }

  /** Rust's `str::parse` for an unsigned integer type whose largest value is `max`. */
  function ParseUnsigned(s: string, max: nat): Option<nat> {
    var digits := if s != [] && s[0] == '+' then s[1..] else s;
    if digits == [] || !AllDigits(digits) || DigitsValue(digits) > max then None
    else Some(DigitsValue(digits))
  }

  /** Rust's `str::parse` for a signed integer type ranging over `-bound .. bound - 1`. */
  function ParseSigned(s: string, bound: int): Option<int> {
    var negative := s != [] && s[0] == '-';
    var digits := if s != [] && (s[0] == '+' || s[0] == '-') then s[1..] else s;
    if digits == [] || !AllDigits(digits) then None
    else
      var value: int := if negative then -(DigitsValue(digits) as int) else DigitsValue(digits);
      if -bound <= value < bound then Some(value) else None
  }

  lemma {:induction false} DecimalValue(n: nat)
    ensures DigitsValue(Decimal(n)) == n
  {
    if n >= 10 {
      DecimalValue(n / 10);
      var s := Decimal(n);
      assert s[..|s| - 1] == Decimal(n / 10);
    }
  }

  /** Printing and parsing a number are inverse. */
  lemma ParseDecimal(n: nat, max: nat)
    requires n <= max
    ensures ParseUnsigned(Decimal(n), max) == Some(n)
  {
    DecimalValue(n);
  }

  // ------------------------------------------------------- splitting, joining

  /** `parts.join(separator)` */
  function Join(parts: seq<string>, separator: string): string {
    if parts == [] then ""
    else if |parts| == 1 then parts[0]
    else parts[0] + separator + Join(parts[1..], separator)
  }

  /** Joining one part more puts a separator in front of it. */
  lemma {:induction false} JoinMore(parts: seq<string>, last: string, separator: string)
    ensures Join(parts + [last], separator)
            == if parts == [] then last else Join(parts, separator) + separator + last
  {
    if parts != [] {
      JoinMore(parts[1..], last, separator);
      assert (parts + [last])[1..] == parts[1..] + [last];
      assert |parts| == 1 ==> parts[1..] == [];
    }
  }

  /** The first position holding `c`, or the length when there is none. */
  function IndexOf(s: string, c: char): (i: nat)
    ensures i <= |s|
    ensures i < |s| ==> s[i] == c
    ensures c !in s[..i]
  {
    if s == [] || s[0] == c then 0 else 1 + IndexOf(s[1..], c)
  }

  predicate StartsWith(s: string, prefix: string) {
    prefix <= s
  }

  predicate EndsWith(s: string, suffix: string) {
    |suffix| <= |s| && s[|s| - |suffix|..] == suffix
  }

  predicate OccursAt(s: string, word: string, i: nat) {
    i + |word| <= |s| && s[i..i + |word|] == word
  }

  predicate Contains(s: string, word: string) {
    exists i: nat | i <= |s| :: OccursAt(s, word, i)
  }

  lemma ContainsMiddle(before: string, line: string, after: string)
    ensures Contains(before + line + after, line)
  {
    assert OccursAt(before + line + after, line, |before|);
  }

  /** What is in a part is in the whole. */
  lemma ContainsMore(before: string, text: string, after: string, word: string)
    requires Contains(text, word)
    ensures Contains(before + text + after, word)
  {
    var i: nat :| i <= |text| && OccursAt(text, word, i);
    var all := before + text + after;
    assert all[|before| + i..|before| + i + |word|] == text[i..i + |word|];
    assert OccursAt(all, word, |before| + i);
  }

  lemma ContainsSelf(text: string)
    ensures Contains(text, text)
  {
    assert OccursAt(text, text, 0);
  }

  lemma BlankFront(text: string, n: nat, k: nat)
    requires n <= |text| && k < |text| && Blank(text[..n])
    ensures k < n ==> IsWhitespace(text[k])
  {
    hide IsWhitespace;
    assert forall j | 0 <= j < n :: text[..n][j] == text[j];
  }

  lemma BlankBack(text: string, n: nat, k: nat)
    requires n <= |text| && k < |text| && Blank(text[n..])
    ensures n <= k ==> IsWhitespace(text[k])
  {
    hide IsWhitespace;
    assert forall j | n <= j < |text| :: text[n..][j - n] == text[j];
  }

  lemma TrimStartKeeps(text: string, word: string)
    requires Contains(text, word) && word != [] && !IsWhitespace(word[0])
    ensures Contains(TrimStart(text), word)
  {
    hide IsWhitespace, TrimStart;
    var i: nat :| i <= |text| && OccursAt(text, word, i);
    var start := TrimStart(text);
    var cut := |text| - |start|;
    assert text[i] == word[0];
    BlankFront(text, cut, i);
    assert OccursAt(start, word, i - cut);
  }

  lemma TrimEndKeeps(text: string, word: string)
    requires Contains(text, word) && word != [] && !IsWhitespace(word[|word| - 1])
    ensures Contains(TrimEnd(text), word)
  {
    hide IsWhitespace, TrimEnd;
    var i: nat :| i <= |text| && OccursAt(text, word, i);
    var end := TrimEnd(text);
    var last := i + |word| - 1;
    assert text[last] == word[|word| - 1];
    BlankBack(text, |end|, last);
    assert OccursAt(end, word, i);
  }

  lemma {:induction false} TrimEndConcat(a: string, b: string)
    requires a != [] && !IsWhitespace(a[|a| - 1])
    ensures TrimEnd(a + b) == a + TrimEnd(b)
    decreases |b|
  {
    hide IsWhitespace, TrimEnd;
    if b == [] {
      assert a + b == a;
      TrimEndFixed(a);
      TrimEndFixed(b);
    } else {
      var n := |b| - 1;
      assert (a + b)[..|a + b| - 1] == a + b[..n] && (a + b)[|a + b| - 1] == b[n];
      TrimEndConcat(a, b[..n]);
      TrimEndStep(a + b);
      TrimEndStep(b);
    }
  }

  lemma TrimEndFixed(s: string)
    requires s == [] || !IsWhitespace(s[|s| - 1])
    ensures TrimEnd(s) == s
  {
    hide IsWhitespace;
  }

  lemma TrimEndStep(s: string)
    requires s != []
    ensures TrimEnd(s) == if IsWhitespace(s[|s| - 1]) then TrimEnd(s[..|s| - 1]) else s
  {
    hide IsWhitespace;
  }

  lemma TrimParts(s: string)
    ensures Trim(TrimStart(s)) == Trim(s) && Trim(TrimEnd(s)) == Trim(s)
  {
    TrimStartTwice(s);
    TrimOfEnd(s);
  }

  lemma TrimStartTwice(s: string)
    ensures TrimStart(TrimStart(s)) == TrimStart(s)
  {
  }

  lemma TrimOfEnd(s: string)
    ensures Trim(TrimEnd(s)) == Trim(s)
  {
    hide TrimStart, TrimEnd, IsWhitespace, Blank;
    var e := TrimEnd(s);
    var w := s[|e|..];
    assert s == e + w;
    TrimStartConcat(e, w);
    if Blank(e) {
      TrimStartBlank(e);
      TrimStartBlank(w);
    } else {
      TrimEndBlank(TrimStart(e), w);
    }
  }

  lemma {:induction false} TrimEndBlank(s: string, w: string)
    requires Blank(w)
    ensures TrimEnd(s + w) == TrimEnd(s)
    decreases |w|
  {
    hide IsWhitespace;
    if w == [] {
      assert s + w == s;
    } else {
      var t := s + w;
      assert t[..|t| - 1] == s + w[..|w| - 1];
      TrimEndBlank(s, w[..|w| - 1]);
    }
  }

  /** Trimming loses no word that has no white space at its ends. */
  lemma TrimKeeps(text: string, word: string)
    requires Contains(text, word) && word != [] && Trimmed(word)
    ensures Contains(Trim(text), word)
  {
    hide IsWhitespace, Contains;
    TrimStartKeeps(text, word);
    TrimEndKeeps(TrimStart(text), word);
  }

  function LowerAscii(s: string): (r: string)
    ensures |r| == |s|
  {
    seq(|s|, i requires 0 <= i < |s| =>
      if 'A' <= s[i] <= 'Z' then (s[i] as int + 32) as char else s[i])
  }

  // ------------------------------------------------------------------- UTF-8

  lemma LowerAt(s: string, i: nat)
    requires i < |s|
    ensures var c := LowerAscii(s)[i]; if 'A' <= s[i] <= 'Z' then c as int - 'a' as int == s[i] as int - 'A' as int
                                       else c == s[i]
  {
  }

  lemma LowerFixed(s: string)
    requires forall i | 0 <= i < |s| :: !('A' <= s[i] <= 'Z')
    ensures LowerAscii(s) == s
  {
  }

  function Utf8(c: char): (bytes: seq<bv8>)
    ensures 1 <= |bytes| <= 4
  {
    var n := c as int;
    if n < 0x80 then [n as bv8]
    else if n < 0x800 then [(0xC0 + n / 64) as bv8, (0x80 + n % 64) as bv8]
    else if n < 0x1_0000 then
      [(0xE0 + n / 4096) as bv8, (0x80 + n / 64 % 64) as bv8, (0x80 + n % 64) as bv8]
    else
      [(0xF0 + n / 262144) as bv8, (0x80 + n / 4096 % 64) as bv8,
       (0x80 + n / 64 % 64) as bv8, (0x80 + n % 64) as bv8]
  }

  function Utf8Bytes(s: string): seq<bv8> {
    if s == [] then [] else Utf8(s[0]) + Utf8Bytes(s[1..])
  }
}
