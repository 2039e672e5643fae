/** Dotted version comparison and catalog revision order (crates/core/src/catalog.rs). */
module Versions {
  import opened Wrappers
  import opened Text

  const U64_MAX: nat := 0xFFFF_FFFF_FFFF_FFFF

  // --------------------------------------------------------------------- segments

  predicate IsSeparator(c: char) {
    c == '.' || c == '-' || c == '+'
  }

  /** The first separator, or the length when there is none. */
  function FirstSeparator(s: string): (i: nat)
    ensures i <= |s|
    ensures i < |s| ==> IsSeparator(s[i])
    ensures forall j | 0 <= j < i :: !IsSeparator(s[j])
  {
    if s == [] || IsSeparator(s[0]) then 0 else 1 + FirstSeparator(s[1..])
  }

  /** `trim_start_matches('v')` */
  function StripV(s: string): string {
    if s != [] && s[0] == 'v' then StripV(s[1..]) else s
  }

  function SegmentValue(segment: string): nat {
    match ParseUnsigned(Trim(segment), U64_MAX)
    case Some(n) => n
    case None => 0
  }

  /** The value of every segment; one that is no number counts as zero. */
  function Values(s: string): seq<nat>
    decreases |s|
  {
    var i := FirstSeparator(s);
    if i == |s| then [SegmentValue(s)] else [SegmentValue(s[..i])] + Values(s[i + 1..])
  }

  function Normalize(s: string): string {
    StripV(Trim(s))
  }

  function Segments(version: string): seq<nat> {
    Values(Normalize(version))
  }

  // ------------------------------------------------------------------- comparison

  /** Segment `i`; a missing one counts as zero. */
  function Padded(a: seq<nat>, i: nat): nat {
    if i < |a| then a[i] else 0
  }

  function Longer(a: seq<nat>, b: seq<nat>): nat {
    if |a| > |b| then |a| else |b|
  }

  predicate AtLeastFrom(a: seq<nat>, b: seq<nat>, i: nat)
    decreases Longer(a, b) - i
  {
    if i >= Longer(a, b) then true
    else if Padded(a, i) != Padded(b, i) then Padded(a, i) > Padded(b, i)
    else AtLeastFrom(a, b, i + 1)
  }

  predicate AtLeast(a: seq<nat>, b: seq<nat>) {
    AtLeastFrom(a, b, 0)
  }

  method VersionAtLeast(current: string, required: string) returns (r: bool)
    ensures r == AtLeast(Segments(current), Segments(required))
  {
    var a, b := Segments(current), Segments(required);
    for i := 0 to Longer(a, b)
      invariant AtLeastFrom(a, b, i) == AtLeast(a, b)
    {
      var left, right := Padded(a, i), Padded(b, i);
      if left != right {
        return left > right;
      }
    }
    return true;
  }

  /** The zero-padded sequences differ, first at a place where `a` is smaller. */
  ghost predicate Less(a: seq<nat>, b: seq<nat>) {
    exists i: nat :: LessAt(a, b, i)
  }

  ghost predicate LessAt(a: seq<nat>, b: seq<nat>, i: nat) {
    Padded(a, i) < Padded(b, i) && forall j: nat | j < i :: Padded(a, j) == Padded(b, j)
  }

  ghost predicate SameRank(a: seq<nat>, b: seq<nat>) {
    forall i: nat :: Padded(a, i) == Padded(b, i)
  }

  lemma {:induction false} AtLeastFromIsNotLess(a: seq<nat>, b: seq<nat>, i: nat)
    requires forall j: nat | j < i :: Padded(a, j) == Padded(b, j)
    ensures AtLeastFrom(a, b, i) <==> !Less(a, b)
    decreases Longer(a, b) - i
  {
    if i >= Longer(a, b) {
      assert forall j: nat :: Padded(a, j) == Padded(b, j);
    } else if Padded(a, i) != Padded(b, i) {
      if Padded(a, i) < Padded(b, i) {
        assert LessAt(a, b, i);
      } else {
        forall j: nat
          ensures !LessAt(a, b, j)
        {
          assert j > i ==> Padded(a, i) != Padded(b, i);
        }
      }
    } else {
      AtLeastFromIsNotLess(a, b, i + 1);
    }
  }

  /** The loop decides the zero-padded lexicographic order. */
  lemma AtLeastIsNotLess(a: seq<nat>, b: seq<nat>)
    ensures AtLeast(a, b) <==> !Less(a, b)
  {
    AtLeastFromIsNotLess(a, b, 0);
  }

  lemma LessTrichotomy(a: seq<nat>, b: seq<nat>)
    ensures Less(a, b) || Less(b, a) || SameRank(a, b)
    ensures !(Less(a, b) && Less(b, a))
    ensures SameRank(a, b) ==> !Less(a, b)
  {
    hide Padded;
    FirstDifference(a, b, 0);
  }

  lemma {:induction false} FirstDifference(a: seq<nat>, b: seq<nat>, i: nat)
    requires forall j: nat | j < i :: Padded(a, j) == Padded(b, j)
    ensures Less(a, b) || Less(b, a) || SameRank(a, b)
    decreases Longer(a, b) - i
  {
    if i >= Longer(a, b) {
      assert SameRank(a, b);
    } else if Padded(a, i) < Padded(b, i) {
      assert LessAt(a, b, i);
    } else if Padded(b, i) < Padded(a, i) {
      assert LessAt(b, a, i);
    } else {
      FirstDifference(a, b, i + 1);
    }
  }

  lemma LessTransitive(a: seq<nat>, b: seq<nat>, c: seq<nat>)
    requires Less(a, b) && (Less(b, c) || SameRank(b, c))
    ensures Less(a, c)
  {
    hide Padded;
    var i: nat :| LessAt(a, b, i);
    if SameRank(b, c) {
      assert LessAt(a, c, i);
    } else {
      var j: nat :| LessAt(b, c, j);
      assert LessAt(a, c, if i < j then i else j);
    }
  }

  /** Version comparison is a total preorder, and equivalent versions have the same segments up to
      trailing zeros. */
  lemma AtLeastIsTotalPreorder(a: seq<nat>, b: seq<nat>, c: seq<nat>)
    ensures AtLeast(a, a)
    ensures AtLeast(a, b) || AtLeast(b, a)
    ensures AtLeast(a, b) && AtLeast(b, c) ==> AtLeast(a, c)
    ensures AtLeast(a, b) && AtLeast(b, a) <==> SameRank(a, b)
  {
    hide AtLeast, Less, SameRank;
    AtLeastIsNotLess(a, a);
    AtLeastIsNotLess(a, b);
    AtLeastIsNotLess(b, a);
    AtLeastIsNotLess(b, c);
    AtLeastIsNotLess(a, c);
    LessTrichotomy(a, a);
    LessTrichotomy(a, b);
    LessTrichotomy(b, c);
    SameRankSymmetric(a, b);
    if Less(a, c) && !Less(a, b) && !Less(b, c) {
      if Less(b, a) {
        LessTransitive(b, a, c);
      } else {
        SameRankLess(a, b, c);
      }
    }
  }

  lemma SameRankSymmetric(a: seq<nat>, b: seq<nat>)
    ensures SameRank(a, b) <==> SameRank(b, a)
    ensures SameRank(a, a)
    ensures SameRank(a, b) ==> !Less(a, b) && !Less(b, a)
  {
    hide Padded;
  }

  lemma SameRankLess(a: seq<nat>, b: seq<nat>, c: seq<nat>)
    requires SameRank(a, b) && Less(a, c)
    ensures Less(b, c)
  {
    hide Padded;
    var i: nat :| LessAt(a, c, i);
    assert LessAt(b, c, i);
  }

  // ------------------------------------------------------ versions told from numbers

  /** The numbers, printed and separated by dots. */
  function Dotted(numbers: seq<nat>): string {
    if numbers == [] then ""
    else if |numbers| == 1 then Decimal(numbers[0])
    else Decimal(numbers[0]) + "." + Dotted(numbers[1..])
  }

  lemma DecimalPlain(n: nat)
    ensures FirstSeparator(Decimal(n)) == |Decimal(n)| && Trimmed(Decimal(n)) && Decimal(n)[0] != 'v'
  {
    hide FirstSeparator, Decimal;
    DigitsAreSolid();
    var s := Decimal(n);
    var i := FirstSeparator(s);
  }

  lemma DigitsAreSolid()
    ensures forall c | '0' <= c <= '9' :: !IsSeparator(c) && !IsWhitespace(c)
  {
  }

  lemma DecimalSegment(n: nat)
    requires n <= U64_MAX
    ensures SegmentValue(Decimal(n)) == n
  {
    hide Trim, Decimal, ParseUnsigned;
    DecimalPlain(n);
    TrimFixed(Decimal(n));
    ParseDecimal(n, U64_MAX);
  }

  lemma {:induction false} DottedValues(numbers: seq<nat>)
    requires numbers != [] && forall i | 0 <= i < |numbers| :: numbers[i] <= U64_MAX
    ensures Values(Dotted(numbers)) == numbers
  {
    hide SegmentValue, FirstSeparator, Decimal;
    var n, s := numbers[0], Dotted(numbers);
    var d := Decimal(n);
    DecimalPlain(n);
    DecimalSegment(n);
    if |numbers| > 1 {
      var rest := Dotted(numbers[1..]);
      DottedValues(numbers[1..]);
      FirstSeparatorConcat(d, "." + rest);
      DotSeparates(rest);
      assert s == d + ("." + rest) && s[..|d|] == d && s[|d| + 1..] == rest;
    } else {
      assert numbers == [n];
    }
  }

  lemma DotSeparates(rest: string)
    ensures FirstSeparator("." + rest) == 0
  {
  }

  /** A version printed from numbers, with or without a `v`, has those numbers as segments. */
  lemma DottedSegments(numbers: seq<nat>)
    requires numbers != [] && forall i | 0 <= i < |numbers| :: numbers[i] <= U64_MAX
    ensures Segments(Dotted(numbers)) == numbers && Segments("v" + Dotted(numbers)) == numbers
    ensures Rank(Dotted(numbers)) == numbers && Rank("v" + Dotted(numbers)) == numbers
    ensures StartsNumeric(Dotted(numbers)) && StartsNumeric("v" + Dotted(numbers))
  {
    hide Values, Dotted, FirstSeparator, ParseUnsigned, Trim, StripV;
    var s := Dotted(numbers);
    DottedValues(numbers);
    DottedPlain(numbers);
    TrimFixed(s);
    TrimFixed("v" + s);
    StripV0(s);
    DottedNumeric(numbers);
  }

  lemma StripV0(s: string)
    requires s != [] && s[0] != 'v'
    ensures StripV(s) == s && StripV("v" + s) == s
  {
    assert ("v" + s)[1..] == s;
  }

  lemma {:induction false} DottedPlain(numbers: seq<nat>)
    requires numbers != []
    ensures var s := Dotted(numbers);
            s != [] && s[0] != 'v' && !IsWhitespace(s[0]) && !IsWhitespace(s[|s| - 1]) && Trimmed("v" + s)
  {
    hide Decimal;
    DecimalPlain(numbers[0]);
    DigitsAreSolid();
    if |numbers| > 1 {
      DottedPlain(numbers[1..]);
    }
  }

  lemma DottedNumeric(numbers: seq<nat>)
    requires numbers != [] && numbers[0] <= U64_MAX
    ensures var s := Dotted(numbers); ParseUnsigned(s[..FirstSeparator(s)], U64_MAX).Some?
  {
    hide FirstSeparator, Decimal, ParseUnsigned;
    var s, d := Dotted(numbers), Decimal(numbers[0]);
    DecimalPlain(numbers[0]);
    ParseDecimal(numbers[0], U64_MAX);
    if |numbers| > 1 {
      var rest := "." + Dotted(numbers[1..]);
      FirstSeparatorConcat(d, rest);
      DotSeparates(Dotted(numbers[1..]));
      assert s == d + rest && s[..|d|] == d;
    } else {
      assert s[..|d|] == d;
    }
  }

  // -------------------------------------------------------------------- revisions

  predicate StartsNumeric(revision: string) {
    var s := Normalize(revision);
    ParseUnsigned(s[..FirstSeparator(s)], U64_MAX).Some?
  }

  /** Comparison of revisions looks at the segments of the already normalised text. */
  function Rank(revision: string): seq<nat> {
    Segments(Normalize(revision))
  }

  predicate RevisionIsOlder(current: string, candidate: string) {
    && StartsNumeric(candidate)
    && Normalize(current) != Normalize(candidate)
    && AtLeast(Rank(current), Rank(candidate))
  }

  /** A numeric candidate that is not turned away ranks at least as high as the current revision. */
  lemma NotOlderRanksHigher(current: string, candidate: string)
    requires StartsNumeric(candidate) && !RevisionIsOlder(current, candidate)
    ensures AtLeast(Rank(candidate), Rank(current))
  {
    hide AtLeast, Normalize, StartsNumeric;
    AtLeastIsTotalPreorder(Rank(current), Rank(candidate), Rank(candidate));
  }

  lemma SameTextSameRank(current: string, candidate: string)
    ensures Normalize(current) == Normalize(candidate) ==> SameRank(Rank(candidate), Rank(current))
  {
  }

  /** What is turned away: a numeric candidate that ranks lower, and one of equal rank that is
      written differently. */
  lemma OlderExactly(current: string, candidate: string)
    ensures RevisionIsOlder(current, candidate)
            <==> StartsNumeric(candidate)
                 && (|| Less(Rank(candidate), Rank(current))
                     || (SameRank(Rank(candidate), Rank(current)) && Normalize(current) != Normalize(candidate)))
  {
    hide AtLeast, Normalize, StartsNumeric, Rank, Less, SameRank;
    var a, b := Rank(current), Rank(candidate);
    SameTextSameRank(current, candidate);
    AtLeastIsNotLess(a, b);
    LessTrichotomy(a, b);
    LessTrichotomy(b, a);
    SameRankSymmetric(a, b);
  }

  /** The comparison means "older" on a numeric candidate exactly when the two are not of equal rank
      in different words. */
  lemma MeansOlderExactly(current: string, candidate: string)
    requires StartsNumeric(candidate)
    ensures (RevisionIsOlder(current, candidate) <==> Less(Rank(candidate), Rank(current)))
            <==> (SameRank(Rank(candidate), Rank(current)) ==> Normalize(current) == Normalize(candidate))
  {
    hide AtLeast, Normalize, StartsNumeric, Rank, Less, SameRank, RevisionIsOlder;
    OlderExactly(current, candidate);
    LessTrichotomy(Rank(candidate), Rank(current));
  }

  lemma PlainNormalizes(s: string)
    requires s != [] && Trimmed(s) && s[0] != 'v'
    ensures Normalize(s) == s
  {
    hide Trim;
    TrimFixed(s);
  }

  lemma DigitParses(s: string, d: nat)
    requires d < 10 && s == [Digit(d)]
    ensures ParseUnsigned(s, U64_MAX) == Some(d) && SegmentValue(s) == d && FirstSeparator(s) == 1
  {
    hide Trim;
    TrimFixed(s);
    assert s[..0] == "";
    assert DigitsValue("") == 0;
  }

  lemma OneAndOneZero()
    ensures Rank("1") == [1] && Rank("1.0") == [1, 0] && StartsNumeric("1.0")
    ensures Normalize("1") == "1" && Normalize("1.0") == "1.0"
  {
    hide Normalize, SegmentValue, ParseUnsigned, FirstSeparator;
    var one, both := "1", "1.0";
    PlainNormalizes(one);
    PlainNormalizes(both);
    DigitParses("1", 1);
    DigitParses("0", 0);
    assert IsSeparator(both[1]) && !IsSeparator(both[0]);
    assert both[..1] == "1" && both[2..] == "0" && one[..1] == one;
  }

  /** A candidate that is not older and is turned away. */
  lemma EqualRankTurnedAway()
    ensures RevisionIsOlder("1", "1.0") && SameRank(Rank("1.0"), Rank("1"))
  {
    hide Rank, Normalize, StartsNumeric, AtLeast;
    OneAndOneZero();
    assert SameRank(Rank("1.0"), Rank("1"));
    OlderExactly("1", "1.0");
  }

  // ------------------------------------------------------------- the `+user` suffix

  /** A suffix that trimming and stripping leave alone. */
  predicate IsSolid(u: string) {
    u != [] && !IsWhitespace(u[0]) && !IsWhitespace(u[|u| - 1]) && u[0] != 'v'
  }

  /** The separator and a segment that is no number. */
  predicate AddsZero(u: string) {
    IsSolid(u) && FirstSeparator(u) == 0 && Values(u[1..]) == [0]
  }

  lemma TrimBlankTail(s: string, w: string)
    requires Blank(w)
    ensures Trim(s + w) == Trim(s)
  {
    TrimStartConcat(s, w);
    if Blank(s) {
      TrimStartBlank(w);
      TrimStartBlank(s);
    } else {
      TrimEndBlank(TrimStart(s), w);
    }
  }

  lemma BlankHasNoSeparator(w: string)
    requires Blank(w)
    ensures forall i | 0 <= i < |w| :: !IsSeparator(w[i])
  {
  }

  lemma FirstSeparatorConcat(a: string, b: string)
    ensures FirstSeparator(a) < |a| ==> FirstSeparator(a + b) == FirstSeparator(a)
    ensures FirstSeparator(a) == |a| ==> FirstSeparator(a + b) == |a| + FirstSeparator(b)
  {
    var i, j, k := FirstSeparator(a), FirstSeparator(a + b), FirstSeparator(b);
    assert forall x | 0 <= x < |a| :: (a + b)[x] == a[x];
    assert forall x | 0 <= x < |b| :: (a + b)[|a| + x] == b[x];
  }

  lemma {:induction false} ValuesBlankTail(s: string, w: string)
    requires Blank(w)
    ensures Values(s + w) == Values(s)
    decreases |s|
  {
    hide SegmentValue, FirstSeparator, IsWhitespace;
    BlankHasNoSeparator(w);
    FirstSeparatorConcat(s, w);
    var i := FirstSeparator(s);
    if i == |s| {
      SegmentBlankTail(s, w);
      assert FirstSeparator(w) == |w|;
    } else {
      var t := s + w;
      assert t[..i] == s[..i] && t[i + 1..] == s[i + 1..] + w;
      ValuesBlankTail(s[i + 1..], w);
    }
  }

  lemma SegmentBlankTail(s: string, w: string)
    requires Blank(w)
    ensures SegmentValue(s + w) == SegmentValue(s)
  {
    TrimBlankTail(s, w);
  }

  lemma {:induction false} ValuesSuffixed(s: string, u: string)
    requires AddsZero(u)
    ensures Values(s + u) == Values(s) + [0]
    decreases |s|
  {
    hide SegmentValue, FirstSeparator, IsSolid;
    var t := s + u;
    FirstSeparatorConcat(s, u);
    var i := FirstSeparator(s);
    assert u != [] by {
      SolidNonempty(u);
    }
    if i == |s| {
      assert t[..i] == s && t[i + 1..] == u[1..];
    } else {
      assert t[..i] == s[..i] && t[i + 1..] == s[i + 1..] + u;
      ValuesSuffixed(s[i + 1..], u);
    }
  }

  lemma SolidNonempty(u: string)
    requires IsSolid(u)
    ensures u != [] && TrimStart(u) == u
  {
  }

  lemma {:induction false} StripVConcat(s: string, b: string)
    requires b == [] || b[0] != 'v'
    ensures StripV(s + b) == StripV(s) + b
  {
    if s == [] {
      assert s + b == b;
    } else {
      var t := s + b;
      assert t[1..] == s[1..] + b;
      if s[0] == 'v' {
        StripVConcat(s[1..], b);
      }
    }
  }

  lemma TrimEndSolid(a: string, u: string)
    requires IsSolid(u)
    ensures TrimEnd(a + u) == a + u
  {
    var t := a + u;
    assert t[|t| - 1] == u[|u| - 1];
  }

  lemma TrimSuffixed(s: string, u: string)
    requires IsSolid(u)
    ensures Trim(s + u) == TrimStart(s) + u
  {
    hide TrimStart, TrimEnd, IsSolid, Blank;
    TrimStartConcat(s, u);
    SolidNonempty(u);
    TrimEndSolid(TrimStart(s), u);
    if Blank(s) {
      TrimStartBlank(s);
      assert [] + u == u;
    }
  }

  lemma BlankThenSolid(w: string, u: string)
    requires Blank(w) && IsSolid(u)
    ensures w + u != [] && (w + u)[0] != 'v'
  {
    assert w != [] ==> IsWhitespace(w[0]);
  }

  /** Normalising a suffixed text: the suffix stays, the text before it keeps its trailing blanks. */
  lemma NormalizeSuffixed(s: string, u: string) returns (w: string)
    requires IsSolid(u)
    ensures Blank(w) && Normalize(s + u) == Normalize(s) + w + u
  {
    hide StripV, TrimStart, TrimEnd, Blank, IsSolid;
    var a := TrimStart(s);
    var e := TrimEnd(a);
    w := a[|e|..];
    TrimSuffixed(s, u);
    assert a == e + w;
    Reassociate(e, w, u);
    BlankThenSolid(w, u);
    StripVConcat(e, w + u);
    Reassociate(StripV(e), w, u);
  }

  lemma Reassociate(a: string, b: string, c: string)
    ensures a + (b + c) == a + b + c
  {
  }

  lemma SegmentsSuffixed(s: string, u: string)
    requires AddsZero(u)
    ensures Segments(s + u) == Segments(s) + [0]
  {
    hide Values, Normalize;
    var w := NormalizeSuffixed(s, u);
    ValuesSuffixed(Normalize(s) + w, u);
    ValuesBlankTail(Normalize(s), w);
  }

  lemma SegmentsBlankTail(s: string, w: string)
    requires Blank(w)
    ensures Segments(s + w) == Segments(s)
  {
    TrimBlankTail(s, w);
  }

  lemma RankSuffixed(revision: string, u: string)
    requires AddsZero(u)
    ensures SameRank(Rank(revision + u), Rank(revision))
  {
    hide Segments, Normalize;
    var w := NormalizeSuffixed(revision, u);
    SegmentsSuffixed(Normalize(revision) + w, u);
    SegmentsBlankTail(Normalize(revision), w);
  }

  lemma UserAddsZero()
    ensures AddsZero("+user")
  {
    hide FirstSeparator, Values, IsWhitespace;
    var u := "+user";
    assert u[1..] == "user" && IsSeparator(u[0]);
    UserIsWord("user");
    UserEnds(u);
  }

  lemma UserEnds(u: string)
    requires u == "+user"
    ensures IsSolid(u)
  {
    assert u[0] == '+' && u[4] == 'r';
  }

  lemma UserIsWord(t: string)
    requires t == "user"
    ensures Values(t) == [0]
  {
    hide FirstSeparator, Trim, SegmentValue;
    assert forall i | 0 <= i < 4 :: !IsSeparator(t[i]);
    UserIsNoNumber(t);
  }

  lemma UserIsNoNumber(t: string)
    requires t == "user"
    ensures SegmentValue(t) == 0
  {
    hide Trim;
    TrimFixed(t);
    assert t[0] == 'u' && !AllDigits(t);
  }

  /** The suffix that marks user overrides does not change a revision's rank. */
  lemma UserSuffixKeepsRank(revision: string)
    ensures SameRank(Rank(revision + "+user"), Rank(revision))
  {
    hide AddsZero, SameRank, Rank;
    UserAddsZero();
    RankSuffixed(revision, "+user");
  }
}
