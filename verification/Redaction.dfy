/**
 * Removal of inline `data:` URLs from text, and truncation
 * (crates/core/src/context.rs).
 */
module Redaction {
  import opened Text

  /** The marker `data:` starts at position `i`. */
  predicate MarkerAt(text: string, i: nat) {
    && i + 5 <= |text|
    && text[i] == 'd' && text[i + 1] == 'a' && text[i + 2] == 't' && text[i + 3] == 'a' && text[i + 4] == ':'
  }

  /** No `data:` anywhere in the text. */
  predicate MarkerFree(text: string) {
    forall i: nat | i <= |text| :: !MarkerAt(text, i)
  }

  predicate NoColon(s: string) {
    forall i | 0 <= i < |s| :: s[i] != ':'
  }

  predicate IsTerminator(c: char) {
    c in {'"', '\'', ')', ']', '}', '<', '>', '\n', '\r', '\t', ' '}
  }

  /** Where the first marker starts, or the length when there is none. */
  function FindMarker(text: string): (i: nat)
    ensures i <= |text|
  {
    if text == [] || MarkerAt(text, 0) then 0 else 1 + FindMarker(text[1..])
  }

  lemma {:induction false} FindMarkerFirst(text: string)
    ensures FindMarker(text) < |text| ==> MarkerAt(text, FindMarker(text))
    ensures forall j: nat | j < FindMarker(text) :: !MarkerAt(text, j)
  {
    if text != [] && !MarkerAt(text, 0) {
      FindMarkerFirst(text[1..]);
      assert forall j: nat | 0 < j <= |text| :: MarkerAt(text, j) == MarkerAt(text[1..], j - 1);
    }
  }

  /** Where a URL starting at 0 ends: the first terminator after its first character. */
  function UrlEnd(text: string): (e: nat)
    requires text != []
    ensures 1 <= e <= |text|
  {
    if |text| == 1 || IsTerminator(text[1]) then 1 else 1 + UrlEnd(text[1..])
  }

  lemma {:induction false} UrlEndFirst(text: string)
    requires text != []
    ensures UrlEnd(text) < |text| ==> IsTerminator(text[UrlEnd(text)])
    ensures forall j | 1 <= j < UrlEnd(text) :: !IsTerminator(text[j])
  {
    hide IsTerminator;
    if |text| > 1 && !IsTerminator(text[1]) {
      UrlEndFirst(text[1..]);
      assert forall j | 2 <= j < |text| :: text[j] == text[1..][j - 1];
    }
  }

  function HexDigit(d: nat): (c: char)
    requires d < 16
    ensures c != ':'
  {
    if d < 10 then ('0' as int + d) as char else ('a' as int + (d - 10)) as char
  }

  function Hex(n: nat, width: nat): (s: string)
    ensures |s| == width && NoColon(s)
  {
    if width == 0 then "" else Hex(n / 16, width - 1) + [HexDigit(n % 16)]
  }

  /** 64-bit FNV-1a. */
  function Fnv(bytes: seq<bv8>, hash: bv64): bv64 {
    if bytes == [] then hash else Fnv(bytes[1..], FnvStep(hash, bytes[0]))
  }

  function FnvStep(hash: bv64, byte: bv8): bv64 {
    (hash ^ (byte as bv64)) * 0x100000001b3
  }

  function StableHashHex(text: string): (s: string)
    ensures NoColon(s)
  {
    Hex(Fnv(Utf8Bytes(text), 0xcbf29ce484222325) as nat, 16)
  }

  function Omitted(segment: string): (s: string)
    ensures NoColon(s) && s != [] && s[0] == '['
  {
    "[inline-data-url omitted chars=" + Counted(segment)
  }

  function Placeholder(segment: string): (s: string)
    ensures NoColon(s) && s != [] && s[0] == '[' && s[|s| - 1] == ']'
  {
    Omitted(segment) + " hash=" + StableHashHex(segment) + "]"
  }

  /** The size of a text in characters and in UTF-8 bytes. */
  function Counted(text: string): (s: string)
    ensures NoColon(s)
  {
    Decimal(|text|) + " bytes=" + Decimal(|Utf8Bytes(text)|)
  }

  function Redact(text: string): string {
    var start := FindMarker(text);
    if start == |text| then text
    else
      var end := start + UrlEnd(text[start..]);
      Replaced(text[..start], text[start..end], Redact(text[end..]))
  }

  function Replaced(plain: string, url: string, rest: string): string {
    plain + Placeholder(url) + rest
  }

  method RedactInlineDataUrls(text: string) returns (redacted: string)
    ensures redacted == Redact(text)
  {
    hide Placeholder, Redact, MarkerAt, IsTerminator;
    var cursor := 0;
    redacted := "";
    var changed := false;
    while FindMarker(text[cursor..]) < |text| - cursor
      invariant cursor <= |text|
      invariant redacted + Redact(text[cursor..]) == Redact(text)
      invariant !changed ==> cursor == 0 && redacted == ""
      decreases |text| - cursor
    {
      var start := cursor + FindMarker(text[cursor..]);
      redacted := redacted + text[cursor..start];
      var end := start + 1;
      while end < |text| && !IsTerminator(text[end])
        invariant start < end <= |text|
        invariant forall j | start < j < end :: !IsTerminator(text[j])
      {
        end := end + 1;
      }
      UrlEndAt(text, cursor, start, end);
      redacted := redacted + Placeholder(text[start..end]);
      cursor := end;
      changed := true;
    }
    MarkerFreeRest(text[cursor..]);
    if !changed {
      assert text[0..] == text;
      return text;
    }
    redacted := redacted + text[cursor..];
  }

  lemma MarkerFreeRest(text: string)
    requires FindMarker(text) == |text|
    ensures Redact(text) == text
  {
  }

  lemma UrlEndIs(text: string, e: nat)
    requires 1 <= e <= |text|
    requires e < |text| ==> IsTerminator(text[e])
    requires forall j | 1 <= j < e :: !IsTerminator(text[j])
    ensures UrlEnd(text) == e
  {
    hide IsTerminator, UrlEnd;
    UrlEndFirst(text);
    var u := UrlEnd(text);
    assert u < |text| ==> IsTerminator(text[u]);
    assert e < |text| ==> IsTerminator(text[e]);
  }

  lemma RedactFrom(rest: string, s: nat, e: nat)
    requires s == FindMarker(rest) < |rest| && e == UrlEnd(rest[s..])
    ensures s + e <= |rest|
    ensures Redact(rest) == Replaced(rest[..s], rest[s..s + e], Redact(rest[s + e..]))
  {
    hide Replaced, FindMarker, UrlEnd, MarkerAt, IsTerminator;
  }

  /** One turn of the redaction loop, in terms of positions in the whole text. */
  lemma UrlEndAt(text: string, cursor: nat, start: nat, end: nat)
    requires cursor <= start < end <= |text| && start == cursor + FindMarker(text[cursor..])
    requires end < |text| ==> IsTerminator(text[end])
    requires forall j | start < j < end :: !IsTerminator(text[j])
    ensures Redact(text[cursor..]) == text[cursor..start] + Placeholder(text[start..end]) + Redact(text[end..])
  {
    hide Placeholder, MarkerAt, IsTerminator, FindMarker, UrlEnd, Redact;
    var rest := text[cursor..];
    var s := start - cursor;
    var e := end - start;
    assert rest[s..] == text[start..];
    UrlEndIs(text[start..], e);
    RedactFrom(rest, s, e);
    assert rest[..s] == text[cursor..start];
    assert rest[s..s + e] == text[start..end];
    assert rest[s + e..] == text[end..];
  }

  // --------------------------------------------------- what redaction removes

  /** A marker cannot straddle a joint whose left side cannot end, or whose right side cannot
      continue, a proper prefix of it. */
  lemma MarkerFreeConcat(a: string, b: string)
    requires MarkerFree(a) && MarkerFree(b)
    requires a == [] || b == [] || a[|a| - 1] !in "dat" || b[0] !in "at:"
    ensures MarkerFree(a + b)
  {
    forall i: nat | i <= |a + b|
      ensures !MarkerAt(a + b, i)
    {
      if i + 5 <= |a| {
        assert !MarkerAt(a, i);
      } else if |a| <= i {
        assert !MarkerAt(b, i - |a|);
      }
    }
  }

  lemma NoColonMarkerFree(s: string)
    requires NoColon(s)
    ensures MarkerFree(s)
  {
  }

  lemma PrefixMarkerFree(s: string, n: nat)
    requires n <= |s|
    requires forall j: nat | j < n :: !MarkerAt(s, j)
    ensures MarkerFree(s[..n])
  {
    forall i: nat | i <= n
      ensures !MarkerAt(s[..n], i)
    {
      assert i < n ==> !MarkerAt(s, i);
    }
  }

  /** Redacted text contains no `data:`. */
  lemma {:induction false} RedactedIsMarkerFree(text: string)
    ensures MarkerFree(Redact(text))
    decreases |text|
  {
    hide Placeholder, MarkerAt, MarkerFree, IsTerminator, FindMarker, UrlEnd, Redact;
    var start := FindMarker(text);
    FindMarkerFirst(text);
    PrefixMarkerFree(text, start);
    if start == |text| {
      assert text[..start] == text;
      MarkerFreeRest(text);
    } else {
      var e := UrlEnd(text[start..]);
      RedactFrom(text, start, e);
      var end := start + e;
      RedactedIsMarkerFree(text[end..]);
      var p := Placeholder(text[start..end]);
      NoColonMarkerFree(p);
      MarkerFreeConcat(text[..start], p);
      MarkerFreeConcat(text[..start] + p, Redact(text[end..]));
    }
  }

  /** Redaction changes exactly the texts that contain `data:`. */
  lemma RedactFixedIffMarkerFree(text: string)
    ensures Redact(text) == text <==> MarkerFree(text)
  {
    RedactedIsMarkerFree(text);
    FindMarkerFirst(text);
  }

  lemma RedactIdempotent(text: string)
    ensures Redact(Redact(text)) == Redact(text)
  {
    RedactedIsMarkerFree(text);
    RedactFixedIffMarkerFree(Redact(text));
  }

  // ------------------------------------------- what redaction leaves untouched

  /** Text cut into plain stretches and URLs. */
  datatype Piece = Plain(text: string) | Url(text: string)

  function Source(pieces: seq<Piece>): string {
    if pieces == [] then "" else pieces[0].text + Source(pieces[1..])
  }

  function Shown(pieces: seq<Piece>): string {
    if pieces == [] then ""
    else (if pieces[0].Url? then Placeholder(pieces[0].text) else pieces[0].text) + Shown(pieces[1..])
  }

  /** A URL starts with the marker and runs up to the next terminator or the end. */
  predicate IsUrl(url: string, rest: string) {
    && MarkerAt(url, 0)
    && (forall j | 0 <= j < |url| :: !IsTerminator(url[j]))
    && (rest != [] ==> IsTerminator(rest[0]))
  }

  /** Plain, URL, plain, ..., URL, plain: every marker starts a URL. */
  predicate IsCut(pieces: seq<Piece>)
    decreases |pieces|
  {
    if |pieces| <= 1 then |pieces| == 1 && pieces[0].Plain? && MarkerFree(pieces[0].text)
    else
      && pieces[0].Plain? && MarkerFree(pieces[0].text)
      && pieces[1].Url? && IsUrl(pieces[1].text, Source(pieces[2..]))
      && IsCut(pieces[2..])
  }

  function Cut(text: string): seq<Piece>
  {
    var start := FindMarker(text);
    if start == |text| then [Plain(text)]
    else
      var end := start + UrlEnd(text[start..]);
      Before(text[..start], text[start..end], Cut(text[end..]))
  }

  function Before(plain: string, url: string, pieces: seq<Piece>): seq<Piece> {
    [Plain(plain), Url(url)] + pieces
  }

  lemma SourceOne(plain: string)
    ensures Source([Plain(plain)]) == plain == Shown([Plain(plain)])
    ensures MarkerFree(plain) ==> IsCut([Plain(plain)])
  {
  }

  lemma SourceTwo(plain: string, url: string, pieces: seq<Piece>)
    ensures Source(Before(plain, url, pieces)) == plain + (url + Source(pieces))
    ensures Shown(Before(plain, url, pieces)) == plain + (Placeholder(url) + Shown(pieces))
    ensures MarkerFree(plain) && IsUrl(url, Source(pieces)) && IsCut(pieces)
            ==> IsCut(Before(plain, url, pieces))
  {
    hide Placeholder, MarkerFree, IsUrl;
    var all := Before(plain, url, pieces);
    assert all[1..] == [Url(url)] + pieces;
    assert all[1..][1..] == pieces;
  }

  lemma CutLast(text: string)
    requires FindMarker(text) == |text|
    ensures Cut(text) == [Plain(text)]
  {
    hide FindMarker, UrlEnd;
  }

  lemma CutFrom(text: string, s: nat, e: nat)
    requires s == FindMarker(text) < |text| && e == UrlEnd(text[s..])
    ensures s + e <= |text|
    ensures Cut(text) == Before(text[..s], text[s..s + e], Cut(text[s + e..]))
  {
    hide FindMarker, UrlEnd, Before;
  }

  /** Every text has a cut ... */
  lemma {:induction false} CutExists(text: string)
    ensures IsCut(Cut(text)) && Source(Cut(text)) == text
    decreases |text|
  {
    hide IsTerminator, MarkerFree, MarkerAt, FindMarker, UrlEnd, IsUrl, IsCut, Source, Placeholder, Shown, Cut;
    var start := FindMarker(text);
    FindMarkerFirst(text);
    PrefixMarkerFree(text, start);
    if start == |text| {
      CutLast(text);
      SourceOne(text);
      assert text[..start] == text;
    } else {
      var e := UrlEnd(text[start..]);
      var end := start + e;
      CutFrom(text, start, e);
      CutExists(text[end..]);
      var url := text[start..end];
      UrlAtMarker(text, start);
      assert url == text[start..][..e] && text[end..] == text[start..][e..];
      SourceTwo(text[..start], url, Cut(text[end..]));
      assert text == text[..start] + (url + text[end..]);
    }
  }

  lemma UrlAtMarker(text: string, start: nat)
    requires MarkerAt(text, start)
    ensures var t := text[start..]; IsUrl(t[..UrlEnd(t)], t[UrlEnd(t)..])
  {
    var t := text[start..];
    assert MarkerAt(t, 0);
    var e := UrlEnd(t);
    UrlEndFirst(t);
    assert t[0] == 'd' && t[1] == 'a' && t[2] == 't' && t[3] == 'a' && t[4] == ':';
    assert e >= 5;
    assert MarkerAt(t[..e], 0);
    assert forall j | 0 <= j < e :: t[..e][j] == t[j];
  }

  /** ... and on any cut of a text, redaction replaces the URLs and keeps all the rest. */
  lemma {:induction false} RedactReplacesUrls(pieces: seq<Piece>)
    requires IsCut(pieces)
    ensures Redact(Source(pieces)) == Shown(pieces)
    decreases |pieces|
  {
    hide Placeholder, MarkerFree, IsTerminator, MarkerAt, FindMarker, UrlEnd, Shown, Source;
    var text := Source(pieces);
    if |pieces| == 1 {
      assert pieces == [Plain(pieces[0].text)];
      SourceOne(pieces[0].text);
      RedactFixedIffMarkerFree(text);
    } else {
      var plain, url, rest := pieces[0].text, pieces[1].text, Source(pieces[2..]);
      assert pieces == Before(plain, url, pieces[2..]);
      SourceTwo(plain, url, pieces[2..]);
      RedactReplacesUrls(pieces[2..]);
      FirstMarker(plain, url, rest);
      UrlEndsAt(url, rest);
      var start := |plain|;
      assert text[start..] == url + rest;
      assert text[..start] == plain && text[start..start + |url|] == url && text[start + |url|..] == rest;
    }
  }

  lemma FirstMarker(plain: string, url: string, rest: string)
    requires MarkerFree(plain) && MarkerAt(url, 0)
    ensures FindMarker(plain + (url + rest)) == |plain|
  {
    hide FindMarker;
    var text := plain + (url + rest);
    FindMarkerFirst(text);
    assert MarkerAt(text, |plain|);
    forall i: nat | i < |plain|
      ensures !MarkerAt(text, i)
    {
      assert !MarkerAt(plain, i);
    }
  }

  lemma UrlEndsAt(url: string, rest: string)
    requires IsUrl(url, rest)
    ensures url + rest != [] && UrlEnd(url + rest) == |url|
  {
    var t := url + rest;
    assert forall j | 0 <= j < |url| :: t[j] == url[j];
    assert rest != [] ==> t[|url|] == rest[0];
    UrlEndIs(t, |url|);
  }

  // --------------------------------------------------------------- truncation

  function Truncate(text: string, max: nat): string {
    if |text| <= max then text else text[..max] + TruncationNote(text)
  }

  function TruncationNote(text: string): (s: string)
    ensures NoColon(s) && s != [] && s[0] == '.' && s[|s| - 1] == ']'
  {
    "...[truncated chars=" + Counted(text) + "]"
  }

  /** Truncation cannot bring a marker back. */
  lemma TruncateMarkerFree(text: string, max: nat)
    requires MarkerFree(text)
    ensures MarkerFree(Truncate(text, max))
  {
    if |text| > max {
      PrefixMarkerFree(text, max);
      MarkerFreeConcat(text[..max], TruncationNote(text));
    }
  }

  lemma TruncateNonblank(text: string, max: nat)
    requires !Blank(text)
    ensures !Blank(Truncate(text, max))
  {
    if |text| > max {
      var t := Truncate(text, max);
      assert t[|t| - 1] == ']';
    }
  }

  /** A text is shown up to a limit: its redacted form if that fits, or else as much of it as fits. */
  predicate Shows(shown: string, text: string, max: nat) {
    var safe := Redact(text);
    if |safe| <= max then shown == safe
    else
      && |shown| > max && shown[..max] == safe[..max]
      && Contains(shown[max..], "[truncated chars=" + Decimal(|safe|))
  }

  lemma TruncateShows(text: string, max: nat)
    ensures Shows(Truncate(Redact(text), max), text, max)
  {
    hide Redact, Utf8Bytes;
    var safe := Redact(text);
    if |safe| > max {
      var shown := Truncate(safe, max);
      TruncateTail(safe, max);
      assert shown[..max] == safe[..max];
    }
  }

  lemma TruncateTail(text: string, max: nat)
    requires |text| > max
    ensures var shown := Truncate(text, max);
            |shown| > max && Contains(shown[max..], "[truncated chars=" + Decimal(|text|))
  {
    hide TruncationNote, Contains, Decimal;
    NoteTells(text);
    assert Truncate(text, max)[max..] == TruncationNote(text);
  }

  lemma NoteTells(text: string)
    ensures Contains(TruncationNote(text), "[truncated chars=" + Decimal(|text|))
  {
    hide Utf8Bytes, Decimal, Contains;
    var told, rest := "[truncated chars=" + Decimal(|text|), " bytes=" + Decimal(|Utf8Bytes(text)|) + "]";
    NoteIs(text, told, rest);
    ContainsMiddle("...", told, rest);
  }

  lemma NoteIs(text: string, told: string, rest: string)
    requires told == "[truncated chars=" + Decimal(|text|)
    requires rest == " bytes=" + Decimal(|Utf8Bytes(text)|) + "]"
    ensures TruncationNote(text) == "..." + told + rest
  {
    hide Utf8Bytes, Decimal;
  }

  /** Text free of `data:` that fits is shown as it is. */
  lemma ShowsPlain(shown: string, text: string, max: nat)
    requires Shows(shown, text, max) && MarkerFree(text) && |text| <= max
    ensures shown == text
  {
    hide Redact, MarkerFree;
    RedactFixedIffMarkerFree(text);
  }

  // ------------------------------------------------------------ the placeholder

  /** What ends a URL: a quote, a closing bracket, an angle bracket or a blank of these kinds. */
  lemma TerminatorsAre(c: char)
    ensures IsTerminator(c)
            <==> c == '"' || c == '\'' || c == ')' || c == ']' || c == '}' || c == '<' || c == '>'
                 || c == '\n' || c == '\r' || c == '\t' || c == ' '
  {
  }

  /** A placeholder tells the size of what it stands for, in characters and in bytes, and its hash. */
  lemma PlaceholderTells(segment: string)
    ensures Contains(Placeholder(segment), "chars=" + Decimal(|segment|) + " bytes=" + Decimal(|Utf8Bytes(segment)|))
    ensures EndsWith(Placeholder(segment), " hash=" + StableHashHex(segment) + "]")
  {
    hide Decimal, Utf8Bytes, StableHashHex, Contains;
    var size, tail := Counted(segment), " hash=" + StableHashHex(segment) + "]";
    var told := "chars=" + size;
    assert Placeholder(segment) == "[inline-data-url omitted " + told + tail;
    ContainsMiddle("[inline-data-url omitted ", told, tail);
    assert told == "chars=" + Decimal(|segment|) + " bytes=" + Decimal(|Utf8Bytes(segment)|);
  }

  /** One byte more is mixed in at the end. */
  lemma {:induction false} FnvMore(bytes: seq<bv8>, last: bv8, hash: bv64)
    ensures Fnv(bytes + [last], hash) == FnvStep(Fnv(bytes, hash), last)
    decreases |bytes|
  {
    hide FnvStep;
    if bytes != [] {
      var all := bytes + [last];
      assert all[1..] == bytes[1..] + [last];
      FnvMore(bytes[1..], last, FnvStep(hash, bytes[0]));
    }
  }
}
