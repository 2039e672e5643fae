/**
 * Quoting of Windows command-line arguments (crates/proxy/src/codex_app.rs),
 * and the parser it is meant for: Microsoft's rules under "Parsing C
 * command-line arguments".
 */
module CommandLine {
  import opened Text

  // -------------------------------------------------------------------- quoting

  function Backslashes(n: nat): (s: string)
    ensures |s| == n && forall i | 0 <= i < n :: s[i] == '\\'
  {
    seq(n, _ => '\\')
  }

  /** An argument that needs no quotes: not empty, and free of white space, `"` and `\`. */
  predicate IsPlain(arg: string) {
    arg != [] && forall i | 0 <= i < |arg| :: !IsWhitespace(arg[i]) && arg[i] != '"' && arg[i] != '\\'
  }

  /** The quoted form of what is left of an argument after `pending` backslashes. */
  function Escape(arg: string, pending: nat): string {
    if arg == [] then Backslashes(pending * 2) + "\""
    else if arg[0] == '\\' then Escape(arg[1..], pending + 1)
    else if arg[0] == '"' then Backslashes(pending * 2 + 1) + "\"" + Escape(arg[1..], 0)
    else Backslashes(pending) + [arg[0]] + Escape(arg[1..], 0)
  }

  function Quote(arg: string): string {
    if IsPlain(arg) then arg else "\"" + Escape(arg, 0)
  }

  method WindowsQuoteCommandLineArgument(arg: string) returns (out: string)
    ensures out == Quote(arg)
  {
    if IsPlain(arg) {
      return arg;
    }
    out := "\"";
    var backslashes := 0;
    for i := 0 to |arg|
      invariant out + Escape(arg[i..], backslashes) == Quote(arg)
    {
      var ch := arg[i];
      assert arg[i..][1..] == arg[i + 1..];
      match ch {
        case '\\' =>
          backslashes := backslashes + 1;
        case '"' =>
          out := out + Backslashes(backslashes * 2 + 1);
          out := out + "\"";
          backslashes := 0;
        case _ =>
          out := out + Backslashes(backslashes);
          backslashes := 0;
          out := out + [ch];
      }
    }
    out := out + Backslashes(backslashes * 2);
    out := out + "\"";
  }

  function QuoteAll(args: seq<string>): (r: seq<string>)
    ensures |r| == |args| && forall i | 0 <= i < |args| :: r[i] == Quote(args[i])
  {
    seq(|args|, i requires 0 <= i < |args| => Quote(args[i]))
  }

  function WindowsCommandLineArguments(args: seq<string>): string {
    Join(QuoteAll(args), " ")
  }

  // -------------------------------------------------------------------- parsing

  predicate IsSeparator(c: char) {
    c == ' ' || c == '\t'
  }

  function LeadingBackslashes(s: string): (n: nat)
    ensures n <= |s|
    ensures forall i | 0 <= i < n :: s[i] == '\\'
    ensures n < |s| ==> s[n] != '\\'
  {
    if s == [] || s[0] != '\\' then 0 else 1 + LeadingBackslashes(s[1..])
  }

  datatype Parsed = Parsed(arg: string, rest: string)

  /**
   * One argument, from a position inside it.  Backslashes are literal unless they precede a quote;
   * before a quote each pair stands for one backslash, and an odd one makes the quote literal.
   * A quote otherwise opens or closes a quoted part, and a doubled quote inside a quoted part
   * stands for one.  Outside quotes a space or a tab ends the argument.
   */
  function ParseArg(s: string, quoted: bool): (r: Parsed)
    ensures |r.rest| <= |s|
    decreases |s|
  {
    var n := LeadingBackslashes(s);
    if n == |s| then Parsed(Backslashes(n), "")
    else if s[n] == '"' then
      if n % 2 == 1 then
        var tail := ParseArg(s[n + 1..], quoted);
        Parsed(Backslashes(n / 2) + "\"" + tail.arg, tail.rest)
      else if quoted && n + 1 < |s| && s[n + 1] == '"' then
        var tail := ParseArg(s[n + 2..], true);
        Parsed(Backslashes(n / 2) + "\"" + tail.arg, tail.rest)
      else
        var tail := ParseArg(s[n + 1..], !quoted);
        Parsed(Backslashes(n / 2) + tail.arg, tail.rest)
    else if !quoted && IsSeparator(s[n]) then Parsed(Backslashes(n), s[n..])
    else
      var tail := ParseArg(s[n + 1..], quoted);
      Parsed(Backslashes(n) + [s[n]] + tail.arg, tail.rest)
  }

  function SkipSeparators(s: string): (r: string)
    ensures |r| <= |s|
    ensures r != [] ==> !IsSeparator(r[0])
  {
    if s != [] && IsSeparator(s[0]) then SkipSeparators(s[1..]) else s
  }

  /** All arguments of a command line. */
  function Parse(s: string): seq<string>
    decreases |s|
  {
    var t := SkipSeparators(s);
    if t == [] then []
    else
      var first := ParseArg(t, false);
      ParseProgress(t);
      [first.arg] + Parse(first.rest)
  }

  lemma ParseProgress(t: string)
    requires t != [] && !IsSeparator(t[0])
    ensures |ParseArg(t, false).rest| < |t|
  {
  }

  // ----------------------------------------------------------------- round trip

  lemma SplitBackslashes(n: nat, c: char, tail: string)
    requires c != '\\'
    ensures var s := Backslashes(n) + [c] + tail;
            LeadingBackslashes(s) == n && s[n] == c && s[n + 1..] == tail
  {
    var s := Backslashes(n) + [c] + tail;
    assert forall i | 0 <= i < n :: s[i] == '\\';
    assert s[n] == c;
  }

  lemma ParseLiteral(n: nat, c: char, tail: string, quoted: bool)
    requires c != '\\' && c != '"' && (quoted || !IsSeparator(c))
    ensures var t := ParseArg(tail, quoted);
            ParseArg(Backslashes(n) + [c] + tail, quoted) == Parsed(Backslashes(n) + [c] + t.arg, t.rest)
  {
    hide Backslashes, LeadingBackslashes;
    SplitBackslashes(n, c, tail);
  }

  lemma ParseEscapedQuote(n: nat, tail: string, quoted: bool)
    ensures var t := ParseArg(tail, quoted);
            ParseArg(Backslashes(n * 2 + 1) + "\"" + tail, quoted) == Parsed(Backslashes(n) + "\"" + t.arg, t.rest)
  {
    hide Backslashes, LeadingBackslashes, IsSeparator;
    var k := n * 2 + 1;
    assert k % 2 == 1 && k / 2 == n;
    SplitBackslashes(k, '"', tail);
  }

  lemma ParseClosingQuote(n: nat, rest: string)
    requires Ends(rest)
    ensures ParseArg(Backslashes(n * 2) + "\"" + rest, true) == Parsed(Backslashes(n), rest)
  {
    hide LeadingBackslashes, IsSeparator;
    SplitBackslashes(n * 2, '"', rest);
    var s := Backslashes(n * 2) + "\"" + rest;
    assert |s| > n * 2 + 1 ==> s[n * 2 + 1] == rest[0] != '"' by {
      EndsNoQuote(rest);
    }
    ParseRest(rest);
    assert Backslashes(n) + "" == Backslashes(n);
  }

  lemma ParseOpeningQuote(tail: string)
    ensures ParseArg("\"" + tail, false) == ParseArg(tail, true)
  {
    assert LeadingBackslashes("\"" + tail) == 0;
    assert ("\"" + tail)[1..] == tail;
    assert Backslashes(0) + ParseArg(tail, true).arg == ParseArg(tail, true).arg;
  }

  /** What may follow an argument: nothing, or the separator in front of the next one. */
  predicate Ends(rest: string) {
    rest != [] ==> IsSeparator(rest[0])
  }

  lemma EndsNoQuote(rest: string)
    requires Ends(rest)
    ensures rest != [] ==> rest[0] != '"'
  {
  }

  lemma NoBackslashes(s: string)
    ensures Backslashes(0) + s == s
  {
  }

  lemma Regroup3(a: string, b: string, c: string, d: string)
    ensures a + b + c + d == a + b + (c + d)
    ensures a + b + c == a + (b + c)
  {
  }

  /** The quoted form of the rest of an argument parses back to it. */
  lemma {:induction false} EscapeParses(arg: string, pending: nat, rest: string)
    requires Ends(rest)
    ensures ParseArg(Escape(arg, pending) + rest, true) == Parsed(Backslashes(pending) + arg, rest)
    decreases |arg|
  {
    hide ParseArg, IsSeparator, LeadingBackslashes;
    if arg == [] {
      ParseClosingQuote(pending, rest);
      assert Backslashes(pending) + [] == Backslashes(pending);
    } else if arg[0] == '\\' {
      EscapeParses(arg[1..], pending + 1, rest);
      assert Backslashes(pending + 1) + arg[1..] == Backslashes(pending) + arg;
    } else {
      hide Backslashes;
      var e := Escape(arg[1..], 0);
      EscapeParses(arg[1..], 0, rest);
      NoBackslashes(arg[1..]);
      if arg[0] == '"' {
        assert Escape(arg, pending) == Backslashes(pending * 2 + 1) + "\"" + e;
        ParseEscapedQuote(pending, e + rest, true);
        hide Escape;
        Regroup3(Backslashes(pending * 2 + 1), "\"", e, rest);
      } else {
        assert Escape(arg, pending) == Backslashes(pending) + [arg[0]] + e;
        ParseLiteral(pending, arg[0], e + rest, true);
        hide Escape;
        Regroup3(Backslashes(pending), [arg[0]], e, rest);
      }
      assert [arg[0]] + arg[1..] == arg;
      Regroup3(Backslashes(pending), [arg[0]], arg[1..], "");
    }
  }

  lemma ParseRest(rest: string)
    requires Ends(rest)
    ensures ParseArg(rest, false) == Parsed("", rest)
  {
    assert LeadingBackslashes(rest) == 0;
    assert rest[0..] == rest;
  }

  lemma {:induction false} PlainParses(arg: string, rest: string)
    requires forall i | 0 <= i < |arg| :: !IsWhitespace(arg[i]) && arg[i] != '"' && arg[i] != '\\'
    requires Ends(rest)
    ensures ParseArg(arg + rest, false) == Parsed(arg, rest)
    decreases |arg|
  {
    hide ParseArg;
    if arg == [] {
      assert arg + rest == rest;
      ParseRest(rest);
    } else {
      PlainParses(arg[1..], rest);
      ParseLiteral(0, arg[0], arg[1..] + rest, false);
      assert arg + rest == Backslashes(0) + [arg[0]] + (arg[1..] + rest);
      assert arg == Backslashes(0) + [arg[0]] + arg[1..];
    }
  }

  lemma QuoteParses(arg: string, rest: string)
    requires Ends(rest)
    ensures ParseArg(Quote(arg) + rest, false) == Parsed(arg, rest)
    ensures Quote(arg) != [] && !IsSeparator(Quote(arg)[0])
  {
    hide ParseArg, Escape;
    if IsPlain(arg) {
      PlainParses(arg, rest);
    } else {
      EscapeParses(arg, 0, rest);
      ParseOpeningQuote(Escape(arg, 0) + rest);
      assert Quote(arg) + rest == "\"" + (Escape(arg, 0) + rest);
      assert Backslashes(0) + arg == arg;
    }
  }

  /** An argument is left as it is exactly when it is not empty and holds no white space, quote or
      backslash. */
  lemma QuotesOnlyIfNeeded(arg: string)
    ensures Quote(arg) == arg <==> arg != [] && forall c | c in arg :: !IsWhitespace(c) && c != '"' && c != '\\'
    ensures var q := Quote(arg); q != arg ==> |q| >= |arg| + 2 && q[0] == '"' && q[|q| - 1] == '"'
  {
    hide IsWhitespace, Escape;
    EscapeGrows(arg, 0);
    assert forall i | 0 <= i < |arg| :: arg[i] in arg;
  }

  lemma {:induction false} EscapeGrows(arg: string, pending: nat)
    ensures var e := Escape(arg, pending); |e| >= pending + |arg| + 1 && e[|e| - 1] == '"'
    decreases |arg|
  {
    if arg != [] {
      EscapeGrows(arg[1..], if arg[0] == '\\' then pending + 1 else 0);
    }
  }

  /** Parsing the command line gives back the arguments, whatever they contain. */
  lemma {:induction false} RoundTrip(args: seq<string>)
    ensures Parse(WindowsCommandLineArguments(args)) == args
    decreases |args|
  {
    if args != [] {
      var line := WindowsCommandLineArguments(args);
      var more := args[1..];
      assert QuoteAll(args)[1..] == QuoteAll(more);
      var rest := if more == [] then "" else " " + WindowsCommandLineArguments(more);
      assert line == Quote(args[0]) + rest;
      QuoteParses(args[0], rest);
      RoundTrip(more);
      assert Parse(rest) == Parse(WindowsCommandLineArguments(more)) by {
        SkipOne(WindowsCommandLineArguments(more));
      }
    }
  }

  lemma SkipOne(s: string)
    ensures Parse(" " + s) == Parse(s)
  {
    assert (" " + s)[1..] == s;
  }

  /** Different argument lists never share a command line. */
  lemma CommandLineInjective(a: seq<string>, b: seq<string>)
    requires WindowsCommandLineArguments(a) == WindowsCommandLineArguments(b)
    ensures a == b
  {
    RoundTrip(a);
    RoundTrip(b);
  }
}
