/**
 * Where a new `[codeseex]` table goes in the user's config file, and the splice
 * that puts it there (crates/core/src/codex_config.rs).  Offsets count
 * characters.
 */
module ConfigSplice {
  import opened Text

  // ------------------------------------------------------------------------ lines

  /** `split_inclusive('\n')`: every line keeps its newline. */
  function Lines(text: string): (lines: seq<string>)
    ensures forall i | 0 <= i < |lines| :: lines[i] != []
    decreases |text|
  {
    if text == [] then []
    else
      var i := IndexOf(text, '\n');
      if i == |text| then [text] else [text[..i + 1]] + Lines(text[i + 1..])
  }

  function Concat(lines: seq<string>): string {
    if lines == [] then [] else lines[0] + Concat(lines[1..])
  }

  /** Where line `k` starts. */
  function LineStart(lines: seq<string>, k: nat): nat
    requires k <= |lines|
  {
    |Concat(lines[..k])|
  }

  lemma {:induction false} LinesConcat(text: string)
    ensures Concat(Lines(text)) == text
    decreases |text|
  {
    if text != [] {
      var i := IndexOf(text, '\n');
      if i < |text| {
        LinesConcat(text[i + 1..]);
        assert Lines(text)[1..] == Lines(text[i + 1..]);
      }
    }
  }

  lemma {:induction false} ConcatSplits(a: seq<string>, b: seq<string>)
    ensures Concat(a + b) == Concat(a) + Concat(b)
  {
    if a == [] {
      assert a + b == b;
    } else {
      var s := a + b;
      assert s[1..] == a[1..] + b;
      ConcatSplits(a[1..], b);
    }
  }

  lemma NextLineStart(lines: seq<string>, k: nat)
    requires k < |lines|
    ensures LineStart(lines, k + 1) == LineStart(lines, k) + |lines[k]|
  {
    assert lines[..k + 1] == lines[..k] + [lines[k]];
    ConcatSplits(lines[..k], [lines[k]]);
    assert Concat([lines[k]]) == lines[k] + [];
  }

  predicate EndsLine(text: string) {
    text == [] || text[|text| - 1] == '\n'
  }

  /** Text that ends a line can be cut off without changing the lines. */
  lemma {:induction false} LinesSplit(a: string, b: string)
    requires EndsLine(a)
    ensures Lines(a + b) == Lines(a) + Lines(b)
    decreases |a|
  {
    hide IndexOf, Lines, EndsLine;
    if a == [] {
      assert a + b == b;
      NoLines(a);
    } else {
      var i := IndexOf(a, '\n');
      HasNewline(a);
      EndOfTail(a, i + 1);
      LinesSplit(a[i + 1..], b);
      LinesStep(a, b, i);
      var first, rest, more := a[..i + 1], Lines(a[i + 1..]), Lines(b);
      assert [first] + (rest + more) == ([first] + rest) + more;
    }
  }

  /** The first line of `a` is the first line of `a` and anything after it. */
  lemma LinesStep(a: string, b: string, i: nat)
    requires i == IndexOf(a, '\n') < |a|
    ensures Lines(a) == [a[..i + 1]] + Lines(a[i + 1..])
    ensures Lines(a + b) == [a[..i + 1]] + Lines(a[i + 1..] + b)
  {
    hide IndexOf, Lines;
    FirstNewline(a, b, i);
    CutConcat(a, b, i + 1);
    FirstLine(a, i);
    FirstLine(a + b, i);
  }

  lemma FirstLine(text: string, i: nat)
    requires i == IndexOf(text, '\n') < |text|
    ensures Lines(text) == [text[..i + 1]] + Lines(text[i + 1..])
  {
    hide IndexOf;
  }

  lemma EndOfTail(a: string, n: nat)
    requires EndsLine(a) && n <= |a|
    ensures EndsLine(a[n..])
  {
  }

  lemma HasNewline(a: string)
    requires EndsLine(a) && a != []
    ensures IndexOf(a, '\n') < |a|
  {
    assert a[|a| - 1] in a && a[..|a|] == a;
  }

  lemma CutConcat(a: string, b: string, n: nat)
    requires n <= |a|
    ensures (a + b)[..n] == a[..n] && (a + b)[n..] == a[n..] + b
  {
  }

  lemma FirstNewline(a: string, b: string, i: nat)
    requires i == IndexOf(a, '\n') < |a|
    ensures IndexOf(a + b, '\n') == i
  {
    var s := a + b;
    var j := IndexOf(s, '\n');
    assert s[i] == '\n';
    assert forall k | 0 <= k < i :: a[..i][k] == s[k];
    assert forall k | 0 <= k < j :: s[..j][k] == s[k];
  }

  // ---------------------------------------------------------------------- headers

  predicate IsHeader(line: string) {
    StartsWith(TrimStart(line), "[")
  }

  predicate IsProviderHeader(line: string) {
    StartsWith(TrimStart(line), "[model_providers.")
  }

  lemma ProviderIsHeader(line: string)
    ensures IsProviderHeader(line) ==> IsHeader(line)
  {
  }

  /** A line is a header exactly when its first character that is not white space is `[`, and a
      provider header when `[model_providers.` starts there. */
  lemma HeaderExactly(line: string)
    ensures IsHeader(line) <==> exists i | 0 <= i < |line| :: Blank(line[..i]) && line[i] == '['
    ensures IsProviderHeader(line)
            <==> exists i | 0 <= i < |line| :: Blank(line[..i]) && OccursAt(line, "[model_providers.", i)
  {
    hide TrimStart, Blank;
    var rest := TrimStart(line);
    var cut := |line| - |rest|;
    if i :| 0 <= i < |line| && Blank(line[..i]) && line[i] == '[' {
      FirstNonblankAt(line, i);
    }
    if i :| 0 <= i < |line| && Blank(line[..i]) && OccursAt(line, "[model_providers.", i) {
      assert line[i] == line[i..i + |"[model_providers."|][0];
      FirstNonblankAt(line, i);
    }
    if IsHeader(line) {
      assert line[cut] == rest[0];
    }
    if IsProviderHeader(line) {
      assert line[cut..cut + |"[model_providers."|] == rest[..|"[model_providers."|];
    }
  }

  lemma FirstNonblankAt(line: string, i: nat)
    requires i < |line| && Blank(line[..i]) && !IsWhitespace(line[i])
    ensures TrimStart(line) == line[i..]
  {
    hide IsWhitespace;
    assert line == line[..i] + line[i..];
    TrimStartConcat(line[..i], line[i..]);
  }

  predicate NoHeader(lines: seq<string>, lo: nat, hi: nat)
    requires hi <= |lines|
  {
    forall i | lo <= i < hi :: !IsHeader(lines[i])
  }

  predicate NoProvider(lines: seq<string>, lo: nat, hi: nat)
    requires hi <= |lines|
  {
    forall i | lo <= i < hi :: !IsProviderHeader(lines[i])
  }

  /** Line `q` is the first header from `lo` on, or the end. */
  predicate IsNextHeader(lines: seq<string>, lo: nat, q: nat)
  {
    lo <= q <= |lines| && NoHeader(lines, lo, q) && (q < |lines| ==> IsHeader(lines[q]))
  }

  /** Line `p` is the last provider header. */
  predicate IsLastProvider(lines: seq<string>, p: nat) {
    p < |lines| && IsProviderHeader(lines[p]) && NoProvider(lines, p + 1, |lines|)
  }

  /** The new table goes right after the table of the last provider; without one, in front of the
      first table. */
  ghost predicate IsInsertLine(lines: seq<string>, q: nat) {
    || (exists p: nat :: IsLastProvider(lines, p) && IsNextHeader(lines, p + 1, q))
    || (NoProvider(lines, 0, |lines|) && IsNextHeader(lines, 0, q))
  }

  lemma InsertLineUnique(lines: seq<string>, q: nat, r: nat)
    requires IsInsertLine(lines, q) && IsInsertLine(lines, r)
    ensures q == r
  {
    hide IsHeader, IsProviderHeader;
  }

  /** The start of the insertion line. */
  ghost predicate IsInsertOffset(text: string, o: nat) {
    exists line: nat :: InsertsAt(text, line, o)
  }

  ghost predicate InsertsAt(text: string, line: nat, o: nat) {
    line <= |Lines(text)| && IsInsertLine(Lines(text), line) && o == LineStart(Lines(text), line)
  }

  /** No file has two insertion points. */
  lemma InsertOffsetUnique(text: string, o: nat, r: nat)
    requires IsInsertOffset(text, o) && IsInsertOffset(text, r)
    ensures o == r <= |text|
  {
    hide IsInsertLine, LineStart, Lines;
    var line: nat :| InsertsAt(text, line, o);
    var other: nat :| InsertsAt(text, other, r);
    InsertLineUnique(Lines(text), line, other);
    CutAtLine(text, line);
  }

  /** Line numbers of an optional offset. */
  ghost predicate At(lines: seq<string>, offset: int, line: int) {
    if line < 0 then offset == -1 else line <= |lines| && offset == LineStart(lines, line)
  }

  method CodeseexInsertOffset(text: string) returns (result: nat)
    ensures IsInsertOffset(text, result)
  {
    hide IsHeader, IsProviderHeader, LineStart, Lines;
    var lines := Lines(text);
    var offset: nat := 0;
    var firstTable: int, providerEnd: int := -1, -1;
    var insideProvider := false;
    ghost var first: int, end: int, last: int := -1, -1, -1;
    assert LineStart(lines, 0) == 0 by {
      StartIsZero(lines);
    }
    for k := 0 to |lines|
      invariant offset == LineStart(lines, k)
      invariant At(lines, firstTable, first) && At(lines, providerEnd, end)
      invariant if first < 0 then NoHeader(lines, 0, k) else first < k && IsNextHeader(lines, 0, first)
      invariant -1 <= last < k
      invariant if last < 0 then NoProvider(lines, 0, k) && end < 0 && !insideProvider
                else IsProviderHeader(lines[last]) && NoProvider(lines, last + 1, k)
      invariant last >= 0 && insideProvider ==> NoHeader(lines, last + 1, k)
      invariant last >= 0 && !insideProvider ==> 0 <= end < k && IsNextHeader(lines, last + 1, end)
    {
      var row := lines[k];
      ProviderIsHeader(row);
      NextLineStart(lines, k);
      if IsHeader(row) {
        if firstTable == -1 {
          firstTable := offset;
          first := k;
        }
        if insideProvider {
          providerEnd := offset;
          end := k;
          insideProvider := false;
        }
        if IsProviderHeader(row) {
          insideProvider := true;
          last := k;
        }
      }
      offset := offset + |row|;
    }
    EndIsLength(text);
    if insideProvider {
      providerEnd := |text|;
      end := |lines|;
    }
    assert last >= 0 ==> IsLastProvider(lines, last) && end >= 0 && IsNextHeader(lines, last + 1, end);
    if providerEnd != -1 {
      assert InsertsAt(text, end, providerEnd);
      return providerEnd;
    } else if firstTable != -1 {
      assert InsertsAt(text, first, firstTable);
      return firstTable;
    } else {
      assert InsertsAt(text, |lines|, |text|);
      return |text|;
    }
  }

  lemma StartIsZero(lines: seq<string>)
    ensures LineStart(lines, 0) == 0
  {
  }

  lemma EndIsLength(text: string)
    ensures LineStart(Lines(text), |Lines(text)|) == |text|
  {
    LinesConcat(text);
    assert Lines(text)[..|Lines(text)|] == Lines(text);
  }

  // ----------------------------------------------------------------------- splice

  /** What goes between the two halves of the file. */
  function Inserted(before: string, block: string): string {
    (if before != [] && before[|before| - 1] != '\n' then "\n" else "") + "\n" + block
    + if block != [] && block[|block| - 1] != '\n' then "\n" else ""
  }

  function Spliced(text: string, block: string, o: nat): string
    requires o <= |text|
  {
    text[..o] + Inserted(text[..o], block) + text[o..]
  }

  method SpliceBlock(text: string, block: string) returns (output: string)
    ensures exists o: nat :: IsInsertOffset(text, o) && o <= |text| && output == Spliced(text, block, o)
  {
    hide IsInsertOffset;
    var offset := CodeseexInsertOffset(text);
    InsertOffsetUnique(text, offset, offset);
    output := text[..offset];
    ghost var before := output;
    if output != [] && output[|output| - 1] != '\n' {
      output := output + "\n";
    }
    output := output + "\n";
    output := output + block;
    assert output[|output| - 1] == if block == [] then '\n' else block[|block| - 1];
    if output[|output| - 1] != '\n' {
      output := output + "\n";
    }
    assert output == before + Inserted(before, block);
    output := output + text[offset..];
  }

  /** Cutting at a line start cuts the lines in two. */
  lemma CutAtLine(text: string, line: nat)
    requires line <= |Lines(text)|
    ensures var lines := Lines(text);
            var o := LineStart(lines, line);
            o <= |text| && text[..o] == Concat(lines[..line]) && text[o..] == Concat(lines[line..])
  {
    var lines := Lines(text);
    LinesConcat(text);
    assert lines == lines[..line] + lines[line..];
    ConcatSplits(lines[..line], lines[line..]);
  }

  /** Deleting the inserted text restores the file. */
  lemma DeletingRestores(text: string, block: string, o: nat)
    requires o <= |text|
    ensures var output := Spliced(text, block, o);
            |output| >= o + |Inserted(text[..o], block)|
            && output[..o] + output[o + |Inserted(text[..o], block)|..] == text
  {
    hide Inserted;
  }

  lemma {:induction false} LinesOfConcat(lines: seq<string>)
    requires forall i | 0 <= i < |lines| :: EndsLine(lines[i]) && |Lines(lines[i])| == 1
    ensures Lines(Concat(lines)) == lines && EndsLine(Concat(lines))
  {
    if lines != [] {
      LinesOfConcat(lines[1..]);
      LinesSplit(lines[0], Concat(lines[1..]));
      LinesConcatOne(lines[0]);
    }
  }

  /** Every line but the last ends with a newline and holds no other. */
  lemma {:induction false} LinesShape(text: string, k: nat)
    requires k < |Lines(text)|
    ensures Lines(Lines(text)[k]) == [Lines(text)[k]]
    ensures k + 1 < |Lines(text)| || EndsLine(text) ==> EndsLine(Lines(text)[k])
    ensures k + 1 == |Lines(text)| && EndsLine(Lines(text)[k]) ==> EndsLine(text)
    decreases |text|
  {
    hide IndexOf, Lines, EndsLine;
    NoLines(text);
    LinesFirst(text);
    var i := IndexOf(text, '\n');
    if i < |text| {
      var first, rest := text[..i + 1], text[i + 1..];
      assert text == first + rest;
      NoLines(rest);
      EndOfRest(first, rest);
      if k == 0 {
        SingleLine(text, i);
        assert rest == [] ==> text == first;
      } else {
        assert Lines(text)[k] == Lines(rest)[k - 1];
        LinesShape(rest, k - 1);
      }
    } else {
      NoNewlineAtEnd(text);
    }
  }

  lemma EndOfRest(first: string, rest: string)
    ensures rest != [] ==> EndsLine(first + rest) == EndsLine(rest)
  {
  }

  lemma LinesFirst(text: string)
    requires text != []
    ensures var i := IndexOf(text, '\n');
            Lines(text) == if i == |text| then [text] else [text[..i + 1]] + Lines(text[i + 1..])
  {
    hide IndexOf;
  }

  lemma NoLines(text: string)
    ensures Lines(text) == [] <==> text == []
  {
  }

  lemma NoNewlineAtEnd(text: string)
    requires text != [] && IndexOf(text, '\n') == |text|
    ensures !EndsLine(text)
  {
    assert text[..|text|][|text| - 1] == text[|text| - 1];
  }

  lemma SingleLine(text: string, i: nat)
    requires i == IndexOf(text, '\n') < |text|
    ensures Lines(text[..i + 1]) == [text[..i + 1]] && EndsLine(text[..i + 1])
  {
    hide Lines, IndexOf;
    var first := text[..i + 1];
    PrefixNewline(text, i);
    LinesFirst(first);
    NoLines(first[i + 1..]);
    assert first[..i + 1] == first && first[i + 1..] == [];
  }

  lemma PrefixNewline(text: string, i: nat)
    requires i == IndexOf(text, '\n') < |text|
    ensures IndexOf(text[..i + 1], '\n') == i
  {
    hide IndexOf;
    var first := text[..i + 1];
    var j := IndexOf(first, '\n');
    assert first[i] == '\n';
    assert forall k | 0 <= k < i :: text[..i][k] == first[k];
    assert forall k | 0 <= k < j :: first[..j][k] == first[k];
  }

  /** The lines in front of the insertion, the last one ended if it was not. */
  function Terminated(lines: seq<string>): seq<string> {
    if lines == [] || EndsLine(lines[|lines| - 1]) then lines
    else lines[..|lines| - 1] + [lines[|lines| - 1] + "\n"]
  }

  /** The splice keeps every line of the file whole and in order, and adds an empty line and the
      block's own lines between two of them. */
  lemma SpliceKeepsLines(text: string, block: string, line: nat)
    requires line <= |Lines(text)| && EndsLine(block)
    ensures var lines := Lines(text);
            var o := LineStart(lines, line);
            o <= |text|
            && Lines(Spliced(text, block, o))
               == Terminated(lines[..line]) + ["\n"] + Lines(block) + lines[line..]
  {
    hide Lines, Inserted, Terminated, LineStart, Concat;
    var lines := Lines(text);
    CutAtLine(text, line);
    var o := LineStart(lines, line);
    var before, after := text[..o], text[o..];
    TailLines(text, line);
    HeadLines(text, line);
    var ended := if EndsLine(before) then before else before + "\n";
    InsertedShape(before, block, after);
    SplicedLines(ended, block, after);
  }

  /** Line `h` is the last header line up to line `k`, or there is none and `h` is -1. */
  predicate BelongsTo(lines: seq<string>, k: nat, h: int)
    requires k < |lines|
  {
    -1 <= h <= k && (h >= 0 ==> IsHeader(lines[h])) && NoHeader(lines, h + 1, k + 1)
  }

  /** Where line `k` of the file is after the splice in front of line `line`. */
  function Moved(k: int, line: nat, added: nat): int {
    if k < line then k else k + added
  }

  /** Ending a line does not make it a header or stop it being one. */
  lemma EndedHeader(line: string)
    ensures IsHeader(line + "\n") == IsHeader(line)
  {
    hide TrimStart;
    TrimStartConcat(line, "\n");
    assert Blank("\n");
    if Blank(line) {
      TrimStartBlank(line);
      TrimStartBlank("\n");
    } else {
      TrimEmptyIffBlank(line);
      assert (TrimStart(line) + "\n")[0] == TrimStart(line)[0];
    }
  }

  lemma TerminatedHeaders(lines: seq<string>)
    ensures |Terminated(lines)| == |lines|
    ensures forall i | 0 <= i < |lines| :: IsHeader(Terminated(lines)[i]) == IsHeader(lines[i])
  {
    hide IsHeader;
    if lines != [] {
      EndedHeader(lines[|lines| - 1]);
    }
  }

  /** New lines in front of a header, or at the end, leave every other line in its table. */
  lemma InsertKeepsTables(head: seq<string>, ended: seq<string>, mid: seq<string>, tail: seq<string>, k: nat, h: int)
    requires |ended| == |head| && forall i | 0 <= i < |head| :: IsHeader(ended[i]) == IsHeader(head[i])
    requires tail != [] ==> IsHeader(tail[0])
    requires k < |head + tail| && BelongsTo(head + tail, k, h)
    ensures var out := ended + mid + tail;
            && 0 <= Moved(k, |head|, |mid|) < |out|
            && BelongsTo(out, Moved(k, |head|, |mid|), Moved(h, |head|, |mid|))
  {
    hide IsHeader;
    var lines, out := head + tail, ended + mid + tail;
    assert forall i | 0 <= i < |head| :: lines[i] == head[i] && out[i] == ended[i];
    assert forall i | |head| <= i < |lines| :: lines[i] == tail[i - |head|];
    assert forall i | |head| + |mid| <= i < |out| :: out[i] == tail[i - |head| - |mid|];
    if k >= |head| {
      assert IsHeader(lines[|head|]);
      assert h >= |head|;
      forall i | h + |mid| + 1 <= i < k + |mid| + 1
        ensures !IsHeader(out[i])
      {
        assert out[i] == lines[i - |mid|];
      }
    }
  }

  /** The insertion line is a header, or the end. */
  lemma InsertsBeforeHeader(lines: seq<string>, line: nat)
    requires IsInsertLine(lines, line)
    ensures line <= |lines| && (line < |lines| ==> IsHeader(lines[line]))
  {
    hide IsHeader, IsProviderHeader;
  }

  /** The splice leaves every line of the file under the header line it was under. */
  lemma SpliceKeepsTables(text: string, block: string, line: nat, k: nat, h: int)
    requires IsInsertLine(Lines(text), line) && EndsLine(block)
    requires k < |Lines(text)| && BelongsTo(Lines(text), k, h)
    ensures var lines, added := Lines(text), 1 + |Lines(block)|;
            && line <= |lines| && LineStart(lines, line) <= |text|
            && var out := Lines(Spliced(text, block, LineStart(lines, line)));
               0 <= Moved(k, line, added) < |out|
               && BelongsTo(out, Moved(k, line, added), Moved(h, line, added))
  {
    hide Lines, IsHeader, IsInsertLine, LineStart, Terminated, BelongsTo, Spliced;
    var lines := Lines(text);
    InsertsBeforeHeader(lines, line);
    var head, tail, mid := lines[..line], lines[line..], ["\n"] + Lines(block);
    SpliceKeepsLines(text, block, line);
    TerminatedHeaders(head);
    assert head + tail == lines;
    assert tail != [] ==> tail[0] == lines[line];
    InsertKeepsTables(head, Terminated(head), mid, tail, k, h);
    assert Terminated(head) + mid + tail == Terminated(head) + ["\n"] + Lines(block) + tail;
  }

  /** A block that starts with a header keeps its lines to itself. */
  lemma SpliceOwnsBlock(text: string, block: string, line: nat, j: nat, h: int)
    requires line <= |Lines(text)| && EndsLine(block) && block != []
    requires j < |Lines(block)| && IsHeader(Lines(block)[0]) && BelongsTo(Lines(block), j, h)
    ensures LineStart(Lines(text), line) <= |text|
    ensures var out := Lines(Spliced(text, block, LineStart(Lines(text), line)));
            0 <= h && line + 1 + j < |out| && BelongsTo(out, line + 1 + j, line + 1 + h)
  {
    hide Lines, IsHeader, LineStart, Terminated, Spliced;
    SpliceKeepsLines(text, block, line);
    TerminatedHeaders(Lines(text)[..line]);
    var out := Lines(Spliced(text, block, LineStart(Lines(text), line)));
    assert h >= 0;
    assert forall i | 0 <= i < |Lines(block)| :: out[line + 1 + i] == Lines(block)[i];
  }

  lemma SplicedLines(ended: string, block: string, after: string)
    requires EndsLine(ended) && EndsLine(block)
    ensures Lines(ended + ("\n" + (block + after))) == Lines(ended) + ["\n"] + Lines(block) + Lines(after)
  {
    hide Lines;
    OneNewline();
    LinesSplit(ended, "\n" + (block + after));
    LinesSplit("\n", block + after);
    LinesSplit(block, after);
  }

  lemma OneNewline()
    ensures Lines("\n") == ["\n"]
  {
    var s := "\n";
    assert IndexOf(s, '\n') == 0;
    assert s[..1] == s && s[1..] == [];
  }

  lemma InsertedShape(before: string, block: string, after: string)
    requires EndsLine(block)
    ensures var ended := if EndsLine(before) then before else before + "\n";
            before + Inserted(before, block) + after == ended + ("\n" + (block + after))
  {
  }

  /** The lines from `line` on are the lines of the text from there on. */
  lemma {:induction false} TailLines(text: string, line: nat)
    requires line <= |Lines(text)|
    ensures Lines(Concat(Lines(text)[line..])) == Lines(text)[line..]
    decreases line
  {
    if line == 0 {
      LinesConcat(text);
      assert Lines(text)[0..] == Lines(text);
    } else {
      var i := IndexOf(text, '\n');
      if i == |text| {
        assert Lines(text)[line..] == [];
      } else {
        TailLines(text[i + 1..], line - 1);
        assert Lines(text)[line..] == Lines(text[i + 1..])[line - 1..];
      }
    }
  }

  /** The lines up to `line`, ended, are the lines of the text up to there, ended. */
  lemma HeadLines(text: string, line: nat)
    requires line <= |Lines(text)|
    ensures var before := Concat(Lines(text)[..line]);
            var ended := if EndsLine(before) then before else before + "\n";
            Lines(ended) == Terminated(Lines(text)[..line]) && EndsLine(ended)
  {
    hide Lines, Concat;
    var head := Lines(text)[..line];
    if line == 0 {
      EmptyConcat();
    } else {
      var init, last := head[..line - 1], head[line - 1];
      forall k | 0 <= k < line
        ensures |Lines(head[k])| == 1 && (k + 1 < line ==> EndsLine(head[k]))
      {
        LinesShape(text, k);
      }
      LinesOfConcat(init);
      assert head == init + [last];
      ConcatSplits(init, [last]);
      ConcatOne(last);
      LinesConcatOne(last);
      var before := Concat(head);
      assert before == Concat(init) + last;
      NonemptyLine(text, line - 1);
      assert EndsLine(before) <==> EndsLine(last);
      if EndsLine(last) {
        LinesSplit(Concat(init), last);
      } else {
        EndingALine(last);
        assert before + "\n" == Concat(init) + (last + "\n");
        LinesSplit(Concat(init), last + "\n");
      }
    }
  }

  lemma NonemptyLine(text: string, k: nat)
    requires k < |Lines(text)|
    ensures Lines(text)[k] != []
  {
  }

  lemma EmptyConcat()
    ensures Concat([]) == [] && Lines([]) == []
  {
  }

  lemma ConcatOne(line: string)
    ensures Concat([line]) == line
  {
    assert [line][1..] == [];
  }

  lemma LinesConcatOne(line: string)
    requires |Lines(line)| == 1
    ensures Lines(line) == [line]
  {
    LinesConcat(line);
    ConcatOne(Lines(line)[0]);
    assert Lines(line) == [Lines(line)[0]];
  }

  lemma LineEnds(line: string)
    requires Lines(line) == [line] && IndexOf(line, '\n') < |line|
    ensures EndsLine(line)
  {
    hide Lines, IndexOf, EndsLine;
    var i := IndexOf(line, '\n');
    FirstLine(line, i);
    WholeLine(line, i, Lines(line[i + 1..]));
  }

  lemma WholeLine(line: string, i: nat, rest: seq<string>)
    requires i < |line| && line[i] == '\n' && [line] == [line[..i + 1]] + rest
    ensures EndsLine(line)
  {
    var first := line[..i + 1];
    assert ([first] + rest)[0] == first && [line][0] == line;
  }

  /** A last line without a newline becomes one whole line when ended. */
  lemma EndingALine(last: string)
    requires |Lines(last)| == 1 && !EndsLine(last)
    ensures Lines(last + "\n") == [last + "\n"]
  {
    var i := IndexOf(last, '\n');
    LinesConcatOne(last);
    if i < |last| {
      LineEnds(last);
    }
    var s := last + "\n";
    assert IndexOf(s, '\n') == |last| by {
      var j := IndexOf(s, '\n');
      assert s[|last|] == '\n';
      assert forall k | 0 <= k < |last| :: last[..i][k] == s[k];
      assert forall k | 0 <= k < j :: s[..j][k] == s[k];
    }
    assert s[..|last| + 1] == s && s[|last| + 1..] == [];
  }
}
