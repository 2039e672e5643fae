/** The compiler's diagnostic counts, and the inputs that are not arrays. */
module CompilerCounts {
  import opened Wrappers
  import opened Json
  import opened Text
  import opened Redaction
  import opened Chat
  import opened Compiler
  import opened CompilerConservation
  import opened CompilerConversation
  import opened CompilerCalls

  /** How many of the first `k` items are read as `p` says. */
  function Count(p: Reading -> bool, env: Env, items: seq<Json>, k: nat): nat
    requires k <= |items|
  {
    if k == 0 then 0 else Count(p, env, items, k - 1) + if p(ReadAt(env, items, k - 1)) then 1 else 0
  }

  predicate AddsMessage(reading: Reading) {
    reading.Call? || reading.ResultOf? || reading.Compaction? || (reading.Said? && reading.message.role != Assistant)
  }

  predicate IsResultReading(reading: Reading) {
    reading.ResultOf?
  }

  predicate IsFactReading(reading: Reading) {
    reading.Fact?
  }

  predicate IsUnsupported(reading: Reading) {
    reading.Unsupported?
  }

  predicate IsCutResult(reading: Reading) {
    reading.ResultOf? && Contains(reading.message.content, "[truncated")
  }

  /** The results that get a fact of their own. */
  function Listings(env: Env, items: seq<Json>, k: nat): nat
    requires k <= |items|
  {
    if k == 0 then 0
    else
      Listings(env, items, k - 1)
      + match ReadAt(env, items, k - 1)
        case ResultOf(m) => if EndsResults(env, items, k - 1, m) then 1 else 0
        case _ => 0
  }

  function ResultChars(env: Env, items: seq<Json>, k: nat): nat
    requires k <= |items|
  {
    if k == 0 then 0
    else
      ResultChars(env, items, k - 1)
      + match ReadAt(env, items, k - 1) case ResultOf(m) => |m.content| case _ => 0
  }

  predicate Counted(env: Env, items: seq<Json>, k: nat, d: Diagnostic)
    requires k <= |items|
  {
    && d.inputItems == |items|
    && d.messageItems == Count(AddsMessage, env, items, k)
    && d.toolResultItems == Count(IsResultReading, env, items, k)
    && d.unsupportedItems == Count(IsUnsupported, env, items, k)
    && d.verifiedFactItems == Count(IsFactReading, env, items, k) + Listings(env, items, k)
    && d.truncatedToolOutputItems == Count(IsCutResult, env, items, k)
    && d.toolOutputChars == ResultChars(env, items, k)
  }

  lemma StepCounted(env: Env, items: seq<Json>, k: nat, st: State)
    requires k < |items| && Knows(env, items, k, st) && Counted(env, items, k, st.diagnostic)
    ensures Counted(env, items, k + 1, Step(env, st, items[k]).diagnostic)
  {
    hide Knows, Read, CalledIds, CalledNames, Flushed, AfterFlush, JoinNonempty, ResultFact, UserMessage, Contains,
      Blank;
    KnowsReading(env, items, k, st);
  }

  lemma {:induction false} RunCounted(env: Env, items: seq<Json>, k: nat, st: State)
    requires k <= |items| && Knows(env, items, k, st) && Counted(env, items, k, st.diagnostic)
    ensures Counted(env, items, |items|, Run(env, st, items[k..]).diagnostic)
    decreases |items| - k
  {
    hide Step, Knows, Counted;
    if k < |items| {
      StepCounted(env, items, k, st);
      StepKnows(env, items, k, st);
      RunStep(env, st, items, k);
      RunCounted(env, items, k + 1, Step(env, st, items[k]));
    } else {
      RunNone(env, st, items);
    }
  }

  /** The counts of an array say how its items were read; a fallback message counts as one more. */
  lemma CompiledCounted(codec: Codec, items: seq<Json>, valid: set<string>)
    ensures var c, env := CompileItems(codec, items, valid), EnvOf(codec, items, valid);
            || Counted(env, items, |items|, c.diagnostic)
            || (&& c.messages == [UserMessage(codec.render(Arr(items)))] && c.diagnostic.messageItems > 0
                && Counted(env, items, |items|, c.diagnostic.(messageItems := c.diagnostic.messageItems - 1)))
  {
    hide Run, Sanitize, Assembled, ResolvedIds, Counted, UserMessage;
    var env := EnvOf(codec, items, valid);
    StartCounted(env, items);
    assert items[0..] == items;
    RunCounted(env, items, 0, Start(items));
    CountedRest(env, items, Run(env, Start(items), items).diagnostic, |codec.render(Arr(items))|);
  }

  lemma StartCounted(env: Env, items: seq<Json>)
    ensures Knows(env, items, 0, Start(items)) && Counted(env, items, 0, Start(items).diagnostic)
  {
    StartTracks(env, items);
  }

  /** The characters counted do not matter to the other counts. */
  lemma CountedRest(env: Env, items: seq<Json>, d: Diagnostic, more: nat)
    ensures Counted(env, items, |items|, d.(estimatedChars := d.estimatedChars + more))
            <==> Counted(env, items, |items|, d)
  {
    hide Count, Listings, ResultChars;
  }

  // ------------------------------------------------------------ other inputs

  /** A text input is one user message, redacted; null is none; any other value is told by its JSON
      form. */
  lemma OtherInputs(codec: Codec, input: Json, valid: set<string>)
    ensures var c := Compile(codec, input, valid);
            && (input.Str? ==>
                  c.messages == [TextMessage(User, Redact(input.text))]
                  && c.diagnostic.estimatedChars == |input.text| && c.diagnostic.messageItems == 1)
            && (input.Null? ==> c.messages == [] && c.diagnostic.messageItems == 0)
            && (input.Bool? || input.Num? || input.Obj? ==>
                  c.messages == [TextMessage(User, Redact(codec.render(input)))])
  {
    hide Redact, CompileItems;
  }

  /** The facts message says how many facts were left out. */
  lemma OmittedTold(facts: seq<string>, truncated: nat)
    ensures truncated > 0 ==>
              EndsWith(FactsMessage(facts, truncated).content,
                       "- " + Decimal(truncated)
                       + " additional fact item(s) were omitted by the deterministic context budget.\n")
  {
    hide HeadedLines, FactLines, OmittedLine, EndsWith, Decimal;
    var told := OmittedLine(truncated);
    var lines := FactLines(facts) + told;
    var headed := HeadedLines(lines);
    assert headed == headed[..|headed| - |lines|] + lines;
    EndsWithTail("V", headed[..|headed| - |lines|], FactLines(facts), told);
    if truncated > 0 {
      OmittedIs(truncated);
    }
  }

  lemma EndsWithTail(a: string, b: string, c: string, tail: string)
    ensures EndsWith(a + (b + (c + tail)), tail)
  {
    assert a + (b + (c + tail)) == (a + b + c) + tail;
  }

  lemma OmittedIs(truncated: nat)
    requires truncated > 0
    ensures OmittedLine(truncated)
            == "- " + Decimal(truncated)
               + " additional fact item(s) were omitted by the deterministic context budget.\n"
  {
    hide Decimal;
  }
}
