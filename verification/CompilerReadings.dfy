/** What each item of an input is read as, told from its fields. */
module CompilerReadings {
  import opened Wrappers
  import opened Json
  import opened Text
  import opened Seqs
  import opened Redaction
  import opened Chat
  import opened Compiler

  /** The item has the `i`-th key and none of those before it. */
  predicate FirstField(item: Json, keys: seq<string>, i: nat) {
    i < |keys| && item.Get(keys[i]).Some? && forall j | 0 <= j < i :: item.Get(keys[j]).None?
  }

  predicate NoField(item: Json, keys: seq<string>) {
    forall j | 0 <= j < |keys| :: item.Get(keys[j]).None?
  }

  /** Under the `i`-th key the item has this text, and under none of those before it any. */
  predicate FirstText(item: Json, keys: seq<string>, i: nat, text: string) {
    i < |keys| && item.GetStr(keys[i]) == Some(text) && forall j | 0 <= j < i :: item.GetStr(keys[j]).None?
  }

  // ------------------------------------------------------------------ content

  /** A part of a content array says its first text. */
  predicate Says(part: Json, text: string) {
    exists i: nat | i < 3 :: FirstText(part, ["text", "input_text", "output_text"], i, text)
  }

  lemma PartSays(part: Json, text: string)
    ensures Says(part, text) ==> PartText(part) == Some(Redact(text))
    ensures PartText(part).Some? ==> exists t :: Says(part, t) && PartText(part).value == Redact(t)
  {
    hide Redact;
    var keys := ["text", "input_text", "output_text"];
    assert FirstText(part, keys, 0, text) <==> part.GetStr("text") == Some(text);
    if PartText(part).Some? {
      if part.GetStr("text").Some? {
        assert FirstText(part, keys, 0, part.GetStr("text").value);
      } else if part.GetStr("input_text").Some? {
        assert FirstText(part, keys, 1, part.GetStr("input_text").value);
      } else {
        assert FirstText(part, keys, 2, part.GetStr("output_text").value);
      }
    }
  }

  predicate Speaks(part: Json) {
    part.GetStr("text").Some? || part.GetStr("input_text").Some? || part.GetStr("output_text").Some?
  }

  /** The texts of an array are those of the parts that say something, in order. */
  lemma {:induction false} PartsInOrder(parts: seq<Json>)
    ensures var speaking := Filter(Speaks, parts);
            && |PartTexts(parts)| == |speaking|
            && forall n | 0 <= n < |speaking| ::
                 PartText(speaking[n]).Some? && PartTexts(parts)[n] == PartText(speaking[n]).value
  {
    hide Redact;
    if parts != [] {
      PartsInOrder(parts[1..]);
    }
  }

  /** What a value says: a string itself, the parts of an array joined by newlines, nothing for null. */
  lemma ContentSays(codec: Codec, value: Json)
    ensures value.Str? ==> ContentText(codec, value) == Redact(value.text)
    ensures value.Arr? ==> ContentText(codec, value) == Join(PartTexts(value.items), "\n")
    ensures value.Null? ==> ContentText(codec, value) == ""
    ensures value.Bool? || value.Num? ==> ContentText(codec, value) == codec.render(value)
    ensures value.Obj? && !Speaks(value) ==> ContentText(codec, value) == codec.render(value)
    ensures value.Obj? && Speaks(value) ==> exists t :: Says(value, t) && ContentText(codec, value) == Redact(t)
  {
    hide Redact, Says;
    PartSays(value, "");
  }

  lemma FieldIs(codec: Codec, item: Json, key: string)
    ensures FieldText(codec, item, key).Some? <==> item.Get(key).Some?
    ensures item.Get(key).Some? ==> FieldText(codec, item, key).value == ContentText(codec, item.Get(key).value)
  {
    hide ContentText;
  }

  // ------------------------------------------------------------------ call ids

  /** The first of the three fields holds this text. */
  predicate HasCallId(item: Json, id: string) {
    exists i: nat | i < 3 ::
      FirstField(item, ["call_id", "tool_call_id", "id"], i)
      && item.Get(["call_id", "tool_call_id", "id"][i]) == Some(Str(id))
  }

  lemma CallIdExactly(item: Json, id: string)
    ensures ItemCallId(item) == Some(id) <==> HasCallId(item, id) && !Blank(id)
  {
    hide Blank;
    var keys := ["call_id", "tool_call_id", "id"];
    var i := if item.Get("call_id").Some? then 0 else if item.Get("tool_call_id").Some? then 1 else 2;
    assert item.Get(keys[i]).Some? ==> FirstField(item, keys, i);
  }

  // ----------------------------------------------------------------- tool outputs

  predicate IsOutputType(item: Json) {
    var t := item.GetStr("type");
    t == Some("function_call_output") || t == Some("custom_tool_call_output")
    || t == Some("web_search_call_output") || t == Some("tool_search_output")
  }

  /** The text shows the value: all of it if it is a plain string that fits. */
  predicate ShowsValue(codec: Codec, shown: string, value: Json, max: nat) {
    && Shows(shown, ContentText(codec, value), max)
    && (value.Str? && MarkerFree(value.text) && |value.text| <= max ==> shown == value.text)
  }

  /** The message shows the first of `output`, `content` and `result` that the item has; without any,
      a tool search shows the whole item and every other output nothing. */
  predicate CarriesOutput(codec: Codec, item: Json, t: Message) {
    var keys := ["output", "content", "result"];
    && (forall i: nat | i < 3 && FirstField(item, keys, i) ::
          ShowsValue(codec, t.content, item.Get(keys[i]).value, 12_000))
    && (NoField(item, keys) ==>
          if item.GetStr("type") == Some("tool_search_output") then ShowsValue(codec, t.content, item, 12_000)
          else t.content == "")
  }

  lemma ShowsContent(codec: Codec, value: Json)
    ensures ShowsValue(codec, Truncate(Redact(ContentText(codec, value)), 12_000), value, 12_000)
  {
    hide Redact, Truncate, Shows, ContentText;
    var text := ContentText(codec, value);
    var shown := Truncate(Redact(text), 12_000);
    TruncateShows(text, 12_000);
    if value.Str? {
      ContentSays(codec, value);
      RedactIdempotent(value.text);
      TruncateShows(value.text, 12_000);
      if MarkerFree(value.text) && |value.text| <= 12_000 {
        ShowsPlain(shown, value.text, 12_000);
      }
    }
  }

  lemma EmptyShown()
    ensures Truncate(Redact(""), 12_000) == ""
  {
    assert MarkerFree("");
    RedactFixedIffMarkerFree("");
  }

  lemma OutputText(codec: Codec, item: Json, i: nat)
    ensures var keys := ["output", "content", "result"];
            && (i < 3 && FirstField(item, keys, i) ==>
                  ToolOutputText(codec, item) == ContentText(codec, item.Get(keys[i]).value))
            && (NoField(item, keys) ==>
                  ToolOutputText(codec, item)
                  == if item.GetStr("type") == Some("tool_search_output") then ContentText(codec, item) else "")
  {
    hide ContentText, FieldText;
    FieldIs(codec, item, "output");
    FieldIs(codec, item, "content");
    FieldIs(codec, item, "result");
    var keys := ["output", "content", "result"];
    assert keys[0] == "output" && keys[1] == "content" && keys[2] == "result";
  }

  lemma MessageCarries(codec: Codec, item: Json, id: string)
    ensures CarriesOutput(codec, item, ToolOutputMessage(codec, item, id))
  {
    hide ContentText, ToolOutputText, ShowsValue, Redact, Truncate;
    var keys, t := ["output", "content", "result"], ToolOutputMessage(codec, item, id);
    forall i: nat | i < 3 && FirstField(item, keys, i)
      ensures ShowsValue(codec, t.content, item.Get(keys[i]).value, 12_000)
    {
      OutputText(codec, item, i);
      ShowsContent(codec, item.Get(keys[i]).value);
    }
    OutputText(codec, item, 3);
    ShowsContent(codec, item);
    EmptyShown();
  }

  /** A tool output is read as the result of a call that is replayed before it or valid from outside,
      and then shows the item's output under the item's call id. */
  lemma ResultExactly(env: Env, seenIds: set<string>, item: Json)
    ensures var r := Read(env, seenIds, item);
            && (r.ResultOf? <==>
                  IsOutputType(item)
                  && exists id :: HasCallId(item, id) && !Blank(id)
                                  && ((id in env.resolved && id in seenIds) || id in env.valid))
            && (r.ResultOf? ==>
                  && r.message.role == Tool && r.message.toolCallId.Some?
                  && HasCallId(item, r.message.toolCallId.value)
                  && CarriesOutput(env.codec, item, r.message))
  {
    hide FieldText, ItemCallId, HasCallId, CarriesOutput, ToolOutputText, Redact, Truncate, Blank, FactText,
      ItemMessage, IsFactLike;
    var id := ItemCallId(item);
    if id.Some? {
      CallIdExactly(item, id.value);
      MessageCarries(env.codec, item, id.value);
    }
    forall x | HasCallId(item, x) && !Blank(x)
      ensures id == Some(x)
    {
      CallIdExactly(item, x);
    }
    OutputTypes(item);
    CompactionShape(env.codec, item);
  }

  /** The ids some output of the input answers. */
  lemma ResolvedExactly(items: seq<Json>, id: string)
    ensures id in ResolvedIds(items)
            <==> !Blank(id) && exists k | 0 <= k < |items| :: IsOutputType(items[k]) && HasCallId(items[k], id)
  {
    hide Blank, HasCallId, ItemCallId, IsOutputType, IsToolOutput;
    forall k | 0 <= k < |items|
      ensures IsToolOutput(items[k]) <==> IsOutputType(items[k])
      ensures ItemCallId(items[k]) == Some(id) <==> HasCallId(items[k], id) && !Blank(id)
    {
      OutputTypes(items[k]);
      CallIdExactly(items[k], id);
    }
    if id in ResolvedIds(items) {
      var item :| item in items && IsToolOutput(item) && ItemCallId(item).Some? && ItemCallId(item).value == id;
      var k :| 0 <= k < |items| && items[k] == item;
    }
    if k :| 0 <= k < |items| && IsOutputType(items[k]) && HasCallId(items[k], id) && !Blank(id) {
      assert items[k] in items;
    }
  }

  lemma OutputTypes(item: Json)
    ensures IsToolOutput(item) <==> IsOutputType(item)
    ensures IsOutputType(item) ==> !IsToolCallItem(item) && Kind(item) != "reasoning" && Kind(item) != "compaction"
  {
  }

  // ------------------------------------------------------------------------ facts

  /** The fields a fact tells, in this order. */
  predicate IsFactKey(key: string) {
    key in ["call_id", "id", "name", "server", "tool", "status", "action", "arguments", "content", "output", "result",
            "error"]
  }

  lemma {:induction false} JoinHas(parts: seq<string>, separator: string, n: nat)
    requires n < |parts|
    ensures Contains(Join(parts, separator), parts[n])
  {
    hide Contains;
    ContainsSelf(parts[n]);
    if |parts| > 1 {
      var rest := Join(parts[1..], separator);
      if n == 0 {
        assert Join(parts, separator) == "" + parts[0] + (separator + rest);
        ContainsMore("", parts[0], separator + rest, parts[n]);
      } else {
        JoinHas(parts[1..], separator, n - 1);
        assert Join(parts, separator) == (parts[0] + separator) + rest + "";
        ContainsMore(parts[0] + separator, rest, "", parts[n]);
      }
    }
  }

  lemma {:induction false} FactFieldAt(codec: Codec, item: Json, keys: seq<string>, key: string)
    requires key in keys && item.Get(key).Some?
    ensures key + "=" + Summary(codec, item.Get(key).value) in FactFields(codec, item, keys)
  {
    hide Summary;
    if keys[0] != key {
      FactFieldAt(codec, item, keys[1..], key);
    }
  }

  /** A fact about an item shows the value of every one of its fields. */
  predicate TellsField(codec: Codec, fact: string, key: string, value: Json) {
    && Contains(fact, key + "=" + Summary(codec, value))
    && (value.Str? && MarkerFree(value.text) && |value.text| <= 4096 ==> Contains(fact, key + "=" + value.text))
  }

  lemma FactTells(codec: Codec, item: Json, key: string)
    requires IsFactKey(key) && item.Get(key).Some?
    ensures TellsField(codec, FactText(codec, item), key, item.Get(key).value)
  {
    hide Summary, Contains, MarkerFree, Join;
    var keys := ["call_id", "id", "name", "server", "tool", "status", "action", "arguments", "content", "output",
                 "result", "error"];
    var labels := LabelledField("type=", item.GetStr("type")) + LabelledField("role=", item.GetStr("role"));
    var told := FactFields(codec, item, keys);
    var fields := labels + told;
    FactFieldAt(codec, item, keys, key);
    var field := key + "=" + Summary(codec, item.Get(key).value);
    var parts := if |fields| == 1 then fields + ["item=" + Summary(codec, item)] else fields;
    var i :| 0 <= i < |told| && told[i] == field;
    var n := |labels| + i;
    assert parts[n] == field;
    JoinHas(parts, " ", n);
    SummaryPlain(codec, item.Get(key).value);
  }

  /** A summary shows a string, or what an array or object says, or its JSON form if that is blank. */
  lemma SummaryPlain(codec: Codec, value: Json)
    ensures value.Str? ==> Shows(Summary(codec, value), value.text, 4096)
    ensures value.Str? && MarkerFree(value.text) && |value.text| <= 4096 ==> Summary(codec, value) == value.text
    ensures value.Arr? || value.Obj? ==>
              Shows(Summary(codec, value),
                    if Blank(ContentText(codec, value)) then codec.render(value) else Trim(ContentText(codec, value)),
                    4096)
  {
    hide Redact, Truncate, Shows, ContentText, Trim, Blank;
    TrimEmptyIffBlank(ContentText(codec, value));
    if value.Str? {
      TruncateShows(value.text, 4096);
      if MarkerFree(value.text) && |value.text| <= 4096 {
        ShowsPlain(Summary(codec, value), value.text, 4096);
      }
    } else if value.Arr? || value.Obj? {
      var t := Trim(ContentText(codec, value));
      TruncateShows(if t == "" then codec.render(value) else t, 4096);
    }
  }

  /** Whatever is read as a fact has all its telling fields told. */
  lemma FactReads(env: Env, seenIds: set<string>, item: Json, key: string)
    requires IsFactKey(key) && item.Get(key).Some?
    ensures var r := Read(env, seenIds, item);
            r.Fact? ==> TellsField(env.codec, r.fact, key, item.Get(key).value)
  {
    hide ReasoningText, ItemToolCall, ItemResult, CompactionMessage, ItemMessage, FactText, IsFactLike, TellsField;
    FactTells(env.codec, item, key);
  }

  // ----------------------------------------------------------------------- calls

  predicate IsCallType(item: Json) {
    var t := item.GetStr("type");
    t == Some("function_call") || t == Some("custom_tool_call") || t == Some("web_search_call")
    || t == Some("tool_search_call")
  }

  predicate IsPatch(item: Json) {
    item.GetStr("type") == Some("custom_tool_call") && item.GetStr("name") == Some("apply_patch")
  }

  /** The call names the tool of the item: two kinds have fixed names. */
  predicate NamesTool(item: Json, name: string) {
    var t := item.GetStr("type");
    if t == Some("web_search_call") then name == "web_search"
    else if t == Some("tool_search_call") then name == "tool_search_tool"
    else item.GetStr("name") == Some(name) && !Blank(name)
  }

  /** The call passes on the item's arguments, a string as it is. */
  predicate PassesArguments(codec: Codec, item: Json, arguments: string) {
    var key := if item.GetStr("type") == Some("web_search_call") then "action" else "arguments";
    if IsPatch(item) then
      var patch := if item.GetStr("input").Some? then item.GetStr("input").value else "";
      arguments == codec.render(Obj(map["patch" := Str(NormalizeNewlines(patch))]))
    else if item.Get(key).None? then arguments == "{}"
    else if item.Get(key).value.Str? then arguments == item.Get(key).value.text
    else arguments == codec.render(item.Get(key).value)
  }

  /** A call is replayed exactly when its kind, id and name are there and some output resolves it; it
      then names the item's tool and passes on its arguments. */
  lemma CallExactly(env: Env, seenIds: set<string>, item: Json, call: ToolCall)
    ensures Read(env, seenIds, item) == Call(call)
            <==> && IsCallType(item) && call.id.Some? && HasCallId(item, call.id.value) && !Blank(call.id.value)
                 && call.id.value in env.resolved
                 && NamesTool(item, call.name) && PassesArguments(env.codec, item, call.arguments)
  {
    hide FieldText, ItemCallId, HasCallId, Blank, FactText, IsFactLike, ItemMessage, ItemResult, CompactionMessage,
      ItemToolName, ItemArguments, NamesTool, PassesArguments, NormalizeNewlines;
    if call.id.Some? {
      CallIdExactly(item, call.id.value);
    }
    CallTypes(item);
    NameIs(item, call.name);
    ArgumentsAre(env.codec, item, call.arguments);
  }

  lemma CallTypes(item: Json)
    ensures IsToolCallItem(item) <==> IsCallType(item)
    ensures IsCallType(item) ==> Kind(item) != "reasoning"
  {
  }

  lemma NameIs(item: Json, name: string)
    ensures IsCallType(item) ==> (ItemToolName(item) == Some(name) <==> NamesTool(item, name))
  {
    hide Blank;
  }

  lemma ArgumentsAre(codec: Codec, item: Json, arguments: string)
    ensures IsCallType(item) ==> (ItemArguments(codec, item) == arguments <==> PassesArguments(codec, item, arguments))
  {
    hide NormalizeNewlines;
  }

  /** Text without carriage returns is passed on as it is. */
  lemma {:induction false} NewlinesNormal(a: string, b: string)
    requires '\r' !in a
    ensures NormalizeNewlines(a) == a
    ensures NormalizeNewlines(a + b) == a + NormalizeNewlines(b)
    decreases |a|
  {
    hide NormalizeNewlines;
    NoNewlines();
    if a == [] {
      assert a + b == b;
    } else {
      NewlinesNormal(a[1..], b);
      KeepsFirst(a);
      assert (a + b)[1..] == a[1..] + b && (a + b)[0] == a[0];
      KeepsFirst(a + b);
      assert a == [a[0]] + a[1..];
    }
  }

  lemma NoNewlines()
    ensures NormalizeNewlines("") == ""
  {
  }

  lemma KeepsFirst(s: string)
    requires s != [] && s[0] != '\r'
    ensures NormalizeNewlines(s) == [s[0]] + NormalizeNewlines(s[1..])
  {
  }

  /** A carriage return, with the newline behind it if there is one, becomes a newline. */
  lemma ReturnNewline(b: string)
    ensures NormalizeNewlines("\r\n" + b) == "\n" + NormalizeNewlines(b)
    ensures b == [] || b[0] != '\n' ==> NormalizeNewlines("\r" + b) == "\n" + NormalizeNewlines(b)
  {
    assert ("\r\n" + b)[2..] == b && ("\r" + b)[1..] == b;
  }

  // ------------------------------------------------------------------- reasoning

  /** The texts that a reasoning item offers, the best one first. */
  function ReasoningOffers(codec: Codec, item: Json): (r: seq<string>)
    ensures |r| == 3
  {
    var encrypted := item.GetStr("encrypted_content");
    var decoded := if encrypted.Some? then codec.decode(Trim(encrypted.value)) else None;
    [if decoded.Some? then decoded.value else "",
     if item.Get("summary").Some? then ContentText(codec, item.Get("summary").value) else "",
     if item.Get("content").Some? then ContentText(codec, item.Get("content").value) else ""]
  }

  predicate FirstNonblank(texts: seq<string>, i: nat) {
    i < |texts| && !Blank(texts[i]) && forall j | 0 <= j < i :: Blank(texts[j])
  }

  /** A reasoning item that offers some text that is not blank is read as the first such text. */
  lemma ReasoningExactly(env: Env, seenIds: set<string>, item: Json)
    ensures var offers, r := ReasoningOffers(env.codec, item), Read(env, seenIds, item);
            && (r.Reasoning? <==> item.GetStr("type") == Some("reasoning") && exists i: nat :: FirstNonblank(offers, i))
            && (r.Reasoning? ==> exists i: nat ::
                  FirstNonblank(offers, i) && r.text == Truncate(offers[i], 24_000))
  {
    hide ContentText, Blank, Trim, Truncate, ItemToolCall, ItemResult, CompactionMessage, VerifiedFact, ItemMessage;
    var codec, offers, r := env.codec, ReasoningOffers(env.codec, item), Read(env, seenIds, item);
    NothingIsBlank();
    FieldIs(codec, item, "summary");
    FieldIs(codec, item, "content");
    OffersInOrder(offers);
    var text := ReasoningText(codec, item);
    if !Blank(offers[0]) {
      assert FirstNonblank(offers, 0);
    } else if !Blank(offers[1]) {
      assert FirstNonblank(offers, 1);
    } else if !Blank(offers[2]) {
      assert FirstNonblank(offers, 2);
    }
  }

  lemma OffersInOrder(offers: seq<string>)
    requires |offers| == 3
    ensures (exists i: nat :: FirstNonblank(offers, i)) <==> !Blank(offers[0]) || !Blank(offers[1]) || !Blank(offers[2])
  {
    hide Blank;
    if !Blank(offers[0]) {
      assert FirstNonblank(offers, 0);
    } else if !Blank(offers[1]) {
      assert FirstNonblank(offers, 1);
    } else if !Blank(offers[2]) {
      assert FirstNonblank(offers, 2);
    }
  }

  lemma NothingIsBlank()
    ensures Blank("")
  {
  }

  // -------------------------------------------------------------------- messages

  /** The role a message is compiled under. */
  lemma RolesMap(role: string)
    ensures NormalizeRole("system") == System && NormalizeRole("developer") == System
    ensures NormalizeRole("assistant") == Assistant && NormalizeRole("tool") == Tool
    ensures role !in ["system", "developer", "assistant", "tool"] ==> NormalizeRole(role) == User
  {
  }

  /** The item is none of the kinds that are looked for before a message. */
  predicate IsPlainReading(reading: Reading) {
    reading.Said? || reading.Unsupported?
  }

  /** An item that is nothing else is read as a message exactly when its content is not blank; the
      message says that content under the item's role, a missing one being the user's. */
  lemma SaidExactly(env: Env, seenIds: set<string>, item: Json)
    ensures var r := Read(env, seenIds, item);
            var content := if item.Get("content").Some? then
                             Truncate(ContentText(env.codec, item.Get("content").value), 24_000)
                           else "";
            IsPlainReading(r) ==>
              && (r.Said? <==> !Blank(content))
              && (r.Said? ==>
                    && r.message.content == content
                    && r.message.role
                       == NormalizeRole(if item.GetStr("role").Some? then item.GetStr("role").value else "user"))
  {
    hide ContentText, Blank, Truncate, ItemToolCall, ItemResult, CompactionMessage, VerifiedFact, ReasoningText,
      NormalizeRole;
    FieldIs(env.codec, item, "content");
    NothingIsBlank();
  }

  /** The item's role or type tells of a tool. */
  ghost predicate TellsOfTool(item: Json) {
    || item.GetStr("role") == Some("tool")
    || exists t | item.GetStr("type") == Some(t) ::
         Contains(t, "tool") || Contains(t, "function_call") || Contains(t, "mcp")
         || EndsWith(t, "_call") || EndsWith(t, "_result") || EndsWith(t, "_output")
  }

  /** An item is read as a fact exactly when it tells of a tool and is not read as reasoning, a call, a
      result or a compaction. */
  lemma FactExactly(env: Env, seenIds: set<string>, item: Json)
    ensures var r := Read(env, seenIds, item);
            r.Fact? <==> TellsOfTool(item) && !r.Reasoning? && !r.Call? && !r.ResultOf? && !r.Compaction?
  {
    hide ReasoningText, ItemToolCall, ItemResult, CompactionMessage, ItemMessage, FactText, Contains, EndsWith;
  }

  /** A compaction tells its summary, or its content if the summary is blank. */
  lemma CompactionExactly(env: Env, seenIds: set<string>, item: Json)
    ensures var r := Read(env, seenIds, item);
            var offers := ReasoningOffers(env.codec, item)[1..];
            && (r.Compaction? <==>
                  item.GetStr("type") == Some("compaction") && exists i: nat :: FirstNonblank(offers, i))
            && (r.Compaction? ==>
                  r.message.role == User
                  && exists i: nat :: FirstNonblank(offers, i)
                                      && EndsWith(r.message.content, "\n" + Truncate(offers[i], 8192)))
  {
    hide ContentText, Blank, Truncate, FactText, IsFactLike, ItemMessage, CompactionText, EndsWith;
    var codec, offers, r := env.codec, ReasoningOffers(env.codec, item)[1..], Read(env, seenIds, item);
    NothingIsBlank();
    FieldIs(codec, item, "summary");
    FieldIs(codec, item, "content");
    CompactionEnds(offers[0]);
    CompactionEnds(offers[1]);
    CompactionKind(item);
    if !Blank(offers[0]) {
      assert FirstNonblank(offers, 0);
    } else if !Blank(offers[1]) {
      assert FirstNonblank(offers, 1);
    }
  }

  lemma CompactionKind(item: Json)
    ensures Kind(item) == "compaction" <==> item.GetStr("type") == Some("compaction")
    ensures Kind(item) == "compaction" ==> !IsToolCallItem(item) && !IsToolOutput(item) && Kind(item) != "reasoning"
  {
  }

  lemma CompactionEnds(text: string)
    ensures EndsWith(CompactionText(text), "\n" + Truncate(text, 8192))
  {
    hide Truncate;
  }

  // -------------------------------------------------------------- what is a fact

  /** The tool calls that are not replayed, the outputs that answer nothing, and every other trace of
      a tool are read as facts. */
  lemma ToolTracesAreFacts(env: Env, seenIds: set<string>, item: Json)
    requires IsCallType(item) || IsOutputType(item) || item.GetStr("role") == Some("tool")
    ensures var r := Read(env, seenIds, item);
            r.Fact? || r.Call? || r.ResultOf? || (r.Reasoning? && item.GetStr("role") == Some("tool"))
            || (r.Compaction? && item.GetStr("role") == Some("tool"))
  {
    hide ReasoningText, ItemToolCall, ItemResult, CompactionMessage, ItemMessage, FactText, IsFactLike;
    TraceIsFactLike(item);
    NoReasoningType(env.codec, item);
  }

  lemma NoReasoningType(codec: Codec, item: Json)
    ensures ReasoningText(codec, item).Some? ==> !IsCallType(item) && !IsOutputType(item)
    ensures CompactionMessage(codec, item).Some? ==> !IsCallType(item) && !IsOutputType(item)
  {
    hide FieldText, CompactionText;
  }

  lemma TraceIsFactLike(item: Json)
    requires IsCallType(item) || IsOutputType(item) || item.GetStr("role") == Some("tool")
    ensures IsFactLike(item)
  {
    hide Contains;
    var kind := Kind(item);
    if IsCallType(item) {
      assert EndsWith(kind, "_call");
    } else if IsOutputType(item) {
      TypeEnds(kind);
    }
  }

  lemma TypeEnds(kind: string)
    requires kind in ["function_call_output", "custom_tool_call_output", "web_search_call_output", "tool_search_output"]
    ensures EndsWith(kind, "_output")
  {
  }

  /** An empty listing of MCP resources or templates, and nothing else, gets a fact of its own. */
  lemma ListingExactly(codec: Codec, name: Option<string>, content: string)
    ensures var value := codec.parse(content);
            ListingFact(codec, name, content).Some?
            <==> && name.Some? && value.Some?
                 && ((LowerAscii(name.value) == "list_mcp_resources" && value.value.Get("resources") == Some(Arr([])))
                     || (LowerAscii(name.value) == "list_mcp_resource_templates"
                         && value.value.Get("resourceTemplates") == Some(Arr([]))))
  {
    hide LowerAscii, EmptyListing;
  }
}
