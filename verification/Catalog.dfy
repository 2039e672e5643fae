/** Catalog layers, user overrides and model paging (crates/core/src/catalog.rs). */
module Catalog {
  import opened Wrappers
  import opened Json
  import opened Text
  import opened Ordered
  import opened Seqs
  import Pricing

  type Fields = map<string, Json>

  datatype Model = Model(
    slug: string,
    displayName: string,
    description: string,
    contextWindow: nat,
    effectiveContextWindowPercent: nat,
    priority: nat,
    extra: Fields)

  datatype Document = Document(
    schemaVersion: nat,
    revision: string,
    issuedAt: Option<string>,
    providerName: string,
    defaultModel: string,
    minAppVersion: Option<string>,
    models: seq<Model>,
    pricing: Pricing.Table)

  function StrField(fields: Fields, key: string): Option<string> {
    if key in fields then fields[key].AsStr() else None
  }

  function BoolField(fields: Fields, key: string): Option<bool> {
    if key in fields && fields[key].Bool? then Some(fields[key].flag) else None
  }

  predicate IsBillingOnly(m: Model) {
    var kind := StrField(m.extra, "kind");
    kind.Some? && LowerAscii(Trim(kind.value)) in ["billing_only", "billing", "pricing", "pricing_only"]
  }

  /** The first model with this slug. */
  function FindSlug(models: seq<Model>, slug: string): (r: Option<nat>)
    ensures r.Some? ==> r.value < |models| && models[r.value].slug == slug
    ensures r.Some? ==> forall i | 0 <= i < r.value :: models[i].slug != slug
    ensures r.None? ==> forall i | 0 <= i < |models| :: models[i].slug != slug
  {
    if models == [] then None
    else if models[0].slug == slug then Some(0)
    else
      match FindSlug(models[1..], slug)
      case Some(i) => Some(i + 1)
      case None => None
  }

  // ---------------------------------------------------------------- seed layering

  predicate IsPromptField(key: string) {
    key == "base_instructions" || key == "model_messages"
  }

  function MergeSeedField(extra: Fields, key: string, value: Json): Fields {
    if IsPromptField(key) || key !in extra then extra[key := value] else extra
  }

  function MergeSeedKeys(extra: Fields, seed: Fields, keys: seq<string>): Fields
    requires forall k | k in keys :: k in seed
    decreases |keys|
  {
    if keys == [] then extra else MergeSeedKeys(MergeSeedField(extra, keys[0], seed[keys[0]]), seed, keys[1..])
  }

  method MergeSeedFields(extra: Fields, seed: Fields) returns (merged: Fields)
    ensures merged == Layered(extra, seed)
  {
    hide Ascending, MergeSeedField, Layered;
    merged := extra;
    var keys := Ascending(seed.Keys);
    assert keys[0..] == keys;
    for i := 0 to |keys|
      invariant MergeSeedKeys(merged, seed, keys[i..]) == MergeSeedKeys(extra, seed, keys)
    {
      assert keys[i] in keys && keys[i..][1..] == keys[i + 1..];
      merged := MergeSeedField(merged, keys[i], seed[keys[i]]);
    }
    SeedKeysLayered(extra, seed);
  }

  /** Prompt fields come from the seed, every other field from the document if it has it. */
  function Layered(extra: Fields, seed: Fields): Fields {
    map k | k in extra.Keys + seed.Keys ::
      if k in seed && (IsPromptField(k) || k !in extra) then seed[k] else extra[k]
  }

  lemma {:induction false} MergeSeedKeysAt(extra: Fields, seed: Fields, keys: seq<string>, k: string)
    requires forall x | x in keys :: x in seed
    ensures var merged := MergeSeedKeys(extra, seed, keys);
            && (k in merged <==> k in extra || k in keys)
            && (k in merged ==>
                  merged[k] == if k in keys && (IsPromptField(k) || k !in extra) then seed[k] else extra[k])
    decreases |keys|
  {
    hide IsPromptField;
    if keys != [] {
      MergeSeedKeysAt(MergeSeedField(extra, keys[0], seed[keys[0]]), seed, keys[1..], k);
      assert k in keys <==> k == keys[0] || k in keys[1..];
    }
  }

  lemma SeedKeysLayered(extra: Fields, seed: Fields)
    ensures MergeSeedKeys(extra, seed, Ascending(seed.Keys)) == Layered(extra, seed)
  {
    hide IsPromptField, Ascending, MergeSeedKeys, Layered;
    var keys := Ascending(seed.Keys);
    var merged := MergeSeedKeys(extra, seed, keys);
    forall k
      ensures Lookup(merged, k) == Lookup(Layered(extra, seed), k)
    {
      MergeSeedKeysAt(extra, seed, keys, k);
      LayeredAt(extra, seed, k);
    }
    SameLookups(merged, Layered(extra, seed));
  }

  lemma LayeredAt(extra: Fields, seed: Fields, k: string)
    ensures Lookup(Layered(extra, seed), k)
            == if k in seed && (IsPromptField(k) || k !in extra) then Some(seed[k])
               else if k in extra then Some(extra[k]) else None
  {
    hide IsPromptField;
  }

  datatype Seed = Seed(common: Fields, models: seq<Model>)

  /** The fields of one model over all layers. */
  function SeededModel(seed: Seed, m: Model): Model {
    var i := FindSlug(seed.models, m.slug);
    var own := if i.Some? then Layered(m.extra, seed.models[i.value].extra) else m.extra;
    m.(extra := Layered(own, seed.common))
  }

  function SeededModels(seed: Seed, models: seq<Model>): seq<Model> {
    if models == [] then []
    else if IsBillingOnly(models[0]) then SeededModels(seed, models[1..])
    else [SeededModel(seed, models[0])] + SeededModels(seed, models[1..])
  }

  function WithCommon(models: seq<Model>, common: Fields): seq<Model> {
    if models == [] then []
    else [models[0].(extra := Layered(models[0].extra, common))] + WithCommon(models[1..], common)
  }

  function CatalogModels(seed: Seed, models: seq<Model>): seq<Model> {
    if models == [] then WithCommon(seed.models, seed.common) else SeededModels(seed, models)
  }

  method CatalogFromSeedAndDocument(seed: Seed, document: Document) returns (models: seq<Model>)
    ensures models == CatalogModels(seed, document.models)
  {
    hide Layered, IsBillingOnly;
    if document.models == [] {
      models := ApplyCommonModelFields(seed.models, seed.common);
      return;
    }
    models := [];
    var own: seq<Model> := [];
    assert document.models[0..] == document.models;
    for i := 0 to |document.models|
      invariant WithCommon(own, seed.common) + SeededModels(seed, document.models[i..])
                == SeededModels(seed, document.models)
    {
      var m := document.models[i];
      assert document.models[i..][1..] == document.models[i + 1..];
      if !IsBillingOnly(m) {
        var s := FindSlug(seed.models, m.slug);
        if s.Some? {
          var extra := MergeSeedFields(m.extra, seed.models[s.value].extra);
          m := m.(extra := extra);
        }
        WithCommonMore(own, m, seed.common);
        own := own + [m];
      }
    }
    models := ApplyCommonModelFields(own, seed.common);
  }

  lemma {:induction false} WithCommonMore(models: seq<Model>, m: Model, common: Fields)
    ensures WithCommon(models + [m], common)
            == WithCommon(models, common) + [m.(extra := Layered(m.extra, common))]
  {
    hide Layered;
    var s := models + [m];
    if models == [] {
      assert s[1..] == [];
    } else {
      assert s[1..] == models[1..] + [m];
      WithCommonMore(models[1..], m, common);
    }
  }

  method ApplyCommonModelFields(models: seq<Model>, common: Fields) returns (r: seq<Model>)
    ensures r == WithCommon(models, common)
  {
    hide Layered;
    if common == map[] {
      NothingCommon(models);
      return models;
    }
    r := [];
    assert models[0..] == models;
    for i := 0 to |models|
      invariant r + WithCommon(models[i..], common) == WithCommon(models, common)
    {
      assert models[i..][1..] == models[i + 1..];
      var extra := MergeSeedFields(models[i].extra, common);
      r := r + [models[i].(extra := extra)];
    }
  }

  lemma {:induction false} NothingCommon(models: seq<Model>)
    ensures WithCommon(models, map[]) == models
  {
    if models != [] {
      NothingCommon(models[1..]);
      assert Layered(models[0].extra, map[]) == models[0].extra;
      assert models == [models[0]] + models[1..];
    }
  }

  function Lookup(fields: Fields, key: string): Option<Json> {
    if key in fields then Some(fields[key]) else None
  }

  function First(a: Option<Json>, b: Option<Json>, c: Option<Json>): Option<Json> {
    if a.Some? then a else if b.Some? then b else c
  }

  /** One precedence for every key of every model: prompt fields come from the common fields, then
      the seed model, then the document; all other fields from the document, then the seed model,
      then the common fields. */
  lemma LayerPrecedence(seed: Seed, m: Model, key: string)
    ensures var i := FindSlug(seed.models, m.slug);
            var own := Lookup(m.extra, key);
            var seeded := if i.Some? then Lookup(seed.models[i.value].extra, key) else None;
            var common := Lookup(seed.common, key);
            Lookup(SeededModel(seed, m).extra, key)
            == if key == "base_instructions" || key == "model_messages" then First(common, seeded, own)
               else First(own, seeded, common)
  {
  }

  // --------------------------------------------------------- authoritative merging

  predicate HasAlias(m: Model, name: string) {
    "aliases" in m.extra && m.extra["aliases"].Arr?
    && exists i | 0 <= i < |m.extra["aliases"].items| ::
         var a := m.extra["aliases"].items[i]; a.Str? && LowerAscii(a.text) == LowerAscii(name)
  }

  function FindAlias(models: seq<Model>, name: string): Option<Model> {
    if models == [] then None else if HasAlias(models[0], name) then Some(models[0]) else FindAlias(models[1..], name)
  }

  /** The model with this slug, or else the first with this alias. */
  function FindModel(models: seq<Model>, name: string): Option<Model> {
    var slug := Trim(name);
    match FindSlug(models, slug)
    case Some(i) => Some(models[i])
    case None => FindAlias(models, slug)
  }

  function MergeModel(base: seq<Model>, m: Model): Model {
    match FindModel(base, m.slug)
    case Some(b) => m.(extra := b.extra + m.extra)
    case None => m
  }

  function MergeModels(base: seq<Model>, models: seq<Model>): seq<Model> {
    if models == [] then [] else [MergeModel(base, models[0])] + MergeModels(base, models[1..])
  }

  predicate PricingEmpty(t: Pricing.Table) {
    t.rates == map[] && t.groups == map[]
  }

  function MergedDocument(base: Document, overlay: Document): Document {
    Document(
      overlay.schemaVersion,
      overlay.revision,
      if overlay.issuedAt.Some? then overlay.issuedAt else base.issuedAt,
      if Blank(overlay.providerName) then base.providerName else overlay.providerName,
      if Blank(overlay.defaultModel) then base.defaultModel else overlay.defaultModel,
      overlay.minAppVersion,
      MergeModels(base.models, overlay.models),
      if PricingEmpty(overlay.pricing) then base.pricing else overlay.pricing)
  }

  function FilledFrom(own: Fields, base: Fields, keys: seq<string>): Fields
    requires forall k | k in keys :: k in base
    decreases |keys|
  {
    if keys == [] then own
    else FilledFrom(if keys[0] in own then own else own[keys[0] := base[keys[0]]], base, keys[1..])
  }

  lemma {:induction false} FilledAt(own: Fields, base: Fields, keys: seq<string>, k: string)
    requires forall x | x in keys :: x in base
    ensures Lookup(FilledFrom(own, base, keys), k)
            == if k in own then Some(own[k]) else if k in keys then Some(base[k]) else None
    decreases |keys|
  {
    if keys != [] {
      FilledAt(if keys[0] in own then own else own[keys[0] := base[keys[0]]], base, keys[1..], k);
      assert k in keys <==> k == keys[0] || k in keys[1..];
    }
  }

  lemma FilledAll(own: Fields, base: Fields)
    ensures FilledFrom(own, base, Ascending(base.Keys)) == base + own
  {
    hide Ascending, FilledFrom;
    var keys := Ascending(base.Keys);
    forall k
      ensures Lookup(FilledFrom(own, base, keys), k) == Lookup(base + own, k)
    {
      FilledAt(own, base, keys, k);
    }
    SameLookups(FilledFrom(own, base, keys), base + own);
  }

  method FillGaps(own: Fields, base: Fields) returns (merged: Fields)
    ensures merged == base + own
  {
    hide Ascending;
    merged := own;
    var keys := Ascending(base.Keys);
    assert keys[0..] == keys;
    for i := 0 to |keys|
      invariant FilledFrom(merged, base, keys[i..]) == FilledFrom(own, base, keys)
    {
      assert keys[i] in keys && keys[i..][1..] == keys[i + 1..];
      if keys[i] !in merged {
        merged := merged[keys[i] := base[keys[i]]];
      }
    }
    FilledAll(own, base);
  }

  method MergeAuthoritative(base: Document, overlay: Document) returns (merged: Document)
    ensures merged == MergedDocument(base, overlay)
  {
    hide FindModel;
    var models: seq<Model> := [];
    assert overlay.models[0..] == overlay.models;
    for i := 0 to |overlay.models|
      invariant models + MergeModels(base.models, overlay.models[i..]) == MergeModels(base.models, overlay.models)
    {
      assert overlay.models[i..][1..] == overlay.models[i + 1..];
      var m := overlay.models[i];
      var b := FindModel(base.models, m.slug);
      if b.Some? {
        var extra := FillGaps(m.extra, b.value.extra);
        m := m.(extra := extra);
      }
      models := models + [m];
    }
    merged := Document(
      overlay.schemaVersion,
      overlay.revision,
      if overlay.issuedAt.Some? then overlay.issuedAt else base.issuedAt,
      if Blank(overlay.providerName) then base.providerName else overlay.providerName,
      if Blank(overlay.defaultModel) then base.defaultModel else overlay.defaultModel,
      overlay.minAppVersion,
      models,
      if PricingEmpty(overlay.pricing) then base.pricing else overlay.pricing);
  }

  lemma {:induction false} MergeModelsIdempotent(base: seq<Model>, models: seq<Model>)
    ensures MergeModels(base, MergeModels(base, models)) == MergeModels(base, models)
  {
    hide FindModel;
    if models != [] {
      MergeModelsIdempotent(base, models[1..]);
      var m := models[0];
      var b := FindModel(base, m.slug);
      if b.Some? {
        assert b.value.extra + (b.value.extra + m.extra) == b.value.extra + m.extra;
      }
      assert MergeModel(base, MergeModel(base, m)) == MergeModel(base, m);
      assert MergeModels(base, models)[1..] == MergeModels(base, models[1..]);
    }
  }

  /** Merging onto the same base twice changes nothing further. */
  lemma MergeIdempotent(base: Document, overlay: Document)
    ensures MergedDocument(base, MergedDocument(base, overlay)) == MergedDocument(base, overlay)
  {
    hide Blank, MergeModels;
    MergeModelsIdempotent(base.models, overlay.models);
  }

  /** The overlay decides the model set and every field it declares; the base fills the gaps. */
  lemma {:induction false} MergeKeepsOverlay(base: seq<Model>, models: seq<Model>, i: nat, key: string)
    requires i < |models|
    ensures |MergeModels(base, models)| == |models|
    ensures var merged := MergeModels(base, models)[i];
            && merged.slug == models[i].slug
            && Lookup(merged.extra, key)
               == First(Lookup(models[i].extra, key),
                        match FindModel(base, models[i].slug) case Some(b) => Lookup(b.extra, key) case None => None,
                        None)
  {
    hide FindModel;
    MergeLength(base, models);
    if i > 0 {
      MergeKeepsOverlay(base, models[1..], i - 1, key);
    }
  }

  lemma MergeLength(base: seq<Model>, models: seq<Model>)
    ensures |MergeModels(base, models)| == |models|
  {
    hide MergeModel;
  }

  // -------------------------------------------------------------- user overrides

  datatype ModelOverride = ModelOverride(
    displayName: Option<string>,
    shortDisplayName: Option<string>,
    description: Option<string>,
    contextWindow: Option<nat>,
    effectiveContextWindowPercent: Option<nat>,
    upstreamSlug: Option<string>,
    aliases: Option<seq<string>>,
    pricingGroup: Option<string>,
    isDefault: Option<bool>,
    hidden: Option<bool>)

  datatype Overrides = Overrides(models: map<string, ModelOverride>, pricing: Option<Json>)

  function SetField(extra: Fields, key: string, value: Option<Json>): Fields {
    if value.Some? then extra[key := value.value] else extra
  }

  function JsonStr(text: Option<string>): Option<Json> {
    if text.Some? then Some(Str(text.value)) else None
  }

  function JsonBool(flag: Option<bool>): Option<Json> {
    if flag.Some? then Some(Bool(flag.value)) else None
  }

  function JsonList(texts: Option<seq<string>>): Option<Json> {
    match texts
    case Some(list) => Some(Arr(seq(|list|, i requires 0 <= i < |list| => Str(list[i]))))
    case None => None
  }

  function OverrideFields(o: ModelOverride, extra: Fields): Fields {
    var e1 := SetField(extra, "short_display_name", JsonStr(o.shortDisplayName));
    var e2 := SetField(e1, "upstream_slug", JsonStr(o.upstreamSlug));
    var e3 := SetField(e2, "pricing_group", JsonStr(o.pricingGroup));
    var e4 := SetField(e3, "aliases", JsonList(o.aliases));
    var e5 := SetField(e4, "is_default", JsonBool(o.isDefault));
    SetField(e5, "hidden", JsonBool(o.hidden))
  }

  function ApplyTo(o: ModelOverride, m: Model): Model {
    m.(displayName := Or(o.displayName, m.displayName),
       description := Or(o.description, m.description),
       contextWindow := Or(o.contextWindow, m.contextWindow),
       effectiveContextWindowPercent := Or(o.effectiveContextWindowPercent, m.effectiveContextWindowPercent),
       extra := OverrideFields(o, m.extra))
  }

  /** A model that exists only in the overrides, shaped after the built-in document's first model. */
  function NewModel(o: ModelOverride, slug: string, embedded: seq<Model>): Option<Model> {
    if o.displayName.None? && o.description.None? then None
    else
      var template := if embedded != [] then embedded[0] else Model(slug, slug, "", 1_000_000, 95, 2, map[]);
      Some(ApplyTo(o, Named(o, slug, template)))
  }

  function Named(o: ModelOverride, slug: string, template: Model): Model {
    template.(slug := slug, displayName := Or(o.displayName, slug), description := Or(o.description, ""))
  }

  function OverrideModel(models: seq<Model>, slug: string, o: ModelOverride, embedded: seq<Model>): seq<Model> {
    match FindSlug(models, slug)
    case Some(i) => models[i := ApplyTo(o, models[i])]
    case None =>
      match NewModel(o, slug, embedded)
      case Some(m) => models + [m]
      case None => models
  }

  function OverrideModels(models: seq<Model>, overrides: map<string, ModelOverride>, keys: seq<string>,
                          embedded: seq<Model>)
    : seq<Model>
    requires forall k | k in keys :: k in overrides
    decreases |keys|
  {
    if keys == [] then models
    else OverrideModels(OverrideModel(models, keys[0], overrides[keys[0]], embedded), overrides, keys[1..], embedded)
  }

  function OverridePricing(t: Pricing.Table, value: Option<Json>): Pricing.Table {
    match value
    case None => t
    case Some(v) => (match Pricing.WithOverrideValue(t, v) case Ok(next) => next case Err(_) => t)
  }

  function MarkUser(revision: string): string {
    if EndsWith(revision, "+user") then revision else revision + "+user"
  }

  function Overridden(document: Document, overrides: Overrides, embedded: seq<Model>): Document {
    if overrides.models == map[] && overrides.pricing.None? then document
    else
      document.(
        models := OverrideModels(document.models, overrides.models, Ascending(overrides.models.Keys), embedded),
        pricing := OverridePricing(document.pricing, overrides.pricing),
        revision := MarkUser(document.revision))
  }

  method ApplyCatalogOverrides(document: Document, overrides: Overrides, embedded: seq<Model>) returns (next: Document)
    ensures next == Overridden(document, overrides, embedded)
  {
    hide Ascending, ApplyTo, NewModel, EndsWith, Pricing.WithOverrideValue, OverrideModels;
    if overrides.models == map[] && overrides.pricing.None? {
      return document;
    }
    next := document;
    var keys := Ascending(overrides.models.Keys);
    assert keys[0..] == keys;
    for i := 0 to |keys|
      invariant next == document.(models := next.models)
      invariant OverrideModels(next.models, overrides.models, keys[i..], embedded)
                == OverrideModels(document.models, overrides.models, keys, embedded)
    {
      assert keys[i] in keys;
      OverrideNext(next.models, overrides.models, keys, i, embedded);
      var slug, o := keys[i], overrides.models[keys[i]];
      var found := FindSlug(next.models, slug);
      if found.Some? {
        next := next.(models := next.models[found.value := ApplyTo(o, next.models[found.value])]);
      } else {
        var m := NewModel(o, slug, embedded);
        if m.Some? {
          next := next.(models := next.models + [m.value]);
        }
      }
    }
    OverrideEnd(next.models, overrides.models, keys, embedded);
    if overrides.pricing.Some? {
      var updated := Pricing.WithOverride(next.pricing, overrides.pricing.value);
      if updated.Ok? {
        next := next.(pricing := updated.value);
      }
    }
    if !EndsWith(next.revision, "+user") {
      next := next.(revision := next.revision + "+user");
    }
  }

  lemma OverrideNext(models: seq<Model>, overrides: map<string, ModelOverride>, keys: seq<string>, i: nat,
                     embedded: seq<Model>)
    requires i < |keys| && forall k | k in keys :: k in overrides
    ensures OverrideModels(models, overrides, keys[i..], embedded)
            == OverrideModels(OverrideModel(models, keys[i], overrides[keys[i]], embedded), overrides, keys[i + 1..],
                              embedded)
  {
    hide OverrideModel;
    assert keys[i..][1..] == keys[i + 1..];
  }

  lemma OverrideEnd(models: seq<Model>, overrides: map<string, ModelOverride>, keys: seq<string>, embedded: seq<Model>)
    requires forall k | k in keys :: k in overrides
    ensures OverrideModels(models, overrides, keys[|keys|..], embedded) == models
  {
  }

  /** The value an override gives a field, if it gives one. */
  function OverrideField(o: ModelOverride, key: string): Option<Json> {
    if key == "short_display_name" then JsonStr(o.shortDisplayName)
    else if key == "upstream_slug" then JsonStr(o.upstreamSlug)
    else if key == "pricing_group" then JsonStr(o.pricingGroup)
    else if key == "aliases" then JsonList(o.aliases)
    else if key == "is_default" then JsonBool(o.isDefault)
    else if key == "hidden" then JsonBool(o.hidden)
    else None
  }

  lemma OverrideFieldsAt(o: ModelOverride, extra: Fields, key: string)
    ensures Lookup(OverrideFields(o, extra), key) == First(OverrideField(o, key), Lookup(extra, key), None)
  {
    hide JsonStr, JsonBool, JsonList, SetField, Lookup;
    var e1 := SetField(extra, "short_display_name", JsonStr(o.shortDisplayName));
    var e2 := SetField(e1, "upstream_slug", JsonStr(o.upstreamSlug));
    var e3 := SetField(e2, "pricing_group", JsonStr(o.pricingGroup));
    var e4 := SetField(e3, "aliases", JsonList(o.aliases));
    var e5 := SetField(e4, "is_default", JsonBool(o.isDefault));
    SetFieldAt(extra, "short_display_name", JsonStr(o.shortDisplayName), key);
    SetFieldAt(e1, "upstream_slug", JsonStr(o.upstreamSlug), key);
    SetFieldAt(e2, "pricing_group", JsonStr(o.pricingGroup), key);
    SetFieldAt(e3, "aliases", JsonList(o.aliases), key);
    SetFieldAt(e4, "is_default", JsonBool(o.isDefault), key);
    SetFieldAt(e5, "hidden", JsonBool(o.hidden), key);
  }

  lemma SetFieldAt(extra: Fields, key: string, value: Option<Json>, k: string)
    ensures Lookup(SetField(extra, key, value), k) == if k == key && value.Some? then value else Lookup(extra, k)
  {
  }

  lemma ApplyToTwice(o: ModelOverride, m: Model)
    ensures ApplyTo(o, ApplyTo(o, m)) == ApplyTo(o, m)
  {
    hide OverrideFields, OverrideField;
    var once := OverrideFields(o, m.extra);
    var twice := OverrideFields(o, once);
    forall k
      ensures Lookup(twice, k) == Lookup(once, k)
    {
      OverrideFieldsAt(o, m.extra, k);
      OverrideFieldsAt(o, once, k);
    }
    SameLookups(twice, once);
  }

  lemma SameLookups(a: Fields, b: Fields)
    requires forall k :: Lookup(a, k) == Lookup(b, k)
    ensures a == b
  {
    assert forall k :: (k in a) == Lookup(a, k).Some?;
    assert forall k :: (k in b) == Lookup(b, k).Some?;
    assert forall k | k in a :: Lookup(a, k) == Some(a[k]);
    assert forall k | k in b :: Lookup(b, k) == Some(b[k]);
  }

  /** Applying an override leaves it applied ... */
  lemma OverrideSettles(models: seq<Model>, slug: string, o: ModelOverride, embedded: seq<Model>)
    ensures var once := OverrideModel(models, slug, o, embedded);
            OverrideModel(once, slug, o, embedded) == once
  {
    hide ApplyTo, NewModel;
    var once := OverrideModel(models, slug, o, embedded);
    match FindSlug(models, slug) {
      case Some(i) =>
        ApplyToTwice(o, models[i]);
        ApplyKeepsSlug(o, models[i]);
        assert once[i].slug == slug && forall j | 0 <= j < i :: once[j] == models[j];
        assert FindSlug(once, slug) == Some(i);
      case None =>
        match NewModel(o, slug, embedded) {
          case Some(m) =>
            NewModelSettled(o, slug, embedded);
            assert once[|models|] == m;
            assert FindSlug(once, slug) == Some(|models|);
            assert once[|models| := m] == once;
          case None =>
        }
    }
  }

  lemma ApplyKeepsSlug(o: ModelOverride, m: Model)
    ensures ApplyTo(o, m).slug == m.slug
  {
  }

  lemma NewModelSettled(o: ModelOverride, slug: string, embedded: seq<Model>)
    ensures var m := NewModel(o, slug, embedded);
            m.Some? ==> m.value.slug == slug && ApplyTo(o, m.value) == m.value
  {
    hide ApplyTo;
    var template := if embedded != [] then embedded[0] else Model(slug, slug, "", 1_000_000, 95, 2, map[]);
    var t := Named(o, slug, template);
    ApplyToTwice(o, t);
    ApplyKeepsSlug(o, t);
  }

  /** ... and overriding another model does not disturb that. */
  lemma OverrideKeepsSettled(models: seq<Model>, slug: string, o: ModelOverride, other: string, p: ModelOverride,
                             embedded: seq<Model>)
    requires slug != other && OverrideModel(models, slug, o, embedded) == models
    ensures var next := OverrideModel(models, other, p, embedded);
            OverrideModel(next, slug, o, embedded) == next
  {
    hide ApplyTo, NewModel;
    var next := OverrideModel(models, other, p, embedded);
    SameSlugs(models, other, p, embedded);
    match FindSlug(models, slug) {
      case Some(i) =>
        assert FindSlug(next, slug) == Some(i) && next[i] == models[i];
        assert models[i := ApplyTo(o, models[i])][i] == models[i];
        assert next[i := next[i]] == next;
      case None =>
        assert NewModel(o, slug, embedded).None?;
        NewModelSettled(p, other, embedded);
        assert FindSlug(next, slug) == None;
    }
  }

  lemma SameSlugs(models: seq<Model>, slug: string, o: ModelOverride, embedded: seq<Model>)
    ensures var next := OverrideModel(models, slug, o, embedded);
            && |models| <= |next| <= |models| + 1
            && (forall i | 0 <= i < |models| :: next[i].slug == models[i].slug)
            && (forall i | 0 <= i < |models| && models[i].slug != slug :: next[i] == models[i])
            && (|next| > |models| ==> next[|models|].slug == slug)
  {
    hide ApplyTo, NewModel;
    match FindSlug(models, slug) {
      case Some(i) => ApplyKeepsSlug(o, models[i]);
      case None => NewModelSettled(o, slug, embedded);
    }
  }

  predicate AllSettled(models: seq<Model>, overrides: map<string, ModelOverride>, keys: set<string>,
                       embedded: seq<Model>)
  {
    forall k | k in keys && k in overrides :: OverrideModel(models, k, overrides[k], embedded) == models
  }

  lemma {:induction false} OverridesSettle(models: seq<Model>, overrides: map<string, ModelOverride>, done: set<string>,
                                          keys: seq<string>, embedded: seq<Model>)
    requires forall k | k in keys :: k in overrides
    requires AllSettled(models, overrides, done, embedded)
    ensures AllSettled(OverrideModels(models, overrides, keys, embedded), overrides, done + Elements(keys), embedded)
    decreases |keys|
  {
    hide OverrideModel;
    if keys != [] {
      var slug := keys[0];
      var next := OverrideModel(models, slug, overrides[slug], embedded);
      forall k | k in done + {slug} && k in overrides
        ensures OverrideModel(next, k, overrides[k], embedded) == next
      {
        if k == slug {
          OverrideSettles(models, slug, overrides[slug], embedded);
        } else {
          OverrideKeepsSettled(models, k, overrides[k], slug, overrides[slug], embedded);
        }
      }
      OverridesSettle(next, overrides, done + {slug}, keys[1..], embedded);
      assert done + {slug} + Elements(keys[1..]) == done + Elements(keys);
    }
  }

  lemma {:induction false} SettledStays(models: seq<Model>, overrides: map<string, ModelOverride>, keys: seq<string>,
                                       embedded: seq<Model>)
    requires forall k | k in keys :: k in overrides
    requires AllSettled(models, overrides, Elements(keys), embedded)
    ensures OverrideModels(models, overrides, keys, embedded) == models
    decreases |keys|
  {
    hide OverrideModel;
    if keys != [] {
      assert keys[0] in Elements(keys);
      assert Elements(keys[1..]) <= Elements(keys);
      SettledStays(models, overrides, keys[1..], embedded);
    }
  }

  lemma PricingTwice(t: Pricing.Table, value: Option<Json>)
    ensures OverridePricing(OverridePricing(t, value), value) == OverridePricing(t, value)
  {
    hide Pricing.ReadOverride, Pricing.ApplyOverride;
    if value.Some? {
      Pricing.OverrideIdempotent(t, value.value);
    }
  }

  lemma MarkUserTwice(revision: string)
    ensures MarkUser(MarkUser(revision)) == MarkUser(revision)
  {
    var r := revision + "+user";
    assert r[|r| - 5..] == "+user";
  }

  /** Applying the same overrides twice changes nothing further. */
  lemma OverridesIdempotent(document: Document, overrides: Overrides, embedded: seq<Model>)
    ensures var once := Overridden(document, overrides, embedded);
            Overridden(once, overrides, embedded) == once
  {
    hide OverrideModels, Ascending, MarkUser, OverridePricing;
    var keys := Ascending(overrides.models.Keys);
    var models := OverrideModels(document.models, overrides.models, keys, embedded);
    OverridesSettle(document.models, overrides.models, {}, keys, embedded);
    assert {} + Elements(keys) == Elements(keys);
    SettledStays(models, overrides.models, keys, embedded);
    PricingTwice(document.pricing, overrides.pricing);
    MarkUserTwice(document.revision);
  }

  lemma {:induction false} OverridesKeepModels(models: seq<Model>, overrides: map<string, ModelOverride>,
                                              keys: seq<string>, embedded: seq<Model>)
    requires forall k | k in keys :: k in overrides
    ensures var next := OverrideModels(models, overrides, keys, embedded);
            |models| <= |next| && forall i | 0 <= i < |models| :: next[i].slug == models[i].slug
    decreases |keys|
  {
    hide OverrideModel;
    if keys != [] {
      SameSlugs(models, keys[0], overrides[keys[0]], embedded);
      OverridesKeepModels(OverrideModel(models, keys[0], overrides[keys[0]], embedded), overrides, keys[1..], embedded);
    }
  }

  /** Overrides never remove or reorder a model. */
  lemma NoModelRemoved(document: Document, overrides: Overrides, embedded: seq<Model>)
    ensures var next := Overridden(document, overrides, embedded).models;
            && |document.models| <= |next|
            && forall i | 0 <= i < |document.models| :: next[i].slug == document.models[i].slug
  {
    OverridesKeepModels(document.models, overrides.models, Ascending(overrides.models.Keys), embedded);
  }

  // ----------------------------------------------------------------------- paging

  const USIZE_MAX: nat := 0xFFFF_FFFF_FFFF_FFFF

  predicate IsHidden(m: Model) {
    match BoolField(m.extra, "hidden")
    case Some(hidden) => hidden
    case None => StrField(m.extra, "visibility") == Some("hidden")
  }

  predicate IsDefault(m: Model) {
    BoolField(m.extra, "is_default") == Some(true)
  }

  /** A listed model; whether any model is an explicit default is decided over the whole catalog. */
  datatype Entry = Entry(model: Model, anyExplicitDefault: bool)

  datatype Params = Params(cursor: Option<string>, limit: Option<nat>, includeHidden: Option<bool>)

  datatype Page = Page(data: seq<Entry>, nextCursor: Option<string>)

  function Listed(models: seq<Model>, includeHidden: bool, anyDefault: bool): seq<Entry> {
    if models == [] then []
    else if includeHidden || !IsHidden(models[0]) then
      [Entry(models[0], anyDefault)] + Listed(models[1..], includeHidden, anyDefault)
    else Listed(models[1..], includeHidden, anyDefault)
  }

  function AllListed(models: seq<Model>, params: Params): (r: seq<Entry>) {
    Listed(models, params.includeHidden == Some(true), exists i | 0 <= i < |models| :: IsDefault(models[i]))
  }

  function PageStart(params: Params): nat {
    match params.cursor
    case None => 0
    case Some(text) => (match ParseUnsigned(text, USIZE_MAX) case Some(n) => n case None => 0)
  }

  function PageLimit(params: Params): (n: nat)
    ensures n > 0
  {
    if params.limit.Some? && params.limit.value > 0 then params.limit.value else 50
  }

  function ListPage(models: seq<Model>, params: Params): Page {
    var all := AllListed(models, params);
    var start := PageStart(params);
    var end := Min(Min(start + PageLimit(params), USIZE_MAX), |all|);
    var from := Min(start, |all|);
    Page(if from <= end then all[from..end] else [], if end < |all| then Some(Decimal(end)) else None)
  }

  /** A page starts at its cursor, and at the beginning without a readable one. */
  lemma PageStartIs(params: Params, n: nat)
    ensures params.cursor.None? ==> PageStart(params) == 0
    ensures n <= USIZE_MAX && params.cursor == Some(Decimal(n)) ==> PageStart(params) == n
    ensures params.cursor.Some? && ParseUnsigned(params.cursor.value, USIZE_MAX).None? ==> PageStart(params) == 0
  {
    hide ParseUnsigned;
    if n <= USIZE_MAX {
      ParseDecimal(n, USIZE_MAX);
    }
  }

  /** The cursor of the next page leads to the entry after this page's last. */
  lemma NextCursorAdvances(models: seq<Model>, params: Params)
    requires |AllListed(models, params)| <= USIZE_MAX && ListPage(models, params).nextCursor.Some?
    ensures var next := params.(cursor := ListPage(models, params).nextCursor);
            && AllListed(models, next) == AllListed(models, params)
            && PageStart(params) < PageStart(next) < |AllListed(models, params)|
            && ListPage(models, params).data == AllListed(models, params)[PageStart(params)..PageStart(next)]
  {
    hide Decimal, ParseUnsigned, Listed;
    var all := AllListed(models, params);
    var end := Min(Min(PageStart(params) + PageLimit(params), USIZE_MAX), |all|);
    ParseDecimal(end, USIZE_MAX);
  }

  /** How many entries lie from the cursor on. */
  function Ahead(models: seq<Model>, params: Params): nat {
    var n := |AllListed(models, params)|;
    n - Min(PageStart(params), n)
  }

  /** The entries a client collects by following cursors to the end. */
  function Follow(models: seq<Model>, params: Params): seq<Entry>
    requires |AllListed(models, params)| <= USIZE_MAX
    decreases Ahead(models, params)
  {
    hide ListPage, PageStart, AllListed;
    var page := ListPage(models, params);
    if page.nextCursor.None? then page.data
    else
      NextCursorAdvances(models, params);
      page.data + Follow(models, params.(cursor := page.nextCursor))
  }

  lemma {:induction false} FollowFrom(models: seq<Model>, params: Params)
    requires |AllListed(models, params)| <= USIZE_MAX
    ensures Follow(models, params) == AllListed(models, params)[Min(PageStart(params), |AllListed(models, params)|)..]
    decreases Ahead(models, params)
  {
    hide ListPage, PageStart, AllListed;
    var page := ListPage(models, params);
    if page.nextCursor.Some? {
      NextCursorAdvances(models, params);
      var next := params.(cursor := page.nextCursor);
      FollowFrom(models, next);
      var all := AllListed(models, params);
      assert all[PageStart(params)..PageStart(next)] + all[PageStart(next)..] == all[PageStart(params)..];
    } else {
      LastPage(models, params);
    }
  }

  lemma LastPage(models: seq<Model>, params: Params)
    requires |AllListed(models, params)| <= USIZE_MAX && ListPage(models, params).nextCursor.None?
    ensures var all := AllListed(models, params);
            ListPage(models, params).data == all[Min(PageStart(params), |all|)..]
  {
    hide AllListed, PageStart;
  }

  /** From the first page on, the cursors list every visible model exactly once and in order. */
  lemma FollowListsAll(models: seq<Model>, params: Params)
    requires params.cursor.None? && |AllListed(models, params)| <= USIZE_MAX
    ensures Follow(models, params) == AllListed(models, params)
  {
    FollowFrom(models, params);
  }
}
