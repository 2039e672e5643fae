/** What the catalog's models and documents say, told from their fields. */
module CatalogFields {
  import opened Wrappers
  import opened Json
  import opened Text
  import opened Ordered
  import opened Seqs
  import Pricing
  import opened Catalog

  // ------------------------------------------------------------------- single models

  predicate HasFlag(m: Model, key: string, flag: bool) {
    key in m.extra && m.extra[key] == Bool(flag)
  }

  predicate HasText(m: Model, key: string, text: string) {
    key in m.extra && m.extra[key] == Str(text)
  }

  /** A model is hidden by its flag, or by its visibility when it has no flag. */
  lemma HiddenExactly(m: Model)
    ensures IsHidden(m)
            <==> HasFlag(m, "hidden", true) || (!HasFlag(m, "hidden", false) && HasText(m, "visibility", "hidden"))
    ensures IsDefault(m) <==> HasFlag(m, "is_default", true)
  {
  }

  /** A model is for billing only if its kind is one of four words, in any case. */
  lemma BillingOnlyExactly(m: Model)
    ensures IsBillingOnly(m)
            <==> exists kind | HasText(m, "kind", kind) ::
                   LowerAscii(Trim(kind)) in ["billing_only", "billing", "pricing", "pricing_only"]
  {
    hide Trim, LowerAscii;
    if IsBillingOnly(m) {
      assert HasText(m, "kind", m.extra["kind"].text);
    }
  }

  /** One of the model's aliases is the name, in any case. */
  predicate IsAlias(m: Model, name: string) {
    "aliases" in m.extra && m.extra["aliases"].Arr?
    && exists i | 0 <= i < |m.extra["aliases"].items| ::
         m.extra["aliases"].items[i].Str? && LowerAscii(m.extra["aliases"].items[i].text) == LowerAscii(name)
  }

  lemma AliasIs(m: Model, name: string)
    ensures HasAlias(m, name) <==> IsAlias(m, name)
  {
    hide LowerAscii;
  }

  /** The first model with the alias. */
  lemma {:induction false} FindAliasExactly(models: seq<Model>, name: string)
    ensures var r := FindAlias(models, name);
            && (r.None? <==> forall i | 0 <= i < |models| :: !IsAlias(models[i], name))
            && (r.Some? ==> exists i | 0 <= i < |models| ::
                  && models[i] == r.value && IsAlias(models[i], name)
                  && forall j | 0 <= j < i :: !IsAlias(models[j], name))
  {
    hide IsAlias, HasAlias;
    if models != [] {
      var rest := models[1..];
      AliasIs(models[0], name);
      FindAliasExactly(rest, name);
      if IsAlias(models[0], name) {
        assert models[0] == FindAlias(models, name).value;
      } else if FindAlias(rest, name).Some? {
        var i :| 0 <= i < |rest| && rest[i] == FindAlias(rest, name).value && IsAlias(rest[i], name)
                 && forall j | 0 <= j < i :: !IsAlias(rest[j], name);
        assert models[i + 1] == rest[i];
        assert forall j | 1 <= j < i + 1 :: models[j] == rest[j - 1];
      } else {
        assert forall j | 1 <= j < |models| :: models[j] == rest[j - 1];
      }
    }
  }

  /** A name finds the first model with that slug, blanks around it aside, or else the first with that
      alias, and nothing only when there is neither. */
  lemma FindModelExactly(models: seq<Model>, name: string)
    ensures var r, slug := FindModel(models, name), Trim(name);
            if exists i | 0 <= i < |models| :: models[i].slug == slug then
              r.Some? && exists i | 0 <= i < |models| ::
                models[i] == r.value && models[i].slug == slug && forall j | 0 <= j < i :: models[j].slug != slug
            else
              && (r.None? <==> forall i | 0 <= i < |models| :: !IsAlias(models[i], slug))
              && (r.Some? ==> exists i | 0 <= i < |models| ::
                    && models[i] == r.value && IsAlias(models[i], slug)
                    && forall j | 0 <= j < i :: !IsAlias(models[j], slug))
  {
    hide Trim, IsAlias, FindAlias;
    FindAliasExactly(models, Trim(name));
    var found := FindSlug(models, Trim(name));
    if found.Some? {
      assert models[found.value].slug == Trim(name);
    }
  }

  // ------------------------------------------------------------------------ paging

  predicate Shown(m: Model, includeHidden: bool) {
    includeHidden
    || !(HasFlag(m, "hidden", true) || (!HasFlag(m, "hidden", false) && HasText(m, "visibility", "hidden")))
  }

  lemma {:induction false} ListedInOrder(models: seq<Model>, includeHidden: bool, anyDefault: bool)
    ensures var shown := Filter(m => Shown(m, includeHidden), models);
            var listed := Listed(models, includeHidden, anyDefault);
            |listed| == |shown| && forall n | 0 <= n < |shown| :: listed[n] == Entry(shown[n], anyDefault)
  {
    hide IsHidden, HasFlag, HasText;
    if models != [] {
      HiddenExactly(models[0]);
      ListedInOrder(models[1..], includeHidden, anyDefault);
    }
  }

  /** The models listed are those not hidden, or all if hidden ones are asked for, in order. */
  lemma AllListedExactly(models: seq<Model>, params: Params)
    ensures var shown := Filter(m => Shown(m, params.includeHidden == Some(true)), models);
            var flag := exists i | 0 <= i < |models| :: HasFlag(models[i], "is_default", true);
            var listed := AllListed(models, params);
            |listed| == |shown| && forall n | 0 <= n < |shown| :: listed[n] == Entry(shown[n], flag)
  {
    hide HasFlag, HasText, IsDefault, IsHidden, Listed, Filter, Shown;
    forall i | 0 <= i < |models|
      ensures IsDefault(models[i]) <==> HasFlag(models[i], "is_default", true)
    {
      HiddenExactly(models[i]);
    }
    ListedInOrder(models, params.includeHidden == Some(true), exists i | 0 <= i < |models| :: IsDefault(models[i]));
  }

  /** A page holds as many entries as were asked for, fifty if none or zero were, or as are left. */
  lemma PageHolds(models: seq<Model>, params: Params)
    requires |AllListed(models, params)| <= USIZE_MAX
    ensures var all, start := AllListed(models, params), PageStart(params);
            var limit := if params.limit.Some? && params.limit.value != 0 then params.limit.value else 50;
            ListPage(models, params).data
            == if start >= |all| then [] else all[start..if start + limit < |all| then start + limit else |all|]
  {
    hide AllListed, PageStart;
  }

  // ---------------------------------------------------------------------- overrides

  /** Model `i` is the first with its slug. */
  predicate IsFirstOf(models: seq<Model>, i: nat) {
    i < |models| && forall j | 0 <= j < i :: models[j].slug != models[i].slug
  }

  /** The model is the old one with the override's values in place of its own, where given. */
  ghost predicate IsPatched(old': Model, o: ModelOverride, m: Model) {
    && m.slug == old'.slug && m.priority == old'.priority
    && m.displayName == (if o.displayName.Some? then o.displayName.value else old'.displayName)
    && m.description == (if o.description.Some? then o.description.value else old'.description)
    && m.contextWindow == (if o.contextWindow.Some? then o.contextWindow.value else old'.contextWindow)
    && m.effectiveContextWindowPercent
       == (if o.effectiveContextWindowPercent.Some? then o.effectiveContextWindowPercent.value
           else old'.effectiveContextWindowPercent)
    && forall key :: Lookup(m.extra, key) == First(Given(o, key), Lookup(old'.extra, key), None)
  }

  /** What the override gives for a further field. */
  function Given(o: ModelOverride, key: string): Option<Json> {
    match key
    case "short_display_name" => (match o.shortDisplayName case Some(text) => Some(Str(text)) case None => None)
    case "upstream_slug" => (match o.upstreamSlug case Some(text) => Some(Str(text)) case None => None)
    case "pricing_group" => (match o.pricingGroup case Some(text) => Some(Str(text)) case None => None)
    case "is_default" => (match o.isDefault case Some(flag) => Some(Bool(flag)) case None => None)
    case "hidden" => (match o.hidden case Some(flag) => Some(Bool(flag)) case None => None)
    case "aliases" => (match o.aliases case Some(names) => Some(TextArray(names)) case None => None)
    case _ => None
  }

  function TextArray(texts: seq<string>): Json {
    Arr(seq(|texts|, i requires 0 <= i < |texts| => Str(texts[i])))
  }

  lemma GivenIs(o: ModelOverride, key: string)
    ensures Given(o, key) == OverrideField(o, key)
  {
  }

  lemma PatchedIs(old': Model, o: ModelOverride)
    ensures IsPatched(old', o, ApplyTo(o, old'))
  {
    hide OverrideFields, Lookup, First, Given, OverrideField;
    forall key
      ensures Lookup(OverrideFields(o, old'.extra), key) == First(Given(o, key), Lookup(old'.extra, key), None)
    {
      OverrideFieldsAt(o, old'.extra, key);
      GivenIs(o, key);
    }
  }

  predicate NoSlug(models: seq<Model>, slug: string) {
    forall i | 0 <= i < |models| :: models[i].slug != slug
  }

  /** One override patches the first model with its slug, or adds one, and does nothing else. */
  lemma OverrideOne(models: seq<Model>, k: string, o: ModelOverride, embedded: seq<Model>, i: nat)
    requires i < |models|
    ensures var mid := OverrideModel(models, k, o, embedded);
            && |models| <= |mid| && mid[i].slug == models[i].slug
            && (IsFirstOf(mid, i) <==> IsFirstOf(models, i))
            && mid[i] == if IsFirstOf(models, i) && models[i].slug == k then ApplyTo(o, models[i]) else models[i]
  {
    hide ApplyTo, NewModel;
    SameSlugs(models, k, o, embedded);
  }

  lemma OverrideNone(models: seq<Model>, k: string, o: ModelOverride, embedded: seq<Model>, slug: string)
    requires NoSlug(models, slug)
    ensures var mid, added := OverrideModel(models, k, o, embedded), NewModel(o, k, embedded);
            && |models| <= |mid|
            && (slug != k ==> NoSlug(mid, slug))
            && (slug == k ==> if added.Some? then
                                |mid| == |models| + 1 && mid[|models|] == added.value && added.value.slug == slug
                                && IsFirstOf(mid, |models|)
                              else mid == models)
  {
    hide ApplyTo, NewModel;
    SameSlugs(models, k, o, embedded);
    NewModelSettled(o, k, embedded);
  }

  lemma KeysSplit(keys: seq<string>)
    requires keys != [] && Distinct(keys)
    ensures Distinct(keys[1..]) && keys[0] !in keys[1..]
    ensures forall x :: x in keys <==> x == keys[0] || x in keys[1..]
  {
  }

  lemma OverrideMore(models: seq<Model>, overrides: map<string, ModelOverride>, keys: seq<string>, embedded: seq<Model>)
    requires keys != [] && forall k | k in keys :: k in overrides
    ensures OverrideModels(models, overrides, keys, embedded)
            == OverrideModels(OverrideModel(models, keys[0], overrides[keys[0]], embedded), overrides, keys[1..],
                              embedded)
  {
    hide OverrideModel;
  }

  /** Of the models in the document, exactly the first with each overridden slug is patched. */
  lemma {:induction false} OverriddenAt(models: seq<Model>, overrides: map<string, ModelOverride>, keys: seq<string>,
                                       embedded: seq<Model>, i: nat)
    requires Distinct(keys) && (forall k | k in keys :: k in overrides) && i < |models|
    ensures var next := OverrideModels(models, overrides, keys, embedded);
            && |models| <= |next|
            && next[i] == if IsFirstOf(models, i) && models[i].slug in keys then
                            ApplyTo(overrides[models[i].slug], models[i])
                          else models[i]
    decreases |keys|
  {
    hide ApplyTo, OverrideModel, IsFirstOf, Distinct;
    if keys != [] {
      var k := keys[0];
      KeysSplit(keys);
      OverrideMore(models, overrides, keys, embedded);
      OverrideOne(models, k, overrides[k], embedded, i);
      OverriddenAt(OverrideModel(models, k, overrides[k], embedded), overrides, keys[1..], embedded, i);
    }
  }

  lemma AscendingDistinct(keys: seq<string>)
    requires StrictlyAscending(keys)
    ensures Distinct(keys)
  {
    hide Leq;
  }

  /** Each model of the document comes out as it was, or patched by the override of its slug if there
      is one and it is the first with that slug. */
  lemma DocumentModelAt(document: Document, overrides: Overrides, embedded: seq<Model>, i: nat)
    requires i < |document.models|
    ensures var next, m := Overridden(document, overrides, embedded).models, document.models[i];
            && |document.models| <= |next|
            && if IsFirstOf(document.models, i) && m.slug in overrides.models then
                 IsPatched(m, overrides.models[m.slug], next[i])
               else next[i] == m
  {
    hide OverrideModels, ApplyTo, IsPatched, StrictlyAscending;
    var keys := Ascending(overrides.models.Keys);
    AscendingSorted(overrides.models.Keys);
    AscendingDistinct(keys);
    OverriddenAt(document.models, overrides.models, keys, embedded, i);
    var m := document.models[i];
    if m.slug in overrides.models {
      PatchedIs(m, overrides.models[m.slug]);
    }
  }

  /** A model of its own for an override: the built-in document's first model, or a bare one, under
      the override's slug and names and patched by it. */
  ghost predicate IsFresh(embedded: seq<Model>, slug: string, o: ModelOverride, m: Model) {
    var template := if embedded != [] then embedded[0] else Model(slug, slug, "", 1_000_000, 95, 2, map[]);
    IsPatched(template.(slug := slug,
                        displayName := if o.displayName.Some? then o.displayName.value else slug,
                        description := if o.description.Some? then o.description.value else ""),
              o, m)
  }

  lemma FreshIs(embedded: seq<Model>, slug: string, o: ModelOverride)
    ensures NewModel(o, slug, embedded).Some? <==> o.displayName.Some? || o.description.Some?
    ensures NewModel(o, slug, embedded).Some? ==> IsFresh(embedded, slug, o, NewModel(o, slug, embedded).value)
  {
    hide ApplyTo, IsPatched;
    var template := if embedded != [] then embedded[0] else Model(slug, slug, "", 1_000_000, 95, 2, map[]);
    PatchedIs(Named(o, slug, template), o);
  }

  /** An override whose slug no model has adds a model exactly when it gives a name or a description. */
  lemma {:induction false} OverridesAdd(models: seq<Model>, overrides: map<string, ModelOverride>, keys: seq<string>,
                                       embedded: seq<Model>, slug: string)
    requires Distinct(keys) && (forall k | k in keys :: k in overrides) && slug in keys && NoSlug(models, slug)
    ensures var next := OverrideModels(models, overrides, keys, embedded);
            var added := NewModel(overrides[slug], slug, embedded);
            if added.Some? then exists j | |models| <= j < |next| :: next[j] == added.value else NoSlug(next, slug)
    decreases |keys|
  {
    hide ApplyTo, NewModel, OverrideModel, IsFirstOf, Distinct, NoSlug;
    var k, rest := keys[0], keys[1..];
    var mid := OverrideModel(models, k, overrides[k], embedded);
    KeysSplit(keys);
    OverrideMore(models, overrides, keys, embedded);
    OverrideNone(models, k, overrides[k], embedded, slug);
    if k != slug {
      OverridesAdd(mid, overrides, rest, embedded, slug);
    } else if NewModel(overrides[k], slug, embedded).Some? {
      OverriddenAt(mid, overrides, rest, embedded, |models|);
    } else {
      NeverAdded(mid, overrides, rest, embedded, slug);
    }
  }

  lemma {:induction false} NeverAdded(models: seq<Model>, overrides: map<string, ModelOverride>, keys: seq<string>,
                                     embedded: seq<Model>, slug: string)
    requires (forall k | k in keys :: k in overrides) && slug !in keys && NoSlug(models, slug)
    ensures NoSlug(OverrideModels(models, overrides, keys, embedded), slug)
    decreases |keys|
  {
    hide OverrideModel, NoSlug, NewModel;
    if keys != [] {
      var k := keys[0];
      assert k in keys && forall x | x in keys[1..] :: x in keys;
      OverrideMore(models, overrides, keys, embedded);
      OverrideNone(models, k, overrides[k], embedded, slug);
      NeverAdded(OverrideModel(models, k, overrides[k], embedded), overrides, keys[1..], embedded, slug);
    }
  }

  /** An override for a slug the document does not have adds a model shaped after the built-in ones
      exactly when it gives a name or a description. */
  lemma FreshModelAdded(document: Document, overrides: Overrides, embedded: seq<Model>, slug: string)
    requires slug in overrides.models && NoSlug(document.models, slug)
    ensures var next, o := Overridden(document, overrides, embedded).models, overrides.models[slug];
            if o.displayName.Some? || o.description.Some? then
              exists j | |document.models| <= j < |next| :: IsFresh(embedded, slug, o, next[j])
            else NoSlug(next, slug)
  {
    hide OverrideModels, NewModel, IsFresh, StrictlyAscending;
    var keys := Ascending(overrides.models.Keys);
    AscendingSorted(overrides.models.Keys);
    AscendingDistinct(keys);
    OverridesAdd(document.models, overrides.models, keys, embedded, slug);
    FreshIs(embedded, slug, overrides.models[slug]);
    assert Overridden(document, overrides, embedded).models
           == OverrideModels(document.models, overrides.models, keys, embedded);
  }

  /** Pricing overrides apply when they can be read; the revision is marked once, and nothing is
      without overrides. */
  lemma OverriddenRest(document: Document, overrides: Overrides, embedded: seq<Model>)
    ensures var next := Overridden(document, overrides, embedded);
            && (overrides.models == map[] && overrides.pricing.None? ==> next == document)
            && next.schemaVersion == document.schemaVersion && next.issuedAt == document.issuedAt
            && next.providerName == document.providerName && next.defaultModel == document.defaultModel
            && next.minAppVersion == document.minAppVersion
            && (overrides.pricing.Some? ==>
                  next.pricing == match Pricing.WithOverrideValue(document.pricing, overrides.pricing.value)
                                  case Ok(pricing) => pricing
                                  case Err(_) => document.pricing)
            && (overrides.pricing.None? ==> next.pricing == document.pricing)
            && (overrides.models != map[] || overrides.pricing.Some? ==>
                  EndsWith(next.revision, "+user")
                  && (next.revision == document.revision || next.revision == document.revision + "+user"))
  {
    hide OverrideModels, Pricing.WithOverrideValue;
    var marked := document.revision + "+user";
    assert marked[|marked| - 5..] == "+user";
  }

  // -------------------------------------------------------------------------- merging

  /** Of a merge, the overlay's fields, and the base's where the overlay has none. */
  lemma MergedFields(base: Document, overlay: Document)
    ensures var d := MergedDocument(base, overlay);
            && d.schemaVersion == overlay.schemaVersion && d.revision == overlay.revision
            && d.minAppVersion == overlay.minAppVersion
            && d.issuedAt == (if overlay.issuedAt.None? then base.issuedAt else overlay.issuedAt)
            && d.providerName == (if Trim(overlay.providerName) == "" then base.providerName else overlay.providerName)
            && d.defaultModel == (if Trim(overlay.defaultModel) == "" then base.defaultModel else overlay.defaultModel)
            && d.pricing == (if overlay.pricing.rates == map[] && overlay.pricing.groups == map[] then base.pricing
                             else overlay.pricing)
  {
    hide MergeModels, Blank, Trim;
    TrimEmptyIffBlank(overlay.providerName);
    TrimEmptyIffBlank(overlay.defaultModel);
  }

  /** A merged model differs from the overlay's in its further fields alone. */
  lemma {:induction false} MergedModelAt(base: seq<Model>, models: seq<Model>, i: nat)
    requires i < |models|
    ensures |MergeModels(base, models)| == |models|
    ensures var m := MergeModels(base, models)[i]; m == models[i].(extra := m.extra)
  {
    hide FindModel;
    MergeLength(base, models);
    if i > 0 {
      MergedModelAt(base, models[1..], i - 1);
    }
  }

  // --------------------------------------------------------------------------- seeds

  /** The models of a document that are not for billing only, each with its seed. */
  lemma {:induction false} SeededInOrder(seed: Seed, models: seq<Model>)
    ensures var chat := Filter(m => !IsBillingOnly(m), models);
            && |SeededModels(seed, models)| == |chat|
            && forall n | 0 <= n < |chat| ::
                 SeededModels(seed, models)[n] == chat[n].(extra := SeededModels(seed, models)[n].extra)
                 && SeededModels(seed, models)[n] == SeededModel(seed, chat[n])
  {
    hide IsBillingOnly, Layered;
    if models != [] {
      SeededInOrder(seed, models[1..]);
    }
  }

  // ---------------------------------------------------- one field through all layers

  /** A further field of a fetched model: the user's override if it gives one, or else the document's,
      or else the built-in model's that its slug or alias finds. */
  lemma FieldThroughLayers(embedded: Document, fetched: Document, overrides: Overrides, i: nat, key: string)
    requires i < |fetched.models| && IsFirstOf(fetched.models, i)
    ensures var next := Overridden(MergedDocument(embedded, fetched), overrides, embedded.models).models;
            var slug := fetched.models[i].slug;
            var given := if slug in overrides.models then Given(overrides.models[slug], key) else None;
            var builtin := FindModel(embedded.models, slug);
            && |next| >= |fetched.models| && next[i].slug == slug
            && Lookup(next[i].extra, key)
               == First(given, Lookup(fetched.models[i].extra, key),
                        if builtin.Some? then Lookup(builtin.value.extra, key) else None)
  {
    hide Overridden, MergeModels, FindModel, Given, IsPatched, Lookup;
    var merged := MergedDocument(embedded, fetched);
    MergeLength(embedded.models, fetched.models);
    assert merged.models == MergeModels(embedded.models, fetched.models);
    var m := merged.models[i];
    MergeKeepsOverlay(embedded.models, fetched.models, i, key);
    SameFirst(embedded.models, fetched.models, i);
    DocumentModelAt(merged, overrides, embedded.models, i);
    var next := Overridden(merged, overrides, embedded.models).models;
    if m.slug in overrides.models {
      PatchedAt(m, overrides.models[m.slug], next[i], key);
    }
  }

  lemma PatchedAt(old': Model, o: ModelOverride, m: Model, key: string)
    requires IsPatched(old', o, m)
    ensures m.slug == old'.slug && Lookup(m.extra, key) == First(Given(o, key), Lookup(old'.extra, key), None)
  {
    hide Lookup, First, Given;
  }

  lemma SameFirst(base: seq<Model>, models: seq<Model>, i: nat)
    requires IsFirstOf(models, i)
    ensures |MergeModels(base, models)| == |models| && IsFirstOf(MergeModels(base, models), i)
  {
    hide MergeModels;
    forall j | 0 <= j <= i
      ensures |MergeModels(base, models)| == |models| && MergeModels(base, models)[j].slug == models[j].slug
    {
      MergedModelAt(base, models, j);
    }
    MergedModelAt(base, models, i);
  }
}
