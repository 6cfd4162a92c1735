/**
 * `getComponents` and `encodeProperty` of the template wizard
 * (Template/cluster/actions/Create): the ordered list of enabled components
 * assembled from the storage tabs and plugin forms, each given the version of
 * its catalogue descriptor, with every schema-masked property base64-encoded.
 *
 * The two operations are methods with the source's loops; each is proved
 * equal to a specification function, and the promised properties are proved
 * about those functions.
 */
module TemplateComponents {
  import opened Wrappers
  import opened Js
  import opened TemplateData
  import Base64

  // ---------------------------------------------------------------------------
  // Storage entries

  /** The list-valued parameters whose falsy elements are dropped. */
  const CheckParams: seq<string> := ["mountOptions", "monitors"]

  predicate Enabled(item: Entry) {
    Truthy(Prop(item, "enable"))
  }

  /** `assign(omit(item, 'enable'), { isDefaultSC: item.scName === defaultStorage })`. */
  function BaseConfig(item: Entry, ds: JsValue): map<string, JsValue> {
    (item - {"enable"})["isDefaultSC" := Bool(StrictEquals(Prop(item, "scName"), ds))]
  }

  /** The clean-up loop over the listed parameters: each non-empty one is replaced by its truthy elements. */
  function CleanParams(config: map<string, JsValue>, item: Entry, params: seq<string>): map<string, JsValue>
    decreases |params|
  {
    if params == [] then config
    else
      var k := params[0];
      var next := if HasLength(Prop(item, k)) then config[k := FilterBoolean(Prop(item, k))] else config;
      CleanParams(next, item, params[1..])
  }

  /** The clean-up adds the non-empty listed parameters, filtered, and leaves every other key alone. */
  lemma {:induction false} CleanParamsEffect(config: map<string, JsValue>, item: Entry, params: seq<string>)
    ensures CleanParams(config, item, params).Keys == config.Keys + (set k | k in params && HasLength(Prop(item, k)))
    ensures forall k :: k in CleanParams(config, item, params) ==> (CleanParams(config, item, params)[k] ==
      if k in params && HasLength(Prop(item, k)) then FilterBoolean(Prop(item, k)) else config[k])
    decreases |params|
  {
    if params != [] {
      var k := params[0];
      var next := if HasLength(Prop(item, k)) then config[k := FilterBoolean(Prop(item, k))] else config;
      CleanParamsEffect(next, item, params[1..]);
      assert forall x :: x in params <==> x == k || x in params[1..];
    }
  }

  /** The config of an enabled storage entry, as the loop of `getComponents` builds it. */
  function StorageConfig(item: Entry, ds: JsValue): map<string, JsValue> {
    CleanParams(BaseConfig(item, ds), item, CheckParams)
  }

  /** An enabled storage entry's config has the entry's keys without `enable`, plus `isDefaultSC`. */
  lemma StorageConfigKeys(item: Entry, ds: JsValue)
    ensures StorageConfig(item, ds).Keys == item.Keys - {"enable"} + {"isDefaultSC"}
  {
    var base := BaseConfig(item, ds);
    var cleaned := set k | k in CheckParams && HasLength(Prop(item, k));
    CleanParamsEffect(base, item, CheckParams);
    assert base.Keys == item.Keys - {"enable"} + {"isDefaultSC"};
    assert cleaned <= item.Keys;
  }

  /**
   * An enabled storage entry's config: `isDefaultSC` tells whether the entry
   * is the default storage class, a non-empty `mountOptions` or `monitors`
   * keeps only its truthy elements, and every other field is the entry's own.
   */
  lemma StorageConfigValues(item: Entry, ds: JsValue)
    ensures "isDefaultSC" in StorageConfig(item, ds)
    ensures StorageConfig(item, ds)["isDefaultSC"] == Bool(StrictEquals(Prop(item, "scName"), ds))
    ensures forall k :: k in item && k != "enable" && k != "isDefaultSC" && k !in CheckParams ==>
      k in StorageConfig(item, ds) && StorageConfig(item, ds)[k] == item[k]
    ensures forall k :: k in CheckParams && k in item ==>
      k in StorageConfig(item, ds) && StorageConfig(item, ds)[k] == if HasLength(item[k]) then FilterBoolean(item[k]) else item[k]
  {
    CleanParamsEffect(BaseConfig(item, ds), item, CheckParams);
    assert "isDefaultSC" !in CheckParams;
  }

  /**
   * Without a `defaultStorage`, an entry is marked the default class exactly
   * when its `scName` is the empty string, so an entry without a `scName` is
   * not; a `defaultStorage` that is given, even `null`, is compared as it is.
   */
  lemma DefaultStorageMarks(v: FormValues, item: Entry)
    ensures "isDefaultSC" in StorageConfig(item, DefaultStorageOf(v))
    ensures v.defaultStorage.Undefined? ==>
      StorageConfig(item, DefaultStorageOf(v))["isDefaultSC"] == Bool(Prop(item, "scName") == Str(""))
    ensures !v.defaultStorage.Undefined? && !v.defaultStorage.Arr? && !v.defaultStorage.Obj? ==>
      StorageConfig(item, DefaultStorageOf(v))["isDefaultSC"] == Bool(Prop(item, "scName") == v.defaultStorage)
  {
    StorageConfigValues(item, DefaultStorageOf(v));
  }

  function EntryComponents(name: string, item: Entry, ds: JsValue): seq<Component> {
    if Enabled(item) then [Component(name, StorageConfig(item, ds), Undefined)] else []
  }

  /** The components one storage tab contributes, in the order of its entries. */
  function TabComponents(name: string, items: seq<Entry>, ds: JsValue): seq<Component>
    decreases |items|
  {
    if items == [] then []
    else TabComponents(name, items[..|items| - 1], ds) + EntryComponents(name, items[|items| - 1], ds)
  }

  /** The storage components, tab by tab. */
  function StorageComponents(tabs: seq<StorageTab>, ds: JsValue): seq<Component>
    decreases |tabs|
  {
    if tabs == [] then []
    else StorageComponents(tabs[..|tabs| - 1], ds) + TabComponents(tabs[|tabs| - 1].name, tabs[|tabs| - 1].formData, ds)
  }

  function EnabledCount(items: seq<Entry>): nat
    decreases |items|
  {
    if items == [] then 0
    else EnabledCount(items[..|items| - 1]) + if Enabled(items[|items| - 1]) then 1 else 0
  }

  function StorageCount(tabs: seq<StorageTab>): nat
    decreases |tabs|
  {
    if tabs == [] then 0
    else StorageCount(tabs[..|tabs| - 1]) + EnabledCount(tabs[|tabs| - 1].formData)
  }

  // ---------------------------------------------------------------------------
  // Plugin forms

  predicate PluginEnabled(form: JsValue) {
    Truthy(Path(form, ["formData", "enable"]))
  }

  /** `omit(get(form, 'formData'), 'enable')`: an enabled plugin's form data without its flag. */
  function PluginConfig(form: JsValue): (c: map<string, JsValue>)
    ensures PluginEnabled(form) ==> Path(form, ["formData"]).Obj? && c == Path(form, ["formData"]).props - {"enable"}
  {
    match Path(form, ["formData"])
    case Obj(m) => m - {"enable"}
    case _ => map[]
  }

  function PluginEntryComponents(entry: (string, JsValue)): seq<Component> {
    if PluginEnabled(entry.1) then [Component(entry.0, PluginConfig(entry.1), Undefined)] else []
  }

  /** The plugin components, in the order of the forms' keys. */
  function PluginComponents(forms: seq<(string, JsValue)>): seq<Component>
    decreases |forms|
  {
    if forms == [] then []
    else PluginComponents(forms[..|forms| - 1]) + PluginEntryComponents(forms[|forms| - 1])
  }

  function PluginCount(forms: seq<(string, JsValue)>): nat
    decreases |forms|
  {
    if forms == [] then 0
    else PluginCount(forms[..|forms| - 1]) + if PluginEnabled(forms[|forms| - 1].1) then 1 else 0
  }

  /** All enabled components before versions are attached: the storage ones, then the plugin ones. */
  function Collected(v: FormValues): seq<Component> {
    StorageComponents(v.storageTabs, DefaultStorageOf(v)) + PluginComponents(v.pluginForms)
  }

  // ---------------------------------------------------------------------------
  // Catalogue lookups and versions

  /** `catalogue.find(({ name }) => name === n)`: the first descriptor of that name. */
  function Lookup(catalogue: seq<CatalogueEntry>, n: string): (r: Option<CatalogueEntry>)
    ensures r.None? <==> forall i :: 0 <= i < |catalogue| ==> catalogue[i].name != n
    ensures r.Some? ==> r.value.name == n
    decreases |catalogue|
  {
    if catalogue == [] then None
    else if catalogue[0].name == n then Some(catalogue[0])
    else Lookup(catalogue[1..], n)
  }

  /** The descriptor `Lookup` finds is the first one with the name. */
  lemma {:induction false} LookupIsFirst(catalogue: seq<CatalogueEntry>, n: string)
    requires Lookup(catalogue, n).Some?
    ensures exists i :: (0 <= i < |catalogue| && catalogue[i] == Lookup(catalogue, n).value
      && forall j :: 0 <= j < i ==> catalogue[j].name != n)
    decreases |catalogue|
  {
    if catalogue[0].name != n {
      LookupIsFirst(catalogue[1..], n);
      var i :| 0 <= i < |catalogue[1..]| && catalogue[1..][i] == Lookup(catalogue[1..], n).value
        && forall j :: 0 <= j < i ==> catalogue[1..][j].name != n;
      assert catalogue[i + 1] == catalogue[1..][i];
      forall j | 0 <= j < i + 1
        ensures catalogue[j].name != n
      {
        if j > 0 {
          assert catalogue[j] == catalogue[1..][j - 1];
        }
      }
    } else {
      assert catalogue[0] == Lookup(catalogue, n).value;
    }
  }

  predicate InCatalogue(catalogue: seq<CatalogueEntry>, n: string) {
    Lookup(catalogue, n).Some?
  }

  function Prepend(done: seq<Component>, r: Result<seq<Component>, Fault>): Result<seq<Component>, Fault> {
    match r
    case Failure(f) => Failure(f)
    case Success(rest) => Success(done + rest)
  }

  lemma PrependTwice(a: seq<Component>, b: seq<Component>, r: Result<seq<Component>, Fault>)
    ensures Prepend(a, Prepend(b, r)) == Prepend(a + b, r)
  {
    if r.Success? {
      assert a + (b + r.value) == (a + b) + r.value;
    }
  }

  /**
   * The loop that sets `c.version = item.version` on every component: it
   * throws at the first component whose name the catalogue lacks.
   */
  function WithVersions(catalogue: seq<CatalogueEntry>, cs: seq<Component>): Result<seq<Component>, Fault>
    decreases |cs|
  {
    if cs == [] then Success([])
    else match Lookup(catalogue, cs[0].name)
      case None => Failure(NotInCatalogue(cs[0].name))
      case Some(e) => Prepend([cs[0].(version := e.version)], WithVersions(catalogue, cs[1..]))
  }

  /**
   * Versions attach exactly when every component is in the catalogue: each
   * then gets its own descriptor's version, in order; otherwise the fault
   * names the first component that is missing.
   */
  lemma {:induction false} WithVersionsEffect(catalogue: seq<CatalogueEntry>, cs: seq<Component>)
    ensures var r := WithVersions(catalogue, cs);
      && (r.Success? <==> forall k :: 0 <= k < |cs| ==> InCatalogue(catalogue, cs[k].name))
      && (r.Success? ==> |r.value| == |cs| && forall k :: 0 <= k < |cs| ==>
        r.value[k] == cs[k].(version := Lookup(catalogue, cs[k].name).value.version))
      && (r.Failure? ==> exists k :: (0 <= k < |cs| && !InCatalogue(catalogue, cs[k].name)
        && (forall j :: 0 <= j < k ==> InCatalogue(catalogue, cs[j].name))
        && r.error == NotInCatalogue(cs[k].name)))
    decreases |cs|
  {
    if cs != [] {
      var rest := cs[1..];
      WithVersionsEffect(catalogue, rest);
      assert forall k :: 1 <= k < |cs| ==> cs[k] == rest[k - 1];
      var r := WithVersions(catalogue, rest);
      if InCatalogue(catalogue, cs[0].name) && r.Failure? {
        var k :| 0 <= k < |rest| && !InCatalogue(catalogue, rest[k].name)
          && (forall j :: 0 <= j < k ==> InCatalogue(catalogue, rest[j].name))
          && r.error == NotInCatalogue(rest[k].name);
        assert cs[k + 1] == rest[k];
        forall j | 0 <= j < k + 1
          ensures InCatalogue(catalogue, cs[j].name)
        {
          if j > 0 {
            assert cs[j] == rest[j - 1];
          }
        }
      }
    }
  }

  // ---------------------------------------------------------------------------
  // Masked properties

  /** `propValue.mask` is truthy. */
  predicate Masked(schema: JsValue) {
    Truthy(Member(schema, "mask"))
  }

  /**
   * The inner loop of `encodeProperty` over a schema's properties: a masked
   * property `p` becomes `btoa(config[p])`; reading `mask` of a `null` or
   * `undefined` property schema throws, and so does `btoa` on a character
   * beyond Latin-1.
   */
  function EncodeConfig(name: string, config: map<string, JsValue>, props: seq<(string, JsValue)>): Result<map<string, JsValue>, Fault>
    decreases |props|
  {
    if props == [] then Success(config)
    else
      var prop, schema := props[0].0, props[0].1;
      if IsNullish(schema) then Failure(NullPropertySchema(name, prop))
      else if !Masked(schema) then EncodeConfig(name, config, props[1..])
      else match Base64.Btoa(ToString(Prop(config, prop)))
        case None => Failure(NotLatin1(name, prop))
        case Some(text) => EncodeConfig(name, config[prop := Str(text)], props[1..])
  }

  /** One component's encoding: look up its descriptor, then encode its config. */
  function EncodeComponent(catalogue: seq<CatalogueEntry>, c: Component): (r: Result<Component, Fault>)
    ensures r.Success? ==> r.value.name == c.name && r.value.version == c.version
    ensures !InCatalogue(catalogue, c.name) ==> r == Failure(NotInCatalogue(c.name))
    ensures InCatalogue(catalogue, c.name) && Lookup(catalogue, c.name).value.schema.None? ==> r == Failure(NoSchema(c.name))
    ensures InCatalogue(catalogue, c.name) && Lookup(catalogue, c.name).value.schema.Some? ==>
      var e := EncodeConfig(c.name, c.config, Lookup(catalogue, c.name).value.schema.value);
      (e.Failure? ==> r == Failure(e.error)) && (e.Success? ==> r == Success(c.(config := e.value)))
  {
    match Lookup(catalogue, c.name)
    case None => Failure(NotInCatalogue(c.name))
    case Some(e) =>
      match e.schema
      case None => Failure(NoSchema(c.name))
      case Some(props) =>
        match EncodeConfig(c.name, c.config, props)
        case Failure(f) => Failure(f)
        case Success(config) => Success(c.(config := config))
  }

  /** `encodeProperty` over the whole list. */
  function EncodeAll(catalogue: seq<CatalogueEntry>, cs: seq<Component>): Result<seq<Component>, Fault>
    decreases |cs|
  {
    if cs == [] then Success([])
    else match EncodeComponent(catalogue, cs[0])
      case Failure(f) => Failure(f)
      case Success(c) => Prepend([c], EncodeAll(catalogue, cs[1..]))
  }

  /** Component `k` is the first whose encoding fails, and fails with `f`. */
  predicate FirstFailing(catalogue: seq<CatalogueEntry>, cs: seq<Component>, k: int, f: Fault) {
    && 0 <= k < |cs|
    && (forall j :: 0 <= j < k ==> EncodeComponent(catalogue, cs[j]).Success?)
    && EncodeComponent(catalogue, cs[k]) == Failure(f)
  }

  /**
   * The whole list encodes exactly when every component does: then the
   * list's length and order are kept and each entry is its component
   * encoded; otherwise the fault is one component's fault.
   */
  lemma {:induction false} EncodeAllEffect(catalogue: seq<CatalogueEntry>, cs: seq<Component>)
    ensures var r := EncodeAll(catalogue, cs);
      && (r.Success? <==> forall k :: 0 <= k < |cs| ==> EncodeComponent(catalogue, cs[k]).Success?)
      && (r.Success? ==> |r.value| == |cs| && forall k :: 0 <= k < |cs| ==>
        EncodeComponent(catalogue, cs[k]) == Success(r.value[k]))
      && (r.Failure? ==> exists k :: FirstFailing(catalogue, cs, k, r.error))
    decreases |cs|
  {
    if cs != [] {
      var rest := cs[1..];
      EncodeAllEffect(catalogue, rest);
      assert forall k :: 1 <= k < |cs| ==> cs[k] == rest[k - 1];
      var r := EncodeAll(catalogue, rest);
      var c0 := EncodeComponent(catalogue, cs[0]);
      if c0.Failure? {
        assert FirstFailing(catalogue, cs, 0, c0.error);
      } else if r.Failure? {
        assert EncodeAll(catalogue, cs) == Failure(r.error);
        var k :| FirstFailing(catalogue, rest, k, r.error);
        assert FirstFailing(catalogue, cs, k + 1, r.error);
      }
    }
  }

  /**
   * `getComponents(values)`: the collected components with versions attached
   * and masked properties encoded.
   */
  function ComponentsOf(v: FormValues): Result<seq<Component>, Fault> {
    match WithVersions(v.catalogue, Collected(v))
    case Failure(f) => Failure(f)
    case Success(cs) => EncodeAll(v.catalogue, cs)
  }

  /**
   * A collected component missing from the catalogue makes the submission
   * fail on it; on success every collected component is there, in order,
   * with its descriptor's version.
   */
  lemma ComponentsOfEffect(v: FormValues)
    ensures (exists k :: 0 <= k < |Collected(v)| && !InCatalogue(v.catalogue, Collected(v)[k].name)) ==>
      ComponentsOf(v).Failure? && ComponentsOf(v).error.NotInCatalogue?
    ensures ComponentsOf(v).Success? ==> var r := ComponentsOf(v).value;
      |r| == |Collected(v)| && forall k :: 0 <= k < |r| ==>
        r[k].name == Collected(v)[k].name
        && InCatalogue(v.catalogue, r[k].name)
        && r[k].version == Lookup(v.catalogue, r[k].name).value.version
  {
    WithVersionsEffect(v.catalogue, Collected(v));
    var w := WithVersions(v.catalogue, Collected(v));
    if w.Success? {
      EncodeAllEffect(v.catalogue, w.value);
    }
  }

  // ---------------------------------------------------------------------------
  // Which entries yield components, and where

  lemma {:induction false} TabComponentsLength(name: string, items: seq<Entry>, ds: JsValue)
    ensures |TabComponents(name, items, ds)| == EnabledCount(items)
    decreases |items|
  {
    if items != [] {
      TabComponentsLength(name, items[..|items| - 1], ds);
    }
  }

  /** The storage components of one tab: exactly one per enabled entry, in entry order. */
  lemma {:induction false} TabComponentsAt(name: string, items: seq<Entry>, ds: JsValue, j: nat)
    requires j < |items| && Enabled(items[j])
    ensures EnabledCount(items[..j]) < |TabComponents(name, items, ds)|
    ensures TabComponents(name, items, ds)[EnabledCount(items[..j])] == Component(name, StorageConfig(items[j], ds), Undefined)
    decreases |items|
  {
    var init := items[..|items| - 1];
    TabComponentsLength(name, init, ds);
    if j == |items| - 1 {
      assert items[..j] == init;
    } else {
      assert init[..j] == items[..j];
      TabComponentsAt(name, init, ds, j);
    }
  }

  /** Every component of a tab comes from an enabled entry of that tab. */
  lemma {:induction false} TabComponentsFrom(name: string, items: seq<Entry>, ds: JsValue, k: nat)
    requires k < |TabComponents(name, items, ds)|
    ensures exists j :: (0 <= j < |items| && Enabled(items[j]) && EnabledCount(items[..j]) == k
      && TabComponents(name, items, ds)[k] == Component(name, StorageConfig(items[j], ds), Undefined))
    decreases |items|
  {
    var init := items[..|items| - 1];
    var last := |items| - 1;
    TabComponentsLength(name, init, ds);
    if k < |TabComponents(name, init, ds)| {
      TabComponentsFrom(name, init, ds, k);
      var j :| 0 <= j < |init| && Enabled(init[j]) && EnabledCount(init[..j]) == k
        && TabComponents(name, init, ds)[k] == Component(name, StorageConfig(init[j], ds), Undefined);
      assert init[..j] == items[..j];
      assert items[j] == init[j];
    } else {
      assert items[..last] == init;
      assert Enabled(items[last]);
    }
  }

  lemma {:induction false} StorageComponentsLength(tabs: seq<StorageTab>, ds: JsValue)
    ensures |StorageComponents(tabs, ds)| == StorageCount(tabs)
    decreases |tabs|
  {
    if tabs != [] {
      StorageComponentsLength(tabs[..|tabs| - 1], ds);
      TabComponentsLength(tabs[|tabs| - 1].name, tabs[|tabs| - 1].formData, ds);
    }
  }

  /**
   * Each enabled entry of each tab yields exactly one component, named after
   * its tab, at the position given by the enabled entries before it: tab
   * order and entry order are kept.
   */
  lemma {:induction false} StorageComponentsAt(tabs: seq<StorageTab>, ds: JsValue, t: nat, j: nat)
    requires t < |tabs| && j < |tabs[t].formData| && Enabled(tabs[t].formData[j])
    ensures StorageCount(tabs[..t]) + EnabledCount(tabs[t].formData[..j]) < |StorageComponents(tabs, ds)|
    ensures StorageComponents(tabs, ds)[StorageCount(tabs[..t]) + EnabledCount(tabs[t].formData[..j])]
      == Component(tabs[t].name, StorageConfig(tabs[t].formData[j], ds), Undefined)
    decreases |tabs|
  {
    var init := tabs[..|tabs| - 1];
    var before := StorageComponents(init, ds);
    var last := TabComponents(tabs[|tabs| - 1].name, tabs[|tabs| - 1].formData, ds);
    assert StorageComponents(tabs, ds) == before + last;
    StorageComponentsLength(init, ds);
    var e := EnabledCount(tabs[t].formData[..j]);
    if t == |tabs| - 1 {
      assert tabs[..t] == init;
      TabComponentsAt(tabs[t].name, tabs[t].formData, ds, j);
      assert (before + last)[|before| + e] == last[e];
    } else {
      assert init[..t] == tabs[..t];
      assert init[t] == tabs[t];
      StorageComponentsAt(init, ds, t, j);
      assert (before + last)[StorageCount(tabs[..t]) + e] == before[StorageCount(tabs[..t]) + e];
    }
  }

  /** `c` is the component some enabled entry of some tab yields. */
  predicate FromEnabledEntry(tabs: seq<StorageTab>, ds: JsValue, c: Component) {
    exists t, j :: (0 <= t < |tabs| && 0 <= j < |tabs[t].formData| && Enabled(tabs[t].formData[j])
      && c == Component(tabs[t].name, StorageConfig(tabs[t].formData[j], ds), Undefined))
  }

  /** A storage component exists only for an enabled entry, and carries that entry's tab name and config. */
  lemma {:induction false} StorageComponentsFrom(tabs: seq<StorageTab>, ds: JsValue, k: nat)
    requires k < |StorageComponents(tabs, ds)|
    ensures FromEnabledEntry(tabs, ds, StorageComponents(tabs, ds)[k])
    decreases |tabs|
  {
    var init := tabs[..|tabs| - 1];
    var t := |tabs| - 1;
    var before := StorageComponents(init, ds);
    var last := TabComponents(tabs[t].name, tabs[t].formData, ds);
    assert StorageComponents(tabs, ds) == before + last;
    if k < |before| {
      StorageComponentsFrom(init, ds, k);
      var t', j :| 0 <= t' < |init| && 0 <= j < |init[t'].formData| && Enabled(init[t'].formData[j])
        && before[k] == Component(init[t'].name, StorageConfig(init[t'].formData[j], ds), Undefined);
      assert tabs[t'] == init[t'];
      assert (before + last)[k] == before[k];
    } else {
      var k' := k - |before|;
      TabComponentsFrom(tabs[t].name, tabs[t].formData, ds, k');
      var j :| 0 <= j < |tabs[t].formData| && Enabled(tabs[t].formData[j]) && EnabledCount(tabs[t].formData[..j]) == k'
        && last[k'] == Component(tabs[t].name, StorageConfig(tabs[t].formData[j], ds), Undefined);
      assert (before + last)[k] == last[k'];
    }
  }

  lemma {:induction false} PluginComponentsLength(forms: seq<(string, JsValue)>)
    ensures |PluginComponents(forms)| == PluginCount(forms)
    decreases |forms|
  {
    if forms != [] {
      PluginComponentsLength(forms[..|forms| - 1]);
    }
  }

  /** An enabled plugin yields exactly one component, named by its key, in key order. */
  lemma {:induction false} PluginComponentsAt(forms: seq<(string, JsValue)>, k: nat)
    requires k < |forms| && PluginEnabled(forms[k].1)
    ensures PluginCount(forms[..k]) < |PluginComponents(forms)|
    ensures PluginComponents(forms)[PluginCount(forms[..k])] == Component(forms[k].0, PluginConfig(forms[k].1), Undefined)
    decreases |forms|
  {
    var init := forms[..|forms| - 1];
    PluginComponentsLength(init);
    if k == |forms| - 1 {
      assert forms[..k] == init;
    } else {
      assert init[..k] == forms[..k];
      PluginComponentsAt(init, k);
    }
  }

  /** A plugin component exists only for an enabled plugin form. */
  lemma {:induction false} PluginComponentsFrom(forms: seq<(string, JsValue)>, k: nat)
    requires k < |PluginComponents(forms)|
    ensures exists i :: (0 <= i < |forms| && PluginEnabled(forms[i].1) && PluginCount(forms[..i]) == k
      && PluginComponents(forms)[k] == Component(forms[i].0, PluginConfig(forms[i].1), Undefined))
    decreases |forms|
  {
    var init := forms[..|forms| - 1];
    var last := |forms| - 1;
    PluginComponentsLength(init);
    if k < |PluginComponents(init)| {
      PluginComponentsFrom(init, k);
      var i :| 0 <= i < |init| && PluginEnabled(init[i].1) && PluginCount(init[..i]) == k
        && PluginComponents(init)[k] == Component(init[i].0, PluginConfig(init[i].1), Undefined);
      assert init[..i] == forms[..i];
      assert forms[i] == init[i];
    } else {
      assert forms[..last] == init;
    }
  }

  // ---------------------------------------------------------------------------
  // What encoding does to a config

  /** Property names are unique, as in any object's `Object.entries`. */
  predicate DistinctKeys(props: seq<(string, JsValue)>) {
    forall i, j :: 0 <= i < j < |props| ==> props[i].0 != props[j].0
  }

  /** A property whose schema is not nullish and whose value, if masked, is Latin-1. */
  predicate PropEncodable(config: map<string, JsValue>, prop: string, schema: JsValue) {
    !IsNullish(schema) && (Masked(schema) ==> Base64.IsLatin1(ToString(Prop(config, prop))))
  }

  /** No property schema is nullish, and every masked value converts to a Latin-1 string. */
  predicate Encodable(config: map<string, JsValue>, props: seq<(string, JsValue)>) {
    forall i :: 0 <= i < |props| ==> PropEncodable(config, props[i].0, props[i].1)
  }

  predicate IsMaskedKey(props: seq<(string, JsValue)>, k: string) {
    exists i :: 0 <= i < |props| && props[i].0 == k && Masked(props[i].1)
  }

  /** `btoa` of what a config holds at `k` (the text "undefined" when it holds nothing). */
  function MaskOf(config: map<string, JsValue>, k: string): JsValue
    requires Base64.IsLatin1(ToString(Prop(config, k)))
  {
    Str(Base64.Btoa(ToString(Prop(config, k))).value)
  }

  /** What the config holds after the first property of the list has been handled. */
  function EncodeStep(config: map<string, JsValue>, prop: string, schema: JsValue): map<string, JsValue> {
    if Masked(schema) && Base64.IsLatin1(ToString(Prop(config, prop))) then config[prop := MaskOf(config, prop)]
    else config
  }

  /** Handling one property leaves the values of the other properties as they were. */
  lemma EncodeStepElsewhere(config: map<string, JsValue>, props: seq<(string, JsValue)>)
    requires props != [] && DistinctKeys(props)
    ensures forall i :: 1 <= i < |props| ==>
      Prop(EncodeStep(config, props[0].0, props[0].1), props[i].0) == Prop(config, props[i].0)
  {
  }

  /** An encodable first property is handled by `EncodeStep`, and the loop goes on with the rest. */
  lemma EncodeConfigUnfold(name: string, config: map<string, JsValue>, props: seq<(string, JsValue)>)
    requires props != [] && PropEncodable(config, props[0].0, props[0].1)
    ensures EncodeConfig(name, config, props) == EncodeConfig(name, EncodeStep(config, props[0].0, props[0].1), props[1..])
  {
  }

  /** A list is encodable when its first property is and the rest of it is. */
  lemma EncodableUnfold(config: map<string, JsValue>, props: seq<(string, JsValue)>)
    requires props != []
    ensures Encodable(config, props) <==> PropEncodable(config, props[0].0, props[0].1) && Encodable(config, props[1..])
  {
    assert forall i :: 1 <= i < |props| ==> props[1..][i - 1] == props[i];
  }

  /** Encoding a config succeeds exactly when no property schema is nullish and every masked value is Latin-1. */
  lemma {:induction false} EncodeConfigSucceeds(name: string, config: map<string, JsValue>, props: seq<(string, JsValue)>)
    requires DistinctKeys(props)
    ensures EncodeConfig(name, config, props).Success? <==> Encodable(config, props)
    decreases |props|
  {
    if props != [] {
      var prop, schema := props[0].0, props[0].1;
      var rest := props[1..];
      var next := EncodeStep(config, prop, schema);
      assert DistinctKeys(rest);
      EncodeStepElsewhere(config, props);
      assert forall i :: 0 <= i < |rest| ==> rest[i] == props[i + 1];
      EncodeConfigSucceeds(name, next, rest);
      assert Encodable(next, rest) == Encodable(config, rest);
      EncodableUnfold(config, props);
      if PropEncodable(config, prop, schema) {
        EncodeConfigUnfold(name, config, props);
      }
    }
  }

  /** After a successful encoding, every masked property holds the base64 of its previous value (present or not). */
  lemma {:induction false} EncodeConfigMasks(name: string, config: map<string, JsValue>, props: seq<(string, JsValue)>, i: nat)
    requires DistinctKeys(props) && EncodeConfig(name, config, props).Success?
    requires i < |props| && Masked(props[i].1)
    ensures Base64.IsLatin1(ToString(Prop(config, props[i].0)))
    ensures props[i].0 in EncodeConfig(name, config, props).value
    ensures EncodeConfig(name, config, props).value[props[i].0] == MaskOf(config, props[i].0)
    decreases |props|
  {
    var prop, schema := props[0].0, props[0].1;
    var rest := props[1..];
    var next := EncodeStep(config, prop, schema);
    assert EncodeConfig(name, config, props) == EncodeConfig(name, next, rest);
    assert DistinctKeys(rest);
    if i == 0 {
      EncodeConfigKeeps(name, next, rest, prop);
    } else {
      assert rest[i - 1] == props[i];
      EncodeStepElsewhere(config, props);
      EncodeConfigMasks(name, next, rest, i - 1);
    }
  }

  /** A successful encoding adds no key but masked ones and does not touch any key that is not masked. */
  lemma {:induction false} EncodeConfigKeeps(name: string, config: map<string, JsValue>, props: seq<(string, JsValue)>, k: string)
    requires DistinctKeys(props) && EncodeConfig(name, config, props).Success?
    requires !IsMaskedKey(props, k)
    ensures k in EncodeConfig(name, config, props).value <==> k in config
    ensures k in config ==> EncodeConfig(name, config, props).value[k] == config[k]
    decreases |props|
  {
    if props != [] {
      var prop, schema := props[0].0, props[0].1;
      var rest := props[1..];
      var next := EncodeStep(config, prop, schema);
      assert EncodeConfig(name, config, props) == EncodeConfig(name, next, rest);
      assert DistinctKeys(rest);
      EncodeConfigKeeps(name, next, rest, k);
      if k == prop {
        assert !Masked(schema);
      }
    }
  }

  /** The fault a property that cannot be encoded raises: reading `mask` of a nullish schema, or `btoa` beyond Latin-1. */
  function PropFault(name: string, prop: string, schema: JsValue): Fault {
    if IsNullish(schema) then NullPropertySchema(name, prop) else NotLatin1(name, prop)
  }

  /** Property `i` is the first one that cannot be encoded, and `f` is the fault it raises. */
  predicate FirstFault(name: string, config: map<string, JsValue>, props: seq<(string, JsValue)>, i: int, f: Fault) {
    && 0 <= i < |props|
    && (forall j :: 0 <= j < i ==> PropEncodable(config, props[j].0, props[j].1))
    && !PropEncodable(config, props[i].0, props[i].1)
    && f == PropFault(name, props[i].0, props[i].1)
  }

  /** A first property that cannot be encoded ends the encoding with its own fault. */
  lemma EncodeConfigHeadFault(name: string, config: map<string, JsValue>, props: seq<(string, JsValue)>)
    requires props != [] && !PropEncodable(config, props[0].0, props[0].1)
    ensures EncodeConfig(name, config, props) == Failure(PropFault(name, props[0].0, props[0].1))
  {
  }

  /** The first fault after an encodable first property is the first fault of the rest, one place later. */
  lemma FirstFaultShift(name: string, config: map<string, JsValue>, props: seq<(string, JsValue)>, i: int, f: Fault)
    requires props != [] && DistinctKeys(props) && PropEncodable(config, props[0].0, props[0].1)
    requires FirstFault(name, EncodeStep(config, props[0].0, props[0].1), props[1..], i, f)
    ensures FirstFault(name, config, props, i + 1, f)
  {
    EncodeStepElsewhere(config, props);
    assert forall j :: 0 <= j < |props| - 1 ==> props[1..][j] == props[j + 1];
  }

  /** A failed encoding reports the first property that cannot be encoded, with the fault that property raises. */
  lemma {:induction false} EncodeConfigFault(name: string, config: map<string, JsValue>, props: seq<(string, JsValue)>)
    requires DistinctKeys(props) && EncodeConfig(name, config, props).Failure?
    ensures exists i :: FirstFault(name, config, props, i, EncodeConfig(name, config, props).error)
    decreases |props|
  {
    var prop, schema := props[0].0, props[0].1;
    if !PropEncodable(config, prop, schema) {
      EncodeConfigHeadFault(name, config, props);
      assert FirstFault(name, config, props, 0, EncodeConfig(name, config, props).error);
    } else {
      var next := EncodeStep(config, prop, schema);
      EncodeConfigUnfold(name, config, props);
      assert DistinctKeys(props[1..]);
      EncodeConfigFault(name, next, props[1..]);
      var f := EncodeConfig(name, config, props).error;
      var i :| FirstFault(name, next, props[1..], i, f);
      FirstFaultShift(name, config, props, i, f);
    }
  }

  /**
   * Encoding a config succeeds exactly when it is encodable; then each masked
   * property holds the base64 of its previous value (present or not), and
   * every other property is untouched.
   */
  lemma EncodeConfigEffect(name: string, config: map<string, JsValue>, props: seq<(string, JsValue)>)
    requires DistinctKeys(props)
    ensures EncodeConfig(name, config, props).Success? <==> Encodable(config, props)
    ensures EncodeConfig(name, config, props).Success? ==>
      var c := EncodeConfig(name, config, props).value;
      && (forall i :: 0 <= i < |props| && Masked(props[i].1) ==> props[i].0 in c && c[props[i].0] == MaskOf(config, props[i].0))
      && (forall k :: k in config && !IsMaskedKey(props, k) ==> k in c && c[k] == config[k])
      && (forall k :: k in c ==> k in config || IsMaskedKey(props, k))
  {
    EncodeConfigSucceeds(name, config, props);
    if EncodeConfig(name, config, props).Success? {
      var c := EncodeConfig(name, config, props).value;
      forall i | 0 <= i < |props| && Masked(props[i].1)
        ensures props[i].0 in c && c[props[i].0] == MaskOf(config, props[i].0)
      {
        EncodeConfigMasks(name, config, props, i);
      }
      forall k | !IsMaskedKey(props, k)
        ensures (k in c <==> k in config) && (k in config ==> c[k] == config[k])
      {
        EncodeConfigKeeps(name, config, props, k);
      }
    }
  }

  // ---------------------------------------------------------------------------
  // The operations as the source runs them

  /**
   * `encodeProperty(components, enabledComponents)`: for each component, look
   * up its descriptor and overwrite each masked property of its config with
   * the property's base64 encoding.
   */
  method EncodeProperty(catalogue: seq<CatalogueEntry>, enabled: seq<Component>) returns (r: Result<seq<Component>, Fault>)
    ensures r == EncodeAll(catalogue, enabled)
  {
    var list := enabled;
    var i := 0;
    assert Prepend([], EncodeAll(catalogue, enabled)) == EncodeAll(catalogue, enabled) by {
      assert forall rest: seq<Component> :: [] + rest == rest;
    }
    while i < |list|
      invariant 0 <= i <= |list| == |enabled|
      invariant list[i..] == enabled[i..]
      invariant EncodeAll(catalogue, enabled) == Prepend(list[..i], EncodeAll(catalogue, enabled[i..]))
    {
      var c := list[i];
      assert enabled[i..][0] == c && enabled[i..][1..] == enabled[i + 1..];
      var item := Lookup(catalogue, c.name);
      if item.None? {
        return Failure(NotInCatalogue(c.name));
      }
      if item.value.schema.None? {
        return Failure(NoSchema(c.name));
      }
      var props := item.value.schema.value;
      var config := c.config;
      var j := 0;
      while j < |props|
        invariant 0 <= j <= |props|
        invariant EncodeConfig(c.name, c.config, props) == EncodeConfig(c.name, config, props[j..])
      {
        var prop, schema := props[j].0, props[j].1;
        assert props[j..][0] == props[j] && props[j..][1..] == props[j + 1..];
        if IsNullish(schema) {
          return Failure(NullPropertySchema(c.name, prop));
        }
        if Masked(schema) {
          var text := Base64.Btoa(ToString(Prop(config, prop)));
          if text.None? {
            return Failure(NotLatin1(c.name, prop));
          }
          config := config[prop := Str(text.value)];
        }
        j := j + 1;
      }
      var done := c.(config := config);
      assert EncodeComponent(catalogue, c) == Success(done);
      assert EncodeAll(catalogue, enabled[i..]) == Prepend([done], EncodeAll(catalogue, enabled[i + 1..]));
      PrependTwice(list[..i], [done], EncodeAll(catalogue, enabled[i + 1..]));
      list := list[i := done];
      i := i + 1;
      assert list[..i] == list[..i - 1] + [done];
    }
    assert list[..i] == list && enabled[i..] == [];
    assert list + [] == list;
    return Success(list);
  }

  /** The loop of `getComponents` that filters the falsy elements out of an enabled entry's list parameters. */
  method CleanStorageConfig(item: Entry, ds: JsValue) returns (config: map<string, JsValue>)
    ensures config == StorageConfig(item, ds)
  {
    config := BaseConfig(item, ds);
    var p := 0;
    while p < |CheckParams|
      invariant 0 <= p <= |CheckParams|
      invariant CleanParams(config, item, CheckParams[p..]) == StorageConfig(item, ds)
    {
      var key := CheckParams[p];
      assert CheckParams[p..][0] == key && CheckParams[p..][1..] == CheckParams[p + 1..];
      if HasLength(Prop(item, key)) {
        config := config[key := FilterBoolean(Prop(item, key))];
      }
      p := p + 1;
    }
  }

  /** The inner push loop of `getComponents`: one component per enabled entry of a storage tab. */
  method CollectTab(name: string, items: seq<Entry>, ds: JsValue) returns (cs: seq<Component>)
    ensures cs == TabComponents(name, items, ds)
  {
    cs := [];
    var j := 0;
    while j < |items|
      invariant 0 <= j <= |items|
      invariant cs == TabComponents(name, items[..j], ds)
    {
      var item := items[j];
      if Enabled(item) {
        var config := CleanStorageConfig(item, ds);
        cs := cs + [Component(name, config, Undefined)];
      }
      assert items[..j + 1][..j] == items[..j];
      j := j + 1;
    }
    assert items[..j] == items;
  }

  /** The outer push loop of `getComponents`, over the storage tabs. */
  method CollectStorage(tabs: seq<StorageTab>, ds: JsValue) returns (cs: seq<Component>)
    ensures cs == StorageComponents(tabs, ds)
  {
    cs := [];
    var t := 0;
    while t < |tabs|
      invariant 0 <= t <= |tabs|
      invariant cs == StorageComponents(tabs[..t], ds)
    {
      var tab := tabs[t];
      var more := CollectTab(tab.name, tab.formData, ds);
      cs := cs + more;
      assert tabs[..t + 1][..t] == tabs[..t];
      t := t + 1;
    }
    assert tabs[..t] == tabs;
  }

  /** The push loop of `getComponents` over the plugin forms. */
  method CollectPlugins(forms: seq<(string, JsValue)>) returns (cs: seq<Component>)
    ensures cs == PluginComponents(forms)
  {
    cs := [];
    var f := 0;
    while f < |forms|
      invariant 0 <= f <= |forms|
      invariant cs == PluginComponents(forms[..f])
    {
      var name, value := forms[f].0, forms[f].1;
      if PluginEnabled(value) {
        cs := cs + [Component(name, PluginConfig(value), Undefined)];
      }
      assert forms[..f + 1][..f] == forms[..f];
      f := f + 1;
    }
    assert forms[..f] == forms;
  }

  /** The push loops of `getComponents`: the enabled storage entries, tab by tab, then the enabled plugin forms. */
  method CollectEnabled(v: FormValues) returns (enabled: seq<Component>)
    ensures enabled == Collected(v)
  {
    var storage := CollectStorage(v.storageTabs, DefaultStorageOf(v));
    var plugins := CollectPlugins(v.pluginForms);
    enabled := storage + plugins;
  }

  /** The loop of `getComponents` that copies each descriptor's version onto its component. */
  method AttachVersions(catalogue: seq<CatalogueEntry>, collected: seq<Component>) returns (r: Result<seq<Component>, Fault>)
    ensures r == WithVersions(catalogue, collected)
  {
    var enabled := collected;
    var i := 0;
    assert Prepend([], WithVersions(catalogue, collected)) == WithVersions(catalogue, collected) by {
      assert forall rest: seq<Component> :: [] + rest == rest;
    }
    while i < |enabled|
      invariant 0 <= i <= |enabled| == |collected|
      invariant enabled[i..] == collected[i..]
      invariant WithVersions(catalogue, collected) == Prepend(enabled[..i], WithVersions(catalogue, collected[i..]))
    {
      var c := enabled[i];
      assert collected[i..][0] == c && collected[i..][1..] == collected[i + 1..];
      var item := Lookup(catalogue, c.name);
      if item.None? {
        return Failure(NotInCatalogue(c.name));
      }
      var done := c.(version := item.value.version);
      assert WithVersions(catalogue, collected[i..]) == Prepend([done], WithVersions(catalogue, collected[i + 1..]));
      PrependTwice(enabled[..i], [done], WithVersions(catalogue, collected[i + 1..]));
      enabled := enabled[i := done];
      i := i + 1;
      assert enabled[..i] == enabled[..i - 1] + [done];
    }
    assert enabled[..i] == enabled && collected[i..] == [];
    assert enabled + [] == enabled;
    return Success(enabled);
  }

  /**
   * `getComponents(values)`: the enabled components, each with its
   * descriptor's version, then with their masked properties encoded.
   */
  method GetComponents(v: FormValues) returns (r: Result<seq<Component>, Fault>)
    ensures r == ComponentsOf(v)
  {
    var enabled := CollectEnabled(v);
    var versioned := AttachVersions(v.catalogue, enabled);
    if versioned.Failure? {
      return Failure(versioned.error);
    }
    r := EncodeProperty(v.catalogue, versioned.value);
  }
}
