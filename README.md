# KubeClipper console: template wizard payload and `SelectWithInput`

This project is a Dafny model of two pieces of the KubeClipper web console, with proofs about each.

1. **The cluster-template wizard's submission**
   (`src/pages/cluster/containers/Template/cluster/actions/Create/index.jsx`):
   - `getComponents` collects the enabled storage entries, tab by tab, and then the enabled plugin forms.
     - A storage entry's config is the entry without `enable`, tagged with `isDefaultSC`.
     - In a non-empty `mountOptions` or `monitors` list, the falsy elements are dropped.
     - Each component gets the version of its catalogue descriptor.
   - `encodeProperty` base64-encodes every config property that the component's schema marks `mask`. It uses `window.btoa`: base64 as in section 4 of RFC 4648, on Latin-1 text only.
   - `getRegistry` flattens an array-input field one level.
   - `onSubmit` assembles the nested cluster config from the flat form values:
     - dual-stack subnets are joined with a comma;
     - the offline switch picks between the offline and online versions;
     - the runtime section is either `docker` or `containerd`.
   - `onSubmit` then decides between two requests:
     - a truthy route id patches the template's original record, after overwriting its annotations and config in place;
     - otherwise it creates a new template with fixed plugin parameters.
2. **The `SelectWithInput` form control** (`src/components/FormItem/SelectWithInput/index.jsx`): a searchable select that also accepts free text.
   - Its state is `{ value, inputVal }`.
   - The `value` prop overrides `value`.
   - Typing non-empty text buffers it in `inputVal`.
   - Leaving the box commits the buffered text the way a pick would. A pick sets the value, clears the buffer, and notifies the form ref and the `onChange` prop.

## How the model is built

The model is split into these modules.

- `Js` (`js.dfy`): JavaScript values and the operations the source relies on. These are truthiness, `===`, `ToString` and lodash `get`/`set`/`flatten`/`filter`. Objects are maps, and arrays are sequences.
- `Base64` (`base64.dfy`): `window.btoa`, spelled out. It has a decoder, a proof that decoding inverts encoding, and four concrete encodings the wizard's masking produces, covering full groups and both paddings:
  - `"secret"`;
  - `"undefined"`, which is what a masked property that was never filled gets;
  - `"null"` and `"false"`, for a masked property holding `null` or `false`.
- `TemplateData` (`template_data.dfy`) describes the wizard's inputs:
  - the form values;
  - the storage tabs;
  - the plugin forms, in their key order;
  - the component catalogue;
  - the faults the unguarded lookups and `btoa` throw.
- `TemplateComponents` (`template_components.dfy`) models `getComponents` and `encodeProperty`.
  - They are methods with the source's loops.
  - Each method is proved equal to a recursive specification function.
  - The order, membership and encoding properties are proved as lemmas about those functions.
- `TemplateCreate` (`template_create.dfy`) models `onSubmit`.
  - The config is a record, `ClusterConfig`, with a conversion `ConfigJs` to the JSON object the store receives.
  - The request is a value: `Create(params, config)` or `Patch(id, body)`.
  - The class `CreateAction` holds the template's original record and changes it in place the way the patch branch does.
- `SelectWithInput` (`select_with_input.dfy`) models the control in two forms.
  - Pure transitions return the new state and the callbacks fired.
  - The class `Index` keeps the state in fields and logs the callbacks. Each of its methods is proved to follow the matching transition.

Lookups the source does not guard become explicit `Failure` results: a component missing from the catalogue, a descriptor without a schema, a `null` property schema, or `btoa` of a non-Latin-1 value. In the source these throw a `TypeError` or an `InvalidCharacterError` and the submission stops. The preconditions are not assumed. Which fault comes back is proved as follows:
- when a collected component is missing from the catalogue, the fault names the first such component (`WithVersionsEffect`);
- otherwise the first component whose encoding fails decides (`EncodeAllEffect`);
- for that component, the fault is `NoSchema` when its descriptor has no schema (`EncodeComponent`);
- otherwise the fault is raised by the first property that cannot be encoded: `NullPropertySchema` for a nullish schema, `NotLatin1` for a masked value beyond Latin-1 (`EncodeConfigFault`).

## Model

| member | source | states |
|---|---|---|
| TemplateComponents.CleanParamsEffect | src/pages/cluster/containers/Template/cluster/actions/Create/index.jsx:148-153 | the clean-up adds exactly the listed parameters with a non-empty value, each as its truthy elements, and leaves every other key's value alone |
| TemplateComponents.StorageConfigKeys | src/pages/cluster/containers/Template/cluster/actions/Create/index.jsx:141-153 | a storage component's config keys are the entry's keys without `enable`, plus `isDefaultSC` |
| TemplateComponents.StorageConfigValues | src/pages/cluster/containers/Template/cluster/actions/Create/index.jsx:141-153 | `isDefaultSC` is true exactly when `scName === defaultStorage`; `mountOptions`/`monitors` keep their truthy elements when non-empty and are copied otherwise; every other field is the entry's own |
| TemplateComponents.CleanStorageConfig | src/pages/cluster/containers/Template/cluster/actions/Create/index.jsx:141-153 | the config loop yields the specified storage config |
| TemplateComponents.TabComponentsLength | src/pages/cluster/containers/Template/cluster/actions/Create/index.jsx:139-157 | a tab yields one component per enabled entry |
| TemplateComponents.TabComponentsAt | src/pages/cluster/containers/Template/cluster/actions/Create/index.jsx:139-157 | an enabled entry's component, named after the tab and carrying the entry's config, sits at the index given by the enabled entries before it |
| TemplateComponents.TabComponentsFrom | src/pages/cluster/containers/Template/cluster/actions/Create/index.jsx:139-157 | every component of a tab comes from an enabled entry of that tab, in entry order |
| TemplateComponents.StorageComponentsLength | src/pages/cluster/containers/Template/cluster/actions/Create/index.jsx:138-158 | the storage components number the enabled entries of all tabs |
| TemplateComponents.StorageComponentsAt | src/pages/cluster/containers/Template/cluster/actions/Create/index.jsx:138-158 | each enabled entry of each tab yields exactly one component at the position fixed by tab order, then entry order |
| TemplateComponents.StorageComponentsFrom | src/pages/cluster/containers/Template/cluster/actions/Create/index.jsx:138-158 | a storage component exists only for an enabled entry and is named after that entry's tab |
| TemplateComponents.PluginConfig | src/pages/cluster/containers/Template/cluster/actions/Create/index.jsx:164 | an enabled plugin's config is its `formData` without `enable` |
| TemplateComponents.PluginComponentsLength | src/pages/cluster/containers/Template/cluster/actions/Create/index.jsx:160-167 | one plugin component per enabled form |
| TemplateComponents.PluginComponentsAt | src/pages/cluster/containers/Template/cluster/actions/Create/index.jsx:160-167 | an enabled form's component, with its key as name, sits at the index given by the enabled forms before it |
| TemplateComponents.PluginComponentsFrom | src/pages/cluster/containers/Template/cluster/actions/Create/index.jsx:160-167 | a plugin component exists only for a form whose `formData.enable` is truthy |
| TemplateComponents.CollectTab | src/pages/cluster/containers/Template/cluster/actions/Create/index.jsx:139-157 | the inner push loop yields the tab's specified components |
| TemplateComponents.CollectStorage | src/pages/cluster/containers/Template/cluster/actions/Create/index.jsx:138-158 | the outer push loop yields the storage components, tab by tab |
| TemplateComponents.CollectPlugins | src/pages/cluster/containers/Template/cluster/actions/Create/index.jsx:160-167 | the plugin loop yields the plugin components in key order |
| TemplateComponents.CollectEnabled | src/pages/cluster/containers/Template/cluster/actions/Create/index.jsx:137-167 | the collected list is all storage components followed by all plugin components |
| TemplateComponents.Lookup | src/pages/cluster/containers/Template/cluster/actions/Create/index.jsx:170 | `find` by name gives nothing exactly when no descriptor has the name, and otherwise a descriptor with that name |
| TemplateComponents.LookupIsFirst | src/pages/cluster/containers/Template/cluster/actions/Create/index.jsx:170 | the descriptor found is the first one with the name |
| TemplateComponents.WithVersionsEffect | src/pages/cluster/containers/Template/cluster/actions/Create/index.jsx:169-172 | versions attach exactly when every component is in the catalogue, each from its own descriptor, in order; otherwise the fault names the first missing component |
| TemplateComponents.AttachVersions | src/pages/cluster/containers/Template/cluster/actions/Create/index.jsx:169-172 | the version loop computes the specified result, stopping at the first missing component |
| TemplateComponents.EncodeComponent | src/pages/cluster/containers/Template/cluster/actions/Create/index.jsx:115-127 | encoding keeps a component's name and version; it fails with `NotInCatalogue` on a component missing from the catalogue, with `NoSchema` on a descriptor without a schema, and otherwise with the fault of its config's encoding |
| TemplateComponents.EncodeConfigSucceeds | src/pages/cluster/containers/Template/cluster/actions/Create/index.jsx:118-126 | a config encodes exactly when no property schema is nullish and every masked value is Latin-1 |
| TemplateComponents.EncodeConfigMasks | src/pages/cluster/containers/Template/cluster/actions/Create/index.jsx:122-126 | after encoding, every masked property holds the base64 of its previous value, absent values included |
| TemplateComponents.EncodeConfigKeeps | src/pages/cluster/containers/Template/cluster/actions/Create/index.jsx:122-126 | encoding adds no key but masked ones and leaves every unmasked key's value as it was |
| TemplateComponents.EncodeConfigEffect | src/pages/cluster/containers/Template/cluster/actions/Create/index.jsx:122-126 | encoding succeeds iff the config is encodable, and then masked properties are encoded and all others are unchanged |
| TemplateComponents.EncodeAllEffect | src/pages/cluster/containers/Template/cluster/actions/Create/index.jsx:114-129 | the list encodes exactly when every component does; the length and order are kept; a fault is the fault of the first component that fails |
| TemplateComponents.EncodeProperty | src/pages/cluster/containers/Template/cluster/actions/Create/index.jsx:114-129 | the nested loops of `encodeProperty` compute the specified encoding of the whole list |
| TemplateComponents.ComponentsOfEffect | src/pages/cluster/containers/Template/cluster/actions/Create/index.jsx:131-175 | a collected component missing from the catalogue makes `getComponents` fail; on success every collected component is there, in order, with its descriptor's version |
| TemplateComponents.BaseConfig | src/pages/cluster/containers/Template/cluster/actions/Create/index.jsx:141-146 | defines `assign(omit(item, 'enable'), { isDefaultSC: item.scName === defaultStorage })`; its properties are those of `StorageConfigKeys` and `StorageConfigValues` |
| TemplateComponents.CleanParams | src/pages/cluster/containers/Template/cluster/actions/Create/index.jsx:148-153 | defines the clean-up loop over `checkparams`; its properties are those of `CleanParamsEffect` |
| TemplateComponents.StorageConfig | src/pages/cluster/containers/Template/cluster/actions/Create/index.jsx:141-153 | defines an enabled storage entry's config; its properties are those of `StorageConfigKeys` and `StorageConfigValues` |
| TemplateComponents.Collected | src/pages/cluster/containers/Template/cluster/actions/Create/index.jsx:137-167 | defines the collected list: the storage components, then the plugin components; `CollectEnabled` computes it |
| TemplateData.DefaultStorageOf | src/pages/cluster/containers/Template/cluster/actions/Create/index.jsx:135 | defines the `defaultStorage = ''` default, applied only when the value is `undefined`; its properties are those of `DefaultStorageMarks` |
| TemplateComponents.DefaultStorageMarks | src/pages/cluster/containers/Template/cluster/actions/Create/index.jsx:135-145 | without a `defaultStorage` an entry is marked `isDefaultSC` exactly when its `scName` is `""`; a given primitive, even `null`, is compared as it is |
| TemplateComponents.Enabled | src/pages/cluster/containers/Template/cluster/actions/Create/index.jsx:140 | defines the `item.enable` test; `TabComponentsLength`, `TabComponentsAt` and `TabComponentsFrom` state that exactly the entries passing it yield components |
| TemplateComponents.EntryComponents | src/pages/cluster/containers/Template/cluster/actions/Create/index.jsx:140-156 | defines what one storage entry pushes: one component when enabled, none otherwise; its properties are those of `TabComponentsAt` and `TabComponentsFrom` |
| TemplateComponents.TabComponents | src/pages/cluster/containers/Template/cluster/actions/Create/index.jsx:139-157 | defines the components of one tab, in entry order; its properties are those of `TabComponentsLength`, `TabComponentsAt` and `TabComponentsFrom`, and `CollectTab` computes it |
| TemplateComponents.StorageComponents | src/pages/cluster/containers/Template/cluster/actions/Create/index.jsx:138-158 | defines the storage components, tab by tab; its properties are those of `StorageComponentsLength`, `StorageComponentsAt` and `StorageComponentsFrom`, and `CollectStorage` computes it |
| TemplateComponents.PluginEnabled | src/pages/cluster/containers/Template/cluster/actions/Create/index.jsx:161-163 | defines the `get(value, 'formData.enable')` test; `PluginComponentsLength`, `PluginComponentsAt` and `PluginComponentsFrom` state that exactly the forms passing it yield components |
| TemplateComponents.PluginEntryComponents | src/pages/cluster/containers/Template/cluster/actions/Create/index.jsx:160-166 | defines what one plugin form pushes: one component named by its key when enabled, none otherwise; its properties are those of `PluginComponentsAt` and `PluginComponentsFrom` |
| TemplateComponents.PluginComponents | src/pages/cluster/containers/Template/cluster/actions/Create/index.jsx:160-167 | defines the plugin components in key order; its properties are those of `PluginComponentsLength`, `PluginComponentsAt` and `PluginComponentsFrom`, and `CollectPlugins` computes it |
| TemplateComponents.Masked | src/pages/cluster/containers/Template/cluster/actions/Create/index.jsx:123 | defines the `propValue.mask` test; `EncodeConfigMasks`, `EncodeConfigKeeps` and `EncodeConfigSucceeds` state that exactly the properties passing it are encoded |
| TemplateComponents.WithVersions | src/pages/cluster/containers/Template/cluster/actions/Create/index.jsx:169-172 | defines the version loop, failing at the first component missing from the catalogue; its properties are those of `WithVersionsEffect` |
| TemplateComponents.EncodeConfig | src/pages/cluster/containers/Template/cluster/actions/Create/index.jsx:122-126 | defines the property loop of one component; its properties are those of `EncodeConfigEffect` and `EncodeConfigFault` |
| TemplateComponents.EncodeConfigFault | src/pages/cluster/containers/Template/cluster/actions/Create/index.jsx:122-126 | a failed encoding reports the first property that cannot be encoded: `NullPropertySchema` for a nullish schema, `NotLatin1` for a masked value beyond Latin-1 |
| TemplateComponents.EncodeAll | src/pages/cluster/containers/Template/cluster/actions/Create/index.jsx:114-129 | defines `encodeProperty` over the list; its properties are those of `EncodeAllEffect` |
| TemplateComponents.ComponentsOf | src/pages/cluster/containers/Template/cluster/actions/Create/index.jsx:131-175 | defines `getComponents`: versions attached, then masked properties encoded; its properties are those of `ComponentsOfEffect` |
| TemplateComponents.GetComponents | src/pages/cluster/containers/Template/cluster/actions/Create/index.jsx:131-175 | `getComponents` computes the specified components |
| Base64.Encode | src/pages/cluster/containers/Template/cluster/actions/Create/index.jsx:120 | the encoding has 4 characters per started 3-byte group, each from the base64 alphabet or the `=` pad |
| Base64.DecodeEncode | src/pages/cluster/containers/Template/cluster/actions/Create/index.jsx:120 | decoding inverts encoding |
| Base64.EncodeInjective | src/pages/cluster/containers/Template/cluster/actions/Create/index.jsx:120 | distinct byte strings have distinct encodings |
| Base64.Btoa | src/pages/cluster/containers/Template/cluster/actions/Create/index.jsx:120 | `btoa` succeeds exactly on Latin-1 text; its output decodes back to the text's bytes |
| Base64.BtoaSecret | src/pages/cluster/containers/Template/cluster/actions/Create/index.jsx:124 | a masked value `"secret"` is sent as `"c2VjcmV0"` |
| Base64.BtoaUndefined | src/pages/cluster/containers/Template/cluster/actions/Create/index.jsx:124 | a masked property left absent is sent as `"dW5kZWZpbmVk"`, the encoding of the text "undefined" |
| Base64.BtoaNull | src/pages/cluster/containers/Template/cluster/actions/Create/index.jsx:124 | a masked property holding `null` is sent as `"bnVsbA=="`, the encoding of the text "null" with one byte padded by `==` |
| Base64.BtoaFalse | src/pages/cluster/containers/Template/cluster/actions/Create/index.jsx:124 | a masked switch holding `false` is sent as `"ZmFsc2U="`, the encoding of the text "false" with two bytes padded by `=` |
| Js.Truthy | src/pages/cluster/containers/Template/cluster/actions/Create/index.jsx:140 | defines ToBoolean: `undefined`, `null`, `false`, `0` and `""` are falsy |
| Js.StrictEquals | src/pages/cluster/containers/Template/cluster/actions/Create/index.jsx:144 | defines `===`: primitives by value, arrays and objects as distinct references |
| Js.Path | src/pages/cluster/containers/Template/cluster/actions/Create/index.jsx:161 | defines lodash `get` on object steps, `undefined` as soon as a step is not an object; this is what lodash gives on the paths read here, `formData` and `formData.enable` |
| Js.ToString | src/pages/cluster/containers/Template/cluster/actions/Create/index.jsx:223 | defines ToString as template literals and `btoa` apply it: arrays joined with commas, objects as "[object Object]" |
| Js.NatToString | src/pages/cluster/containers/Template/cluster/actions/Create/index.jsx:223 | defines the decimal text of a number as template literals and `btoa` write it: never empty; `NatToStringValue` states that its characters are digits that denote the number |
| Js.NatToStringValue | src/pages/cluster/containers/Template/cluster/actions/Create/index.jsx:223 | a number's decimal text consists of digits that denote the number |
| Js.SetPath | src/pages/cluster/containers/Template/cluster/actions/Create/index.jsx:302-306 | lodash `set` on an object makes the path read back the value, adds only the path's first key and keeps the other keys; on a non-object it changes nothing |
| Js.SetPathTwice | src/pages/cluster/containers/Template/cluster/actions/Create/index.jsx:302-306 | setting the same path to the same value twice is setting it once |
| Js.SetPathCommutes | src/pages/cluster/containers/Template/cluster/actions/Create/index.jsx:302-306 | settings under different first keys commute |
| Js.Flatten | src/pages/cluster/containers/Template/cluster/actions/Create/index.jsx:111 | lodash `flatten` gives an array: one level of an array, the characters of a string, nothing otherwise |
| Js.FlattenItemsAppend | src/pages/cluster/containers/Template/cluster/actions/Create/index.jsx:111 | flattening keeps the input's order |
| Js.FlattenItemsMembers | src/pages/cluster/containers/Template/cluster/actions/Create/index.jsx:111 | an element of the flattened array is a non-array element of the input or an element of one of its arrays, and conversely |
| Js.FilterTruthy | src/pages/cluster/containers/Template/cluster/actions/Create/index.jsx:151 | the filtered list holds every truthy element and only truthy ones |
| Js.FilterTruthyAppend | src/pages/cluster/containers/Template/cluster/actions/Create/index.jsx:151 | filtering keeps the elements in their original order |
| Js.FilterBoolean | src/pages/cluster/containers/Template/cluster/actions/Create/index.jsx:151 | `filter(v, Boolean)` gives the truthy elements of an array or the characters of a string |
| Js.HasLength | src/pages/cluster/containers/Template/cluster/actions/Create/index.jsx:150 | defines the `item?.[_item]?.length` test: a non-empty array or string; `StorageConfigValues` and `CleanParamsEffect` state that exactly the parameters passing it are filtered |
| TemplateCreate.GetRegistry | src/pages/cluster/containers/Template/cluster/actions/Create/index.jsx:111 | the registry list is the array-input value flattened one level; a string comes out as the list of its characters |
| TemplateCreate.RegistryOfFlatList | src/pages/cluster/containers/Template/cluster/actions/Create/index.jsx:111 | a registry list without nested lists is sent as it is |
| TemplateCreate.CommaSplit | src/pages/cluster/containers/Template/cluster/actions/Create/index.jsx:223 | `a,b` splits back into `a` and `b` at its first comma when `a` holds none |
| TemplateCreate.SubnetParts | src/pages/cluster/containers/Template/cluster/actions/Create/index.jsx:221-223 | a dual-stack subnet carries both families, recoverable at the comma; a single-stack subnet is the IPv4 value |
| TemplateCreate.DualStack | src/pages/cluster/containers/Template/cluster/actions/Create/index.jsx:221 | defines `IPVersion === 'dualStack'`; its properties are those of `ConfigSubnets` and `SentDualStack`, which state that both subnets and the sent `calico.dualStack` follow it |
| TemplateCreate.DualStackPodSubnet | src/pages/cluster/containers/Template/cluster/actions/Create/index.jsx:223 | `10.0.0.0/16` and `fd00::/48` on dual stack give `10.0.0.0/16,fd00::/48` |
| TemplateCreate.ConfigSubnets | src/pages/cluster/containers/Template/cluster/actions/Create/index.jsx:221-278 | on dual stack both subnets join the two families with a comma, otherwise they are the IPv4 values; `calico.dualStack` mirrors the flag |
| TemplateCreate.ConfigVersions | src/pages/cluster/containers/Template/cluster/actions/Create/index.jsx:232-253 | the Kubernetes and containerd versions are the offline fields exactly when `offline` is truthy; docker has one version |
| TemplateCreate.ByMode | src/pages/cluster/containers/Template/cluster/actions/Create/index.jsx:232-234 | defines the `offline ? … : …` choice, also at index.jsx:247-249; its properties are those of `ConfigVersions`, which states that the offline field is taken exactly when `offline` is truthy |
| TemplateCreate.ConfigRuntime | src/pages/cluster/containers/Template/cluster/actions/Create/index.jsx:235-254 | docker settings exactly when `containerRuntimeType === 'docker'`; the chosen runtime's registries and root directory come from its own fields |
| TemplateCreate.ConfigJsRuntime | src/pages/cluster/containers/Template/cluster/actions/Create/index.jsx:235-254 | the sent `containerRuntime` has exactly the keys `containerRuntimeType` and `docker`, or `containerRuntimeType` and `containerd` |
| TemplateCreate.ConfigJsNetworking | src/pages/cluster/containers/Template/cluster/actions/Create/index.jsx:255-283 | the sent subnets and component list are the config's own |
| TemplateCreate.ConfigJs | src/pages/cluster/containers/Template/cluster/actions/Create/index.jsx:227-284 | defines the JSON object the store receives; its properties are those of `ConfigJsKeys`, `ConfigJsSections`, `ConfigJsRuntime`, `ConfigJsNetworking` and `SentDualStack` |
| TemplateCreate.ConfigJsKeys | src/pages/cluster/containers/Template/cluster/actions/Create/index.jsx:227-234 | the sent config has exactly the nine keys of the literal, and `offline`, `certSANs`, `localRegistry`, `workerNodeVip` and `kubernetesVersion` are the config's own |
| TemplateCreate.ConfigJsSections | src/pages/cluster/containers/Template/cluster/actions/Create/index.jsx:235-282 | `networking` has exactly `serviceSubnet`, `dnsDomain` and `podSubnet` with the config's `dnsDomain`; `containerRuntime` and `kubeComponents` are the runtime and component objects |
| TemplateCreate.RuntimeJs | src/pages/cluster/containers/Template/cluster/actions/Create/index.jsx:235-254 | defines the `containerRuntime` spread; its properties are those of `ConfigJsRuntime` |
| TemplateCreate.KubeComponentsJs | src/pages/cluster/containers/Template/cluster/actions/Create/index.jsx:262-282 | defines the nested `kubeComponents` object; its properties are those of `KubeComponentsJsFields` and `KubeComponentsJsCalico` |
| TemplateCreate.KubeComponentsJsFields | src/pages/cluster/containers/Template/cluster/actions/Create/index.jsx:262-281 | `kubeComponents` has exactly `kubeProxy`, `etcd` and `cni`; `ipvs`, `etcd.dataDir` and the four flat `cni` fields are the record's own |
| TemplateCreate.KubeComponentsJsCalico | src/pages/cluster/containers/Template/cluster/actions/Create/index.jsx:274-280 | `cni.calico` has exactly its five keys, each carrying the Calico record's field, with `dualStack` as a boolean |
| TemplateCreate.SentDualStack | src/pages/cluster/containers/Template/cluster/actions/Create/index.jsx:278 | the sent `kubeComponents.cni.calico.dualStack` is the boolean `IPVersion === 'dualStack'` |
| TemplateCreate.ComponentToJs | src/pages/cluster/containers/Template/cluster/actions/Create/index.jsx:283 | a sent component carries its name, config and version |
| TemplateCreate.Annotations | src/pages/cluster/containers/Template/cluster/actions/Create/index.jsx:302-305 | the annotations hold exactly the display name and the description |
| TemplateCreate.CreateParams | src/pages/cluster/containers/Template/cluster/actions/Create/index.jsx:289-295 | the create parameters are the name and description with plugin `kubernetes`, version `v1` and category `kubernetes` |
| TemplateCreate.PatchedOriginFacts | src/pages/cluster/containers/Template/cluster/actions/Create/index.jsx:300-306 | the patched record carries the new annotations and config and keeps every other top-level field; a record that is not an object is sent unchanged |
| TemplateCreate.ResubmitSendsSameBody | src/pages/cluster/containers/Template/cluster/actions/Create/index.jsx:300-308 | patching an already-patched record with the same values sends the same body |
| TemplateCreate.Subnet | src/pages/cluster/containers/Template/cluster/actions/Create/index.jsx:223 | defines a subnet field, `${v4},${v6}` on dual stack and `v4` otherwise; its properties are those of `SubnetParts` |
| TemplateCreate.RuntimeOf | src/pages/cluster/containers/Template/cluster/actions/Create/index.jsx:235-254 | defines the runtime section; its properties are those of `ConfigRuntime` and `ConfigVersions` |
| TemplateCreate.BuildConfig | src/pages/cluster/containers/Template/cluster/actions/Create/index.jsx:227-284 | defines the config object of `onSubmit`, field by field; its properties are those of `ConfigSubnets`, `ConfigVersions` and `ConfigRuntime` |
| TemplateCreate.PatchedOrigin | src/pages/cluster/containers/Template/cluster/actions/Create/index.jsx:300-306 | defines the two `set` calls on the original record; its properties are those of `PatchedOriginFacts`, `PatchedMetadata` and `ResubmitSendsSameBody` |
| TemplateCreate.PatchedMetadata | src/pages/cluster/containers/Template/cluster/actions/Create/index.jsx:302-305 | inside `metadata` only `annotations` is replaced: every other metadata field is kept, and a missing or non-object `metadata` becomes an object holding only the annotations |
| TemplateCreate.SubmitOutcome | src/pages/cluster/containers/Template/cluster/actions/Create/index.jsx:297-310 | defines the outcome of `onSubmit`; its properties are those of `SubmitShape` and `SubmitNeedsCatalogue` |
| TemplateCreate.SubmitShape | src/pages/cluster/containers/Template/cluster/actions/Create/index.jsx:297-310 | a submission succeeds exactly when `getComponents` does; it patches exactly when the route id is truthy; either way it sends the config built from those components |
| TemplateCreate.SubmitNeedsCatalogue | src/pages/cluster/containers/Template/cluster/actions/Create/index.jsx:169-172 | a component missing from the catalogue makes the submission fail before any request is made |
| TemplateCreate.CreateAction.constructor | src/pages/cluster/containers/Template/cluster/actions/Create/index.jsx:297-300 | the action holds the route's id and the template's original record |
| TemplateCreate.CreateAction.OnSubmit | src/pages/cluster/containers/Template/cluster/actions/Create/index.jsx:177-311 | `onSubmit` returns the specified request and changes the original record exactly when it patches, to the body it sends |
| SelectWithInput.DerivedStateFromProps | src/components/FormItem/SelectWithInput/index.jsx:29-37 | the partial state is returned exactly when the prop is not `===` the state's value, and it is the prop |
| SelectWithInput.Synced | src/components/FormItem/SelectWithInput/index.jsx:29-37 | after the sync, the value is the prop, the buffer is untouched, and an equal prop changes nothing |
| SelectWithInput.SyncedIdempotent | src/components/FormItem/SelectWithInput/index.jsx:29-37 | syncing twice with the same props is syncing once |
| SelectWithInput.ChangeEffects | src/components/FormItem/SelectWithInput/index.jsx:45-49 | `setFieldsValue` fires exactly when there is a form ref, and first; `onChange` fires exactly when supplied; both carry the picked value |
| SelectWithInput.Change | src/components/FormItem/SelectWithInput/index.jsx:39-51 | a pick selects the value, clears the buffer and fires the change callbacks |
| SelectWithInput.Search | src/components/FormItem/SelectWithInput/index.jsx:53-58 | truthy text is buffered with the value untouched; other text changes nothing |
| SelectWithInput.EmptySearchKeepsBuffer | src/components/FormItem/SelectWithInput/index.jsx:53-58 | an empty search keeps the text buffered before |
| SelectWithInput.Blur | src/components/FormItem/SelectWithInput/index.jsx:60-63 | a blur with buffered text is exactly a pick of that text; without it, nothing happens and no callback fires |
| SelectWithInput.BlurTwice | src/components/FormItem/SelectWithInput/index.jsx:60-63 | a second blur right after a first does nothing |
| SelectWithInput.SearchThenBlurCommits | src/components/FormItem/SelectWithInput/index.jsx:53-63 | typing non-empty text and leaving selects it, clears the buffer and reports it |
| SelectWithInput.ChangeThenSyncIsStable | src/components/FormItem/SelectWithInput/index.jsx:29-51 | a parent feeding a picked value back as the prop leaves the state alone |
| SelectWithInput.Run | src/components/FormItem/SelectWithInput/index.jsx:29-63 | defines the state and callbacks after a sequence of events with fixed props; its properties are those of `RunReportsOnlyInput` |
| SelectWithInput.RunReportsOnlyInput | src/components/FormItem/SelectWithInput/index.jsx:29-63 | over any sequence of events, every reported value was picked, typed non-empty, or buffered at the start |
| SelectWithInput.Index.constructor | src/components/FormItem/SelectWithInput/index.jsx:21-27 | the control starts with nothing selected, nothing typed and no callbacks |
| SelectWithInput.Index.SyncProps | src/components/FormItem/SelectWithInput/index.jsx:29-37 | React's merge of `getDerivedStateFromProps` follows `Synced` and fires nothing |
| SelectWithInput.Index.OnChange | src/components/FormItem/SelectWithInput/index.jsx:39-51 | `onChange` follows `Change`, appending its callbacks to the log |
| SelectWithInput.Index.OnSearch | src/components/FormItem/SelectWithInput/index.jsx:53-58 | `onSearch` follows `Search` and fires nothing |
| SelectWithInput.Index.OnBlur | src/components/FormItem/SelectWithInput/index.jsx:60-63 | `onBlur` follows `Blur`, appending the callbacks of the commit, if any |

## Left out

- `fetchComponents` and `getEditVals` (Create/index.jsx:87-109) are asynchronous store fetches. Their results are inputs: the catalogue in `FormValues` and the original record of `CreateAction`.
- `templatesStore.create` and `templatesStore.patch` are HTTP calls. The model returns the request they would receive.
- `arrayInputValue` and `computeAutoDetection` are defined outside this file, and they are function parameters of the model. The types of those parameters assume both are pure and never throw. A `computeAutoDetection` result that cannot be destructured, such as `null` or `undefined`, would throw a `TypeError` in the source, and that case is not modelled.
- The React and antd `render`, the wizard steps and titles, `t()` translation, mobx `@observer` and `console.log` are not modelled. They are UI plumbing with no effect on the payload.
- `setState` is modelled as a synchronous assignment followed by its callback, and React's re-render scheduling is left out.
- `formRef?.current` and the `onChange` prop are modelled as flags. The callbacks they would call are logged as effects instead of being run.
- `src/components/FormItem/Checkbox/index.jsx` is not part of this model. It only forwards `e.target.checked`.
- `tests/unit/setup.js` is not part of this model. It is test bootstrap.
- Numbers are integers, so floating point, `NaN` and `-0` are not modelled. The fields involved are CIDRs, versions, flags and MTUs.
- The form state's shape is typed:
  - storage tabs are a list of records with a name and a list of entries;
  - plugin forms are ordered key/value pairs;
  - a schema's properties are ordered name/schema pairs.
  Malformed shapes are therefore not modelled: a `null` `storage.tabs`, a tab that is not an object, a schema whose `properties` is not an object.
- A descriptor whose `schema` is `undefined` or `null` is modelled as the `NoSchema` fault. A schema without `properties` counts as having none.
- `item?.[key]?.length` is modelled as "a non-empty array or string". An object with its own `length` field is not modelled.
- Object key order is modelled only where it is observable: plugin forms and schema properties. Config objects are maps, so the order of keys in the sent JSON is not modelled, and neither is `Object.entries` listing integer-like keys first.
- Aliasing is not modelled. `getComponents` builds its configs fresh through `omit`/`assign`, so updating them in place is modelled as replacing the value.
- The original record is a single field of `CreateAction`, and references to it held elsewhere are not modelled.
- `JSON.stringify` dropping `undefined` properties is not modelled. The config is stated as the object before serialisation.
- The component lookup by name is modelled as a `Failure` result, not as a precondition, and the same holds for `btoa` on text beyond Latin-1. The source throws in both cases.
- `ToString` of a number is written out only for integers.
- `StrictEquals` treats any two arrays or objects as distinct references, because the model has no object identity. `DerivedStateFromProps` therefore returns the prop when the prop is the same array or object as the state's value, where the source returns `null`. The resulting state is the same.
- `SetPath` and `ChildFor` step only into objects. Lodash's `set` also treats arrays as objects: it sets a property on an array record and steps into an array `metadata`. On an array, the model leaves the record unchanged and replaces an array step by `{}`.
- `Path` reads properties of objects only. Lodash's `get` also reads properties of arrays and strings, such as `length`; the source reads no such path.
- Strings are sequences of Unicode scalar values, not UTF-16 code units. `Flatten` of a string therefore yields one element per character, where lodash yields one per code unit. The two differ for text with characters beyond the Basic Multilingual Plane. `btoa` rejects such text either way.
