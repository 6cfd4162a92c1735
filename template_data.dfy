/**
 * The data the template wizard works on: the accumulated form values, the
 * component catalogue fetched from the backend, the enabled-component entries
 * it assembles, and the faults its unguarded lookups and `btoa` can throw.
 */
module TemplateData {
  import opened Wrappers
  import opened Js

  /** One storage-backend entry of a storage tab's form: a record of form fields. */
  type Entry = map<string, JsValue>

  /** A tab of the storage step: its component name and its entries (`formData || []`). */
  datatype StorageTab = StorageTab(name: string, formData: seq<Entry>)

  /**
   * A catalogue descriptor from the component fetch. `schema` is `None` when
   * the descriptor's `schema` is `undefined` or `null`; otherwise it holds the
   * entries of `schema.properties` in their order (none when that is absent).
   */
  datatype CatalogueEntry = CatalogueEntry(name: string, version: JsValue, schema: Option<seq<(string, JsValue)>>)

  /**
   * The wizard's values as `onSubmit` receives them: the flat form fields, the
   * storage tabs (`storage.tabs`), the plugin forms (`plugins.forms`, as its
   * `Object.entries`), the catalogue (`components`) and `defaultStorage`.
   */
  datatype FormValues = FormValues(
    fields: map<string, JsValue>,
    storageTabs: seq<StorageTab>,
    pluginForms: seq<(string, JsValue)>,
    catalogue: seq<CatalogueEntry>,
    defaultStorage: JsValue)

  /** An enabled component of the submitted payload; `version` is `undefined` until it is attached. */
  datatype Component = Component(name: string, config: map<string, JsValue>, version: JsValue)

  /** What `getComponents` and `encodeProperty` can throw. */
  datatype Fault =
    | NotInCatalogue(name: string)               // TypeError: `components.find` gave undefined
    | NoSchema(name: string)                     // TypeError: destructuring an undefined or null schema
    | NullPropertySchema(name: string, prop: string)  // TypeError: reading `mask` of undefined or null
    | NotLatin1(name: string, prop: string)           // InvalidCharacterError from `window.btoa`

  /** A flat form field; `undefined` when the form never set it. */
  function Field(v: FormValues, k: string): JsValue {
    Prop(v.fields, k)
  }

  /** The `defaultStorage = ''` default of `getComponents`' parameter. */
  function DefaultStorageOf(v: FormValues): JsValue {
    if v.defaultStorage.Undefined? then Str("") else v.defaultStorage
  }
}
