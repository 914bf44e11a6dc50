/** The data the settings screens are built from: the categories a setting
    can belong to and the shape of one catalog entry. The catalog itself is
    not part of this model; operations take it as a sequence of entries. */
module Catalog {
  import opened Wrappers
  import opened JsValues

  /** A category id (`'privacy'`, `'security'`, `'performance'` or `'misc'`).
      Ids are kept as text: nothing checks them when a configuration is
      imported. */
  type CategoryId = string

  datatype SettingKind = BooleanSetting | StringSetting | NumberSetting | SelectSetting

  /** `{value, label}`; `label` is a Dafny keyword, hence `caption`. */
  datatype SelectOption = SelectOption(value: int, caption: string)

  /** One catalog entry: a Firefox preference with its presentation. The
      optional members are `None` when the entry leaves them out. */
  datatype Setting = Setting(
    id: string,
    category: seq<CategoryId>,
    title: string,
    description: string,
    default: Json,
    kind: SettingKind,
    advanced: Option<bool>,
    min: Option<int>,
    max: Option<int>,
    step: Option<int>,
    unit: Option<string>,
    helpText: Option<string>,
    options: Option<seq<SelectOption>>)
}
