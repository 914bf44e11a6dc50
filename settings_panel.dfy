/** The settings screen: one collapsible group per selected category, each
    listing the catalog entries of that category with their current values. */
module SettingsPanel {
  import opened Wrappers
  import opened Seqs
  import opened JsValues
  import opened Catalog
  import Decimal
  import UserJs
  import CategorySelector
  import Text

  /** `settings.filter(setting => setting.category.includes(category))`: the
      catalog entries of one category, each as often as in the catalog and in
      catalog order, and no other entries. */
  function SettingsOf(catalog: seq<Setting>, category: CategoryId): (r: seq<Setting>)
    ensures forall s :: multiset(r)[s] == if category in s.category then multiset(catalog)[s] else 0
    ensures forall s :: s in r ==> category in s.category
    ensures IsSubsequence(r, catalog)
    decreases |catalog|
  {
    if catalog == [] then []
    else
      var rest := SettingsOf(catalog[1..], category);
      assert catalog == [catalog[0]] + catalog[1..];
      if category in catalog[0].category then
        assert ([catalog[0]] + rest)[1..] == rest;
        [catalog[0]] + rest
      else
        SubsequenceExtend(rest, catalog[1..], catalog[0]);
        rest
  }

  /** One panel group. */
  datatype Group = Group(category: CategoryId, settings: seq<Setting>)

  /** `categorySettings`: a group per selected category, in selection order,
      holding that category's catalog entries. */
  function CategorySettings(catalog: seq<Setting>, selected: seq<CategoryId>): (gs: seq<Group>)
    ensures |gs| == |selected|
    ensures forall i :: 0 <= i < |selected| ==>
      gs[i].category == selected[i] && gs[i].settings == SettingsOf(catalog, selected[i])
    decreases |selected|
  {
    if selected == [] then []
    else [Group(selected[0], SettingsOf(catalog, selected[0]))] + CategorySettings(catalog, selected[1..])
  }

  /** Every entry shown in a group belongs to the group's category, and every
      catalog entry of a selected category is shown in that category's group. */
  lemma GroupsShowTheirCategory(catalog: seq<Setting>, selected: seq<CategoryId>, i: nat, s: Setting)
    requires i < |selected|
    ensures var g := CategorySettings(catalog, selected)[i];
      (s in g.settings ==> selected[i] in s.category)
      && (s in catalog && selected[i] in s.category ==> s in g.settings)
  {
    var g := CategorySettings(catalog, selected)[i];
    if s in catalog && selected[i] in s.category {
      assert multiset(g.settings)[s] == multiset(catalog)[s] > 0;
    }
  }

  /** `formatValue(value, unit)`: the value followed by a space and the unit
      when there is a non-empty unit, otherwise the value itself. */
  function FormatValue(value: Json, unit: Option<string>): (r: Json)
    ensures unit.None? || unit.value == [] ==> r == value
    ensures unit.Some? && unit.value != [] ==> r.JStr? && Text.EndsWith(r.s, " " + unit.value)
  {
    if unit.Some? && unit.value != "" then JStr(UserJs.JsString(value) + " " + unit.value) else value
  }

  /** A number shown with its unit can be read back: the text before the
      first space is the number, the text after it the unit. Without a unit
      the number is shown as it is. */
  lemma FormatValueReadBack(n: int, unit: string)
    ensures FormatValue(JNum(n), None) == JNum(n) && FormatValue(JNum(n), Some("")) == JNum(n)
    ensures unit != "" ==> FormatValue(JNum(n), Some(unit)).JStr?
    ensures unit != "" ==> var t := FormatValue(JNum(n), Some(unit)).s;
      var k := Text.IndexOf(t, ' ');
      && k < |t|
      && Decimal.ParseInt(t[..k]) == Some(n)
      && t[k + 1..] == unit
  {
    if unit != "" {
      FormatNumberWithUnit(n, unit);
    }
  }

  lemma FormatNumberWithUnit(n: int, unit: string)
    requires unit != ""
    ensures var t := FormatValue(JNum(n), Some(unit)).s;
      var k := Text.IndexOf(t, ' ');
      && k < |t|
      && Decimal.ParseInt(t[..k]) == Some(n)
      && t[k + 1..] == unit
  {
    var d := Decimal.IntToString(n);
    var t := d + " " + unit;
    assert ' ' !in d by {
      if n < 0 {
        assert d == "-" + Decimal.NatToString(-n);
      }
    }
    assert t[|d|] == ' ';
    assert t[..|d|] == d;
    assert Text.IndexOf(t, ' ') == |d|;
    assert t[|d| + 1..] == unit;
    Decimal.IntToStringRoundTrip(n);
  }

  /** `values[setting.id] ?? setting.default`: the stored value unless it is
      missing or null, in which case the catalog default. */
  function DisplayedValue(values: Fields, s: Setting): (v: Json)
    ensures Lookup(values, s.id).Some? && Lookup(values, s.id).value != JNull ==> v == Lookup(values, s.id).value
    ensures Lookup(values, s.id).None? || Lookup(values, s.id).value == JNull ==> v == s.default
  {
    match Lookup(values, s.id)
    case Some(stored) => if stored != JNull then stored else s.default
    case None => s.default
  }

  /** The change a checkbox reports: the setting's id and the checked state. */
  function CheckboxEdit(s: Setting, checked: bool): (edit: (string, Json))
    ensures edit.0 == s.id && edit.1 == JBool(checked)
  {
    (s.id, JBool(checked))
  }

  /** `Number(text)` for the text of a range input, which is the decimal text
      of its position; `None` for text that is not an integer. */
  function NumberOf(text: string): Option<int> {
    Decimal.ParseInt(text)
  }

  /** The change a range input reports: the setting's id and the number its
      text denotes. */
  function RangeEdit(s: Setting, text: string): (edit: Option<(string, Json)>)
    ensures edit.Some? <==> NumberOf(text).Some?
    ensures edit.Some? ==> edit.value == (s.id, JNum(NumberOf(text).value))
  {
    match NumberOf(text)
    case Some(n) => Some((s.id, JNum(n)))
    case None => None
  }

  /** A slider at position `n` reports `n` for its own setting. */
  lemma RangeEditReportsPosition(s: Setting, n: int)
    ensures RangeEdit(s, Decimal.IntToString(n)) == Some((s.id, JNum(n)))
  {
    Decimal.IntToStringRoundTrip(n);
  }

  /** Once an edit is stored (`{...prev, [id]: value}`), the setting it was
      for shows the new value, unless the value is null, and every other
      setting shows what it showed before. */
  lemma EditIsDisplayed(values: Fields, id: string, value: Json, s: Setting)
    requires UniqueKeys(values)
    ensures s.id == id && value != JNull ==> DisplayedValue(Put(values, id, value), s) == value
    ensures s.id == id && value == JNull ==> DisplayedValue(Put(values, id, value), s) == s.default
    ensures s.id != id ==> DisplayedValue(Put(values, id, value), s) == DisplayedValue(values, s)
  {
    PutLookup(values, id, value, s.id);
  }

  /** A checkbox click, once stored, shows the checked state it reported,
      and every other setting shows what it showed before. */
  lemma CheckboxEditIsDisplayed(values: Fields, s: Setting, checked: bool)
    requires UniqueKeys(values)
    ensures var edit := CheckboxEdit(s, checked);
      DisplayedValue(Put(values, edit.0, edit.1), s) == JBool(checked)
    ensures var edit := CheckboxEdit(s, checked);
      forall o: Setting :: o.id != s.id ==> DisplayedValue(Put(values, edit.0, edit.1), o) == DisplayedValue(values, o)
  {
    var edit := CheckboxEdit(s, checked);
    EditIsDisplayed(values, edit.0, edit.1, s);
    forall o: Setting | o.id != s.id
      ensures DisplayedValue(Put(values, edit.0, edit.1), o) == DisplayedValue(values, o)
    {
      EditIsDisplayed(values, edit.0, edit.1, o);
    }
  }

  /** A slider moved to position `n`, once the change is stored, shows `n`,
      and every other setting shows what it showed before. */
  lemma RangeEditIsDisplayed(values: Fields, s: Setting, n: int)
    requires UniqueKeys(values)
    ensures RangeEdit(s, Decimal.IntToString(n)).Some?
    ensures var edit := RangeEdit(s, Decimal.IntToString(n)).value;
      DisplayedValue(Put(values, edit.0, edit.1), s) == JNum(n)
    ensures var edit := RangeEdit(s, Decimal.IntToString(n)).value;
      forall o: Setting :: o.id != s.id ==> DisplayedValue(Put(values, edit.0, edit.1), o) == DisplayedValue(values, o)
  {
    RangeEditReportsPosition(s, n);
    EditIsDisplayed(values, s.id, JNum(n), s);
    forall o: Setting | o.id != s.id
      ensures DisplayedValue(Put(values, s.id, JNum(n)), o) == DisplayedValue(values, o)
    {
      EditIsDisplayed(values, s.id, JNum(n), o);
    }
  }

  /** The panel's own state: which groups are expanded. It starts as the
      selection the panel is first shown with and is not updated when the
      selection changes later. */
  class Panel {
    var expandedCategories: seq<CategoryId>

    constructor (selectedCategories: seq<CategoryId>)
      ensures expandedCategories == selectedCategories
    {
      expandedCategories := selectedCategories;
    }

    /** `aria-expanded` and whether the group's entries are shown. */
    predicate IsExpanded(category: CategoryId)
      reads this
    {
      category in expandedCategories
    }

    /** `toggleCategory(category)`: collapses an expanded group (every
      occurrence of the category is dropped) and expands a collapsed one
      (it is appended). */
    method ToggleCategory(category: CategoryId)
      modifies this
      ensures expandedCategories == CategorySelector.ToggleCategory(old(expandedCategories), category)
      ensures IsExpanded(category) <==> !old(IsExpanded(category))
      ensures forall c :: c != category ==> (IsExpanded(c) <==> old(IsExpanded(c)))
    {
      expandedCategories := CategorySelector.ToggleCategory(expandedCategories, category);
    }
  }
}
