/** The configurator page: which categories are selected and the values the
    user has set, with export to and import from a configuration document. */
module App {
  import opened Wrappers
  import opened JsValues
  import opened Catalog

  const Version: string := "1.0.0"

  /** The category ids as a JSON array. */
  function Strings(xs: seq<string>): (items: seq<Json>)
    ensures |items| == |xs|
    ensures forall i :: 0 <= i < |xs| ==> items[i] == JStr(xs[i])
  {
    seq(|xs|, i requires 0 <= i < |xs| => JStr(xs[i]))
  }

  /** The ids held by a JSON array of strings; `None` when an element is not
      a string. */
  function StringsOf(items: seq<Json>): (xs: Option<seq<string>>)
    ensures xs.Some? <==> forall i :: 0 <= i < |items| ==> items[i].JStr?
    ensures xs.Some? ==> |xs.value| == |items| && forall i :: 0 <= i < |items| ==> items[i] == JStr(xs.value[i])
    decreases |items|
  {
    if items == [] then Some([])
    else if !items[0].JStr? then None
    else
      match StringsOf(items[1..])
      case None => None
      case Some(rest) => Some([items[0].s] + rest)
  }

  /** The `Configuration` record `exportConfig` serialises. */
  function Document(categories: seq<CategoryId>, settings: Fields, timestamp: string): (doc: Json)
    ensures doc.JObj? && Keys(doc.fields) == ["categories", "settings", "timestamp", "version"]
    ensures Member(doc, "categories") == Some(JArr(Strings(categories)))
    ensures Member(doc, "settings") == Some(JObj(settings))
    ensures Member(doc, "timestamp") == Some(JStr(timestamp))
    ensures Member(doc, "version") == Some(JStr(Version))
  {
    var f := [("categories", JArr(Strings(categories))), ("settings", JObj(settings)),
              ("timestamp", JStr(timestamp)), ("version", JStr(Version))];
    UniqueKeysAt(f);
    LookupUnique(f, 0);
    LookupUnique(f, 1);
    LookupUnique(f, 2);
    LookupUnique(f, 3);
    JObj(f)
  }

  /** What `importConfig` stores from a parsed document: its `categories`
      and its `settings` as an object; `None` when the document does not have
      a `categories` array of strings and a `settings` object. */
  function DecodeDocument(doc: Json): (r: Option<(seq<CategoryId>, Fields)>)
    ensures r.Some? <==>
      (&& Member(doc, "categories").Some? && Member(doc, "categories").value.JArr?
       && (forall i :: 0 <= i < |Member(doc, "categories").value.items| ==>
             Member(doc, "categories").value.items[i].JStr?)
       && Member(doc, "settings").Some? && Member(doc, "settings").value.JObj?)
    ensures r.Some? ==> Member(doc, "categories") == Some(JArr(Strings(r.value.0)))
    ensures r.Some? ==> UniqueKeys(r.value.1)
    ensures r.Some? ==> forall k :: Lookup(r.value.1, k) == Lookup(Member(doc, "settings").value.fields, k)
  {
    match (Member(doc, "categories"), Member(doc, "settings"))
    case (Some(JArr(items)), Some(JObj(f))) =>
      (match StringsOf(items)
       case Some(categories) =>
         assert items == Strings(categories);
         Some((categories, ToObject(f)))
       case None => None)
    case _ => None
  }

  /** Exporting and importing restores the same categories and settings,
      given that `JSON.parse` reads the exported text back as the exported
      document. */
  lemma ExportImportRoundTrip(categories: seq<CategoryId>, settings: Fields, timestamp: string)
    requires UniqueKeys(settings)
    ensures DecodeDocument(Document(categories, settings, timestamp)) == Some((categories, settings))
  {
    var items := Strings(categories);
    var back := StringsOf(items);
    assert back.Some?;
    assert back.value == categories;
    ToObjectOfObject(settings);
  }

  /** The state of the page. */
  class App {
    var selectedCategories: seq<CategoryId>
    var settings: Fields

    /** `settings` is a JavaScript object. */
    ghost predicate Valid()
      reads this
    {
      UniqueKeys(settings)
    }

    /** The settings panel is rendered only while a category is selected. */
    predicate ShowsSettingsPanel()
      reads this
    {
      |selectedCategories| > 0
    }

    constructor ()
      ensures Valid()
      ensures selectedCategories == [] && settings == []
      ensures !ShowsSettingsPanel()
    {
      selectedCategories := [];
      settings := [];
    }

    /** The selector's `onChange`: the new selection replaces the old one;
      the settings are neither pruned nor filled with defaults. */
    method OnCategoriesChange(categories: seq<CategoryId>)
      requires Valid()
      modifies this
      ensures Valid()
      ensures selectedCategories == categories
      ensures settings == old(settings)
      ensures ShowsSettingsPanel() <==> categories != []
    {
      selectedCategories := categories;
    }

    /** The panel's `onChange`: `{...prev, [id]: value}`. The edited key holds
      the new value and every other key keeps its value; at most one key is
      added. */
    method OnSettingChange(id: string, value: Json)
      requires Valid()
      modifies this
      ensures Valid()
      ensures settings == Put(old(settings), id, value)
      ensures forall k :: Lookup(settings, k) == if k == id then Some(value) else old(Lookup(settings, k))
      ensures |settings| <= |old(settings)| + 1
      ensures selectedCategories == old(selectedCategories)
    {
      var prev := settings;
      settings := Put(prev, id, value);
      forall k ensures Lookup(settings, k) == if k == id then Some(value) else Lookup(prev, k) {
        PutLookup(prev, id, value, k);
      }
    }

    /** `exportConfig`: the document `JSON.stringify` writes to the download;
      importing it restores the current state. */
    function ExportConfig(timestamp: string): (doc: Json)
      reads this
      ensures Member(doc, "version") == Some(JStr(Version))
      ensures Valid() ==> DecodeDocument(doc) == Some((selectedCategories, settings))
    {
      assert Valid() ==> DecodeDocument(Document(selectedCategories, settings, timestamp))
                         == Some((selectedCategories, settings)) by {
        if Valid() {
          ExportImportRoundTrip(selectedCategories, settings, timestamp);
        }
      }
      Document(selectedCategories, settings, timestamp)
    }

    /** `importConfig`, once the file is read: `parsed` is what `JSON.parse`
      returned, `None` when it threw. A document replaces both parts of the
      state; a failure leaves both as they were. */
    method ImportConfig(parsed: Option<Json>)
      requires Valid()
      modifies this
      ensures Valid()
      ensures parsed.Some? && DecodeDocument(parsed.value).Some? ==>
        (selectedCategories, settings) == DecodeDocument(parsed.value).value
      ensures parsed.None? || DecodeDocument(parsed.value).None? ==>
        selectedCategories == old(selectedCategories) && settings == old(settings)
    {
      if parsed.None? {
        return;
      }
      var decoded := DecodeDocument(parsed.value);
      if decoded.None? {
        return;
      }
      selectedCategories := decoded.value.0;
      settings := decoded.value.1;
    }
  }
}
