/** The shopping ledger's stored state (app.js): collections ("ledgers"),
    each holding a list of categories ("shops"); a category names its fields
    and holds its items, one value per field name. */
module LedgerData {
  import opened Wrappers

  /** An item: its values by field name. Values come from the item form, so
      they are strings. */
  type Item = map<string, string>

  datatype Category = Category(id: string, name: string, color: string, fields: seq<string>, items: seq<Item>)

  /** A collection's content: when it was last saved, and its categories. */
  datatype Content = Content(timestamp: int, data: seq<Category>)

  datatype Collection = Collection(id: string, name: string, color: string, content: Content)

  /** The names every object inherits from `Object.prototype`. */
  const InheritedNames: set<string> := {
    "constructor", "hasOwnProperty", "isPrototypeOf", "propertyIsEnumerable", "toLocaleString",
    "toString", "valueOf", "__proto__", "__defineGetter__", "__defineSetter__",
    "__lookupGetter__", "__lookupSetter__"}

  /** `String(v)` of the member `name` inherited from `Object.prototype`:
      the source text of a built-in function (`constructor` is `Object`),
      or `"[object Object]"` for `__proto__`, which is `Object.prototype`
      itself. */
  function InheritedText(name: string): (r: string)
    ensures r != ""
  {
    if name == "__proto__" then "[object Object]"
    else "function " + (if name == "constructor" then "Object" else name) + "() { [native code] }"
  }

  /** `item[key] || ''`, as the text the reader goes on to use. A key that
      is `undefined` reads the property named `"undefined"`, as JavaScript
      does; an empty value is falsy and also gives `''`. An item is a plain
      object, so a key it lacks that names an inherited member reads that
      member, which is truthy. */
  function Prop(item: Item, key: Option<string>): (r: string)
    ensures var k := key.GetOr("undefined");
      && (k in item ==> r == item[k])
      && (k !in item ==> (r != "" <==> k in InheritedNames))
      && (k !in item && k in InheritedNames ==> r == InheritedText(k))
  {
    var k := key.GetOr("undefined");
    if k in item then item[k] else if k in InheritedNames then InheritedText(k) else ""
  }

  /** The fields a new category starts with. */
  const DefaultFields: seq<string> := ["品名", "價格", "購買日期", "備註"]

  /** The name of the collection made when nothing is stored. */
  const DefaultCollectionName: string := "我的賣場"

  const DefaultColor: string := "#007AFF"
}
