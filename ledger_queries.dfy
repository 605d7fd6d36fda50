/** The read-only queries of the shopping ledger (app.js): which fields hold
    an item's title, price and date; the search across the categories of a
    collection; and the grouping of a category's items by title. */
module LedgerQueries {
  import opened Wrappers
  import opened Text
  import opened Sequences
  import opened LedgerData

  // ---------------------------------------------------------------------
  // Field detection
  // ---------------------------------------------------------------------

  const TitleKeywords: seq<string> := ["品名", "品項", "產品名稱", "博物館", "名稱"]
  const PriceKeywords: seq<string> := ["金額", "價格", "費用"]
  const DateKeywords: seq<string> := ["日期", "時間"]

  /** The index `fields.find(k => keywords.some(t => k.includes(t)))` stops
      at, or `|fields|` when no field contains a keyword. */
  function FirstWith(fields: seq<string>, keywords: seq<string>): (r: nat)
    ensures r <= |fields|
    ensures r < |fields| ==> ContainsAny(fields[r], keywords)
    ensures forall k :: 0 <= k < r ==> !ContainsAny(fields[k], keywords)
  {
    FirstIndex(fields, (f: string) => ContainsAny(f, keywords))
  }

  /** The field `find` returns, `None` for `undefined`. */
  function Find(fields: seq<string>, keywords: seq<string>): Option<string> {
    var k := FirstWith(fields, keywords);
    if k < |fields| then Some(fields[k]) else None
  }

  /** The keys `identifyFields` returns; `None` is `undefined`. */
  datatype Keys = Keys(title: Option<string>, price: Option<string>, date: Option<string>)

  /** `identifyFields(category)`: the first field naming a title, falling
      back to the first field; the first field naming a price; the first
      field naming a date. A field found by a keyword is never empty, so the
      `|| f[0]` fallback applies exactly when no field has a title keyword. */
  function IdentifyFields(fields: seq<string>): Keys {
    var title := Find(fields, TitleKeywords);
    Keys(if title.Some? then title else if fields != [] then Some(fields[0]) else None,
         Find(fields, PriceKeywords),
         Find(fields, DateKeywords))
  }

  /** Some field contains one of `keywords`. */
  predicate AnyWith(fields: seq<string>, keywords: seq<string>) {
    exists i :: 0 <= i < |fields| && ContainsAny(fields[i], keywords)
  }

  /** `f` is the first field containing one of `keywords`, or `None` when no
      field contains one. */
  predicate FirstFieldWith(fields: seq<string>, keywords: seq<string>, f: Option<string>) {
    if AnyWith(fields, keywords) then
      exists i :: 0 <= i < |fields| && ContainsAny(fields[i], keywords) && f == Some(fields[i])
        && forall k :: 0 <= k < i ==> !ContainsAny(fields[k], keywords)
    else f == None
  }

  lemma FindSpec(fields: seq<string>, keywords: seq<string>)
    ensures FirstFieldWith(fields, keywords, Find(fields, keywords))
    ensures Find(fields, keywords).Some? <==> AnyWith(fields, keywords)
  {
    var k := FirstWith(fields, keywords);
    if k == |fields| {
      assert !AnyWith(fields, keywords);
    }
  }

  /** Every character is ASCII. */
  predicate Ascii(s: string) {
    forall i :: 0 <= i < |s| ==> s[i] < 128 as char
  }

  lemma InheritedNamesAscii(name: string)
    requires name in InheritedNames
    ensures Ascii(name)
  {
  }

  /** A string containing a keyword that starts with a wide character is
      not ASCII. */
  lemma ContainsWide(s: string, keywords: seq<string>)
    requires ContainsAny(s, keywords)
    requires forall j :: 0 <= j < |keywords| ==> keywords[j] != [] && keywords[j][0] >= 128 as char
    ensures !Ascii(s)
  {
    var j :| 0 <= j < |keywords| && Contains(s, keywords[j]);
    var i :| 0 <= i <= |s| - |keywords[j]| && InfixAt(s, keywords[j], i);
    assert s[i] == keywords[j][0];
  }

  /** The price and date keys are fields that contain a Chinese keyword, so
      neither is ever a name inherited from `Object.prototype`: only the
      title key can read an inherited member. */
  lemma KeyedFieldsNotInherited(fields: seq<string>)
    ensures var keys := IdentifyFields(fields);
      && (keys.price.Some? ==> keys.price.value !in InheritedNames)
      && (keys.date.Some? ==> keys.date.value !in InheritedNames)
  {
    var keys := IdentifyFields(fields);
    IdentifyFieldsSpec(fields);
    if keys.price.Some? && keys.price.value in InheritedNames {
      InheritedNamesAscii(keys.price.value);
      ContainsWide(keys.price.value, PriceKeywords);
    }
    if keys.date.Some? && keys.date.value in InheritedNames {
      InheritedNamesAscii(keys.date.value);
      ContainsWide(keys.date.value, DateKeywords);
    }
  }

  /** The price and date keys are the first fields naming a price and a date;
      the title key is the first field naming a title when there is one,
      and otherwise the first field, if any. */
  lemma IdentifyFieldsSpec(fields: seq<string>)
    ensures var keys := IdentifyFields(fields);
      && FirstFieldWith(fields, PriceKeywords, keys.price)
      && FirstFieldWith(fields, DateKeywords, keys.date)
      && (AnyWith(fields, TitleKeywords) ==> FirstFieldWith(fields, TitleKeywords, keys.title))
      && (!AnyWith(fields, TitleKeywords) ==> keys.title == if fields == [] then None else Some(fields[0]))
      && (keys.title.Some? <==> fields != [])
  {
    FindSpec(fields, TitleKeywords);
    FindSpec(fields, PriceKeywords);
    FindSpec(fields, DateKeywords);
  }

  /** A new category's fields are detected as title `品名`, price `價格` and
      date `購買日期`. */
  lemma DefaultFieldsKeys()
    ensures IdentifyFields(DefaultFields) == Keys(Some("品名"), Some("價格"), Some("購買日期"))
  {
    var f := DefaultFields;
    assert ContainsAny(f[0], TitleKeywords) by {
      assert InfixAt(f[0], TitleKeywords[0], 0);
    }
    assert FirstWith(f, TitleKeywords) == 0;
    DefaultPriceField();
    DefaultDateField();
  }

  lemma DefaultPriceField()
    ensures FirstWith(DefaultFields, PriceKeywords) == 1
  {
    var f := DefaultFields;
    assert !ContainsAny(f[0], PriceKeywords) by {
      NotContainsSameLength(f[0], PriceKeywords[0]);
      NotContainsSameLength(f[0], PriceKeywords[1]);
      NotContainsSameLength(f[0], PriceKeywords[2]);
    }
    assert ContainsAny(f[1], PriceKeywords) by {
      assert InfixAt(f[1], PriceKeywords[1], 0);
    }
    assert FirstWith(f[1..], PriceKeywords) == 0;
  }

  lemma DefaultDateField()
    ensures FirstWith(DefaultFields, DateKeywords) == 2
  {
    var f := DefaultFields;
    assert !ContainsAny(f[0], DateKeywords) by {
      NotContainsSameLength(f[0], DateKeywords[0]);
      NotContainsSameLength(f[0], DateKeywords[1]);
    }
    assert !ContainsAny(f[1], DateKeywords) by {
      NotContainsSameLength(f[1], DateKeywords[0]);
      NotContainsSameLength(f[1], DateKeywords[1]);
    }
    assert ContainsAny(f[2], DateKeywords) by {
      assert InfixAt(f[2], DateKeywords[0], 2);
    }
    assert FirstWith(f[2..], DateKeywords) == 0;
    assert f[1..][1..] == f[2..];
    assert FirstWith(f[1..], DateKeywords) == 1;
  }

  // ---------------------------------------------------------------------
  // Search
  // ---------------------------------------------------------------------

  /** A search result: the item, its category's name, colour and index, the
      item's index in that category, and the category's detected keys. */
  datatype Hit = Hit(item: Item, catName: string, catColor: string, catIndex: nat, itemIndex: nat, keys: Keys)

  /** `String(item[keys.title] || '').toLowerCase().includes(lowerKeyword)`. */
  predicate TitleMatches(item: Item, keys: Keys, lowerKeyword: string) {
    Contains(ToLower(Prop(item, keys.title)), lowerKeyword)
  }

  /** The title test of a search for `lowerKeyword`, as a value the walk
      below takes. */
  function TitleTest(lowerKeyword: string): (Item, Keys) -> bool {
    (item: Item, keys: Keys) => TitleMatches(item, keys, lowerKeyword)
  }

  /** The results pushed while walking the first `n` items of `cat`, the
      category at `catIndex` whose keys are `keys`; `matches` is the title
      test. */
  function ItemHits(cat: Category, catIndex: nat, keys: Keys, matches: (Item, Keys) -> bool, n: nat): seq<Hit>
    requires n <= |cat.items|
  {
    if n == 0 then []
    else
      var item := cat.items[n - 1];
      ItemHits(cat, catIndex, keys, matches, n - 1)
        + if matches(item, keys) then [Hit(item, cat.name, cat.color, catIndex, n - 1, keys)] else []
  }

  /** The results pushed while walking the first `n` categories, detecting
      each category's keys with `keysOf`. */
  function Walk(data: seq<Category>, keysOf: seq<string> -> Keys, matches: (Item, Keys) -> bool, n: nat): seq<Hit>
    requires n <= |data|
  {
    if n == 0 then []
    else
      var cat := data[n - 1];
      Walk(data, keysOf, matches, n - 1) + ItemHits(cat, n - 1, keysOf(cat.fields), matches, |cat.items|)
  }

  /** The walk of a search for `lowerKeyword` over the first `n` categories. */
  function CategoryHits(data: seq<Category>, lowerKeyword: string, n: nat): seq<Hit>
    requires n <= |data|
  {
    Walk(data, IdentifyFields, TitleTest(lowerKeyword), n)
  }

  /** `h` describes item `h.itemIndex` of category `h.catIndex`, whose title
      contains the lower-cased keyword. */
  predicate IsHit(data: seq<Category>, lowerKeyword: string, h: Hit) {
    && h.catIndex < |data|
    && h.itemIndex < |data[h.catIndex].items|
    && h.item == data[h.catIndex].items[h.itemIndex]
    && h.catName == data[h.catIndex].name
    && h.catColor == data[h.catIndex].color
    && h.keys == IdentifyFields(data[h.catIndex].fields)
    && TitleMatches(h.item, h.keys, lowerKeyword)
  }

  /** `h` describes an item of `cat`, the category at `catIndex` whose keys
      are `keys`, that passes the title test. */
  predicate HitIn(cat: Category, catIndex: nat, keys: Keys, matches: (Item, Keys) -> bool, h: Hit) {
    && h.catIndex == catIndex
    && h.itemIndex < |cat.items|
    && h.item == cat.items[h.itemIndex]
    && h.catName == cat.name
    && h.catColor == cat.color
    && h.keys == keys
    && matches(h.item, keys)
  }

  /** `a` comes from an earlier category than `b`, or from an earlier item
      of the same category. */
  predicate Before(a: Hit, b: Hit) {
    a.catIndex < b.catIndex || (a.catIndex == b.catIndex && a.itemIndex < b.itemIndex)
  }

  lemma {:induction false} ItemHitsExactly(cat: Category, catIndex: nat, keys: Keys, matches: (Item, Keys) -> bool, n: nat, h: Hit)
    requires n <= |cat.items|
    ensures h in ItemHits(cat, catIndex, keys, matches, n) <==> h.itemIndex < n && HitIn(cat, catIndex, keys, matches, h)
  {
    if n > 0 {
      ItemHitsExactly(cat, catIndex, keys, matches, n - 1, h);
      var item := cat.items[n - 1];
      var hit := Hit(item, cat.name, cat.color, catIndex, n - 1, keys);
      var tail := if matches(item, keys) then [hit] else [];
      assert ItemHits(cat, catIndex, keys, matches, n) == ItemHits(cat, catIndex, keys, matches, n - 1) + tail;
      if h.itemIndex == n - 1 {
        assert h in tail <==> h == hit && matches(item, keys);
      } else {
        assert h !in tail;
      }
    }
  }

  lemma {:induction false} WalkExactly(data: seq<Category>, keysOf: seq<string> -> Keys, matches: (Item, Keys) -> bool, n: nat, h: Hit)
    requires n <= |data|
    ensures h in Walk(data, keysOf, matches, n) <==>
      h.catIndex < n && HitIn(data[h.catIndex], h.catIndex, keysOf(data[h.catIndex].fields), matches, h)
  {
    if n > 0 {
      var prev := Walk(data, keysOf, matches, n - 1);
      var cat := data[n - 1];
      var last := ItemHits(cat, n - 1, keysOf(cat.fields), matches, |cat.items|);
      assert Walk(data, keysOf, matches, n) == prev + last;
      WalkExactly(data, keysOf, matches, n - 1, h);
      ItemHitsExactly(cat, n - 1, keysOf(cat.fields), matches, |cat.items|, h);
      if h.catIndex == n - 1 {
        assert h !in prev;
      } else {
        assert h !in last;
      }
    }
  }

  /** The walk of a search pushes exactly the matching items, each with its
      category and item index. */
  lemma CategoryHitsExactly(data: seq<Category>, lowerKeyword: string, h: Hit)
    ensures h in CategoryHits(data, lowerKeyword, |data|) <==> IsHit(data, lowerKeyword, h)
  {
    WalkExactly(data, IdentifyFields, TitleTest(lowerKeyword), |data|, h);
  }

  /** Each result comes before the next, so no result is repeated. */
  predicate Ordered(hs: seq<Hit>) {
    forall i, j :: 0 <= i < j < |hs| ==> Before(hs[i], hs[j])
  }

  /** Every result of the walk over the first `n` items of a category
      names that category and one of those items. */
  lemma {:induction false} ItemHitsBelow(cat: Category, catIndex: nat, keys: Keys, matches: (Item, Keys) -> bool, n: nat)
    requires n <= |cat.items|
    ensures forall h :: h in ItemHits(cat, catIndex, keys, matches, n) ==> h.catIndex == catIndex && h.itemIndex < n
  {
    if n > 0 {
      ItemHitsBelow(cat, catIndex, keys, matches, n - 1);
      var prev := ItemHits(cat, catIndex, keys, matches, n - 1);
      var item := cat.items[n - 1];
      var hit := Hit(item, cat.name, cat.color, catIndex, n - 1, keys);
      var tail := if matches(item, keys) then [hit] else [];
      var hs := ItemHits(cat, catIndex, keys, matches, n);
      assert hs == prev + tail;
      forall h | h in hs ensures h.catIndex == catIndex && h.itemIndex < n {
        assert h in prev || h == hit;
      }
    }
  }

  lemma {:induction false} ItemHitsOrdered(cat: Category, catIndex: nat, keys: Keys, matches: (Item, Keys) -> bool, n: nat)
    requires n <= |cat.items|
    ensures Ordered(ItemHits(cat, catIndex, keys, matches, n))
  {
    if n > 0 {
      ItemHitsOrdered(cat, catIndex, keys, matches, n - 1);
      ItemHitsBelow(cat, catIndex, keys, matches, n - 1);
      var prev := ItemHits(cat, catIndex, keys, matches, n - 1);
      var item := cat.items[n - 1];
      var hit := Hit(item, cat.name, cat.color, catIndex, n - 1, keys);
      var tail := if matches(item, keys) then [hit] else [];
      assert ItemHits(cat, catIndex, keys, matches, n) == prev + tail;
      forall x, y | x in prev && y in tail ensures Before(x, y) {
        assert y == hit;
      }
      OrderedAppend(prev, tail);
    }
  }

  /** Two ordered runs, all of the first before all of the second, make
      one ordered run. */
  lemma OrderedAppend(a: seq<Hit>, b: seq<Hit>)
    requires Ordered(a) && Ordered(b)
    requires forall x, y :: x in a && y in b ==> Before(x, y)
    ensures Ordered(a + b)
  {
    forall i, j | 0 <= i < j < |a + b| ensures Before((a + b)[i], (a + b)[j]) {
      if j < |a| {
      } else if i >= |a| {
        assert (a + b)[i] == b[i - |a|] && (a + b)[j] == b[j - |a|];
      } else {
        assert (a + b)[i] in a && (a + b)[j] in b;
      }
    }
  }

  /** Every result of the walk over the first `n` categories comes from
      one of them. */
  lemma {:induction false} WalkBelow(data: seq<Category>, keysOf: seq<string> -> Keys, matches: (Item, Keys) -> bool, n: nat)
    requires n <= |data|
    ensures forall h :: h in Walk(data, keysOf, matches, n) ==> h.catIndex < n
  {
    if n > 0 {
      WalkBelow(data, keysOf, matches, n - 1);
      var cat := data[n - 1];
      ItemHitsBelow(cat, n - 1, keysOf(cat.fields), matches, |cat.items|);
      var prev := Walk(data, keysOf, matches, n - 1);
      var last := ItemHits(cat, n - 1, keysOf(cat.fields), matches, |cat.items|);
      var hs := Walk(data, keysOf, matches, n);
      assert hs == prev + last;
      forall h | h in hs ensures h.catIndex < n {
        assert h in prev || h in last;
      }
    }
  }

  /** The walk pushes results category by category, item by item. */
  lemma {:induction false} WalkOrdered(data: seq<Category>, keysOf: seq<string> -> Keys, matches: (Item, Keys) -> bool, n: nat)
    requires n <= |data|
    ensures Ordered(Walk(data, keysOf, matches, n))
  {
    if n > 0 {
      WalkOrdered(data, keysOf, matches, n - 1);
      WalkBelow(data, keysOf, matches, n - 1);
      var cat := data[n - 1];
      ItemHitsOrdered(cat, n - 1, keysOf(cat.fields), matches, |cat.items|);
      ItemHitsBelow(cat, n - 1, keysOf(cat.fields), matches, |cat.items|);
      var prev := Walk(data, keysOf, matches, n - 1);
      var last := ItemHits(cat, n - 1, keysOf(cat.fields), matches, |cat.items|);
      assert Walk(data, keysOf, matches, n) == prev + last;
      forall x, y | x in prev && y in last ensures Before(x, y) {
        assert x.catIndex < n - 1 && y.catIndex == n - 1;
      }
      OrderedAppend(prev, last);
    }
  }

  /** What `performSearch(keyword)` shows: the collection's home page for a
      blank keyword, the not-found message, or the sorted results. */
  datatype SearchView = BackHome | NotFound(keyword: string) | Found(keyword: string, hits: seq<Hit>)

  /** A result's date: `a[a._keys.date] || ''`. */
  function HitDate(h: Hit): string {
    Prop(h.item, h.keys.date)
  }

  /** The comparator `(a, b) => dateB.localeCompare(dateA)` as "may stand
      before", where `atMost(x, y)` holds when `x.localeCompare(y) <= 0`:
      later dates first. */
  function NewestFirst(atMost: (string, string) -> bool): (Hit, Hit) -> bool {
    (a: Hit, b: Hit) => atMost(HitDate(b), HitDate(a))
  }

  /** `performSearch(keyword)` with the collation `atMost`. */
  function Search(data: seq<Category>, keyword: string, atMost: (string, string) -> bool): SearchView {
    var k := Trim(keyword);
    if k == "" then BackHome
    else
      var hits := CategoryHits(data, ToLower(k), |data|);
      if hits == [] then NotFound(k) else Found(k, Sort(hits, NewestFirst(atMost)))
  }

  /** A blank keyword filters nothing and returns to the home page; any other
      keyword finds exactly the items whose lower-cased title contains the
      lower-cased trimmed keyword, each with its category and item index. */
  lemma SearchFinds(data: seq<Category>, keyword: string, atMost: (string, string) -> bool, h: Hit)
    ensures Search(data, keyword, atMost).BackHome? <==> Trim(keyword) == ""
    ensures Search(data, keyword, atMost).NotFound? ==> !IsHit(data, ToLower(Trim(keyword)), h)
    ensures Search(data, keyword, atMost).Found? ==>
      (h in Search(data, keyword, atMost).hits <==> IsHit(data, ToLower(Trim(keyword)), h))
  {
    var k := Trim(keyword);
    if k != "" {
      var hits := CategoryHits(data, ToLower(k), |data|);
      CategoryHitsExactly(data, ToLower(k), h);
      assert h in multiset(Sort(hits, NewestFirst(atMost))) <==> h in multiset(hits);
    }
  }

  lemma NewestFirstTotal(atMost: (string, string) -> bool)
    requires TotalPreorder(atMost)
    ensures TotalPreorder(NewestFirst(atMost))
  {
    var le := NewestFirst(atMost);
    forall a, b ensures le(a, b) || le(b, a) {
      assert atMost(HitDate(a), HitDate(b)) || atMost(HitDate(b), HitDate(a));
    }
    forall a, b, c | le(a, b) && le(b, c) ensures le(a, c) {
      assert atMost(HitDate(c), HitDate(b)) && atMost(HitDate(b), HitDate(a));
    }
  }

  /** Each result's date collates at or after the dates of the results
      that follow it. */
  predicate LatestFirst(hits: seq<Hit>, atMost: (string, string) -> bool) {
    forall i, j :: 0 <= i < j < |hits| ==> atMost(HitDate(hits[j]), HitDate(hits[i]))
  }

  /** For a collation that is a total preorder, the results are sorted by
      date, latest first. */
  lemma SearchNewestFirst(data: seq<Category>, keyword: string, atMost: (string, string) -> bool)
    requires TotalPreorder(atMost)
    ensures Search(data, keyword, atMost).Found? ==> LatestFirst(Search(data, keyword, atMost).hits, atMost)
  {
    var k := Trim(keyword);
    if k != "" {
      var hits := CategoryHits(data, ToLower(k), |data|);
      NewestFirstTotal(atMost);
      SortSorted(hits, NewestFirst(atMost));
    }
  }

  /** Results with the same date (those tied with any `e`) keep the order
      of the walk: category by category, item by item. */
  lemma SearchStable(data: seq<Category>, keyword: string, atMost: (string, string) -> bool, e: Hit)
    requires TotalPreorder(atMost)
    ensures Search(data, keyword, atMost).Found? ==>
      Ordered(Filter(Search(data, keyword, atMost).hits, TiedWith(NewestFirst(atMost), e)))
  {
    var k := Trim(keyword);
    if k != "" {
      var hits := CategoryHits(data, ToLower(k), |data|);
      NewestFirstTotal(atMost);
      WalkOrdered(data, IdentifyFields, TitleTest(ToLower(k)), |data|);
      SortedTiesOrdered(hits, NewestFirst(atMost), e);
    }
  }

  /** Sorting ordered results keeps tied results ordered. */
  lemma SortedTiesOrdered(hits: seq<Hit>, le: (Hit, Hit) -> bool, e: Hit)
    requires TotalPreorder(le)
    requires Ordered(hits)
    ensures Ordered(Filter(Sort(hits, le), TiedWith(le, e)))
  {
    SortStable(hits, le, e);
    FilterOrdered(hits, TiedWith(le, e));
  }

  /** A filter keeps the elements it keeps in their order. */
  lemma {:induction false} FilterOrdered(hits: seq<Hit>, p: Hit -> bool)
    requires Ordered(hits)
    ensures Ordered(Filter(hits, p))
  {
    if hits != [] {
      var init := hits[..|hits| - 1];
      FilterOrdered(init, p);
      var f := Filter(init, p);
      forall i | 0 <= i < |f| ensures Before(f[i], hits[|hits| - 1]) {
        FilterMembers(init, p, f[i]);
      }
    }
  }

  // ---------------------------------------------------------------------
  // Grouping by title
  // ---------------------------------------------------------------------

  /** `{ ...item, _originalIndex: idx }`. */
  datatype Indexed = Indexed(item: Item, index: nat)

  /** `category.items.map((item, idx) => ({ ...item, _originalIndex: idx }))`. */
  function WithIndex(items: seq<Item>): (r: seq<Indexed>)
    ensures |r| == |items|
    ensures forall i :: 0 <= i < |items| ==> r[i] == Indexed(items[i], i)
  {
    seq(|items|, i requires 0 <= i < |items| => Indexed(items[i], i))
  }

  /** The group an item lands in: its title, or `'未命名'` for an empty one. */
  const Unnamed: string := "未命名"

  function GroupName(item: Item, keys: Keys): (r: string)
    ensures r != ""
  {
    var t := Prop(item, keys.title);
    if t == "" then Unnamed else t
  }

  function Named(keys: Keys, name: string): Indexed -> bool {
    (x: Indexed) => GroupName(x.item, keys) == name
  }

  /** `groups[name]` while the groups are being filled. */
  datatype Bucket = Bucket(name: string, members: seq<Indexed>)

  /** Where the bucket of `name` is, or `|bs|` when there is none yet. */
  function BucketIndex(bs: seq<Bucket>, name: string): (r: nat)
    ensures r <= |bs|
    ensures r < |bs| ==> bs[r].name == name
    ensures forall k :: 0 <= k < r ==> bs[k].name != name
  {
    FirstIndex(bs, (b: Bucket) => b.name == name)
  }

  /** `if (!groups[name]) groups[name] = []; groups[name].push(item);` */
  function Push(bs: seq<Bucket>, keys: Keys, x: Indexed): seq<Bucket> {
    var name := GroupName(x.item, keys);
    var k := BucketIndex(bs, name);
    if k < |bs| then bs[k := Bucket(name, bs[k].members + [x])] else bs + [Bucket(name, [x])]
  }

  /** The groups after `itemsWithIndex.forEach(...)`, in order of creation. */
  function Buckets(xs: seq<Indexed>, keys: Keys): seq<Bucket> {
    if xs == [] then [] else Push(Buckets(xs[..|xs| - 1], keys), keys, xs[|xs| - 1])
  }

  /** `bs` groups `xs` by name: distinct names, each bucket non-empty and
      holding exactly the elements of its name in their original order, and
      a bucket for the name of every element. */
  predicate BucketsOf(bs: seq<Bucket>, xs: seq<Indexed>, keys: Keys) {
    DistinctNames(bs) && ExactMembers(bs, xs, keys) && Covers(bs, xs, keys)
  }

  predicate DistinctNames(bs: seq<Bucket>) {
    forall i, j :: 0 <= i < j < |bs| ==> bs[i].name != bs[j].name
  }

  predicate ExactMembers(bs: seq<Bucket>, xs: seq<Indexed>, keys: Keys) {
    forall i :: 0 <= i < |bs| ==> bs[i].members != [] && bs[i].members == Filter(xs, Named(keys, bs[i].name))
  }

  predicate Covers(bs: seq<Bucket>, xs: seq<Indexed>, keys: Keys) {
    forall x :: x in xs ==> exists i :: 0 <= i < |bs| && bs[i].name == GroupName(x.item, keys)
  }

  lemma {:induction false} BucketsSpec(xs: seq<Indexed>, keys: Keys)
    ensures BucketsOf(Buckets(xs, keys), xs, keys)
  {
    if xs != [] {
      var init, x := xs[..|xs| - 1], xs[|xs| - 1];
      assert xs == init + [x];
      BucketsSpec(init, keys);
      PushDistinct(Buckets(init, keys), keys, x);
      PushMembers(Buckets(init, keys), init, keys, x);
      PushCovers(Buckets(init, keys), init, keys, x);
    }
  }

  lemma PushDistinct(bs: seq<Bucket>, keys: Keys, x: Indexed)
    requires DistinctNames(bs)
    ensures DistinctNames(Push(bs, keys, x))
  {
  }

  lemma PushMembers(bs: seq<Bucket>, init: seq<Indexed>, keys: Keys, x: Indexed)
    requires BucketsOf(bs, init, keys)
    ensures ExactMembers(Push(bs, keys, x), init + [x], keys)
  {
    var name := GroupName(x.item, keys);
    var k := BucketIndex(bs, name);
    var r := Push(bs, keys, x);
    forall i | 0 <= i < |r|
      ensures r[i].members != [] && r[i].members == Filter(init + [x], Named(keys, r[i].name))
    {
      var p := Named(keys, r[i].name);
      FilterAppend(init, [x], p);
      FilterSingleton(x, p);
      if i < |bs| {
        assert bs[i].members == Filter(init, p);
        if i == k {
          assert r[i] == Bucket(name, bs[i].members + [x]);
        } else {
          assert bs[i].name != name;
          assert r[i] == bs[i];
        }
      } else {
        forall j | 0 <= j < |init| ensures !p(init[j]) {
          assert init[j] in init;
        }
        FilterNone(init, p);
      }
    }
  }

  lemma PushCovers(bs: seq<Bucket>, init: seq<Indexed>, keys: Keys, x: Indexed)
    requires Covers(bs, init, keys)
    ensures Covers(Push(bs, keys, x), init + [x], keys)
  {
    var r := Push(bs, keys, x);
    var k := BucketIndex(bs, GroupName(x.item, keys));
    forall y | y in init + [x] ensures exists i :: 0 <= i < |r| && r[i].name == GroupName(y.item, keys) {
      if y in init {
        var i :| 0 <= i < |bs| && bs[i].name == GroupName(y.item, keys);
        assert r[i].name == bs[i].name;
      } else {
        assert r[k].name == GroupName(x.item, keys);
      }
    }
  }

  /** A group of `renderCategoryList`: its name, its items latest first, how
      many there are, the latest date, and the latest item. (Its price range
      is not modelled.) */
  datatype Group = Group(name: string, items: seq<Indexed>, count: nat, latestDate: string, latestItem: Indexed)

  /** The comparator `(a, b) => dB.localeCompare(dA)` on the date field. */
  function NewestItemFirst(keys: Keys, atMost: (string, string) -> bool): (Indexed, Indexed) -> bool {
    (a: Indexed, b: Indexed) => atMost(Prop(b.item, keys.date), Prop(a.item, keys.date))
  }

  /** The group made from one bucket: its items sorted latest first, then
      counted, with the first one as the latest. */
  function GroupOf(b: Bucket, keys: Keys, atMost: (string, string) -> bool): Group
    requires b.members != []
  {
    var items := Sort(b.members, NewestItemFirst(keys, atMost));
    assert |items| == |multiset(items)| == |multiset(b.members)|;
    Group(b.name, items, |items|, Prop(items[0].item, keys.date), items[0])
  }

  /** The bound on array indices: `String(n)` names an array index for
      `n < 2^32 - 1` (section 6.1.7 of ECMAScript). */
  const ArrayIndexLimit: nat := 0xFFFF_FFFF

  /** `name` is an array index: the decimal digits of a number below the
      bound, with no leading zero. */
  predicate IsArrayIndex(name: string) {
    && name != []
    && (forall k :: 0 <= k < |name| ==> IsDigit(name[k]))
    && (name[0] == '0' ==> |name| == 1)
    && DecimalValue(name) < ArrayIndexLimit
  }

  /** Where `Object.keys` lists a property (section 10.1.11.1 of
      ECMAScript, OrdinaryOwnPropertyKeys): array indices first, by value,
      then every other name in the order the properties were created. */
  function KeyRank(name: string): nat {
    if IsArrayIndex(name) then DecimalValue(name) else ArrayIndexLimit
  }

  function KeyOrder(): (Bucket, Bucket) -> bool {
    (a: Bucket, b: Bucket) => KeyRank(a.name) <= KeyRank(b.name)
  }

  lemma KeyOrderTotal()
    ensures TotalPreorder(KeyOrder())
  {
  }

  /** The buckets in the order `Object.keys(groups)` lists their names: the
      creation order re-sorted, stably, by key rank. */
  function GroupBuckets(items: seq<Item>, keys: Keys): seq<Bucket> {
    Sort(Buckets(WithIndex(items), keys), KeyOrder())
  }

  /** Listing the buckets in key order keeps them a grouping of the items. */
  lemma GroupBucketsSpec(items: seq<Item>, keys: Keys)
    ensures BucketsOf(GroupBuckets(items, keys), WithIndex(items), keys)
  {
    var xs := WithIndex(items);
    BucketsSpec(xs, keys);
    BucketsPermuted(Buckets(xs, keys), GroupBuckets(items, keys), xs, keys);
  }

  /** Any reordering of a grouping is a grouping. */
  lemma BucketsPermuted(bs: seq<Bucket>, ks: seq<Bucket>, xs: seq<Indexed>, keys: Keys)
    requires BucketsOf(bs, xs, keys) && multiset(ks) == multiset(bs)
    ensures BucketsOf(ks, xs, keys)
  {
    forall i | 0 <= i < |ks| ensures ks[i].members != [] && ks[i].members == Filter(xs, Named(keys, ks[i].name)) {
      assert ks[i] in multiset(bs);
    }
    forall x | x in xs ensures exists i :: 0 <= i < |ks| && ks[i].name == GroupName(x.item, keys) {
      var i :| 0 <= i < |bs| && bs[i].name == GroupName(x.item, keys);
      assert bs[i] in multiset(ks);
      var j :| 0 <= j < |ks| && ks[j] == bs[i];
    }
    forall i, j | 0 <= i < j < |ks| ensures ks[i].name != ks[j].name {
      if ks[i].name == ks[j].name {
        assert ks[i] in multiset(bs) && ks[j] in multiset(bs);
        var p :| 0 <= p < |bs| && bs[p] == ks[i];
        var q :| 0 <= q < |bs| && bs[q] == ks[j];
        assert p == q;
        TwiceCounted(ks, i, j);
        forall a, b | 0 <= a < b < |bs| ensures bs[a] != bs[b] {
          assert bs[a].name != bs[b].name;
        }
        DistinctOnce(bs, p);
        assert false;
      }
    }
  }

  /** `Object.keys(groups).map(...)` over the items of a category, with the
      category's keys, before the groups themselves are sorted. */
  function Grouping(items: seq<Item>, keys: Keys, atMost: (string, string) -> bool): seq<Group> {
    var bs := GroupBuckets(items, keys);
    GroupBucketsSpec(items, keys);
    seq(|bs|, i requires 0 <= i < |bs| => GroupOf(bs[i], keys, atMost))
  }

  /** The group names, in the order of the groups. */
  predicate RankedNames(gs: seq<Group>) {
    forall g, h :: 0 <= g < h < |gs| ==> KeyRank(gs[g].name) <= KeyRank(gs[h].name)
  }

  predicate TextNamed(b: Bucket) {
    !IsArrayIndex(b.name)
  }

  /** The buckets are listed by ascending key rank. */
  lemma GroupBucketsRanked(items: seq<Item>, keys: Keys)
    ensures var ks := GroupBuckets(items, keys);
      forall g, h :: 0 <= g < h < |ks| ==> KeyRank(ks[g].name) <= KeyRank(ks[h].name)
  {
    KeyOrderTotal();
    SortSorted(Buckets(WithIndex(items), keys), KeyOrder());
  }

  /** Buckets whose names are not array indices keep their creation order. */
  lemma GroupBucketsKeepTextOrder(items: seq<Item>, keys: Keys)
    ensures Filter(GroupBuckets(items, keys), TextNamed) == Filter(Buckets(WithIndex(items), keys), TextNamed)
  {
    var bs := Buckets(WithIndex(items), keys);
    var ks := GroupBuckets(items, keys);
    var e := Bucket(Unnamed, []);
    assert !IsDigit(Unnamed[0]);
    assert !IsArrayIndex(e.name);
    SortStable(bs, KeyOrder(), e);
    forall i | 0 <= i < |ks| ensures TiedWith(KeyOrder(), e)(ks[i]) == TextNamed(ks[i]) {
    }
    forall i | 0 <= i < |bs| ensures TiedWith(KeyOrder(), e)(bs[i]) == TextNamed(bs[i]) {
    }
    FilterSame(ks, TiedWith(KeyOrder(), e), TextNamed);
    FilterSame(bs, TiedWith(KeyOrder(), e), TextNamed);
  }

  /** The groups come in `Object.keys` order: names that are array indices
      first, in ascending numeric order, then the other names in the order
      their groups were created, which is the order of their first items. */
  lemma GroupingKeyOrder(items: seq<Item>, keys: Keys, atMost: (string, string) -> bool)
    ensures RankedNames(Grouping(items, keys, atMost))
    ensures Filter(GroupBuckets(items, keys), TextNamed) == Filter(Buckets(WithIndex(items), keys), TextNamed)
  {
    var ks := GroupBuckets(items, keys);
    var gs := Grouping(items, keys, atMost);
    GroupBucketsRanked(items, keys);
    GroupingBuckets(items, keys, atMost);
    forall g, h | 0 <= g < h < |gs| ensures KeyRank(gs[g].name) <= KeyRank(gs[h].name) {
      assert gs[g].name == ks[g].name && gs[h].name == ks[h].name;
    }
    GroupBucketsKeepTextOrder(items, keys);
  }

  /** Some item's group name is inherited: `groups[name]` is then already
      set (to a method, or to `Object.prototype` for `__proto__`), so
      `groups[name] = []` is skipped and `groups[name].push` throws a
      `TypeError`. */
  predicate GroupingThrows(items: seq<Item>, keys: Keys) {
    exists k :: 0 <= k < |items| && GroupName(items[k], keys) in InheritedNames
  }

  /** What `renderCategoryList` shows of category `cat`: `None` when
      building its groups throws, otherwise its groups (none for an empty
      category, whose placeholder is shown instead). */
  function CategoryView(cat: Category, atMost: (string, string) -> bool): Option<seq<Group>> {
    var keys := IdentifyFields(cat.fields);
    if GroupingThrows(cat.items, keys) then None else Some(Grouping(cat.items, keys, atMost))
  }

  /** An item titled after an inherited name, wherever it stands, makes the
      whole list fail; otherwise every item lands in exactly one group. */
  lemma CategoryViewOutcome(cat: Category, atMost: (string, string) -> bool, k: nat)
    requires k < |cat.items|
    ensures GroupName(cat.items[k], IdentifyFields(cat.fields)) in InheritedNames ==> CategoryView(cat, atMost).None?
    ensures CategoryView(cat, atMost).Some? ==>
      var gs := CategoryView(cat, atMost).value;
      && DistinctGroups(gs)
      && HasGroupFor(gs, cat.items, IdentifyFields(cat.fields), k)
      && InOwnGroupOnce(gs, cat.items, IdentifyFields(cat.fields), k)
  {
    GroupingPartition(cat.items, IdentifyFields(cat.fields), atMost, k);
  }

  /** A title field that an item lacks but that names an inherited member
      reads that member: with the field `constructor`, an empty item lands
      in the group named by the text of `Object`, and with the field
      `toString`, a search for `native` finds it. */
  lemma InheritedTitleRead()
    ensures GroupName(map[], Keys(Some("constructor"), None, None)) == "function Object() { [native code] }"
    ensures TitleMatches(map[], Keys(Some("toString"), None, None), "native")
  {
    InheritedTitleGroup();
    InheritedTitleSearch();
  }

  lemma InheritedTitleGroup()
    ensures GroupName(map[], Keys(Some("constructor"), None, None)) == "function Object() { [native code] }"
  {
    var text := Prop(map[], Some("constructor"));
    assert text == "function " + "Object" + "() { [native code] }";
    assert text != "";
  }

  lemma InheritedTitleSearch()
    ensures TitleMatches(map[], Keys(Some("toString"), None, None), "native")
  {
    var text := Prop(map[], Some("toString"));
    assert text == InheritedText("toString");
    var t := ToLower(text);
    assert |t| == |text| && text[23..29] == "native";
    forall k | 23 <= k < 29 ensures t[k] == text[k] {
    }
    assert t[23..29] == "native";
    assert InfixAt(t, "native", 23);
  }

  /** Items titled `b`, `7` and `3`, in that order, are grouped as `3`, `7`,
      `b`: the numeric names come first, in numeric order. */
  lemma NumericTitlesFirst(title: string)
    requires title != "" && title != "undefined"
    ensures var r := GroupBuckets([map[title := "b"], map[title := "7"], map[title := "3"]], Keys(Some(title), None, None));
      |r| == 3 && r[0].name == "3" && r[1].name == "7" && r[2].name == "b"
  {
    var items := [map[title := "b"], map[title := "7"], map[title := "3"]];
    var xs := WithIndex(items);
    var b, n7, n3 := Bucket("b", [xs[0]]), Bucket("7", [xs[1]]), Bucket("3", [xs[2]]);
    ExampleBuckets(title);
    assert Buckets(xs, Keys(Some(title), None, None)) == [b, n7, n3];
    ExampleSort(b, n7, n3);
  }

  lemma ExampleBuckets(title: string)
    requires title != "" && title != "undefined"
    ensures var xs := WithIndex([map[title := "b"], map[title := "7"], map[title := "3"]]);
      Buckets(xs, Keys(Some(title), None, None)) == [Bucket("b", [xs[0]]), Bucket("7", [xs[1]]), Bucket("3", [xs[2]])]
  {
    var keys := Keys(Some(title), None, None);
    var xs := WithIndex([map[title := "b"], map[title := "7"], map[title := "3"]]);
    assert GroupName(xs[0].item, keys) == "b";
    assert GroupName(xs[1].item, keys) == "7";
    assert GroupName(xs[2].item, keys) == "3";
    assert xs[..2][..1] == xs[..1] && xs[..1][..0] == [];
    assert Buckets(xs[..1], keys) == [Bucket("b", [xs[0]])];
    assert Buckets(xs[..2], keys) == [Bucket("b", [xs[0]]), Bucket("7", [xs[1]])];
  }

  lemma ExampleSort(b: Bucket, n7: Bucket, n3: Bucket)
    requires b.name == "b" && n7.name == "7" && n3.name == "3"
    ensures Sort([b, n7, n3], KeyOrder()) == [n3, n7, b]
  {
    ExampleRanks();
    SortReversed(b, n7, n3, KeyOrder());
  }

  /** Three elements each strictly above the next sort into reverse order. */
  lemma SortReversed(x: Bucket, y: Bucket, z: Bucket, le: (Bucket, Bucket) -> bool)
    requires !le(x, y) && !le(x, z) && !le(y, z)
    ensures Sort([x, y, z], le) == [z, y, x]
  {
    SortLast(x, y, z, le);
    SortTwoReversed(x, y, le);
    InsertBelowTwo(z, y, x, le);
  }

  lemma SortLast(x: Bucket, y: Bucket, z: Bucket, le: (Bucket, Bucket) -> bool)
    ensures Sort([x, y, z], le) == Insert(z, Sort([x, y], le), le)
  {
    assert [x, y, z][..2] == [x, y];
  }

  lemma SortTwoReversed(x: Bucket, y: Bucket, le: (Bucket, Bucket) -> bool)
    requires !le(x, y)
    ensures Sort([x, y], le) == [y, x]
  {
    assert [x][..0] == [] && [x, y][..1] == [x];
    assert Sort([x], le) == [x];
  }

  lemma InsertBelowTwo(z: Bucket, y: Bucket, x: Bucket, le: (Bucket, Bucket) -> bool)
    requires !le(x, z) && !le(y, z)
    ensures Insert(z, [y, x], le) == [z, y, x]
  {
    InsertBelowLast(z, [y, x], le);
    assert [y, x][..1] == [y];
    InsertBelowLast(z, [y], le);
    assert [y][..0] == [];
  }

  lemma InsertBelowLast(z: Bucket, s: seq<Bucket>, le: (Bucket, Bucket) -> bool)
    requires s != [] && !le(s[|s| - 1], z)
    ensures Insert(z, s, le) == Insert(z, s[..|s| - 1], le) + [s[|s| - 1]]
  {
  }

  lemma ExampleRanks()
    ensures KeyRank("7") == 7 && KeyRank("3") == 3 && KeyRank("b") == ArrayIndexLimit
  {
    assert DecimalValue("7") == 7 by { assert "7"[..0] == []; }
    assert DecimalValue("3") == 3 by { assert "3"[..0] == []; }
  }

  /** `gs` are the groups made from the buckets `bs`: same names, same
      members. */
  predicate FromBuckets(gs: seq<Group>, bs: seq<Bucket>) {
    && |gs| == |bs|
    && forall g :: 0 <= g < |gs| ==>
         gs[g].name == bs[g].name && bs[g].members != [] && multiset(gs[g].items) == multiset(bs[g].members)
  }

  lemma GroupingBuckets(items: seq<Item>, keys: Keys, atMost: (string, string) -> bool)
    ensures FromBuckets(Grouping(items, keys, atMost), GroupBuckets(items, keys))
  {
    GroupBucketsSpec(items, keys);
  }

  /** No two groups have the same name. */
  predicate DistinctGroups(gs: seq<Group>) {
    forall g, h :: 0 <= g < h < |gs| ==> gs[g].name != gs[h].name
  }

  /** Some group has item `k`'s name. */
  predicate HasGroupFor(gs: seq<Group>, items: seq<Item>, keys: Keys, k: nat)
    requires k < |items|
  {
    exists g :: 0 <= g < |gs| && gs[g].name == GroupName(items[k], keys)
  }

  /** Item `k` is in the group of its name once and in no other group. */
  predicate InOwnGroupOnce(gs: seq<Group>, items: seq<Item>, keys: Keys, k: nat)
    requires k < |items|
  {
    forall g :: 0 <= g < |gs| ==>
      multiset(gs[g].items)[Indexed(items[k], k)] == if gs[g].name == GroupName(items[k], keys) then 1 else 0
  }

  /** Every item lands in exactly one group, once: the group of its title
      (or `'未命名'`), and group names are distinct. */
  lemma GroupingPartition(items: seq<Item>, keys: Keys, atMost: (string, string) -> bool, k: nat)
    requires k < |items|
    ensures DistinctGroups(Grouping(items, keys, atMost))
    ensures HasGroupFor(Grouping(items, keys, atMost), items, keys, k)
    ensures InOwnGroupOnce(Grouping(items, keys, atMost), items, keys, k)
  {
    var xs := WithIndex(items);
    var bs := GroupBuckets(items, keys);
    var gs := Grouping(items, keys, atMost);
    GroupBucketsSpec(items, keys);
    GroupingBuckets(items, keys, atMost);
    GroupsDistinct(gs, bs);
    GroupFor(gs, bs, items, keys, k);
    GroupOnce(gs, bs, items, keys, k);
  }

  lemma GroupsDistinct(gs: seq<Group>, bs: seq<Bucket>)
    requires FromBuckets(gs, bs) && DistinctNames(bs)
    ensures DistinctGroups(gs)
  {
  }

  lemma GroupFor(gs: seq<Group>, bs: seq<Bucket>, items: seq<Item>, keys: Keys, k: nat)
    requires k < |items|
    requires FromBuckets(gs, bs) && Covers(bs, WithIndex(items), keys)
    ensures HasGroupFor(gs, items, keys, k)
  {
    var x := WithIndex(items)[k];
    assert x in WithIndex(items);
    var w :| 0 <= w < |bs| && bs[w].name == GroupName(x.item, keys);
    assert gs[w].name == bs[w].name;
  }

  lemma GroupOnce(gs: seq<Group>, bs: seq<Bucket>, items: seq<Item>, keys: Keys, k: nat)
    requires k < |items|
    requires FromBuckets(gs, bs) && ExactMembers(bs, WithIndex(items), keys)
    ensures InOwnGroupOnce(gs, items, keys, k)
  {
    var xs := WithIndex(items);
    var x := Indexed(items[k], k);
    IndexedOnce(items, k);
    forall g | 0 <= g < |gs|
      ensures multiset(gs[g].items)[x] == if gs[g].name == GroupName(items[k], keys) then 1 else 0
    {
      FilterMultiset(xs, Named(keys, bs[g].name), x);
    }
  }

  /** Item `k` occurs once among the indexed items. */
  lemma IndexedOnce(items: seq<Item>, k: nat)
    requires k < |items|
    ensures multiset(WithIndex(items))[Indexed(items[k], k)] == 1
  {
    var xs := WithIndex(items);
    forall a, b | 0 <= a < b < |xs| ensures xs[a] != xs[b] {
      assert xs[a].index == a && xs[b].index == b;
    }
    DistinctOnce(xs, k);
  }

  lemma NewestItemFirstTotal(keys: Keys, atMost: (string, string) -> bool)
    requires TotalPreorder(atMost)
    ensures TotalPreorder(NewestItemFirst(keys, atMost))
  {
    var le := NewestItemFirst(keys, atMost);
    forall a, b ensures le(a, b) || le(b, a) {
      assert atMost(Prop(a.item, keys.date), Prop(b.item, keys.date)) || atMost(Prop(b.item, keys.date), Prop(a.item, keys.date));
    }
    forall a, b, c | le(a, b) && le(b, c) ensures le(a, c) {
      assert atMost(Prop(c.item, keys.date), Prop(b.item, keys.date)) && atMost(Prop(b.item, keys.date), Prop(a.item, keys.date));
    }
  }

  /** Each group is non-empty; its items are exactly the items of its name
      (as often as they occur), latest first; its count is their number and
      its latest item and date are those of the first. */
  lemma GroupingGroups(items: seq<Item>, keys: Keys, atMost: (string, string) -> bool, g: nat)
    requires TotalPreorder(atMost)
    requires g < |Buckets(WithIndex(items), keys)|
    ensures g < |Grouping(items, keys, atMost)|
    ensures var gr := Grouping(items, keys, atMost)[g];
      && gr.count == |gr.items| > 0
      && multiset(gr.items) == multiset(Filter(WithIndex(items), Named(keys, gr.name)))
      && (forall i :: 0 <= i < |gr.items| ==> GroupName(gr.items[i].item, keys) == gr.name)
      && (forall i, j :: 0 <= i < j < |gr.items| ==>
            atMost(Prop(gr.items[j].item, keys.date), Prop(gr.items[i].item, keys.date)))
      && gr.latestItem == gr.items[0]
      && gr.latestDate == Prop(gr.items[0].item, keys.date)
  {
    var xs := WithIndex(items);
    var bs := GroupBuckets(items, keys);
    GroupBucketsSpec(items, keys);
    assert |bs| == |multiset(bs)| == |Buckets(xs, keys)|;
    var gr := Grouping(items, keys, atMost)[g];
    var le := NewestItemFirst(keys, atMost);
    NewestItemFirstTotal(keys, atMost);
    SortSorted(bs[g].members, le);
    forall i | 0 <= i < |gr.items| ensures GroupName(gr.items[i].item, keys) == gr.name {
      assert gr.items[i] in multiset(bs[g].members);
      FilterMembers(xs, Named(keys, gr.name), gr.items[i]);
    }
  }
}
