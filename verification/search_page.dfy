/** The search page (src/app/search/page.tsx): category icon and badge
    lookups, blank-query gating of the search, and which of the page's
    views is shown. */
module SearchPage {
  import opened Common
  import opened Types
  import Tricks

  const FallbackIcon: string := "🎯"
  const FallbackBadge: string := ""

  function CategoryIcons(): (m: map<string, string>)
    ensures forall k :: k in m ==> m[k] != ""
  {
    map[
      "大皿系" := "🍽️",
      "小皿系" := "🥣",
      "中皿系" := "🥏",
      "灯台系" := "🗼",
      "飛行機系" := "✈️",
      "とめけん系" := "📍",
      "回転系" := "🔄",
      "糸技系" := "🧵"]
  }

  function CategoryBadges(): (m: map<string, string>)
    ensures forall k :: k in m ==> m[k] != ""
  {
    map[
      "大皿系" := "基本",
      "小皿系" := "基本",
      "中皿系" := "基本",
      "灯台系" := "静止",
      "飛行機系" := "回転",
      "とめけん系" := "刺し",
      "回転系" := "回転",
      "糸技系" := "糸技"]
  }

  /** Both tables are keyed by exactly the eight category literals. */
  lemma TablesKeyedByCategories(s: string)
    ensures s in CategoryIcons() <==> ParseCategory(s).Some?
    ensures s in CategoryBadges() <==> ParseCategory(s).Some?
  {
  }

  /** The property names every object literal inherits from
      `Object.prototype`; indexing a lookup table with one of them finds a
      function or an object instead of `undefined`. */
  const InheritedNames: set<string> := {
    "constructor", "hasOwnProperty", "isPrototypeOf", "propertyIsEnumerable",
    "toLocaleString", "toString", "valueOf", "__proto__",
    "__defineGetter__", "__defineSetter__", "__lookupGetter__", "__lookupSetter__"}

  /** What a table lookup followed by `|| fallback` yields: a text, or an
      inherited member of the table object, which is truthy and so wins over
      the fallback. */
  datatype Shown = Text(text: string) | InheritedMember(name: string)

  /** `table[key] || fallback` on an object literal with string values. */
  function LookUp(table: map<string, string>, key: string, fallback: string): (r: Shown)
    ensures key in table && table[key] != "" ==> r == Text(table[key])
    ensures key in table && table[key] == "" ==> r == Text(fallback)
    ensures key !in table && key in InheritedNames ==> r == InheritedMember(key)
    ensures key !in table && key !in InheritedNames ==> r == Text(fallback)
  {
    match Get(table, key)
    case Some(v) => Text(OrElse(Some(v), fallback))
    case None => if key in InheritedNames then InheritedMember(key) else Text(fallback)
  }

  /** No category literal names an inherited property. */
  lemma CategoriesAreNotInherited(s: string)
    requires ParseCategory(s).Some?
    ensures s !in InheritedNames
  {
    var c := ParseCategory(s).value;
    assert CategoryName(c) == s;
  }

  /** `getCategoryIcon`: the icon of a category literal; an inherited
      property name finds that member; any other string gets the fallback icon. */
  function CategoryIcon(category: string): (r: Shown)
    ensures ParseCategory(category).Some? ==> r == Text(CategoryIcons()[category]) && r != Text(FallbackIcon)
    ensures ParseCategory(category).None? && category in InheritedNames ==> r == InheritedMember(category)
    ensures ParseCategory(category).None? && category !in InheritedNames ==> r == Text(FallbackIcon)
  {
    TablesKeyedByCategories(category);
    LookUp(CategoryIcons(), category, FallbackIcon)
  }

  /** `getCategoryBadge`: the badge text of a category literal; an inherited
      property name finds that member; any other string gets "". */
  function CategoryBadge(category: string): (r: Shown)
    ensures ParseCategory(category).Some? ==> r == Text(CategoryBadges()[category]) && r.text != ""
    ensures ParseCategory(category).None? && category in InheritedNames ==> r == InheritedMember(category)
    ensures ParseCategory(category).None? && category !in InheritedNames ==> r == Text(FallbackBadge)
  {
    TablesKeyedByCategories(category);
    LookUp(CategoryBadges(), category, FallbackBadge)
  }

  /** Every category of the union type, which is what the page passes, has
      its own icon and a non-empty badge text. */
  lemma EveryCategoryIsDecorated(c: Category)
    ensures CategoryIcon(CategoryName(c)).Text? && CategoryIcon(CategoryName(c)) != Text(FallbackIcon)
    ensures CategoryBadge(CategoryName(c)).Text? && CategoryBadge(CategoryName(c)) != Text(FallbackBadge)
  {
    CategoryNameRoundTrip(c);
  }

  /** The memoised search results: nothing for a blank query, otherwise the
      catalogue search run on the query as typed, without trimming it. */
  function SearchResults(data: seq<Trick>, query: string): (r: seq<Trick>)
    ensures IsBlank(query) ==> r == []
    ensures !IsBlank(query) ==> r == Tricks.SearchTricks(data, query)
    ensures forall t :: t in r <==> !IsBlank(query) && t in data && Tricks.MatchesQuery(t, Lower(query))
    ensures IsSubsequence(r, data)
  {
    if Trim(query) == "" then [] else Tricks.SearchTricks(data, query)
  }

  /** What the page shows below the search bar. */
  datatype View =
    | Browse(recent: seq<Trick>, listed: seq<Trick>)  // recent records and the browse list
    | Results(items: seq<Trick>)                      // a non-empty result list
    | NoResults                                       // the "not found" message

  const RecentCount: int := 4
  const ListedCount: int := 10

  /** The view for a query: browsing iff the trimmed query is empty, "not found"
      iff it is not and the search finds nothing; the browse lists are the first
      four and the first ten tricks of the catalogue. */
  function PageView(data: seq<Trick>, query: string): (v: View)
    ensures v.Browse? <==> IsBlank(query)
    ensures v.NoResults? <==> !IsBlank(query) && SearchResults(data, query) == []
    ensures v.Results? ==> v.items == SearchResults(data, query) && |v.items| > 0
    ensures v.Browse? ==> IsPrefix(v.recent, data) && |v.recent| == Min(RecentCount, |data|)
    ensures v.Browse? ==> IsPrefix(v.listed, data) && |v.listed| == Min(ListedCount, |data|)
  {
    if Trim(query) != "" then
      var results := SearchResults(data, query);
      if |results| > 0 then Results(results) else NoResults
    else
      Browse(SliceTo(data, RecentCount), SliceTo(data, ListedCount))
  }
}
