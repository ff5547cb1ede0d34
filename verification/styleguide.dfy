/**
 * The styleguide page: the category filter, the grouping of the filtered
 * styles by category, the `loadStyles` handler's loading and error flags,
 * and which of its screens the page shows.
 */
module Styleguide {
  import opened Wrappers
  import opened Records
  import opened StylesService
  import Seqs

  /** The pseudo-category of the "All" button. */
  const AllCategories: string := "all"

  /** `filteredStyles`: everything under "all", otherwise the styles of the selected category in list order. */
  function FilterStyles(styles: seq<Style>, selected: string): (r: seq<Style>)
    ensures selected == AllCategories ==> r == styles
    ensures selected != AllCategories ==> forall s :: s in r <==> s in styles && s.category == selected
    ensures selected != AllCategories ==> Seqs.IsSubsequence(r, styles)
    ensures selected != AllCategories ==>
      forall s :: multiset(r)[s] == if s.category == selected then multiset(styles)[s] else 0
  {
    if selected == AllCategories then styles
    else
      var r := Seqs.Filter(InCategory(selected), styles);
      Seqs.FilterIsSubsequence(InCategory(selected), styles);
      assert forall s :: multiset(r)[s] == if s.category == selected then multiset(styles)[s] else 0 by {
        forall s
          ensures multiset(r)[s] == if s.category == selected then multiset(styles)[s] else 0
        {
          Seqs.FilterCounts(InCategory(selected), styles, s);
        }
      }
      r
  }

  /** The group stored under `c`, or none yet. */
  function GroupOf(g: map<string, seq<Style>>, c: string): seq<Style> {
    if c in g then g[c] else []
  }

  /**
   * `groupedStyles` as the code evidently intends it: a fold over the
   * filtered list that appends each style to the group of its category,
   * creating the group on first use.
   */
  function GroupStyles(s: seq<Style>): (g: map<string, seq<Style>>)
    ensures forall c :: c in g ==> |g[c]| > 0
  {
    if |s| == 0 then map[]
    else
      var g := GroupStyles(s[..|s| - 1]);
      var x := s[|s| - 1];
      g[x.category := GroupOf(g, x.category) + [x]]
  }

  /** Each group holds exactly its category's styles, in list order. */
  lemma {:induction false} GroupHoldsItsCategory(s: seq<Style>, c: string)
    ensures GroupOf(GroupStyles(s), c) == Seqs.Filter(InCategory(c), s)
    decreases |s|
  {
    if |s| > 0 {
      var init := s[..|s| - 1];
      var x := s[|s| - 1];
      GroupHoldsItsCategory(init, c);
      Seqs.FilterSnoc(InCategory(c), init, x);
      assert s == init + [x];
    }
  }

  /** A group exists exactly for the categories present, and none is empty. */
  lemma {:induction false} GroupKeysAreCategories(s: seq<Style>, c: string)
    ensures c in GroupStyles(s) <==> HasCategory(s, c)
    ensures c in GroupStyles(s) ==> |GroupStyles(s)[c]| > 0
    decreases |s|
  {
    if |s| > 0 {
      var init := s[..|s| - 1];
      var x := s[|s| - 1];
      GroupKeysAreCategories(init, c);
      if HasCategory(init, c) {
        var i :| 0 <= i < |init| && init[i].category == c;
        assert s[i] == init[i];
      }
      if HasCategory(s, c) && c != x.category {
        var i :| 0 <= i < |s| && s[i].category == c;
        assert init[i] == s[i];
      }
      if c == x.category {
        assert s[|s| - 1].category == c;
      }
    }
  }

  /** The number of styles in the groups under `keys`. */
  ghost function SizeOver(g: map<string, seq<Style>>, keys: set<string>): nat
    requires keys <= g.Keys
  {
    if keys == {} then 0
    else
      var k :| k in keys;
      |g[k]| + SizeOver(g, keys - {k})
  }

  /** Any one group can be counted first. */
  lemma {:induction false} SizeOverRemove(g: map<string, seq<Style>>, keys: set<string>, k: string)
    requires keys <= g.Keys && k in keys
    ensures SizeOver(g, keys) == |g[k]| + SizeOver(g, keys - {k})
    decreases keys
  {
    var j :| j in keys && SizeOver(g, keys) == |g[j]| + SizeOver(g, keys - {j});
    if j != k {
      SizeOverRemove(g, keys - {j}, k);
      SizeOverRemove(g, keys - {k}, j);
      assert keys - {j} - {k} == keys - {k} - {j};
    }
  }

  /** The count only looks at the groups under `keys`. */
  lemma {:induction false} SizeOverAgree(g1: map<string, seq<Style>>, g2: map<string, seq<Style>>, keys: set<string>)
    requires keys <= g1.Keys && keys <= g2.Keys
    requires forall k :: k in keys ==> g1[k] == g2[k]
    ensures SizeOver(g1, keys) == SizeOver(g2, keys)
    decreases keys
  {
    if keys != {} {
      var k :| k in keys;
      SizeOverRemove(g1, keys, k);
      SizeOverRemove(g2, keys, k);
      SizeOverAgree(g1, g2, keys - {k});
    }
  }

  /** The number of styles across all groups. */
  ghost function TotalSize(g: map<string, seq<Style>>): nat {
    SizeOver(g, g.Keys)
  }

  /** Grouping loses and duplicates nothing: the group sizes add up to the list's length. */
  lemma {:induction false} GroupSizesSumToLength(s: seq<Style>)
    ensures TotalSize(GroupStyles(s)) == |s|
    decreases |s|
  {
    if |s| > 0 {
      var init := s[..|s| - 1];
      var x := s[|s| - 1];
      var k := x.category;
      var g := GroupStyles(init);
      var r := GroupStyles(s);
      GroupSizesSumToLength(init);
      assert r == g[k := GroupOf(g, k) + [x]];
      SizeOverRemove(r, r.Keys, k);
      SizeOverAgree(r, g, r.Keys - {k});
      if k in g {
        SizeOverRemove(g, g.Keys, k);
        assert r.Keys - {k} == g.Keys - {k};
      } else {
        assert r.Keys - {k} == g.Keys;
      }
    }
  }

  /** A list whose styles all share one category groups under that category alone. */
  lemma {:induction false} SingleCategoryGroupsOnce(s: seq<Style>, category: string)
    requires forall i :: 0 <= i < |s| ==> s[i].category == category
    ensures forall c :: c in GroupStyles(s) ==> c == category
  {
    forall c | c in GroupStyles(s)
      ensures c == category
    {
      GroupKeysAreCategories(s, c);
    }
  }

  /** With a specific category selected there is at most one group, keyed by that category. */
  lemma SelectedCategoryGroupsOnce(styles: seq<Style>, selected: string)
    requires selected != AllCategories
    ensures GroupStyles(FilterStyles(styles, selected)).Keys <= {selected}
  {
    var f := FilterStyles(styles, selected);
    forall i | 0 <= i < |f|
      ensures f[i].category == selected
    {
      assert f[i] in f;
    }
    SingleCategoryGroupsOnce(f, selected);
  }

  /**
   * The names a plain object literal inherits from `Object.prototype`.
   * Reading any of them from `{}` yields a truthy value that has no `push`.
   */
  const ObjectPrototypeKeys: set<string> := {
    "constructor", "__proto__", "hasOwnProperty", "isPrototypeOf",
    "propertyIsEnumerable", "toLocaleString", "toString", "valueOf",
    "__defineGetter__", "__defineSetter__", "__lookupGetter__", "__lookupSetter__"
  }

  /** Some style of `s` has a category that names an inherited member. */
  predicate HasInheritedCategory(s: seq<Style>) {
    exists i :: 0 <= i < |s| && s[i].category in ObjectPrototypeKeys
  }

  /**
   * `groupedStyles` as written, reducing into `{}`: None when the render
   * throws because `acc[style.category]` found an inherited member, so the
   * group was never created and `.push` is not a function.
   */
  function GroupStylesAsWritten(s: seq<Style>): (r: Option<map<string, seq<Style>>>)
    ensures r.Some? ==> forall c :: c in r.value ==> c !in ObjectPrototypeKeys
  {
    if |s| == 0 then Some(map[])
    else
      match GroupStylesAsWritten(s[..|s| - 1])
      case None => None
      case Some(g) =>
        var x := s[|s| - 1];
        if x.category in ObjectPrototypeKeys then None
        else Some(g[x.category := GroupOf(g, x.category) + [x]])
  }

  /** The code as written throws exactly when some category is an inherited name, and otherwise agrees with `GroupStyles`. */
  lemma {:induction false} AsWrittenGroupingFailsOnInheritedNames(s: seq<Style>)
    ensures GroupStylesAsWritten(s).None? <==> HasInheritedCategory(s)
    ensures GroupStylesAsWritten(s).Some? ==> GroupStylesAsWritten(s).value == GroupStyles(s)
    decreases |s|
  {
    if |s| > 0 {
      var init := s[..|s| - 1];
      AsWrittenGroupingFailsOnInheritedNames(init);
      if HasInheritedCategory(init) {
        var i :| 0 <= i < |init| && init[i].category in ObjectPrototypeKeys;
        assert s[i] == init[i];
      }
      if HasInheritedCategory(s) && s[|s| - 1].category !in ObjectPrototypeKeys {
        var i :| 0 <= i < |s| && s[i].category in ObjectPrototypeKeys;
        assert init[i] == s[i];
      }
    }
  }

  /** A catalogue holding a single style of category "constructor" crashes the page as written. */
  lemma ConstructorCategoryCrashes(s: Style)
    requires s.category == "constructor"
    ensures GroupStylesAsWritten([s]).None?
    ensures GroupStyles([s]) == map["constructor" := [s]]
  {
    assert [s][..0] == [];
    assert s.category in ObjectPrototypeKeys;
    assert GroupStylesAsWritten([s][..0]) == Some(map[]);
    assert GroupStyles([s][..0]) == map[];
    assert GroupOf(map[], "constructor") + [s] == [s];
  }

  /** The page's state hooks. */
  datatype PageState = PageState(
    styles: seq<Style>,
    categories: seq<string>,
    loading: bool,
    error: Option<string>,
    selected: string)

  /** The page as first rendered: empty lists, loading, no error, "all" selected. */
  const InitialPage: PageState := PageState([], [], true, None, AllCategories)

  /** The state while `loadStyles` awaits the store: loading, error cleared. */
  function LoadStarted(st: PageState): (r: PageState)
    ensures r.loading && r.error.None?
    ensures r.(loading := st.loading, error := st.error) == st
  {
    st.(loading := true, error := None)
  }

  /**
   * `loadStyles`: fetches all styles, then the categories; both are stored
   * only when both calls succeed, otherwise the first error's message (or a
   * fallback) is shown. Loading ends either way.
   */
  function LoadStyles(st: PageState, table: seq<Style>, stylesReply: QueryReply, categoriesReply: QueryReply): (r: PageState)
    ensures !r.loading
    ensures r.selected == st.selected
    ensures r.error.None? <==> GetAllStyles(table, stylesReply).Success? && GetCategories(table, categoriesReply).Success?
    ensures r.error.None? ==>
      r.styles == GetAllStyles(table, stylesReply).value && r.categories == GetCategories(table, categoriesReply).value
    ensures r.error.Some? ==> r.styles == st.styles && r.categories == st.categories
    ensures stylesReply.Refused? ==> r.error == Some("Failed to fetch styles: " + stylesReply.cause.message)
    ensures !stylesReply.Refused? && categoriesReply.Refused? ==>
      r.error == Some("Failed to fetch categories: " + categoriesReply.cause.message)
  {
    var started := LoadStarted(st);
    match GetAllStyles(table, stylesReply)
    case Failure(e) => started.(loading := false, error := Some(MessageOr(e, "Failed to load styles")))
    case Success(styles) =>
      match GetCategories(table, categoriesReply)
      case Failure(e) => started.(loading := false, error := Some(MessageOr(e, "Failed to load styles")))
      case Success(categories) => started.(styles := styles, categories := categories, loading := false)
  }

  /** A successful load leaves every category on the page exactly once, in ascending order, and lists every stored style. */
  lemma LoadedPageIsConsistent(st: PageState, table: seq<Style>)
    ensures var r := LoadStyles(st, table, Served, Served);
      && r.error.None?
      && multiset(r.styles) == multiset(table)
      && forall c :: c in r.categories <==> HasCategory(r.styles, c)
  {
    var r := LoadStyles(st, table, Served, Served);
    forall c
      ensures c in r.categories <==> HasCategory(r.styles, c)
    {
      if c in r.categories {
        var k :| 0 <= k < |table| && table[k].category == c;
        assert table[k] in multiset(r.styles);
        var i :| 0 <= i < |r.styles| && r.styles[i] == table[k];
      }
      if HasCategory(r.styles, c) {
        var i :| 0 <= i < |r.styles| && r.styles[i].category == c;
        assert r.styles[i] in multiset(table);
        var k :| 0 <= k < |table| && table[k] == r.styles[i];
      }
    }
  }

  /** What the page shows. */
  datatype Screen = LoadingScreen | ErrorScreen(message: string) | NoStyles | Catalogue(groups: map<string, seq<Style>>)

  /**
   * The page's render with the intended grouping: loading first, then a
   * truthy error, then the empty notice, else the grouped catalogue.
   */
  function Render(st: PageState): (v: Screen)
    ensures st.loading <==> v.LoadingScreen?
    ensures v.ErrorScreen? <==> !st.loading && st.error.Some? && st.error.value != ""
    ensures v.ErrorScreen? ==> v.message == st.error.value
    ensures v.NoStyles? <==> !st.loading && !(st.error.Some? && st.error.value != "") && |st.styles| == 0
    ensures v.Catalogue? <==> !st.loading && !(st.error.Some? && st.error.value != "") && |st.styles| > 0
    ensures v.Catalogue? ==> v.groups == GroupStyles(FilterStyles(st.styles, st.selected))
  {
    if st.loading then LoadingScreen
    else if st.error.Some? && st.error.value != "" then ErrorScreen(st.error.value)
    else if |st.styles| == 0 then NoStyles
    else Catalogue(GroupStyles(FilterStyles(st.styles, st.selected)))
  }

  /**
   * The render as written: the grouping runs before any of the checks, so
   * when it throws (None) nothing is shown, whatever the page state.
   */
  function RenderAsWritten(st: PageState): (v: Option<Screen>)
    ensures v.None? <==> HasInheritedCategory(FilterStyles(st.styles, st.selected))
    ensures v.Some? ==> v.value == Render(st)
  {
    var filtered := FilterStyles(st.styles, st.selected);
    AsWrittenGroupingFailsOnInheritedNames(filtered);
    match GroupStylesAsWritten(filtered)
    case None => None
    case Some(groups) =>
      if st.loading then Some(LoadingScreen)
      else if st.error.Some? && st.error.value != "" then Some(ErrorScreen(st.error.value))
      else if |st.styles| == 0 then Some(NoStyles)
      else Some(Catalogue(groups))
  }

  /** As written, even the loading screen is never shown while the styles hold an inherited category name. */
  lemma LoadingScreenCrashesOnInheritedName(st: PageState)
    requires st.loading && st.selected == AllCategories
    requires HasInheritedCategory(st.styles)
    ensures RenderAsWritten(st).None?
    ensures Render(st) == LoadingScreen
  {
  }

  /** The first render shows the loading screen, and as written it cannot throw: the initial list is empty. */
  lemma FirstRenderIsLoading()
    ensures Render(InitialPage) == LoadingScreen
    ensures RenderAsWritten(InitialPage) == Some(LoadingScreen)
  {
  }

}
