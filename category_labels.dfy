/**
 * The category chip bar: which category a click selects, the order the chips
 * are shown in (the selected one first, the rest in their fixed order), the
 * close marker on the selected chip, and the colour table behind each chip.
 */
module CategoryLabels {
  import opened Wrappers
  import opened Sequences

  /** The fixed order of the nine categories. */
  const OriginalOrder: seq<string> := [
    "Chatbot", "Image Generation", "Video Generation", "Writing Assistant",
    "Design", "Coding", "Audio", "Research", "Automation"
  ]

  /** `selectedCategory === category`; `null` equals no category. */
  predicate IsSelected(selected: Option<string>, category: string) {
    selected == Some(category)
  }

  /** `toggleCategory`: clicking the selected chip clears the selection,
      clicking any other chip selects it. */
  function Toggle(selected: Option<string>, category: string): (r: Option<string>)
    ensures r == None <==> IsSelected(selected, category)
    ensures r != None ==> r == Some(category)
  {
    if IsSelected(selected, category) then None else Some(category)
  }

  /** Toggling the same chip twice from no selection returns to no selection. */
  lemma ToggleTwice(category: string)
    ensures Toggle(Toggle(None, category), category) == None
  {
  }

  /** `Array.prototype.indexOf`: the first position of `x`, or -1. */
  function IndexOf(s: seq<string>, x: string): (r: int)
    ensures -1 <= r < |s|
    ensures r == -1 <==> x !in s
    ensures r >= 0 ==> s[r] == x && x !in s[..r]
  {
    if s == [] then -1
    else if s[0] == x then 0
    else
      var k := IndexOf(s[1..], x);
      assert s[1..][..if k >= 0 then k else 0] == s[1..if k >= 0 then k + 1 else 1];
      if k == -1 then -1 else k + 1
  }

  /** In a sequence without repetitions an element's index is its position. */
  lemma IndexOfDistinct(s: seq<string>, j: int)
    requires Distinct(s)
    requires 0 <= j < |s|
    ensures IndexOf(s, s[j]) == j
  {
    var k := IndexOf(s, s[j]);
    assert s[k] == s[j];
  }

  /** The comparator handed to `sort`: selected before unselected, otherwise
      by position in `order`. */
  function Compare(selected: Option<string>, order: seq<string>, a: string, b: string): int {
    var aSelected := IsSelected(selected, a);
    var bSelected := IsSelected(selected, b);
    if aSelected && !bSelected then -1
    else if !aSelected && bSelected then 1
    else IndexOf(order, a) - IndexOf(order, b)
  }

  /** Inserting `x` in front of the first element it does not compare after. */
  function Insert(selected: Option<string>, order: seq<string>, x: string, s: seq<string>): (r: seq<string>)
    ensures multiset(r) == multiset(s) + multiset{x}
  {
    if s == [] then [x]
    else if Compare(selected, order, x, s[0]) <= 0 then [x] + s
    else
      assert s == [s[0]] + s[1..];
      [s[0]] + Insert(selected, order, x, s[1..])
  }

  /** The sort of `s` under the comparator, one insertion per element. */
  function SortBy(selected: Option<string>, order: seq<string>, s: seq<string>): (r: seq<string>)
    ensures multiset(r) == multiset(s)
  {
    if s == [] then []
    else
      assert s == [s[0]] + s[1..];
      Insert(selected, order, s[0], SortBy(selected, order, s[1..]))
  }

  /** `sortedCategories`. */
  function SortedCategories(selected: Option<string>): seq<string> {
    SortBy(selected, OriginalOrder, OriginalOrder)
  }

  /** `s` with every occurrence of `x` removed. */
  function Without(s: seq<string>, x: string): (r: seq<string>)
    ensures x !in r
    ensures forall y :: y in r <==> y in s && y != x
    ensures x !in s ==> r == s
  {
    if s == [] then []
    else if s[0] == x then Without(s[1..], x)
    else [s[0]] + Without(s[1..], x)
  }

  /** The order the chips should come out in: the selected category, if it is
      in the list, and then every other category in list order. */
  function Expected(selected: Option<string>, s: seq<string>): seq<string> {
    if selected.Some? && selected.value in s then [selected.value] + Without(s, selected.value) else s
  }

  /** The selected element of the list heads the expected order. */
  lemma ExpectedStartsWithSelected(order: seq<string>, i: int)
    requires 0 <= i < |order|
    ensures Expected(Some(order[i]), order) != []
    ensures Expected(Some(order[i]), order)[0] == order[i]
  {
    assert order[i] in order;
  }

  /** Without a selection from the list the expected order is the list. */
  lemma ExpectedWithoutSelection(selected: Option<string>, order: seq<string>)
    requires selected.None? || selected.value !in order
    ensures Expected(selected, order) == order
  {
  }

  /** Every element after position `k` of a list without repetitions ranks
      after position `k`. */
  lemma LaterIndexIsGreater(order: seq<string>, k: nat, y: string)
    requires Distinct(order)
    requires k < |order|
    requires y in order[k + 1..]
    ensures IndexOf(order, order[k]) < IndexOf(order, y)
  {
    var j :| k + 1 <= j < |order| && order[j] == y;
    IndexOfDistinct(order, k);
    IndexOfDistinct(order, j);
  }

  /** Inserting a category into a list it ranks before, where nothing in the
      list is selected, puts it in front. */
  lemma InsertInFront(selected: Option<string>, order: seq<string>, x: string, s: seq<string>)
    requires forall y :: y in s ==> !IsSelected(selected, y) && IndexOf(order, x) < IndexOf(order, y)
    ensures Insert(selected, order, x, s) == [x] + s
  {
    if s != [] {
      assert s[0] in s;
    }
  }

  /** Inserting a category that ranks before all of `rest` into the expected
      order of `rest` gives the expected order of the longer list. */
  lemma InsertIntoExpected(selected: Option<string>, order: seq<string>, x: string, rest: seq<string>)
    requires x !in rest
    requires forall y :: y in rest ==> IndexOf(order, x) < IndexOf(order, y)
    ensures Insert(selected, order, x, Expected(selected, rest)) == Expected(selected, [x] + rest)
  {
    assert ([x] + rest)[0] == x && ([x] + rest)[1..] == rest;
    if IsSelected(selected, x) {
      assert Without([x] + rest, x) == rest;
      assert Expected(selected, rest) == rest;
      if rest != [] {
        assert rest[0] in rest;
      }
    } else if selected.Some? && selected.value in rest {
      var c := selected.value;
      var w := Without(rest, c);
      assert Without([x] + rest, c) == [x] + w;
      assert Expected(selected, [x] + rest) == [c] + ([x] + w);
      assert Expected(selected, rest) == [c] + w;
      InsertInFront(selected, order, x, w);
      assert Insert(selected, order, x, [c] + w) == [c] + Insert(selected, order, x, w) by {
        assert ([c] + w)[0] == c && ([c] + w)[1..] == w;
      }
    } else {
      assert Expected(selected, rest) == rest;
      assert Expected(selected, [x] + rest) == [x] + rest;
      InsertInFront(selected, order, x, rest);
    }
  }

  /** Sorting a suffix of the fixed order yields the expected order of that suffix. */
  lemma {:induction false} SortSuffix(selected: Option<string>, order: seq<string>, k: nat)
    requires Distinct(order)
    requires k <= |order|
    ensures SortBy(selected, order, order[k..]) == Expected(selected, order[k..])
    decreases |order| - k
  {
    if k < |order| {
      var x := order[k];
      var rest := order[k + 1..];
      assert order[k..] == [x] + rest;
      assert order[k..][1..] == rest;
      SortSuffix(selected, order, k + 1);
      assert x !in rest;
      forall y | y in rest
        ensures IndexOf(order, x) < IndexOf(order, y)
      {
        LaterIndexIsGreater(order, k, y);
      }
      InsertIntoExpected(selected, order, x, rest);
    }
  }

  /** No category is listed twice. */
  lemma OriginalOrderDistinct()
    ensures Distinct(OriginalOrder)
  {
  }

  /** Sorting a list without repetitions by its own order puts the selected
      element first and keeps the rest in order. */
  lemma SortByClosedForm(selected: Option<string>, order: seq<string>)
    requires Distinct(order)
    ensures SortBy(selected, order, order) == Expected(selected, order)
  {
    SortSuffix(selected, order, 0);
    assert order[0..] == order;
  }

  /** The sort puts the selected category first and keeps the rest in order. */
  lemma SortedCategoriesClosedForm(selected: Option<string>)
    ensures SortedCategories(selected) == Expected(selected, OriginalOrder)
  {
    OriginalOrderDistinct();
    SortByClosedForm(selected, OriginalOrder);
  }

  /** The chips are a rearrangement of the nine categories. */
  lemma SortedCategoriesIsPermutation(selected: Option<string>)
    ensures multiset(SortedCategories(selected)) == multiset(OriginalOrder)
    ensures |SortedCategories(selected)| == |OriginalOrder|
  {
    assert |multiset(SortedCategories(selected))| == |multiset(OriginalOrder)|;
  }

  /** A selected category from the list comes first. */
  lemma SelectedComesFirst(i: int)
    requires 0 <= i < |OriginalOrder|
    ensures SortedCategories(Some(OriginalOrder[i])) != []
    ensures SortedCategories(Some(OriginalOrder[i]))[0] == OriginalOrder[i]
  {
    SortedCategoriesClosedForm(Some(OriginalOrder[i]));
    ExpectedStartsWithSelected(OriginalOrder, i);
  }

  /** Leaving out the selected category, the chips are in the fixed order. */
  lemma UnselectedKeepOrder(category: string)
    ensures Without(SortedCategories(Some(category)), category) == Without(OriginalOrder, category)
  {
    SortedCategoriesClosedForm(Some(category));
    if category in OriginalOrder {
      var w := Without(OriginalOrder, category);
      assert ([category] + w)[1..] == w;
      assert Without(w, category) == w;
    }
  }

  /** With nothing selected the order is unchanged. */
  lemma NoSelectionKeepsOrder(selected: Option<string>)
    requires selected.None?
    ensures SortedCategories(selected) == OriginalOrder
  {
    SortedCategoriesClosedForm(selected);
    ExpectedWithoutSelection(selected, OriginalOrder);
  }

  /** A selected name that is not in the list leaves the order unchanged. */
  lemma UnknownSelectionKeepsOrder(category: string)
    requires category !in OriginalOrder
    ensures SortedCategories(Some(category)) == OriginalOrder
  {
    SortedCategoriesClosedForm(Some(category));
    ExpectedWithoutSelection(Some(category), OriginalOrder);
  }

  /** The classes every chip has. */
  const BaseStyles: string :=
    "px-4 py-2 flex items-center justify-center gap-2 rounded-full text-sm font-medium transition-all duration-200 cursor-pointer"

  /** The colour classes of a selected chip, per category. */
  const SelectedStyles: map<string, string> := map[
    "Chatbot" := "bg-blue-600 text-white border border-blue-600 shadow-md",
    "Image Generation" := "bg-purple-600 text-white border border-purple-600 shadow-md",
    "Video Generation" := "bg-green-600 text-white border border-green-600 shadow-md",
    "Writing Assistant" := "bg-orange-600 text-white border border-orange-600 shadow-md",
    "Design" := "bg-pink-600 text-white border border-pink-600 shadow-md",
    "Coding" := "bg-teal-600 text-white border border-teal-600 shadow-md",
    "Audio" := "bg-yellow-600 text-white border border-yellow-600 shadow-md",
    "Research" := "bg-red-600 text-white border border-red-600 shadow-md"
  ]

  /** The colour classes of an unselected chip, per category. */
  const UnselectedStyles: map<string, string> := map[
    "Chatbot" := "bg-blue-100 text-blue-800 border border-blue-200 hover:bg-blue-200",
    "Image Generation" := "bg-purple-100 text-purple-800 border border-purple-200 hover:bg-purple-200",
    "Video Generation" := "bg-green-100 text-green-800 border border-green-200 hover:bg-green-200",
    "Writing Assistant" := "bg-orange-100 text-orange-800 border border-orange-200 hover:bg-orange-200",
    "Design" := "bg-pink-100 text-pink-800 border border-pink-200 hover:bg-pink-200",
    "Coding" := "bg-teal-100 text-teal-800 border border-teal-200 hover:bg-teal-200",
    "Audio" := "bg-yellow-100 text-yellow-800 border border-yellow-200 hover:bg-yellow-200",
    "Research" := "bg-red-100 text-red-800 border border-red-200 hover:bg-red-200"
  ]

  /** The colour table lookup; a category without an entry misses. */
  function StyleFor(selected: Option<string>, category: string): (r: Option<string>)
    ensures r.Some? <==> category in SelectedStyles
    ensures r.Some? && IsSelected(selected, category) ==> r.value == SelectedStyles[category]
    ensures r.Some? && !IsSelected(selected, category) ==> r.value == UnselectedStyles[category]
  {
    if category !in SelectedStyles then None
    else if IsSelected(selected, category) then Some(SelectedStyles[category])
    else Some(UnselectedStyles[category])
  }

  /** `getCategoryStyles`: a miss is rendered as the text `undefined`. */
  function ChipClassName(selected: Option<string>, category: string): string {
    BaseStyles + " " + (if StyleFor(selected, category).Some? then StyleFor(selected, category).value else "undefined")
  }

  /** The last category of the list has no colour entry, so its chip gets
      the class `undefined`. */
  lemma AutomationHasNoStyle(selected: Option<string>)
    ensures OriginalOrder[8] == "Automation"
    ensures StyleFor(selected, OriginalOrder[8]) == None
    ensures ChipClassName(selected, OriginalOrder[8]) == BaseStyles + " undefined"
  {
  }

  /** Every other category of the list has a colour entry. */
  lemma OtherCategoriesHaveStyles(selected: Option<string>, i: int)
    requires 0 <= i < |OriginalOrder| - 1
    ensures StyleFor(selected, OriginalOrder[i]).Some?
  {
  }

  /** The two colour tables cover the same categories. */
  lemma StyleTablesShareKeys()
    ensures SelectedStyles.Keys == UnselectedStyles.Keys
  {
  }

  /** One rendered chip. */
  datatype Chip = Chip(category: string, className: string, closeMarker: bool)

  /** One chip per category, in the given order. */
  function ChipsOf(selected: Option<string>, categories: seq<string>): (chips: seq<Chip>)
    ensures |chips| == |categories|
    ensures forall i :: 0 <= i < |chips| ==> chips[i].category == categories[i]
    ensures forall i :: 0 <= i < |chips| ==> (chips[i].closeMarker <==> IsSelected(selected, categories[i]))
  {
    if categories == [] then []
    else
      var c := categories[0];
      [Chip(c, ChipClassName(selected, c), IsSelected(selected, c))] + ChipsOf(selected, categories[1..])
  }

  /** The chip bar. */
  function Chips(selected: Option<string>): seq<Chip> {
    ChipsOf(selected, SortedCategories(selected))
  }

  /** In the expected order only the first entry can be the selected one. */
  lemma ExpectedSelectedOnlyFirst(selected: Option<string>, order: seq<string>)
    ensures selected.Some? && selected.value in order ==>
      Expected(selected, order) != [] && IsSelected(selected, Expected(selected, order)[0]) &&
      forall i :: 1 <= i < |Expected(selected, order)| ==> !IsSelected(selected, Expected(selected, order)[i])
    ensures !(selected.Some? && selected.value in order) ==>
      forall i :: 0 <= i < |Expected(selected, order)| ==> !IsSelected(selected, Expected(selected, order)[i])
  {
    var e := Expected(selected, order);
    if selected.Some? && selected.value in order {
      var w := Without(order, selected.value);
      forall i | 1 <= i < |e|
        ensures e[i] != selected.value
      {
        assert e[i] == w[i - 1];
        assert w[i - 1] in w;
      }
    } else {
      forall i | 0 <= i < |e|
        ensures !IsSelected(selected, e[i])
      {
        assert e[i] in order;
      }
    }
  }

  /** The chip bar is one chip per category of the expected order. */
  lemma ChipsClosedForm(selected: Option<string>)
    ensures Chips(selected) == ChipsOf(selected, Expected(selected, OriginalOrder))
  {
    SortedCategoriesClosedForm(selected);
  }

  /** When a listed category is selected, its chip comes first and is the
      only one with the close marker; otherwise no chip has it. Stated for
      any list of categories put in the expected order. */
  lemma OnlySelectedChipIsMarked(selected: Option<string>, order: seq<string>)
    ensures selected.Some? && selected.value in order ==>
      var chips := ChipsOf(selected, Expected(selected, order));
      chips != [] && chips[0].category == selected.value && chips[0].closeMarker &&
      forall i :: 1 <= i < |chips| ==> !chips[i].closeMarker
    ensures !(selected.Some? && selected.value in order) ==>
      var chips := ChipsOf(selected, Expected(selected, order));
      forall i :: 0 <= i < |chips| ==> !chips[i].closeMarker
  {
    ExpectedSelectedOnlyFirst(selected, order);
  }
}
