/**
 * The list view: the category vocabulary shown as badges, the search and
 * category filter, and the two pieces of view state that drive the filter.
 */
module BlogList {
  import opened Wrappers
  import opened Text
  import opened Blogs

  // ================================================================ category vocabulary

  predicate NoDuplicates<T(==)>(s: seq<T>) {
    forall i, j :: 0 <= i < j < |s| ==> s[i] != s[j]
  }

  /** Every category the blogs carry, blog after blog and, within a blog, in array order. */
  function Flatten(blogs: seq<Blog>): seq<string>
    decreases |blogs|
  {
    if blogs == [] then [] else Flatten(blogs[..|blogs| - 1]) + CategoriesOf(blogs[|blogs| - 1])
  }

  /** `set.add(x)` on JavaScript's insertion-ordered `Set`, seen as the sequence `Array.from` returns. */
  function Add<T(==)>(acc: seq<T>, x: T): seq<T> {
    if x in acc then acc else acc + [x]
  }

  /** Adding the elements of `xs` one after another. */
  function AddAll<T(==)>(acc: seq<T>, xs: seq<T>): seq<T>
    decreases |xs|
  {
    if xs == [] then acc else Add(AddAll(acc, xs[..|xs| - 1]), xs[|xs| - 1])
  }

  /** The `categories` memo as a value: empty while `blogs` is undefined. */
  function Vocabulary(blogs: Option<seq<Blog>>): seq<string> {
    if blogs.None? then [] else AddAll([], Flatten(blogs.value))
  }

  /** The `categories` memo: a `Set` filled by two nested `forEach` loops, then turned into an array. */
  method Categories(blogs: Option<seq<Blog>>) returns (cats: seq<string>)
    ensures cats == Vocabulary(blogs)
  {
    if blogs.None? {
      return [];
    }
    var bs := blogs.value;
    cats := [];
    var i := 0;
    while i < |bs|
      invariant 0 <= i <= |bs|
      invariant cats == AddAll([], Flatten(bs[..i]))
    {
      var prefix := Flatten(bs[..i]);
      FlattenStep(bs, i);
      if bs[i].category.Some? {
        var cs := bs[i].category.value;
        var j := 0;
        assert prefix + cs[..0] == prefix;
        while j < |cs|
          invariant 0 <= j <= |cs|
          invariant cats == AddAll([], prefix + cs[..j])
        {
          AddAllStep(prefix, cs, j);
          if cs[j] !in cats {
            cats := cats + [cs[j]];
          }
          j := j + 1;
        }
        assert cs[..j] == cs;
      } else {
        assert prefix + [] == prefix;
      }
      i := i + 1;
    }
    assert bs[..i] == bs;
  }

  lemma FlattenStep(bs: seq<Blog>, i: nat)
    requires i < |bs|
    ensures Flatten(bs[..i + 1]) == Flatten(bs[..i]) + CategoriesOf(bs[i])
  {
    assert bs[..i + 1][..i] == bs[..i];
  }

  lemma AddAllStep<T>(prefix: seq<T>, cs: seq<T>, j: nat)
    requires j < |cs|
    ensures AddAll([], prefix + cs[..j + 1]) == Add(AddAll([], prefix + cs[..j]), cs[j])
  {
    var seen := prefix + cs[..j + 1];
    assert seen[..|seen| - 1] == prefix + cs[..j];
  }

  /** The position where `x` first occurs in `xs`. */
  function FirstIndex<T(==)>(xs: seq<T>, x: T): (k: nat)
    requires x in xs
    ensures k < |xs| && xs[k] == x && x !in xs[..k]
    decreases |xs|
  {
    if xs[0] == x then 0 else 1 + FirstIndex(xs[1..], x)
  }

  lemma FirstIndexUnique<T>(xs: seq<T>, x: T, k: nat)
    requires k < |xs| && xs[k] == x && x !in xs[..k]
    ensures FirstIndex(xs, x) == k
  {
  }

  /** An element already in `xs` keeps its first position when more is appended. */
  lemma FirstIndexAppend<T>(xs: seq<T>, y: T, x: T)
    requires x in xs
    ensures FirstIndex(xs + [y], x) == FirstIndex(xs, x)
  {
    var k := FirstIndex(xs, x);
    assert (xs + [y])[..k] == xs[..k];
    FirstIndexUnique(xs + [y], x, k);
  }

  /** What the vocabulary holds: what it started with, and every element added. */
  lemma {:induction false} AddAllMembers<T>(acc: seq<T>, xs: seq<T>)
    ensures forall x :: x in AddAll(acc, xs) <==> x in acc || x in xs
    decreases |xs|
  {
    if xs != [] {
      var p := xs[..|xs| - 1];
      AddAllMembers(acc, p);
      assert xs == p + [xs[|xs| - 1]];
    }
  }

  /** Adding to an insertion-ordered set never creates a duplicate. */
  lemma {:induction false} AddAllNoDuplicates<T>(acc: seq<T>, xs: seq<T>)
    requires NoDuplicates(acc)
    ensures NoDuplicates(AddAll(acc, xs))
    decreases |xs|
  {
    if xs != [] {
      AddAllNoDuplicates(acc, xs[..|xs| - 1]);
    }
  }

  /** Starting empty, the elements come out in the order of their first occurrence in `xs`. */
  lemma {:induction false} AddAllFirstOccurrenceOrder<T>(xs: seq<T>)
    ensures forall k :: 0 <= k < |AddAll([], xs)| ==> AddAll([], xs)[k] in xs
    ensures forall i, j :: 0 <= i < j < |AddAll([], xs)| ==>
              FirstIndex(xs, AddAll([], xs)[i]) < FirstIndex(xs, AddAll([], xs)[j])
    decreases |xs|
  {
    if xs != [] {
      var p := xs[..|xs| - 1];
      var y := xs[|xs| - 1];
      assert xs == p + [y];
      var r' := AddAll([], p);
      var r := AddAll([], xs);
      AddAllFirstOccurrenceOrder(p);
      AddAllMembers([], p);
      forall k | 0 <= k < |r'| ensures FirstIndex(xs, r'[k]) == FirstIndex(p, r'[k]) {
        FirstIndexAppend(p, y, r'[k]);
      }
      if y !in r' {
        assert y !in p;
        assert r == r' + [y];
        FirstIndexUnique(xs, y, |p|);
      }
    }
  }

  /** `categories` holds no string twice. */
  lemma VocabularyNoDuplicates(blogs: Option<seq<Blog>>)
    ensures NoDuplicates(Vocabulary(blogs))
  {
    if blogs.Some? {
      AddAllNoDuplicates([], Flatten(blogs.value));
    }
  }

  lemma {:induction false} FlattenMembers(blogs: seq<Blog>)
    ensures forall x :: x in Flatten(blogs) <==>
              exists b :: b in blogs && b.category.Some? && x in b.category.value
    decreases |blogs|
  {
    if blogs != [] {
      var p := blogs[..|blogs| - 1];
      FlattenMembers(p);
      assert blogs == p + [blogs[|blogs| - 1]];
    }
  }

  /**
   * A string is in `categories` exactly when some blog's `category` array
   * holds it; blogs without the array contribute nothing.
   */
  lemma VocabularyMembers(blogs: seq<Blog>, x: string)
    ensures x in Vocabulary(Some(blogs)) <==>
              exists b :: b in blogs && b.category.Some? && x in b.category.value
  {
    AddAllMembers([], Flatten(blogs));
    FlattenMembers(blogs);
  }

  /**
   * `categories` lists each string at its first occurrence across the blogs,
   * in blog order and, within a blog, in array order.
   */
  lemma VocabularyOrder(blogs: seq<Blog>)
    ensures forall k :: 0 <= k < |Vocabulary(Some(blogs))| ==> Vocabulary(Some(blogs))[k] in Flatten(blogs)
    ensures forall i, j :: 0 <= i < j < |Vocabulary(Some(blogs))| ==>
              FirstIndex(Flatten(blogs), Vocabulary(Some(blogs))[i]) < FirstIndex(Flatten(blogs), Vocabulary(Some(blogs))[j])
  {
    AddAllFirstOccurrenceOrder(Flatten(blogs));
  }

  // ================================================================ search and category filter

  /** `matchesSearch`: the lower-cased title or description contains the lower-cased search term. */
  predicate MatchesSearch(b: Blog, term: string) {
    Includes(Lower(b.title), Lower(term)) || Includes(Lower(b.description), Lower(term))
  }

  /**
   * `matchesCategory`: with a selection, the blog's array must hold it. The
   * source tests the selection for truthiness, so a selected empty string
   * filters nothing, like no selection at all; an absent array never holds it.
   */
  predicate MatchesCategory(b: Blog, selected: Option<string>) {
    if selected.Some? && selected.value != "" then
      b.category.Some? && selected.value in b.category.value
    else
      true
  }

  /** The `filter` callback. */
  predicate Keep(b: Blog, term: string, selected: Option<string>) {
    MatchesSearch(b, term) && MatchesCategory(b, selected)
  }

  /** `blogs.filter(...)`: the blogs that pass, in their order. */
  function FilterBlogs(blogs: seq<Blog>, term: string, selected: Option<string>): (r: seq<Blog>)
    ensures |r| <= |blogs|
    decreases |blogs|
  {
    if blogs == [] then []
    else (if Keep(blogs[0], term, selected) then [blogs[0]] else []) + FilterBlogs(blogs[1..], term, selected)
  }

  /** A blog is in `filteredBlogs` exactly when it is in `blogs` and passes both tests. */
  lemma {:induction false} FilterMembers(blogs: seq<Blog>, term: string, selected: Option<string>, b: Blog)
    ensures b in FilterBlogs(blogs, term, selected) <==> b in blogs && Keep(b, term, selected)
    decreases |blogs|
  {
    if blogs != [] {
      FilterMembers(blogs[1..], term, selected, b);
      assert blogs == [blogs[0]] + blogs[1..];
    }
  }

  /** The `filteredBlogs` memo: empty while `blogs` is undefined. */
  function FilteredBlogs(blogs: Option<seq<Blog>>, term: string, selected: Option<string>): seq<Blog> {
    if blogs.None? then [] else FilterBlogs(blogs.value, term, selected)
  }

  /** While the list is not loaded, both memos are empty. */
  lemma UndefinedBlogsShowNothing(term: string, selected: Option<string>)
    ensures Vocabulary(None) == [] && FilteredBlogs(None, term, selected) == []
  {
  }

  /** `r` can be obtained from `s` by deleting elements, keeping the order of the rest. */
  predicate IsSubsequence<T(==)>(r: seq<T>, s: seq<T>)
    decreases |s|
  {
    if r == [] then true
    else if s == [] then false
    else (r[0] == s[0] && IsSubsequence(r[1..], s[1..])) || IsSubsequence(r, s[1..])
  }

  /** The filter keeps the blogs it keeps in their original order. */
  lemma {:induction false} FilterIsSubsequence(blogs: seq<Blog>, term: string, selected: Option<string>)
    ensures IsSubsequence(FilterBlogs(blogs, term, selected), blogs)
    decreases |blogs|
  {
    if blogs != [] {
      var r := FilterBlogs(blogs, term, selected);
      var rest := FilterBlogs(blogs[1..], term, selected);
      FilterIsSubsequence(blogs[1..], term, selected);
      if Keep(blogs[0], term, selected) {
        assert r[0] == blogs[0] && r[1..] == rest;
      } else {
        assert r == rest;
      }
    }
  }

  /** Each blog appears as often as in the input when it passes, and never otherwise. */
  lemma {:induction false} FilterMultiplicity(blogs: seq<Blog>, term: string, selected: Option<string>, b: Blog)
    ensures multiset(FilterBlogs(blogs, term, selected))[b] ==
              if Keep(b, term, selected) then multiset(blogs)[b] else 0
    decreases |blogs|
  {
    if blogs != [] {
      FilterMultiplicity(blogs[1..], term, selected, b);
      assert blogs == [blogs[0]] + blogs[1..];
    }
  }

  /** Every string contains `""`, so an empty search matches every blog. */
  lemma EmptySearchMatches(b: Blog)
    ensures MatchesSearch(b, "")
  {
    assert Lower("") == "";
    assert [] <= Lower(b.title);
  }

  /** With an empty search and no (or an empty) selection the filter keeps every blog. */
  lemma {:induction false} NoFilterKeepsAll(blogs: seq<Blog>, selected: Option<string>)
    requires selected == None || selected == Some("")
    ensures FilterBlogs(blogs, "", selected) == blogs
    decreases |blogs|
  {
    if blogs != [] {
      EmptySearchMatches(blogs[0]);
      NoFilterKeepsAll(blogs[1..], selected);
    }
  }

  /** A selected category excludes every blog whose array is absent or lacks it. */
  lemma SelectedCategoryExcludes(blogs: seq<Blog>, term: string, c: string, b: Blog)
    requires c != ""
    requires b.category.None? || c !in b.category.value
    ensures b !in FilterBlogs(blogs, term, Some(c))
  {
    FilterMembers(blogs, term, Some(c), b);
  }

  /** Terms with the same lower-case form filter alike. */
  lemma {:induction false} SearchCaseBlind(blogs: seq<Blog>, t1: string, t2: string, selected: Option<string>)
    requires Lower(t1) == Lower(t2)
    ensures FilterBlogs(blogs, t1, selected) == FilterBlogs(blogs, t2, selected)
    decreases |blogs|
  {
    if blogs != [] {
      SearchCaseBlind(blogs[1..], t1, t2, selected);
    }
  }

  /** The letter case of the search term does not change which blogs pass. */
  lemma SearchIgnoresCase(blogs: seq<Blog>, term: string, selected: Option<string>)
    ensures FilterBlogs(blogs, Upper(term), selected) == FilterBlogs(blogs, term, selected)
    ensures FilterBlogs(blogs, Lower(term), selected) == FilterBlogs(blogs, term, selected)
  {
    UpperFacts(term);
    LowerFacts(term);
    SearchCaseBlind(blogs, Upper(term), term, selected);
    SearchCaseBlind(blogs, Lower(term), term, selected);
  }

  /** Filtering a concatenation filters each part. */
  lemma {:induction false} FilterAppend(x: seq<Blog>, y: seq<Blog>, term: string, selected: Option<string>)
    ensures FilterBlogs(x + y, term, selected) == FilterBlogs(x, term, selected) + FilterBlogs(y, term, selected)
    decreases |x|
  {
    if x == [] {
      assert x + y == y;
    } else {
      assert (x + y)[0] == x[0] && (x + y)[1..] == x[1..] + y;
      FilterAppend(x[1..], y, term, selected);
      var head := if Keep(x[0], term, selected) then [x[0]] else [];
      assert FilterBlogs(x + y, term, selected) == head + FilterBlogs(x[1..] + y, term, selected);
      assert FilterBlogs(x, term, selected) == head + FilterBlogs(x[1..], term, selected);
    }
  }

  /** Searching and then narrowing by category gives the combined filter. */
  lemma {:induction false} SearchThenCategory(blogs: seq<Blog>, term: string, selected: Option<string>)
    ensures FilterBlogs(FilterBlogs(blogs, term, None), "", selected) == FilterBlogs(blogs, term, selected)
    decreases |blogs|
  {
    if blogs != [] {
      var b := blogs[0];
      var head := if Keep(b, term, None) then [b] else [];
      assert FilterBlogs(blogs, term, None) == head + FilterBlogs(blogs[1..], term, None);
      FilterAppend(head, FilterBlogs(blogs[1..], term, None), "", selected);
      EmptySearchMatches(b);
      SearchThenCategory(blogs[1..], term, selected);
    }
  }

  /** Narrowing by category and then searching gives the combined filter. */
  lemma {:induction false} CategoryThenSearch(blogs: seq<Blog>, term: string, selected: Option<string>)
    ensures FilterBlogs(FilterBlogs(blogs, "", selected), term, None) == FilterBlogs(blogs, term, selected)
    decreases |blogs|
  {
    if blogs != [] {
      var b := blogs[0];
      var head := if Keep(b, "", selected) then [b] else [];
      assert FilterBlogs(blogs, "", selected) == head + FilterBlogs(blogs[1..], "", selected);
      FilterAppend(head, FilterBlogs(blogs[1..], "", selected), term, None);
      EmptySearchMatches(b);
      CategoryThenSearch(blogs[1..], term, selected);
    }
  }

  /** The two filters commute: search then category equals category then search. */
  lemma FilterOrderIrrelevant(blogs: seq<Blog>, term: string, selected: Option<string>)
    ensures FilterBlogs(FilterBlogs(blogs, term, None), "", selected)
         == FilterBlogs(FilterBlogs(blogs, "", selected), term, None)
  {
    SearchThenCategory(blogs, term, selected);
    CategoryThenSearch(blogs, term, selected);
  }

  lemma LowerExamples()
    ensures Lower("tax") == "tax" && Lower("") == ""
    ensures Lower("Tax Tips") == "tax tips"
    ensures Lower("Audit 101") == "audit 101"
  {
    assert Lower("Tax Tips") == "tax tips" by {
      var r := Lower("Tax Tips");
      assert r[0] == 't' && r[1] == 'a' && r[2] == 'x' && r[3] == ' ';
      assert r[4] == 't' && r[5] == 'i' && r[6] == 'p' && r[7] == 's';
    }
    assert Lower("Audit 101") == "audit 101" by {
      var r := Lower("Audit 101");
      assert r[0] == 'a' && r[1] == 'u' && r[2] == 'd' && r[3] == 'i' && r[4] == 't';
      assert r[5] == ' ' && r[6] == '1' && r[7] == '0' && r[8] == '1';
    }
    assert Lower("tax") == "tax" by {
      var r := Lower("tax");
      assert r[0] == 't' && r[1] == 'a' && r[2] == 'x';
    }
  }

  lemma NoTaxInAudit()
    ensures !Includes("audit 101", "tax")
  {
    var a := "audit 101";
    IncludesAt(a, "tax");
    forall i | 0 <= i <= |a| - 3 ensures !OccursAt(a, "tax", i) {
      assert a[i] != 't' || a[i + 1] != 'a';
      assert a[i..i + 3][0] == a[i] && a[i..i + 3][1] == a[i + 1];
    }
  }

  /** Searching "tax" among "Tax Tips" and "Audit 101" keeps only the first. */
  lemma SearchExample(tax: Blog, audit: Blog)
    requires tax.title == "Tax Tips" && tax.description == ""
    requires audit.title == "Audit 101" && audit.description == ""
    ensures FilterBlogs([tax, audit], "tax", None) == [tax]
  {
    LowerExamples();
    NoTaxInAudit();
    assert "tax" <= "tax tips";
    assert !Includes("", "tax");
    assert [tax, audit][1..] == [audit];
    assert FilterBlogs([audit], "tax", None) == [];
  }

  // ================================================================ selection state

  /** `toggle` on a category badge: the selected badge is cleared, any other becomes the selection. */
  function Toggle(selected: Option<string>, cat: string): (r: Option<string>)
    ensures r == None <==> selected == Some(cat)
    ensures r != None ==> r == Some(cat)
  {
    if selected == Some(cat) then None else Some(cat)
  }

  /** Clicking the same badge twice restores the selection exactly when it was empty or that badge. */
  lemma ToggleTwice(selected: Option<string>, cat: string)
    ensures Toggle(Toggle(selected, cat), cat) == selected <==> selected == None || selected == Some(cat)
  {
  }

  /** The list view's `searchTerm` and `selectedCategory` state. */
  class Filters {
    var searchTerm: string
    var selectedCategory: Option<string>

    /** Both hooks start empty. */
    constructor ()
      ensures searchTerm == "" && selectedCategory == None
    {
      searchTerm := "";
      selectedCategory := None;
    }

    /** The blogs the list shows for the current state. */
    function Visible(blogs: Option<seq<Blog>>): seq<Blog>
      reads this
    {
      FilteredBlogs(blogs, searchTerm, selectedCategory)
    }

    /** Typing in the search box. */
    method Type(value: string)
      modifies this
      ensures searchTerm == value && selectedCategory == old(selectedCategory)
    {
      searchTerm := value;
    }

    /** The clear button inside the search box. */
    method ClearSearch()
      modifies this
      ensures searchTerm == "" && selectedCategory == old(selectedCategory)
    {
      searchTerm := "";
    }

    /** The "All" badge. */
    method ShowAll()
      modifies this
      ensures selectedCategory == None && searchTerm == old(searchTerm)
      ensures forall bs :: Visible(Some(bs)) == FilterBlogs(bs, searchTerm, None)
    {
      selectedCategory := None;
    }

    /** A category badge. */
    method ClickCategory(cat: string)
      modifies this
      ensures selectedCategory == Toggle(old(selectedCategory), cat) && searchTerm == old(searchTerm)
    {
      selectedCategory := Toggle(selectedCategory, cat);
    }

    /** "Clear filters": both hooks are reset, so every loaded blog is shown. */
    method ClearFilters()
      modifies this
      ensures searchTerm == "" && selectedCategory == None
      ensures forall bs :: Visible(Some(bs)) == bs
    {
      searchTerm := "";
      selectedCategory := None;
      forall bs ensures Visible(Some(bs)) == bs {
        NoFilterKeepsAll(bs, None);
      }
    }
  }
}
