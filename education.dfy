/** The Education page: downloadable resources, narrowed by a category button
    and a search box, each tagged with a coloured category badge. */
module Education {
  import opened Text
  import opened Sequences
  import opened Styles

  /** An entry of `resources.json`. */
  datatype Resource = Resource(
    id: string,
    title: string,
    category: string,
    summary: string,
    fileUrl: string,
    version: string)

  /** The category buttons, in display order. */
  const Categories: seq<string> := ["All", "SOP", "QA/QC", "DIY CFT", "Safety", "Education"]

  predicate CategoryMatches(r: Resource, categoryFilter: string)
  {
    categoryFilter == "All" || r.category == categoryFilter
  }

  /** The search: ignored when blank, otherwise a case-insensitive substring
      test against the title or the summary. */
  predicate SearchMatches(r: Resource, searchTerm: string)
  {
    Trim(searchTerm) == []
    || Contains(Lower(r.title), Lower(searchTerm))
    || Contains(Lower(r.summary), Lower(searchTerm))
  }

  predicate Shown(r: Resource, categoryFilter: string, searchTerm: string)
  {
    CategoryMatches(r, categoryFilter) && SearchMatches(r, searchTerm)
  }

  /** Only the category button applied. */
  function ByCategory(resources: seq<Resource>, categoryFilter: string): seq<Resource>
  {
    if categoryFilter != "All" then Filter(resources, (r: Resource) => r.category == categoryFilter)
    else resources
  }

  /** The filter effect: a category filter unless "All", then a search filter
      unless the search box is blank. */
  function FilterResources(resources: seq<Resource>, categoryFilter: string, searchTerm: string): seq<Resource>
  {
    var byCategory := ByCategory(resources, categoryFilter);
    if Trim(searchTerm) != [] then
      Filter(byCategory, (r: Resource) =>
        Contains(Lower(r.title), Lower(searchTerm)) || Contains(Lower(r.summary), Lower(searchTerm)))
    else byCategory
  }

  /** The shown resources are exactly those passing both tests, in order. */
  lemma FilterResourcesExact(resources: seq<Resource>, categoryFilter: string, searchTerm: string)
    ensures FilterResources(resources, categoryFilter, searchTerm)
         == Filter(resources, r => Shown(r, categoryFilter, searchTerm))
    ensures IsSubsequence(FilterResources(resources, categoryFilter, searchTerm), resources)
  {
    var shown := (r: Resource) => Shown(r, categoryFilter, searchTerm);
    var byCat := (r: Resource) => r.category == categoryFilter;
    var bySearch := (r: Resource) =>
      Contains(Lower(r.title), Lower(searchTerm)) || Contains(Lower(r.summary), Lower(searchTerm));
    if categoryFilter != "All" {
      if Trim(searchTerm) != [] {
        FilterCompose(resources, byCat, bySearch, shown);
      } else {
        FilterExt(resources, byCat, shown);
      }
    } else {
      if Trim(searchTerm) != [] {
        FilterExt(resources, bySearch, shown);
      } else {
        FilterAll(resources, shown);
      }
    }
    FilterSubsequence(resources, shown);
  }

  /** A resource listed twice is shown twice: every copy that passes stays. */
  lemma FilterResourcesCounts(resources: seq<Resource>, categoryFilter: string, searchTerm: string)
    ensures forall r :: multiset(FilterResources(resources, categoryFilter, searchTerm))[r]
                     == if Shown(r, categoryFilter, searchTerm) then multiset(resources)[r] else 0
  {
    FilterResourcesExact(resources, categoryFilter, searchTerm);
    FilterCounts(resources, r => Shown(r, categoryFilter, searchTerm));
  }

  /** A search of only whitespace leaves the category-filtered list as it is. */
  lemma BlankSearch(resources: seq<Resource>, categoryFilter: string, searchTerm: string)
    requires Blank(searchTerm)
    ensures FilterResources(resources, categoryFilter, searchTerm) == ByCategory(resources, categoryFilter)
  {
    TrimEmptyIffBlank(searchTerm);
  }

  /** The badge classes of a category: one colour each for SOP, QA/QC, DIY CFT
      and Safety, a muted badge for everything else. */
  function CategoryColor(category: string): (classes: string)
    ensures classes == Muted <==> category !in {"SOP", "QA/QC", "DIY CFT", "Safety"}
  {
    match category
    case "SOP" => Badge("accent-green")
    case "QA/QC" => Badge("accent-purple")
    case "DIY CFT" => Badge("accent-orange")
    case "Safety" => Badge("destructive")
    case _ => Muted
  }

  /** The default badge: "text-muted-foreground border-muted bg-muted/10". */
  const Muted: string := "text-muted-foreground border-muted bg-muted/10"

  /** The colour token of each coloured category. */
  function Token(category: string): string
  {
    match category
    case "SOP" => "accent-green"
    case "QA/QC" => "accent-purple"
    case "DIY CFT" => "accent-orange"
    case _ => "destructive"
  }

  /** The four coloured categories get four different badges. */
  lemma CategoryColorDistinct(a: string, b: string)
    requires a in {"SOP", "QA/QC", "DIY CFT", "Safety"} && b in {"SOP", "QA/QC", "DIY CFT", "Safety"}
    requires a != b
    ensures CategoryColor(a) != CategoryColor(b)
  {
    assert Token(a) != Token(b) by {
      assert Token(a)[7] != Token(b)[7] || |Token(a)| != |Token(b)|;
    }
    BadgeInjective(Token(a), Token(b));
  }

  /** Among the buttons, "All" comes first, and "Education" is the only
      category with the muted badge. */
  lemma CategoriesBadges()
    ensures Categories[0] == "All"
    ensures forall i :: 1 <= i < |Categories| ==>
      (CategoryColor(Categories[i]) == Muted <==> Categories[i] == "Education")
  {
  }
}
