/** Gallery rows and the public page's client-side logic: the category
    filter recomputed on every render, and how a fetch reply from the
    content store replaces the loaded rows and their derived categories.
    The store itself (select, ordering by creation time, the change feed)
    is not modelled; its reply is an input. */
module Gallery {
  import opened Seqs
  import Categories

  /** One row of `gallery_items`. Every field is a string in the store's
      client typing; `id` and `createdAt` are assigned by the store. */
  datatype GalleryItem = GalleryItem(
    id: string, title: string, category: string, description: string,
    imageUrl: string, createdAt: string)

  /** The filter value that shows every row. */
  const AllFilter: string := "All"

  /** The category column of a list of rows, position by position. */
  function CategoryColumn(items: seq<GalleryItem>): (column: seq<string>)
    ensures |column| == |items|
    ensures forall k | 0 <= k < |items| :: column[k] == items[k].category
  {
    seq(|items|, k requires 0 <= k < |items| => items[k].category)
  }

  /** The distinct categories of the rows, in first-occurrence order. */
  function CategoriesOf(items: seq<GalleryItem>): (labels: seq<string>)
    ensures forall it | it in items :: it.category in labels
    ensures forall c | c in labels :: exists it | it in items :: it.category == c
    ensures NoDuplicates(labels)
    ensures Categories.InFirstOccurrenceOrder(labels, CategoryColumn(items))
  {
    var column := CategoryColumn(items);
    var labels := Categories.Distinct(column);
    assert forall it | it in items :: it.category in column by {
      forall it | it in items
        ensures it.category in column
      {
        var k :| 0 <= k < |items| && items[k] == it;
        assert column[k] == it.category;
      }
    }
    assert forall c | c in labels :: exists it | it in items :: it.category == c by {
      forall c | c in labels
        ensures exists it | it in items :: it.category == c
      {
        var k :| 0 <= k < |column| && column[k] == c;
        assert items[k] in items;
      }
    }
    labels
  }

  /** `filteredItems`: every row under `"All"`, otherwise the rows whose
      category is exactly the selected one. */
  function Visible(items: seq<GalleryItem>, selected: string): (shown: seq<GalleryItem>)
    ensures selected == AllFilter ==> shown == items
    ensures selected != AllFilter ==>
      forall it :: it in shown <==> it in items && it.category == selected
    ensures selected != AllFilter ==>
      forall it: GalleryItem | it.category == selected :: multiset(shown)[it] == multiset(items)[it]
    ensures IsSubsequence(shown, items)
  {
    var matches := (it: GalleryItem) => it.category == selected;
    SubsequenceReflexive(items);
    FilterContents(items, matches);
    if selected == AllFilter then items else Filter(items, matches)
  }

  /** Every filter shows a part of what `"All"` shows. */
  lemma FilterWithinAll(items: seq<GalleryItem>, selected: string)
    ensures forall it | it in Visible(items, selected) :: it in Visible(items, AllFilter)
    ensures |Visible(items, selected)| <= |Visible(items, AllFilter)|
  {
    SubsequenceMembers(Visible(items, selected), items);
    SubsequenceLength(Visible(items, selected), items);
  }

  /** Every row is reachable: its category is offered as a filter button,
      and selecting that button shows the row. */
  lemma EveryItemReachable(items: seq<GalleryItem>, it: GalleryItem)
    requires it in items
    ensures it.category in CategoriesOf(items)
    ensures it in Visible(items, it.category)
  {
  }

  /** The store's answer to a select: `{data, error}`. */
  datatype FetchReply = FetchReply(data: Option<seq<GalleryItem>>, error: Option<string>)

  /** The loaded rows and their derived categories. */
  datatype Loaded = Loaded(items: seq<GalleryItem>, categories: seq<string>)

  /** The body of `fetchGalleryItems`, shared by both pages: an error keeps
      what was loaded; otherwise the rows (none when `data` is null) and
      their distinct categories replace it. */
  function Refresh(current: Loaded, reply: FetchReply): (next: Loaded)
    ensures reply.error.Some? ==> next == current
    ensures reply.error.None? ==> next.items == reply.data.GetOr([])
    ensures reply.error.None? ==> next.categories == CategoriesOf(next.items)
    ensures reply.error.None? ==>
      && (forall it | it in next.items :: it.category in next.categories)
      && NoDuplicates(next.categories)
  {
    if reply.error.Some? then current
    else
      var items := reply.data.GetOr([]);
      Loaded(items, CategoriesOf(items))
  }

  /** The public page's state. The viewer overlay is not modelled. */
  datatype PageState = PageState(loaded: Loaded, selectedCategory: string)

  /** The page as first rendered: nothing loaded, `"All"` selected. */
  const InitialPage: PageState := PageState(Loaded([], []), AllFilter)

  /** A fetch on mount or after any change event. The selected filter is
      kept, even when no loaded row carries it any more. */
  function OnFetch(page: PageState, reply: FetchReply): (next: PageState)
    ensures next.selectedCategory == page.selectedCategory
    ensures reply.error.Some? ==> next.loaded == page.loaded
    ensures reply.error.None? && reply.data.None? ==> next.loaded == Loaded([], [])
    ensures reply.error.None? ==>
      next.loaded.items == reply.data.GetOr([]) && next.loaded.categories == CategoriesOf(next.loaded.items)
    ensures reply.error.None? ==>
      forall it | it in next.loaded.items :: it.category in next.loaded.categories
  {
    PageState(Refresh(page.loaded, reply), page.selectedCategory)
  }

  /** A click on a filter button. */
  function Select(page: PageState, category: string): (next: PageState)
    ensures next.loaded == page.loaded
    ensures next.selectedCategory == category
  {
    page.(selectedCategory := category)
  }

  /** The rows the page shows. */
  function Shown(page: PageState): (shown: seq<GalleryItem>)
    ensures IsSubsequence(shown, page.loaded.items)
    ensures page.selectedCategory == AllFilter ==> shown == page.loaded.items
    ensures page.selectedCategory != AllFilter ==>
      forall it :: it in shown <==> it in page.loaded.items && it.category == page.selectedCategory
  {
    Visible(page.loaded.items, page.selectedCategory)
  }

  /** Loaded state that came from a successful fetch: every row's category
      is listed, once. A failed fetch keeps it, and so does selecting a
      filter. */
  predicate Consistent(l: Loaded) {
    l.categories == CategoriesOf(l.items)
  }

  lemma RefreshKeepsConsistent(current: Loaded, reply: FetchReply)
    requires Consistent(current)
    ensures Consistent(Refresh(current, reply))
    ensures NoDuplicates(Refresh(current, reply).categories)
  {
  }
}
