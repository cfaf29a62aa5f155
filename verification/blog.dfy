/** The blog list page: the posts snapshot, the category buttons, the
    category filter with its 'All' sentinel, and the "Read Article" links. */
module Blog {
  import opened Seqs
  import opened Snapshot

  datatype Post = Post(
    id: int,
    title: string,
    excerpt: string,
    image: string,
    author: string,
    date: string,
    readTime: string,
    category: string)

  /** The initial `selectedCategory`, which the filter treats as "no filter". */
  const AllSentinel := "All"

  /** The category buttons, in display order. */
  const Categories: seq<string> := [
    "ALL",
    "INDUSTRY TRENDS",
    "CAREER TIPS",
    "NETWORKING",
    "SKILLS DEVELOPMENT",
    "PERSONAL BRANDING",
    "INTERVIEW TIPS",
    "TECHNOLOGY"
  ]

  function CategoryIs(selected: string): Post -> bool {
    (p: Post) => p.category == selected
  }

  /** `filteredPosts`: all posts for the sentinel, otherwise the posts whose
      category is exactly the selected string. */
  function FilteredPosts(posts: seq<Post>, selected: string): (r: seq<Post>)
    ensures |r| <= |posts|
    ensures forall p | p in r :: p in posts
  {
    if selected == AllSentinel then posts else Filter(CategoryIs(selected), posts)
  }

  /** The initial selection shows every post. */
  lemma SentinelShowsAll(posts: seq<Post>)
    ensures FilteredPosts(posts, AllSentinel) == posts
  {
  }

  /** Any other selection keeps, in order, exactly the posts whose category is
      that string, every copy of each. */
  lemma CategoryFilterSpec(posts: seq<Post>, selected: string)
    requires selected != AllSentinel
    ensures IsSubsequence(FilteredPosts(posts, selected), posts)
    ensures forall p :: p in FilteredPosts(posts, selected) <==> p in posts && p.category == selected
    ensures forall p :: multiset(FilteredPosts(posts, selected))[p] ==
                        if p.category == selected then multiset(posts)[p] else 0
  {
    FilterIsSubsequence(CategoryIs(selected), posts);
    forall p: Post
      ensures multiset(FilteredPosts(posts, selected))[p] ==
              if p.category == selected then multiset(posts)[p] else 0
    {
      FilterMultiplicity(CategoryIs(selected), posts, p);
    }
  }

  /** No button selects the sentinel: once a button has been pressed the
      unfiltered list cannot come back, and in the initial state no button is
      highlighted. */
  lemma NoButtonIsSentinel()
    ensures forall k :: 0 <= k < |Categories| ==> Categories[k] != AllSentinel
    ensures AllSentinel !in Categories
  {
  }

  /** Pressing the "ALL" button keeps only posts whose category is literally
      "ALL", so a list with no such post shows nothing. */
  lemma AllButtonFiltersLiterally(posts: seq<Post>)
    ensures forall p :: p in FilteredPosts(posts, Categories[0]) <==> p in posts && p.category == "ALL"
    ensures (forall k :: 0 <= k < |posts| ==> posts[k].category != "ALL") ==>
              FilteredPosts(posts, Categories[0]) == []
  {
    var r := FilteredPosts(posts, Categories[0]);
    if |r| > 0 {
      assert r[0] in r;
    }
  }

  /** The posts snapshot: a truthy payload replaces the list wholesale, a null
      one leaves it as it was. */
  function OnPosts(posts: seq<Post>, payload: Option<seq<Post>>): (r: seq<Post>)
    ensures payload.None? ==> r == posts
    ensures payload.Some? ==> r == payload.value
  {
    Apply(posts, payload)
  }

  /** The index the detail page resolves `/blog/<n>` to: the `n`-th post of
      the `blogs/posts` list, the same list this page shows. */
  function Resolve(posts: seq<Post>, n: int): Option<Post> {
    if 0 <= n < |posts| then Some(posts[n]) else None
  }

  /** As written: the link of the `k`-th card is its index in the filtered list. */
  function ArticleLinkAsWritten(posts: seq<Post>, selected: string, k: nat): (r: int)
    requires k < |FilteredPosts(posts, selected)|
    ensures 0 <= r < |FilteredPosts(posts, selected)|
  {
    k
  }

  /** With the sentinel selected the filtered index is the index in the full
      list, so every link opens its own card's post. */
  lemma LinkCorrectUnfiltered(posts: seq<Post>, k: nat)
    requires k < |posts|
    ensures Resolve(posts, ArticleLinkAsWritten(posts, AllSentinel, k)) == Some(FilteredPosts(posts, AllSentinel)[k])
  {
  }

  /** With a category selected the link can open another post: the card of a
      "CAREER TIPS" post listed after a "NETWORKING" one links to the
      "NETWORKING" post. */
  lemma LinkWrongWhenFiltered()
    ensures var a := Post(0, "A", "", "", "", "", "", "NETWORKING");
            var b := Post(1, "B", "", "", "", "", "", "CAREER TIPS");
            && FilteredPosts([a, b], "CAREER TIPS") == [b]
            && Resolve([a, b], ArticleLinkAsWritten([a, b], "CAREER TIPS", 0)) == Some(a)
            && a != b
  {
    var a := Post(0, "A", "", "", "", "", "", "NETWORKING");
    var b := Post(1, "B", "", "", "", "", "", "CAREER TIPS");
    assert Filter(CategoryIs("CAREER TIPS"), [b]) == [b];
    assert [a, b][1..] == [b];
  }

  /** The positions in the full list of the posts a selection shows. */
  function SourceIndices(posts: seq<Post>, selected: string): (idx: seq<int>)
    ensures |idx| == |FilteredPosts(posts, selected)|
    ensures forall k :: 0 <= k < |idx| ==>
              0 <= idx[k] < |posts| && posts[idx[k]] == FilteredPosts(posts, selected)[k]
  {
    if selected == AllSentinel then seq(|posts|, i requires 0 <= i < |posts| => i)
    else FilterIndices(CategoryIs(selected), posts)
  }

  /** Corrected link: the card's position in the full list. */
  function ArticleLink(posts: seq<Post>, selected: string, k: nat): (r: int)
    requires k < |FilteredPosts(posts, selected)|
    ensures 0 <= r < |posts|
  {
    SourceIndices(posts, selected)[k]
  }

  /** Every corrected link opens its own card's post, whatever the selection,
      and agrees with the as-written link while nothing is filtered. */
  lemma ArticleLinkOpensCard(posts: seq<Post>, selected: string, k: nat)
    requires k < |FilteredPosts(posts, selected)|
    ensures Resolve(posts, ArticleLink(posts, selected, k)) == Some(FilteredPosts(posts, selected)[k])
    ensures selected == AllSentinel ==> ArticleLink(posts, selected, k) == ArticleLinkAsWritten(posts, selected, k)
  {
  }
}
