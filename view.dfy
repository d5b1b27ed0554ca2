/** The list the post pane shows: `get_filtered_posts` of `src/tui/app.rs`. The posts are
    narrowed to drafts when the drafts filter is on, then to those matching the search
    query, then sorted by the current sort mode. */
module PostView {
  import opened Wrappers
  import opened Text
  import opened Records
  import opened PostOrder

  /** A case-insensitive search hit: an empty query matches every post; otherwise the lowercased
      query occurs in the lowercased title, the lowercased body or some lowercased category.
      Tags and the rest of the frontmatter are never consulted. */
  predicate MatchesQuery(p: Post, query: string) {
    query == []
    || Contains(Lower(p.title), Lower(query))
    || Contains(Lower(p.content), Lower(query))
    || exists i :: 0 <= i < |p.categories| && Contains(Lower(p.categories[i]), Lower(query))
  }

  /** A post survives both filters. */
  predicate Passes(p: Post, draftsOnly: bool, query: string) {
    (!draftsOnly || p.draft) && MatchesQuery(p, query)
  }

  /** `Vec::retain`: the elements that satisfy `keep`, in their order. */
  function Keep(s: seq<Post>, keep: Post -> bool): (r: seq<Post>)
    ensures |r| <= |s|
    ensures forall i :: 0 <= i < |r| ==> keep(r[i])
  {
    if s == [] then [] else (if keep(s[0]) then [s[0]] else []) + Keep(s[1..], keep)
  }

  /** The drafts filter, then the search filter, each a `retain` on the list of all posts. */
  function Filtered(posts: seq<Post>, draftsOnly: bool, query: string): seq<Post> {
    var drafts := if draftsOnly then Keep(posts, (p: Post) => p.draft) else posts;
    if query == [] then drafts else Keep(drafts, (p: Post) => MatchesQuery(p, query))
  }

  /** The list on screen. */
  function View(posts: seq<Post>, draftsOnly: bool, query: string, mode: SortMode): seq<Post> {
    SortPosts(mode, Filtered(posts, draftsOnly, query))
  }

  lemma {:induction false} KeepCount(s: seq<Post>, keep: Post -> bool, x: Post)
    ensures multiset(Keep(s, keep))[x] == if keep(x) then multiset(s)[x] else 0
  {
    if s != [] {
      KeepCount(s[1..], keep, x);
      assert s == [s[0]] + s[1..];
      assert multiset(s) == multiset{s[0]} + multiset(s[1..]);
    }
  }

  /** Filtering keeps every copy of a passing post and no copy of any other post. */
  lemma FilteredCount(posts: seq<Post>, draftsOnly: bool, query: string, x: Post)
    ensures multiset(Filtered(posts, draftsOnly, query))[x]
      == if Passes(x, draftsOnly, query) then multiset(posts)[x] else 0
  {
    var isDraft := (p: Post) => p.draft;
    var matches := (p: Post) => MatchesQuery(p, query);
    var drafts := if draftsOnly then Keep(posts, isDraft) else posts;
    if draftsOnly { KeepCount(posts, isDraft, x); }
    if query != [] { KeepCount(drafts, matches, x); }
  }

  /** The view holds exactly the posts that pass both filters, each as often as in `posts`. */
  lemma ViewCount(posts: seq<Post>, draftsOnly: bool, query: string, mode: SortMode, x: Post)
    ensures multiset(View(posts, draftsOnly, query, mode))[x]
      == if Passes(x, draftsOnly, query) then multiset(posts)[x] else 0
  {
    FilteredCount(posts, draftsOnly, query, x);
    SortPostsPermutes(mode, Filtered(posts, draftsOnly, query));
  }

  /** Hence the view is a sub-multiset of the posts, never longer than the list of all posts,
      and every post it shows is one of them and passes both filters. */
  lemma ViewIsSubMultiset(posts: seq<Post>, draftsOnly: bool, query: string, mode: SortMode)
    ensures multiset(View(posts, draftsOnly, query, mode)) <= multiset(posts)
    ensures |View(posts, draftsOnly, query, mode)| <= |posts|
    ensures forall x :: x in View(posts, draftsOnly, query, mode) ==> x in posts && Passes(x, draftsOnly, query)
  {
    var v := View(posts, draftsOnly, query, mode);
    forall x ensures multiset(v)[x] <= multiset(posts)[x] {
      ViewCount(posts, draftsOnly, query, mode, x);
    }
    forall x | x in v ensures x in posts && Passes(x, draftsOnly, query) {
      ViewCount(posts, draftsOnly, query, mode, x);
      assert x in multiset(v);
    }
    assert |multiset(v)| <= |multiset(posts)| by {
      MultisetSubsetSize(multiset(v), multiset(posts));
    }
  }

  lemma {:induction false} MultisetSubsetSize(a: multiset<Post>, b: multiset<Post>)
    requires a <= b
    ensures |a| <= |b|
    decreases |a|
  {
    if a != multiset{} {
      var x :| x in a;
      MultisetSubsetSize(a[x := a[x] - 1], b[x := b[x] - 1]);
      assert a == a[x := a[x] - 1] + multiset{x};
      assert b == b[x := b[x] - 1] + multiset{x};
    }
  }

  /** With both filters off the view is a reordering of all posts. */
  lemma NoFilterShowsAll(posts: seq<Post>, mode: SortMode)
    ensures multiset(View(posts, false, "", mode)) == multiset(posts)
  {
    SortPostsPermutes(mode, posts);
  }

  /** The view is in the order of the sort mode, and posts that tie keep the order they have
      in the filtered list. */
  lemma ViewOrdered(posts: seq<Post>, draftsOnly: bool, query: string, mode: SortMode, y: Post)
    ensures Sorted(mode, View(posts, draftsOnly, query, mode))
    ensures Ties(mode, View(posts, draftsOnly, query, mode), y) == Ties(mode, Filtered(posts, draftsOnly, query), y)
  {
    SortPostsSorted(mode, Filtered(posts, draftsOnly, query));
    SortPostsStable(mode, Filtered(posts, draftsOnly, query), y);
  }

  /** Turning the drafts filter on never shows a post that was not shown with it off. */
  lemma DraftsOnlyNarrows(posts: seq<Post>, query: string, mode: SortMode)
    ensures multiset(View(posts, true, query, mode)) <= multiset(View(posts, false, query, mode))
  {
    forall x ensures multiset(View(posts, true, query, mode))[x] <= multiset(View(posts, false, query, mode))[x] {
      ViewCount(posts, true, query, mode, x);
      ViewCount(posts, false, query, mode, x);
    }
  }

  lemma LowerAppend(q: string, c: char)
    ensures Lower(q + [c]) == Lower(q) + [LowerChar(c)]
  {
  }

  /** A text holding a pattern holds every prefix of it. */
  lemma ContainsPrefix(s: string, q: string, c: char)
    requires Contains(s, q + [c])
    ensures Contains(s, q)
  {
    ContainsIffOccurs(s, q + [c]);
    var i: nat :| OccursAt(s, q + [c], i);
    assert s[i..i + |q|] == (q + [c])[..|q|] == q;
    assert OccursAt(s, q, i);
    ContainsIffOccurs(s, q);
  }

  lemma MatchesShorterQuery(p: Post, q: string, c: char)
    requires MatchesQuery(p, q + [c])
    ensures MatchesQuery(p, q)
  {
    LowerAppend(q, c);
    if q != [] {
      if Contains(Lower(p.title), Lower(q + [c])) {
        ContainsPrefix(Lower(p.title), Lower(q), LowerChar(c));
      } else if Contains(Lower(p.content), Lower(q + [c])) {
        ContainsPrefix(Lower(p.content), Lower(q), LowerChar(c));
      } else {
        var i :| 0 <= i < |p.categories| && Contains(Lower(p.categories[i]), Lower(q + [c]));
        ContainsPrefix(Lower(p.categories[i]), Lower(q), LowerChar(c));
      }
    }
  }

  /** Typing one more character of the query never brings a post into view (with the ASCII
      lowercasing of `Lower`). */
  lemma LongerQueryNarrows(posts: seq<Post>, draftsOnly: bool, query: string, c: char, mode: SortMode)
    ensures multiset(View(posts, draftsOnly, query + [c], mode)) <= multiset(View(posts, draftsOnly, query, mode))
  {
    forall x ensures multiset(View(posts, draftsOnly, query + [c], mode))[x] <= multiset(View(posts, draftsOnly, query, mode))[x] {
      ViewCount(posts, draftsOnly, query + [c], mode, x);
      ViewCount(posts, draftsOnly, query, mode, x);
      if Passes(x, draftsOnly, query + [c]) { MatchesShorterQuery(x, query, c); }
    }
  }

  lemma NotContainsMissingChar(s: string, pat: string, c: char)
    requires c in pat && c !in s
    ensures !Contains(s, pat)
  {
    var k :| 0 <= k < |pat| && pat[k] == c;
    forall i: nat ensures !OccursAt(s, pat, i) {
      if i + |pat| <= |s| {
        assert s[i..i + |pat|][k] == s[i + k] != c;
      }
    }
    ContainsIffOccurs(s, pat);
  }

  /** The post of the search example below. */
  function SearchSample(): Post {
    Post([], "Alpha", None, false, "", ["Beta"], ["gamma"], "", map[])
  }

  /** Search is case-insensitive: "alp" finds the title "Alpha". */
  lemma SearchIgnoresCase()
    ensures MatchesQuery(SearchSample(), "alp")
  {
    assert Lower("Alpha") == "alpha";
    assert Lower("alp") == "alp";
    assert OccursAt("alpha", "alp", 0);
    ContainsIffOccurs("alpha", "alp");
  }

  /** Search covers categories: "BETA" finds the category "Beta". */
  lemma SearchCoversCategories()
    ensures MatchesQuery(SearchSample(), "BETA")
  {
    var p := SearchSample();
    assert Lower("Beta") == "beta" && Lower("BETA") == "beta";
    assert OccursAt("beta", "beta", 0);
    ContainsIffOccurs("beta", "beta");
    assert Contains(Lower(p.categories[0]), Lower("BETA"));
  }

  /** Search looks at the title, the body and the categories only: replacing a post's tags or
      its frontmatter map never changes whether a query finds it. */
  lemma TagsNeverConsulted(p: Post, query: string, tags: seq<string>, frontmatter: map<string, Value>)
    ensures MatchesQuery(p.(tags := tags, frontmatter := frontmatter), query) == MatchesQuery(p, query)
  {
  }

  /** Search does not cover tags: "gam" does not find the tag "gamma". */
  lemma SearchSkipsTags()
    ensures !MatchesQuery(SearchSample(), "gam")
  {
    var p := SearchSample();
    assert Lower("Alpha") == "alpha" && Lower("Beta") == "beta" && Lower("gam") == "gam";
    NotContainsMissingChar("alpha", "gam", 'g');
    NotContainsMissingChar("", "gam", 'g');
    NotContainsMissingChar("beta", "gam", 'g');
    assert forall i :: 0 <= i < |p.categories| ==> p.categories[i] == "Beta";
  }

  /** Newest first, undated last: the list [b, c, a] of an undated post `b`, an older post `c`
      and a newer post `a` is shown as [a, c, b]. */
  lemma DateDescExample(a: Post, b: Post, c: Post)
    requires a.date.Some? && c.date.Some? && c.date.value < a.date.value && b.date.None?
    ensures View([b, c, a], false, "", DateDesc) == [a, c, b]
  {
    assert Filtered([b, c, a], false, "") == [b, c, a];
    assert [b, c, a][1..] == [c, a];
    assert SortPosts(DateDesc, [b, c, a]) == Insert(DateDesc, b, SortPosts(DateDesc, [c, a]));
    NewerFirst(a, c);
    InsertAfterAll(DateDesc, b, [a, c]);
    assert [a, c] + [b] == [a, c, b];
  }

  /** Two dated posts are sorted newest first. */
  lemma NewerFirst(a: Post, c: Post)
    requires a.date.Some? && c.date.Some? && c.date.value < a.date.value
    ensures SortPosts(DateDesc, [c, a]) == [a, c]
  {
    assert [c, a][1..] == [a] && [a][1..] == [];
    assert SortPosts(DateDesc, [a]) == Insert(DateDesc, a, []) == [a];
    assert SortPosts(DateDesc, [c, a]) == Insert(DateDesc, c, [a]);
    InsertAfterAll(DateDesc, c, [a]);
  }
}
