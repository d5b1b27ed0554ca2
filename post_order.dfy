/** The orders in which posts are listed: the four sort modes of the post list and the
    stable `sort_by` that `get_filtered_posts` and `scan_posts` apply. */
module PostOrder {
  import opened Wrappers
  import opened Text
  import opened Records

  datatype SortMode = DateDesc | DateAsc | TitleAsc | TitleDesc

  /** The next mode of the sort ring: DateDesc, DateAsc, TitleAsc, TitleDesc, and around again. */
  function NextSortMode(m: SortMode): SortMode {
    match m
    case DateDesc => DateAsc
    case DateAsc => TitleAsc
    case TitleAsc => TitleDesc
    case TitleDesc => DateDesc
  }

  /** Four steps around the ring come back to the start, and no fewer do. */
  lemma SortRingHasPeriodFour(m: SortMode)
    ensures NextSortMode(NextSortMode(NextSortMode(NextSortMode(m)))) == m
    ensures NextSortMode(m) != m
    ensures NextSortMode(NextSortMode(m)) != m
    ensures NextSortMode(NextSortMode(NextSortMode(m))) != m
  {
  }

  /** The order of `Option<DateTime>`: a missing date comes before every date. */
  predicate DateLe(a: Option<Timestamp>, b: Option<Timestamp>) {
    a.None? || (b.Some? && a.value <= b.value)
  }

  /** `a` may stay before `b`: the comparator `sort_by` is given for `mode` does not answer `Greater`. */
  predicate Le(mode: SortMode, a: Post, b: Post) {
    match mode
    case DateDesc => DateLe(b.date, a.date)
    case DateAsc => DateLe(a.date, b.date)
    case TitleAsc => LexLe(a.title, b.title)
    case TitleDesc => LexLe(b.title, a.title)
  }

  /** The comparator answers `Equal`. */
  predicate Tied(mode: SortMode, a: Post, b: Post) {
    Le(mode, a, b) && Le(mode, b, a)
  }

  /** Two posts tie exactly when they have the same sort key: the date for the date modes,
      the title for the title modes. */
  lemma TiedIffSameKey(mode: SortMode, a: Post, b: Post)
    ensures Tied(mode, a, b) <==> if mode.DateDesc? || mode.DateAsc? then a.date == b.date else a.title == b.title
  {
    if mode.TitleAsc? || mode.TitleDesc? {
      if a.title == b.title { LexRefl(a.title); }
      if Tied(mode, a, b) { LexAntisym(a.title, b.title); }
    }
  }

  lemma LeTotal(mode: SortMode, a: Post, b: Post)
    ensures Le(mode, a, b) || Le(mode, b, a)
  {
    LexTotal(a.title, b.title);
  }

  lemma LeTrans(mode: SortMode, a: Post, b: Post, c: Post)
    requires Le(mode, a, b) && Le(mode, b, c)
    ensures Le(mode, a, c)
  {
    match mode
    case TitleAsc => LexTrans(a.title, b.title, c.title);
    case TitleDesc => LexTrans(c.title, b.title, a.title);
    case _ =>
  }

  /** Every post may stay before every later one. */
  predicate Sorted(mode: SortMode, s: seq<Post>) {
    forall i, j :: 0 <= i < j < |s| ==> Le(mode, s[i], s[j])
  }

  /** `x` put in front of the first element it may stay before. */
  function Insert(mode: SortMode, x: Post, s: seq<Post>): seq<Post> {
    if s == [] then [x]
    else if Le(mode, x, s[0]) then [x] + s
    else [s[0]] + Insert(mode, x, s[1..])
  }

  /** The insertion holds the posts of `s` and `x`, each as often as before. */
  lemma {:induction false} InsertPermutes(mode: SortMode, x: Post, s: seq<Post>)
    ensures multiset(Insert(mode, x, s)) == multiset(s) + multiset{x}
  {
    if s != [] && !Le(mode, x, s[0]) {
      InsertPermutes(mode, x, s[1..]);
      assert s == [s[0]] + s[1..];
    }
  }

  /** A post that may not stay before the head of `s` is inserted into its tail. */
  lemma InsertPastHead(mode: SortMode, x: Post, s: seq<Post>, tail: seq<Post>)
    requires s != [] && !Le(mode, x, s[0]) && Insert(mode, x, s[1..]) == tail
    ensures Insert(mode, x, s) == [s[0]] + tail
  {
  }

  /** A post that may stay before none of `s` goes to its end. */
  lemma {:induction false} InsertAfterAll(mode: SortMode, x: Post, s: seq<Post>)
    requires forall i :: 0 <= i < |s| ==> !Le(mode, x, s[i])
    ensures Insert(mode, x, s) == s + [x]
  {
    if s != [] {
      var t := s[1..];
      forall i | 0 <= i < |t| ensures !Le(mode, x, t[i]) {
        assert t[i] == s[i + 1];
      }
      InsertAfterAll(mode, x, t);
      InsertPastHead(mode, x, s, t + [x]);
      assert [s[0]] + (t + [x]) == s + [x];
    }
  }

  /** `slice::sort_by` with the comparator of `mode`; stable, as the standard library's sort is. */
  function SortPosts(mode: SortMode, s: seq<Post>): seq<Post> {
    if s == [] then [] else Insert(mode, s[0], SortPosts(mode, s[1..]))
  }

  /** The sort gives a permutation of its input. */
  lemma {:induction false} SortPostsPermutes(mode: SortMode, s: seq<Post>)
    ensures multiset(SortPosts(mode, s)) == multiset(s)
  {
    if s != [] {
      SortPostsPermutes(mode, s[1..]);
      InsertPermutes(mode, s[0], SortPosts(mode, s[1..]));
      assert s == [s[0]] + s[1..];
    }
  }

  /** The posts of `s` that tie with `y`, in their order in `s`. */
  function Ties(mode: SortMode, s: seq<Post>, y: Post): seq<Post> {
    if s == [] then [] else (if Tied(mode, s[0], y) then [s[0]] else []) + Ties(mode, s[1..], y)
  }

  /** A post that may stay before every post of a sorted sequence heads a sorted sequence. */
  lemma SortedCons(mode: SortMode, h: Post, t: seq<Post>)
    requires Sorted(mode, t) && forall k :: 0 <= k < |t| ==> Le(mode, h, t[k])
    ensures Sorted(mode, [h] + t)
  {
    var r := [h] + t;
    forall i, j | 0 <= i < j < |r| ensures Le(mode, r[i], r[j]) {
      assert r[j] == t[j - 1];
      if i > 0 { assert r[i] == t[i - 1]; }
    }
  }

  /** A lower bound of `x` and of every post of `s` is one of every post of the insertion. */
  lemma InsertKeepsLowerBound(mode: SortMode, b: Post, x: Post, s: seq<Post>)
    requires Le(mode, b, x) && forall i :: 0 <= i < |s| ==> Le(mode, b, s[i])
    ensures forall k :: 0 <= k < |Insert(mode, x, s)| ==> Le(mode, b, Insert(mode, x, s)[k])
  {
    var r := Insert(mode, x, s);
    InsertPermutes(mode, x, s);
    forall k | 0 <= k < |r| ensures Le(mode, b, r[k]) {
      assert r[k] in multiset(r);
      if r[k] != x {
        assert r[k] in multiset(s);
        var m :| 0 <= m < |s| && s[m] == r[k];
      }
    }
  }

  lemma {:induction false} InsertSorted(mode: SortMode, x: Post, s: seq<Post>)
    requires Sorted(mode, s)
    ensures Sorted(mode, Insert(mode, x, s))
  {
    if s == [] {
    } else if Le(mode, x, s[0]) {
      forall k | 0 <= k < |s| ensures Le(mode, x, s[k]) {
        if k > 0 { LeTrans(mode, x, s[0], s[k]); }
      }
      SortedCons(mode, x, s);
    } else {
      var tail := s[1..];
      LeTotal(mode, x, s[0]);
      forall i | 0 <= i < |tail| ensures Le(mode, s[0], tail[i]) {
        assert tail[i] == s[i + 1];
      }
      assert Sorted(mode, tail) by {
        forall i, j | 0 <= i < j < |tail| ensures Le(mode, tail[i], tail[j]) {
          assert tail[i] == s[i + 1] && tail[j] == s[j + 1];
        }
      }
      var t := Insert(mode, x, tail);
      InsertSorted(mode, x, tail);
      InsertKeepsLowerBound(mode, s[0], x, tail);
      InsertPastHead(mode, x, s, t);
      SortedCons(mode, s[0], t);
    }
  }

  /** The sort orders its input. */
  lemma {:induction false} SortPostsSorted(mode: SortMode, s: seq<Post>)
    ensures Sorted(mode, SortPosts(mode, s))
  {
    if s != [] {
      SortPostsSorted(mode, s[1..]);
      InsertSorted(mode, s[0], SortPosts(mode, s[1..]));
    }
  }

  lemma TiesCons(mode: SortMode, h: Post, t: seq<Post>, y: Post)
    ensures Ties(mode, [h] + t, y) == (if Tied(mode, h, y) then [h] else []) + Ties(mode, t, y)
  {
    assert ([h] + t)[0] == h && ([h] + t)[1..] == t;
  }

  /** Two posts of which the first may not stay before the second cannot both tie with a third. */
  lemma NotBothTied(mode: SortMode, x: Post, z: Post, y: Post)
    requires !Le(mode, x, z)
    ensures !(Tied(mode, x, y) && Tied(mode, z, y))
  {
    if Tied(mode, x, y) && Tied(mode, z, y) {
      LeTrans(mode, x, y, z);
    }
  }

  lemma SwapWhenOneEmpty(a: seq<Post>, b: seq<Post>, rest: seq<Post>)
    requires a == [] || b == []
    ensures a + (b + rest) == b + (a + rest)
  {
  }

  lemma {:induction false} InsertTies(mode: SortMode, x: Post, s: seq<Post>, y: Post)
    ensures Ties(mode, Insert(mode, x, s), y) == (if Tied(mode, x, y) then [x] else []) + Ties(mode, s, y)
  {
    if s == [] {
      TiesCons(mode, x, [], y);
    } else if Le(mode, x, s[0]) {
      TiesCons(mode, x, s, y);
    } else {
      var t := Insert(mode, x, s[1..]);
      var a := if Tied(mode, s[0], y) then [s[0]] else [];
      var b := if Tied(mode, x, y) then [x] else [];
      var rest := Ties(mode, s[1..], y);
      NotBothTied(mode, x, s[0], y);
      calc {
        Ties(mode, Insert(mode, x, s), y);
        == { assert Insert(mode, x, s) == [s[0]] + t; }
        Ties(mode, [s[0]] + t, y);
        == { TiesCons(mode, s[0], t, y); }
        a + Ties(mode, t, y);
        == { InsertTies(mode, x, s[1..], y); }
        a + (b + rest);
        == { SwapWhenOneEmpty(a, b, rest); }
        b + (a + rest);
        == { TiesCons(mode, s[0], s[1..], y); assert [s[0]] + s[1..] == s; }
        b + Ties(mode, s, y);
      }
    }
  }

  /** The sort is stable: posts that tie keep their relative order. */
  lemma {:induction false} SortPostsStable(mode: SortMode, s: seq<Post>, y: Post)
    ensures Ties(mode, SortPosts(mode, s), y) == Ties(mode, s, y)
  {
    if s != [] {
      SortPostsStable(mode, s[1..], y);
      InsertTies(mode, s[0], SortPosts(mode, s[1..]), y);
    }
  }

  /** Sorting an ordered sequence leaves it as it is. */
  lemma {:induction false} SortedIsFixpoint(mode: SortMode, s: seq<Post>)
    requires Sorted(mode, s)
    ensures SortPosts(mode, s) == s
  {
    if s != [] {
      assert Sorted(mode, s[1..]);
      SortedIsFixpoint(mode, s[1..]);
      if |s| > 1 {
        assert Le(mode, s[0], s[1]);
      }
      assert [s[0]] + s[1..] == s;
    }
  }

  /** Sorting twice gives the order sorting once gives. */
  lemma SortPostsIdempotent(mode: SortMode, s: seq<Post>)
    ensures SortPosts(mode, SortPosts(mode, s)) == SortPosts(mode, s)
  {
    SortPostsSorted(mode, s);
    SortedIsFixpoint(mode, SortPosts(mode, s));
  }

  /** Newest first: in date-descending order every dated post precedes every undated one,
      and the dates never increase. */
  lemma DateDescOrder(s: seq<Post>)
    requires Sorted(DateDesc, s)
    ensures forall i, j :: 0 <= i < j < |s| && s[i].date.None? ==> s[j].date.None?
    ensures forall i, j :: 0 <= i < j < |s| && s[j].date.Some? ==> s[i].date.Some? && s[j].date.value <= s[i].date.value
  {
    forall i, j | 0 <= i < j < |s| ensures Le(DateDesc, s[i], s[j]) { }
  }
}
