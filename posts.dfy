/**
 * The post record and `filterPostsByCategory`: the "latest" listing (a
 * stable sort, newest first) and the case-insensitive category filter.
 */
module Posts {
  import opened Text

  datatype Option<T> = None | Some(value: T)

  /** One entry of the post collection. `id` is the text the id prints as;
      `dataPublicacao` is the publication instant as a number. */
  datatype Post = Post(
    id: string,
    titulo: string,
    autor: string,
    dataPublicacao: int,
    conteudo: string,
    categoria: Option<string>,
    imagemCapa: Option<string>)

  /** JavaScript truthiness of an optional string: present and not "". */
  predicate Truthy(o: Option<string>)
  {
    o.Some? && o.value != ""
  }

  /** The filter's test: `post.categoria && post.categoria.toLowerCase() === category.toLowerCase()`. */
  predicate InCategory(p: Post, category: string)
    ensures InCategory(p, category) ==> Truthy(p.categoria) && |p.categoria.value| == |category|
    ensures Truthy(p.categoria) && p.categoria.value == category ==> InCategory(p, category)
  {
    Truthy(p.categoria) && Lower(p.categoria.value) == Lower(category)
  }

  /** The two exact (case-sensitive) strings that select the sorted listing. */
  predicate IsLatestMode(category: string)
    ensures category == "latest" || category == "latests" ==> IsLatestMode(category)
    ensures IsLatestMode(category) ==> 6 <= |category| <= 7 && category[..6] == "latest"
    ensures IsLatestMode(category) && |category| == 7 ==> category[6] == 's'
    ensures IsLatestMode(category) ==> Lower(category) == category
  {
    category == "latest" || category == "latests"
  }

  /** `r` can be obtained from `s` by deleting elements, keeping the order. */
  predicate IsSubsequence(r: seq<Post>, s: seq<Post>)
    decreases |s|
  {
    if r == [] then true
    else if s == [] then false
    else if r[0] == s[0] then IsSubsequence(r[1..], s[1..])
    else IsSubsequence(r, s[1..])
  }

  /** `allPosts.filter(post => InCategory(post, category))`. */
  function KeepCategory(posts: seq<Post>, category: string): (r: seq<Post>)
    ensures forall i :: 0 <= i < |r| ==> InCategory(r[i], category)
    ensures forall p :: multiset(r)[p] == if InCategory(p, category) then multiset(posts)[p] else 0
    ensures IsSubsequence(r, posts)
  {
    if posts == [] then []
    else
      assert posts == [posts[0]] + posts[1..];
      var rest := KeepCategory(posts[1..], category);
      if InCategory(posts[0], category) then [posts[0]] + rest else rest
  }

  /** Newest first: publication instants never increase along `s`. */
  predicate SortedNewestFirst(s: seq<Post>)
  {
    forall i, j :: 0 <= i < j < |s| ==> s[i].dataPublicacao >= s[j].dataPublicacao
  }

  /** The posts of `s` published at instant `t`, in the order of `s`. */
  function PublishedAt(s: seq<Post>, t: int): (r: seq<Post>)
    ensures |r| <= |s|
    ensures forall i :: 0 <= i < |r| ==> r[i].dataPublicacao == t
    ensures (forall i :: 0 <= i < |s| ==> s[i].dataPublicacao != t) ==> r == []
    ensures |s| > 0 && s[0].dataPublicacao == t ==> |r| > 0 && r[0] == s[0]
  {
    if s == [] then []
    else if s[0].dataPublicacao == t then [s[0]] + PublishedAt(s[1..], t)
    else PublishedAt(s[1..], t)
  }

  /** `PublishedAt(s, t)` keeps every post of `s` published at `t`, with its
      multiplicity, drops every other post, and keeps the order of `s`. */
  lemma {:induction false} PublishedAtSelects(s: seq<Post>, t: int)
    ensures IsSubsequence(PublishedAt(s, t), s)
    ensures forall p :: multiset(PublishedAt(s, t))[p] == if p.dataPublicacao == t then multiset(s)[p] else 0
  {
    if s != [] {
      PublishedAtSelects(s[1..], t);
      assert s == [s[0]] + s[1..];
    }
  }

  /** `r` keeps the relative order that `s` gives posts with equal instants. */
  ghost predicate StableFor(r: seq<Post>, s: seq<Post>)
  {
    forall t :: PublishedAt(r, t) == PublishedAt(s, t)
  }

  lemma PublishedAtCons(x: Post, s: seq<Post>, t: int)
    ensures PublishedAt([x] + s, t) == (if x.dataPublicacao == t then [x] else []) + PublishedAt(s, t)
  {
  }

  lemma SortedCons(h: Post, s: seq<Post>)
    requires SortedNewestFirst(s)
    requires s != [] ==> s[0].dataPublicacao <= h.dataPublicacao
    ensures SortedNewestFirst([h] + s)
  {
  }

  /** Places `x` in front of the first post of `r` that is not newer than it. */
  function InsertNewestFirst(x: Post, r: seq<Post>): (q: seq<Post>)
    requires SortedNewestFirst(r)
    ensures SortedNewestFirst(q)
    ensures multiset(q) == multiset(r) + multiset{x}
    ensures q != [] && (q[0] == x || (r != [] && q[0] == r[0]))
  {
    if r == [] || x.dataPublicacao >= r[0].dataPublicacao then
      [x] + r
    else
      assert r == [r[0]] + r[1..];
      var tail := InsertNewestFirst(x, r[1..]);
      SortedCons(r[0], tail);
      assert multiset([r[0]] + tail) == multiset{r[0]} + multiset(tail);
      [r[0]] + tail
  }

  /** Inserting `x` puts it ahead of every post of `r` with the same instant. */
  lemma {:induction false} InsertKeepsOrderWithinInstant(x: Post, r: seq<Post>, t: int)
    requires SortedNewestFirst(r)
    ensures PublishedAt(InsertNewestFirst(x, r), t) == PublishedAt([x] + r, t)
  {
    if r != [] && x.dataPublicacao < r[0].dataPublicacao {
      var rest := r[1..];
      var inserted := InsertNewestFirst(x, rest);
      assert InsertNewestFirst(x, r) == [r[0]] + inserted;
      assert r == [r[0]] + rest;
      var atHead := if r[0].dataPublicacao == t then [r[0]] else [];
      var atX := if x.dataPublicacao == t then [x] else [];
      InsertKeepsOrderWithinInstant(x, rest, t);
      PublishedAtCons(r[0], inserted, t);
      PublishedAtCons(x, rest, t);
      PublishedAtCons(r[0], rest, t);
      PublishedAtCons(x, r, t);
      assert atHead == [] || atX == [];
      assert PublishedAt(InsertNewestFirst(x, r), t) == atHead + (atX + PublishedAt(rest, t));
      assert PublishedAt([x] + r, t) == atX + (atHead + PublishedAt(rest, t));
    }
  }

  /** `[...allPosts].sort((a, b) => new Date(b.dataPublicacao) - new Date(a.dataPublicacao))`:
      a stable sort, newest first, of a copy of the collection, with the
      integer instant standing for the Date's time value. */
  function SortNewestFirst(s: seq<Post>): (r: seq<Post>)
    ensures SortedNewestFirst(r)
    ensures multiset(r) == multiset(s)
    ensures StableFor(r, s)
  {
    if s == [] then []
    else
      var rest := SortNewestFirst(s[1..]);
      assert s == [s[0]] + s[1..];
      forall t ensures PublishedAt(InsertNewestFirst(s[0], rest), t) == PublishedAt(s, t) {
        InsertKeepsOrderWithinInstant(s[0], rest, t);
        PublishedAtCons(s[0], rest, t);
        PublishedAtCons(s[0], s[1..], t);
      }
      InsertNewestFirst(s[0], rest)
  }

  lemma HeadIsPublishedAtItsInstant(s: seq<Post>)
    requires s != []
    ensures PublishedAt(s, s[0].dataPublicacao) != []
  {
  }

  lemma NothingNewerThanHead(s: seq<Post>, t: int)
    requires SortedNewestFirst(s) && s != [] && t > s[0].dataPublicacao
    ensures PublishedAt(s, t) == []
  {
  }

  /** Two newest-first orderings that agree on the order within every
      instant are the same sequence. */
  lemma {:induction false} NewestFirstUnique(a: seq<Post>, b: seq<Post>)
    requires SortedNewestFirst(a) && SortedNewestFirst(b)
    requires StableFor(a, b)
    ensures a == b
    decreases |a|
  {
    if a == [] && b != [] {
      HeadIsPublishedAtItsInstant(b);
      assert false;
    } else if a != [] && b == [] {
      HeadIsPublishedAtItsInstant(a);
      assert false;
    } else if a != [] {
      var ta, tb := a[0].dataPublicacao, b[0].dataPublicacao;
      if ta > tb {
        HeadIsPublishedAtItsInstant(a);
        NothingNewerThanHead(b, ta);
        assert false;
      }
      if tb > ta {
        HeadIsPublishedAtItsInstant(b);
        NothingNewerThanHead(a, tb);
        assert false;
      }
      assert a == [a[0]] + a[1..] && b == [b[0]] + b[1..];
      PublishedAtCons(a[0], a[1..], ta);
      PublishedAtCons(b[0], b[1..], ta);
      assert a[0] == b[0];
      forall t ensures PublishedAt(a[1..], t) == PublishedAt(b[1..], t) {
        PublishedAtCons(a[0], a[1..], t);
        PublishedAtCons(b[0], b[1..], t);
        var head := if ta == t then [a[0]] else [];
        assert PublishedAt(a, t) == PublishedAt(b, t);
        assert PublishedAt(a[1..], t) == (head + PublishedAt(a[1..], t))[|head|..];
        assert PublishedAt(b[1..], t) == (head + PublishedAt(b[1..], t))[|head|..];
      }
      NewestFirstUnique(a[1..], b[1..]);
    }
  }

  /** `filterPostsByCategory(allPosts, category)`. The input is a value, so
      the spread copy leaves the caller's collection as it was. */
  function FilterPostsByCategory(allPosts: seq<Post>, category: string): (r: seq<Post>)
    ensures IsLatestMode(category) ==>
      SortedNewestFirst(r) && multiset(r) == multiset(allPosts) && StableFor(r, allPosts)
    ensures !IsLatestMode(category) ==>
      IsSubsequence(r, allPosts) &&
      (forall i :: 0 <= i < |r| ==> InCategory(r[i], category)) &&
      (forall p :: multiset(r)[p] == if InCategory(p, category) then multiset(allPosts)[p] else 0)
  {
    if IsLatestMode(category) then SortNewestFirst(allPosts)
    else KeepCategory(allPosts, category)
  }

  /** The latest listing is exactly the one stable newest-first ordering of
      the collection: any sort meeting the stable-sort contract agrees. */
  lemma LatestIsTheStableSort(allPosts: seq<Post>, category: string, r: seq<Post>)
    requires IsLatestMode(category)
    requires SortedNewestFirst(r) && StableFor(r, allPosts)
    ensures FilterPostsByCategory(allPosts, category) == r
  {
    var f := FilterPostsByCategory(allPosts, category);
    NewestFirstUnique(f, r);
  }

  lemma {:induction false} KeepCategoryIgnoresCase(posts: seq<Post>, c1: string, c2: string)
    requires Lower(c1) == Lower(c2)
    ensures KeepCategory(posts, c1) == KeepCategory(posts, c2)
  {
    if posts != [] {
      KeepCategoryIgnoresCase(posts[1..], c1, c2);
    }
  }

  /** Category strings with equal lower case select the same posts, unless
      one of them is one of the two exact latest-mode strings. */
  lemma CategoryIgnoresCase(allPosts: seq<Post>, c1: string, c2: string)
    requires Lower(c1) == Lower(c2)
    requires !IsLatestMode(c1) && !IsLatestMode(c2)
    ensures FilterPostsByCategory(allPosts, c1) == FilterPostsByCategory(allPosts, c2)
  {
    KeepCategoryIgnoresCase(allPosts, c1, c2);
  }

  /** Latest mode is case-sensitive: "Latest" and "LATEST" are ordinary
      category names, both listing only posts whose category reads
      "latest" in some case. */
  lemma CapitalisedLatestIsACategory(allPosts: seq<Post>)
    ensures !IsLatestMode("Latest") && !IsLatestMode("LATEST")
    ensures FilterPostsByCategory(allPosts, "Latest") == FilterPostsByCategory(allPosts, "LATEST")
    ensures forall p :: p in FilterPostsByCategory(allPosts, "Latest") ==>
      p.categoria.Some? && Lower(p.categoria.value) == "latest"
  {
    assert Lower("Latest") == "latest" == Lower("LATEST");
    CategoryIgnoresCase(allPosts, "Latest", "LATEST");
    var r := FilterPostsByCategory(allPosts, "Latest");
    forall p | p in r ensures p.categoria.Some? && Lower(p.categoria.value) == "latest" {
      var i :| 0 <= i < |r| && r[i] == p;
      assert InCategory(r[i], "Latest");
    }
  }

  /** Posts filed under "Tech" and "tech" are both listed for "TECH". */
  lemma MixedCaseCategoryExample(p1: Post, p2: Post)
    requires p1.categoria == Some("Tech") && p2.categoria == Some("tech")
    ensures FilterPostsByCategory([p1, p2], "TECH") == [p1, p2]
  {
    LowerOfLower("tech");
    assert Lower("TECH") == "tech" by {
      assert forall i :: 0 <= i < 4 ==> Lower("TECH")[i] == "tech"[i];
    }
    assert Lower("Tech") == "tech" by {
      assert forall i :: 0 <= i < 4 ==> Lower("Tech")[i] == "tech"[i];
    }
    assert InCategory(p1, "TECH") && InCategory(p2, "TECH");
    assert [p1, p2] == [p1] + [p2] && [p1, p2][1..] == [p2] && [p2][1..] == [];
    assert KeepCategory([p2], "TECH") == [p2];
  }
}
