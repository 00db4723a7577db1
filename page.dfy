/**
 * The page the router paints: the fixed-posts section, the dynamic posts
 * container (as a view model: a list of cards or the "no posts"
 * placeholder) and the navigation bar's links. `renderDynamicPosts`,
 * `togglePostContainers`, `updateActiveClass` and `handleRoute` are the
 * methods of `Document`; the pure functions beside it say what they produce.
 */
module Page {
  import opened Text
  import opened Posts
  import opened Routing

  /** `style.display`: never set yet, 'block' or 'none'. */
  datatype Display = Unset | Block | Hidden

  /** What one `article` summary card shows. */
  datatype Card = Card(
    link: string,
    titulo: string,
    autor: string,
    dataPublicacao: int,
    capa: Option<string>,
    excerpt: string)

  /** A child of the posts container: the "no posts found" paragraph, a
      summary card, or markup put there before the router ran. */
  datatype Node = NoPostsPlaceholder | PostCard(card: Card) | Markup(html: string)

  /** One `.navbar-nav .nav-link`: its `href` attribute ("" when absent), its
      `data-category` and whether it carries the `active` class together
      with `aria-current="page"`. */
  datatype NavLink = NavLink(href: string, category: Option<string>, active: bool)

  /** Characters of the body kept in a card's excerpt. */
  const ExcerptBudget: nat := 150

  const LinkPrefix: string := "post.html?id="

  /** `conteudo.substring(0, 150) + '...'`: the ellipsis is added whether or
      not anything was cut. */
  function Excerpt(conteudo: string): (e: string)
    ensures |e| <= ExcerptBudget + 3
    ensures |e| >= 3 && e[|e| - 3..] == "..."
    ensures |e| - 3 <= |conteudo| && e[..|e| - 3] == conteudo[..|e| - 3]
    ensures |conteudo| <= ExcerptBudget ==> e == conteudo + "..."
    ensures |conteudo| > ExcerptBudget ==> |e| == ExcerptBudget + 3
  {
    var n := if |conteudo| < ExcerptBudget then |conteudo| else ExcerptBudget;
    conteudo[..n] + "..."
  }

  /** The card that the `forEach` body builds for one post. */
  function CardOf(p: Post): (c: Card)
    ensures |c.link| == |LinkPrefix| + |p.id| && c.link[..|LinkPrefix|] == LinkPrefix && c.link[|LinkPrefix|..] == p.id
    ensures c.titulo == p.titulo && c.autor == p.autor && c.dataPublicacao == p.dataPublicacao
    ensures c.capa.Some? <==> Truthy(p.imagemCapa)
    ensures c.capa.Some? ==> c.capa == p.imagemCapa && c.capa.value != ""
    ensures c.excerpt == Excerpt(p.conteudo)
  {
    Card(LinkPrefix + p.id, p.titulo, p.autor, p.dataPublicacao,
         if Truthy(p.imagemCapa) then p.imagemCapa else None,
         Excerpt(p.conteudo))
  }

  /** The cards of `posts`, one per post, in order. */
  function CardsOf(posts: seq<Post>): (cards: seq<Node>)
    ensures |cards| == |posts|
    ensures forall i :: 0 <= i < |posts| ==> cards[i] == PostCard(CardOf(posts[i]))
  {
    if posts == [] then [] else [PostCard(CardOf(posts[0]))] + CardsOf(posts[1..])
  }

  /** The container's children after `renderDynamicPosts(posts)`. */
  function Rendered(posts: seq<Post>): (nodes: seq<Node>)
    ensures posts == [] <==> nodes == [NoPostsPlaceholder]
    ensures posts != [] ==> nodes == CardsOf(posts)
  {
    if posts == [] then [NoPostsPlaceholder] else CardsOf(posts)
  }

  /** A non-empty list renders one card per post, in input order, each
      linking to `post.html?id=<id>` and showing a bounded excerpt that
      starts with the body and ends with "...", and no placeholder. */
  lemma RenderedCards(posts: seq<Post>)
    requires posts != []
    ensures |Rendered(posts)| == |posts|
    ensures NoPostsPlaceholder !in Rendered(posts)
    ensures forall i :: 0 <= i < |posts| ==>
      var n := Rendered(posts)[i];
      n.PostCard? &&
      n.card.link == LinkPrefix + posts[i].id &&
      n.card.titulo == posts[i].titulo && n.card.autor == posts[i].autor &&
      |n.card.excerpt| <= ExcerptBudget + 3 &&
      n.card.excerpt[|n.card.excerpt| - 3..] == "..." &&
      n.card.excerpt[..|n.card.excerpt| - 3] == posts[i].conteudo[..|n.card.excerpt| - 3]
  {
  }

  /** Whether a link ends up active for `current`: on "home", the link to
      "/" is active exactly when its category is "latest"; otherwise a link
      is active when it has a non-empty category equal, ignoring case, to
      `current`. */
  predicate ActiveFor(link: NavLink, current: string)
    ensures ActiveFor(link, current) ==> link.category.Some? && link.category.value != ""
    ensures current == HomeCategory && link.href == "/" ==>
      (ActiveFor(link, current) <==> link.category == Some("latest"))
    ensures !(current == HomeCategory && link.href == "/") ==>
      (ActiveFor(link, current) <==> Truthy(link.category) && Lower(link.category.value) == Lower(current))
  {
    if current == HomeCategory && link.href == "/" then link.category == Some("latest")
    else Truthy(link.category) && Lower(link.category.value) == Lower(current)
  }

  /** Every link with its active state recomputed for `current`. */
  function Highlighted(links: seq<NavLink>, current: string): (r: seq<NavLink>)
    ensures |r| == |links|
    ensures forall i :: 0 <= i < |links| ==>
      r[i].href == links[i].href && r[i].category == links[i].category &&
      r[i].active == ActiveFor(links[i], current)
  {
    if links == [] then []
    else [links[0].(active := ActiveFor(links[0], current))] + Highlighted(links[1..], current)
  }

  /** The previous active states play no part: highlighting twice is
      highlighting once. */
  lemma HighlightIdempotent(links: seq<NavLink>, current: string)
    ensures Highlighted(Highlighted(links, current), current) == Highlighted(links, current)
  {
    var once := Highlighted(links, current);
    var twice := Highlighted(once, current);
    forall i | 0 <= i < |links| ensures twice[i] == once[i] {
      assert ActiveFor(once[i], current) == ActiveFor(links[i], current);
    }
  }

  /** A link without a (non-empty) category is active only as the "latest"
      link to "/" on "home", which needs a category; so it is never active. */
  lemma UncategorisedLinkNeverActive(links: seq<NavLink>, current: string, i: nat)
    requires i < |links| && !Truthy(links[i].category)
    ensures !Highlighted(links, current)[i].active
  {
  }

  /** Away from "home", the highlighted link does not depend on the case of
      the current category; "HOME" is not "home" and so is case-matched. */
  lemma HighlightIgnoresCase(links: seq<NavLink>, c1: string, c2: string)
    requires Lower(c1) == Lower(c2) && c1 != HomeCategory && c2 != HomeCategory
    ensures Highlighted(links, c1) == Highlighted(links, c2)
  {
    var r1, r2 := Highlighted(links, c1), Highlighted(links, c2);
    forall i | 0 <= i < |links| ensures r1[i] == r2[i] {
    }
  }

  /** On "home", a link to "/" is active exactly when it is the "latest" link. */
  lemma HomeHighlightsLatestRootLink(links: seq<NavLink>, i: nat)
    requires i < |links| && links[i].href == "/"
    ensures Highlighted(links, HomeCategory)[i].active <==> links[i].category == Some("latest")
  {
  }

  /** The root path "/" derives a category that no "latest" link matches,
      so visiting "/" leaves the "latest" link to "/" inactive. */
  lemma RootPathLeavesLatestInactive(links: seq<NavLink>, i: nat)
    requires i < |links| && links[i].category == Some("latest")
    ensures !Highlighted(links, CategoryOf("/"))[i].active
  {
    var root := CategoryOf("/");
    assert |root| == 19 && root != HomeCategory;
    assert |Lower(root)| == 19 && |Lower("latest")| == 6;
    assert !ActiveFor(links[i], root);
  }

  /** The browser page: which elements exist, their display, the posts
      container's children and the navigation links. */
  class Document {
    /** `document.getElementById('fixed-posts')` is present. */
    const hasFixedSection: bool
    /** `document.getElementById('posts-container')` is present. */
    const hasPostsContainer: bool
    var fixedDisplay: Display
    var postsDisplay: Display
    var postsNodes: seq<Node>
    /** `document.querySelectorAll('.navbar-nav .nav-link')`. */
    const links: array<NavLink>

    constructor (fixedSection: bool, postsContainer: bool, initialNodes: seq<Node>, navLinks: seq<NavLink>)
      ensures hasFixedSection == fixedSection && hasPostsContainer == postsContainer
      ensures fixedDisplay == Unset && postsDisplay == Unset
      ensures postsNodes == initialNodes
      ensures fresh(links) && links[..] == navLinks
    {
      hasFixedSection, hasPostsContainer := fixedSection, postsContainer;
      fixedDisplay, postsDisplay := Unset, Unset;
      postsNodes := initialNodes;
      links := new NavLink[|navLinks|](i requires 0 <= i < |navLinks| => navLinks[i]);
    }

    /** `togglePostContainers(showFixed, showDynamic)`: each present
        element is shown or hidden; a missing one is skipped. */
    method TogglePostContainers(showFixed: bool, showDynamic: bool)
      modifies this
      ensures fixedDisplay == if hasFixedSection then (if showFixed then Block else Hidden) else old(fixedDisplay)
      ensures postsDisplay == if hasPostsContainer then (if showDynamic then Block else Hidden) else old(postsDisplay)
      ensures postsNodes == old(postsNodes)
    {
      if hasFixedSection {
        fixedDisplay := if showFixed then Block else Hidden;
      }
      if hasPostsContainer {
        postsDisplay := if showDynamic then Block else Hidden;
      }
    }

    /** `renderDynamicPosts(posts)`: clears the container, then puts the
        placeholder or appends one card per post; without a container
        nothing changes. */
    method RenderDynamicPosts(posts: seq<Post>)
      modifies this
      ensures postsNodes == if hasPostsContainer then Rendered(posts) else old(postsNodes)
      ensures fixedDisplay == old(fixedDisplay) && postsDisplay == old(postsDisplay)
    {
      if !hasPostsContainer {
        return;
      }
      postsNodes := [];
      if |posts| == 0 {
        postsNodes := [NoPostsPlaceholder];
        return;
      }
      for i := 0 to |posts|
        invariant |postsNodes| == i
        invariant forall k :: 0 <= k < i ==> postsNodes[k] == PostCard(CardOf(posts[k]))
        invariant fixedDisplay == old(fixedDisplay) && postsDisplay == old(postsDisplay)
      {
        postsNodes := postsNodes + [PostCard(CardOf(posts[i]))];
      }
      assert postsNodes == CardsOf(posts);
    }

    /** `updateActiveClass(current)`: every link loses its active state and
        gets it back exactly when `ActiveFor` holds. */
    method UpdateActiveClass(current: string)
      modifies links
      ensures links[..] == Highlighted(old(links[..]), current)
    {
      ghost var before := links[..];
      for i := 0 to links.Length
        invariant forall k :: 0 <= k < i ==> links[k] == before[k].(active := ActiveFor(before[k], current))
        invariant forall k :: i <= k < links.Length ==> links[k] == before[k]
      {
        var link := links[i].(active := false);
        links[i] := link.(active := ActiveFor(link, current));
      }
      assert links[..] == Highlighted(before, current);
    }

    /** `handleRoute()` for the current `path`. `fetched` is what
        `fetchPosts()` resolves to; it is only consulted off "home". */
    method HandleRoute(path: string, fetched: seq<Post>) returns (category: string)
      modifies this, links
      ensures category == CategoryOf(path)
      ensures category == HomeCategory ==>
        fixedDisplay == (if hasFixedSection then Block else old(fixedDisplay)) &&
        postsDisplay == (if hasPostsContainer then Hidden else old(postsDisplay)) &&
        postsNodes == (if hasPostsContainer then [NoPostsPlaceholder] else old(postsNodes))
      ensures category != HomeCategory ==>
        fixedDisplay == (if hasFixedSection then Hidden else old(fixedDisplay)) &&
        postsDisplay == (if hasPostsContainer then Block else old(postsDisplay)) &&
        postsNodes == (if hasPostsContainer then Rendered(FilterPostsByCategory(fetched, category)) else old(postsNodes))
      ensures links[..] == Highlighted(old(links[..]), category)
    {
      category := CategoryOf(path);
      if category == HomeCategory {
        TogglePostContainers(true, false);
        RenderDynamicPosts([]);
      } else {
        TogglePostContainers(false, true);
        var postsToDisplay := FilterPostsByCategory(fetched, category);
        RenderDynamicPosts(postsToDisplay);
      }
      UpdateActiveClass(category);
    }
  }
}
