/**
 * The category that `handleRoute` derives from `window.location.pathname`,
 * and the test that picks the fixed-posts view.
 */
module Routing {
  import opened Text

  /** What the root path maps to. It is not "home". */
  const RootCategory: string := "a-lifers-tech-blog/"

  /** The one category that shows the fixed posts instead of a listing. */
  const HomeCategory: string := "home"

  /** `path === '/' ? 'a-lifers-tech-blog/' : path.substring(1).split('/')[0]`. */
  function CategoryOf(path: string): (category: string)
    ensures path == "/" ==> category == RootCategory
    ensures path != "/" ==> '/' !in category
    ensures path == [] ==> category == []
    ensures path != "/" && path != [] ==>
      |category| < |path| && path[1..|category| + 1] == category &&
      (|category| + 1 == |path| || path[|category| + 1] == '/')
  {
    if path == "/" then RootCategory else BeforeFirst(DropFirst(path), '/')
  }

  /** Only the paths "/home" and "/home/..." reach the fixed-posts branch;
      the root path "/" does not. */
  lemma {:induction false} HomeIff(path: string)
    ensures CategoryOf(path) == HomeCategory <==>
      |path| >= 5 && path[1..5] == "home" && (|path| == 5 || path[5] == '/')
  {
    var c := CategoryOf(path);
    if c == HomeCategory {
      assert path != "/";
    }
    if |path| >= 5 && path[1..5] == "home" && (|path| == 5 || path[5] == '/') {
      assert path != "/";
      var rest := DropFirst(path);
      assert rest[..4] == "home";
      assert rest[0] != '/' && rest[1] != '/' && rest[2] != '/' && rest[3] != '/';
      BeforeFirstStopsAt(rest, '/', 4);
    }
  }

  /** The text before the first separator is everything before position `k`
      when position `k` is the first separator or the end. */
  lemma BeforeFirstStopsAt(s: string, sep: char, k: nat)
    requires k <= |s|
    requires forall i :: 0 <= i < k ==> s[i] != sep
    requires k == |s| || s[k] == sep
    ensures BeforeFirst(s, sep) == s[..k]
  {
  }

  /** The root path goes through the category filter. */
  lemma RootIsNotHome()
    ensures CategoryOf("/") != HomeCategory
    ensures CategoryOf("/") == "a-lifers-tech-blog/"
  {
  }

  /** "/post/3" names the category "post", and "/tech" the category "tech". */
  lemma PathExamples()
    ensures CategoryOf("/post/3") == "post"
    ensures CategoryOf("/tech") == "tech"
    ensures CategoryOf("/latest") == "latest"
  {
    BeforeFirstStopsAt("post/3", '/', 4);
    BeforeFirstStopsAt("tech", '/', 4);
    BeforeFirstStopsAt("latest", '/', 6);
  }
}
