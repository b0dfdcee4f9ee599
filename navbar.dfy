/** The navigation bar of `src/components/Navbar.tsx`: the menu links with their labels and
    active marks, and the open/closed state of the mobile menu. */
module Navbar {
  import opened Wrappers

  /** The paths both menus list, in this order. */
  const MenuPaths: seq<string> := ["/", "/blogs", "/about"]

  /** The index of the first `c` in `s`, or `|s|` when there is none. */
  function FirstIndex(s: string, c: char): (i: nat)
    ensures i <= |s|
    ensures forall k :: 0 <= k < i ==> s[k] != c
    ensures i < |s| ==> s[i] == c
  {
    if s == [] || s[0] == c then 0 else 1 + FirstIndex(s[1..], c)
  }

  /** `s.replace(from, to)` for a one-character pattern: only the first occurrence is replaced,
      and a string without it is returned unchanged. */
  function ReplaceFirst(s: string, from: char, to: string): (r: string)
    ensures from !in s ==> r == s
    ensures from in s ==> |r| == |s| - 1 + |to|
  {
    var i := FirstIndex(s, from);
    if i == |s| then s else s[..i] + to + s[i + 1..]
  }

  /** What `ReplaceFirst` does, stated by its result: everything before the first occurrence is
      kept, the occurrence becomes `to`, and everything after it, later occurrences included, is
      kept as well. */
  lemma ReplaceFirstAt(s: string, from: char, to: string, i: nat)
    requires i < |s| && s[i] == from
    requires forall k :: 0 <= k < i ==> s[k] != from
    ensures ReplaceFirst(s, from, to) == s[..i] + to + s[i + 1..]
  {
    assert FirstIndex(s, from) == i;
  }

  /** The label of a menu link: "Home" for "/", otherwise the path without its first "/" and
      with its first "-" turned into a space. */
  function Label(path: string): (r: string)
    ensures path == "/" ==> r == "Home"
    ensures path != "/" && '/' in path ==> |r| == |path| - 1
    ensures '/' !in path && '-' !in path ==> r == path
  {
    if path == "/" then "Home" else ReplaceFirst(ReplaceFirst(path, '/', ""), '-', " ")
  }

  /** For a path that starts with "/" and is more than "/", the label is the rest of the path with
      its first "-" (and only that one) turned into a space. */
  lemma LabelOfSubPath(name: string)
    requires name != ""
    ensures Label("/" + name) == ReplaceFirst(name, '-', " ")
  {
    var p := "/" + name;
    ReplaceFirstAt(p, '/', "", 0);
    assert p[..0] + "" + p[1..] == name;
  }

  /** A path of one plain word is labelled with the word. */
  lemma PlainLabel(name: string)
    requires name != "" && '-' !in name
    ensures Label("/" + name) == name
  {
    LabelOfSubPath(name);
  }

  /** The first menu link is labelled "Home". */
  lemma HomeLabel()
    ensures Label(MenuPaths[0]) == "Home"
  {
  }

  /** The second menu link is labelled "blogs". */
  lemma BlogsLabel()
    ensures Label(MenuPaths[1]) == "blogs"
  {
    var blogs := "blogs";
    assert MenuPaths[1] == ['/'] + blogs;
    PlainLabel(blogs);
  }

  /** The third menu link is labelled "about". */
  lemma AboutLabel()
    ensures Label(MenuPaths[2]) == "about"
  {
    var about := "about";
    assert MenuPaths[2] == ['/'] + about;
    PlainLabel(about);
  }

  /** The labels of the three menu links. */
  lemma MenuLabels()
    ensures Label(MenuPaths[0]) == "Home"
    ensures Label(MenuPaths[1]) == "blogs"
    ensures Label(MenuPaths[2]) == "about"
  {
    HomeLabel();
    BlogsLabel();
    AboutLabel();
  }

  /** Only the first occurrence is replaced: whatever follows it, later occurrences included,
      is kept as it is. */
  lemma ReplaceFirstOccurrence(a: string, from: char, to: string, b: string)
    requires from !in a
    ensures ReplaceFirst(a + [from] + b, from, to) == a + to + b
  {
    var s := a + [from] + b;
    assert forall k :: 0 <= k < |a| ==> s[k] == a[k];
    ReplaceFirstAt(s, from, to, |a|);
    assert s[..|a|] == a;
    assert s[|a| + 1..] == b;
  }

  /** Only the first "-" of a path becomes a space: later ones are kept. */
  lemma OnlyFirstDashReplaced(a: string, b: string)
    requires '-' !in a
    ensures Label(['/'] + (a + ['-'] + b)) == a + [' '] + b
  {
    ReplaceFirstOccurrence(a, '-', [' '], b);
    LabelOfSubPath(a + ['-'] + b);
  }

  /** A link is active exactly when the current path is its path, character for character
      (`===` on strings): no prefix matching and no normalisation. */
  predicate IsActive(pathname: string, path: string): (r: bool)
    ensures r <==> |pathname| == |path| && forall i :: 0 <= i < |path| ==> pathname[i] == path[i]
  {
    pathname == path
  }

  /** A page below a menu path does not mark that path's link active: the section "/blogs" is not
      active on "/blogs/first-post", nor "/about" on "/about/". */
  lemma SubPageNotActive(path: string, rest: string)
    requires rest != ""
    ensures !IsActive(path + rest, path)
  {
    assert |path + rest| > |path|;
  }

  /** One link as a menu renders it. */
  datatype MenuLink = MenuLink(href: string, text: string, active: bool)

  function LinkFor(pathname: string, path: string): MenuLink {
    MenuLink(path, Label(path), IsActive(pathname, path))
  }

  /** The links of a menu, one per menu path, in order; the desktop and the mobile menu list the
      same links. */
  function MenuLinks(pathname: string): (r: seq<MenuLink>)
    ensures |r| == |MenuPaths|
    ensures forall i :: 0 <= i < |r| ==> r[i].href == MenuPaths[i] && r[i].text == Label(MenuPaths[i])
    ensures forall i :: 0 <= i < |r| ==> (r[i].active <==> pathname == MenuPaths[i])
  {
    seq(|MenuPaths|, i requires 0 <= i < |MenuPaths| => LinkFor(pathname, MenuPaths[i]))
  }

  /** The three menu paths are different. */
  lemma MenuPathsDistinct()
    ensures forall i, j :: 0 <= i < |MenuPaths| && 0 <= j < |MenuPaths| && MenuPaths[i] == MenuPaths[j] ==> i == j
  {
    assert |MenuPaths[0]| == 1 && |MenuPaths[1]| == 6 && |MenuPaths[2]| == 6;
    assert MenuPaths[1][1] == 'b' && MenuPaths[2][1] == 'a';
  }

  /** At most one link is marked active, and one is exactly when the current path is a menu path. */
  lemma AtMostOneActive(pathname: string)
    ensures forall i, j :: 0 <= i < |MenuPaths| && 0 <= j < |MenuPaths| ==>
      (MenuLinks(pathname)[i].active && MenuLinks(pathname)[j].active ==> i == j)
    ensures (exists i :: 0 <= i < |MenuPaths| && MenuLinks(pathname)[i].active) <==> pathname in MenuPaths
  {
    MenuPathsDistinct();
    if pathname in MenuPaths {
      var i :| 0 <= i < |MenuPaths| && MenuPaths[i] == pathname;
      assert MenuLinks(pathname)[i].active;
    }
  }

  /** The state of the bar: whether the mobile menu is open, for the current path. */
  class NavbarState {
    var isOpen: bool
    const pathname: string

    /** The menu starts closed. */
    constructor(pathname: string)
      ensures !isOpen && this.pathname == pathname
    {
      this.pathname := pathname;
      isOpen := false;
    }

    /** The mobile menu is rendered only while it is open. */
    function MobileMenu(): (r: Option<seq<MenuLink>>)
      reads this
      ensures r.Some? <==> isOpen
      ensures r.Some? ==> r.value == MenuLinks(pathname)
    {
      if isOpen then Some(MenuLinks(pathname)) else None
    }

    /** The menu button flips the state. */
    method Toggle()
      modifies this
      ensures isOpen == !old(isOpen)
    {
      isOpen := !isOpen;
    }

    /** Clicking a link of the mobile menu closes it. */
    method FollowMobileLink(path: string)
      modifies this
      ensures !isOpen && MobileMenu().None?
    {
      isOpen := false;
    }

    /** Clicking the mobile sign-in link closes the menu. */
    method FollowSignIn()
      modifies this
      ensures !isOpen && MobileMenu().None?
    {
      isOpen := false;
    }
  }
}
