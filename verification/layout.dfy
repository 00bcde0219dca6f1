/** The navigation bar's links and the rule that highlights the current one. */
module Layout {

  datatype NavLink = NavLink(href: string, caption: string, id: string)

  /** The four fixed links, in display order. */
  const NavLinks: seq<NavLink> := [
    NavLink("/", "Home", "home"),
    NavLink("/portfolio", "Portfolio", "portfolio"),
    NavLink("/about", "About", "about"),
    NavLink("/contact", "Contact", "contact")
  ]

  /**
   * Whether the link to `href` is highlighted at `location`: the root link
   * only at exactly `/`, every other link whenever `location` starts with
   * its `href` (a plain string prefix, not a path segment).
   */
  function IsActive(location: string, href: string): (r: bool)
    ensures href == "/" ==> (r <==> location == "/")
    ensures href != "/" ==> (r <==> |href| <= |location| && location[..|href|] == href)
  {
    if href == "/" && location == "/" then true
    else if href != "/" && href <= location then true
    else false
  }

  /** The prefix rule does not stop at a path separator: `/aboutus` highlights the About link. */
  lemma PrefixNotSegment(rest: string)
    ensures IsActive("/about" + rest, "/about")
  {
    assert ("/about" + rest)[..6] == "/about";
  }

  /** Two prefixes of one string are prefixes of each other. */
  lemma PrefixesComparable(a: string, b: string, s: string)
    ensures a <= s && b <= s ==> a <= b || b <= a
  {
    if a <= s && b <= s {
      if |a| <= |b| {
        assert b[..|a|] == s[..|a|] == a;
      } else {
        assert a[..|b|] == s[..|b|] == b;
      }
    }
  }

  /** Whatever the location, at most one of the four links is highlighted. */
  lemma AtMostOneActive(location: string)
    ensures forall i, j :: 0 <= i < j < |NavLinks| ==>
              !(IsActive(location, NavLinks[i].href) && IsActive(location, NavLinks[j].href))
  {
    var hs := ["/", "/portfolio", "/about", "/contact"];
    forall i, j | 0 <= i < j < |NavLinks|
      ensures !(IsActive(location, NavLinks[i].href) && IsActive(location, NavLinks[j].href))
    {
      assert NavLinks[i].href == hs[i] && NavLinks[j].href == hs[j];
      if i == 0 {
        assert |hs[j]| > 1;
      } else {
        PrefixesComparable(hs[i], hs[j], location);
        assert hs[1][1] == 'p' && hs[2][1] == 'a' && hs[3][1] == 'c';
        assert (i == 1 && j == 2) || (i == 1 && j == 3) || (i == 2 && j == 3);
      }
    }
  }
}
