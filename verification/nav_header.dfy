/** The site header: navigation links and the active-link rule. */
module NavHeader {
  import opened JsText

  const NavItems: seq<string> := ["Home", "Events", "Contact", "Donate"]

  /** `item === 'Home' ? '/' : '/' + item.toLowerCase()`. */
  function Href(item: string): (h: string)
    ensures item == "Home" ==> h == "/"
    ensures item != "Home" ==> |h| == |item| + 1 && h[1..] == ToLower(item)
    ensures h != [] && h[0] == '/'
  {
    if item == "Home" then "/" else "/" + ToLower(item)
  }

  /** `isActive(path)` for the current `pathname`. */
  function IsActive(pathname: string, path: string): (active: bool)
    ensures path == "/" ==> (active <==> pathname == "/")
    ensures path != "/" ==> (active <==> IsPrefix(path, pathname))
  {
    if path == "/" && pathname == "/" then true
    else if path != "/" && StartsWith(pathname, path) then true
    else false
  }

  datatype Link = Link(item: string, href: string, active: bool)

  /** The rendered list: each item links to its href, and the same href
      decides whether it is highlighted. */
  function NavLinks(pathname: string): (links: seq<Link>)
    ensures |links| == |NavItems|
    ensures forall k :: 0 <= k < |links| ==>
              links[k].item == NavItems[k] && links[k].href == Href(NavItems[k])
              && links[k].active == IsActive(pathname, links[k].href)
  {
    seq(|NavItems|, k requires 0 <= k < |NavItems| =>
      Link(NavItems[k], Href(NavItems[k]), IsActive(pathname, Href(NavItems[k]))))
  }

  /** The four hrefs. */
  lemma Hrefs()
    ensures Href("Home") == "/" && Href("Events") == "/events"
    ensures Href("Contact") == "/contact" && Href("Donate") == "/donate"
  {
    assert ToLower("Events") == "events";
    assert ToLower("Contact") == "contact";
    assert ToLower("Donate") == "donate";
  }

  /** Each item's own page highlights that item. */
  lemma OwnPageActive(k: nat)
    requires k < |NavItems|
    ensures NavLinks(Href(NavItems[k]))[k].active
  {
    Hrefs();
  }

  /** A page below an item's path keeps that item highlighted, except for
      Home, which is highlighted only on "/" itself. */
  lemma ActiveBelow(pathname: string, rest: string, k: nat)
    requires 0 < k < |NavItems|
    requires NavLinks(pathname)[k].active
    ensures NavLinks(pathname + rest)[k].active
    ensures rest != [] ==> !NavLinks(pathname + rest)[0].active
  {
    Hrefs();
    var h := Href(NavItems[k]);
    assert (pathname + rest)[..|h|] == pathname[..|h|];
  }

  /** The rule is a raw string prefix, not a path-segment match:
      "/eventsarchive" highlights "Events". */
  lemma RawPrefix(pathname: string)
    requires pathname == "/eventsarchive"
    ensures IsActive(pathname, "/events")
    ensures !IsActive(pathname, "/")
  {
    assert pathname[..7] == "/events";
  }

  /** Whatever the pathname, at most one navigation link is highlighted. */
  lemma AtMostOneActive(pathname: string, a: nat, b: nat)
    requires a < b < 4
    ensures var links := NavLinks(pathname);
            !(links[a].active && links[b].active)
  {
    Hrefs();
    var links := NavLinks(pathname);
    var ha := Href(NavItems[a]);
    var hb := Href(NavItems[b]);
    assert |hb| > 1;
    if links[a].active {
      if a == 0 {
        assert pathname == "/";
      } else {
        assert pathname[1] == ha[1];
        assert ha[1] != hb[1];
      }
    }
  }
}
