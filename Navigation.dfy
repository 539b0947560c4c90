/** The navbar's scroll handler in js/main.js: hide the bar while scrolling
    down past 100 pixels, remember the last offset, choose the section the
    reader has reached, and mark the navigation links pointing at it. The
    DOM queries become parameters: the sections in document order with their
    offsetTop, the navbar's offsetHeight, the scroll offset and whether the
    body is the contact page's. */
module Navigation {
  import opened JsText

  datatype Option<T> = None | Some(value: T)

  /** Below this offset the bar's hidden state is left as it is. */
  const HideAfter: real := 100.0

  /** A section counts as reached this many pixels before its top meets the
      bottom of the bar. */
  const Slack: int := 50

  /** The section chosen when none is reached. */
  const Home: string := "home"

  /** A `main section[id]` element. */
  datatype Section = Section(id: string, offsetTop: int)

  /** The scroll offset from which a section counts as reached. */
  function Threshold(s: Section, navHeight: int): int {
    s.offsetTop - navHeight - Slack
  }

  predicate Reached(s: Section, pageY: real, navHeight: int) {
    pageY >= Threshold(s, navHeight) as real
  }

  /** The id of the last section, in document order, that is reached, or
      home when there is none. */
  function Chosen(sections: seq<Section>, pageY: real, navHeight: int): string
    decreases |sections|
  {
    if sections == [] then Home
    else if Reached(sections[|sections| - 1], pageY, navHeight) then sections[|sections| - 1].id
    else Chosen(sections[..|sections| - 1], pageY, navHeight)
  }

  /** With no section reached, home is chosen. */
  lemma {:induction false} ChosenNone(sections: seq<Section>, pageY: real, navHeight: int)
    requires forall k :: 0 <= k < |sections| ==> !Reached(sections[k], pageY, navHeight)
    ensures Chosen(sections, pageY, navHeight) == Home
    decreases |sections|
  {
    if sections != [] {
      var front := sections[..|sections| - 1];
      assert forall k :: 0 <= k < |front| ==> front[k] == sections[k];
      ChosenNone(front, pageY, navHeight);
    }
  }

  /** Otherwise the id of the reached section that no later section follows
      as reached is chosen. */
  lemma {:induction false} ChosenLast(sections: seq<Section>, pageY: real, navHeight: int, k: nat)
    requires k < |sections| && Reached(sections[k], pageY, navHeight)
    requires forall m :: k < m < |sections| ==> !Reached(sections[m], pageY, navHeight)
    ensures Chosen(sections, pageY, navHeight) == sections[k].id
    decreases |sections|
  {
    var n := |sections| - 1;
    if k < n {
      var front := sections[..n];
      assert front[k] == sections[k];
      assert forall m :: k < m < |front| ==> front[m] == sections[m];
      ChosenLast(front, pageY, navHeight, k);
    }
  }

  /** Scrolling further down never chooses a section earlier than one that
      was already reached. */
  lemma {:induction false} ChosenMovesDown(sections: seq<Section>, y1: real, y2: real, navHeight: int, k: nat)
    requires k < |sections| && Reached(sections[k], y1, navHeight)
    requires y1 <= y2
    ensures exists m :: (k <= m < |sections| && Reached(sections[m], y2, navHeight)
                         && Chosen(sections, y2, navHeight) == sections[m].id)
    decreases |sections|
  {
    var n := |sections| - 1;
    if Reached(sections[n], y2, navHeight) {
      assert k <= n;
    } else {
      var front := sections[..n];
      assert front[k] == sections[k];
      ChosenMovesDown(front, y1, y2, navHeight, k);
      var m :| k <= m < |front| && Reached(front[m], y2, navHeight) && Chosen(front, y2, navHeight) == front[m].id;
      assert front[m] == sections[m];
    }
  }

  /** The forEach over the sections: start from home and overwrite with the
      id of every section reached. */
  method ActiveSection(sections: seq<Section>, pageY: real, navHeight: int) returns (active: string)
    ensures active == Chosen(sections, pageY, navHeight)
  {
    active := Home;
    var k := 0;
    while k < |sections|
      invariant 0 <= k <= |sections|
      invariant active == Chosen(sections[..k], pageY, navHeight)
    {
      assert sections[..k + 1][..k] == sections[..k];
      if Reached(sections[k], pageY, navHeight) {
        active := sections[k].id;
      }
      k := k + 1;
    }
    assert sections[..k] == sections;
  }

  /** A `.nav-link`: its href attribute, if any, and whether it carries the
      active class. */
  datatype NavLink = NavLink(href: Option<string>, active: bool)

  /** A link is marked when it has a non-empty href containing '#' and the
      section id. */
  function Marks(href: Option<string>, section: string): (b: bool)
    ensures b <==> href.Some? && exists k: nat :: OccursAt(href.value, "#" + section, k)
  {
    href.Some? && href.value != "" && Includes(href.value, "#" + section)
  }

  /** Containment, not equality: a link to #home-extra is marked for home;
      a missing href is never marked. */
  lemma MarksByContainment()
    ensures Marks(Some("#home-extra"), "home")
    ensures !Marks(Some("#top"), "home")
    ensures !Marks(None, "home")
  {
    var href, target := "#home-extra", "#" + "home";
    assert href[..|target|] == target;
    assert OccursAt(href, target, 0);
  }

  /** The bar's hidden flag and lastScroll. */
  datatype Bar = Bar(hidden: bool, lastScroll: real)

  /** The first two lines of the handler: past 100 pixels the bar is hidden
      exactly when the offset grew (and is positive); lastScroll keeps the
      offset, with anything at or below zero recorded as zero. */
  function Scrolled(b: Bar, current: real): (r: Bar)
    ensures r.lastScroll >= 0.0
  {
    var hidden := if current > HideAfter then current > b.lastScroll && current > 0.0 else b.hidden;
    Bar(hidden, if current <= 0.0 then 0.0 else current)
  }

  /** What the hide rule means: near the top the flag is untouched; further
      down the bar hides on the way down and shows on the way up, the
      positivity test never mattering; and lastScroll is the offset clamped
      at zero. */
  lemma ScrolledSpec(b: Bar, current: real)
    ensures current <= HideAfter ==> Scrolled(b, current).hidden == b.hidden
    ensures current > HideAfter ==> (Scrolled(b, current).hidden <==> current > b.lastScroll)
    ensures Scrolled(b, current).lastScroll == (if current < 0.0 then 0.0 else current)
  {
  }

  /** Two scroll events past 100 pixels: the second one's direction alone
      decides, whatever the bar did before. */
  lemma DirectionDecides(b: Bar, first: real, second: real)
    requires first > HideAfter && second > HideAfter
    ensures Scrolled(Scrolled(b, first), second).hidden <==> second > first
  {
  }

  class NavBar {
    var hidden: bool
    var lastScroll: real
    var links: seq<NavLink>

    function State(): Bar
      reads this`hidden, this`lastScroll
    {
      Bar(hidden, lastScroll)
    }

    /** lastScroll starts at zero. */
    constructor (hidden: bool, links: seq<NavLink>)
      ensures State() == Bar(hidden, 0.0) && this.links == links
    {
      this.hidden := hidden;
      lastScroll := 0.0;
      this.links := links;
    }

    /** The class loop over the nav links: clear active on every link, then
        add it back where the href points at the section. */
    method Highlight(section: string)
      modifies this`links
      ensures |links| == |old(links)|
      ensures forall k :: 0 <= k < |links| ==>
        links[k] == NavLink(old(links)[k].href, Marks(old(links)[k].href, section))
    {
      var k := 0;
      while k < |links|
        invariant 0 <= k <= |links| == |old(links)|
        invariant forall m :: 0 <= m < k ==>
          links[m] == NavLink(old(links)[m].href, Marks(old(links)[m].href, section))
        invariant forall m :: k <= m < |links| ==> links[m] == old(links)[m]
      {
        var href := links[k].href;
        links := links[k := NavLink(href, false)];
        if href.Some? && href.value != "" && Includes(href.value, "#" + section) {
          links := links[k := NavLink(href, true)];
        }
        k := k + 1;
      }
    }

    /** The scroll handler. On the contact page it stops after the hide rule. */
    method OnScroll(current: real, contactPage: bool, sections: seq<Section>, navHeight: int)
      modifies this`hidden, this`lastScroll, this`links
      ensures State() == Scrolled(old(State()), current)
      ensures contactPage ==> links == old(links)
      ensures !contactPage ==> |links| == |old(links)|
      ensures !contactPage ==> forall k :: 0 <= k < |links| ==>
        links[k] == NavLink(old(links)[k].href, Marks(old(links)[k].href, Chosen(sections, current, navHeight)))
    {
      if current > HideAfter {
        hidden := current > lastScroll && current > 0.0;
      }
      lastScroll := if current <= 0.0 then 0.0 else current;
      if contactPage {
        return;
      }
      var active := ActiveSection(sections, current, navHeight);
      Highlight(active);
    }
  }
}
