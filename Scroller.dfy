/** The keyword scrollers of js/main.js: each scroller is flagged as
    animated, and the items of its inner track are cloned and appended, the
    clones hidden from assistive technology, so the track holds its content
    twice and can loop without a gap. */
module Scroller {

  /** One child element: its content (the subtree cloneNode(true) copies) and
      its attributes. Attribute values are strings; setAttribute(name, true)
      stores "true". */
  datatype Item = Item(content: string, attributes: map<string, string>)

  const AriaHidden: string := "aria-hidden"
  const DataAnimated: string := "data-animated"

  /** cloneNode(true) followed by setAttribute('aria-hidden', true). */
  function HiddenCopy(item: Item): (c: Item)
    ensures c.content == item.content
    ensures AriaHidden in c.attributes && c.attributes[AriaHidden] == "true"
    ensures forall a :: a in item.attributes && a != AriaHidden ==>
      a in c.attributes && c.attributes[a] == item.attributes[a]
    ensures forall a :: a in c.attributes ==> a in item.attributes || a == AriaHidden
  {
    Item(item.content, item.attributes[AriaHidden := "true"])
  }

  /** The hidden copies of a list of items, in order. */
  function HiddenCopies(items: seq<Item>): (r: seq<Item>)
    ensures |r| == |items|
    ensures forall k :: 0 <= k < |items| ==> r[k] == HiddenCopy(items[k])
  {
    seq(|items|, k requires 0 <= k < |items| => HiddenCopy(items[k]))
  }

  /** The text a track shows, item after item. */
  function Contents(items: seq<Item>): seq<string> {
    seq(|items|, k requires 0 <= k < |items| => items[k].content)
  }

  /** Hiding a copy again changes nothing. */
  lemma HiddenCopyIdempotent(item: Item)
    ensures HiddenCopy(HiddenCopy(item)) == HiddenCopy(item)
  {
    assert HiddenCopy(HiddenCopy(item)).attributes == HiddenCopy(item).attributes;
  }

  /** After duplication the track reads its content twice over: the originals
      unchanged, then a copy of each in the same order. */
  lemma DuplicatedContents(items: seq<Item>)
    ensures Contents(items + HiddenCopies(items)) == Contents(items) + Contents(items)
  {
  }

  /** Exactly the first half of a duplicated track stays visible to assistive
      technology when no original item was hidden. */
  lemma OnlyOriginalsVisible(items: seq<Item>)
    requires forall k :: 0 <= k < |items| ==> AriaHidden !in items[k].attributes
    ensures var track := items + HiddenCopies(items);
      forall k :: 0 <= k < |track| ==> (AriaHidden !in track[k].attributes <==> k < |items|)
  {
  }

  /** A `.scroller` element and its `.scroller-inner` track. */
  class Scroller {
    var attributes: map<string, string>
    var items: seq<Item>

    constructor (attributes: map<string, string>, items: seq<Item>)
      ensures this.attributes == attributes && this.items == items
    {
      this.attributes := attributes;
      this.items := items;
    }

    /** Flag the scroller, snapshot the track's children, then append a hidden
        clone of each snapshot item. Because the loop runs over the snapshot,
        the clones it appends are not visited again. */
    method Duplicate()
      modifies this
      ensures attributes == old(attributes)[DataAnimated := "true"]
      ensures items == old(items) + HiddenCopies(old(items))
    {
      attributes := attributes[DataAnimated := "true"];
      var snapshot := items;
      for k := 0 to |snapshot|
        invariant items == snapshot + HiddenCopies(snapshot[..k])
        invariant attributes == old(attributes)[DataAnimated := "true"]
      {
        assert HiddenCopies(snapshot[..k + 1]) == HiddenCopies(snapshot[..k]) + [HiddenCopy(snapshot[k])];
        items := items + [HiddenCopy(snapshot[k])];
      }
      assert snapshot[..|snapshot|] == snapshot;
    }
  }

  /** The forEach over every scroller of the page. */
  method DuplicateAll(scrollers: seq<Scroller>)
    requires forall a, b :: 0 <= a < b < |scrollers| ==> scrollers[a] != scrollers[b]
    modifies scrollers
    ensures forall k :: 0 <= k < |scrollers| ==>
      scrollers[k].attributes == old(scrollers[k].attributes)[DataAnimated := "true"]
      && scrollers[k].items == old(scrollers[k].items) + HiddenCopies(old(scrollers[k].items))
  {
    for i := 0 to |scrollers|
      invariant forall k :: 0 <= k < i ==>
        scrollers[k].attributes == old(scrollers[k].attributes)[DataAnimated := "true"]
        && scrollers[k].items == old(scrollers[k].items) + HiddenCopies(old(scrollers[k].items))
      invariant forall k :: i <= k < |scrollers| ==>
        scrollers[k].attributes == old(scrollers[k].attributes) && scrollers[k].items == old(scrollers[k].items)
    {
      scrollers[i].Duplicate();
    }
  }
}
