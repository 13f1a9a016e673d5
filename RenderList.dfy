/**
 * The list renderer (src/VirtuosoList.tsx): the sticky top items come first,
 * each placed at the total size of the top items before it and the first
 * one pulled up by the total size of all of them; then the main items,
 * skipping those already shown as top items. With nothing rendered, the
 * empty component is shown if one was given.
 */
module RenderList {
  import opened Wrappers

  /** An item of the visible range: its index in the data and its size along the axis. */
  datatype ListItem = ListItem(index: int, size: int)

  /** `display: block` for a vertical list, `inline-block` for a horizontal one. */
  datatype Display = Block | InlineBlock

  /**
   * The sticky placement of a top item: its `top` (`left` when horizontal)
   * offset and its `marginTop` (`marginLeft`), with `zIndex: 2` and a sticky
   * `position`.
   */
  datatype Placement = Placement(offset: int, margin: Option<int>)

  /**
   * The props handed to the item renderer: `key` and `data-index` are both
   * the item's index, `data-known-size` its size; only top items carry a
   * placement.
   */
  datatype Props = Props(dataIndex: int, knownSize: int, renderPlaceholder: bool, display: Display, sticky: Option<Placement>)

  /** One call of the item renderer; what it returns is not part of this model. */
  datatype Element = Element(item: ListItem, props: Props)

  /** The component's output: the empty component, or a fragment of rendered elements. */
  datatype ListOutput = EmptyComponent | Fragment(elements: seq<Element>)

  function DisplayOf(isHorizontal: bool): Display {
    if isHorizontal then InlineBlock else Block
  }

  /** The total size of the first `k` items, summed from the front as `reduce` does. */
  function SumTo(items: seq<ListItem>, k: nat): int
    requires k <= |items|
  {
    if k == 0 then 0 else SumTo(items, k - 1) + items[k - 1].size
  }

  /** The total size of the items. */
  function Sum(items: seq<ListItem>): int {
    SumTo(items, |items|)
  }

  /** The indices of the items, in order. */
  function Indices(items: seq<ListItem>): (r: seq<int>)
    ensures |r| == |items| && forall k :: 0 <= k < |items| ==> r[k] == items[k].index
  {
    seq(|items|, k requires 0 <= k < |items| => items[k].index)
  }

  /** The k-th top item: offset by the top items before it, the first one pulled up by all of them. */
  function TopElement(topItems: seq<ListItem>, k: nat, renderPlaceholder: bool, isHorizontal: bool): Element
    requires k < |topItems|
  {
    var item := topItems[k];
    var margin := if k == 0 then Some(-Sum(topItems)) else None;
    Element(item, Props(item.index, item.size, renderPlaceholder, DisplayOf(isHorizontal), Some(Placement(SumTo(topItems, k), margin))))
  }

  function TopElements(topItems: seq<ListItem>, renderPlaceholder: bool, isHorizontal: bool): (r: seq<Element>)
    ensures |r| == |topItems|
  {
    seq(|topItems|, k requires 0 <= k < |topItems| => TopElement(topItems, k, renderPlaceholder, isHorizontal))
  }

  function MainElement(item: ListItem, renderPlaceholder: bool, isHorizontal: bool): Element {
    Element(item, Props(item.index, item.size, renderPlaceholder, DisplayOf(isHorizontal), None))
  }

  /** The first `k` main items whose index is not among `shown`, in order. */
  function Kept(items: seq<ListItem>, k: nat, shown: seq<int>): seq<ListItem>
    requires k <= |items|
  {
    if k == 0 then []
    else Kept(items, k - 1, shown) + (if items[k - 1].index in shown then [] else [items[k - 1]])
  }

  /** The main items whose index is not among `shown`, in order. */
  function MainItems(items: seq<ListItem>, shown: seq<int>): seq<ListItem> {
    Kept(items, |items|, shown)
  }

  function MainElements(items: seq<ListItem>, renderPlaceholder: bool, isHorizontal: bool): (r: seq<Element>)
    ensures |r| == |items|
  {
    seq(|items|, k requires 0 <= k < |items| => MainElement(items[k], renderPlaceholder, isHorizontal))
  }

  /** Everything the renderer is called with, in order, when a renderer is set. */
  function Rendered(topItems: seq<ListItem>, items: seq<ListItem>, renderPlaceholder: bool, isHorizontal: bool): seq<Element> {
    TopElements(topItems, renderPlaceholder, isHorizontal) + MainElements(MainItems(items, Indices(topItems)), renderPlaceholder, isHorizontal)
  }

  /**
   * The body of `VirtuosoList`: `hasRender` says whether an item renderer is
   * set, `hasEmptyComponent` whether an empty component was given.
   */
  method RenderList(topItems: seq<ListItem>, items: seq<ListItem>, hasRender: bool, renderPlaceholder: bool,
                    isHorizontal: bool, hasEmptyComponent: bool) returns (out: ListOutput)
    ensures var elements := if hasRender then Rendered(topItems, items, renderPlaceholder, isHorizontal) else [];
      out == if elements == [] && hasEmptyComponent then EmptyComponent else Fragment(elements)
  {
    var renderedItems, renderedTopItemIndices := RenderTopItems(topItems, hasRender, renderPlaceholder, isHorizontal);
    renderedItems := RenderMainItems(items, renderedTopItemIndices, renderedItems, hasRender, renderPlaceholder, isHorizontal);
    if |renderedItems| == 0 && hasEmptyComponent {
      return EmptyComponent;
    }
    return Fragment(renderedItems);
  }

  /**
   * The `topItems.forEach` loop: every top item is recorded as shown and,
   * with a renderer, rendered at the running offset, the first one with the
   * negative margin.
   */
  method RenderTopItems(topItems: seq<ListItem>, hasRender: bool, renderPlaceholder: bool, isHorizontal: bool)
    returns (renderedItems: seq<Element>, renderedTopItemIndices: seq<int>)
    ensures renderedItems == if hasRender then TopElements(topItems, renderPlaceholder, isHorizontal) else []
    ensures renderedTopItemIndices == Indices(topItems)
  {
    renderedItems := [];
    var topOffset := 0;
    renderedTopItemIndices := [];
    var marginTop := Sum(topItems);
    var display := DisplayOf(isHorizontal);
    ghost var top := TopElements(topItems, renderPlaceholder, isHorizontal);

    for index := 0 to |topItems|
      invariant topOffset == SumTo(topItems, index)
      invariant renderedTopItemIndices == Indices(topItems)[..index]
      invariant renderedItems == if hasRender then top[..index] else []
    {
      var item := topItems[index];
      TopStep(topItems, index);
      renderedTopItemIndices := renderedTopItemIndices + [item.index];
      var margin := if index == 0 then Some(-marginTop) else None;
      var props := Props(item.index, item.size, renderPlaceholder, display, Some(Placement(topOffset, margin)));
      if hasRender {
        TopElementsSnoc(topItems, index, renderPlaceholder, isHorizontal);
        renderedItems := renderedItems + [Element(item, props)];
      }
      topOffset := topOffset + item.size;
    }
    assert Indices(topItems)[..|topItems|] == Indices(topItems);
    assert top[..|topItems|] == top;
  }

  /**
   * The `items.forEach` loop: with a renderer, every main item whose index is
   * not among the shown top indices is rendered after what is already there.
   */
  method RenderMainItems(items: seq<ListItem>, renderedTopItemIndices: seq<int>, renderedItems: seq<Element>, hasRender: bool,
                         renderPlaceholder: bool, isHorizontal: bool) returns (result: seq<Element>)
    ensures result == if hasRender then renderedItems + MainElements(MainItems(items, renderedTopItemIndices), renderPlaceholder, isHorizontal)
      else renderedItems
  {
    result := renderedItems;
    var display := DisplayOf(isHorizontal);
    for j := 0 to |items|
      invariant result == if hasRender then renderedItems + MainElements(Kept(items, j, renderedTopItemIndices), renderPlaceholder, isHorizontal)
        else renderedItems
    {
      var item := items[j];
      MainStep(items, j, renderedTopItemIndices, renderPlaceholder, isHorizontal);
      if item.index in renderedTopItemIndices {
        continue;
      }
      if hasRender {
        result := result + [Element(item, Props(item.index, item.size, renderPlaceholder, display, None))];
      }
    }
  }

  /** One step of the top-item loop: the running offset and the index list grow by the k-th item. */
  lemma TopStep(topItems: seq<ListItem>, k: nat)
    requires k < |topItems|
    ensures SumTo(topItems, k + 1) == SumTo(topItems, k) + topItems[k].size
    ensures Indices(topItems)[..k + 1] == Indices(topItems)[..k] + [topItems[k].index]
  {
    assert Indices(topItems)[..k + 1] == Indices(topItems)[..k] + [Indices(topItems)[k]];
  }

  /** The top elements up to the k-th: those before it, then the k-th item placed after them. */
  lemma TopElementsSnoc(topItems: seq<ListItem>, k: nat, renderPlaceholder: bool, isHorizontal: bool)
    requires k < |topItems|
    ensures var top := TopElements(topItems, renderPlaceholder, isHorizontal);
      var item := topItems[k];
      top[..k + 1] == top[..k] + [Element(item, Props(item.index, item.size, renderPlaceholder, DisplayOf(isHorizontal),
        Some(Placement(SumTo(topItems, k), if k == 0 then Some(-Sum(topItems)) else None))))]
  {
    var top := TopElements(topItems, renderPlaceholder, isHorizontal);
    assert top[..k + 1] == top[..k] + [top[k]];
  }

  /** One step of the main-item loop: the k-th item is appended unless its index is shown. */
  lemma MainStep(items: seq<ListItem>, k: nat, shown: seq<int>, renderPlaceholder: bool, isHorizontal: bool)
    requires k < |items|
    ensures MainElements(Kept(items, k + 1, shown), renderPlaceholder, isHorizontal) ==
      MainElements(Kept(items, k, shown), renderPlaceholder, isHorizontal) +
      (if items[k].index in shown then [] else [MainElement(items[k], renderPlaceholder, isHorizontal)])
  {
    var b := if items[k].index in shown then [] else [items[k]];
    MainElementsAppend(Kept(items, k, shown), b, renderPlaceholder, isHorizontal);
  }

  lemma MainElementsAppend(a: seq<ListItem>, b: seq<ListItem>, renderPlaceholder: bool, isHorizontal: bool)
    ensures MainElements(a + b, renderPlaceholder, isHorizontal) == MainElements(a, renderPlaceholder, isHorizontal) + MainElements(b, renderPlaceholder, isHorizontal)
  {
  }

  /** The top items are stacked without gaps: each one after the first is placed where the one before it ends. */
  lemma TopItemsStacked(topItems: seq<ListItem>, renderPlaceholder: bool, isHorizontal: bool)
    ensures forall k :: 0 < k < |topItems| ==> PlacedAfterPrevious(topItems, k, renderPlaceholder, isHorizontal)
  {
    forall k | 0 < k < |topItems|
      ensures PlacedAfterPrevious(topItems, k, renderPlaceholder, isHorizontal)
    {
      TopStep(topItems, k - 1);
    }
  }

  /**
   * The first top item is placed at 0 and pulled up by the total size of the
   * top items, which is exactly where the last one ends: the stack ends at
   * the top of the list.
   */
  lemma TopItemsPulledUp(topItems: seq<ListItem>, renderPlaceholder: bool, isHorizontal: bool)
    requires topItems != []
    ensures TopElement(topItems, 0, renderPlaceholder, isHorizontal).props.sticky == Some(Placement(0, Some(-Sum(topItems))))
    ensures TopElement(topItems, |topItems| - 1, renderPlaceholder, isHorizontal).props.sticky.value.offset + topItems[|topItems| - 1].size == Sum(topItems)
  {
    var n := |topItems|;
    TopStep(topItems, n - 1);
    assert topItems[..n] == topItems;
    assert topItems[..0] == [];
  }

  /** The k-th top item is placed where the one before it ends, with no margin. */
  predicate PlacedAfterPrevious(topItems: seq<ListItem>, k: nat, renderPlaceholder: bool, isHorizontal: bool)
    requires 0 < k < |topItems|
  {
    TopElement(topItems, k, renderPlaceholder, isHorizontal).props.sticky ==
      Some(Placement(TopElement(topItems, k - 1, renderPlaceholder, isHorizontal).props.sticky.value.offset + topItems[k - 1].size, None))
  }

  /** A main item is rendered exactly when it is among the items and its index is not shown as a top item. */
  lemma MainItemsDeduplicate(items: seq<ListItem>, shown: seq<int>)
    ensures forall x :: x in MainItems(items, shown) <==> x in items && x.index !in shown
    ensures |MainItems(items, shown)| <= |items|
  {
    KeptDeduplicate(items, |items|, shown);
    assert items[..|items|] == items;
  }

  lemma {:induction false} KeptDeduplicate(items: seq<ListItem>, k: nat, shown: seq<int>)
    requires k <= |items|
    ensures forall x :: x in Kept(items, k, shown) <==> x in items[..k] && x.index !in shown
    ensures |Kept(items, k, shown)| <= k
  {
    if k > 0 {
      KeptDeduplicate(items, k - 1, shown);
      assert items[..k] == items[..k - 1] + [items[k - 1]];
    }
  }

  /** With no top items shown, every main item is rendered. */
  lemma NothingShownKeepsAll(items: seq<ListItem>)
    ensures MainItems(items, []) == items
  {
    NothingShownKeepsPrefix(items, |items|);
    assert items[..|items|] == items;
  }

  lemma {:induction false} NothingShownKeepsPrefix(items: seq<ListItem>, k: nat)
    requires k <= |items|
    ensures Kept(items, k, []) == items[..k]
  {
    if k > 0 {
      NothingShownKeepsPrefix(items, k - 1);
      assert items[..k] == items[..k - 1] + [items[k - 1]];
    }
  }

  /**
   * Nothing is rendered exactly when no renderer is set or there are neither
   * top items nor main items, and only then (with an empty component given)
   * is the empty component shown.
   */
  lemma EmptyComponentIff(topItems: seq<ListItem>, items: seq<ListItem>, hasRender: bool, renderPlaceholder: bool,
                          isHorizontal: bool, hasEmptyComponent: bool)
    ensures var elements := if hasRender then Rendered(topItems, items, renderPlaceholder, isHorizontal) else [];
      (elements == [] <==> !hasRender || (topItems == [] && items == [])) &&
      ((if elements == [] && hasEmptyComponent then EmptyComponent else Fragment(elements)) == EmptyComponent <==>
        hasEmptyComponent && (!hasRender || (topItems == [] && items == [])))
  {
    if topItems == [] {
      NothingShownKeepsAll(items);
      assert Indices(topItems) == [];
    } else {
      assert Rendered(topItems, items, renderPlaceholder, isHorizontal)[0] == TopElement(topItems, 0, renderPlaceholder, isHorizontal);
    }
  }
}
