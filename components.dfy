/** The grid container and the tab strip of bs.go. */
module Components {
  import opened Html

  /** A `div` whose class attribute selects the fluid or the fixed-width
      container, holding the given children. */
  function Container(fluid: bool, children: seq<Node>): Elem
  {
    Child(Attr(DIV([]), "class", if fluid then "container-fluid" else "container"), children)
  }

  lemma ContainerShape(fluid: bool, children: seq<Node>)
    ensures Container(fluid, children).tag == "div"
    ensures Container(fluid, children).classes == []
    ensures Container(fluid, children).children == children
    ensures ClassAttrIs(Container(fluid, children), "container-fluid") <==> fluid
    ensures ClassAttrIs(Container(fluid, children), "container") <==> !fluid
  {
  }

  /** One tab: a list item around a `#` link around the original tab,
      with class attribute "active" when it is the selected one. */
  function TabItem(tab: Node, selected: bool): Elem
  {
    var li := LI([A("#", [tab])]);
    if selected then Attr(li, "class", "active") else li
  }

  /** What the tab-strip loop leaves in the slice it is given. */
  function TabItems(tabs: seq<Node>, active: int): seq<Node>
  {
    seq(|tabs|, i requires 0 <= i < |tabs| => TabItem(tabs[i], i == active))
  }

  /** Exactly the item at index `active` is marked, every item wraps its
      original tab in a `#` link, and the order is kept. */
  lemma TabItemsMarked(tabs: seq<Node>, active: int)
    ensures |TabItems(tabs, active)| == |tabs|
    ensures forall i :: 0 <= i < |tabs| ==>
      TabItems(tabs, active)[i].Element? &&
      TabItems(tabs, active)[i].tag == "li" &&
      TabItems(tabs, active)[i].children == [A("#", [tabs[i]])] &&
      (ClassAttrIs(TabItems(tabs, active)[i], "active") <==> i == active)
  {
  }

  /** When `active` is not an index of the slice, no item is marked. */
  lemma TabItemsNoneMarked(tabs: seq<Node>, active: int)
    requires active < 0 || active >= |tabs|
    ensures forall i :: 0 <= i < |tabs| ==>
      !("class" in TabItems(tabs, active)[i].attrs)
  {
  }

  /** Rewrites every tab in place, then returns the `ul` holding them
      with class attribute "nav nav-<tp>". */
  method Tabs(tp: string, active: int, tabs: array<Node>) returns (ul: Node)
    modifies tabs
    ensures tabs[..] == TabItems(old(tabs[..]), active)
    ensures ul == Attr(UL(tabs[..]), "class", "nav nav-" + tp)
  {
    var i := 0;
    while i < tabs.Length
      invariant 0 <= i <= tabs.Length
      invariant forall k :: 0 <= k < i ==> tabs[k] == TabItem(old(tabs[k]), k == active)
      invariant forall k :: i <= k < tabs.Length ==> tabs[k] == old(tabs[k])
    {
      var tab := tabs[i];
      var li := LI([A("#", [tab])]);
      if i == active {
        li := Attr(li, "class", "active");
      }
      tabs[i] := li;
      i := i + 1;
    }
    ul := Attr(UL(tabs[..]), "class", "nav nav-" + tp);
  }
}
