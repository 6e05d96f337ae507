/** The navigation-bar builder of bs.go: a mutable accumulator configured by
    chained setters and rendered into a fixed-shape tree. */
module Navbars {
  import opened Html
  import Components

  /** The three positioning modes; the source encodes them as the integer
      constants fixedNone, fixedTop and fixedBottom. */
  datatype Fixed = Unfixed | Top | Bottom

  /** Classes of the root `nav`: base class, colour scheme, position. */
  function RootClasses(inverse: bool, fixed: Fixed): seq<string>
  {
    ["navbar", if inverse then "navbar-inverse" else "navbar-default"]
    + match fixed
      case Top => ["navbar-fixed-top"]
      case Bottom => ["navbar-fixed-bottom"]
      case Unfixed => []
  }

  /** The header holding the brand, which receives the "navbar-brand" class. */
  function Header(brand: Elem): Elem
  {
    Child(AddClass(DIV([]), ["navbar-header"]), [AddClass(brand, ["navbar-brand"])])
  }

  /** One left entry: a list item around it, "active" when flagged. */
  function LeftItem(el: Elem, active: bool): Elem
  {
    var li := LI([el]);
    if active then AddClass(li, ["active"]) else li
  }

  function LeftItems(left: seq<Elem>, actives: seq<bool>): seq<Node>
    requires |left| == |actives|
  {
    seq(|left|, i requires 0 <= i < |left| => LeftItem(left[i], actives[i]))
  }

  function RightItems(right: seq<Elem>): seq<Node>
  {
    seq(|right|, j requires 0 <= j < |right| => LI([right[j]]))
  }

  function LeftList(left: seq<Elem>, actives: seq<bool>): Elem
    requires |left| == |actives|
  {
    Element("ul", ["nav", "navbar-nav"], map[], LeftItems(left, actives))
  }

  function RightList(right: seq<Elem>): Elem
  {
    Element("ul", ["nav", "navbar-nav", "navbar-right"], map[], RightItems(right))
  }

  /** The collapsible section: the left list if any, then the right list if any. */
  function Collapse(left: seq<Elem>, actives: seq<bool>, right: seq<Elem>): Elem
    requires |left| == |actives|
  {
    Element("div", ["collapse", "navbar-collapse"], map[],
      (if |left| > 0 then [LeftList(left, actives)] else [])
      + (if |right| > 0 then [RightList(right)] else []))
  }

  /** What the container holds: the header if there is a brand, then the
      collapsible section if there is any entry. */
  function Sections(brand: Option<Elem>, left: seq<Elem>, actives: seq<bool>, right: seq<Elem>): seq<Node>
    requires |left| == |actives|
  {
    (if brand.Some? then [Header(brand.value)] else [])
    + (if |left| > 0 || |right| > 0 then [Collapse(left, actives, right)] else [])
  }

  /** The rendered tree as a function of the builder's fields. */
  function Render(inverse: bool, fixed: Fixed, brand: Option<Elem>,
                  left: seq<Elem>, actives: seq<bool>, right: seq<Elem>): Node
    requires |left| == |actives|
  {
    Element("nav", RootClasses(inverse, fixed), map[],
      [Components.Container(true, Sections(brand, left, actives, right))])
  }

  /** The root is a `nav` with classes "navbar", then the colour class, then
      the position class for a fixed bar and none otherwise; its single child
      is a fluid container holding the sections. */
  lemma RenderRoot(inverse: bool, fixed: Fixed, brand: Option<Elem>,
                   left: seq<Elem>, actives: seq<bool>, right: seq<Elem>)
    requires |left| == |actives|
    ensures var r := Render(inverse, fixed, brand, left, actives, right);
      r.Element? && r.tag == "nav" &&
      |r.classes| >= 2 && r.classes[0] == "navbar" &&
      r.classes[1] == (if inverse then "navbar-inverse" else "navbar-default") &&
      (fixed == Top <==> r.classes[2..] == ["navbar-fixed-top"]) &&
      (fixed == Bottom <==> r.classes[2..] == ["navbar-fixed-bottom"]) &&
      (fixed == Unfixed <==> |r.classes| == 2) &&
      |r.children| == 1 && r.children[0].Element? && r.children[0].tag == "div" &&
      ClassAttrIs(r.children[0], "container-fluid") &&
      r.children[0].children == Sections(brand, left, actives, right)
  {
    var r := Render(inverse, fixed, brand, left, actives, right);
    Components.ContainerShape(true, Sections(brand, left, actives, right));
    assert r.classes[2..] == match fixed
      case Top => ["navbar-fixed-top"]
      case Bottom => ["navbar-fixed-bottom"]
      case Unfixed => [];
  }

  /** The header comes first exactly when there is a brand, and holds the
      brand with "navbar-brand" added; the collapsible section follows
      exactly when there is some entry; nothing else is in the container. */
  lemma SectionsOrder(brand: Option<Elem>, left: seq<Elem>, actives: seq<bool>, right: seq<Elem>)
    requires |left| == |actives|
    ensures var cs := Sections(brand, left, actives, right);
      var hasEntries := |left| > 0 || |right| > 0;
      |cs| == (if brand.Some? then 1 else 0) + (if hasEntries then 1 else 0) &&
      (brand.Some? ==>
        cs[0] == Element("div", ["navbar-header"], map[], [brand.value.(classes := brand.value.classes + ["navbar-brand"])])) &&
      (hasEntries ==> cs[|cs| - 1] == Collapse(left, actives, right)) &&
      (forall k :: 0 <= k < |cs| ==> cs[k].Element? && cs[k].tag == "div")
  {
    assert [] + ["navbar-header"] == ["navbar-header"];
  }

  /** The collapsible `div` holds the left list exactly when there are left
      entries, then the right list exactly when there are right entries. */
  lemma CollapseOrder(left: seq<Elem>, actives: seq<bool>, right: seq<Elem>)
    requires |left| == |actives|
    ensures var d := Collapse(left, actives, right);
      d.tag == "div" && d.classes == ["collapse", "navbar-collapse"] &&
      |d.children| == (if |left| > 0 then 1 else 0) + (if |right| > 0 then 1 else 0) &&
      (|left| > 0 ==> d.children[0] == LeftList(left, actives)) &&
      (|right| > 0 ==> d.children[|d.children| - 1] == RightList(right))
  {
  }

  /** The left list has one item per left entry, in insertion order; item i
      wraps exactly entry i and is "active" exactly when its flag is set. */
  lemma LeftListItems(left: seq<Elem>, actives: seq<bool>)
    requires |left| == |actives|
    ensures var ul := LeftList(left, actives);
      ul.tag == "ul" && ul.classes == ["nav", "navbar-nav"] && |ul.children| == |left| &&
      forall i :: 0 <= i < |left| ==>
        ul.children[i].Element? && ul.children[i].tag == "li" &&
        ul.children[i].children == [left[i]] &&
        (HasClass(ul.children[i], "active") <==> actives[i])
  {
    var ul := LeftList(left, actives);
    forall i | 0 <= i < |left|
      ensures ul.children[i].Element? && ul.children[i].tag == "li"
      ensures ul.children[i].children == [left[i]]
      ensures HasClass(ul.children[i], "active") <==> actives[i]
    {
      assert ul.children[i] == LeftItem(left[i], actives[i]);
    }
  }

  /** The right list, aligned right, has one plain item per right entry, in
      insertion order; no item is ever "active". */
  lemma RightListItems(right: seq<Elem>)
    ensures var ul := RightList(right);
      ul.tag == "ul" && ul.classes == ["nav", "navbar-nav", "navbar-right"] && |ul.children| == |right| &&
      forall j :: 0 <= j < |right| ==>
        ul.children[j].Element? && ul.children[j].tag == "li" &&
        ul.children[j].children == [right[j]] && !HasClass(ul.children[j], "active")
  {
    var ul := RightList(right);
    forall j | 0 <= j < |right|
      ensures ul.children[j].Element? && ul.children[j].tag == "li"
      ensures ul.children[j].children == [right[j]] && !HasClass(ul.children[j], "active")
    {
      assert ul.children[j] == LI([right[j]]);
    }
  }

  /** The left `ul`, grown one list item per entry in insertion order. */
  method BuildLeftList(left: seq<Elem>, actives: seq<bool>) returns (ul: Elem)
    requires |left| == |actives|
    ensures ul == LeftList(left, actives)
  {
    ul := AddClass(UL([]), ["nav", "navbar-nav"]);
    var i := 0;
    while i < |left|
      invariant 0 <= i <= |left|
      invariant ul == Element("ul", ["nav", "navbar-nav"], map[], LeftItems(left[..i], actives[..i]))
    {
      var li := LI([left[i]]);
      if actives[i] {
        li := AddClass(li, ["active"]);
      }
      assert LeftItems(left[..i + 1], actives[..i + 1]) == LeftItems(left[..i], actives[..i]) + [li];
      ul := Child(ul, [li]);
      i := i + 1;
    }
    assert left[..i] == left && actives[..i] == actives;
  }

  /** The right `ul`, grown one plain list item per entry in insertion order. */
  method BuildRightList(right: seq<Elem>) returns (ul: Elem)
    ensures ul == RightList(right)
  {
    ul := AddClass(UL([]), ["nav", "navbar-nav", "navbar-right"]);
    var j := 0;
    while j < |right|
      invariant 0 <= j <= |right|
      invariant ul == Element("ul", ["nav", "navbar-nav", "navbar-right"], map[], RightItems(right[..j]))
    {
      assert RightItems(right[..j + 1]) == RightItems(right[..j]) + [LI([right[j]])];
      ul := Child(ul, [LI([right[j]])]);
      j := j + 1;
    }
    assert right[..j] == right;
  }

  /** The root `nav` with its base, colour and position classes. */
  method BuildRoot(inverse: bool, fixed: Fixed) returns (root: Elem)
    ensures root == Element("nav", RootClasses(inverse, fixed), map[], [])
  {
    root := AddClass(NAV(), ["navbar"]);
    if inverse {
      root := AddClass(root, ["navbar-inverse"]);
    } else {
      root := AddClass(root, ["navbar-default"]);
    }
    match fixed {
      case Top => root := AddClass(root, ["navbar-fixed-top"]);
      case Bottom => root := AddClass(root, ["navbar-fixed-bottom"]);
      case Unfixed =>
    }
  }

  /** The collapsible `div`: the left list when there are left entries,
      then the right list when there are right entries. */
  method BuildCollapse(left: seq<Elem>, actives: seq<bool>, right: seq<Elem>) returns (div: Elem)
    requires |left| == |actives|
    ensures div == Collapse(left, actives, right)
  {
    div := AddClass(DIV([]), ["collapse", "navbar-collapse"]);
    if |left| > 0 {
      var ul := BuildLeftList(left, actives);
      div := Child(div, [ul]);
    }
    if |right| > 0 {
      var ul := BuildRightList(right);
      div := Child(div, [ul]);
    }
  }

  class Navbar {
    var inverse: bool
    var fixed: Fixed
    var brand: Option<Elem>
    var left: seq<Elem>
    var actives: seq<bool>
    var right: seq<Elem>

    /** The left entries and their active flags stay parallel. */
    ghost predicate Valid()
      reads this
    {
      |left| == |actives|
    }

    /** An empty builder with the given colour scheme. */
    constructor (inverse: bool)
      ensures Valid()
      ensures this.inverse == inverse && fixed == Unfixed && brand == None
      ensures left == [] && actives == [] && right == []
    {
      this.inverse := inverse;
      fixed := Unfixed;
      brand := None;
      left := [];
      actives := [];
      right := [];
    }

    method FixedTop() returns (nb: Navbar)
      requires Valid()
      modifies this
      ensures Valid() && nb == this
      ensures fixed == Top
      ensures inverse == old(inverse) && brand == old(brand)
      ensures left == old(left) && actives == old(actives) && right == old(right)
    {
      fixed := Top;
      nb := this;
    }

    method FixedBottom() returns (nb: Navbar)
      requires Valid()
      modifies this
      ensures Valid() && nb == this
      ensures fixed == Bottom
      ensures inverse == old(inverse) && brand == old(brand)
      ensures left == old(left) && actives == old(actives) && right == old(right)
    {
      fixed := Bottom;
      nb := this;
    }

    /** Replaces the brand; `None` (a nil element) clears it. */
    method Brand(b: Option<Elem>) returns (nb: Navbar)
      requires Valid()
      modifies this
      ensures Valid() && nb == this
      ensures brand == b
      ensures inverse == old(inverse) && fixed == old(fixed)
      ensures left == old(left) && actives == old(actives) && right == old(right)
    {
      brand := b;
      nb := this;
    }

    /** Appends a left entry and its active flag together. */
    method Left(active: bool, tag: Elem) returns (nb: Navbar)
      requires Valid()
      modifies this
      ensures Valid() && nb == this
      ensures left == old(left) + [tag] && actives == old(actives) + [active]
      ensures inverse == old(inverse) && fixed == old(fixed) && brand == old(brand) && right == old(right)
    {
      left := left + [tag];
      actives := actives + [active];
      nb := this;
    }

    /** Appends a left entry that is a link with the given text. */
    method LeftLink(active: bool, href: string, text: string) returns (nb: Navbar)
      requires Valid()
      modifies this
      ensures Valid() && nb == this
      ensures left == old(left) + [A(href, [T(text)])] && actives == old(actives) + [active]
      ensures inverse == old(inverse) && fixed == old(fixed) && brand == old(brand) && right == old(right)
    {
      nb := Left(active, A(href, [T(text)]));
    }

    /** Appends a right entry. */
    method Right(tag: Elem) returns (nb: Navbar)
      requires Valid()
      modifies this
      ensures Valid() && nb == this
      ensures right == old(right) + [tag]
      ensures inverse == old(inverse) && fixed == old(fixed) && brand == old(brand)
      ensures left == old(left) && actives == old(actives)
    {
      right := right + [tag];
      nb := this;
    }

    /** Appends a right entry that is a link with the given text. */
    method RightLink(href: string, text: string) returns (nb: Navbar)
      requires Valid()
      modifies this
      ensures Valid() && nb == this
      ensures right == old(right) + [A(href, [T(text)])]
      ensures inverse == old(inverse) && fixed == old(fixed) && brand == old(brand)
      ensures left == old(left) && actives == old(actives)
    {
      nb := Right(A(href, [T(text)]));
    }

    /** Appends a right entry that is plain navbar text. */
    method RightText(text: string) returns (nb: Navbar)
      requires Valid()
      modifies this
      ensures Valid() && nb == this
      ensures right == old(right) + [AddClass(DIV([T(text)]), ["navbar-text"])]
      ensures inverse == old(inverse) && fixed == old(fixed) && brand == old(brand)
      ensures left == old(left) && actives == old(actives)
    {
      nb := Right(AddClass(DIV([T(text)]), ["navbar-text"]));
    }

    /** Renders the builder: the two entry lists are grown item by item. */
    method AsTag() returns (tag: Node)
      requires Valid()
      ensures tag == Render(inverse, fixed, brand, left, actives, right)
    {
      var root := BuildRoot(inverse, fixed);
      var c := AddClass(Components.Container(true, []), []);
      assert c == Components.Container(true, []);
      if brand.Some? {
        c := Child(c, [Header(brand.value)]);
      }

      if |left| > 0 || |right| > 0 {
        var div := BuildCollapse(left, actives, right);
        c := Child(c, [div]);
      }
      assert c == Components.Container(true, Sections(brand, left, actives, right));
      root := Child(root, [c]);
      tag := root;
    }
  }
}

/** The configuration sequence of a brand, two left entries (the first
    active) and one right entry, and the tree it renders to. */
module NavbarScenarios {
  import opened Html
  import opened Navbars
  import Components

  /** header(brand), then list[li.active(a), li(b)], then list.right[li(c)]. */
  function Expected(brand: Elem, a: Elem, b: Elem, c: Elem): Node
  {
    Element("nav", ["navbar", "navbar-default"], map[], [
      Components.Container(true, [
        Element("div", ["navbar-header"], map[], [brand.(classes := brand.classes + ["navbar-brand"])]),
        Element("div", ["collapse", "navbar-collapse"], map[], [
          Element("ul", ["nav", "navbar-nav"], map[], [
            Element("li", ["active"], map[], [a]),
            Element("li", [], map[], [b])
          ]),
          Element("ul", ["nav", "navbar-nav", "navbar-right"], map[], [
            Element("li", [], map[], [c])
          ])
        ])
      ])
    ])
  }

  /** Brand first, then the left entries, then the right entry. */
  method BrandFirst(brand: Elem, a: Elem, b: Elem, c: Elem) returns (t: Node)
    ensures t == Expected(brand, a, b, c)
  {
    var nb := new Navbar(false);
    var x := nb.Brand(Some(brand));
    x := x.Left(true, a);
    x := x.Left(false, b);
    x := x.Right(c);
    assert x.left == [a, b] && x.actives == [true, false] && x.right == [c];
    t := x.AsTag();
    Render4(brand, a, b, c);
  }

  /** The right entry first and the brand last render the same tree: the
      tree depends only on the fields, and each setter changes only its own. */
  method BrandLast(brand: Elem, a: Elem, b: Elem, c: Elem) returns (t: Node)
    ensures t == Expected(brand, a, b, c)
  {
    var nb := new Navbar(false);
    var x := nb.Right(c);
    x := x.Left(true, a);
    x := x.Left(false, b);
    x := x.Brand(Some(brand));
    assert x.left == [a, b] && x.actives == [true, false] && x.right == [c];
    t := x.AsTag();
    Render4(brand, a, b, c);
  }

  lemma Render4(brand: Elem, a: Elem, b: Elem, c: Elem)
    ensures Render(false, Unfixed, Some(brand), [a, b], [true, false], [c]) == Expected(brand, a, b, c)
  {
    assert [] + ["active"] == ["active"];
    assert LeftItem(a, true) == Element("li", ["active"], map[], [a]);
    assert LeftItems([a, b], [true, false]) == [Element("li", ["active"], map[], [a]), Element("li", [], map[], [b])];
    assert RightItems([c]) == [Element("li", [], map[], [c])];
    assert [] + ["navbar-header"] == ["navbar-header"];
    assert RootClasses(false, Unfixed) == ["navbar", "navbar-default"];
    assert Header(brand) == Element("div", ["navbar-header"], map[], [brand.(classes := brand.classes + ["navbar-brand"])]);
    assert Collapse([a, b], [true, false], [c]) == Element("div", ["collapse", "navbar-collapse"], map[], [
      LeftList([a, b], [true, false]), RightList([c])]);
    assert Sections(Some(brand), [a, b], [true, false], [c]) == [Header(brand), Collapse([a, b], [true, false], [c])];
  }
}
