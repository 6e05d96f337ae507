/** An abstract stand-in for the markup-tree library the widgets are built
    against.  A node is an element (tag, classes added with AddClass,
    attributes set with Attr, ordered children), a text node or a named
    entity.  Serialization is not modelled. */
module Html {

  datatype Option<T> = None | Some(value: T)

  datatype Node =
    | Element(tag: string, classes: seq<string>, attrs: map<string, string>, children: seq<Node>)
    | Text(s: string)
    | Entity(name: string)

  /** The library's `*Element`: a node that is an element. */
  type Elem = n: Node | n.Element? witness Element("div", [], map[], [])

  /** A fresh element with no classes and no attributes. */
  function Tag(name: string, children: seq<Node>): Elem
  {
    Element(name, [], map[], children)
  }

  function A(href: string, children: seq<Node>): Elem
  {
    Element("a", [], map["href" := href], children)
  }

  function LI(children: seq<Node>): Elem { Tag("li", children) }
  function UL(children: seq<Node>): Elem { Tag("ul", children) }
  function DIV(children: seq<Node>): Elem { Tag("div", children) }
  function SPAN(children: seq<Node>): Elem { Tag("span", children) }
  function NAV(): Elem { Tag("nav", []) }
  function T(s: string): Node { Text(s) }

  const LAQUO: Node := Entity("laquo")
  const RAQUO: Node := Entity("raquo")

  /** Appends classes to an element. */
  function AddClass(e: Elem, cs: seq<string>): Elem
  {
    e.(classes := e.classes + cs)
  }

  /** Sets one attribute of an element. */
  function Attr(e: Elem, key: string, value: string): Elem
  {
    e.(attrs := e.attrs[key := value])
  }

  /** Appends children to an element. */
  function Child(e: Elem, cs: seq<Node>): Elem
  {
    e.(children := e.children + cs)
  }

  /** The node carries class `c` through AddClass. */
  predicate HasClass(n: Node, c: string)
  {
    n.Element? && c in n.classes
  }

  /** The node's `class` attribute, set through Attr, is exactly `v`. */
  predicate ClassAttrIs(n: Node, v: string)
  {
    n.Element? && "class" in n.attrs && n.attrs["class"] == v
  }

  /** The two class mechanisms are independent: AddClass adds exactly the
      given classes and leaves the class attribute alone; Attr("class", …)
      replaces the class attribute and leaves the added classes alone;
      appending children changes neither. */
  lemma ClassMechanisms(e: Elem, cs: seq<string>, kids: seq<Node>, key: string, value: string, c: string, v: string)
    ensures HasClass(AddClass(e, cs), c) <==> HasClass(e, c) || c in cs
    ensures ClassAttrIs(AddClass(e, cs), v) <==> ClassAttrIs(e, v)
    ensures ClassAttrIs(Attr(e, key, value), v) <==> if key == "class" then v == value else ClassAttrIs(e, v)
    ensures HasClass(Attr(e, key, value), c) <==> HasClass(e, c)
    ensures HasClass(Child(e, kids), c) <==> HasClass(e, c)
    ensures ClassAttrIs(Child(e, kids), v) <==> ClassAttrIs(e, v)
  {
  }

  function DigitChar(d: nat): (c: char)
    requires d < 10
    ensures '0' <= c <= '9' && DigitValue(c) == d
  {
    (48 + d) as char
  }

  function DigitValue(c: char): nat
    requires '0' <= c <= '9'
  {
    c as int - 48
  }

  predicate IsDigits(s: string)
  {
    forall k :: 0 <= k < |s| ==> '0' <= s[k] <= '9'
  }

  /** The number a string of decimal digits denotes, most significant first. */
  function Value(s: string): nat
    requires IsDigits(s)
  {
    if |s| == 0 then 0 else Value(s[..|s| - 1]) * 10 + DigitValue(s[|s| - 1])
  }

  /** The decimal digits of `n`, most significant first. */
  function Digits(n: nat): (s: string)
    ensures |s| > 0 && IsDigits(s)
  {
    if n < 10 then [DigitChar(n)] else Digits(n / 10) + [DigitChar(n % 10)]
  }

  /** The digits are canonical: they denote `n`, and only 0 is written with
      a leading zero. */
  lemma {:induction false} DigitsValue(n: nat)
    ensures Value(Digits(n)) == n
    ensures Digits(n)[0] == '0' ==> n == 0
  {
    if n >= 10 {
      DigitsValue(n / 10);
      var s := Digits(n);
      assert s[..|s| - 1] == Digits(n / 10);
    }
  }

  /** Decimal rendering of an integer, as the standard library's Itoa:
      a leading '-' exactly for negative numbers, then the digits of the
      magnitude. */
  function Itoa(i: int): (s: string)
    ensures |s| > 0
    ensures (s[0] == '-') <==> i < 0
  {
    if i < 0 then "-" + Digits(-i) else Digits(i)
  }

  /** What Itoa writes after the sign are the canonical decimal digits of
      the magnitude: at least one digit, denoting |i|, with a leading zero
      only for 0. */
  lemma ItoaDenotes(i: int)
    ensures var s := Itoa(i);
      var d := if i < 0 then s[1..] else s;
      |d| > 0 && IsDigits(d) && Value(d) == (if i < 0 then -i else i) && (d[0] == '0' ==> i == 0)
  {
    if i < 0 {
      assert Itoa(i)[1..] == Digits(-i);
      DigitsValue(-i);
    } else {
      DigitsValue(i);
    }
  }
}
