/** The pagination control of bs.go: a `ul.pagination` holding a
    "previous" link, a window of pages left of the current one, the current
    page, a window of pages right of it and a "next" link. */
module Pager {
  import opened Html

  function Max(a: int, b: int): int { if a >= b then a else b }
  function Min(a: int, b: int): int { if a <= b then a else b }

  /** First page of the left window. */
  function LeftStart(cur: int, maxLeft: int): int { Max(1, cur - maxLeft) }

  /** Last page of the right window. */
  function RightEnd(cur: int, total: int, maxRight: int): int { Min(total, cur + maxRight) }

  /** How many pages the left loop emits (none without a previous link). */
  function LeftCount(cur: int, maxLeft: int): nat
  {
    if cur > 1 then Max(0, cur - LeftStart(cur, maxLeft)) else 0
  }

  /** How many pages the right loop emits (none without a next link). */
  function RightCount(cur: int, total: int, maxRight: int): nat
  {
    if cur < total then Max(0, RightEnd(cur, total, maxRight) - cur) else 0
  }

  /** A numbered page link. */
  function PageItem(url: int -> string, page: int): Elem
  {
    LI([A(url(page), [T(Itoa(page))])])
  }

  function PrevItem(url: int -> string, cur: int): Elem
  {
    LI([A(url(cur - 1), [LAQUO])])
  }

  function NextItem(url: int -> string, cur: int): Elem
  {
    LI([A(url(cur + 1), [RAQUO])])
  }

  /** The current page: not a link anywhere, marked active, with a
      screen-reader annotation. */
  function CurrentItem(cur: int): Elem
  {
    AddClass(LI([A("#", [T(Itoa(cur)), AddClass(SPAN([T("(current)")]), ["sr-only"])])]), ["active"])
  }

  /** `n` consecutive page links starting at page `first`. */
  function Window(url: int -> string, first: int, n: nat): (w: seq<Node>)
    ensures |w| == n
  {
    seq(n, k => PageItem(url, first + k))
  }

  /** Everything before the current page: the previous link and the left
      window, both present only when cur > 1. */
  function LeftSection(url: int -> string, cur: int, maxLeft: int): seq<Node>
  {
    if cur > 1 then [PrevItem(url, cur)] + Window(url, LeftStart(cur, maxLeft), LeftCount(cur, maxLeft)) else []
  }

  /** Everything after the current page: the right window and the next
      link, both present only when cur < total. */
  function RightSection(url: int -> string, cur: int, total: int, maxRight: int): seq<Node>
  {
    if cur < total then Window(url, cur + 1, RightCount(cur, total, maxRight)) + [NextItem(url, cur)] else []
  }

  /** The items of the control, section by section. */
  function PaginationItems(url: int -> string, cur: int, total: int, maxLeft: int, maxRight: int): seq<Node>
  {
    LeftSection(url, cur, maxLeft) + [CurrentItem(cur)] + RightSection(url, cur, total, maxRight)
  }

  /** Index of the current-page item. */
  function CurrentIndex(cur: int, maxLeft: int): nat
  {
    if cur > 1 then 1 + LeftCount(cur, maxLeft) else 0
  }

  /** One counted loop of the control: appends a link for every page
      from `lo` through `hi`, in ascending order, to `ul`. */
  method AppendPages(ul: Elem, url: int -> string, lo: int, hi: int) returns (r: Elem)
    ensures r.tag == ul.tag && r.classes == ul.classes && r.attrs == ul.attrs
    ensures r.children == ul.children + Window(url, lo, Max(0, hi - lo + 1))
  {
    r := ul;
    var i := lo;
    while i <= hi
      invariant lo <= i <= Max(lo, hi + 1)
      invariant r.tag == ul.tag && r.classes == ul.classes && r.attrs == ul.attrs
      invariant r.children == ul.children + Window(url, lo, i - lo)
    {
      assert Window(url, lo, i - lo + 1) == Window(url, lo, i - lo) + [PageItem(url, i)];
      r := Child(r, [PageItem(url, i)]);
      i := i + 1;
    }
  }

  /** Builds the control: previous link and left window when cur > 1, the
      current page, then right window and next link when cur < total. */
  method Pagination(url: int -> string, cur: int, total: int, maxLeft: int, maxRight: int) returns (ul: Node)
    ensures ul == Element("ul", ["pagination"], map[], PaginationItems(url, cur, total, maxLeft, maxRight))
  {
    var u := AddClass(UL([]), ["pagination"]);
    if cur > 1 {
      u := Child(u, [PrevItem(url, cur)]);
      var mn := Max(1, cur - maxLeft);
      u := AppendPages(u, url, mn, cur - 1);
    }
    ghost var left := u.children;
    assert left == LeftSection(url, cur, maxLeft);
    u := Child(u, [CurrentItem(cur)]);
    if cur < total {
      var mx := Min(total, cur + maxRight);
      u := AppendPages(u, url, cur + 1, mx);
      u := Child(u, [NextItem(url, cur)]);
      assert u.children == left + [CurrentItem(cur)] + RightSection(url, cur, total, maxRight);
    }
    ul := u;
  }

  /** Item counts: the output length is fixed by the four inputs. */
  lemma PaginationLength(url: int -> string, cur: int, total: int, maxLeft: int, maxRight: int)
    ensures |PaginationItems(url, cur, total, maxLeft, maxRight)| ==
      (if cur > 1 then 1 + Max(0, cur - Max(1, cur - maxLeft)) else 0)
      + 1
      + (if cur < total then Max(0, Min(total, cur + maxRight) - cur) + 1 else 0)
    ensures LeftCount(cur, maxLeft) <= Max(0, maxLeft)
    ensures RightCount(cur, total, maxRight) <= Max(0, maxRight)
  {
  }

  /** No element of `s` carries a class. */
  predicate Unmarked(s: seq<Node>)
  {
    forall i :: 0 <= i < |s| ==> s[i].Element? && s[i].classes == []
  }

  lemma WindowUnmarked(url: int -> string, first: int, n: nat)
    ensures Unmarked(Window(url, first, n))
  {
    var w := Window(url, first, n);
    forall k | 0 <= k < n ensures w[k].Element? && w[k].classes == [] {
      assert w[k] == PageItem(url, first + k);
    }
  }

  lemma SectionsUnmarked(url: int -> string, cur: int, total: int, maxLeft: int, maxRight: int)
    ensures Unmarked(LeftSection(url, cur, maxLeft))
    ensures Unmarked(RightSection(url, cur, total, maxRight))
  {
    if cur > 1 {
      var w := Window(url, LeftStart(cur, maxLeft), LeftCount(cur, maxLeft));
      assert LeftSection(url, cur, maxLeft) == [PrevItem(url, cur)] + w;
      WindowUnmarked(url, LeftStart(cur, maxLeft), LeftCount(cur, maxLeft));
    }
    if cur < total {
      var w := Window(url, cur + 1, RightCount(cur, total, maxRight));
      assert RightSection(url, cur, total, maxRight) == w + [NextItem(url, cur)];
      WindowUnmarked(url, cur + 1, RightCount(cur, total, maxRight));
    }
  }

  /** The first item is the previous link, to page cur-1, exactly when cur > 1. */
  lemma PrevLinkIff(url: int -> string, cur: int, total: int, maxLeft: int, maxRight: int)
    ensures |PaginationItems(url, cur, total, maxLeft, maxRight)| > 0
    ensures PaginationItems(url, cur, total, maxLeft, maxRight)[0] == PrevItem(url, cur) <==> cur > 1
  {
    if cur <= 1 {
      assert PaginationItems(url, cur, total, maxLeft, maxRight)[0] == CurrentItem(cur);
    }
  }

  /** The middle part of a three-part concatenation. */
  lemma Middle<T>(a: seq<T>, b: seq<T>, c: seq<T>)
    ensures (a + b + c)[|a|..|a| + |b|] == b
  {
  }

  /** A window is empty when its limit is at most 0, whichever link is
      shown. */
  lemma WindowCounts(cur: int, total: int, maxLeft: int, maxRight: int)
    ensures maxLeft <= 0 ==> LeftCount(cur, maxLeft) == 0
    ensures maxRight <= 0 ==> RightCount(cur, total, maxRight) == 0
  {
  }

  /** The left window is exactly pages LeftStart .. cur-1, ascending, right
      after the previous link. */
  lemma LeftWindowExact(url: int -> string, cur: int, total: int, maxLeft: int, maxRight: int)
    requires cur > 1
    ensures PaginationItems(url, cur, total, maxLeft, maxRight)[0] == PrevItem(url, cur)
    ensures forall i :: 1 <= i < 1 + LeftCount(cur, maxLeft) ==>
      PaginationItems(url, cur, total, maxLeft, maxRight)[i] == PageItem(url, LeftStart(cur, maxLeft) + i - 1)
    ensures LeftCount(cur, maxLeft) > 0 ==> LeftStart(cur, maxLeft) + LeftCount(cur, maxLeft) == cur
  {
    LeftWindowSlice(url, cur, total, maxLeft, maxRight);
    var n := LeftCount(cur, maxLeft);
    WindowAt(PaginationItems(url, cur, total, maxLeft, maxRight), 1, url, LeftStart(cur, maxLeft), n);
  }

  /** The left window sits right after the previous link. */
  lemma LeftWindowSlice(url: int -> string, cur: int, total: int, maxLeft: int, maxRight: int)
    requires cur > 1
    ensures PaginationItems(url, cur, total, maxLeft, maxRight)[0] == PrevItem(url, cur)
    ensures 1 + LeftCount(cur, maxLeft) <= |PaginationItems(url, cur, total, maxLeft, maxRight)|
    ensures PaginationItems(url, cur, total, maxLeft, maxRight)[1..1 + LeftCount(cur, maxLeft)]
      == Window(url, LeftStart(cur, maxLeft), LeftCount(cur, maxLeft))
  {
    var w := Window(url, LeftStart(cur, maxLeft), LeftCount(cur, maxLeft));
    var rest := [CurrentItem(cur)] + RightSection(url, cur, total, maxRight);
    assert PaginationItems(url, cur, total, maxLeft, maxRight) == [PrevItem(url, cur)] + w + rest;
    Middle([PrevItem(url, cur)], w, rest);
  }

  /** The right window is exactly pages cur+1 .. RightEnd, ascending, right
      after the current item. */
  lemma RightWindowExact(url: int -> string, cur: int, total: int, maxLeft: int, maxRight: int)
    requires cur < total
    ensures var p := CurrentIndex(cur, maxLeft);
      forall i :: p + 1 <= i < p + 1 + RightCount(cur, total, maxRight) ==>
        PaginationItems(url, cur, total, maxLeft, maxRight)[i] == PageItem(url, cur + i - p)
    ensures RightCount(cur, total, maxRight) > 0 ==> cur + RightCount(cur, total, maxRight) == RightEnd(cur, total, maxRight)
  {
    RightWindowSlice(url, cur, total, maxLeft, maxRight);
    var p := CurrentIndex(cur, maxLeft);
    var n := RightCount(cur, total, maxRight);
    WindowAt(PaginationItems(url, cur, total, maxLeft, maxRight), p + 1, url, cur + 1, n);
  }

  /** A window cut out of a sequence at `lo` puts page first + (i - lo) at
      index i. */
  lemma WindowAt(s: seq<Node>, lo: nat, url: int -> string, first: int, n: nat)
    requires lo + n <= |s| && s[lo..lo + n] == Window(url, first, n)
    ensures forall i :: lo <= i < lo + n ==> s[i] == PageItem(url, first + i - lo)
  {
    forall i | lo <= i < lo + n ensures s[i] == PageItem(url, first + i - lo) {
      assert s[i] == s[lo..lo + n][i - lo];
    }
  }

  /** The right window sits right after the current item. */
  lemma RightWindowSlice(url: int -> string, cur: int, total: int, maxLeft: int, maxRight: int)
    requires cur < total
    ensures var p := CurrentIndex(cur, maxLeft);
      p + 1 + RightCount(cur, total, maxRight) <= |PaginationItems(url, cur, total, maxLeft, maxRight)| &&
      PaginationItems(url, cur, total, maxLeft, maxRight)[p + 1..p + 1 + RightCount(cur, total, maxRight)]
      == Window(url, cur + 1, RightCount(cur, total, maxRight))
  {
    var left := LeftSection(url, cur, maxLeft) + [CurrentItem(cur)];
    var w := Window(url, cur + 1, RightCount(cur, total, maxRight));
    assert |left| == CurrentIndex(cur, maxLeft) + 1;
    assert PaginationItems(url, cur, total, maxLeft, maxRight) == left + w + [NextItem(url, cur)];
    Middle(left, w, [NextItem(url, cur)]);
  }

  /** The last item is the next link, to page cur+1, exactly when
      cur < total, even when the right window is empty. */
  lemma NextLinkIff(url: int -> string, cur: int, total: int, maxLeft: int, maxRight: int)
    ensures var items := PaginationItems(url, cur, total, maxLeft, maxRight);
      |items| > 0 && (items[|items| - 1] == NextItem(url, cur) <==> cur < total)
  {
    var items := PaginationItems(url, cur, total, maxLeft, maxRight);
    if cur >= total {
      assert items == LeftSection(url, cur, maxLeft) + [CurrentItem(cur)];
      assert items[|items| - 1] == CurrentItem(cur);
    }
  }

  lemma CurrentItemLiteral(cur: int)
    ensures CurrentItem(cur) == Element("li", ["active"], map[], [
        Element("a", [], map["href" := "#"], [Text(Itoa(cur)), Element("span", ["sr-only"], map[], [Text("(current)")])])
      ])
  {
    assert [] + ["active"] == ["active"] && [] + ["sr-only"] == ["sr-only"];
  }

  /** Exactly one item is active: the current page, after every left-window
      item and before every right-window item, with `#` as its target, the
      page number as text and an "sr-only" "(current)" annotation. */
  lemma ExactlyOneActive(url: int -> string, cur: int, total: int, maxLeft: int, maxRight: int)
    ensures var items := PaginationItems(url, cur, total, maxLeft, maxRight);
      var p := CurrentIndex(cur, maxLeft);
      p < |items| &&
      (set i | 0 <= i < |items| && HasClass(items[i], "active")) == {p} &&
      items[p] == Element("li", ["active"], map[], [
        Element("a", [], map["href" := "#"], [Text(Itoa(cur)), Element("span", ["sr-only"], map[], [Text("(current)")])])
      ])
  {
    var items := PaginationItems(url, cur, total, maxLeft, maxRight);
    var p := CurrentIndex(cur, maxLeft);
    OthersInactive(url, cur, total, maxLeft, maxRight);
    assert items[p] == CurrentItem(cur);
    CurrentItemLiteral(cur);
    var marked := set i | 0 <= i < |items| && HasClass(items[i], "active");
    assert forall i :: i in marked <==> i == p;
  }

  /** Every item other than the current page is inactive. */
  lemma OthersInactive(url: int -> string, cur: int, total: int, maxLeft: int, maxRight: int)
    ensures var items := PaginationItems(url, cur, total, maxLeft, maxRight);
      var p := CurrentIndex(cur, maxLeft);
      p < |items| && items[p] == CurrentItem(cur) &&
      forall i :: 0 <= i < |items| && i != p ==> !HasClass(items[i], "active")
  {
    SectionsUnmarked(url, cur, total, maxLeft, maxRight);
    var items := PaginationItems(url, cur, total, maxLeft, maxRight);
    var left := LeftSection(url, cur, maxLeft);
    var right := RightSection(url, cur, total, maxRight);
    var p := CurrentIndex(cur, maxLeft);
    assert |left| == p;
    assert items == left + [CurrentItem(cur)] + right;
    forall i | 0 <= i < |items| && i != p ensures !HasClass(items[i], "active") {
      if i < p {
        assert items[i] == left[i];
      } else {
        assert items[i] == right[i - p - 1];
      }
    }
  }

  /** First page of five, windows of two: [current 1, 2, 3, next]. */
  lemma FirstOfFive(url: int -> string)
    ensures PaginationItems(url, 1, 5, 2, 2) ==
      [CurrentItem(1), PageItem(url, 2), PageItem(url, 3), NextItem(url, 1)]
  {
    assert Window(url, 2, 2) == [PageItem(url, 2), PageItem(url, 3)];
  }

  /** Last page of five, windows of two: [prev, 3, 4, current 5]. */
  lemma LastOfFive(url: int -> string)
    ensures PaginationItems(url, 5, 5, 2, 2) ==
      [PrevItem(url, 5), PageItem(url, 3), PageItem(url, 4), CurrentItem(5)]
  {
    assert Window(url, 3, 2) == [PageItem(url, 3), PageItem(url, 4)];
  }

  /** Page three of ten, windows of one: [prev, 2, current 3, 4, next]. */
  lemma ThirdOfTen(url: int -> string)
    ensures PaginationItems(url, 3, 10, 1, 1) ==
      [PrevItem(url, 3), PageItem(url, 2), CurrentItem(3), PageItem(url, 4), NextItem(url, 3)]
  {
    assert Window(url, 2, 1) == [PageItem(url, 2)];
    assert Window(url, 4, 1) == [PageItem(url, 4)];
  }
}
