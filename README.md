# Bootstrap widgets over a markup tree, in Dafny

This project models the core of a Go package (`bs`) that builds Bootstrap 3
widgets as trees of markup nodes. It covers three pieces of logic:

- the **pagination control** (`Pagination`). It emits a "previous" link, a
  window of pages left of the current page, the current page, a window of
  pages right of it and a "next" link. Each part is gated by comparisons of
  the current page with 1 and with the page count.
- the **navigation bar builder** (`Navbar`). It is a mutable accumulator
  with a colour scheme, a position mode, an optional brand, left entries
  with active flags and right entries. It is set up by chained setters and
  rendered by `AsTag` into a tree of fixed shape.
- the **tab strip** (`Tabs`). It rewrites the slice it is given in place,
  wrapping every tab in a `#` link inside a list item and marking the
  selected one.

The markup library the package builds on is replaced by a small datatype
(`Html.Node`). A node is an element (tag, classes added with `AddClass`,
attributes set with `Attr`, ordered children), a text node or a named
entity. `*Element` is the subset type `Html.Elem`. The URL function of the
pagination control is a parameter `url: int -> string`. `strconv.Itoa` is
modelled by a decimal rendering function, `Html.Itoa`.

Modules:
- `Html`: the node datatype and the library operations the package calls.
- `Components`: `Container` and `Tabs`.
- `Pager`: `Pagination`.
- `Navbars`: the `Navbar` class and `Render`, the function that specifies
  its rendering.
- `NavbarScenarios`: two configuration sequences that render the same tree.

Each loop of the source is a method proved against a specification
function. `Pagination` is proved against `PaginationItems`, the list
builders of `AsTag` against `LeftList`/`RightList`, `AsTag` against
`Render`, and `Tabs` against `TabItems`. The lemmas state what the source
promises about those functions.

Points where the model follows the code rather than a looser reading of
the package's purpose:
- `AsTag` uses the fluid container (`Container(true)`), not the fixed-width one.
- `AsTag` adds "navbar-brand" to the stored brand element itself, so
  calling it twice is not guaranteed to give the same tree. The model does
  not claim that rendering is idempotent.
- When `curPage > totalPages`, or pages or windows are not positive, the
  loops run exactly as written. No clamp is added. Negative window sizes
  give empty windows, which is why the lengths below use `max(0, …)`.

## Model

| member | source | states |
|---|---|---|
| `Html.Itoa` | bs.go:148 | a page number renders as a non-empty string that starts with '-' exactly for negative numbers |
| `Html.Digits` | bs.go:148 | the digits Itoa writes for a magnitude n are decimal digits that denote n (`Value(Digits(n)) == n`), with a leading '0' only for 0 |
| `Html.ItoaDenotes` | bs.go:148 | after the optional '-', Itoa writes at least one decimal digit; the digits denote the absolute value of i, with a leading zero only for 0 |
| `Html.ClassMechanisms` | bs.go:18-25 | `AddClass` adds exactly the given classes and leaves the class attribute alone; `Attr("class", v)` sets the class attribute to v and leaves the added classes alone; appending children changes neither |
| `Components.ContainerShape` | bs.go:16-26 | the container is a `div` holding exactly the given children; its class attribute is "container-fluid" iff `fluid`, and "container" otherwise |
| `Components.TabItemsMarked` | bs.go:36-47 | after the loop, item i is an `li` wrapping `A("#", original tab i)`, and its class attribute is "active" iff i == active |
| `Components.TabItemsNoneMarked` | bs.go:40-42 | when `active` is not an index of the slice, no item gets a class attribute |
| `Components.Tabs` | bs.go:36-47 | the array is overwritten in place with `TabItems` of its old contents; the result is a `ul` of those items whose class attribute is "nav nav-<tp>" |
| `Pager.AppendPages` | bs.go:146-162 | a counted loop appends one page link per page from lo through hi, in ascending order, and changes nothing else of the `ul` |
| `Pager.Pagination` | bs.go:137-170 | the result is a `ul` with class "pagination" whose children are exactly `PaginationItems` |
| `Pager.PaginationLength` | bs.go:137-170 | the length is (cur>1 ? 1 + max(0, cur - max(1, cur-maxLeft)) : 0) + 1 + (cur<total ? max(0, min(total, cur+maxRight) - cur) + 1 : 0); neither window is longer than its limit |
| `Pager.WindowCounts` | bs.go:145-157 | a window whose limit is at most 0 is empty, whichever link is shown |
| `Pager.SectionsUnmarked` | bs.go:141-166 | the previous, next and window items carry no class |
| `Pager.PrevLinkIff` | bs.go:140-143 | the first item is the "«" link to `url(cur-1)` iff cur > 1 |
| `Pager.LeftWindowExact` | bs.go:140-150 | when cur > 1, the "«" link comes first; item i after it (1 <= i <= LeftCount) is the link to page max(1, cur-maxLeft) + i - 1 through `url`; a non-empty left window ends at page cur-1 |
| `Pager.RightWindowExact` | bs.go:156-162 | when cur < total, the items right after the current page at index p are the links to pages cur+1, cur+2, … in order (item i is page cur + i - p); a non-empty right window ends at page min(total, cur+maxRight) |
| `Pager.NextLinkIff` | bs.go:156-167 | the last item is the "»" link to `url(cur+1)` iff cur < total, even when the right window is empty |
| `Pager.ExactlyOneActive` | bs.go:152-155 | exactly one item has class "active": the `li` at the index after the left section, holding an `a` with href "#", the page number as text and a span with class "sr-only" and text "(current)" |
| `Pager.FirstOfFive` | bs.go:137-170 | page 1 of 5 with windows 2 and 2 gives [current 1, 2, 3, »] |
| `Pager.LastOfFive` | bs.go:137-170 | page 5 of 5 with windows 2 and 2 gives [«, 3, 4, current 5] |
| `Pager.ThirdOfTen` | bs.go:137-170 | page 3 of 10 with windows 1 and 1 gives [«, 2, current 3, 4, »] |
| `Navbars.RenderRoot` | bs.go:224-273 | the root is a `nav` with classes "navbar", then "navbar-inverse" or "navbar-default", then "navbar-fixed-top" iff top, "navbar-fixed-bottom" iff bottom, and nothing more iff unfixed; its single child is a div whose class attribute is "container-fluid" and which holds the sections |
| `Navbars.SectionsOrder` | bs.go:241-269 | the container holds the "navbar-header" div (with the brand, plus "navbar-brand") first iff there is a brand, then the collapsible div iff some entry exists, and nothing else |
| `Navbars.CollapseOrder` | bs.go:245-268 | the "collapse navbar-collapse" div holds the left list iff there are left entries, then the right list iff there are right entries |
| `Navbars.LeftListItems` | bs.go:248-258 | the "nav navbar-nav" list has one `li` per left entry in insertion order; item i wraps left[i] and has class "active" iff actives[i] |
| `Navbars.RightListItems` | bs.go:260-266 | the "nav navbar-nav navbar-right" list has one `li` per right entry in order, wrapping it, and never marked "active" |
| `Navbars.BuildRoot` | bs.go:225-237 | the root built by the class branches carries exactly `RootClasses` |
| `Navbars.BuildLeftList` | bs.go:249-257 | the range loop over the left entries builds exactly `LeftList` |
| `Navbars.BuildRightList` | bs.go:261-265 | the range loop over the right entries builds exactly `RightList` |
| `Navbars.BuildCollapse` | bs.go:246-266 | the collapsible div built by the two guarded blocks is exactly `Collapse` |
| `Navbars.Navbar.constructor` | bs.go:178-180 | a new builder has the given colour scheme, no position, no brand and no entries |
| `Navbars.Navbar.FixedTop` | bs.go:182-185 | sets the mode to top, changes no other field, returns the receiver |
| `Navbars.Navbar.FixedBottom` | bs.go:187-190 | sets the mode to bottom, changes no other field, returns the receiver |
| `Navbars.Navbar.Brand` | bs.go:192-195 | replaces the brand (last call wins), changes no other field, returns the receiver |
| `Navbars.Navbar.Left` | bs.go:197-201 | appends to the left entries and the flags together, so they stay the same length; earlier entries and every other field are unchanged; returns the receiver |
| `Navbars.Navbar.LeftLink` | bs.go:203-205 | appends a link with the given text as a left entry, as `Left` does |
| `Navbars.Navbar.Right` | bs.go:207-210 | appends only to the right entries; returns the receiver |
| `Navbars.Navbar.RightLink` | bs.go:212-214 | appends a link with the given text as a right entry |
| `Navbars.Navbar.RightText` | bs.go:216-218 | appends a "navbar-text" div holding the text as a right entry |
| `Navbars.Navbar.AsTag` | bs.go:224-274 | the rendered tree is exactly `Render` of the current fields |
| `NavbarScenarios.Render4` | bs.go:224-274 | a brand, left entries a (active) and b, and right entry c render as header(brand), then list[li.active(a), li(b)], then list.right[li(c)] |
| `NavbarScenarios.BrandFirst` | bs.go:192-274 | setting the brand first, then the left entries, then the right entry, renders that tree |
| `NavbarScenarios.BrandLast` | bs.go:192-274 | setting the right entry first and the brand last renders the same tree as `BrandFirst`. In general, the tree depends only on the fields, because `AsTag` equals `Render` of them and each setter changes only its own field; this scenario is one instance of that |

## Left out

- The markup library's internals are left out: serialization, how `Attr("class", …)` and `AddClass` combine in the output, and element kinds other than the few used here. The library is a separate package. `Attr` is modelled as a map update and `AddClass` as an append to a class list, the two mechanisms the source itself uses.
- `New` and the `Bootstrap` page wrapper (bs.go:12-14, 276-284) are left out. They are page plumbing that links a stylesheet.
- The one-line class wrappers are left out: `Row`, `Col`, `INPUT`, `TEXTAREA`, `BUTTON`, `Glyphicon`, `InputGroupBtn`, `Alert`, `FormGroup`, `HelpBlock`, `Panel`, `PanelHeading`, `PanelBody`, `UListGroup`, `OListGroup`, `ListGroupItem`, `PageHeader` and `Navbar.FORM`. Each attaches fixed classes and has no invariant.
- `fmt.Sprintf` is modelled only where a constant format is used, as string concatenation ("nav nav-" + tp in `Tabs`).
- Navbars.Navbar.AsTag: the source adds "navbar-brand" to the caller's brand element itself. The model renders a copy with the class added and leaves the stored brand unchanged, so the class stacking that repeated renders may cause in the source is not modelled.
- Navbars.Navbar.Brand, Navbars.Navbar.Left, Navbars.Navbar.Right: the source stores pointers to the caller's elements (bs.go:193, 198, 208), so a later change the caller makes to an entry shows up in the rendered tree, and an element used both as the brand and as an entry also gets "navbar-brand" (bs.go:242) inside the list. The model stores each element's value at the time of the call.
- Passing a nil element to `Left` or `Right` is not modelled. A nil brand is modelled as `None`, which clears the brand.
- The position mode is an integer in the source. It is a three-valued datatype here, because only the three constants are ever stored in that private field.
- Components.Tabs: the source overwrites the variadic slice, which is the caller's slice when the call spreads a slice. The model is the in-place update of one array. Aliasing with other variables of the caller is not modelled.
- Pager.Pagination: the two counted loops are modelled as two calls of one loop method, `AppendPages`, rather than written inline.
- Pager.Pagination: integers are unbounded. Overflow of Go's 64-bit `int` in `curPage+maxRight` or `curPage-maxLeft` near the extremes is not modelled.
