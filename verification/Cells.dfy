/** Cells, pointers and the invariant of the cell heap (include/list.h, include/gc.h). */
module Cells {
  import opened Wrappers

  /** The null pointer, the address of the shared empty list, or the address of a cell of the area. */
  datatype Ptr = Null | Epsilon | To(index: nat)

  datatype Color = White | Grey | Black

  /** The element of a cell: vacant cells point to themselves; cleared cells are not in use yet. */
  datatype Element = Vacant(self: Ptr) | Token(value: int) | Sub(list: Ptr) | Cleared

  datatype Cell = Cell(color: Color, ref: Ptr, element: Element, next: Ptr)

  function First(s: seq<nat>): Ptr {
    if s == [] then Epsilon else To(s[0])
  }

  function After(s: seq<nat>, k: nat): Ptr {
    if k + 1 < |s| then To(s[k + 1]) else Epsilon
  }

  predicate Live(cells: seq<Cell>, i: nat) {
    i < |cells| && !cells[i].element.Vacant?
  }

  /** A pointer that a list may hold: nothing, the empty list or a live cell. */
  predicate Proper(cells: seq<Cell>, p: Ptr) {
    p.To? ==> Live(cells, p.index)
  }

  /** The k-th element of the free list is vacant, points to itself and is linked to the next one. */
  predicate FreeLink(cells: seq<Cell>, fl: seq<nat>, k: nat)
    requires k < |fl|
  {
    && fl[k] < |cells| && cells[fl[k]].color == White
    && cells[fl[k]].element == Vacant(To(fl[k])) && cells[fl[k]].next == After(fl, k)
  }

  /** The free list: exactly the vacant cells, each of which points to itself. */
  predicate FreeListed(cells: seq<Cell>, free: Ptr, fl: seq<nat>) {
    && NoDuplicates(fl) && free == First(fl)
    && (forall k: nat | k < |fl| :: FreeLink(cells, fl, k))
    && (forall i: nat | i < |cells| && cells[i].element.Vacant? :: i in fl)
  }

  /** The k-th element of the grey stack is grey, live and refers to the next one. */
  predicate GreyLink(cells: seq<Cell>, gl: seq<nat>, k: nat)
    requires k < |gl|
  {
    && gl[k] < |cells| && cells[gl[k]].color == Grey
    && !cells[gl[k]].element.Vacant? && cells[gl[k]].ref == After(gl, k)
  }

  /** The grey stack, threaded through the ref links: exactly the grey cells, all of them live. */
  predicate GreyStacked(cells: seq<Cell>, top: Ptr, gl: seq<nat>) {
    && NoDuplicates(gl) && top == First(gl)
    && (forall k: nat | k < |gl| :: GreyLink(cells, gl, k))
    && (forall i: nat | i < |cells| && cells[i].color == Grey :: i in gl)
  }

  lemma FreeMember(cells: seq<Cell>, free: Ptr, fl: seq<nat>, i: nat)
    requires FreeListed(cells, free, fl)
    ensures i in fl <==> i < |cells| && cells[i].element.Vacant?
    ensures i in fl ==> cells[i].color == White && cells[i].element == Vacant(To(i))
  {
    if i in fl {
      var k: nat :| k < |fl| && fl[k] == i;
      assert FreeLink(cells, fl, k);
    }
  }

  lemma GreyMember(cells: seq<Cell>, top: Ptr, gl: seq<nat>, i: nat)
    requires GreyStacked(cells, top, gl)
    ensures i in gl <==> i < |cells| && cells[i].color == Grey
    ensures i in gl ==> Live(cells, i)
  {
    if i in gl {
      var k: nat :| k < |gl| && gl[k] == i;
      assert GreyLink(cells, gl, k);
    }
  }

  /** Live cells are initialised and point to live cells only. */
  predicate Sane(cells: seq<Cell>) {
    forall i: nat | i < |cells| && Live(cells, i) ::
      && Proper(cells, cells[i].next) && cells[i].element != Cleared
      && (cells[i].element.Sub? ==> Proper(cells, cells[i].element.list))
  }

  predicate NoBlack(cells: seq<Cell>) {
    forall i: nat | i < |cells| :: cells[i].color != Black
  }

  /** Only colours and ref links may differ. */
  predicate SameContents(a: seq<Cell>, b: seq<Cell>) {
    |a| == |b| && forall i: nat | i < |a| :: a[i].element == b[i].element && a[i].next == b[i].next
  }

  // ----- reachability -----

  /** Cell c links to cell j. */
  predicate Links(c: Cell, j: nat) {
    c.next == To(j) || c.element == Sub(To(j))
  }

  ghost predicate IsPath(cells: seq<Cell>, path: seq<nat>) {
    && path != []
    && (forall k: nat | k < |path| :: path[k] < |cells|)
    && (forall k: nat | k + 1 < |path| :: Links(cells[path[k]], path[k + 1]))
  }

  /** A path of links leads from a root to i. */
  ghost predicate Reachable(cells: seq<Cell>, roots: set<nat>, i: nat) {
    exists path: seq<nat> :: IsPath(cells, path) && path[0] in roots && path[|path| - 1] == i
  }

  lemma RootReachable(cells: seq<Cell>, roots: set<nat>, i: nat)
    requires i in roots && i < |cells|
    ensures Reachable(cells, roots, i)
  {
    assert IsPath(cells, [i]);
  }

  lemma LinkReachable(cells: seq<Cell>, roots: set<nat>, i: nat, j: nat)
    requires i < |cells| && j < |cells| && Reachable(cells, roots, i) && Links(cells[i], j)
    ensures Reachable(cells, roots, j)
  {
    var path: seq<nat> :| IsPath(cells, path) && path[0] in roots && path[|path| - 1] == i;
    var longer := path + [j];
    assert IsPath(cells, longer);
    assert longer[0] == path[0] && longer[|longer| - 1] == j;
  }

  /** A set that contains the roots and is closed under links contains every reachable cell. */
  lemma {:induction false} ClosedContainsPath(cells: seq<Cell>, m: set<nat>, path: seq<nat>)
    requires IsPath(cells, path) && path[0] in m
    requires forall i: nat, j: nat | i in m && i < |cells| && j < |cells| && Links(cells[i], j) :: j in m
    ensures path[|path| - 1] in m
  {
    if |path| > 1 {
      var shorter := path[..|path| - 1];
      assert IsPath(cells, shorter);
      ClosedContainsPath(cells, m, shorter);
    }
  }

  lemma ReachableSameContents(a: seq<Cell>, b: seq<Cell>, roots: set<nat>, i: nat)
    requires SameContents(a, b) && Reachable(a, roots, i)
    ensures Reachable(b, roots, i)
  {
    var path: seq<nat> :| IsPath(a, path) && path[0] in roots && path[|path| - 1] == i;
    assert IsPath(b, path);
  }

  /** From live roots only live cells are reachable. */
  lemma {:induction false} PathLive(cells: seq<Cell>, path: seq<nat>)
    requires Sane(cells) && IsPath(cells, path) && Live(cells, path[0])
    ensures Live(cells, path[|path| - 1])
  {
    if |path| > 1 {
      var shorter := path[..|path| - 1];
      assert IsPath(cells, shorter);
      PathLive(cells, shorter);
    }
  }

  // ----- what a pointer stands for -----

  /** A list of tokens and lists. */
  datatype List = Nil | Item(value: int, tail: List) | Nested(head: List, tail: List)

  predicate Shows(cells: seq<Cell>, p: Ptr, l: List)
    decreases l
  {
    match l
    case Nil => p == Epsilon
    case Item(v, t) =>
      p.To? && Live(cells, p.index) && cells[p.index].element == Token(v) && Shows(cells, cells[p.index].next, t)
    case Nested(h, t) =>
      && p.To? && Live(cells, p.index) && cells[p.index].element.Sub?
      && Shows(cells, cells[p.index].element.list, h) && Shows(cells, cells[p.index].next, t)
  }

  /** The cell a pointer gives a collection to start from: none unless it is a live cell. */
  function RootOf(cells: seq<Cell>, p: Ptr): set<nat> {
    if p.To? && Live(cells, p.index) then {p.index} else {}
  }

  /** Every live cell that is reachable from the roots keeps its contents. */
  ghost predicate Kept(a: seq<Cell>, b: seq<Cell>, roots: set<nat>) {
    |a| == |b| &&
    forall i: nat | i < |a| && Live(a, i) && Reachable(a, roots, i) ::
      b[i].element == a[i].element && b[i].next == a[i].next
  }

  /** A list whose first cell is reachable from the roots reads the same afterwards. */
  lemma {:induction false} ShowsKept(a: seq<Cell>, b: seq<Cell>, roots: set<nat>, p: Ptr, l: List)
    requires Kept(a, b, roots) && Shows(a, p, l)
    requires p.To? ==> p.index < |a| && Reachable(a, roots, p.index)
    ensures Shows(b, p, l)
    decreases l
  {
    if l != Nil {
      var i := p.index;
      forall q: nat | Links(a[i], q) && q < |a| ensures Reachable(a, roots, q) {
        LinkReachable(a, roots, i, q);
      }
      ShowsKept(a, b, roots, a[i].next, l.tail);
      if l.Nested? {
        ShowsKept(a, b, roots, a[i].element.list, l.head);
      }
    }
  }
}
