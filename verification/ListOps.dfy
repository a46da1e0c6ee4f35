/** Comparison, membership and deletion on the lists of the cell heap (iseqel, iseqls, member and delete in
    src/list/list.c). */
module ListOps {
  import opened Cells
  import opened CellHeap

  /** What an element of a list stands for. */
  datatype Shown = Atom(value: int) | Inner(list: List)

  predicate ElementShows(cells: seq<Cell>, e: Element, x: Shown) {
    match x
    case Atom(v) => e == Token(v)
    case Inner(l) => e.Sub? && Shows(cells, e.list, l)
  }

  function HeadOf(l: List): Shown
    requires l != Nil
  {
    if l.Item? then Atom(l.value) else Inner(l.head)
  }

  function Prepend(x: Shown, l: List): List {
    if x.Atom? then Item(x.value, l) else Nested(x.list, l)
  }

  /** The list without its first element x. */
  function Deleted(l: List, x: Shown): List {
    if l == Nil then Nil else if HeadOf(l) == x then l.tail else Prepend(HeadOf(l), Deleted(l.tail, x))
  }

  /** The number of cells that are copied: those before the first x, or all without it. */
  function Copied(l: List, x: Shown): nat {
    if l == Nil || HeadOf(l) == x then 0 else 1 + Copied(l.tail, x)
  }

  predicate Contains(l: List, x: Shown) {
    l != Nil && (HeadOf(l) == x || Contains(l.tail, x))
  }

  /** A list that contains x is the part before it, x, and the rest; deleting leaves the two parts. */
  function Concat(l: List, m: List): List {
    match l
    case Nil => m
    case Item(v, t) => Item(v, Concat(t, m))
    case Nested(h, t) => Nested(h, Concat(t, m))
  }

  lemma {:induction false} DeletedExactly(l: List, x: Shown) returns (before: List, after: List)
    ensures Contains(l, x) ==> !Contains(before, x) && l == Concat(before, Prepend(x, after))
    ensures Contains(l, x) ==> Deleted(l, x) == Concat(before, after)
    ensures !Contains(l, x) ==> Deleted(l, x) == l
  {
    before, after := Nil, Nil;
    if l != Nil {
      if HeadOf(l) == x {
        after := l.tail;
      } else {
        before, after := DeletedExactly(l.tail, x);
        before := Prepend(HeadOf(l), before);
      }
    }
  }

  /** A pointer shows one list only. */
  lemma {:induction false} ShowsUnique(cells: seq<Cell>, p: Ptr, l: List, m: List)
    requires Shows(cells, p, l) && Shows(cells, p, m)
    ensures l == m
    decreases l
  {
    if l != Nil {
      ShowsUnique(cells, cells[p.index].next, l.tail, m.tail);
      if l.Nested? { ShowsUnique(cells, cells[p.index].element.list, l.head, m.head); }
    }
  }

  ghost function Size(l: List): nat {
    match l
    case Nil => 0
    case Item(_, t) => 2 + Size(t)
    case Nested(h, t) => 2 + Size(h) + Size(t)
  }

  /** iseqls: the lists are equal, also when both are the same cells. */
  method EqualLists(mem: Memory, p: Ptr, q: Ptr, ghost l: List, ghost m: List) returns (b: bool)
    requires Shows(mem.area[..], p, l) && Shows(mem.area[..], q, m)
    ensures b <==> l == m
    decreases Size(l)
  {
    if p == Epsilon && q == Epsilon { return true; }
    if p == Epsilon || q == Epsilon { return false; }
    if p == q {
      ShowsUnique(mem.area[..], p, l, m);
      return true;
    }
    var c, d := mem.area[p.index], mem.area[q.index];
    b := EqualElements(mem, c.element, d.element, HeadOf(l), HeadOf(m));
    if b { b := EqualLists(mem, c.next, d.next, l.tail, m.tail); }
  }

  /** iseqel */
  method EqualElements(mem: Memory, e: Element, f: Element, ghost x: Shown, ghost y: Shown) returns (b: bool)
    requires ElementShows(mem.area[..], e, x) && ElementShows(mem.area[..], f, y)
    ensures b <==> x == y
    decreases if x.Inner? then Size(x.list) + 1 else 0
  {
    if e.Token? && f.Token? {
      b := e.value == f.value;
    } else if e.Sub? && f.Sub? {
      b := EqualLists(mem, e.list, f.list, x.list, y.list);
    } else {
      b := false;
    }
  }

  /** member */
  method IsMember(mem: Memory, p: Ptr, e: Element, ghost l: List, ghost x: Shown) returns (b: bool)
    requires Shows(mem.area[..], p, l) && ElementShows(mem.area[..], e, x)
    ensures b <==> Contains(l, x)
    decreases l
  {
    if p == Epsilon { return false; }
    b := EqualElements(mem, mem.area[p.index].element, e, HeadOf(l), x);
    if !b { b := IsMember(mem, mem.area[p.index].next, e, l.tail, x); }
  }

  // ----- deletion copies cells, and may collect in between -----

  /** The live cells the words point to, and what is reachable from them, are kept. */
  ghost predicate WordsKept(a: seq<Cell>, b: seq<Cell>, words: seq<Ptr>) {
    Kept(a, b, WordRoots(a, words))
  }

  lemma {:induction false} PathKept(a: seq<Cell>, b: seq<Cell>, roots: set<nat>, path: seq<nat>)
    requires Sane(a) && Kept(a, b, roots) && IsPath(a, path) && path[0] in roots && forall r | r in roots :: Live(a, r)
    ensures IsPath(b, path)
  {
    forall k: nat | k < |path| ensures Live(a, path[k]) && Reachable(a, roots, path[k]) {
      var front := path[..k + 1];
      assert IsPath(a, front) && front[0] == path[0] && front[k] == path[k];
      PathLive(a, front);
    }
  }

  /** What one step keeps for the words and the next step keeps for more roots is kept by both. */
  lemma WordsKeptOn(a: seq<Cell>, b: seq<Cell>, c: seq<Cell>, words: seq<Ptr>, roots: set<nat>)
    requires Sane(a) && WordsKept(a, b, words) && Kept(b, c, roots) && WordRoots(b, words) <= roots
    ensures WordsKept(a, c, words)
  {
    var start := WordRoots(a, words);
    forall r | r in start ensures Live(a, r) && r in roots {
      WordRootsMembers(a, words, r);
      RootReachable(a, start, r);
      WordRootsMembers(b, words, r);
    }
    forall i: nat | i < |a| && Live(a, i) && Reachable(a, start, i)
      ensures c[i].element == a[i].element && c[i].next == a[i].next
    {
      var path: seq<nat> :| IsPath(a, path) && path[0] in start && path[|path| - 1] == i;
      PathKept(a, b, start, path);
      assert Live(b, i) && Reachable(b, roots, i);
    }
  }

  /** Fewer words protect less. */
  lemma FewerWords(a: seq<Cell>, b: seq<Cell>, words: seq<Ptr>, more: seq<Ptr>)
    requires WordsKept(a, b, more) && forall p | p in words :: p in more
    ensures WordsKept(a, b, words)
  {
    var few, many := WordRoots(a, words), WordRoots(a, more);
    forall i: nat | i < |a| && Live(a, i) && Reachable(a, few, i) ensures Reachable(a, many, i) {
      var path: seq<nat> :| IsPath(a, path) && path[0] in few && path[|path| - 1] == i;
      WordRootsMembers(a, words, path[0]);
      WordRootsMembers(a, more, path[0]);
    }
  }

  /** A list that a word points to reads the same afterwards. */
  lemma WordShows(a: seq<Cell>, b: seq<Cell>, words: seq<Ptr>, p: Ptr, l: List)
    requires WordsKept(a, b, words) && p in words && Shows(a, p, l)
    ensures Shows(b, p, l)
  {
    if p.To? {
      WordRootsMembers(a, words, p.index);
      RootReachable(a, WordRoots(a, words), p.index);
    }
    ShowsKept(a, b, WordRoots(a, words), p, l);
  }

  /** The cell a word points to is kept. */
  lemma WordCellKept(a: seq<Cell>, b: seq<Cell>, words: seq<Ptr>, p: Ptr, l: List)
    requires WordsKept(a, b, words) && p in words && Shows(a, p, l) && l != Nil
    ensures p.index < |b| && b[p.index].element == a[p.index].element && b[p.index].next == a[p.index].next
  {
    WordRootsMembers(a, words, p.index);
    RootReachable(a, WordRoots(a, words), p.index);
  }

  /** delete: with its arguments on the machine stack, as of every active call, the result shows the list
      without the first x, and whatever the words of the stack point to is unchanged, even when copying
      the cells before it collects.  False is the fatal error of a full memory; it does not happen
      when as many cells are free as are copied. */
  method Delete(mem: Memory, e: Element, p: Ptr, words: seq<Ptr>, ghost l: List, ghost x: Shown)
    returns (ok: bool, r: Ptr)
    requires mem.Valid() && Shows(mem.area[..], p, l) && ElementShows(mem.area[..], e, x)
    requires p in words && (e.Sub? ==> e.list in words)
    modifies mem, mem.area
    ensures ok ==> mem.Valid() && Shows(mem.area[..], r, Deleted(l, x))
    ensures ok ==> WordsKept(old(mem.area[..]), mem.area[..], words)
    ensures old(|mem.freeList|) >= Copied(l, x) ==> ok && |mem.freeList| == old(|mem.freeList|) - Copied(l, x)
    decreases l
  {
    ghost var a := mem.area[..];
    if p == Epsilon { return true, Epsilon; }
    var c := mem.area[p.index];
    var same := EqualElements(mem, e, c.element, x, HeadOf(l));
    if same { return true, c.next; }
    ghost var deeper := words + [c.next];
    var rest;
    ok, rest := Delete(mem, e, c.next, words + [c.next], l.tail, x);
    if !ok { return false, Null; }
    ghost var b := mem.area[..];
    WordCellKept(a, b, deeper, p, l);
    WordShows(a, b, deeper, p, l);
    FewerWords(a, b, words, deeper);
    ghost var keep := mem.RootsWith(words) + RootOf(b, rest) + HeadRoot(b, c.element);
    ok, r := mem.Cons(c.element, rest, words);
    if ok {
      WordsKeptOn(a, b, mem.area[..], words, keep);
      ConsShows(b, mem.area[..], keep, r.index, c.element, rest, Deleted(l.tail, x));
    }
  }
}
