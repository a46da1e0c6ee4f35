/** The collector and the allocator (src/list/gc.c, src/list/list.c), in place on the cell area. */
module CellHeap {
  import opened Cells

  function WordRoots(cells: seq<Cell>, words: seq<Ptr>): set<nat> {
    if words == [] then {} else WordRoots(cells, words[..|words| - 1]) + RootOf(cells, words[|words| - 1])
  }

  function Members(gl: seq<nat>): set<nat> {
    set i | i in gl
  }

  /** The cells a collection starts from: the grey stack, the live cells whose address a word of
      the machine stack holds, and the registers. */
  function Roots(cells: seq<Cell>, gl: seq<nat>, cons: Ptr, ax: Ptr, words: seq<Ptr>): set<nat> {
    Members(gl) + WordRoots(cells, words) + RootOf(cells, cons) + RootOf(cells, ax)
  }

  lemma {:induction false} WordRootsMembers(cells: seq<Cell>, words: seq<Ptr>, i: nat)
    ensures i in WordRoots(cells, words) <==> Live(cells, i) && To(i) in words
  {
    if words != [] {
      WordRootsMembers(cells, words[..|words| - 1], i);
      assert words == words[..|words| - 1] + [words[|words| - 1]];
    }
  }

  lemma {:induction false} WordRootsSame(a: seq<Cell>, b: seq<Cell>, words: seq<Ptr>)
    requires SameContents(a, b)
    ensures WordRoots(a, words) == WordRoots(b, words)
  {
    if words != [] {
      WordRootsSame(a, b, words[..|words| - 1]);
    }
  }

  /** Exactly these cells are grey and no cell is black. */
  predicate GreyExactly(cells: seq<Cell>, m: set<nat>) {
    forall i: nat | i < |cells| :: cells[i].color == if i in m then Grey else White
  }

  function Greyed(c: Cell, top: Ptr): Cell {
    c.(color := Grey, ref := top)
  }

  lemma PushKeeps(cells: seq<Cell>, top: Ptr, gl: seq<nat>, i: nat)
    requires GreyStacked(cells, top, gl) && Live(cells, i) && cells[i].color == White
    ensures GreyStacked(cells[i := Greyed(cells[i], top)], To(i), [i] + gl)
    ensures SameContents(cells, cells[i := Greyed(cells[i], top)])
  {
    var after, gl' := cells[i := Greyed(cells[i], top)], [i] + gl;
    assert i !in gl by { GreyMember(cells, top, gl, i); }
    forall k: nat | k < |gl'| ensures GreyLink(after, gl', k) {
      if k > 0 {
        assert GreyLink(cells, gl, k - 1);
        assert gl'[k] == gl[k - 1] && gl[k - 1] in gl;
        assert After(gl', k) == After(gl, k - 1);
      }
    }
    forall j: nat | j < |after| && after[j].color == Grey ensures j in gl' {
      if j != i { assert j in gl; }
    }
  }

  lemma FreeWhenVacant(cells: seq<Cell>, free: Ptr, fl: seq<nat>)
    requires FreeListed(cells, free, fl)
    ensures free != Epsilon <==> exists i: nat :: i < |cells| && !Live(cells, i)
  {
    if free != Epsilon {
      assert FreeLink(cells, fl, 0);
      assert fl[0] < |cells| && !Live(cells, fl[0]);
    }
  }

  /** Colours and ref links of live cells are not the concern of the free list. */
  lemma FreeListedRecoloured(a: seq<Cell>, b: seq<Cell>, free: Ptr, fl: seq<nat>)
    requires FreeListed(a, free, fl) && SameContents(a, b)
    requires forall i: nat | i < |a| && a[i].element.Vacant? :: b[i].color == White
    ensures FreeListed(b, free, fl)
  {
    forall k: nat | k < |fl| ensures FreeLink(b, fl, k) {
      assert FreeLink(a, fl, k);
      assert a[fl[k]].element == b[fl[k]].element;
    }
  }

  lemma PushExactly(cells: seq<Cell>, after: seq<Cell>, p: Ptr, m: set<nat>)
    requires GreyExactly(cells, m) && |after| == |cells|
    requires if p.To? && Live(cells, p.index) && cells[p.index].color == White
             then exists top :: after == cells[p.index := Greyed(cells[p.index], top)]
             else after == cells
    ensures GreyExactly(after, m + RootOf(cells, p))
  {
  }

  function NextAddress(i: nat, capacity: nat): Ptr {
    if i + 1 < capacity then To(i + 1) else Epsilon
  }

  // ----- marking -----

  /** What the mark loop keeps: coloured cells are reachable, roots are coloured, and no link leads
      from a black cell to a white one. */
  ghost predicate Marking(cells0: seq<Cell>, cells: seq<Cell>, roots: set<nat>) {
    && SameContents(cells0, cells)
    && (forall i: nat | i < |cells| && cells[i].color != White :: Reachable(cells0, roots, i))
    && (forall r | r in roots && r < |cells| :: cells[r].color != White)
    && (forall i: nat, j: nat | i < |cells| && j < |cells| && cells[i].color == Black && Links(cells[i], j) ::
          cells[j].color != White)
  }

  /** One round of the loop: i turns black and the white cells it links to turn grey. */
  ghost predicate MarkedRound(a: seq<Cell>, b: seq<Cell>, i: nat) {
    && SameContents(a, b) && i < |a| && a[i].color == Grey && b[i].color == Black
    && (forall j: nat | j < |a| && j != i ::
          b[j].color == if a[j].color == White && Links(a[i], j) then Grey else a[j].color)
  }

  /** The cell p leads to is not white any more; no other colour changes. */
  ghost predicate PushedTo(a: seq<Cell>, b: seq<Cell>, p: Ptr) {
    && SameContents(a, b)
    && forall j: nat | j < |a| :: b[j].color == if p == To(j) && a[j].color == White then Grey else a[j].color
  }

  lemma TwoPushes(a: seq<Cell>, b: seq<Cell>, c: seq<Cell>, d: seq<Cell>, i: nat)
    requires i < |a| && a[i].color == Grey && b == a[i := a[i].(color := Black)]
    requires PushedTo(b, c, a[i].next)
    requires PushedTo(c, d, if a[i].element.Sub? then a[i].element.list else Epsilon)
    ensures MarkedRound(a, d, i)
  {
  }

  lemma MarkedRoundKeeps(cells0: seq<Cell>, a: seq<Cell>, b: seq<Cell>, roots: set<nat>, i: nat)
    requires Marking(cells0, a, roots) && MarkedRound(a, b, i)
    ensures Marking(cells0, b, roots)
  {
    assert Reachable(cells0, roots, i);
    forall j: nat | j < |b| && b[j].color != White ensures Reachable(cells0, roots, j) {
      if a[j].color == White {
        assert Links(a[i], j) && Links(cells0[i], j);
        LinkReachable(cells0, roots, i, j);
      }
    }
    forall k: nat, j: nat | k < |b| && j < |b| && b[k].color == Black && Links(b[k], j) ensures b[j].color != White {
      assert Links(a[k], j);
    }
  }

  /** When no cell is grey any more, exactly the reachable cells are black. */
  lemma MarkingDone(cells0: seq<Cell>, cells: seq<Cell>, roots: set<nat>, i: nat)
    requires Marking(cells0, cells, roots) && i < |cells|
    requires forall j: nat | j < |cells| :: cells[j].color != Grey
    ensures cells[i].color == if Reachable(cells0, roots, i) then Black else White
  {
    if Reachable(cells0, roots, i) {
      var black := set j: nat | j < |cells| && cells[j].color == Black;
      forall k: nat, j: nat | k in black && k < |cells0| && j < |cells0| && Links(cells0[k], j) ensures j in black {
        assert Links(cells[k], j);
      }
      var path: seq<nat> :| IsPath(cells0, path) && path[0] in roots && path[|path| - 1] == i;
      assert path[0] in black;
      ClosedContainsPath(cells0, black, path);
    }
  }

  ghost function NotBlack(cells: seq<Cell>): set<nat> {
    set i: nat | i < |cells| && cells[i].color != Black
  }

  // ----- sweeping -----

  /** What the sweep makes of a cell. */
  predicate Swept(before: Cell, after: Cell) {
    if before.color == Black then after == before.(color := White, ref := Null)
    else if before.element.Vacant? then after == before
    else after.color == White && after.element.Vacant?
  }

  lemma FreeKeeps(cells: seq<Cell>, free: Ptr, fl: seq<nat>, i: nat)
    requires FreeListed(cells, free, fl) && Live(cells, i)
    ensures FreeListed(cells[i := Cell(White, Null, Vacant(To(i)), free)], To(i), [i] + fl)
  {
    var after, fl' := cells[i := Cell(White, Null, Vacant(To(i)), free)], [i] + fl;
    assert i !in fl by { FreeMember(cells, free, fl, i); }
    forall k: nat | k < |fl'| ensures FreeLink(after, fl', k) {
      if k > 0 {
        assert FreeLink(cells, fl, k - 1);
        assert fl'[k] == fl[k - 1] && fl[k - 1] in fl;
        assert After(fl', k) == After(fl, k - 1);
      }
    }
    forall j: nat | j < |after| && after[j].element.Vacant? ensures j in fl' {
      if j != i { assert j in fl; }
    }
  }

  lemma RecolouredBlack(cells: seq<Cell>, free: Ptr, fl: seq<nat>, i: nat)
    requires FreeListed(cells, free, fl) && Live(cells, i)
    ensures FreeListed(cells[i := cells[i].(color := White, ref := Null)], free, fl)
  {
    var b := cells[i := cells[i].(color := White, ref := Null)];
    forall k: nat | k < |fl| ensures FreeLink(b, fl, k) {
      assert FreeLink(cells, fl, k);
    }
  }

  /** Every cell is vacant and linked to the next one. */
  predicate AllVacant(cells: seq<Cell>) {
    forall i: nat | i < |cells| ::
      && cells[i].color == White && cells[i].element == Vacant(To(i))
      && cells[i].next == NextAddress(i, |cells|)
  }

  lemma InitialFreeList(cells: seq<Cell>, fl: seq<nat>)
    requires cells != [] && AllVacant(cells)
    requires |fl| == |cells| && forall k: nat | k < |fl| :: fl[k] == k
    ensures FreeListed(cells, To(0), fl)
  {
    forall i: nat | i < |cells| ensures i in fl {
      assert fl[i] == i;
    }
    forall k: nat | k < |fl| ensures FreeLink(cells, fl, k) {
      if k + 1 < |fl| {
        var j := k + 1;
        assert fl[j] == j;
      }
    }
  }

  /** The loop of init_MBCT. */
  method VacateAll(area: array<Cell>)
    requires area.Length > 0
    modifies area
    ensures AllVacant(area[..])
  {
    for k := 0 to area.Length
      invariant forall i: nat | i < k ::
                  area[i].color == White && area[i].element == Vacant(To(i)) && area[i].next == To(i + 1)
    {
      area[k] := Cell(White, Epsilon, Vacant(To(k)), To(k + 1));
    }
    area[area.Length - 1] := area[area.Length - 1].(next := Epsilon);
  }

  class Memory {
    const area: array<Cell>
    var free: Ptr
    var stack: Ptr
    var cons: Ptr
    var ax: Ptr
    var collections: nat

    ghost var freeList: seq<nat>
    ghost var greyList: seq<nat>
    ghost var handed: set<nat>  // the cells that cons has returned since the last collection

    ghost predicate Valid()
      reads this, area
    {
      && FreeListed(area[..], free, freeList)
      && GreyStacked(area[..], stack, greyList)
      && Sane(area[..]) && NoBlack(area[..])
      && cons != Null && ax != Null && Proper(area[..], cons) && Proper(area[..], ax)
      && (forall i | i in handed :: i in greyList || cons == To(i))
    }

    ghost function RootsWith(words: seq<Ptr>): set<nat>
      reads this, area
    {
      Roots(area[..], greyList, cons, ax, words)
    }

    method SetCell(i: nat, c: Cell)
      requires i < area.Length
      modifies area
      ensures area[..] == old(area[..])[i := c]
    {
      area[i] := c;
    }

    /** init_MBCT */
    constructor (capacity: nat)
      requires capacity > 0
      ensures Valid() && fresh(area) && area.Length == capacity
      ensures handed == {} && forall i: nat | i < capacity :: !Live(area[..], i)
    {
      area := new Cell[capacity];
      stack, cons, ax, collections := Epsilon, Epsilon, Epsilon, 0;
      greyList, handed := [], {};
      free, freeList := To(0), seq(capacity, i => i);
      new;
      VacateAll(area);
      InitialFreeList(area[..], freeList);
    }

    /** gc_push: a white live cell becomes grey and goes on top of the stack. */
    method GcPush(p: Ptr, top: Ptr, ghost gl: seq<nat>) returns (top': Ptr, ghost gl': seq<nat>)
      requires p != Null && (p.To? ==> p.index < area.Length)
      requires GreyStacked(area[..], top, gl)
      modifies area
      ensures GreyStacked(area[..], top', gl') && SameContents(old(area[..]), area[..])
      ensures var before := old(area[..]);
        if p.To? && before[p.index].color == White && Live(before, p.index)
        then area[..] == before[p.index := Greyed(before[p.index], top)]
        else area[..] == before
    {
      top', gl' := top, gl;
      if p.To? && area[p.index].color == White && !area[p.index].element.Vacant? {
        PushKeeps(area[..], top, gl, p.index);
        SetCell(p.index, Greyed(area[p.index], top));
        top', gl' := p, [p.index] + gl;
      }
    }

    /** Pushes a possible root on the stack register. */
    method GreyRoot(p: Ptr, ghost m: set<nat>)
      requires p != Null && (p.To? ==> p.index < area.Length)
      requires GreyStacked(area[..], stack, greyList) && GreyExactly(area[..], m)
      modifies this`stack, this`greyList, area
      ensures GreyStacked(area[..], stack, greyList) && SameContents(old(area[..]), area[..])
      ensures GreyExactly(area[..], m + RootOf(old(area[..]), p))
    {
      ghost var cells := area[..];
      stack, greyList := GcPush(p, stack, greyList);
      PushExactly(cells, area[..], p, m);
    }

    /** The loop over the words of the machine stack. */
    method GreyWords(words: seq<Ptr>, ghost m: set<nat>)
      requires GreyStacked(area[..], stack, greyList) && GreyExactly(area[..], m)
      modifies this`stack, this`greyList, area
      ensures GreyStacked(area[..], stack, greyList) && SameContents(old(area[..]), area[..])
      ensures GreyExactly(area[..], m + WordRoots(old(area[..]), words))
    {
      ghost var cells := area[..];
      for k := 0 to |words|
        invariant GreyStacked(area[..], stack, greyList) && SameContents(cells, area[..])
        invariant GreyExactly(area[..], m + WordRoots(cells, words[..k]))
      {
        var w := words[k];
        assert words[..k + 1][..k] == words[..k];
        assert RootOf(cells, w) == RootOf(area[..], w);
        if w.To? && w.index < area.Length {
          GreyRoot(w, m + WordRoots(cells, words[..k]));
        }
        assert m + WordRoots(cells, words[..k + 1]) == m + WordRoots(cells, words[..k]) + RootOf(cells, w);
      }
      assert words[..|words|] == words;
    }

    /** gc_init: greys the roots. */
    method GcInit(words: seq<Ptr>)
      requires Valid()
      modifies this`stack, this`greyList, area
      ensures GreyStacked(area[..], stack, greyList) && SameContents(old(area[..]), area[..])
      ensures GreyExactly(area[..], old(RootsWith(words)))
    {
      ghost var cells := area[..];
      ghost var m := Members(greyList);
      forall i: nat | i < |cells| ensures cells[i].color == if i in m then Grey else White {
        GreyMember(cells, stack, greyList, i);
      }
      GreyWords(words, m);
      GreyRoot(cons, m + WordRoots(cells, words));
      GreyRoot(ax, m + WordRoots(cells, words) + RootOf(cells, cons));
    }

    /** The pop at the head of the mark loop: the top of the stack leaves it and turns black. */
    method Blacken(top: Ptr, ghost gl: seq<nat>) returns (rest: Ptr, ghost gl': seq<nat>)
      requires GreyStacked(area[..], top, gl) && top != Epsilon
      modifies area
      ensures top.To? && top.index < area.Length && old(area[top.index].color) == Grey
      ensures area[..] == old(area[..])[top.index := old(area[top.index]).(color := Black)]
      ensures GreyStacked(area[..], rest, gl') && Live(area[..], top.index)
    {
      ghost var cells := area[..];
      assert GreyLink(cells, gl, 0);
      rest, gl' := area[top.index].ref, gl[1..];
      SetCell(top.index, area[top.index].(color := Black));
      forall k: nat | k < |gl'| ensures GreyLink(area[..], gl', k) {
        assert GreyLink(cells, gl, k + 1);
        assert gl'[k] == gl[k + 1];
        assert After(gl', k) == After(gl, k + 1);
      }
      forall i: nat | i < area.Length && area[..][i].color == Grey ensures i in gl' {
        assert cells[i].color == Grey && i in gl;
      }
    }

    /** Pushes the cell a link leads to. */
    method PushLink(p: Ptr, top: Ptr, ghost gl: seq<nat>) returns (top': Ptr, ghost gl': seq<nat>)
      requires GreyStacked(area[..], top, gl) && Proper(area[..], p)
      modifies area
      ensures GreyStacked(area[..], top', gl') && PushedTo(old(area[..]), area[..], p)
    {
      top', gl' := top, gl;
      if p != Epsilon && p != Null {
        top', gl' := GcPush(p, top', gl');
      }
    }

    /** The body of the mark loop. */
    method MarkTop(top: Ptr, ghost gl: seq<nat>) returns (top': Ptr, ghost gl': seq<nat>)
      requires GreyStacked(area[..], top, gl) && top != Epsilon && Sane(area[..])
      modifies area
      ensures GreyStacked(area[..], top', gl')
      ensures top.To? && MarkedRound(old(area[..]), area[..], top.index)
    {
      ghost var a := area[..];
      top', gl' := Blacken(top, gl);
      ghost var b := area[..];
      var p := area[top.index];
      SaneKept(a, b);
      top', gl' := PushLink(p.next, top', gl');
      ghost var c := area[..];
      SaneKept(b, c);
      var sub := if p.element.Sub? then p.element.list else Epsilon;
      top', gl' := PushLink(sub, top', gl');
      TwoPushes(a, b, c, area[..], top.index);
    }

    /** gc_mark_tail */
    method Mark(stackTop: Ptr, ghost gl: seq<nat>, ghost roots: set<nat>)
      requires GreyStacked(area[..], stackTop, gl) && Sane(area[..])
      requires GreyExactly(area[..], roots)
      modifies area
      ensures SameContents(old(area[..]), area[..])
      ensures forall i: nat | i < area.Length ::
                area[i].color == if Reachable(old(area[..]), roots, i) then Black else White
    {
      ghost var cells := area[..];
      forall i: nat | i < |cells| && cells[i].color != White ensures Reachable(cells, roots, i) {
        RootReachable(cells, roots, i);
      }
      var top := stackTop;
      ghost var grey := gl;
      while top != Epsilon
        invariant GreyStacked(area[..], top, grey) && Marking(cells, area[..], roots) && Sane(area[..])
        decreases NotBlack(area[..])
      {
        ghost var before := area[..];
        ghost var i := top;
        top, grey := MarkTop(top, grey);
        MarkedRoundKeeps(cells, before, area[..], roots, i.index);
        SaneKept(before, area[..]);
        assert i.index in NotBlack(before) && i.index !in NotBlack(area[..]);
      }
      forall i: nat | i < area.Length
        ensures area[i].color == if Reachable(cells, roots, i) then Black else White {
        MarkingDone(cells, area[..], roots, i);
      }
    }

    /** sweep: false is the fatal error that no cell is free. */
    method Sweep() returns (ok: bool)
      requires FreeListed(area[..], free, freeList)
      requires forall i: nat | i < area.Length ::
                 area[i].color == White || (area[i].color == Black && Live(area[..], i))
      modifies this`free, this`freeList, area
      ensures FreeListed(area[..], free, freeList) && ok == (free != Epsilon)
      ensures forall j: nat | j < area.Length :: Swept(old(area[j]), area[j])
    {
      for i := 0 to area.Length
        invariant FreeListed(area[..], free, freeList)
        invariant forall j: nat | j < i :: Swept(old(area[j]), area[j])
        invariant forall j: nat | i <= j < area.Length :: area[j] == old(area[j])
      {
        if area[i].color == Black {
          RecolouredBlack(area[..], free, freeList, i);
          SetCell(i, area[i].(color := White, ref := Null));
        } else if !area[i].element.Vacant? {
          FreeKeeps(area[..], free, freeList, i);
          SetCell(i, Cell(White, Null, Vacant(To(i)), free));
          free, freeList := To(i), [i] + freeList;
        }
      }
      ok := free != Epsilon;
    }

    /** The mark phase from the given roots. */
    method MarkFrom(words: seq<Ptr>)
      requires Valid()
      modifies this`stack, this`greyList, area
      ensures SameContents(old(area[..]), area[..])
      ensures forall i: nat | i < area.Length ::
                area[i].color == if Reachable(old(area[..]), old(RootsWith(words)), i) then Black else White
    {
      ghost var a, roots := area[..], RootsWith(words);
      GcInit(words);
      ghost var m := area[..];
      SaneKept(a, m);
      Mark(stack, greyList, roots);
      forall i: nat | i < area.Length ensures Reachable(m, roots, i) <==> Reachable(a, roots, i) {
        if Reachable(m, roots, i) { ReachableSameContents(m, a, roots, i); }
        if Reachable(a, roots, i) { ReachableSameContents(a, m, roots, i); }
      }
      assert forall i: nat | i < area.Length :: a[i].element == m[i].element == area[i].element;
    }

    /** gc: frees exactly the unreachable cells; false is the fatal error that every cell is in use. */
    method Gc(words: seq<Ptr>) returns (ok: bool)
      requires Valid()
      modifies this`free, this`freeList, this`stack, this`cons, this`ax, this`greyList, this`handed, this`collections
      modifies area
      ensures Collected(old(area[..]), area[..], old(RootsWith(words)))
      ensures ok == (free != Epsilon) == exists i: nat :: i < area.Length && !Live(area[..], i)
      ensures ok ==> Valid() && cons == Epsilon && ax == Epsilon && handed == {} && greyList == []
      ensures collections == old(collections) + 1
    {
      ghost var a, roots := area[..], RootsWith(words);
      RootsLive(words);
      collections := collections + 1;
      MarkFrom(words);
      ok := SweepUnmarked(a, roots);
      CollectedSane(a, area[..], roots);
      if ok {
        Epilogue();
      }
    }

    /** gc_epilogue */
    method Epilogue()
      requires FreeListed(area[..], free, freeList) && Sane(area[..]) && GreyExactly(area[..], {})
      modifies this`stack, this`cons, this`ax, this`greyList, this`handed
      ensures Valid() && cons == Epsilon && ax == Epsilon && handed == {} && greyList == []
    {
      stack, cons, ax := Epsilon, Epsilon, Epsilon;
      greyList, handed := [], {};
    }

    /** The sweep phase after the mark phase. */
    method SweepUnmarked(ghost a: seq<Cell>, ghost roots: set<nat>) returns (ok: bool)
      requires FreeListed(a, free, freeList) && Sane(a) && SameContents(a, area[..])
      requires forall r | r in roots :: Live(a, r)
      requires forall i: nat | i < area.Length :: area[i].color == if Reachable(a, roots, i) then Black else White
      modifies this`free, this`freeList, area
      ensures Collected(a, area[..], roots) && FreeListed(area[..], free, freeList)
      ensures ok == (free != Epsilon) == exists i: nat :: i < area.Length && !Live(area[..], i)
    {
      ghost var m := area[..];
      forall i: nat | i < area.Length && area[i].color == Black ensures Live(a, i) && Live(m, i) {
        ReachableLive(a, roots, i);
        assert m[i].element == a[i].element;
      }
      FreeListedRecoloured(a, m, free, freeList);
      ok := Sweep();
      SweptCollects(a, m, area[..], roots);
      FreeWhenVacant(area[..], free, freeList);
    }

    lemma RootsLive(words: seq<Ptr>)
      requires Valid()
      ensures forall r | r in RootsWith(words) :: Live(area[..], r)
    {
      forall r | r in RootsWith(words) ensures Live(area[..], r) {
        WordRootsMembers(area[..], words, r);
        GreyMember(area[..], stack, greyList, r);
      }
    }

    /** maintain_reg: puts a value in a register; what the register held goes on the stack. */
    method MaintainReg(r: Register, val: Ptr, ghost words: seq<Ptr>)
      requires Valid() && Proper(area[..], val)
      modifies this`cons, this`ax, this`stack, this`greyList, area
      ensures Valid() && SameContents(old(area[..]), area[..])
      ensures RootsWith(words) == old(RootsWith(words)) + RootOf(old(area[..]), val)
      ensures r == CONS && val.To? ==> cons == val
      ensures r == AX ==> cons == old(cons)
    {
      if val != Null && val != Epsilon {
        var held := if r == CONS then cons else ax;
        if held != Epsilon {
          KeepOnStack(held, words);
        }
        SetRegister(r, val, words);
      }
    }

    /** The push of maintain_reg: what a register holds is on the grey stack afterwards. */
    method KeepOnStack(p: Ptr, ghost words: seq<Ptr>)
      requires Valid() && p.To? && (p == cons || p == ax)
      modifies this`stack, this`greyList, area
      ensures Valid() && SameContents(old(area[..]), area[..]) && p.index in greyList
      ensures RootsWith(words) == old(RootsWith(words))
    {
      ghost var a, top, gl := area[..], stack, greyList;
      stack, greyList := GcPush(p, stack, greyList);
      KeepOnStackKeeps(a, area[..], free, freeList, top, gl, stack, greyList, p.index);
      KeptRoots(a, area[..], top, gl, stack, greyList, cons, ax, words, p.index);
    }

    /** The assignment of maintain_reg, once the old value is on the stack. */
    method SetRegister(r: Register, val: Ptr, ghost words: seq<Ptr>)
      requires Valid() && Proper(area[..], val) && val != Null
      requires var held := if r == CONS then cons else ax; held.To? ==> held.index in greyList
      modifies this`cons, this`ax
      ensures Valid() && RootsWith(words) == old(RootsWith(words)) + RootOf(area[..], val)
      ensures (r == CONS ==> cons == val) && (r == AX ==> cons == old(cons))
    {
      if r == CONS {
        cons := val;
      } else {
        ax := val;
      }
    }

    /** Whatever the machine stack holds, the cells handed out since the last collection survive the
        next one. */
    lemma HandedSurvive(words: seq<Ptr>, after: seq<Cell>)
      requires Valid() && Collected(area[..], after, RootsWith(words))
      ensures forall i | i in handed ::
        Live(after, i) && after[i].element == area[i].element && after[i].next == area[i].next
    {
      forall i | i in handed
        ensures Live(after, i) && after[i].element == area[i].element && after[i].next == area[i].next {
        GreyMember(area[..], stack, greyList, i);
        assert i in RootsWith(words);
        RootReachable(area[..], RootsWith(words), i);
      }
    }

    /** The start of vacant_cell: collects when the free list is empty. */
    method EnsureFree(words: seq<Ptr>) returns (ok: bool)
      requires Valid()
      modifies this`free, this`freeList, this`stack, this`cons, this`ax, this`greyList, this`handed, this`collections
      modifies area
      ensures ok ==> Valid() && free != Epsilon && Survive(old(area[..]), area[..], old(RootsWith(words)))
      ensures !ok ==> AllInUse(old(area[..]), old(RootsWith(words)))
      ensures ok && collections == old(collections) ==> handed == old(handed) && area[..] == old(area[..])
      ensures ok && collections != old(collections) ==> handed == {} && collections == old(collections) + 1
      ensures old(free) != Epsilon ==> ok && freeList == old(freeList)
    {
      if free == Epsilon {
        ok := Gc(words);
        CollectedSurvive(old(area[..]), area[..], old(RootsWith(words)));
        assert ok ==> free != Epsilon;
      } else {
        ok := true;
      }
    }

    /** The rest of vacant_cell and makecell: the first free cell is cleared and filled. */
    method Allocate(car: Element, cdr: Ptr) returns (r: Ptr)
      requires Valid() && free != Epsilon && Proper(area[..], cdr)
      requires car.Token? || (car.Sub? && Proper(area[..], car.list))
      modifies this`free, this`freeList, area
      ensures Valid() && r.To? && r.index < area.Length && !Live(old(area[..]), r.index)
      ensures area[..] == Filled(old(area[..]), r.index, car, cdr)
      ensures old(freeList) != [] && freeList == old(freeList)[1..]
    {
      ghost var a := area[..];
      AllocateFree(a, free, freeList, car, cdr);
      AllocateLive(a, stack, greyList, freeList[0], car, cdr);
      r := area[free.index].element.self;
      free, freeList := area[free.index].next, freeList[1..];
      SetCell(r.index, Cell(White, Null, Cleared, Null));
      SetCell(r.index, area[r.index].(element := car));
      SetCell(r.index, area[r.index].(next := cdr, color := White));
      assert area[..] == Filled(a, r.index, car, cdr);
    }

    /** The first two calls of maintain_reg in cons. */
    method ProtectArguments(car: Element, cdr: Ptr, ghost words: seq<Ptr>)
      requires Valid() && Proper(area[..], cdr) && cdr != Null
      requires car.Token? || (car.Sub? && Proper(area[..], car.list))
      modifies this`cons, this`ax, this`stack, this`greyList, area
      ensures Valid() && SameContents(old(area[..]), area[..])
      ensures RootsWith(words)
              == old(RootsWith(words)) + RootOf(old(area[..]), cdr) + HeadRoot(old(area[..]), car)
    {
      ghost var a := area[..];
      if car.Sub? {
        MaintainReg(AX, car.list, words);
      }
      RootOfSame(a, area[..], cdr);
      MaintainReg(AX, cdr, words);
    }

    /** cons: a cell with the given head and tail.  Both are protected from the collection that the
        allocation may cause; false is a fatal error: a null tail, or every cell is in use. */
    method Cons(car: Element, cdr: Ptr, words: seq<Ptr>) returns (ok: bool, r: Ptr)
      requires Valid() && Proper(area[..], cdr)
      requires car.Token? || (car.Sub? && Proper(area[..], car.list))
      modifies this`free, this`freeList, this`stack, this`cons, this`ax, this`greyList, this`handed, this`collections
      modifies area
      ensures var a, keep := old(area[..]), old(RootsWith(words)) + RootOf(old(area[..]), cdr) +
              HeadRoot(old(area[..]), car);
        && ok == (cdr != Null && !AllInUse(a, keep))
        && (ok ==> r.To? && Consed(a, area[..], keep, r.index, car, cdr))
      ensures ok ==> Valid() && r.index in handed && cons == r
      ensures ok ==> handed == (if collections == old(collections) then old(handed) else {}) + {r.index}
      ensures ok && collections == old(collections) ==> NoneFreed(old(area[..]), area[..])
      ensures cdr != Null && old(freeList) != [] ==> ok && freeList == old(freeList)[1..]
    {
      r := Null;
      if cdr == Null {
        return false, r;
      }
      ghost var a := area[..];
      ProtectArguments(car, cdr, words);
      ghost var b, keep := area[..], RootsWith(words);
      AllInUseSame(a, b, keep);
      ok, r := MakeCell(car, cdr, words, keep);
      if ok {
        ghost var c := area[..];
        HandOut(r, words);
        ConsedSame(a, b, c, area[..], keep, r.index, car, cdr);
      }
    }

    /** The last call of maintain_reg in cons. */
    method HandOut(r: Ptr, ghost words: seq<Ptr>)
      requires Valid() && r.To? && Live(area[..], r.index)
      modifies this`cons, this`ax, this`stack, this`greyList, this`handed, area
      ensures Valid() && SameContents(old(area[..]), area[..])
      ensures cons == r && handed == old(handed) + {r.index}
    {
      MaintainReg(CONS, r, words);
      handed := handed + {r.index};
    }

    /** makecell, with the tail that cons sets: a cell taken from the free list, after a collection
        if that is empty. */
    method MakeCell(car: Element, cdr: Ptr, words: seq<Ptr>, ghost keep: set<nat>) returns (ok: bool, r: Ptr)
      requires Valid() && Proper(area[..], cdr) && keep == RootsWith(words)
      requires car.Token? || (car.Sub? && Proper(area[..], car.list))
      requires RootOf(area[..], cdr) <= keep && HeadRoot(area[..], car) <= keep
      modifies this`free, this`freeList, this`stack, this`cons, this`ax, this`greyList, this`handed, this`collections
      modifies area
      ensures ok == !AllInUse(old(area[..]), keep)
      ensures ok ==> Valid() && r.To? && Consed(old(area[..]), area[..], keep, r.index, car, cdr)
      ensures ok ==> Live(area[..], r.index)
      ensures ok ==> handed == if collections == old(collections) then old(handed) else {}
      ensures ok && collections == old(collections) ==> NoneFreed(old(area[..]), area[..])
      ensures old(freeList) != [] ==> ok && freeList == old(freeList)[1..]
    {
      r := Null;
      ghost var b := area[..];
      ok := EnsureFree(words);
      if ok {
        ghost var c := area[..];
        ProperSurvives(b, c, keep, cdr);
        if car.Sub? { ProperSurvives(b, c, keep, car.list); }
        r := Allocate(car, cdr);
        FilledConsed(b, c, keep, r.index, car, cdr);
      }
    }
  }

  function HeadRoot(cells: seq<Cell>, car: Element): set<nat> {
    if car.Sub? then RootOf(cells, car.list) else {}
  }

  predicate NoneFreed(a: seq<Cell>, b: seq<Cell>) {
    |a| == |b| && forall i: nat | i < |a| && Live(a, i) :: Live(b, i)
  }

  /** Every cell is live and reachable from the roots. */
  ghost predicate AllInUse(cells: seq<Cell>, roots: set<nat>) {
    forall i: nat | i < |cells| :: Live(cells, i) && Reachable(cells, roots, i)
  }

  /** Reachable live cells stay live with their contents, and no cell becomes live. */
  ghost predicate Survive(a: seq<Cell>, b: seq<Cell>, roots: set<nat>) {
    && Kept(a, b, roots)
    && forall i: nat | i < |a| && Live(b, i) :: Live(a, i)
  }

  /** Cell i holds the new pair; it was free or unreachable, and everything reachable is kept. */
  ghost predicate Consed(a: seq<Cell>, b: seq<Cell>, keep: set<nat>, i: nat, car: Element, cdr: Ptr) {
    && Kept(a, b, keep)
    && i < |b| && b[i].element == car && b[i].next == cdr
    && !(Live(a, i) && Reachable(a, keep, i))
  }

  /** The new pointer shows the given head in front of the list that the tail showed before, even
      when the allocation collected. */
  lemma ConsShows(a: seq<Cell>, b: seq<Cell>, keep: set<nat>, i: nat, car: Element, cdr: Ptr, tail: List)
    requires Consed(a, b, keep, i, car, cdr) && RootOf(a, cdr) <= keep && HeadRoot(a, car) <= keep
    requires Shows(a, cdr, tail)
    ensures Shows(b, cdr, tail)
    ensures car.Token? ==> Shows(b, To(i), Item(car.value, tail))
    ensures car.Sub? ==> forall head | Shows(a, car.list, head) :: Shows(b, To(i), Nested(head, tail))
  {
    ShownReachable(a, keep, cdr, tail);
    ShowsKept(a, b, keep, cdr, tail);
    if car.Sub? {
      forall head | Shows(a, car.list, head) ensures Shows(b, To(i), Nested(head, tail)) {
        ShownReachable(a, keep, car.list, head);
        ShowsKept(a, b, keep, car.list, head);
      }
    }
  }

  lemma ShownReachable(a: seq<Cell>, keep: set<nat>, p: Ptr, l: List)
    requires Shows(a, p, l) && RootOf(a, p) <= keep
    ensures p.To? ==> p.index < |a| && Reachable(a, keep, p.index)
  {
    if p.To? {
      assert p.index in RootOf(a, p);
      RootReachable(a, keep, p.index);
    }
  }

  lemma CollectedSurvive(a: seq<Cell>, b: seq<Cell>, roots: set<nat>)
    requires Collected(a, b, roots)
    ensures Survive(a, b, roots)
    ensures (forall i: nat | i < |b| :: Live(b, i)) ==> AllInUse(a, roots)
  {
  }

  lemma AllInUseSame(a: seq<Cell>, b: seq<Cell>, roots: set<nat>)
    requires SameContents(a, b)
    ensures AllInUse(a, roots) <==> AllInUse(b, roots)
  {
    if AllInUse(a, roots) {
      forall i: nat | i < |b| ensures Live(b, i) && Reachable(b, roots, i) {
        assert Live(a, i);
        ReachableSameContents(a, b, roots, i);
      }
    }
    if AllInUse(b, roots) {
      forall i: nat | i < |a| ensures Live(a, i) && Reachable(a, roots, i) {
        assert Live(b, i);
        ReachableSameContents(b, a, roots, i);
      }
    }
  }

  lemma ProperSurvives(a: seq<Cell>, b: seq<Cell>, roots: set<nat>, p: Ptr)
    requires Survive(a, b, roots) && Proper(a, p) && RootOf(a, p) <= roots
    ensures Proper(b, p)
  {
    if p.To? {
      assert p.index in RootOf(a, p);
      RootReachable(a, roots, p.index);
    }
  }

  function Filled(a: seq<Cell>, i: nat, car: Element, cdr: Ptr): seq<Cell>
    requires i < |a|
  {
    a[i := Cell(White, Null, car, cdr)]
  }

  lemma AllocateFree(a: seq<Cell>, free: Ptr, fl: seq<nat>, car: Element, cdr: Ptr)
    requires FreeListed(a, free, fl) && fl != [] && !car.Vacant?
    ensures fl[0] < |a| && a[fl[0]].element == Vacant(To(fl[0])) && a[fl[0]].next == First(fl[1..])
    ensures FreeListed(Filled(a, fl[0], car, cdr), First(fl[1..]), fl[1..])
  {
    assert FreeLink(a, fl, 0);
    var i, rest := fl[0], fl[1..];
    var b := Filled(a, i, car, cdr);
    assert First(rest) == After(fl, 0);
    forall k: nat | k < |rest| ensures FreeLink(b, rest, k) {
      assert FreeLink(a, fl, k + 1);
      assert rest[k] == fl[k + 1];
      assert After(rest, k) == After(fl, k + 1);
    }
    forall j: nat | j < |b| && b[j].element.Vacant? ensures j in rest {
      assert j in fl && j != i;
      assert fl == [i] + rest;
    }
  }

  lemma AllocateLive(a: seq<Cell>, stack: Ptr, gl: seq<nat>, i: nat, car: Element, cdr: Ptr)
    requires GreyStacked(a, stack, gl) && Sane(a) && NoBlack(a) && i < |a| && !Live(a, i)
    requires Proper(a, cdr) && (car.Token? || (car.Sub? && Proper(a, car.list)))
    ensures var b := Filled(a, i, car, cdr); GreyStacked(b, stack, gl) && Sane(b) && NoBlack(b)
  {
    var b := Filled(a, i, car, cdr);
    forall k: nat | k < |gl| ensures GreyLink(b, gl, k) {
      assert GreyLink(a, gl, k);
    }
    forall j: nat | Live(a, j) ensures Live(b, j) {}
    forall j: nat | j < |b| && Live(b, j)
      ensures Proper(b, b[j].next) && b[j].element != Cleared && (b[j].element.Sub? ==> Proper(b, b[j].element.list)) {
      if j != i { assert Live(a, j); }
    }
  }

  lemma FilledConsed(b: seq<Cell>, c: seq<Cell>, keep: set<nat>, i: nat, car: Element, cdr: Ptr)
    requires Survive(b, c, keep) && i < |c| && !Live(c, i)
    ensures Consed(b, Filled(c, i, car, cdr), keep, i, car, cdr) && !AllInUse(b, keep)
  {
  }

  lemma ConsedSame(a: seq<Cell>, b: seq<Cell>, c: seq<Cell>, d: seq<Cell>, keep: set<nat>,
                   i: nat, car: Element, cdr: Ptr)
    requires SameContents(a, b) && Consed(b, c, keep, i, car, cdr) && SameContents(c, d)
    ensures Consed(a, d, keep, i, car, cdr)
    ensures NoneFreed(b, c) ==> NoneFreed(a, d)
  {
    if NoneFreed(b, c) {
      forall j: nat | j < |a| && Live(a, j) ensures Live(d, j) { assert Live(b, j) && Live(c, j); }
    }
    forall j: nat | j < |a| && Live(a, j) && Reachable(a, keep, j)
      ensures j != i && d[j].element == a[j].element && d[j].next == a[j].next {
      ReachableSameContents(a, b, keep, j);
      assert Live(b, j);
    }
  }

  lemma PushMembers(a: seq<Cell>, b: seq<Cell>, top: Ptr, gl: seq<nat>, top': Ptr, gl': seq<nat>, i: nat)
    requires GreyStacked(a, top, gl) && GreyStacked(b, top', gl') && Live(a, i) && NoBlack(a)
    requires b == if a[i].color == White then a[i := Greyed(a[i], top)] else a
    ensures Members(gl') == Members(gl) + {i}
  {
    forall k: nat ensures k in gl' <==> k in gl || k == i {
      GreyMember(a, top, gl, k);
      GreyMember(b, top', gl', k);
    }
  }

  lemma KeepOnStackKeeps(a: seq<Cell>, b: seq<Cell>, free: Ptr, fl: seq<nat>, top: Ptr, gl: seq<nat>,
                         top': Ptr, gl': seq<nat>, i: nat)
    requires FreeListed(a, free, fl) && GreyStacked(a, top, gl) && Sane(a) && NoBlack(a) && Live(a, i)
    requires GreyStacked(b, top', gl') && SameContents(a, b)
    requires b == if a[i].color == White then a[i := Greyed(a[i], top)] else a
    ensures FreeListed(b, free, fl) && Sane(b) && NoBlack(b)
    ensures i in gl' && forall k | k in gl :: k in gl'
  {
    forall k: nat | k < |a| && a[k].element.Vacant? ensures b[k].color == White {
      FreeMember(a, free, fl, k);
    }
    FreeListedRecoloured(a, b, free, fl);
    SaneKept(a, b);
    GreyMember(b, top', gl', i);
    forall k | k in gl ensures k in gl' {
      GreyMember(a, top, gl, k);
      GreyMember(b, top', gl', k);
    }
  }

  /** Moving what a register holds to the stack leaves the roots as they are. */
  lemma KeptRoots(a: seq<Cell>, b: seq<Cell>, top: Ptr, gl: seq<nat>, top': Ptr, gl': seq<nat>,
                  cons: Ptr, ax: Ptr, words: seq<Ptr>, i: nat)
    requires GreyStacked(a, top, gl) && GreyStacked(b, top', gl') && NoBlack(a) && Live(a, i) && SameContents(a, b)
    requires b == if a[i].color == White then a[i := Greyed(a[i], top)] else a
    requires cons == To(i) || ax == To(i)
    ensures Roots(b, gl', cons, ax, words) == Roots(a, gl, cons, ax, words)
  {
    PushMembers(a, b, top, gl, top', gl', i);
    WordRootsSame(a, b, words);
    RootOfSame(a, b, cons);
    RootOfSame(a, b, ax);
    var kept := WordRoots(a, words) + RootOf(a, cons) + RootOf(a, ax);
    assert i in kept;
    var grey, grey' := Members(gl), Members(gl');
    assert grey' + kept == grey + ({i} + kept);
    assert {i} + kept == kept;
    assert Roots(a, gl, cons, ax, words) == grey + kept;
    assert Roots(b, gl', cons, ax, words) == grey' + kept;
  }

  lemma RootOfSame(a: seq<Cell>, b: seq<Cell>, p: Ptr)
    requires SameContents(a, b)
    ensures RootOf(a, p) == RootOf(b, p)
  {
  }

  datatype Register = CONS | AX

  // ----- a whole collection -----

  /** What a collection does: it frees exactly the live cells that are not reachable from the roots,
      and keeps the contents of the others. */
  ghost predicate Collected(a: seq<Cell>, b: seq<Cell>, roots: set<nat>) {
    && |a| == |b|
    && (forall i: nat | i < |a| :: Live(b, i) <==> Live(a, i) && Reachable(a, roots, i))
    && (forall i: nat | i < |a| && Live(b, i) :: b[i].element == a[i].element && b[i].next == a[i].next)
    && (forall i: nat | i < |b| :: b[i].color == White)
  }

  /** The pointers of survivors lead to survivors. */
  lemma CollectedSane(a: seq<Cell>, b: seq<Cell>, roots: set<nat>)
    requires Sane(a) && Collected(a, b, roots)
    ensures Sane(b)
  {
    forall i: nat | i < |b| && Live(b, i)
      ensures Proper(b, b[i].next) && b[i].element != Cleared && (b[i].element.Sub? ==> Proper(b, b[i].element.list)) {
      forall j: nat | j < |a| && Links(a[i], j) ensures Reachable(a, roots, j) {
        LinkReachable(a, roots, i, j);
      }
      assert Live(a, i);
    }
  }

  lemma ReachableLive(cells: seq<Cell>, roots: set<nat>, i: nat)
    requires Sane(cells) && Reachable(cells, roots, i) && forall r | r in roots :: Live(cells, r)
    ensures Live(cells, i)
  {
    var path: seq<nat> :| IsPath(cells, path) && path[0] in roots && path[|path| - 1] == i;
    PathLive(cells, path);
  }

  lemma SweptCollects(a: seq<Cell>, m: seq<Cell>, b: seq<Cell>, roots: set<nat>)
    requires SameContents(a, m) && |m| == |b| && Sane(a) && forall r | r in roots :: Live(a, r)
    requires forall i: nat | i < |m| :: m[i].color == if Reachable(a, roots, i) then Black else White
    requires forall i: nat | i < |m| :: Swept(m[i], b[i])
    ensures Collected(a, b, roots)
  {
    forall i: nat | i < |a|
      ensures Live(b, i) <==> Live(a, i) && Reachable(a, roots, i)
      ensures b[i].color == White
      ensures Live(b, i) ==> b[i].element == a[i].element && b[i].next == a[i].next {
      assert Swept(m[i], b[i]) && Live(m, i) == Live(a, i);
      if Reachable(a, roots, i) { ReachableLive(a, roots, i); }
    }
  }

  lemma SaneKept(a: seq<Cell>, b: seq<Cell>)
    requires Sane(a) && SameContents(a, b)
    ensures Sane(b)
  {
    forall i: nat | i < |b| && Live(b, i)
      ensures Proper(b, b[i].next) && b[i].element != Cleared && (b[i].element.Sub? ==> Proper(b, b[i].element.list)) {
      assert Live(a, i);
    }
  }
}
