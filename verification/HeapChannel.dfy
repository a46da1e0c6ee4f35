/** The channel kept as a list on the cell heap (the stack order of n_bound_ch, lookup1 and delete in
    src/driver/driver.c and src/list/list.c): its operations on cells are those on messages. */
module HeapChannel {
  import opened Cells
  import opened CellHeap
  import opened ListOps
  import opened Channels

  /** Names as they are kept in cells. */
  ghost predicate Injective(code: string -> int) {
    forall a, b :: code(a) == code(b) ==> a == b
  }

  function NameList(c: string, code: string -> int): List {
    Item(code(c), Nil)
  }

  /** evalval_ls: every value is a list of one token. */
  function ValueList(vs: seq<int>): List {
    if vs == [] then Nil else Nested(Item(vs[0], Nil), ValueList(vs[1..]))
  }

  /** A message is the list of the name and the values. */
  function MessageList(m: Message, code: string -> int): List {
    Nested(NameList(m.channel, code), Nested(ValueList(m.values), Nil))
  }

  function ChannelList(ms: seq<Message>, code: string -> int): List {
    if ms == [] then Nil else Nested(MessageList(ms[0], code), ChannelList(ms[1..], code))
  }

  lemma {:induction false} ValueListInjective(a: seq<int>, b: seq<int>)
    ensures ValueList(a) == ValueList(b) <==> a == b
  {
    if a != [] && b != [] {
      ValueListInjective(a[1..], b[1..]);
      assert a == [a[0]] + a[1..] && b == [b[0]] + b[1..];
    }
  }

  lemma MessageListInjective(m: Message, n: Message, code: string -> int)
    requires Injective(code)
    ensures MessageList(m, code) == MessageList(n, code) <==> m == n
  {
    ValueListInjective(m.values, n.values);
  }

  /** Deleting a message from the list is removing it from the channel. */
  lemma {:induction false} DeletedIsRemove(ms: seq<Message>, m: Message, code: string -> int)
    requires Injective(code)
    ensures Deleted(ChannelList(ms, code), Inner(MessageList(m, code))) == ChannelList(Remove(ms, m), code)
  {
    if ms != [] {
      MessageListInjective(ms[0], m, code);
      if ms[0] != m {
        DeletedIsRemove(ms[1..], m, code);
        assert ([ms[0]] + Remove(ms[1..], m))[1..] == Remove(ms[1..], m);
      }
    }
  }

  /** lookup1 for a name in a list: the values of the first message of the channel. */
  method LookupCell(mem: Memory, ch: Ptr, name: Ptr, ghost ms: seq<Message>, ghost c: string, ghost code: string -> int)
    returns (r: Ptr)
    requires Injective(code)
    requires Shows(mem.area[..], ch, ChannelList(ms, code)) && Shows(mem.area[..], name, NameList(c, code))
    ensures match Lookup(ms, c)
            case None => r == Null
            case Some(vs) => Shows(mem.area[..], r, ValueList(vs))
    decreases |ms|
  {
    if ch == Epsilon { return Null; }
    var pair := mem.area[ch.index].element.list;
    assert Shows(mem.area[..], pair, MessageList(ms[0], code));
    assert Shows(mem.area[..], mem.area[pair.index].next, Nested(ValueList(ms[0].values), Nil));
    var same := EqualLists(mem, name, mem.area[pair.index].element.list, NameList(c, code),
                           NameList(ms[0].channel, code));
    if same {
      var second := mem.area[pair.index].next;
      r := mem.area[second.index].element.list;
    } else {
      r := LookupCell(mem, mem.area[ch.index].next, name, ms[1..], c, code);
    }
  }

  lemma {:induction false} CopiedAtMost(ms: seq<Message>, m: Message, code: string -> int)
    ensures Copied(ChannelList(ms, code), Inner(MessageList(m, code))) <= |ms|
  {
    if ms != [] { CopiedAtMost(ms[1..], m, code); }
  }

  /** The removal of a message after a receive, with the arguments on the machine stack.  It succeeds when as
      many cells are free as messages are pending. */
  method RemoveCell(mem: Memory, ch: Ptr, message: Ptr, words: seq<Ptr>, ghost ms: seq<Message>, ghost m: Message,
                    ghost code: string -> int)
    returns (ok: bool, r: Ptr)
    requires Injective(code) && mem.Valid()
    requires Shows(mem.area[..], ch, ChannelList(ms, code)) && Shows(mem.area[..], message, MessageList(m, code))
    requires ch in words && message in words
    modifies mem, mem.area
    ensures ok ==> mem.Valid() && Shows(mem.area[..], r, ChannelList(Remove(ms, m), code))
    ensures ok ==> WordsKept(old(mem.area[..]), mem.area[..], words)
    ensures old(|mem.freeList|) >= |ms| ==> ok
  {
    CopiedAtMost(ms, m, code);
    DeletedIsRemove(ms, m, code);
    ok, r := Delete(mem, Sub(message), ch, words, ChannelList(ms, code), Inner(MessageList(m, code)));
  }

  /** n_bound: the message, a list already, goes in front.  It fails exactly when every cell is in use. */
  method InsertCell(mem: Memory, ch: Ptr, message: Ptr, words: seq<Ptr>, ghost ms: seq<Message>, ghost m: Message,
                    ghost code: string -> int)
    returns (ok: bool, r: Ptr)
    requires mem.Valid()
    requires Shows(mem.area[..], ch, ChannelList(ms, code)) && Shows(mem.area[..], message, MessageList(m, code))
    modifies mem, mem.area
    ensures var a := old(mem.area[..]);
            ok == !AllInUse(a, old(mem.RootsWith(words)) + RootOf(a, ch) + HeadRoot(a, Sub(message)))
    ensures ok ==> mem.Valid() && Shows(mem.area[..], r, ChannelList(Insert(Stack, ms, m), code))
    ensures ok ==> WordsKept(old(mem.area[..]), mem.area[..], words)
  {
    ghost var a := mem.area[..];
    ghost var keep := mem.RootsWith(words) + RootOf(a, ch) + HeadRoot(a, Sub(message));
    ok, r := mem.Cons(Sub(message), ch, words);
    if ok {
      ConsShows(a, mem.area[..], keep, r.index, Sub(message), ch, ChannelList(ms, code));
      assert ([m] + ms)[1..] == ms;
      StaysKept(a, words);
      WordsKeptOn(a, a, mem.area[..], words, keep);
    }
  }

  lemma StaysKept(a: seq<Cell>, words: seq<Ptr>)
    ensures WordsKept(a, a, words)
  {
  }
}
