/** The channel buffer of the interpreter as a list of messages, in both of its orders
    (n_bound_ch, lookup_ch1 and the removals in src/driver/driver.c). */
module Channels {
  import opened Wrappers

  datatype Message = Message(channel: string, values: seq<int>)

  /** channel_order: new messages go in front (Stack) or to the rear (Queue). */
  datatype Order = Stack | Queue

  /** lookup1 and q_first: the values of the first message of the channel. */
  function Lookup(ms: seq<Message>, c: string): Option<seq<int>> {
    if ms == [] then None
    else if ms[0].channel == c then Some(ms[0].values)
    else Lookup(ms[1..], c)
  }

  /** delete and q_remove: without the first message equal to m. */
  function Remove(ms: seq<Message>, m: Message): seq<Message> {
    if ms == [] then []
    else if ms[0] == m then ms[1..]
    else [ms[0]] + Remove(ms[1..], m)
  }

  function Insert(order: Order, ms: seq<Message>, m: Message): seq<Message> {
    if order == Stack then [m] + ms else ms + [m]
  }

  /** At most one message on every channel. */
  predicate OnePlace(ms: seq<Message>) {
    forall i, j :: 0 <= i < j < |ms| ==> ms[i].channel != ms[j].channel
  }

  lemma {:induction false} LookupNone(ms: seq<Message>, c: string)
    ensures Lookup(ms, c) == None <==> forall i :: 0 <= i < |ms| ==> ms[i].channel != c
  {
    if ms != [] {
      LookupNone(ms[1..], c);
      assert forall i :: 0 < i < |ms| ==> ms[i] == ms[1..][i - 1];
    }
  }

  /** The i-th message is the first one of the channel. */
  predicate FirstOf(ms: seq<Message>, c: string, i: int) {
    0 <= i < |ms| && ms[i].channel == c && forall j :: 0 <= j < i ==> ms[j].channel != c
  }

  /** What is found are the values of the first message. */
  lemma {:induction false} LookupFirst(ms: seq<Message>, c: string, i: nat)
    requires FirstOf(ms, c, i)
    ensures Lookup(ms, c) == Some(ms[i].values)
  {
    if i > 0 {
      assert ms[0].channel != c;
      forall j | 0 <= j < i - 1 ensures ms[1..][j].channel != c { assert ms[1..][j] == ms[j + 1]; }
      LookupFirst(ms[1..], c, i - 1);
    }
  }

  lemma {:induction false} LookupAppend(ms: seq<Message>, m: Message, c: string)
    ensures Lookup(ms + [m], c) ==
            if Lookup(ms, c).Some? then Lookup(ms, c) else if m.channel == c then Some(m.values) else None
  {
    if ms != [] {
      LookupAppend(ms[1..], m, c);
      assert (ms + [m])[1..] == ms[1..] + [m];
    } else {
      assert ([m])[1..] == [];
    }
  }

  /** Inserting a message on a free channel enters it into the map of pending messages, in both
      orders alike. */
  lemma InsertMeaning(order: Order, ms: seq<Message>, m: Message, c: string)
    requires Lookup(ms, m.channel) == None
    ensures Lookup(Insert(order, ms, m), c) == if c == m.channel then Some(m.values) else Lookup(ms, c)
  {
    if order == Stack {
      assert ([m] + ms)[1..] == ms;
    } else {
      LookupAppend(ms, m, c);
    }
  }

  lemma InsertOnePlace(order: Order, ms: seq<Message>, m: Message)
    requires OnePlace(ms) && Lookup(ms, m.channel) == None
    ensures OnePlace(Insert(order, ms, m))
  {
    LookupNone(ms, m.channel);
  }

  lemma {:induction false} RemoveWithin(ms: seq<Message>, m: Message, i: nat)
    requires i < |Remove(ms, m)|
    ensures exists j :: 0 <= j < |ms| && Remove(ms, m)[i] == ms[j]
  {
    if ms[0] == m {
      assert Remove(ms, m)[i] == ms[i + 1];
    } else if i > 0 {
      RemoveWithin(ms[1..], m, i - 1);
      var j :| 0 <= j < |ms| - 1 && Remove(ms[1..], m)[i - 1] == ms[1..][j];
      assert Remove(ms, m)[i] == ms[j + 1];
    }
  }

  lemma {:induction false} RemoveOnePlace(ms: seq<Message>, m: Message)
    requires OnePlace(ms)
    ensures OnePlace(Remove(ms, m))
  {
    if ms != [] && ms[0] != m {
      RemoveOnePlace(ms[1..], m);
      var rest := Remove(ms[1..], m);
      forall i | 0 <= i < |rest| ensures rest[i].channel != ms[0].channel {
        RemoveWithin(ms[1..], m, i);
      }
    }
  }

  /** Removing the pending message of a channel empties that channel and no other. */
  lemma {:induction false} RemoveMeaning(ms: seq<Message>, m: Message, c: string)
    requires OnePlace(ms) && Lookup(ms, m.channel) == Some(m.values)
    ensures Lookup(Remove(ms, m), c) == if c == m.channel then None else Lookup(ms, c)
  {
    if ms[0].channel == m.channel {
      LookupNone(ms[1..], m.channel);
    } else {
      RemoveMeaning(ms[1..], m, c);
    }
  }

  /** Both lists hold the same pending message on every channel. */
  ghost predicate SamePending(a: seq<Message>, b: seq<Message>) {
    forall c :: Lookup(a, c) == Lookup(b, c)
  }
}
