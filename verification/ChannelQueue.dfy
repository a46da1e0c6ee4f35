/** The channel as a queue updated in place (src/driver/channel.c): a header points to the front
    and the rear cell of a linked list of messages. */
module ChannelQueue {
  import opened Wrappers
  import opened Channels

  class QueueCell {
    var message: Message
    var next: QueueCell?

    constructor (m: Message)
      ensures message == m && next == null
    {
      message, next := m, null;
    }
  }

  /** The k-th cell points to its successor. */
  ghost predicate Chained(spine: seq<QueueCell>, k: nat)
    requires k < |spine|
    reads spine[k]
  {
    spine[k].next == if k + 1 < |spine| then spine[k + 1] else null
  }

  ghost function Messages(spine: seq<QueueCell>): (ms: seq<Message>)
    reads set c | c in spine
    ensures |ms| == |spine|
  {
    seq(|spine|, i requires 0 <= i < |spine| reads set c | c in spine => spine[i].message)
  }

  class MessageQueue {
    var front: QueueCell?
    var rear: QueueCell?
    ghost var spine: seq<QueueCell>

    ghost predicate Valid()
      reads this, set c | c in spine
    {
      (forall i, j :: 0 <= i < j < |spine| ==> spine[i] != spine[j]) &&
      (forall k :: 0 <= k < |spine| ==> Chained(spine, k)) &&
      front == (if spine == [] then null else spine[0]) &&
      rear == (if spine == [] then null else spine[|spine| - 1])
    }

    ghost function Contents(): seq<Message>
      reads this, set c | c in spine
    {
      Messages(spine)
    }

    /** make_que */
    constructor ()
      ensures Valid() && Contents() == [] && spine == []
    {
      front, rear, spine := null, null, [];
    }

    /** enque: the new cell goes behind the last one, found from the front. */
    method Append(m: Message)
      requires Valid()
      modifies this, set c | c in spine
      ensures Valid() && Contents() == old(Contents()) + [m]
      ensures forall c :: c in spine ==> c in old(spine) || fresh(c)
    {
      var cell := new QueueCell(m);
      ghost var cells := spine;
      if front == null {
        front := cell;
      } else {
        var buf := front;
        ghost var i := 0;
        while buf.next != null
          invariant 0 <= i < |cells| && buf == cells[i] && spine == cells && Valid()
          invariant Contents() == old(Contents()) && cell !in cells && cell.message == m && cell.next == null
          decreases |cells| - i
        {
          assert Chained(spine, i);
          buf := buf.next;
          i := i + 1;
        }
        assert Chained(spine, i);
        assert i == |cells| - 1;
        buf.next := cell;
      }
      rear := cell;
      spine := cells + [cell];
      forall k | 0 <= k < |spine| ensures Chained(spine, k) {
        if k < |cells| { assert spine[k] == cells[k]; assert k + 1 < |cells| ==> old(Chained(cells, k)); }
      }
      assert Contents() == old(Contents()) + [m];
    }

    /** q_first: the values of the first message of the channel. */
    method First(c: string) returns (r: Option<seq<int>>)
      requires Valid()
      ensures r == Lookup(Contents(), c)
    {
      var buf := front;
      ghost var i := 0;
      while buf != null
        invariant 0 <= i <= |spine| && buf == (if i < |spine| then spine[i] else null)
        invariant Lookup(Contents(), c) == Lookup(Contents()[i..], c)
        decreases |spine| - i
      {
        assert Contents()[i..][0] == buf.message;
        assert Contents()[i..][1..] == Contents()[i + 1..];
        if buf.message.channel == c { return Some(buf.message.values); }
        assert Chained(spine, i);
        buf := buf.next;
        i := i + 1;
      }
      r := None;
    }

    /** deque */
    method Dequeue()
      requires Valid() && front != null
      modifies this
      ensures Valid() && Contents() == old(Contents())[1..]
      ensures forall c :: c in spine ==> c in old(spine)
    {
      assert Chained(spine, 0);
      front := front.next;
      if front == null { rear := null; }
      ghost var cells := spine;
      spine := spine[1..];
      forall k | 0 <= k < |spine| ensures Chained(spine, k) { assert Chained(cells, k + 1); }
      assert Contents() == old(Contents())[1..];
    }

    /** q_remove: takes out the first message equal to m. */
    method Delete(m: Message)
      requires Valid()
      modifies this, set c | c in spine
      ensures Valid() && Contents() == Remove(old(Contents()), m)
      ensures forall c :: c in spine ==> c in old(spine)
    {
      if front == null { return; }
      if front.message == m {
        Dequeue();
        return;
      }
      var previous, buf := front, front.next;
      ghost var i := 0;
      assert Chained(spine, 0);
      while buf != null && buf.message != m
        invariant 0 <= i < |spine| && previous == spine[i] && spine == old(spine) && Valid()
        invariant buf == (if i + 1 < |spine| then spine[i + 1] else null)
        invariant Contents() == old(Contents())
        invariant Remove(Contents(), m) == Contents()[..i + 1] + Remove(Contents()[i + 1..], m)
        decreases |spine| - i
      {
        RemoveLater(Contents(), m, i + 1);
        assert Chained(spine, i + 1);
        previous, buf := buf, buf.next;
        i := i + 1;
      }
      if buf != null {
        assert Contents()[i + 1..][0] == m;
        assert Contents()[i + 1..][1..] == Contents()[i + 2..];
        Unlink(previous, buf, i);
      }
    }

    method Unlink(previous: QueueCell, buf: QueueCell, ghost i: nat)
      requires Valid() && i + 1 < |spine| && previous == spine[i] && buf == spine[i + 1]
      modifies this, previous
      ensures Valid() && Contents() == old(Contents()[..i + 1] + Contents()[i + 2..])
      ensures forall c :: c in spine ==> c in old(spine)
    {
      ghost var cells := spine;
      assert Chained(spine, i + 1);
      if buf.next == null {
        previous.next := null;
        rear := previous;
      } else {
        previous.next := buf.next;
      }
      spine := cells[..i + 1] + cells[i + 2..];
      forall k | 0 <= k < |spine| ensures Chained(spine, k) {
        if k < i { assert spine[k] == cells[k]; assert old(Chained(cells, k)); }
        else if k > i { assert spine[k] == cells[k + 1]; assert old(Chained(cells, k + 1)); }
      }
      assert Contents() == old(Contents()[..i + 1] + Contents()[i + 2..]);
    }
  }

  lemma RemoveLater(ms: seq<Message>, m: Message, i: nat)
    requires i < |ms| && ms[i] != m && Remove(ms, m) == ms[..i] + Remove(ms[i..], m)
    ensures Remove(ms, m) == ms[..i + 1] + Remove(ms[i + 1..], m)
  {
    assert ms[i..][1..] == ms[i + 1..];
    assert ms[..i + 1] == ms[..i] + [ms[i]];
  }
}
