/** The buffer that text is appended to, as tokens. */
module AgentBuffer {
  import opened AgentText

  class Buffer {
    var text: seq<AgentToken>

    constructor ()
      ensures text == []
    {
      text := [];
    }

    method Put(t: AgentToken)
      modifies this
      ensures text == old(text) + [t]
    {
      text := text + [t];
    }
  }

  lemma Join2<T>(x: seq<T>, a: seq<T>, b: seq<T>)
    ensures x + a + b == x + (a + b)
  {
  }

  lemma Join3<T>(x: seq<T>, a: seq<T>, b: seq<T>, c: seq<T>)
    ensures x + a + b + c == x + (a + b + c)
  {
  }

  lemma Join4<T>(x: seq<T>, a: seq<T>, b: seq<T>, c: seq<T>, d: seq<T>)
    ensures x + a + b + c + d == x + (a + b + c + d)
  {
  }

  lemma Join5<T>(x: seq<T>, a: seq<T>, b: seq<T>, c: seq<T>, d: seq<T>, e: seq<T>)
    ensures x + a + b + c + d + e == x + (a + b + c + d + e)
  {
  }
}
