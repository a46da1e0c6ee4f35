/** The names of the generated definitions (src/ltl/buchi-node.c, src/ltl/ltl.h). */
module NodeNames {

  const InitialName := "_MC_START"

  function Digit(d: nat): char
    requires d < 10
  {
    ('0' as int + d) as char
  }

  function Digits(n: nat): string {
    if n < 10 then [Digit(n)] else Digits(n / 10) + [Digit(n % 10)]
  }

  function Zeros(k: nat): string {
    seq(k, i => '0')
  }

  /** %04d */
  function Padded(n: nat): string {
    if |Digits(n)| < 4 then Zeros(4 - |Digits(n)|) + Digits(n) else Digits(n)
  }

  /** The name in a buffer of ten characters with the terminating one. */
  function NodeName(n: nat): string {
    var whole := "Node" + Padded(n);
    if |whole| <= 9 then whole else whole[..9]
  }

  // ----- names are different -----

  function Number(s: string): int {
    if s == "" then 0 else 10 * Number(s[..|s| - 1]) + (s[|s| - 1] as int - '0' as int)
  }

  lemma {:induction false} NumberOfDigits(n: nat)
    ensures Number(Digits(n)) == n
  {
    if n < 10 {
      assert Digits(n)[..0] == "";
    } else {
      NumberOfDigits(n / 10);
      assert Digits(n)[..|Digits(n)| - 1] == Digits(n / 10);
    }
  }

  lemma {:induction false} NumberOfZeros(k: nat, s: string)
    ensures Number(Zeros(k) + s) == Number(s)
    decreases |s|, k
  {
    if s == "" {
      if k > 0 {
        assert Zeros(k) + s == Zeros(k) && (Zeros(k) + s)[..k - 1] == Zeros(k - 1) + "";
        NumberOfZeros(k - 1, "");
      } else {
        assert Zeros(0) + s == s;
      }
    } else {
      var n := |s| - 1;
      assert (Zeros(k) + s)[..k + n] == Zeros(k) + s[..n];
      NumberOfZeros(k, s[..n]);
    }
  }

  lemma NumberOfPadded(n: nat)
    ensures Number(Padded(n)) == n
  {
    NumberOfDigits(n);
    NumberOfZeros(if |Digits(n)| < 4 then 4 - |Digits(n)| else 0, Digits(n));
  }

  function Power(k: nat): nat {
    if k == 0 then 1 else 10 * Power(k - 1)
  }

  lemma {:induction false} DigitsLength(n: nat, k: nat)
    requires 0 < k
    ensures |Digits(n)| <= k <==> n < Power(k)
    decreases k
  {
    if n >= 10 && k > 1 { DigitsLength(n / 10, k - 1); }
    if k == 1 { assert Power(1) == 10; } else { PowerLeast(k); }
  }

  lemma {:induction false} PowerLeast(k: nat)
    requires k > 0
    ensures Power(k) >= 10
  {
    if k > 1 { PowerLeast(k - 1); }
  }

  lemma FiveDigits(n: nat)
    ensures |Digits(n)| <= 5 <==> n < 100000
  {
    DigitsLength(n, 5);
    assert Power(5) == 100000;
  }

  /** The names of n nodes are pairwise different. */
  predicate NamesDiffer(n: nat) {
    forall j, k :: 0 < j < k <= n ==> NodeName(j) != NodeName(k)
  }

  lemma NameDecides(j: nat, k: nat)
    requires j < 100000 && k < 100000 && NodeName(j) == NodeName(k)
    ensures j == k
  {
    FiveDigits(j);
    FiveDigits(k);
    assert NodeName(j)[4..] == Padded(j) && NodeName(k)[4..] == Padded(k);
    NumberOfPadded(j);
    NumberOfPadded(k);
  }

  lemma TenThousand()
    ensures NodeName(100000) == NodeName(10000)
  {
    DigitsLength(10000, 4);
    DigitsLength(10000, 5);
    assert Power(4) == 10000 && Power(5) == 100000;
    assert 100000 / 10 == 10000 && 100000 % 10 == 0;
    assert Digits(100000) == Digits(10000) + [Digit(0)];
    assert ("Node" + Digits(100000))[..9] == "Node" + Digits(10000);
  }

  /** The names are pairwise different if and only if there are at most 99999 nodes. */
  lemma NamesDifferExactly(n: nat)
    ensures NamesDiffer(n) <==> n < 100000
  {
    if n < 100000 {
      forall j, k | 0 < j < k <= n ensures NodeName(j) != NodeName(k) {
        if NodeName(j) == NodeName(k) { NameDecides(j, k); }
      }
    } else {
      TenThousand();
      assert NodeName(10000) == NodeName(100000);
    }
  }

  /** No node has the name of the initial definition, nor the name of the agent that aborts. */
  lemma NameIsOwn(n: nat)
    ensures NodeName(n) != InitialName && NodeName(n) != "Abort"
  {
    assert NodeName(n)[0] == 'N' && InitialName[0] == '_' && "Abort"[0] == 'A';
  }

  /** The names as they are spelled. */
  lemma NamesSpelled()
    ensures NodeName(1) == "Node0001" && NodeName(42) == "Node0042" && NodeName(12345) == "Node12345"
  {
    assert Digits(1) == "1" && Digits(4) == "4" && Digits(42) == "4" + "2" == "42";
    assert Digits(12) == "12" && Digits(123) == "123" && Digits(1234) == "1234" && Digits(12345) == "12345";
    assert Zeros(3) == "000" && Zeros(2) == "00";
  }
}
