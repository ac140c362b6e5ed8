/** Types shared by all modules. */
module Basics {

  /** Account addresses. */
  type Addr = nat

  type Positive = n: nat | n > 0 witness 1

  datatype Option<+T> = None | Some(value: T)

  /** Unsigned 64-bit words are the numbers below. */
  const TWO64: nat := 0x1_0000_0000_0000_0000

  function Elements<T>(s: seq<T>): set<T> {
    set x | x in s
  }

  function Swap<T>(s: seq<T>, i: nat, j: nat): (r: seq<T>)
    requires i < |s| && j < |s|
    ensures |r| == |s|
  {
    s[i := s[j]][j := s[i]]
  }

  lemma SwapSame<T>(s: seq<T>, i: nat, j: nat)
    requires i < |s| && j < |s|
    ensures multiset(Swap(s, i, j)) == multiset(s)
  {
  }
}
