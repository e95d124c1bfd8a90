/** Machine integers, bytes and results, shared by every component. */
module Prelude {

  const MAX_UINT64: int := 0xffff_ffff_ffff_ffff

  /** Go's `uint64`: every operation that could wrap is guarded where it is written. */
  type Uint64 = n: int | 0 <= n <= MAX_UINT64

  type Byte = n: int | 0 <= n < 0x100

  datatype Option<+T> = None | Some(value: T)

  function Zeros(n: nat): (zeros: seq<Byte>)
    ensures |zeros| == n && forall i :: 0 <= i < n ==> zeros[i] == 0
  {
    seq(n, _ => 0)
  }

  lemma {:induction false} Largest(numbers: set<Uint64>) returns (n: Uint64)
    requires numbers != {}
    ensures n in numbers && forall k :: k in numbers ==> k <= n
  {
    var some: Uint64 :| some in numbers;
    var rest := numbers - {some};
    assert numbers == rest + {some};
    n := some;
    if rest != {} {
      var m := Largest(rest);
      n := if m > some then m else some;
    }
  }
}
