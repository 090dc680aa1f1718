/** What several modules share: bytes, pages laid end to end, and arrays that grow. */
module Util {
  import opened Names

  newtype Byte = x: int | 0 <= x < 256

  /** Several runs of elements, one after the other. */
  function Flat<T>(runs: seq<seq<T>>): seq<T> {
    if runs == [] then [] else Flat(runs[..|runs| - 1]) + runs[|runs| - 1]
  }

  /** au_kzrealloc: at least newSz elements; the first nused are kept, those added are zero. */
  method Kzrealloc<T>(p: array<T>, nused: nat, newSz: nat, zero: T) returns (err: int, q: array<T>)
    requires nused <= p.Length
    modifies p
    ensures err == 0 || err == -ENOMEM
    ensures !FAULTS ==> err == 0
    ensures err != 0 ==> q == p && p[..] == old(p[..])
    ensures newSz <= p.Length ==> err == 0 && q == p
    ensures err == 0 ==> newSz <= q.Length && nused <= q.Length && q[..nused] == old(p[..nused])
    ensures err == 0 && newSz <= nused ==> q == p && p[..] == old(p[..])
    ensures err == 0 && nused < newSz ==> forall i :: nused <= i < newSz ==> q[i] == zero
    ensures err == 0 ==> (q == p && forall i :: newSz <= i < p.Length ==> p[i] == old(p[i])) || (fresh(q) && q.Length == newSz)
  {
    if newSz <= nused {
      return 0, p;
    }
    if newSz <= p.Length {
      forall i | nused <= i < newSz {
        p[i] := zero;
      }
      return 0, p;
    }
    err := LowerFault();
    if err != 0 {
      return -ENOMEM, p;
    }
    q := new T[newSz](i requires 0 <= i < newSz reads p => if i < nused then p[i] else zero);
  }
}
