/** The built-in routines of src/runtime/stdlib.rs. Printing is modelled as an
    event appended to an output trace; `alloc` is modelled exactly. */
module Stdlib {
  import opened Bytes
  import opened Results

  /** Something written to standard output: `putd` prints a number, `write`
      prints raw heap bytes. */
  datatype Event =
    | Printed(n: i64)
    | Wrote(bytes: seq<byte>)

  datatype AllocError = CapacityOverflow

  /** The heap after an allocation and the address of the new block. */
  datatype Grown = Grown(heap: seq<byte>, address: nat)

  /** `n` zero bytes. */
  function Zeros(n: nat): (z: seq<byte>)
    ensures |z| == n
    ensures forall k :: 0 <= k < n ==> z[k] == 0
  {
    seq(n, _ => 0)
  }

  /** `alloc`: grow the heap by `size` zero bytes and return the old length. The
      resize fails, as Rust's capacity-overflow panic, when the heap would exceed
      `isize::MAX` bytes. */
  function Alloc(heap: seq<byte>, size: nat): (r: Result<Grown, AllocError>)
    ensures r.Ok? <==> |heap| + size <= MAX_VEC_LEN
    ensures r.Ok? ==> r.value.address == |heap|
    ensures r.Ok? ==> |r.value.heap| == |heap| + size
    ensures r.Ok? ==> r.value.heap[..|heap|] == heap
    ensures r.Ok? ==> forall k :: |heap| <= k < |r.value.heap| ==> r.value.heap[k] == 0
  {
    if |heap| + size > MAX_VEC_LEN then Err(CapacityOverflow)
    else Ok(Grown(heap + Zeros(size), |heap|))
  }

  /** Allocating nothing changes nothing and returns the current length. */
  lemma AllocNothing(heap: seq<byte>)
    requires |heap| <= MAX_VEC_LEN
    ensures Alloc(heap, 0) == Ok(Grown(heap, |heap|))
  {
    assert heap + Zeros(0) == heap;
  }

  /** Two allocations in a row give the same heap as one allocation of the total
      size, and the second block starts right after the first. */
  lemma AllocTwice(heap: seq<byte>, a: nat, b: nat)
    requires |heap| + a + b <= MAX_VEC_LEN
    ensures Alloc(heap, a).Ok?
    ensures Alloc(Alloc(heap, a).value.heap, b)
            == Ok(Grown(Alloc(heap, a + b).value.heap, |heap| + a))
  {
    assert heap + Zeros(a) + Zeros(b) == heap + Zeros(a + b);
  }
}
