/** The fixed-length, zero-initialised vector that holds the Rust engine's memory
    and registers (rust_implementation/src/nice_vector.rs). */
module NiceVector {
  import opened Optional
  import Utils

  datatype Vector = Vector(vals: seq<int>)

  /** A Rust `Vec` never holds more than `isize::MAX` elements. */
  predicate Allocatable(v: Vector) {
    |v.vals| < 0x8000_0000_0000_0000
  }

  /** An index the engine can form: an `i32` or a `u16`, both within `i64`. */
  predicate IndexType(i: int) {
    -0x8000_0000_0000_0000 <= i < 0x8000_0000_0000_0000
  }

  /** `Vector::new`: `len` zero cells. */
  function New(len: nat): (v: Vector)
    ensures |v.vals| == len
    ensures forall i | 0 <= i < len :: v.vals[i] == 0
  {
    Vector(seq(len, _ => 0))
  }

  /** `Index::index`: the cell at `i.as_usize()`, or `None` where Rust panics
      because the converted index is past the end. */
  function Index(v: Vector, i: int): (r: Option<int>)
    requires Allocatable(v) && IndexType(i)
    ensures r.Some? <==> 0 <= i < |v.vals|
    ensures r.Some? ==> r.value == v.vals[i]
  {
    var k := Utils.AsUsize(i);
    if k < |v.vals| then Some(v.vals[k]) else None
  }

  /** A write through `IndexMut::index_mut`: the vector with cell `i` replaced, or
      `None` where Rust panics. */
  function IndexMut(v: Vector, i: int, x: int): (r: Option<Vector>)
    requires Allocatable(v) && IndexType(i)
    ensures r.Some? <==> 0 <= i < |v.vals|
    ensures r.Some? ==> |r.value.vals| == |v.vals| && r.value.vals[i] == x
    ensures r.Some? ==> forall j | 0 <= j < |v.vals| && j != i :: r.value.vals[j] == v.vals[j]
  {
    var k := Utils.AsUsize(i);
    if k < |v.vals| then Some(Vector(v.vals[k := x])) else None
  }

  /** Reading back a written cell returns the written value; every other cell reads as before. */
  lemma ReadAfterWrite(v: Vector, i: int, x: int, j: int)
    requires Allocatable(v) && IndexType(i) && IndexType(j)
    requires IndexMut(v, i, x).Some?
    ensures Index(IndexMut(v, i, x).value, i) == Some(x)
    ensures j != i ==> Index(IndexMut(v, i, x).value, j) == Index(v, j)
  {
  }
}
