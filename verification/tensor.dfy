/** `Tensor<f64>` of src/ludwig/types/tensor.h: a zeroed buffer whose `size` is the product
    of its `dimensions`, accumulated in an unsigned 64-bit counter. */
module Tensors {
  import opened Primitive
  import Vectors

  datatype Tensor = Tensor(data: seq<real>, size: u64, dimensions: Vectors.Vector<u32>)

  /** The exact product of the dimensions, multiplied in from the front. */
  function Product(dims: seq<u32>): nat
  {
    if |dims| == 0 then 1 else Product(dims[..|dims| - 1]) * dims[|dims| - 1]
  }

  /** `Tensor()`: size 1, `dimensions` the one-element vector [1], data [0]. */
  function Default(): (t: Tensor)
    ensures t.size == 1 && t.data == [0.0] && t.dimensions.data == [1]
  {
    Tensor([0.0], 1, Vectors.Filled(1, 1 as u32))
  }

  /** Reducing before or after a multiplication gives the same residue modulo 2^64. */
  lemma {:induction false} MulMod(a: nat, b: nat)
    ensures (a % U64_LIMIT) * b % U64_LIMIT == a * b % U64_LIMIT
  {
    var q, r := a / U64_LIMIT, a % U64_LIMIT;
    assert a == q * U64_LIMIT + r;
    assert a * b == (q * b) * U64_LIMIT + r * b;
    AddMultiple(q * b, r * b);
  }

  lemma {:induction false} AddMultiple(k: nat, y: nat)
    ensures (k * U64_LIMIT + y) % U64_LIMIT == y % U64_LIMIT
  {
    if k > 0 {
      AddMultiple(k - 1, y);
      assert k * U64_LIMIT + y == ((k - 1) * U64_LIMIT + y) + U64_LIMIT;
    }
  }

  /** `Tensor(dims)`: `dimensions` is a copy of dims; `size` starts at 1 and is multiplied by
      each dimension in turn, wrapping modulo 2^64; the `size` elements are all 0. */
  method FromDims(dims: Vectors.Vector<u32>) returns (t: Tensor)
    ensures t.dimensions == dims
    ensures t.size == Product(dims.data) % U64_LIMIT
    ensures Product(dims.data) < U64_LIMIT ==> t.size == Product(dims.data)
    ensures |t.data| == t.size && forall k :: 0 <= k < |t.data| ==> t.data[k] == 0.0
  {
    var size: u64 := 1;
    var i := 0;
    while i < dims.Size()
      invariant 0 <= i <= dims.Size()
      invariant size == Product(dims.data[..i]) % U64_LIMIT
    {
      assert dims.data[..i + 1][..i] == dims.data[..i];
      MulMod(Product(dims.data[..i]), dims.data[i]);
      size := MulU64(size, dims.data[i]);
      i := i + 1;
    }
    assert dims.data[..i] == dims.data;
    t := Tensor(seq(size, _ => 0.0), size, Vectors.Copy(dims));
    Vectors.CopyIsIdentity(dims);
  }

  /** The empty shape has size 1, and the default tensor has exactly the size, shape and
      contents that `Tensor(dims)` gives the one-dimensional shape [1]. */
  lemma ShapeExamples()
    ensures Product([]) == 1
    ensures Product([1]) % U64_LIMIT == Default().size
    ensures Default().dimensions.data == [1]
  {
    assert [1 as u32][..0] == [];
  }

  /** The product is unchanged by appending a dimension of 1 and becomes 0 with any zero
      dimension. */
  lemma {:induction false} ProductLaws(dims: seq<u32>)
    ensures Product(dims + [1]) == Product(dims)
    ensures (exists k :: 0 <= k < |dims| && dims[k] == 0) ==> Product(dims) == 0
  {
    assert (dims + [1])[..|dims|] == dims;
    if |dims| > 0 && exists k :: 0 <= k < |dims| && dims[k] == 0 {
      var front := dims[..|dims| - 1];
      if dims[|dims| - 1] != 0 {
        var k :| 0 <= k < |dims| && dims[k] == 0;
        assert front[k] == 0;
        ProductLaws(front);
      }
    }
  }
}
