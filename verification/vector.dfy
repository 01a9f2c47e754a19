/** `Vec2` and `Vector` of src/ludwig/types/vector.h. A `Vector<T>` owns `size` elements;
    here it is the sequence of its elements, so "independent storage" is value semantics and
    a moved-from vector (null data, size 0) is the empty sequence. `zero` stands for the value
    a zeroed buffer (`memset` to 0, or `static_cast<T>(0.0)`) holds for the element type. */
module Vectors {
  import opened Primitive

  // ---------------------------------------------------------------- Vec2

  /** `Vec2<f64>`: two components. */
  datatype Vec2 = Vec2(x: real, y: real)

  /** `Vec2 + Vec2`. */
  function AddVec2(a: Vec2, b: Vec2): (r: Vec2)
  {
    Vec2(a.x + b.x, a.y + b.y)
  }

  /** The component-wise sum is commutative and associative, has the zero vector as identity,
      and the example of the vector tests, {1.2, 2.3} + {4.2, 5.3}, is {5.4, 7.6}. */
  lemma AddVec2Laws(a: Vec2, b: Vec2, c: Vec2)
    ensures AddVec2(a, b) == AddVec2(b, a)
    ensures AddVec2(AddVec2(a, b), c) == AddVec2(a, AddVec2(b, c))
    ensures AddVec2(a, Vec2(0.0, 0.0)) == a
    ensures AddVec2(Vec2(1.2, 2.3), Vec2(4.2, 5.3)) == Vec2(5.4, 7.6)
  {
  }

  // ---------------------------------------------------------------- Vector

  /** `Vector<T>`: `size` is the length of `data`. */
  datatype Vector<T> = Vector(data: seq<T>)
  {
    function Size(): nat
    {
      |data|
    }
  }

  /** `Vector()`: one element, zero. */
  function Default<T>(zero: T): (v: Vector<T>)
    ensures v.Size() == 1 && At(v, 0) == zero
  {
    Vector([zero])
  }

  /** `Vector(s)`: s zeroed elements. */
  function Zeros<T>(s: u64, zero: T): (v: Vector<T>)
    ensures v.Size() == s
    ensures forall i :: 0 <= i < s ==> v.data[i] == zero
  {
    Filled(s, zero)
  }

  /** `Vector(s, init)`: s copies of init. */
  function Filled<T>(s: u64, init: T): (v: Vector<T>)
    ensures v.Size() == s
    ensures forall i :: 0 <= i < s ==> v.data[i] == init
  {
    Vector(seq(s, _ => init))
  }

  /** `Vector(s, const T* init)`: the first s elements of init, in order; the pointer must
      reach at least s elements. */
  function FromBuffer<T>(s: u64, init: seq<T>): (v: Vector<T>)
    requires |init| >= s
    ensures v.Size() == s
    ensures forall i :: 0 <= i < s ==> v.data[i] == init[i]
  {
    Vector(init[..s])
  }

  /** `Vector(std::initializer_list<T>)`: the listed elements, in order. */
  function FromList<T>(init: seq<T>): (v: Vector<T>)
    ensures v.Size() == |init|
    ensures forall i :: 0 <= i < |init| ==> v.data[i] == init[i]
  {
    Vector(init)
  }

  /** The copy constructor: a vector with the same size and elements as rhs. */
  function Copy<T>(rhs: Vector<T>): (v: Vector<T>)
    ensures v.Size() == rhs.Size()
    ensures forall i :: 0 <= i < rhs.Size() ==> v.data[i] == rhs.data[i]
  {
    Vector(rhs.data[..])
  }

  /** `operator[]` and `operator()`: element i, under the assertion i < size. */
  function At<T>(v: Vector<T>, i: u64): T
    requires i < v.Size()
  {
    v.data[i]
  }

  /** Writing through `operator[]` or `operator()`. */
  function Put<T>(v: Vector<T>, i: u64, x: T): (r: Vector<T>)
    requires i < v.Size()
    ensures r.Size() == v.Size() && At(r, i) == x
    ensures forall k :: 0 <= k < v.Size() && k != i ==> r.data[k] == v.data[k]
  {
    Vector(v.data[i := x])
  }

  /** Copy assignment `target = rhs`. `aliased` says that target and rhs are one object
      (`this == &rhs`), in which case nothing happens. */
  function CopyAssign<T>(target: Vector<T>, rhs: Vector<T>, aliased: bool): (r: Vector<T>)
    requires aliased ==> target == rhs
    ensures aliased ==> r == target
    ensures r.Size() == rhs.Size()
    ensures forall i :: 0 <= i < rhs.Size() ==> r.data[i] == rhs.data[i]
  {
    if aliased then target else Copy(rhs)
  }

  /** The two vectors after a move: the assigned-to one and the moved-from one. */
  datatype Moved<T> = Moved(target: Vector<T>, source: Vector<T>)

  /** Move assignment `target = std::move(rhs)`: target takes over rhs's elements and rhs is
      left with no data and size 0. Moving an object into itself does nothing. */
  function MoveAssign<T>(target: Vector<T>, rhs: Vector<T>, aliased: bool): (r: Moved<T>)
    requires aliased ==> target == rhs
    ensures r.target == rhs
    ensures aliased ==> r.source == rhs
    ensures !aliased ==> r.source.Size() == 0
  {
    if aliased then Moved(target, rhs) else Moved(rhs, Vector([]))
  }

  /** The move constructor: starts with no data and size 0, then move-assigns from rhs (a
      new object is never rhs itself). */
  function MoveConstruct<T>(rhs: Vector<T>): (r: Moved<T>)
    ensures r.target == rhs && r.source.Size() == 0
  {
    MoveAssign(Vector([]), rhs, false)
  }

  /** `Vector()` is the one-element zeroed vector, and a buffer or list of exactly s
      elements builds the same vector either way. */
  lemma ConstructorsAgree<T>(zero: T, init: seq<T>)
    ensures Default(zero) == Zeros(1, zero)
    ensures |init| < U64_LIMIT ==> FromBuffer(|init|, init) == FromList(init)
  {
    assert Default(zero).data == Zeros(1, zero).data;
  }

  /** A copy equals its original, and copying a copy changes nothing. */
  lemma CopyIsIdentity<T>(v: Vector<T>)
    ensures Copy(v) == v
    ensures CopyAssign(Copy(v), v, false) == v
  {
    assert Copy(v).data == v.data;
  }

  /** Moving a into b and then b back into a restores a and leaves b empty; the elements are
      neither lost nor duplicated. */
  lemma MoveThereAndBack<T>(a: Vector<T>, b: Vector<T>)
    ensures var there := MoveAssign(b, a, false);
      var back := MoveAssign(there.source, there.target, false);
      back.target == a && back.source.Size() == 0
  {
  }
}
