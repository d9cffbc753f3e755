/**
 The generic growable array `Array<T>`: a buffer of `capacity` slots of which the
 first `size` hold the elements. A C++ member function that mutates the object is
 modelled here as an operation that takes the old state and returns the new one.
 */
module Arrays {
  import opened Wrappers

  /** The default argument of the constructor. */
  const DefaultCapacity: nat := 10

  /** The one error the array raises: `std::out_of_range`. */
  datatype Error = OutOfRange

  /**
   The object's three fields. The first `size` slots hold the elements; a slot past
   `size` is `None` when it was allocated by `new T[n]` and never assigned, or a
   stale copy that `remove` left behind.
   */
  datatype Array<T> = Array(data: seq<Option<T>>, size: nat, capacity: nat) {

    /** The representation invariant: the buffer has `capacity` slots and the first `size` are filled. */
    predicate Valid() {
      && |data| == capacity
      && size <= capacity
      && forall i :: 0 <= i < size ==> data[i].Some?
    }

    /** The abstract contents: the elements at indices `[0, size)`, in order. */
    function Contents(): (s: seq<T>)
      requires Valid()
      ensures |s| == size
      ensures forall i :: 0 <= i < size ==> data[i] == Some(s[i])
    {
      seq(size, i requires 0 <= i < size => data[i].value)
    }
  }

  /** The constructor: an empty array whose buffer has `initialCapacity` fresh slots. */
  function Create<T>(initialCapacity: nat): (a: Array<T>)
    ensures a.Valid()
    ensures a.capacity == initialCapacity
    ensures a.Contents() == []
  {
    Array(seq(initialCapacity, _ => None), 0, initialCapacity)
  }

  /**
   `resize`: doubles the capacity, allocates a fresh buffer and copies the slots
   `[0, size)` across in order, so no element is lost or moved.
   */
  method Grow<T>(a: Array<T>) returns (b: Array<T>)
    requires a.Valid()
    ensures b.Valid()
    ensures b.capacity == 2 * a.capacity
    ensures b.size == a.size
    ensures b.Contents() == a.Contents()
  {
    var capacity := 2 * a.capacity;
    var newData: seq<Option<T>> := seq(capacity, _ => None);
    var i := 0;
    while i < a.size
      invariant i <= a.size
      invariant |newData| == capacity
      invariant forall j :: 0 <= j < i ==> newData[j] == a.data[j]
    {
      newData := newData[i := a.data[i]];
      i := i + 1;
    }
    b := Array(newData, a.size, capacity);
  }

  /**
   `add`: grows when the buffer is full, then stores the item at index `size`.
   A capacity of 0 stays 0 when doubled, so the store would fall outside the
   buffer; the caller must therefore have given a positive capacity.
   */
  method Add<T>(a: Array<T>, item: T) returns (b: Array<T>)
    requires a.Valid() && a.capacity >= 1
    ensures b.Valid() && b.capacity >= 1
    ensures b.size == a.size + 1
    ensures b.Contents() == a.Contents() + [item]
    ensures b.capacity == if a.size == a.capacity then 2 * a.capacity else a.capacity
  {
    var c := a;
    if a.size == a.capacity {
      c := Grow(a);
    }
    b := c.(data := c.data[c.size := Some(item)], size := c.size + 1);
  }

  /**
   As written, an array constructed with capacity 0 is full at once, and `resize`
   leaves it full: the store of `add` at index `size` would fall past the end of
   the buffer.
   */
  method ZeroCapacityAddWritesPastBuffer<T>() returns (b: Array<T>)
    ensures b.Valid()
    ensures b.size == b.capacity == 0
  {
    var a := Create<T>(0);
    b := Grow(a);
  }

  /** Appending items one at a time appends them all, in order. */
  method AddAll<T>(a: Array<T>, items: seq<T>) returns (b: Array<T>)
    requires a.Valid() && a.capacity >= 1
    ensures b.Valid() && b.capacity >= a.capacity
    ensures b.size == a.size + |items|
    ensures b.Contents() == a.Contents() + items
  {
    b := a;
    var i := 0;
    while i < |items|
      invariant i <= |items|
      invariant b.Valid() && b.capacity >= a.capacity
      invariant b.Contents() == a.Contents() + items[..i]
    {
      b := Add(b, items[i]);
      i := i + 1;
    }
    assert items[..i] == items;
  }

  /**
   `remove`: out of range for every index at or past `size`; otherwise shifts the
   later elements one place left and lowers `size`. The old last slot is never
   cleared, so it keeps a stale copy of the last element past the new `size`.
   */
  method Remove<T>(a: Array<T>, index: nat) returns (r: Result<Array<T>, Error>)
    requires a.Valid()
    ensures r.Failure? <==> index >= a.size
    ensures r.Failure? ==> r.error == OutOfRange
    ensures r.Success? ==> r.value.Valid() && r.value.capacity == a.capacity
    ensures r.Success? ==> r.value.size == a.size - 1
    ensures r.Success? ==> r.value.Contents() == a.Contents()[..index] + a.Contents()[index + 1..]
    ensures r.Success? ==> r.value.data[a.size - 1] == a.data[a.size - 1]
  {
    if index >= a.size {
      return Failure(OutOfRange);
    }
    var data := a.data;
    var i := index;
    while i < a.size - 1
      invariant index <= i <= a.size - 1
      invariant |data| == a.capacity
      invariant forall j :: 0 <= j < index ==> data[j] == a.data[j]
      invariant forall j :: index <= j < i ==> data[j] == a.data[j + 1]
      invariant forall j :: i <= j < a.capacity ==> data[j] == a.data[j]
    {
      data := data[i := data[i + 1]];
      i := i + 1;
    }
    var b := Array(data, a.size - 1, a.capacity);
    ShiftedContents(a, b, index);
    return Success(b);
  }

  /**
   A buffer whose first `index` slots are kept and whose next `size - 1 - index`
   slots are the old ones shifted down by one holds the contents without the
   element at `index`.
   */
  lemma ShiftedContents<T>(a: Array<T>, b: Array<T>, index: nat)
    requires a.Valid() && index < a.size
    requires |b.data| == b.capacity == a.capacity && b.size == a.size - 1
    requires forall j :: 0 <= j < index ==> b.data[j] == a.data[j]
    requires forall j :: index <= j < b.size ==> b.data[j] == a.data[j + 1]
    ensures b.Valid()
    ensures b.Contents() == a.Contents()[..index] + a.Contents()[index + 1..]
  {
    var s := a.Contents();
    forall j | 0 <= j < b.size
      ensures b.Contents()[j] == (s[..index] + s[index + 1..])[j]
    {
      if j < index {
        assert b.data[j] == a.data[j];
      } else {
        assert b.data[j] == a.data[j + 1];
      }
    }
  }

  /**
   Both `operator[]` overloads, read: out of range for every index at or past
   `size`, otherwise the element at that index.
   */
  function At<T>(a: Array<T>, index: nat): (r: Result<T, Error>)
    requires a.Valid()
    ensures r.Success? <==> index < a.size
    ensures r.Success? ==> r.value == a.Contents()[index]
    ensures r.Failure? ==> r.error == OutOfRange
  {
    if index >= a.size then Failure(OutOfRange) else Success(a.data[index].value)
  }

  /**
   An assignment through the reference the non-const `operator[]` returns:
   out of range as `At` is, otherwise exactly that element is replaced.
   */
  function Put<T>(a: Array<T>, index: nat, item: T): (r: Result<Array<T>, Error>)
    requires a.Valid()
    ensures r.Success? <==> index < a.size
    ensures r.Failure? ==> r.error == OutOfRange
    ensures r.Success? ==> r.value.Valid() && r.value.capacity == a.capacity
    ensures r.Success? ==> r.value.Contents() == a.Contents()[index := item]
  {
    if index >= a.size then Failure(OutOfRange)
    else Success(a.(data := a.data[index := Some(item)]))
  }

  /** Reading back an index just written gives the written item; other indices are untouched. */
  lemma PutThenAt<T>(a: Array<T>, index: nat, item: T, other: nat)
    requires a.Valid() && index < a.size
    ensures Put(a, index, item).Success?
    ensures At(Put(a, index, item).value, index) == Success(item)
    ensures other != index ==> At(Put(a, index, item).value, other) == At(a, other)
  {
  }

  /** `getSize`: the number of elements. */
  function Size<T>(a: Array<T>): (n: nat)
    requires a.Valid()
    ensures n == |a.Contents()|
  {
    a.size
  }

  /**
   `print`: the elements whose `print` is invoked, in the order it is invoked,
   which is index order `0 .. size-1`.
   */
  method Print<T>(a: Array<T>) returns (visited: seq<T>)
    requires a.Valid()
    ensures visited == a.Contents()
  {
    visited := [];
    var i := 0;
    while i < a.size
      invariant i <= a.size
      invariant visited == a.Contents()[..i]
    {
      visited := visited + [a.data[i].value];
      i := i + 1;
    }
  }
}
