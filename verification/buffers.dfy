/** Fixed-size C buffers whose cells may never have been written.
    A stack array such as `int indices[1024]` starts with indeterminate
    contents; a cell only holds a meaningful value once the program has
    stored into it. */
module Buffers {

  /** One cell of a fixed-size buffer. */
  datatype Slot<T> = Uninit | Written(value: T)

  /** A buffer of `capacity` cells, all uninitialised. */
  function Fresh<T>(capacity: nat): (buf: seq<Slot<T>>)
    ensures |buf| == capacity
    ensures forall j :: 0 <= j < capacity ==> buf[j].Uninit?
  {
    seq(capacity, _ => Uninit)
  }

  /** The buffer of `capacity` cells whose leading cells hold `s`, in order,
      and whose remaining cells were never written. */
  function Place<T>(s: seq<T>, capacity: nat): (buf: seq<Slot<T>>)
    requires |s| <= capacity
    ensures |buf| == capacity
    ensures forall j :: 0 <= j < |s| ==> buf[j] == Written(s[j])
    ensures forall j :: |s| <= j < capacity ==> buf[j].Uninit?
  {
    seq(capacity, j requires 0 <= j < capacity => if j < |s| then Written(s[j]) else Uninit)
  }

  /** Storing the next value at the write cursor extends the written part
      by that value and leaves every other cell as it was. */
  lemma PlaceAppend<T>(s: seq<T>, v: T, capacity: nat)
    requires |s| < capacity
    ensures Place(s, capacity)[|s| := Written(v)] == Place(s + [v], capacity)
  {
  }

  /** Number of cells of `buf` that were never written. */
  function CountUninit<T>(buf: seq<Slot<T>>): (n: nat)
    ensures n <= |buf|
    ensures n == 0 <==> forall j :: 0 <= j < |buf| ==> buf[j].Written?
  {
    if |buf| == 0 then 0
    else CountUninit(buf[..|buf| - 1]) + (if buf[|buf| - 1].Uninit? then 1 else 0)
  }

  /** Reading the first `n` cells of a placed buffer, past the written part,
      meets exactly `n - |s|` unwritten cells. */
  lemma {:induction false} PlaceUninitCount<T>(s: seq<T>, capacity: nat, n: nat)
    requires |s| <= n <= capacity
    ensures CountUninit(Place(s, capacity)[..n]) == n - |s|
    decreases n
  {
    var buf := Place(s, capacity);
    if n == |s| {
      assert forall j :: 0 <= j < n ==> buf[..n][j].Written?;
    } else {
      PlaceUninitCount(s, capacity, n - 1);
      assert buf[..n][..n - 1] == buf[..n - 1];
    }
  }

  /** A placed buffer has exactly `capacity - |s|` unwritten cells. */
  lemma PlaceUninitTotal<T>(s: seq<T>, capacity: nat)
    requires |s| <= capacity
    ensures CountUninit(Place(s, capacity)) == capacity - |s|
  {
    var buf := Place(s, capacity);
    PlaceUninitCount(s, capacity, capacity);
    assert buf[..capacity] == buf;
  }
}
