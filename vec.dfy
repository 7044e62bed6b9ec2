/** The growable-vector operations the interpreters call on the tape, with the
    bounds behaviour of Rust's `Vec`: indexing and `remove` need `i < len`,
    `insert` needs `i <= len`, `swap` needs both indices `< len`. A panic is
    an `Err(BoundsError)`. */
module Vec {
  import opened Base

  /** `v[i]`. */
  function Get<T>(v: seq<T>, i: nat): (r: Result<T>)
    ensures r.Ok? <==> i < |v|
    ensures r.Ok? ==> r.value == v[i]
    ensures r.Err? ==> r.error == BoundsError
  {
    if i < |v| then Ok(v[i]) else Err(BoundsError)
  }

  /** `v.insert(i, x)`: every cell from `i` on moves one place up. */
  function Insert<T>(v: seq<T>, i: nat, x: T): (r: Result<seq<T>>)
    ensures r.Ok? <==> i <= |v|
    ensures r.Ok? ==> |r.value| == |v| + 1 && r.value[i] == x
    ensures r.Ok? ==> r.value[..i] == v[..i] && r.value[i + 1..] == v[i..]
    ensures r.Err? ==> r.error == BoundsError
  {
    if i <= |v| then Ok(v[..i] + [x] + v[i..]) else Err(BoundsError)
  }

  /** `v.remove(i)`: the removed cell and what is left; every cell after `i`
      moves one place down. */
  function Remove<T>(v: seq<T>, i: nat): (r: Result<(T, seq<T>)>)
    ensures r.Ok? <==> i < |v|
    ensures r.Ok? ==> r.value.0 == v[i] && |r.value.1| + 1 == |v|
    ensures r.Ok? ==> r.value.1[..i] == v[..i] && r.value.1[i..] == v[i + 1..]
    ensures r.Err? ==> r.error == BoundsError
  {
    if i < |v| then Ok((v[i], v[..i] + v[i + 1..])) else Err(BoundsError)
  }

  /** `v.swap(i, j)`. */
  function Swap<T>(v: seq<T>, i: nat, j: nat): (r: Result<seq<T>>)
    ensures r.Ok? <==> i < |v| && j < |v|
    ensures r.Ok? ==> |r.value| == |v| && r.value[i] == v[j] && r.value[j] == v[i]
    ensures r.Ok? ==> forall k :: 0 <= k < |v| && k != i && k != j ==> r.value[k] == v[k]
    ensures r.Err? ==> r.error == BoundsError
  {
    if i < |v| && j < |v| then Ok(v[i := v[j]][j := v[i]]) else Err(BoundsError)
  }

  /** The NAND edit of nand.rs and PRON.rs, in three vector calls: remove
      the cells at `ptr` and `ptr + 1`, insert their NAND at `ptr`. */
  function NandCells(tape: seq<bool>, ptr: nat): (r: Result<seq<bool>>)
    ensures r.Ok? <==> ptr + 1 < |tape|
    ensures r.Ok? ==> |r.value| + 1 == |tape| && r.value[ptr] == !(tape[ptr] && tape[ptr + 1])
    ensures r.Ok? ==> r.value[..ptr] == tape[..ptr] && r.value[ptr + 1..] == tape[ptr + 2..]
    ensures r.Err? ==> r.error == BoundsError
  {
    var first :- Remove(tape, ptr);
    var second :- Remove(first.1, ptr);
    Insert(second.1, ptr, !(first.0 && second.0))
  }

  /** Inserting at index 0 puts the cell in front. */
  lemma InsertFront<T>(v: seq<T>, x: T)
    ensures Insert(v, 0, x) == Ok([x] + v)
  {
    var w := Insert(v, 0, x).value;
    assert w[1..] == v;
    assert w == [w[0]] + w[1..];
  }

  /** Removing what was just inserted gives back the cell and the vector. */
  lemma RemoveInserted<T>(v: seq<T>, i: nat, x: T)
    requires i <= |v|
    ensures Remove(Insert(v, i, x).value, i) == Ok((x, v))
  {
    var w := Insert(v, i, x).value;
    assert w[..i] + w[i + 1..] == v[..i] + v[i..];
    assert v[..i] + v[i..] == v;
  }

  /** Inserting the removed cell where it was gives back the vector. */
  lemma InsertRemoved<T>(v: seq<T>, i: nat)
    requires i < |v|
    ensures Insert(Remove(v, i).value.1, i, v[i]) == Ok(v)
  {
    var rest := Remove(v, i).value.1;
    assert rest[..i] + [v[i]] + rest[i..] == v[..i] + [v[i]] + v[i + 1..];
    assert v[..i] + [v[i]] + v[i + 1..] == v;
  }

  /** Swapping the same two cells twice changes nothing. */
  lemma SwapTwice<T>(v: seq<T>, i: nat, j: nat)
    requires i < |v| && j < |v|
    ensures Swap(Swap(v, i, j).value, i, j) == Ok(v)
  {
    var w := Swap(Swap(v, i, j).value, i, j).value;
    assert |w| == |v|;
    assert forall k :: 0 <= k < |v| ==> w[k] == v[k];
    assert w == v;
  }
}
