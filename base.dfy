/** Vocabulary shared by the three interpreters: the ways a parse or a run
    aborts, results, bounded-run outcomes, the injected literal sources and
    the checked decrement of the cursor. */
module Base {

  /** Every `panic!` the interpreters can reach, by kind. */
  datatype Error =
    | SyntaxError       // `I` not followed by a valid tag character
    | BoundsError       // cursor below 0, or a cell index outside the tape
    | UnmatchedBracket  // a `]` whose backward scan ran past the first instruction
    | InputError        // the interactive source reached the end of its input

  datatype Option<+T> = None | Some(value: T)

  datatype Result<+T> = Ok(value: T) | Err(error: Error) {
    predicate IsFailure() { Err? }

    function PropagateFailure<U>(): Result<U>
      requires Err?
    {
      Err(error)
    }

    function Extract(): T
      requires Ok?
    {
      value
    }
  }

  /** `r` with `p` put in front of its value; an error stays the same error. */
  function Prepend<T>(p: seq<T>, r: Result<seq<T>>): (q: Result<seq<T>>)
    ensures q.Ok? <==> r.Ok?
    ensures q.Ok? ==> |q.value| == |p| + |r.value| && q.value[..|p|] == p && q.value[|p|..] == r.value
    ensures q.Err? ==> q.error == r.error
  {
    match r
    case Ok(s) => Ok(p + s)
    case Err(e) => Err(e)
  }

  lemma PrependAssoc<T>(p: seq<T>, q: seq<T>, r: Result<seq<T>>)
    ensures Prepend(p, Prepend(q, r)) == Prepend(p + q, r)
  {
    if r.Ok? {
      assert p + (q + r.value) == (p + q) + r.value;
    }
  }

  /** How a run with a step budget ends: halted normally with a value, aborted
      with an error, or still running when the budget was spent. */
  datatype Outcome<+T> = Halted(value: T) | Failed(error: Error) | Exhausted

  /** What the interpreters read from outside, indexed by the number of
      instructions executed before the read: the microseconds elapsed since
      the run started, and the interactive answer (None when the input has
      ended). */
  datatype Env = Env(micros: nat -> nat, answer: nat -> Option<bool>)

  /** `checked_sub(1)` on the cursor or the program counter. */
  function CheckedDec(n: nat): (r: Result<nat>)
    ensures r.Ok? <==> n > 0
    ensures r.Ok? ==> r.value + 1 == n
    ensures r.Err? ==> r.error == BoundsError
  {
    if n == 0 then Err(BoundsError) else Ok(n - 1)
  }

  /** The table that turns the elapsed microseconds, modulo 10, into the
      bit of a random literal. */
  function RandomBit(r: nat): (b: bool)
    requires r < 10
    ensures b <==> r in {1, 3, 4, 7, 9}
  {
    match r
    case 0 => false
    case 1 => true
    case 2 => false
    case 3 => true
    case 4 => true
    case 5 => false
    case 6 => false
    case 7 => true
    case 8 => false
    case 9 => true
  }

  /** The table follows parity (odd gives true) everywhere except at 4 and 5,
      where it is inverted; and it is balanced: half of the remainders give
      true. */
  lemma RandomBitParity(r: nat)
    requires r < 10
    ensures RandomBit(r) == (r % 2 == 1) <==> r != 4 && r != 5
  {
  }

  /** Number of remainders below n that the table maps to true. */
  function TrueRemainders(n: nat): (c: nat)
    requires n <= 10
    ensures c <= n
  {
    if n == 0 then 0 else TrueRemainders(n - 1) + (if RandomBit(n - 1) then 1 else 0)
  }

  lemma RandomBitBalanced()
    ensures TrueRemainders(10) == 5
  {
  }
}
