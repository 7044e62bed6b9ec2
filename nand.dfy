/** The interpreter of nand.rs: the generalised variant. The tape starts as
    one false cell, a direction flag (`dir`, true = right) reinterprets the
    directional instructions, `F` flips it, and a trailing `I` in the source
    text is dropped silently. The run's result is the tape as a string of
    `0` and `1`. */
module NandLang {
  import opened Base
  import Vec
  import Brackets

  datatype LitType = Zero | One | Random | User

  datatype Code =
    | MoveForward        // +
    | MoveBackward       // -
    | Nand               // N
    | Copy               // C
    | Swap               // S
    | Literal(tag: LitType)  // I0 I1 IR IU
    | Delete             // D
    | Branch             // B
    | Flip               // F
    | JumpBack           // ]
    | LoopOpen           // [

  /** `LitType::get`: Zero and One are constants, Random reads the clock
      through the remainder table, User asks the interactive input. At the
      end of the input the prompt loop of nand.rs never returns: that is the
      only case without a value. */
  function GetLiteral(t: LitType, env: Env, k: nat): (r: Option<bool>)
    ensures (t == Zero || t == One) ==> r == Some(t == One)
    ensures t == Random ==> r.Some? && (r.value <==> env.micros(k) % 10 in {1, 3, 4, 7, 9})
    ensures r.None? <==> t == User && env.answer(k).None?
  {
    match t
    case Zero => Some(false)
    case One => Some(true)
    case Random => Some(RandomBit(env.micros(k) % 10))
    case User => env.answer(k)
  }

  /** The single-character opcodes; `I` is handled apart. */
  function Symbol(c: char): Option<Code>
  {
    match c
    case '+' => Some(MoveForward)
    case '-' => Some(MoveBackward)
    case 'N' => Some(Nand)
    case 'C' => Some(Copy)
    case 'S' => Some(Swap)
    case 'D' => Some(Delete)
    case 'B' => Some(Branch)
    case 'F' => Some(Flip)
    case ']' => Some(JumpBack)
    case '[' => Some(LoopOpen)
    case _ => None
  }

  /** The characters allowed after `I`. */
  function Tag(c: char): Option<LitType>
  {
    match c
    case '0' => Some(Zero)
    case '1' => Some(One)
    case 'R' => Some(Random)
    case 'U' => Some(User)
    case _ => None
  }

  /** What `parse` returns for `s`: one left-to-right pass; `I` takes the next
      character as its tag, an unknown tag is a syntax error, and an `I` at
      the very end is dropped. */
  function Parsed(s: string): Result<seq<Code>>
    decreases |s|
  {
    if s == [] then Ok([])
    else if s[0] == 'I' then
      if |s| == 1 then Ok([])
      else match Tag(s[1])
        case None => Err(SyntaxError)
        case Some(t) => Prepend([Literal(t)], Parsed(s[2..]))
    else match Symbol(s[0])
      case None => Parsed(s[1..])
      case Some(op) => Prepend([op], Parsed(s[1..]))
  }

  /** `s` does not end in an `I` still waiting for its tag. */
  predicate Closed(s: string)
    decreases |s|
  {
    if s == [] then true
    else if s[0] == 'I' then |s| >= 2 && Closed(s[2..])
    else Closed(s[1..])
  }

  /** `parse`, as the source runs it: a loop pulling characters and pushing
      opcodes, which stops when the characters run out, even right after an
      `I`. */
  method Parse(s: string) returns (r: Result<seq<Code>>)
    ensures r == Parsed(s)
  {
    var prog: seq<Code> := [];
    var i := 0;
    while i < |s|
      invariant i <= |s|
      invariant Parsed(s) == Prepend(prog, Parsed(s[i..]))
    {
      var c := s[i];
      assert s[i..][1..] == s[i + 1..];
      i := i + 1;
      if c == 'I' {
        if i == |s| {
          break;
        }
        var t := Tag(s[i]);
        if t.None? {
          return Err(SyntaxError);
        }
        assert s[i - 1..][2..] == s[i + 1..];
        PrependAssoc(prog, [Literal(t.value)], Parsed(s[i + 1..]));
        prog := prog + [Literal(t.value)];
        i := i + 1;
      } else {
        var op := Symbol(c);
        if op.Some? {
          PrependAssoc(prog, [op.value], Parsed(s[i..]));
          prog := prog + [op.value];
        }
      }
    }
    assert Parsed(s[i..]) == Ok([]);
    assert prog + [] == prog;
    return Ok(prog);
  }

  /** The text of one opcode. */
  function Text(op: Code): string
  {
    match op
    case MoveForward => "+"
    case MoveBackward => "-"
    case Nand => "N"
    case Copy => "C"
    case Swap => "S"
    case Literal(t) => ['I', match t case Zero => '0' case One => '1' case Random => 'R' case User => 'U']
    case Delete => "D"
    case Branch => "B"
    case Flip => "F"
    case JumpBack => "]"
    case LoopOpen => "["
  }

  /** The source text of a program, opcode by opcode. */
  function Source(prog: seq<Code>): string
  {
    if prog == [] then [] else Text(prog[0]) + Source(prog[1..])
  }

  /** Parsing a concatenation whose first part is closed and parses is
      parsing the two parts. */
  lemma {:induction false} ParsedConcat(p: string, q: string)
    requires Closed(p) && Parsed(p).Ok?
    ensures Parsed(p + q) == Prepend(Parsed(p).value, Parsed(q))
    decreases |p|
  {
    if p == [] {
      assert p + q == q;
      assert Parsed(q) == Prepend([], Parsed(q));
    } else if p[0] == 'I' {
      assert (p + q)[2..] == p[2..] + q;
      ParsedConcat(p[2..], q);
      PrependAssoc([Literal(Tag(p[1]).value)], Parsed(p[2..]).value, Parsed(q));
    } else {
      assert (p + q)[1..] == p[1..] + q;
      ParsedConcat(p[1..], q);
      if Symbol(p[0]).Some? {
        PrependAssoc([Symbol(p[0]).value], Parsed(p[1..]).value, Parsed(q));
      }
    }
  }

  lemma ParseText(op: Code)
    ensures Closed(Text(op)) && Parsed(Text(op)) == Ok([op])
  {
    var t := Text(op);
    if op.Literal? {
      assert t[0] == 'I' && |t| == 2;
      assert Tag(t[1]) == Some(op.tag);
      assert t[2..] == [];
      assert [Literal(op.tag)] + [] == [op];
    } else {
      assert |t| == 1 && t[0] != 'I';
      assert Symbol(t[0]) == Some(op);
      assert t[1..] == [];
      assert [op] + [] == [op];
    }
  }

  /** Parsing the text of a program gives back the program. */
  lemma {:induction false} ParseSource(prog: seq<Code>)
    ensures Parsed(Source(prog)) == Ok(prog)
  {
    if prog != [] {
      var t := Text(prog[0]);
      ParseText(prog[0]);
      ParsedConcat(t, Source(prog[1..]));
      ParseSource(prog[1..]);
      assert [prog[0]] + prog[1..] == prog;
    }
  }

  /** Comments are transparent: a character that is neither a symbol nor
      `I`, and does not follow a pending `I`, adds no opcode. */
  lemma CommentTransparent(p: string, c: char, q: string)
    requires Closed(p) && Parsed(p).Ok?
    requires c != 'I' && Symbol(c).None?
    ensures Parsed(p + [c] + q) == Parsed(p + q)
  {
    assert Parsed([c] + q) == Parsed(q) by {
      assert ([c] + q)[1..] == q;
    }
    ParsedConcat(p, [c] + q);
    ParsedConcat(p, q);
    assert p + [c] + q == p + ([c] + q);
  }

  /** `I` followed by a character that is not a tag is a syntax error; `I` as
      the very last character is dropped without error. */
  lemma LiteralTag(p: string, c: char, q: string)
    requires Closed(p) && Parsed(p).Ok?
    requires Tag(c).None?
    ensures Parsed(p + ['I', c] + q) == Err(SyntaxError)
    ensures Parsed(p + ['I']) == Parsed(p)
  {
    ParsedConcat(p, ['I', c] + q);
    assert p + ['I', c] + q == p + (['I', c] + q);
    ParsedConcat(p, ['I']);
    assert Parsed(p).value + [] == Parsed(p).value;
  }

  /** Every opcode comes from at least one character. */
  lemma {:induction false} ParsedLength(s: string)
    requires Parsed(s).Ok?
    ensures |Parsed(s).value| <= |s|
    decreases |s|
  {
    if s == [] {
    } else if s[0] == 'I' {
      if |s| > 1 {
        ParsedLength(s[2..]);
      }
    } else {
      ParsedLength(s[1..]);
    }
  }

  // ---------------------------------------------------------------------
  // Evaluation

  /** The bit array, the cursor, the program counter and the
      direction (true = towards higher indices). */
  datatype State = State(tape: seq<bool>, ptr: nat, pc: nat, dir: bool)

  /** A run starts with the tape `[false]`, cursor 0, program counter 0,
      direction forward. */
  const Init: State := State([false], 0, 0, true)

  /** What one instruction does to the run: a new state, an error, or no
      progress at all (an interactive literal at the end of the input). */
  datatype Transition = Next(state: State) | Fault(error: Error) | Stalled

  function BracketKind(op: Code): Brackets.Kind
  {
    match op
    case LoopOpen => Brackets.Open
    case JumpBack => Brackets.Close
    case _ => Brackets.Other
  }

  /** The cell index one step backward of `ptr` in direction `dir`, or
      forward of it when `forward` is set. */
  function Neighbour(ptr: nat, dir: bool, forward: bool): Result<nat>
  {
    if dir == forward then Ok(ptr + 1) else CheckedDec(ptr)
  }

  /** The instruction at `s.pc` once the cursor check has passed; `lit` is
      the value the literal source produced, read only by a literal. */
  function Apply(prog: seq<Code>, s: State, lit: bool): Result<State>
    requires s.pc < |prog|
  {
    var State(tape, ptr, pc, dir) := s;
    match prog[pc]
    case MoveForward =>
      var p :- Neighbour(ptr, dir, true);
      Ok(State(tape, p, pc + 1, dir))
    case MoveBackward =>
      var p :- Neighbour(ptr, dir, false);
      Ok(State(tape, p, pc + 1, dir))
    case Nand =>
      var p :- if dir then Ok(ptr) else CheckedDec(ptr);
      var tape' :- Vec.NandCells(tape, p);
      Ok(State(tape', p, pc + 1, dir))
    case Copy =>
      var a :- Vec.Get(tape, ptr);
      var tape' :- Vec.Insert(tape, ptr, a);
      Ok(State(tape', if dir then ptr else ptr + 1, pc + 1, dir))
    case Swap =>
      var other :- Neighbour(ptr, dir, true);
      var tape' :- Vec.Swap(tape, ptr, other);
      Ok(State(tape', ptr, pc + 1, dir))
    case Literal(_) =>
      var p := if dir then ptr else ptr + 1;
      var tape' :- Vec.Insert(tape, p, lit);
      Ok(State(tape', p, pc + 1, dir))
    case Delete =>
      var removed :- Vec.Remove(tape, ptr);
      var p :- if dir then Ok(ptr) else CheckedDec(ptr);
      Ok(State(removed.1, p, pc + 1, dir))
    case Branch =>
      var a :- Vec.Get(tape, ptr);
      Ok(State(tape, ptr, if a then pc + 2 else pc + 1, dir))
    case Flip => Ok(State(tape, ptr, pc + 1, !dir))
    case JumpBack =>
      (match Brackets.MatchOpen(prog, BracketKind, pc, 1)
       case None => Err(UnmatchedBracket)
       case Some(j) => Ok(State(tape, ptr, j + 1, dir)))
    case LoopOpen => Ok(State(tape, ptr, pc + 1, dir))
  }

  /** One instruction, the one at `s.pc`; `k` instructions ran before it.
      Every step first checks that the cursor is at most one past the end. */
  function Step(prog: seq<Code>, env: Env, s: State, k: nat): Transition
    requires s.pc < |prog|
  {
    if s.ptr > |s.tape| then Fault(BoundsError)
    else
      var lit := if prog[s.pc].Literal? then GetLiteral(prog[s.pc].tag, env, k) else Some(false);
      match lit
      case None => Stalled
      case Some(b) =>
        match Apply(prog, s, b)
        case Ok(s') => Next(s')
        case Err(e) => Fault(e)
  }

  /** The final tape as the string `evaluate` returns. */
  function Render(tape: seq<bool>): (r: string)
    ensures |r| == |tape|
    ensures forall i :: 0 <= i < |tape| ==> (r[i] == '1' <==> tape[i]) && r[i] in {'0', '1'}
  {
    seq(|tape|, i requires 0 <= i < |tape| => if tape[i] then '1' else '0')
  }

  /** The string determines the tape. */
  lemma RenderInjective(a: seq<bool>, b: seq<bool>)
    requires Render(a) == Render(b)
    ensures a == b
  {
    assert forall i :: 0 <= i < |a| ==> (a[i] <==> Render(a)[i] == '1');
  }

  /** Run from `s` for at most `fuel` instructions. */
  function Exec(prog: seq<Code>, env: Env, s: State, k: nat, fuel: nat): Outcome<string>
    decreases fuel
  {
    if s.pc >= |prog| then Halted(Render(s.tape))
    else if fuel == 0 then Exhausted
    else match Step(prog, env, s, k)
      case Fault(e) => Failed(e)
      case Stalled => Exhausted
      case Next(s') => Exec(prog, env, s', k + 1, fuel - 1)
  }

  /** `evaluate` with a budget of `fuel` instructions. */
  function Run(prog: seq<Code>, env: Env, fuel: nat): Outcome<string>
  {
    Exec(prog, env, Init, 0, fuel)
  }

  /** The instructions of `evaluate` that rewrite the cell under the cursor
      and its neighbour, as the source performs them on the vector. */
  method EditPair(prog: seq<Code>, tape0: seq<bool>, ptr0: nat, pc: nat, dir: bool)
    returns (r: Result<State>)
    requires pc < |prog| && (prog[pc].Nand? || prog[pc].Swap?)
    ensures r == Apply(prog, State(tape0, ptr0, pc, dir), false)
  {
    var tape, ptr := tape0, ptr0;
    match prog[pc] {
      case Nand =>
        if !dir {
          if ptr == 0 {
            return Err(BoundsError);
          }
          ptr := ptr - 1;
        }
        if ptr + 1 >= |tape| {
          return Err(BoundsError);
        }
        var a := tape[ptr];
        tape := tape[..ptr] + tape[ptr + 1..];
        var b := tape[ptr];
        tape := tape[..ptr] + tape[ptr + 1..];
        tape := tape[..ptr] + [!(a && b)] + tape[ptr..];
        assert Vec.NandCells(tape0, ptr) == Ok(tape);
        return Ok(State(tape, ptr, pc + 1, dir));
      case Swap =>
        var other: nat;
        if dir {
          other := ptr + 1;
        } else {
          if ptr == 0 {
            return Err(BoundsError);
          }
          other := ptr - 1;
        }
        if other >= |tape| || ptr >= |tape| {
          return Err(BoundsError);
        }
        tape := tape[ptr := tape[other]][other := tape[ptr]];
        return Ok(State(tape, ptr, pc + 1, dir));
    }
  }

  /** The instructions of `evaluate` that insert or remove one cell, as the
      source performs them on the vector; `lit` is the value of a literal. */
  method EditTape(prog: seq<Code>, tape0: seq<bool>, ptr0: nat, pc: nat, dir: bool, lit: bool)
    returns (r: Result<State>)
    requires pc < |prog| && (prog[pc].Copy? || prog[pc].Literal? || prog[pc].Delete?)
    ensures r == Apply(prog, State(tape0, ptr0, pc, dir), lit)
  {
    var tape, ptr := tape0, ptr0;
    match prog[pc] {
      case Copy =>
        if ptr >= |tape| {
          return Err(BoundsError);
        }
        var a := tape[ptr];
        tape := tape[..ptr] + [a] + tape[ptr..];
        if !dir {
          ptr := ptr + 1;
        }
        return Ok(State(tape, ptr, pc + 1, dir));
      case Literal(_) =>
        if !dir {
          ptr := ptr + 1;
        }
        if ptr > |tape| {
          return Err(BoundsError);
        }
        tape := tape[..ptr] + [lit] + tape[ptr..];
        return Ok(State(tape, ptr, pc + 1, dir));
      case Delete =>
        if ptr >= |tape| {
          return Err(BoundsError);
        }
        tape := tape[..ptr] + tape[ptr + 1..];
        if !dir {
          if ptr == 0 {
            return Err(BoundsError);
          }
          ptr := ptr - 1;
        }
        return Ok(State(tape, ptr, pc + 1, dir));
    }
  }

  /** One pass of the loop body of `evaluate`: the cursor check, then the
      instruction at `pc`; a literal asks its source for a value first. */
  method Execute(prog: seq<Code>, env: Env, tape: seq<bool>, ptr0: nat, pc0: nat, dir0: bool, k: nat)
    returns (t: Transition)
    requires pc0 < |prog|
    ensures t == Step(prog, env, State(tape, ptr0, pc0, dir0), k)
  {
    var ptr, pc, dir := ptr0, pc0, dir0;
    if ptr > |tape| {
      return Fault(BoundsError);
    }
    var lit := false;
    if prog[pc].Literal? {
      var b := GetLiteral(prog[pc].tag, env, k);
      if b.None? {
        return Stalled;
      }
      lit := b.value;
    }
    match prog[pc] {
      case MoveForward =>
        if dir {
          ptr := ptr + 1;
        } else {
          if ptr == 0 {
            return Fault(BoundsError);
          }
          ptr := ptr - 1;
        }
      case MoveBackward =>
        if dir {
          if ptr == 0 {
            return Fault(BoundsError);
          }
          ptr := ptr - 1;
        } else {
          ptr := ptr + 1;
        }
      case Branch =>
        if ptr >= |tape| {
          return Fault(BoundsError);
        }
        if tape[ptr] {
          pc := pc + 1;
        }
      case Flip =>
        dir := !dir;
      case JumpBack =>
        var j := Brackets.ScanBack(prog, BracketKind, pc);
        if j.None? {
          return Fault(UnmatchedBracket);
        }
        pc := j.value;
      case LoopOpen =>
      case Nand =>
        var r := EditPair(prog, tape, ptr, pc, dir);
        return if r.Ok? then Next(r.value) else Fault(r.error);
      case Swap =>
        var r := EditPair(prog, tape, ptr, pc, dir);
        return if r.Ok? then Next(r.value) else Fault(r.error);
      case _ =>
        var r := EditTape(prog, tape, ptr, pc, dir, lit);
        return if r.Ok? then Next(r.value) else Fault(r.error);
    }
    return Next(State(tape, ptr, pc + 1, dir));
  }

  /** `evaluate`, as the source runs it: a loop over the program that
      updates the tape, the cursor, the program counter and the direction, stopped after `fuel`
      instructions or when an interactive literal can never be answered. */
  method Evaluate(prog: seq<Code>, env: Env, fuel: nat) returns (r: Outcome<string>)
    ensures r == Run(prog, env, fuel)
  {
    var tape: seq<bool> := [false];
    var ptr: nat := 0;
    var dir := true;
    var pc: nat := 0;
    var k: nat := 0;
    while pc < |prog|
      invariant k <= fuel
      invariant Exec(prog, env, State(tape, ptr, pc, dir), k, fuel - k) == Run(prog, env, fuel)
      decreases fuel - k
    {
      if k == fuel {
        return Exhausted;
      }
      var t := Execute(prog, env, tape, ptr, pc, dir, k);
      match t {
        case Fault(e) => return Failed(e);
        case Stalled => return Exhausted;
        case Next(s) =>
          tape, ptr, pc, dir := s.tape, s.ptr, s.pc, s.dir;
      }
      k := k + 1;
    }
    return Halted(Render(tape));
  }

  // ---------------------------------------------------------------------
  // One instruction

  /** Every instruction first requires the cursor to be at most one past
      the end of the tape. */
  lemma CursorCheck(prog: seq<Code>, env: Env, s: State, k: nat)
    requires s.pc < |prog| && s.ptr > |s.tape|
    ensures Step(prog, env, s, k) == Fault(BoundsError)
  {
  }

  /** `+` and `-` move the cursor one cell, in the direction that the flag
      composes with the instruction; a move toward index -1 fails. */
  lemma MoveStep(prog: seq<Code>, env: Env, s: State, k: nat)
    requires s.pc < |prog| && s.ptr <= |s.tape|
    requires prog[s.pc] == MoveForward || prog[s.pc] == MoveBackward
    ensures var up := (prog[s.pc] == MoveForward) == s.dir;
      var t := Step(prog, env, s, k);
      && (t.Fault? <==> !up && s.ptr == 0)
      && (t.Fault? ==> t.error == BoundsError)
      && (t.Next? ==> t.state.tape == s.tape && t.state.pc == s.pc + 1 && t.state.dir == s.dir)
      && (t.Next? ==> t.state.ptr == if up then s.ptr + 1 else s.ptr - 1)
  {
  }

  /** `F` toggles the direction and touches nothing else. */
  lemma FlipStep(prog: seq<Code>, env: Env, s: State, k: nat)
    requires s.pc < |prog| && s.ptr <= |s.tape| && prog[s.pc] == Flip
    ensures Step(prog, env, s, k) == Next(State(s.tape, s.ptr, s.pc + 1, !s.dir))
  {
  }

  /** `N` replaces two neighbouring cells by their NAND: those at the cursor
      and after it when forward, those before the cursor and at it when
      backward; the cursor ends on the new cell. Backward at cell 0 fails. */
  lemma NandStep(prog: seq<Code>, env: Env, s: State, k: nat)
    requires s.pc < |prog| && s.ptr <= |s.tape| && prog[s.pc] == Nand
    ensures var p := if s.dir then s.ptr else s.ptr - 1;
      var t := Step(prog, env, s, k);
      && (t.Next? <==> (s.dir || s.ptr > 0) && p + 1 < |s.tape|)
      && (t.Fault? ==> t.error == BoundsError)
      && (t.Next? ==> t.state.ptr == p && t.state.pc == s.pc + 1 && t.state.dir == s.dir)
      && (t.Next? ==> t.state.tape == s.tape[..p] + [!(s.tape[p] && s.tape[p + 1])] + s.tape[p + 2..])
  {
    var p := if s.dir then s.ptr else s.ptr - 1;
    var t := Step(prog, env, s, k);
    if t.Next? {
      var w := t.state.tape;
      assert w == w[..p] + [w[p]] + w[p + 1..];
    }
  }

  /** `C` inserts a copy of the cell under the cursor beside it: the tape
      grows by one and the cursor stays on a cell holding the same value,
      in both directions. */
  lemma CopyStep(prog: seq<Code>, env: Env, s: State, k: nat)
    requires s.pc < |prog| && s.ptr <= |s.tape| && prog[s.pc] == Copy
    ensures var t := Step(prog, env, s, k);
      && (t.Next? <==> s.ptr < |s.tape|)
      && (t.Fault? ==> t.error == BoundsError)
      && (t.Next? ==> |t.state.tape| == |s.tape| + 1 && t.state.pc == s.pc + 1 && t.state.dir == s.dir)
      && (t.Next? ==> t.state.tape == s.tape[..s.ptr] + [s.tape[s.ptr]] + s.tape[s.ptr..])
      && (t.Next? ==> t.state.ptr == (if s.dir then s.ptr else s.ptr + 1) && t.state.tape[t.state.ptr] == s.tape[s.ptr])
  {
    var t := Step(prog, env, s, k);
    if t.Next? {
      var w := t.state.tape;
      assert w == w[..s.ptr] + [w[s.ptr]] + w[s.ptr + 1..];
    }
  }

  /** `S` exchanges the cell under the cursor with its neighbour in the
      direction of travel, keeping length and every other cell. */
  lemma SwapStep(prog: seq<Code>, env: Env, s: State, k: nat)
    requires s.pc < |prog| && s.ptr <= |s.tape| && prog[s.pc] == Swap
    ensures var q := if s.dir then s.ptr + 1 else s.ptr - 1;
      var t := Step(prog, env, s, k);
      && (t.Next? <==> (s.dir || s.ptr > 0) && s.ptr < |s.tape| && q < |s.tape|)
      && (t.Fault? ==> t.error == BoundsError)
      && (t.Next? ==> |t.state.tape| == |s.tape| && t.state.ptr == s.ptr && t.state.pc == s.pc + 1 && t.state.dir == s.dir)
      && (t.Next? ==> t.state.tape[s.ptr] == s.tape[q] && t.state.tape[q] == s.tape[s.ptr])
      && (t.Next? ==> forall i :: 0 <= i < |s.tape| && i != s.ptr && i != q ==> t.state.tape[i] == s.tape[i])
  {
  }

  /** A literal inserts its value on the cursor's side given by the
      direction (at the cursor when forward, after it when backward) and
      moves the cursor onto the new cell; `I0` and `I1` give false and true.
      An interactive literal at the end of the input makes no progress. */
  lemma LiteralStep(prog: seq<Code>, env: Env, s: State, k: nat)
    requires s.pc < |prog| && s.ptr <= |s.tape| && prog[s.pc].Literal?
    ensures var p := if s.dir then s.ptr else s.ptr + 1;
      var t := Step(prog, env, s, k);
      && (t.Stalled? <==> prog[s.pc].tag == User && env.answer(k).None?)
      && (t.Fault? <==> !t.Stalled? && p > |s.tape|)
      && (t.Fault? ==> t.error == BoundsError)
      && (t.Next? ==> |t.state.tape| == |s.tape| + 1 && t.state.ptr == p && t.state.pc == s.pc + 1 && t.state.dir == s.dir)
      && (t.Next? ==> t.state.tape == s.tape[..p] + [t.state.tape[p]] + s.tape[p..])
      && (t.Next? ==> GetLiteral(prog[s.pc].tag, env, k) == Some(t.state.tape[p]))
      && (t.Next? && prog[s.pc].tag == Zero ==> !t.state.tape[p])
      && (t.Next? && prog[s.pc].tag == One ==> t.state.tape[p])
  {
    var p := if s.dir then s.ptr else s.ptr + 1;
    var t := Step(prog, env, s, k);
    if t.Next? {
      var w := t.state.tape;
      assert w == w[..p] + [w[p]] + w[p + 1..];
    }
  }

  /** `D` removes the cell under the cursor; backward, the cursor then steps
      back, which fails at cell 0. */
  lemma DeleteStep(prog: seq<Code>, env: Env, s: State, k: nat)
    requires s.pc < |prog| && s.ptr <= |s.tape| && prog[s.pc] == Delete
    ensures var t := Step(prog, env, s, k);
      && (t.Next? <==> s.ptr < |s.tape| && (s.dir || s.ptr > 0))
      && (t.Fault? ==> t.error == BoundsError)
      && (t.Next? ==> t.state.tape == s.tape[..s.ptr] + s.tape[s.ptr + 1..] && t.state.pc == s.pc + 1)
      && (t.Next? ==> t.state.ptr == (if s.dir then s.ptr else s.ptr - 1) && t.state.dir == s.dir)
  {
  }

  /** `B` needs a cell under the cursor; on a true cell it skips exactly the
      next instruction. */
  lemma BranchStep(prog: seq<Code>, env: Env, s: State, k: nat)
    requires s.pc < |prog| && s.ptr <= |s.tape| && prog[s.pc] == Branch
    ensures var t := Step(prog, env, s, k);
      && (t.Next? <==> s.ptr < |s.tape|)
      && (t.Fault? ==> t.error == BoundsError)
      && (t.Next? ==> t.state.tape == s.tape && t.state.ptr == s.ptr && t.state.dir == s.dir)
      && (t.Next? ==> t.state.pc == if s.tape[s.ptr] then s.pc + 2 else s.pc + 1)
  {
  }

  /** `]` resumes just after its matching `[` and fails exactly when the
      scan runs past the first instruction; `[` does nothing. */
  lemma BracketStep(prog: seq<Code>, env: Env, s: State, k: nat)
    requires s.pc < |prog| && s.ptr <= |s.tape|
    requires prog[s.pc] == JumpBack || prog[s.pc] == LoopOpen
    ensures var t := Step(prog, env, s, k);
      && !t.Stalled?
      && (t.Next? ==> t.state.tape == s.tape && t.state.ptr == s.ptr && t.state.dir == s.dir)
      && (prog[s.pc] == LoopOpen ==> t.Next? && t.state.pc == s.pc + 1)
      && (prog[s.pc] == JumpBack && t.Next? ==>
            t.state.pc >= 1 && prog[t.state.pc - 1] == LoopOpen &&
            Brackets.IsMatch(prog, BracketKind, t.state.pc - 1, s.pc))
      && (prog[s.pc] == JumpBack ==>
            (t.Fault? <==> forall j :: 0 <= j < s.pc ==> Brackets.Depth(prog, BracketKind, j, s.pc) > 0))
      && (t.Fault? ==> t.error == UnmatchedBracket)
  {
    Brackets.MatchOpenSpec(prog, BracketKind, s.pc);
  }

  // ---------------------------------------------------------------------
  // Whole runs

  /** The program uses only the constant literal sources. */
  predicate ConstantLiterals(prog: seq<Code>)
  {
    forall i :: 0 <= i < |prog| && prog[i].Literal? ==> prog[i].tag == Zero || prog[i].tag == One
  }

  /** More budget does not change a run that already ended. */
  lemma {:induction false} ExecMoreFuel(prog: seq<Code>, env: Env, s: State, k: nat, fuel: nat, extra: nat)
    requires Exec(prog, env, s, k, fuel) != Exhausted
    ensures Exec(prog, env, s, k, fuel + extra) == Exec(prog, env, s, k, fuel)
    decreases fuel
  {
    if s.pc < |prog| && fuel > 0 {
      match Step(prog, env, s, k)
      case Fault(_) =>
      case Stalled =>
      case Next(s') => ExecMoreFuel(prog, env, s', k + 1, fuel - 1, extra);
    }
  }

  /** A program whose literals are all `I0` or `I1` is deterministic: its run
      depends neither on the clock nor on the input. */
  lemma {:induction false} ExecDeterministic(prog: seq<Code>, e1: Env, e2: Env, s: State, k1: nat, k2: nat, fuel: nat)
    requires ConstantLiterals(prog)
    ensures Exec(prog, e1, s, k1, fuel) == Exec(prog, e2, s, k2, fuel)
    decreases fuel
  {
    if s.pc < |prog| && fuel > 0 {
      assert Step(prog, e1, s, k1) == Step(prog, e2, s, k2);
      match Step(prog, e1, s, k1)
      case Fault(_) =>
      case Stalled =>
      case Next(s') => ExecDeterministic(prog, e1, e2, s', k1 + 1, k2 + 1, fuel - 1);
    }
  }

  /** An `IU` met after the input has ended never lets the run finish. */
  lemma StalledNeverHalts(prog: seq<Code>, env: Env, s: State, k: nat, fuel: nat)
    requires s.pc < |prog| && s.ptr <= |s.tape| && prog[s.pc] == Literal(User) && env.answer(k).None?
    ensures Exec(prog, env, s, k, fuel) == Exhausted
  {
  }

  /** The empty program returns the initial tape, a single `0`. */
  lemma EmptyProgram(env: Env, fuel: nat)
    ensures Run([], env, fuel) == Halted("0")
  {
    RenderZero();
  }

  lemma RenderZero()
    ensures Render([false]) == "0"
  {
    assert Render([false])[0] == '0';
  }

  function Lit(b: bool): LitType
  {
    if b then One else Zero
  }

  /** `F` then a literal puts the new cell after the initial one, while a
      literal alone puts it before. */
  lemma LiteralSides(env: Env, a: bool)
    ensures Run([Literal(Lit(a))], env, 1) == Halted(Render([a, false]))
    ensures Run([Flip, Literal(Lit(a))], env, 2) == Halted(Render([false, a]))
  {
    var p := [Literal(Lit(a))];
    assert GetLiteral(Lit(a), env, 0) == Some(a);
    Vec.InsertFront([false], a);
    assert [a] + [false] == [a, false];
    assert Step(p, env, Init, 0) == Next(State([a, false], 0, 1, true));
    var q := [Flip, Literal(Lit(a))];
    assert Step(q, env, Init, 0) == Next(State([false], 0, 1, false));
    assert GetLiteral(Lit(a), env, 1) == Some(a);
    assert [false][..1] + [a] + [false][1..] == [false, a];
    assert Step(q, env, State([false], 0, 1, false), 1) == Next(State([false, a], 1, 2, false));
  }

  /** The NAND truth table, forward: a literal, then `N` on it and the
      initial `0` cell, leaves `!(a && false)`, which is true. */
  lemma NandWithInitialCell(env: Env, a: bool)
    ensures Run([Literal(Lit(a)), Nand], env, 2) == Halted("1")
  {
    var p := [Literal(Lit(a)), Nand];
    assert GetLiteral(Lit(a), env, 0) == Some(a);
    Vec.InsertFront([false], a);
    assert [a] + [false] == [a, false];
    assert Step(p, env, Init, 0) == Next(State([a, false], 0, 1, true));
    assert Step(p, env, State([a, false], 0, 1, true), 1) == Next(State([true], 0, 2, true)) by {
      NandNext(p, env, State([a, false], 0, 1, true), 1, 0);
      assert [a, false][..0] + [!(a && false)] + [a, false][2..] == [true];
    }
    assert Render([true]) == "1" by {
      assert Render([true])[0] == '1';
    }
  }

  /** Backward at cell 0, `N`, `-` (which then moves up) and `D` behave
      differently: `N` and `D` fail, `-` succeeds. */
  lemma BackwardAtZero(env: Env)
    ensures Run([Flip, Nand], env, 2) == Failed(BoundsError)
    ensures Run([Flip, Delete], env, 2) == Failed(BoundsError)
    ensures Run([Flip, MoveForward], env, 2) == Failed(BoundsError)
    ensures Run([Flip, MoveBackward], env, 2) == Halted("0")
  {
    assert Step([Flip, Nand], env, Init, 0) == Next(State([false], 0, 1, false));
    assert Step([Flip, Delete], env, Init, 0) == Next(State([false], 0, 1, false));
    assert Step([Flip, MoveForward], env, Init, 0) == Next(State([false], 0, 1, false));
    assert Step([Flip, MoveBackward], env, Init, 0) == Next(State([false], 0, 1, false));
    RenderZero();
  }

  // ---------------------------------------------------------------------
  // Direction as reflection

  /** The tape read from the other end. */
  function Reverse(v: seq<bool>): (r: seq<bool>)
    ensures |r| == |v|
  {
    seq(|v|, i requires 0 <= i < |v| => v[|v| - 1 - i])
  }

  /** The same machine seen in a mirror: the tape reversed, the cursor on
      the same cell, the direction flipped. */
  function Mirror(s: State): (m: State)
    requires s.ptr < |s.tape|
    ensures m.ptr < |m.tape| && m.tape[m.ptr] == s.tape[s.ptr]
  {
    State(Reverse(s.tape), |s.tape| - 1 - s.ptr, s.pc, !s.dir)
  }

  lemma ReverseConcat(a: seq<bool>, b: seq<bool>)
    ensures Reverse(a + b) == Reverse(b) + Reverse(a)
  {
    assert forall i :: 0 <= i < |b| ==> Reverse(a + b)[i] == Reverse(b)[i];
  }

  lemma ReverseSingle(x: bool)
    ensures Reverse([x]) == [x]
  {
    assert Reverse([x])[0] == x;
  }

  /** The reversed tape cut at `j`. */
  lemma ReverseCut(v: seq<bool>, j: nat)
    requires j <= |v|
    ensures Reverse(v)[..|v| - j] == Reverse(v[j..])
    ensures Reverse(v)[|v| - j..] == Reverse(v[..j])
  {
    assert v == v[..j] + v[j..];
    ReverseConcat(v[..j], v[j..]);
  }

  /** Inserting `x` at `j` reads, from the other end, as inserting it at
      `|v| - j`. */
  lemma ReverseInsert(v: seq<bool>, j: nat, x: bool)
    requires j <= |v|
    ensures Reverse(v[..j] + [x] + v[j..]) == Reverse(v)[..|v| - j] + [x] + Reverse(v)[|v| - j..]
  {
    var a, b := v[..j], v[j..];
    var ra, rb := Reverse(a), Reverse(b);
    assert Reverse(v)[..|v| - j] == rb && Reverse(v)[|v| - j..] == ra by {
      ReverseCut(v, j);
    }
    assert Reverse(a + [x] + b) == rb + ([x] + ra) by {
      ReverseConcat(a + [x], b);
      ReverseConcat(a, [x]);
      ReverseSingle(x);
    }
    assert rb + ([x] + ra) == rb + [x] + ra;
  }

  /** Replacing the two cells at `j` and `j + 1` by `x` reads, from the
      other end, as replacing those at `|v| - 2 - j` and `|v| - 1 - j`. */
  lemma ReverseReplacePair(v: seq<bool>, j: nat, x: bool)
    requires j + 1 < |v|
    ensures Reverse(v[..j] + [x] + v[j + 2..]) == Reverse(v)[..|v| - 2 - j] + [x] + Reverse(v)[|v| - j..]
  {
    var a, b := v[..j], v[j + 2..];
    var ra, rb := Reverse(a), Reverse(b);
    assert Reverse(v)[..|v| - 2 - j] == rb by {
      ReverseCut(v, j + 2);
    }
    assert Reverse(v)[|v| - j..] == ra by {
      ReverseCut(v, j);
    }
    assert Reverse(a + [x] + b) == rb + ([x] + ra) by {
      ReverseConcat(a + [x], b);
      ReverseConcat(a, [x]);
      ReverseSingle(x);
    }
    assert rb + ([x] + ra) == rb + [x] + ra;
  }

  lemma NandNext(prog: seq<Code>, env: Env, s: State, k: nat, q: nat)
    requires s.pc < |prog| && s.ptr <= |s.tape| && prog[s.pc] == Nand
    requires q == (if s.dir then s.ptr else s.ptr - 1) && q + 1 < |s.tape|
    ensures Step(prog, env, s, k) == Next(State(s.tape[..q] + [!(s.tape[q] && s.tape[q + 1])] + s.tape[q + 2..], q, s.pc + 1, s.dir))
  {
    NandStep(prog, env, s, k);
  }

  lemma NandEnabled(prog: seq<Code>, env: Env, s: State, k: nat)
    requires s.pc < |prog| && prog[s.pc] == Nand && Step(prog, env, s, k).Next?
    ensures s.ptr <= |s.tape| && (s.dir || s.ptr > 0) && (if s.dir then s.ptr else s.ptr - 1) + 1 < |s.tape|
  {
  }

  /** The state after `N`, seen in the mirror, is the state `N` leaves in
      the mirror: the same two cells, read in the other order. */
  lemma MirrorNandState(s: State, q: nat)
    requires s.ptr < |s.tape| && q == (if s.dir then s.ptr else s.ptr - 1) && q + 1 < |s.tape|
    ensures var m := Mirror(s);
      var w := m.tape;
      var q' := if m.dir then m.ptr else m.ptr - 1;
      && q' + 1 < |w|
      && Mirror(State(s.tape[..q] + [!(s.tape[q] && s.tape[q + 1])] + s.tape[q + 2..], q, s.pc + 1, s.dir))
         == State(w[..q'] + [!(w[q'] && w[q' + 1])] + w[q' + 2..], q', s.pc + 1, m.dir)
  {
    var v, n := s.tape, |s.tape|;
    var m := Mirror(s);
    var w := m.tape;
    assert w == Reverse(v) && m.ptr == n - 1 - s.ptr && m.dir == !s.dir;
    var q' := n - 2 - q;
    assert q' == if m.dir then m.ptr else m.ptr - 1;
    var x := !(v[q] && v[q + 1]);
    var v' := v[..q] + [x] + v[q + 2..];
    assert |v'| == n - 1;
    ReverseReplacePair(v, q, x);
    assert Mirror(State(v', q, s.pc + 1, s.dir)) == State(Reverse(v'), q', s.pc + 1, m.dir);
  }

  lemma MirrorNand(prog: seq<Code>, env: Env, s: State, k: nat)
    requires s.pc < |prog| && s.ptr < |s.tape| && prog[s.pc] == Nand
    requires Step(prog, env, s, k).Next?
    requires Step(prog, env, s, k).state.ptr < |Step(prog, env, s, k).state.tape|
    ensures Step(prog, env, Mirror(s), k) == Next(Mirror(Step(prog, env, s, k).state))
  {
    var q := if s.dir then s.ptr else s.ptr - 1;
    NandEnabled(prog, env, s, k);
    NandNext(prog, env, s, k, q);
    var m := Mirror(s);
    var w, q' := m.tape, if m.dir then m.ptr else m.ptr - 1;
    MirrorNandState(s, q);
    NandNext(prog, env, m, k, q');
    var x := State(s.tape[..q] + [!(s.tape[q] && s.tape[q + 1])] + s.tape[q + 2..], q, s.pc + 1, s.dir);
    var y := State(w[..q'] + [!(w[q'] && w[q' + 1])] + w[q' + 2..], q', m.pc + 1, m.dir);
    assert Step(prog, env, s, k) == Next(x);
    assert Step(prog, env, m, k) == Next(y);
    assert Mirror(x) == y;
  }

  lemma CopyNext(prog: seq<Code>, env: Env, s: State, k: nat)
    requires s.pc < |prog| && s.ptr < |s.tape| && prog[s.pc] == Copy
    ensures Step(prog, env, s, k)
         == Next(State(s.tape[..s.ptr] + [s.tape[s.ptr]] + s.tape[s.ptr..], if s.dir then s.ptr else s.ptr + 1, s.pc + 1, s.dir))
  {
    CopyStep(prog, env, s, k);
  }

  /** The state after `C`, seen in the mirror, is the state `C` leaves in
      the mirror: two equal cells where one was, the cursor on the one
      further along the direction of travel. */
  lemma MirrorCopyState(s: State)
    requires s.ptr < |s.tape|
    ensures var m := Mirror(s);
      var v, p := s.tape, s.ptr;
      var w, p' := m.tape, m.ptr;
      Mirror(State(v[..p] + [v[p]] + v[p..], if s.dir then p else p + 1, s.pc + 1, s.dir))
      == State(w[..p'] + [w[p']] + w[p'..], if m.dir then p' else p' + 1, s.pc + 1, m.dir)
  {
    var v, p := s.tape, s.ptr;
    // the insertion index may as well be `p + 1` as `p`
    assert v[..p] + [v[p]] + v[p..] == v[..p + 1] + [v[p]] + v[p + 1..] by {
      assert v[..p + 1] == v[..p] + [v[p]];
      assert v[p..] == [v[p]] + v[p + 1..];
    }
    ReverseInsert(v, p + 1, v[p]);
  }

  lemma MirrorCopy(prog: seq<Code>, env: Env, s: State, k: nat)
    requires s.pc < |prog| && s.ptr < |s.tape| && prog[s.pc] == Copy
    requires Step(prog, env, s, k).Next?
    requires Step(prog, env, s, k).state.ptr < |Step(prog, env, s, k).state.tape|
    ensures Step(prog, env, Mirror(s), k) == Next(Mirror(Step(prog, env, s, k).state))
  {
    CopyNext(prog, env, s, k);
    CopyNext(prog, env, Mirror(s), k);
    MirrorCopyState(s);
  }

  lemma SwapNext(prog: seq<Code>, env: Env, s: State, k: nat, q: nat)
    requires s.pc < |prog| && s.ptr < |s.tape| && prog[s.pc] == Swap
    requires (s.dir || s.ptr > 0) && q == (if s.dir then s.ptr + 1 else s.ptr - 1) && q < |s.tape|
    ensures Step(prog, env, s, k) == Next(State(s.tape[s.ptr := s.tape[q]][q := s.tape[s.ptr]], s.ptr, s.pc + 1, s.dir))
  {
  }

  /** The state after `S`, seen in the mirror, is the state `S` leaves in
      the mirror: the same two cells exchanged. */
  lemma MirrorSwapState(s: State, q: nat)
    requires s.ptr < |s.tape| && (s.dir || s.ptr > 0)
    requires q == (if s.dir then s.ptr + 1 else s.ptr - 1) && q < |s.tape|
    ensures var m := Mirror(s);
      var w, p' := m.tape, m.ptr;
      var q' := if m.dir then p' + 1 else p' - 1;
      && (m.dir || p' > 0) && q' < |w|
      && Mirror(State(s.tape[s.ptr := s.tape[q]][q := s.tape[s.ptr]], s.ptr, s.pc + 1, s.dir))
         == State(w[p' := w[q']][q' := w[p']], p', s.pc + 1, m.dir)
  {
    var v, p, n := s.tape, s.ptr, |s.tape|;
    var w := Reverse(v);
    var p', q' := n - 1 - p, n - 1 - q;
    var v' := v[p := v[q]][q := v[p]];
    var a := Reverse(v');
    var b := w[p' := w[q']][q' := w[p']];
    forall i | 0 <= i < n
      ensures a[i] == b[i]
    {
      if i == p' {
        assert a[i] == v[q] && b[i] == w[q'];
      } else if i == q' {
        assert a[i] == v[p] && b[i] == w[p'];
      } else {
        assert a[i] == v[n - 1 - i] && b[i] == w[i];
      }
    }
  }

  lemma MirrorSwap(prog: seq<Code>, env: Env, s: State, k: nat)
    requires s.pc < |prog| && s.ptr < |s.tape| && prog[s.pc] == Swap
    requires Step(prog, env, s, k).Next?
    requires Step(prog, env, s, k).state.ptr < |Step(prog, env, s, k).state.tape|
    ensures Step(prog, env, Mirror(s), k) == Next(Mirror(Step(prog, env, s, k).state))
  {
    var q := if s.dir then s.ptr + 1 else s.ptr - 1;
    SwapStep(prog, env, s, k);
    SwapNext(prog, env, s, k, q);
    var m := Mirror(s);
    MirrorSwapState(s, q);
    SwapNext(prog, env, m, k, if m.dir then m.ptr + 1 else m.ptr - 1);
  }

  lemma LiteralNext(prog: seq<Code>, env: Env, s: State, k: nat, b: bool)
    requires s.pc < |prog| && prog[s.pc].Literal? && (if s.dir then s.ptr else s.ptr + 1) <= |s.tape|
    requires GetLiteral(prog[s.pc].tag, env, k) == Some(b)
    ensures var p := if s.dir then s.ptr else s.ptr + 1;
      Step(prog, env, s, k) == Next(State(s.tape[..p] + [b] + s.tape[p..], p, s.pc + 1, s.dir))
  {
  }

  /** The state after a literal, seen in the mirror, is the state the
      literal leaves in the mirror: the new cell on the far side of the
      cursor in the direction of travel. */
  lemma MirrorLiteralState(s: State, b: bool)
    requires s.ptr < |s.tape|
    ensures var m := Mirror(s);
      var p := if s.dir then s.ptr else s.ptr + 1;
      var p' := if m.dir then m.ptr else m.ptr + 1;
      Mirror(State(s.tape[..p] + [b] + s.tape[p..], p, s.pc + 1, s.dir))
      == State(m.tape[..p'] + [b] + m.tape[p'..], p', s.pc + 1, m.dir)
  {
    var p := if s.dir then s.ptr else s.ptr + 1;
    ReverseInsert(s.tape, p, b);
  }

  lemma MirrorLiteral(prog: seq<Code>, env: Env, s: State, k: nat)
    requires s.pc < |prog| && s.ptr < |s.tape| && prog[s.pc].Literal?
    requires Step(prog, env, s, k).Next?
    requires Step(prog, env, s, k).state.ptr < |Step(prog, env, s, k).state.tape|
    ensures Step(prog, env, Mirror(s), k) == Next(Mirror(Step(prog, env, s, k).state))
  {
    var b := GetLiteral(prog[s.pc].tag, env, k).value;
    LiteralNext(prog, env, s, k, b);
    LiteralNext(prog, env, Mirror(s), k, b);
    MirrorLiteralState(s, b);
  }

  lemma DeleteNext(prog: seq<Code>, env: Env, s: State, k: nat)
    requires s.pc < |prog| && s.ptr < |s.tape| && prog[s.pc] == Delete && (s.dir || s.ptr > 0)
    ensures Step(prog, env, s, k)
         == Next(State(s.tape[..s.ptr] + s.tape[s.ptr + 1..], if s.dir then s.ptr else s.ptr - 1, s.pc + 1, s.dir))
  {
    DeleteStep(prog, env, s, k);
  }

  /** Removing the cell at `j` reads, from the other end, as removing the
      one at `|v| - 1 - j`. */
  lemma ReverseRemove(v: seq<bool>, j: nat)
    requires j < |v|
    ensures Reverse(v[..j] + v[j + 1..]) == Reverse(v)[..|v| - 1 - j] + Reverse(v)[|v| - j..]
  {
    assert Reverse(v)[|v| - j..] == Reverse(v[..j]) by {
      ReverseCut(v, j);
    }
    assert Reverse(v)[..|v| - 1 - j] == Reverse(v[j + 1..]) by {
      ReverseCut(v, j + 1);
    }
    ReverseConcat(v[..j], v[j + 1..]);
  }

  /** The state after `D`, seen in the mirror, is the state `D` leaves in
      the mirror, when the cursor lands on a cell in both. */
  lemma MirrorDeleteState(s: State)
    requires s.ptr < |s.tape| && (if s.dir then s.ptr + 1 < |s.tape| else s.ptr > 0)
    ensures var m := Mirror(s);
      var v, p := s.tape, s.ptr;
      var w, p' := m.tape, m.ptr;
      && (m.dir || p' > 0)
      && Mirror(State(v[..p] + v[p + 1..], if s.dir then p else p - 1, s.pc + 1, s.dir))
         == State(w[..p'] + w[p' + 1..], if m.dir then p' else p' - 1, s.pc + 1, m.dir)
  {
    ReverseRemove(s.tape, s.ptr);
  }

  lemma MirrorDelete(prog: seq<Code>, env: Env, s: State, k: nat)
    requires s.pc < |prog| && s.ptr < |s.tape| && prog[s.pc] == Delete
    requires Step(prog, env, s, k).Next?
    requires Step(prog, env, s, k).state.ptr < |Step(prog, env, s, k).state.tape|
    ensures Step(prog, env, Mirror(s), k) == Next(Mirror(Step(prog, env, s, k).state))
  {
    DeleteStep(prog, env, s, k);
    DeleteNext(prog, env, s, k);
    MirrorDeleteState(s);
    DeleteNext(prog, env, Mirror(s), k);
  }

  /** The direction flag is a reflection: whenever an instruction moves a
      state with the cursor on a cell to another such state, it moves the
      mirrored state to the mirrored result. Backward is forward read from
      the other end of the tape. */
  lemma MirrorStep(prog: seq<Code>, env: Env, s: State, k: nat)
    requires s.pc < |prog| && s.ptr < |s.tape|
    requires Step(prog, env, s, k).Next?
    requires Step(prog, env, s, k).state.ptr < |Step(prog, env, s, k).state.tape|
    ensures Step(prog, env, Mirror(s), k) == Next(Mirror(Step(prog, env, s, k).state))
  {
    match prog[s.pc] {
      case Nand => MirrorNand(prog, env, s, k);
      case Copy => MirrorCopy(prog, env, s, k);
      case Swap => MirrorSwap(prog, env, s, k);
      case Literal(_) => MirrorLiteral(prog, env, s, k);
      case Delete => MirrorDelete(prog, env, s, k);
      case _ =>
    }
  }
}
