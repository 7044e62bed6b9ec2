/** The interpreter of NANDPROP.rs: a tape that starts empty, no direction
    flag, three literal sources (Zero, One, User), an Emit instruction that
    outputs the cell under the cursor, and a NAND computed in place. */
module NandProp {
  import opened Base
  import Vec
  import Brackets

  datatype LitType = Zero | One | User

  datatype Code =
    | MoveForward        // +
    | MoveBackward       // -
    | Nand               // N
    | Copy               // C
    | Swap               // S
    | Literal(tag: LitType)  // I0 I1 IU
    | Emit               // E
    | Delete             // D
    | Branch             // B
    | JumpBack           // ]
    | LoopOpen           // [

  /** `get_literal`: Zero and One are constants, User asks the interactive
      input, whose end is the only way to get no value. */
  function GetLiteral(t: LitType, env: Env, k: nat): (r: Option<bool>)
    ensures (t == Zero || t == One) ==> r == Some(t == One)
    ensures r.None? <==> t == User && env.answer(k).None?
  {
    match t
    case Zero => Some(false)
    case One => Some(true)
    case User => env.answer(k)
  }

  /** `changes_arr`: whether the trace shows the tape after the instruction. */
  function ChangesArr(op: Code): bool
  {
    match op
    case MoveForward => true
    case MoveBackward => true
    case Nand => true
    case Copy => true
    case Swap => true
    case Literal(_) => true
    case Emit => false
    case Delete => true
    case Branch => false
    case JumpBack => false
    case LoopOpen => false
  }

  /** The single-character opcodes; `I` is handled apart. */
  function Symbol(c: char): Option<Code>
  {
    match c
    case '+' => Some(MoveForward)
    case '-' => Some(MoveBackward)
    case 'N' => Some(Nand)
    case 'C' => Some(Copy)
    case 'S' => Some(Swap)
    case 'E' => Some(Emit)
    case 'D' => Some(Delete)
    case 'B' => Some(Branch)
    case ']' => Some(JumpBack)
    case '[' => Some(LoopOpen)
    case _ => None
  }

  /** The characters allowed after `I`. */
  function Tag(c: char): Option<LitType>
  {
    match c
    case '0' => Some(Zero)
    case '1' => Some(One)
    case 'U' => Some(User)
    case _ => None
  }

  /** What `parse` returns for `s`: one left-to-right pass; `I` takes the next
      character as its tag, and a missing or unknown tag is a syntax error. */
  function Parsed(s: string): Result<seq<Code>>
    decreases |s|
  {
    if s == [] then Ok([])
    else if s[0] == 'I' then
      if |s| == 1 then Err(SyntaxError)
      else match Tag(s[1])
        case None => Err(SyntaxError)
        case Some(t) => Prepend([Literal(t)], Parsed(s[2..]))
    else match Symbol(s[0])
      case None => Parsed(s[1..])
      case Some(op) => Prepend([op], Parsed(s[1..]))
  }

  /** `parse`, as the source runs it: one pass pushing onto the program. */
  method Parse(s: string) returns (r: Result<seq<Code>>)
    ensures r == Parsed(s)
  {
    var prog: seq<Code> := [];
    var i := 0;
    while i < |s|
      invariant i <= |s|
      invariant Parsed(s) == Prepend(prog, Parsed(s[i..]))
    {
      var c := s[i];
      assert s[i..][1..] == s[i + 1..];
      i := i + 1;
      if c == 'I' {
        if i == |s| {
          return Err(SyntaxError);
        }
        var t := Tag(s[i]);
        if t.None? {
          return Err(SyntaxError);
        }
        assert s[i - 1..][2..] == s[i + 1..];
        PrependAssoc(prog, [Literal(t.value)], Parsed(s[i + 1..]));
        prog := prog + [Literal(t.value)];
        i := i + 1;
      } else {
        var op := Symbol(c);
        if op.Some? {
          PrependAssoc(prog, [op.value], Parsed(s[i..]));
          prog := prog + [op.value];
        }
      }
    }
    assert s[i..] == [];
    assert prog + [] == prog;
    return Ok(prog);
  }

  /** The text of one opcode. */
  function Text(op: Code): string
  {
    match op
    case MoveForward => "+"
    case MoveBackward => "-"
    case Nand => "N"
    case Copy => "C"
    case Swap => "S"
    case Literal(t) => ['I', match t case Zero => '0' case One => '1' case User => 'U']
    case Emit => "E"
    case Delete => "D"
    case Branch => "B"
    case JumpBack => "]"
    case LoopOpen => "["
  }

  /** The source text of a program, opcode by opcode. */
  function Source(prog: seq<Code>): string
  {
    if prog == [] then [] else Text(prog[0]) + Source(prog[1..])
  }

  /** A prefix that parses leaves no dangling `I`, so parsing a concatenation
      is parsing the two parts. */
  lemma {:induction false} ParsedConcat(p: string, q: string)
    requires Parsed(p).Ok?
    ensures Parsed(p + q) == Prepend(Parsed(p).value, Parsed(q))
    decreases |p|
  {
    if p == [] {
      assert p + q == q;
      assert Parsed(q) == Prepend([], Parsed(q));
    } else if p[0] == 'I' {
      assert (p + q)[2..] == p[2..] + q;
      ParsedConcat(p[2..], q);
      PrependAssoc([Literal(Tag(p[1]).value)], Parsed(p[2..]).value, Parsed(q));
    } else {
      assert (p + q)[1..] == p[1..] + q;
      ParsedConcat(p[1..], q);
      if Symbol(p[0]).Some? {
        PrependAssoc([Symbol(p[0]).value], Parsed(p[1..]).value, Parsed(q));
      }
    }
  }

  lemma ParseText(op: Code)
    ensures Parsed(Text(op)) == Ok([op])
  {
    var t := Text(op);
    if op.Literal? {
      assert t[0] == 'I' && |t| == 2;
      assert Tag(t[1]) == Some(op.tag);
      assert t[2..] == [];
      assert [Literal(op.tag)] + [] == [op];
    } else {
      assert |t| == 1 && t[0] != 'I';
      assert Symbol(t[0]) == Some(op);
      assert t[1..] == [];
      assert [op] + [] == [op];
    }
  }

  /** Parsing the text of a program gives back the program. */
  lemma {:induction false} ParseSource(prog: seq<Code>)
    ensures Parsed(Source(prog)) == Ok(prog)
  {
    if prog != [] {
      var t := Text(prog[0]);
      ParseText(prog[0]);
      ParsedConcat(t, Source(prog[1..]));
      ParseSource(prog[1..]);
      assert [prog[0]] + prog[1..] == prog;
    }
  }

  /** Comments are transparent: a character that is neither a symbol nor
      `I`, placed after a prefix that parses, adds no opcode. */
  lemma CommentTransparent(p: string, c: char, q: string)
    requires Parsed(p).Ok?
    requires c != 'I' && Symbol(c).None?
    ensures Parsed(p + [c] + q) == Parsed(p + q)
  {
    assert Parsed([c] + q) == Parsed(q) by {
      assert ([c] + q)[1..] == q;
    }
    ParsedConcat(p, [c] + q);
    ParsedConcat(p, q);
    assert p + [c] + q == p + ([c] + q);
  }

  /** After a prefix that parses, `I` followed by an unknown tag character, or
      by nothing at all, is a syntax error. */
  lemma LiteralNeedsTag(p: string, c: char, q: string)
    requires Parsed(p).Ok?
    requires Tag(c).None?
    ensures Parsed(p + ['I', c] + q) == Err(SyntaxError)
    ensures Parsed(p + ['I']) == Err(SyntaxError)
  {
    ParsedConcat(p, ['I', c] + q);
    assert p + ['I', c] + q == p + (['I', c] + q);
    ParsedConcat(p, ['I']);
  }

  /** Every opcode comes from at least one character. */
  lemma {:induction false} ParsedLength(s: string)
    requires Parsed(s).Ok?
    ensures |Parsed(s).value| <= |s|
    decreases |s|
  {
    if s == [] {
    } else if s[0] == 'I' {
      ParsedLength(s[2..]);
    } else {
      ParsedLength(s[1..]);
    }
  }

  // ---------------------------------------------------------------------
  // Evaluation

  /** The bit array, the cursor, the program counter, and the bits
      Emit has printed so far. */
  datatype State = State(tape: seq<bool>, ptr: nat, pc: nat, out: seq<bool>)

  /** A run starts with an empty tape, the cursor and the program counter at
      0, and nothing printed. */
  const Init: State := State([], 0, 0, [])

  function BracketKind(op: Code): Brackets.Kind
  {
    match op
    case LoopOpen => Brackets.Open
    case JumpBack => Brackets.Close
    case _ => Brackets.Other
  }

  /** `N` in place: remove the cell at `ptr`, then overwrite the cell that
      moved into `ptr` with the NAND of the two. */
  function NandInPlace(tape: seq<bool>, ptr: nat): (r: Result<seq<bool>>)
    ensures r.Ok? <==> ptr + 1 < |tape|
    ensures r.Ok? ==> |r.value| + 1 == |tape| && r.value[ptr] == !(tape[ptr] && tape[ptr + 1])
    ensures r.Ok? ==> r.value[..ptr] == tape[..ptr] && r.value[ptr + 1..] == tape[ptr + 2..]
    ensures r.Err? ==> r.error == BoundsError
  {
    var first :- Vec.Remove(tape, ptr);
    var b :- Vec.Get(first.1, ptr);
    Ok(first.1[ptr := !(first.0 && b)])
  }

  /** One instruction, the one at `s.pc`; `k` instructions ran before it. */
  function Step(prog: seq<Code>, env: Env, s: State, k: nat): Result<State>
    requires s.pc < |prog|
  {
    var State(tape, ptr, pc, out) := s;
    match prog[pc]
    case MoveForward => Ok(State(tape, ptr + 1, pc + 1, out))
    case MoveBackward =>
      var p :- CheckedDec(ptr);
      Ok(State(tape, p, pc + 1, out))
    case Literal(t) =>
      (match GetLiteral(t, env, k)
       case None => Err(InputError)
       case Some(b) =>
         var tape' :- Vec.Insert(tape, ptr, b);
         Ok(State(tape', ptr, pc + 1, out)))
    case JumpBack =>
      (match Brackets.MatchOpen(prog, BracketKind, pc, 1)
       case None => Err(UnmatchedBracket)
       case Some(j) => Ok(State(tape, ptr, j + 1, out)))
    case LoopOpen => Ok(State(tape, ptr, pc + 1, out))
    case Copy =>
      var a :- Vec.Get(tape, ptr);
      var tape' :- Vec.Insert(tape, ptr, a);
      Ok(State(tape', ptr, pc + 1, out))
    case Branch =>
      var a :- Vec.Get(tape, ptr);
      Ok(State(tape, ptr, if a then pc + 2 else pc + 1, out))
    case Delete =>
      var removed :- Vec.Remove(tape, ptr);
      Ok(State(removed.1, ptr, pc + 1, out))
    case Emit =>
      var a :- Vec.Get(tape, ptr);
      Ok(State(tape, ptr, pc + 1, out + [a]))
    case Nand =>
      var tape' :- NandInPlace(tape, ptr);
      Ok(State(tape', ptr, pc + 1, out))
    case Swap =>
      var tape' :- Vec.Swap(tape, ptr, ptr + 1);
      Ok(State(tape', ptr, pc + 1, out))
  }

  /** Run from `s` for at most `fuel` instructions; a normal halt yields the
      tape, the cursor and everything Emit printed. */
  function Exec(prog: seq<Code>, env: Env, s: State, k: nat, fuel: nat): Outcome<(seq<bool>, nat, seq<bool>)>
    decreases fuel
  {
    if s.pc >= |prog| then Halted((s.tape, s.ptr, s.out))
    else if fuel == 0 then Exhausted
    else match Step(prog, env, s, k)
      case Err(e) => Failed(e)
      case Ok(s') => Exec(prog, env, s', k + 1, fuel - 1)
  }

  /** `evaluate` with a budget of `fuel` instructions. */
  function Run(prog: seq<Code>, env: Env, fuel: nat): Outcome<(seq<bool>, nat, seq<bool>)>
  {
    Exec(prog, env, Init, 0, fuel)
  }

  /** The bits `E` has written by the time the run from `s` stops, whether
      it halts, fails or runs out of budget: each bit is printed as it is
      emitted, so a run that fails later keeps what it has printed. */
  function Printed(prog: seq<Code>, env: Env, s: State, k: nat, fuel: nat): (o: seq<bool>)
    ensures |s.out| <= |o| && o[..|s.out|] == s.out
    decreases fuel
  {
    if s.pc >= |prog| || fuel == 0 then s.out
    else match Step(prog, env, s, k)
      case Err(_) => s.out
      case Ok(s') =>
        var o := Printed(prog, env, s', k + 1, fuel - 1);
        assert s'.out[..|s.out|] == s.out;
        assert o[..|s.out|] == o[..|s'.out|][..|s.out|];
        o
  }

  /** What a run of `evaluate` with a budget of `fuel` instructions prints. */
  function Output(prog: seq<Code>, env: Env, fuel: nat): seq<bool>
  {
    Printed(prog, env, Init, 0, fuel)
  }

  /** One instruction of a run with budget left: the run and what it prints
      continue from the state the instruction leaves, or stop at its error. */
  lemma ExecUnfold(prog: seq<Code>, env: Env, s: State, k: nat, fuel: nat)
    requires s.pc < |prog| && fuel > 0
    ensures var r := Step(prog, env, s, k);
      && (r.Err? ==> Exec(prog, env, s, k, fuel) == Failed(r.error) && Printed(prog, env, s, k, fuel) == s.out)
      && (r.Ok? ==> Exec(prog, env, s, k, fuel) == Exec(prog, env, r.value, k + 1, fuel - 1))
      && (r.Ok? ==> Printed(prog, env, s, k, fuel) == Printed(prog, env, r.value, k + 1, fuel - 1))
  {
  }

  /** One pass of the loop body of `evaluate`: the instruction at `pc`,
      performed on the tape in place, then the step to the next instruction. */
  method Execute(prog: seq<Code>, env: Env, tape0: seq<bool>, ptr0: nat, pc0: nat, out0: seq<bool>, k: nat)
    returns (r: Result<State>)
    requires pc0 < |prog|
    ensures r == Step(prog, env, State(tape0, ptr0, pc0, out0), k)
  {
    var tape, ptr, pc, out := tape0, ptr0, pc0, out0;
    match prog[pc] {
      case MoveForward =>
        ptr := ptr + 1;
      case MoveBackward =>
        if ptr == 0 {
          return Err(BoundsError);
        }
        ptr := ptr - 1;
      case Literal(t) =>
        var b := GetLiteral(t, env, k);
        if b.None? {
          return Err(InputError);
        }
        if ptr > |tape| {
          return Err(BoundsError);
        }
        tape := tape[..ptr] + [b.value] + tape[ptr..];
      case JumpBack =>
        var j := Brackets.ScanBack(prog, BracketKind, pc);
        if j.None? {
          return Err(UnmatchedBracket);
        }
        pc := j.value;
      case LoopOpen =>
      case Copy =>
        if ptr >= |tape| {
          return Err(BoundsError);
        }
        var a := tape[ptr];
        tape := tape[..ptr] + [a] + tape[ptr..];
      case Branch =>
        if ptr >= |tape| {
          return Err(BoundsError);
        }
        if tape[ptr] {
          pc := pc + 1;
        }
      case Delete =>
        if ptr >= |tape| {
          return Err(BoundsError);
        }
        tape := tape[..ptr] + tape[ptr + 1..];
      case Emit =>
        if ptr >= |tape| {
          return Err(BoundsError);
        }
        out := out + [tape[ptr]];
      case Nand =>
        if ptr >= |tape| {
          return Err(BoundsError);
        }
        var a := tape[ptr];
        tape := tape[..ptr] + tape[ptr + 1..];
        if ptr >= |tape| {
          return Err(BoundsError);
        }
        tape := tape[ptr := !(a && tape[ptr])];
      case Swap =>
        if ptr + 1 >= |tape| {
          return Err(BoundsError);
        }
        tape := tape[ptr := tape[ptr + 1]][ptr + 1 := tape[ptr]];
    }
    return Ok(State(tape, ptr, pc + 1, out));
  }

  /** `evaluate`, as the source runs it: a loop that edits the tape in place,
      moves the cursor and the program counter and appends emitted bits to
      the output, stopped after `fuel` instructions. `printed` is what `E`
      has written by the time it stops. */
  method Evaluate(prog: seq<Code>, env: Env, fuel: nat) returns (r: Outcome<(seq<bool>, nat, seq<bool>)>, printed: seq<bool>)
    ensures r == Run(prog, env, fuel)
    ensures printed == Output(prog, env, fuel)
  {
    var tape: seq<bool> := [];
    var ptr: nat := 0;
    var pc: nat := 0;
    var out: seq<bool> := [];
    var k: nat := 0;
    while pc < |prog|
      invariant k <= fuel
      invariant Exec(prog, env, State(tape, ptr, pc, out), k, fuel - k) == Run(prog, env, fuel)
      invariant Printed(prog, env, State(tape, ptr, pc, out), k, fuel - k) == Output(prog, env, fuel)
      decreases fuel - k
    {
      if k == fuel {
        return Exhausted, out;
      }
      ExecUnfold(prog, env, State(tape, ptr, pc, out), k, fuel - k);
      var next := Execute(prog, env, tape, ptr, pc, out, k);
      if next.Err? {
        return Failed(next.error), out;
      }
      tape, ptr, pc, out := next.value.tape, next.value.ptr, next.value.pc, next.value.out;
      k := k + 1;
    }
    return Halted((tape, ptr, out)), out;
  }


  // ---------------------------------------------------------------------
  // What one instruction does

  /** The instructions for which `changes_arr` is false (Emit, Branch, `]`,
      `[`) leave the tape and the cursor as they were. */
  lemma ChangesArrSound(prog: seq<Code>, env: Env, s: State, k: nat)
    requires s.pc < |prog| && !ChangesArr(prog[s.pc])
    requires Step(prog, env, s, k).Ok?
    ensures Step(prog, env, s, k).value.tape == s.tape
    ensures Step(prog, env, s, k).value.ptr == s.ptr
  {
  }

  /** Emit is the only instruction that prints: it needs a cell under the
      cursor and appends exactly that cell to the output; every other
      instruction leaves the output as it was. */
  lemma EmitStep(prog: seq<Code>, env: Env, s: State, k: nat)
    requires s.pc < |prog|
    ensures var r := Step(prog, env, s, k);
      && (prog[s.pc] == Emit ==> (r.Ok? <==> s.ptr < |s.tape|))
      && (prog[s.pc] == Emit && r.Ok? ==> r.value.out == s.out + [s.tape[s.ptr]] && r.value.pc == s.pc + 1)
      && (prog[s.pc] != Emit && r.Ok? ==> r.value.out == s.out)
  {
  }

  /** `N` in place: the tape shrinks by one, the cell at the cursor becomes
      the NAND of the old cells at `ptr` and `ptr + 1`, the cells before the
      cursor stay, and it fails when `ptr + 1` is out of range. */
  lemma NandStep(prog: seq<Code>, env: Env, s: State, k: nat)
    requires s.pc < |prog| && prog[s.pc] == Nand
    ensures var r := Step(prog, env, s, k);
      && (r.Ok? <==> s.ptr + 1 < |s.tape|)
      && (r.Err? ==> r.error == BoundsError)
      && (r.Ok? ==> r.value.ptr == s.ptr && r.value.pc == s.pc + 1)
      && (r.Ok? ==> r.value.tape == s.tape[..s.ptr] + [!(s.tape[s.ptr] && s.tape[s.ptr + 1])] + s.tape[s.ptr + 2..])
  {
    var r := Step(prog, env, s, k);
    if r.Ok? {
      var t := r.value.tape;
      assert t == t[..s.ptr] + [t[s.ptr]] + t[s.ptr + 1..];
    }
  }

  /** `S` exchanges the cells at `ptr` and `ptr + 1`, keeps the length and
      every other cell, and fails when either is out of range. */
  lemma SwapStep(prog: seq<Code>, env: Env, s: State, k: nat)
    requires s.pc < |prog| && prog[s.pc] == Swap
    ensures var r := Step(prog, env, s, k);
      && (r.Ok? <==> s.ptr + 1 < |s.tape|)
      && (r.Err? ==> r.error == BoundsError)
      && (r.Ok? ==> |r.value.tape| == |s.tape| && r.value.ptr == s.ptr && r.value.pc == s.pc + 1)
      && (r.Ok? ==> r.value.tape[s.ptr] == s.tape[s.ptr + 1] && r.value.tape[s.ptr + 1] == s.tape[s.ptr])
      && (r.Ok? ==> forall i :: 0 <= i < |s.tape| && i != s.ptr && i != s.ptr + 1 ==> r.value.tape[i] == s.tape[i])
  {
  }

  /** `I0` and `I1` insert false and true at the cursor; the tape grows by
      one. `-` at cursor 0 fails. */
  lemma LiteralStep(prog: seq<Code>, env: Env, s: State, k: nat)
    requires s.pc < |prog| && (prog[s.pc].Literal? || prog[s.pc] == MoveBackward)
    ensures var r := Step(prog, env, s, k);
      && (prog[s.pc] == MoveBackward ==> (r.Err? <==> s.ptr == 0))
      && (prog[s.pc] == MoveBackward && r.Err? ==> r.error == BoundsError)
      && (prog[s.pc] == MoveBackward && r.Ok? ==> r.value == State(s.tape, s.ptr - 1, s.pc + 1, s.out))
      && (prog[s.pc].Literal? && prog[s.pc].tag != User ==> (r.Ok? <==> s.ptr <= |s.tape|))
      && (prog[s.pc].Literal? && prog[s.pc].tag == User && env.answer(k).None? ==> r == Err(InputError))
      && (prog[s.pc].Literal? && GetLiteral(prog[s.pc].tag, env, k).Some? ==> (r.Ok? <==> s.ptr <= |s.tape|))
      && (prog[s.pc].Literal? && r.Err? ==> r.error == (if GetLiteral(prog[s.pc].tag, env, k).None? then InputError else BoundsError))
      && (prog[s.pc].Literal? && r.Ok? ==> GetLiteral(prog[s.pc].tag, env, k) == Some(r.value.tape[s.ptr]))
      && (prog[s.pc].Literal? && r.Ok? ==> |r.value.tape| == |s.tape| + 1 && r.value.ptr == s.ptr)
      && (prog[s.pc].Literal? && r.Ok? ==> r.value.pc == s.pc + 1 && r.value.out == s.out)
      && (prog[s.pc].Literal? && r.Ok? ==> r.value.tape == s.tape[..s.ptr] + [r.value.tape[s.ptr]] + s.tape[s.ptr..])
      && (prog[s.pc] == Literal(Zero) && r.Ok? ==> !r.value.tape[s.ptr])
      && (prog[s.pc] == Literal(One) && r.Ok? ==> r.value.tape[s.ptr])
  {
    var r := Step(prog, env, s, k);
    if prog[s.pc].Literal? && r.Ok? {
      var t := r.value.tape;
      assert t == t[..s.ptr] + [t[s.ptr]] + t[s.ptr + 1..];
    }
  }

  /** `C` needs a cell under the cursor and puts a copy of it beside it;
      `D` needs one and removes exactly it. Both keep the cursor. */
  lemma CopyDeleteStep(prog: seq<Code>, env: Env, s: State, k: nat)
    requires s.pc < |prog| && (prog[s.pc] == Copy || prog[s.pc] == Delete)
    ensures var r := Step(prog, env, s, k);
      && (r.Ok? <==> s.ptr < |s.tape|)
      && (r.Err? ==> r.error == BoundsError)
      && (r.Ok? ==> r.value.ptr == s.ptr && r.value.pc == s.pc + 1 && r.value.out == s.out)
      && (prog[s.pc] == Copy && r.Ok? ==> r.value.tape == s.tape[..s.ptr] + [s.tape[s.ptr]] + s.tape[s.ptr..])
      && (prog[s.pc] == Delete && r.Ok? ==> r.value.tape == s.tape[..s.ptr] + s.tape[s.ptr + 1..])
  {
    var r := Step(prog, env, s, k);
    if prog[s.pc] == Copy && r.Ok? {
      var t := r.value.tape;
      assert t == t[..s.ptr] + [t[s.ptr]] + t[s.ptr + 1..];
    }
  }

  /** `B` on a true cell advances the program counter by 2, otherwise by 1;
      `]` with no matching `[` fails. */
  lemma ControlStep(prog: seq<Code>, env: Env, s: State, k: nat)
    requires s.pc < |prog| && (prog[s.pc] == Branch || prog[s.pc] == JumpBack)
    ensures var r := Step(prog, env, s, k);
      && (prog[s.pc] == Branch ==> (r.Ok? <==> s.ptr < |s.tape|))
      && (prog[s.pc] == Branch && r.Ok? ==> r.value.pc == if s.tape[s.ptr] then s.pc + 2 else s.pc + 1)
      && (prog[s.pc] == JumpBack && r.Ok? ==>
            r.value.pc >= 1 && prog[r.value.pc - 1] == LoopOpen &&
            Brackets.IsMatch(prog, BracketKind, r.value.pc - 1, s.pc))
      && (prog[s.pc] == JumpBack ==>
            (r.Err? <==> forall j :: 0 <= j < s.pc ==> Brackets.Depth(prog, BracketKind, j, s.pc) > 0))
      && (prog[s.pc] == JumpBack && r.Err? ==> r.error == UnmatchedBracket)
  {
    Brackets.MatchOpenSpec(prog, BracketKind, s.pc);
  }

  // ---------------------------------------------------------------------
  // Whole runs

  /** The program uses only the constant literal sources. */
  predicate ConstantLiterals(prog: seq<Code>)
  {
    forall i :: 0 <= i < |prog| && prog[i].Literal? ==> prog[i].tag == Zero || prog[i].tag == One
  }

  /** More budget does not change a run that already ended. */
  lemma {:induction false} ExecMoreFuel(prog: seq<Code>, env: Env, s: State, k: nat, fuel: nat, extra: nat)
    requires Exec(prog, env, s, k, fuel) != Exhausted
    ensures Exec(prog, env, s, k, fuel + extra) == Exec(prog, env, s, k, fuel)
    decreases fuel
  {
    if s.pc < |prog| && fuel > 0 {
      match Step(prog, env, s, k)
      case Err(_) =>
      case Ok(s') => ExecMoreFuel(prog, env, s', k + 1, fuel - 1, extra);
    }
  }

  /** A program whose literals are all `I0` or `I1` does not depend on the
      input. */
  lemma {:induction false} ExecDeterministic(prog: seq<Code>, e1: Env, e2: Env, s: State, k1: nat, k2: nat, fuel: nat)
    requires ConstantLiterals(prog)
    ensures Exec(prog, e1, s, k1, fuel) == Exec(prog, e2, s, k2, fuel)
    decreases fuel
  {
    if s.pc < |prog| && fuel > 0 {
      assert Step(prog, e1, s, k1) == Step(prog, e2, s, k2);
      match Step(prog, e1, s, k1)
      case Err(_) =>
      case Ok(s') => ExecDeterministic(prog, e1, e2, s', k1 + 1, k2 + 1, fuel - 1);
    }
  }

  /** The output only grows: whatever a run halts with starts with what had
      been printed when it was started. */
  lemma {:induction false} OutputOnlyGrows(prog: seq<Code>, env: Env, s: State, k: nat, fuel: nat)
    requires Exec(prog, env, s, k, fuel).Halted?
    ensures |s.out| <= |Exec(prog, env, s, k, fuel).value.2|
    ensures Exec(prog, env, s, k, fuel).value.2[..|s.out|] == s.out
    decreases fuel
  {
    if s.pc < |prog| {
      EmitStep(prog, env, s, k);
      var s' := Step(prog, env, s, k).value;
      OutputOnlyGrows(prog, env, s', k + 1, fuel - 1);
      assert s'.out[..|s.out|] == s.out;
    }
  }

  function Lit(b: bool): LitType
  {
    if b then One else Zero
  }

  /** A run that halts reports exactly what was printed along the way. */
  lemma {:induction false} HaltedPrinted(prog: seq<Code>, env: Env, s: State, k: nat, fuel: nat)
    ensures Exec(prog, env, s, k, fuel).Halted? ==> Exec(prog, env, s, k, fuel).value.2 == Printed(prog, env, s, k, fuel)
    decreases fuel
  {
    if s.pc < |prog| && fuel > 0 {
      match Step(prog, env, s, k) {
        case Err(_) =>
        case Ok(s') => HaltedPrinted(prog, env, s', k + 1, fuel - 1);
      }
    }
  }

  /** A program that prints and then panics: `I1 E -` fails on the `-`, and
      the `1` it emitted has already been printed. */
  lemma PrintedBeforeFailure(env: Env)
    ensures Run([Literal(One), Emit, MoveBackward], env, 3) == Failed(BoundsError)
    ensures Output([Literal(One), Emit, MoveBackward], env, 3) == [true]
  {
    var p := [Literal(One), Emit, MoveBackward];
    Vec.InsertFront([], true);
    assert [true] + [] == [true];
    assert Step(p, env, Init, 0) == Ok(State([true], 0, 1, []));
    assert Step(p, env, State([true], 0, 1, []), 1) == Ok(State([true], 0, 2, [true]));
  }

  /** `I1[E]`: the loop body of an endless emitter. */
  const Beacon: seq<Code> := [Literal(One), LoopOpen, Emit, JumpBack]

  /** Each pass of `[E]` prints one more `1` and never halts: with a budget
      of `2 * n` instructions from the loop body, the run is exhausted and
      `n` more bits have been printed. */
  lemma {:induction false} BeaconPrints(env: Env, out: seq<bool>, k: nat, n: nat)
    ensures Exec(Beacon, env, State([true], 0, 2, out), k, 2 * n) == Exhausted
    ensures |Printed(Beacon, env, State([true], 0, 2, out), k, 2 * n)| == |out| + n
    decreases n
  {
    if n > 0 {
      var emitted := State([true], 0, 3, out + [true]);
      assert Step(Beacon, env, State([true], 0, 2, out), k) == Ok(emitted);
      assert Brackets.MatchOpen(Beacon, BracketKind, 3, 1) == Some(1) by {
        assert Brackets.MatchOpen(Beacon, BracketKind, 1, 0) == Some(1);
      }
      assert Step(Beacon, env, emitted, k + 1) == Ok(State([true], 0, 2, out + [true]));
      BeaconPrints(env, out + [true], k + 2, n - 1);
    }
  }

  /** A program that emits forever prints without bound: for every `n`, a
      budget of `2 + 2 * n` instructions leaves it running, with `n` bits
      printed. */
  lemma EndlessEmitter(env: Env, n: nat)
    ensures Run(Beacon, env, 2 + 2 * n) == Exhausted
    ensures |Output(Beacon, env, 2 + 2 * n)| == n
  {
    Vec.InsertFront([], true);
    assert [true] + [] == [true];
    assert Step(Beacon, env, Init, 0) == Ok(State([true], 0, 1, []));
    var s1, s2 := State([true], 0, 1, []), State([true], 0, 2, []);
    assert Step(Beacon, env, s1, 1) == Ok(s2);
    BeaconPrints(env, [], 2, n);
    assert Exec(Beacon, env, s1, 1, 1 + 2 * n) == Exec(Beacon, env, s2, 2, 2 * n);
    assert Printed(Beacon, env, s1, 1, 1 + 2 * n) == Printed(Beacon, env, s2, 2, 2 * n);
  }

  /** A literal and an Emit print the literal's value and leave it on the
      tape. */
  lemma EmitLiteral(env: Env, a: bool)
    ensures Run([Literal(Lit(a)), Emit], env, 2) == Halted(([a], 0, [a]))
  {
    var p := [Literal(Lit(a)), Emit];
    Vec.InsertFront([], a);
    assert [a] + [] == [a];
    assert GetLiteral(Lit(a), env, 0) == Some(a);
    assert Step(p, env, Init, 0) == Ok(State([a], 0, 1, []));
    assert Step(p, env, State([a], 0, 1, []), 1) == Ok(State([a], 0, 2, [a]));
  }

  /** The NAND truth table: two literals and `N` leave their NAND alone on
      the tape. */
  lemma NandTruthTable(env: Env, a: bool, b: bool)
    ensures Run([Literal(Lit(a)), Literal(Lit(b)), Nand], env, 3) == Halted(([!(a && b)], 0, []))
  {
    var p := [Literal(Lit(a)), Literal(Lit(b)), Nand];
    Vec.InsertFront([], a);
    assert [a] + [] == [a];
    assert GetLiteral(Lit(a), env, 0) == Some(a);
    assert Step(p, env, Init, 0) == Ok(State([a], 0, 1, []));
    Vec.InsertFront([a], b);
    assert [b] + [a] == [b, a];
    assert GetLiteral(Lit(b), env, 1) == Some(b);
    assert Step(p, env, State([a], 0, 1, []), 1) == Ok(State([b, a], 0, 2, []));
    var n := NandInPlace([b, a], 0);
    assert n.Ok? && |n.value| == 1 && n.value[0] == !(a && b);
    assert n.value == [!(a && b)];
    assert Step(p, env, State([b, a], 0, 2, []), 2) == Ok(State([!(a && b)], 0, 3, []));
  }
}
