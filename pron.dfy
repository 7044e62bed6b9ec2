/** The interpreter of PRON.rs: a tape that starts empty, a cursor with no
    direction flag, and four literal sources (Zero, One, Random, User). */
module Pron {
  import opened Base
  import Vec
  import Brackets

  datatype LitType = Zero | One | Random | User

  datatype Code =
    | MoveForward        // +
    | MoveBackward       // -
    | Nand               // N
    | Copy               // C
    | Swap               // S
    | Literal(tag: LitType)  // I0 I1 IR IU
    | Delete             // D
    | Branch             // B
    | JumpBack           // ]
    | LoopOpen           // [

  /** `get_literal`: Zero and One are constants, Random reads the clock
      through the remainder table, User asks the interactive input, whose end
      is the only way to get no value. */
  function GetLiteral(t: LitType, env: Env, k: nat): (r: Option<bool>)
    ensures (t == Zero || t == One) ==> r == Some(t == One)
    ensures t == Random ==> r.Some? && (r.value <==> env.micros(k) % 10 in {1, 3, 4, 7, 9})
    ensures r.None? <==> t == User && env.answer(k).None?
  {
    match t
    case Zero => Some(false)
    case One => Some(true)
    case Random => Some(RandomBit(env.micros(k) % 10))
    case User => env.answer(k)
  }

  /** The single-character opcodes; `I` is handled apart. */
  function Symbol(c: char): Option<Code>
  {
    match c
    case '+' => Some(MoveForward)
    case '-' => Some(MoveBackward)
    case 'N' => Some(Nand)
    case 'C' => Some(Copy)
    case 'S' => Some(Swap)
    case 'D' => Some(Delete)
    case 'B' => Some(Branch)
    case ']' => Some(JumpBack)
    case '[' => Some(LoopOpen)
    case _ => None
  }

  /** The characters allowed after `I`. */
  function Tag(c: char): Option<LitType>
  {
    match c
    case '0' => Some(Zero)
    case '1' => Some(One)
    case 'R' => Some(Random)
    case 'U' => Some(User)
    case _ => None
  }

  /** What `parse` returns for `s`: one left-to-right pass; `I` takes the next
      character as its tag, and a missing or unknown tag is a syntax error. */
  function Parsed(s: string): Result<seq<Code>>
    decreases |s|
  {
    if s == [] then Ok([])
    else if s[0] == 'I' then
      if |s| == 1 then Err(SyntaxError)
      else match Tag(s[1])
        case None => Err(SyntaxError)
        case Some(t) => Prepend([Literal(t)], Parsed(s[2..]))
    else match Symbol(s[0])
      case None => Parsed(s[1..])
      case Some(op) => Prepend([op], Parsed(s[1..]))
  }

  /** `parse`, as the source runs it: one pass pushing onto the program. */
  method Parse(s: string) returns (r: Result<seq<Code>>)
    ensures r == Parsed(s)
  {
    var prog: seq<Code> := [];
    var i := 0;
    while i < |s|
      invariant i <= |s|
      invariant Parsed(s) == Prepend(prog, Parsed(s[i..]))
    {
      var c := s[i];
      assert s[i..][1..] == s[i + 1..];
      i := i + 1;
      if c == 'I' {
        if i == |s| {
          return Err(SyntaxError);
        }
        var t := Tag(s[i]);
        if t.None? {
          return Err(SyntaxError);
        }
        assert s[i - 1..][2..] == s[i + 1..];
        PrependAssoc(prog, [Literal(t.value)], Parsed(s[i + 1..]));
        prog := prog + [Literal(t.value)];
        i := i + 1;
      } else {
        var op := Symbol(c);
        if op.Some? {
          PrependAssoc(prog, [op.value], Parsed(s[i..]));
          prog := prog + [op.value];
        }
      }
    }
    assert s[i..] == [];
    assert prog + [] == prog;
    return Ok(prog);
  }

  /** The text of one opcode. */
  function Text(op: Code): string
  {
    match op
    case MoveForward => "+"
    case MoveBackward => "-"
    case Nand => "N"
    case Copy => "C"
    case Swap => "S"
    case Literal(t) => ['I', match t case Zero => '0' case One => '1' case Random => 'R' case User => 'U']
    case Delete => "D"
    case Branch => "B"
    case JumpBack => "]"
    case LoopOpen => "["
  }

  /** The source text of a program, opcode by opcode. */
  function Source(prog: seq<Code>): string
  {
    if prog == [] then [] else Text(prog[0]) + Source(prog[1..])
  }

  /** A prefix that parses leaves no dangling `I`, so parsing a concatenation
      is parsing the two parts. */
  lemma {:induction false} ParsedConcat(p: string, q: string)
    requires Parsed(p).Ok?
    ensures Parsed(p + q) == Prepend(Parsed(p).value, Parsed(q))
    decreases |p|
  {
    if p == [] {
      assert p + q == q;
      assert Parsed(q) == Prepend([], Parsed(q));
    } else if p[0] == 'I' {
      assert (p + q)[2..] == p[2..] + q;
      ParsedConcat(p[2..], q);
      PrependAssoc([Literal(Tag(p[1]).value)], Parsed(p[2..]).value, Parsed(q));
    } else {
      assert (p + q)[1..] == p[1..] + q;
      ParsedConcat(p[1..], q);
      if Symbol(p[0]).Some? {
        PrependAssoc([Symbol(p[0]).value], Parsed(p[1..]).value, Parsed(q));
      }
    }
  }

  lemma ParseText(op: Code)
    ensures Parsed(Text(op)) == Ok([op])
  {
    var t := Text(op);
    if op.Literal? {
      assert t[0] == 'I' && |t| == 2;
      assert Tag(t[1]) == Some(op.tag);
      assert t[2..] == [];
      assert [Literal(op.tag)] + [] == [op];
    } else {
      assert |t| == 1 && t[0] != 'I';
      assert Symbol(t[0]) == Some(op);
      assert t[1..] == [];
      assert [op] + [] == [op];
    }
  }

  /** Parsing the text of a program gives back the program. */
  lemma {:induction false} ParseSource(prog: seq<Code>)
    ensures Parsed(Source(prog)) == Ok(prog)
  {
    if prog != [] {
      var t := Text(prog[0]);
      ParseText(prog[0]);
      ParsedConcat(t, Source(prog[1..]));
      ParseSource(prog[1..]);
      assert [prog[0]] + prog[1..] == prog;
    }
  }

  /** Comments are transparent: a character that is neither a symbol nor
      `I`, placed after a prefix that parses, adds no opcode. */
  lemma CommentTransparent(p: string, c: char, q: string)
    requires Parsed(p).Ok?
    requires c != 'I' && Symbol(c).None?
    ensures Parsed(p + [c] + q) == Parsed(p + q)
  {
    assert Parsed([c] + q) == Parsed(q) by {
      assert ([c] + q)[1..] == q;
    }
    ParsedConcat(p, [c] + q);
    ParsedConcat(p, q);
    assert p + [c] + q == p + ([c] + q);
  }

  /** After a prefix that parses, `I` followed by an unknown tag character, or
      by nothing at all, is a syntax error. */
  lemma LiteralNeedsTag(p: string, c: char, q: string)
    requires Parsed(p).Ok?
    requires Tag(c).None?
    ensures Parsed(p + ['I', c] + q) == Err(SyntaxError)
    ensures Parsed(p + ['I']) == Err(SyntaxError)
  {
    ParsedConcat(p, ['I', c] + q);
    assert p + ['I', c] + q == p + (['I', c] + q);
    ParsedConcat(p, ['I']);
  }

  /** Every opcode comes from at least one character. */
  lemma {:induction false} ParsedLength(s: string)
    requires Parsed(s).Ok?
    ensures |Parsed(s).value| <= |s|
    decreases |s|
  {
    if s == [] {
    } else if s[0] == 'I' {
      ParsedLength(s[2..]);
    } else {
      ParsedLength(s[1..]);
    }
  }

  // ---------------------------------------------------------------------
  // Evaluation

  /** The bit array, the cursor and the program counter. */
  datatype State = State(tape: seq<bool>, ptr: nat, pc: nat)

  /** A run starts with an empty tape, the cursor and the program counter at 0. */
  const Init: State := State([], 0, 0)

  function BracketKind(op: Code): Brackets.Kind
  {
    match op
    case LoopOpen => Brackets.Open
    case JumpBack => Brackets.Close
    case _ => Brackets.Other
  }

  /** One instruction, the one at `s.pc`; `k` instructions ran before it. */
  function Step(prog: seq<Code>, env: Env, s: State, k: nat): Result<State>
    requires s.pc < |prog|
  {
    var State(tape, ptr, pc) := s;
    match prog[pc]
    case MoveForward => Ok(State(tape, ptr + 1, pc + 1))
    case MoveBackward =>
      var p :- CheckedDec(ptr);
      Ok(State(tape, p, pc + 1))
    case Literal(t) =>
      (match GetLiteral(t, env, k)
       case None => Err(InputError)
       case Some(b) =>
         var tape' :- Vec.Insert(tape, ptr, b);
         Ok(State(tape', ptr, pc + 1)))
    case JumpBack =>
      (match Brackets.MatchOpen(prog, BracketKind, pc, 1)
       case None => Err(UnmatchedBracket)
       case Some(j) => Ok(State(tape, ptr, j + 1)))
    case LoopOpen => Ok(State(tape, ptr, pc + 1))
    case Copy =>
      var a :- Vec.Get(tape, ptr);
      var tape' :- Vec.Insert(tape, ptr, a);
      Ok(State(tape', ptr, pc + 1))
    case Branch =>
      var a :- Vec.Get(tape, ptr);
      Ok(State(tape, ptr, if a then pc + 2 else pc + 1))
    case Delete =>
      var removed :- Vec.Remove(tape, ptr);
      Ok(State(removed.1, ptr, pc + 1))
    case Nand =>
      var tape' :- Vec.NandCells(tape, ptr);
      Ok(State(tape', ptr, pc + 1))
    case Swap =>
      var tape' :- Vec.Swap(tape, ptr, ptr + 1);
      Ok(State(tape', ptr, pc + 1))
  }

  /** Run from `s` for at most `fuel` instructions. */
  function Exec(prog: seq<Code>, env: Env, s: State, k: nat, fuel: nat): Outcome<(seq<bool>, nat)>
    decreases fuel
  {
    if s.pc >= |prog| then Halted((s.tape, s.ptr))
    else if fuel == 0 then Exhausted
    else match Step(prog, env, s, k)
      case Err(e) => Failed(e)
      case Ok(s') => Exec(prog, env, s', k + 1, fuel - 1)
  }

  /** `evaluate` with a budget of `fuel` instructions. */
  function Run(prog: seq<Code>, env: Env, fuel: nat): Outcome<(seq<bool>, nat)>
  {
    Exec(prog, env, Init, 0, fuel)
  }

  /** `evaluate`, as the source runs it: a loop that edits the tape in place
      and moves the cursor and the program counter, stopped after `fuel` instructions. */
  method Evaluate(prog: seq<Code>, env: Env, fuel: nat) returns (r: Outcome<(seq<bool>, nat)>)
    ensures r == Run(prog, env, fuel)
  {
    var tape: seq<bool> := [];
    var ptr: nat := 0;
    var pc: nat := 0;
    var k: nat := 0;
    while pc < |prog|
      invariant k <= fuel
      invariant Exec(prog, env, State(tape, ptr, pc), k, fuel - k) == Run(prog, env, fuel)
      decreases fuel - k
    {
      if k == fuel {
        return Exhausted;
      }
      ghost var before := State(tape, ptr, pc);
      match prog[pc] {
      case MoveForward =>
        ptr := ptr + 1;
      case MoveBackward =>
        if ptr == 0 {
          return Failed(BoundsError);
        }
        ptr := ptr - 1;
      case Literal(t) =>
        var b := GetLiteral(t, env, k);
        if b.None? {
          return Failed(InputError);
        }
        if ptr > |tape| {
          return Failed(BoundsError);
        }
        tape := tape[..ptr] + [b.value] + tape[ptr..];
      case JumpBack =>
        var j := Brackets.ScanBack(prog, BracketKind, pc);
        if j.None? {
          return Failed(UnmatchedBracket);
        }
        pc := j.value;
      case LoopOpen =>
      case Copy =>
        if ptr >= |tape| {
          return Failed(BoundsError);
        }
        var a := tape[ptr];
        tape := tape[..ptr] + [a] + tape[ptr..];
      case Branch =>
        if ptr >= |tape| {
          return Failed(BoundsError);
        }
        if tape[ptr] {
          pc := pc + 1;
        }
      case Delete =>
        if ptr >= |tape| {
          return Failed(BoundsError);
        }
        tape := tape[..ptr] + tape[ptr + 1..];
      case Nand =>
        if ptr + 1 >= |tape| {
          return Failed(BoundsError);
        }
        var a := tape[ptr];
        tape := tape[..ptr] + tape[ptr + 1..];
        var b := tape[ptr];
        tape := tape[..ptr] + tape[ptr + 1..];
        tape := tape[..ptr] + [!(a && b)] + tape[ptr..];
      case Swap =>
        if ptr + 1 >= |tape| {
          return Failed(BoundsError);
        }
        tape := tape[ptr := tape[ptr + 1]][ptr + 1 := tape[ptr]];
      }
      pc := pc + 1;
      k := k + 1;
      assert Step(prog, env, before, k - 1) == Ok(State(tape, ptr, pc));
    }
    return Halted((tape, ptr));
  }

  // ---------------------------------------------------------------------
  // What one instruction does

  /** `+` always succeeds; `-` fails exactly at cursor 0. Neither touches the
      tape. */
  lemma MoveStep(prog: seq<Code>, env: Env, s: State, k: nat)
    requires s.pc < |prog| && (prog[s.pc] == MoveForward || prog[s.pc] == MoveBackward)
    ensures var r := Step(prog, env, s, k);
      && (r.Err? <==> prog[s.pc] == MoveBackward && s.ptr == 0)
      && (r.Err? ==> r.error == BoundsError)
      && (r.Ok? ==> r.value.tape == s.tape && r.value.pc == s.pc + 1)
      && (r.Ok? ==> r.value.ptr == if prog[s.pc] == MoveForward then s.ptr + 1 else s.ptr - 1)
  {
  }

  /** `C` needs a cell under the cursor and grows the tape by one: both the
      cell under the cursor and the one after it hold the copied value, and
      everything after the cursor moves up by one. */
  lemma CopyStep(prog: seq<Code>, env: Env, s: State, k: nat)
    requires s.pc < |prog| && prog[s.pc] == Copy
    ensures var r := Step(prog, env, s, k);
      && (r.Ok? <==> s.ptr < |s.tape|)
      && (r.Err? ==> r.error == BoundsError)
      && (r.Ok? ==> |r.value.tape| == |s.tape| + 1 && r.value.ptr == s.ptr && r.value.pc == s.pc + 1)
      && (r.Ok? ==> r.value.tape[s.ptr] == s.tape[s.ptr] && r.value.tape[s.ptr + 1] == s.tape[s.ptr])
      && (r.Ok? ==> r.value.tape[..s.ptr] == s.tape[..s.ptr] && r.value.tape[s.ptr + 1..] == s.tape[s.ptr..])
  {
  }

  /** `D` needs a cell under the cursor and removes exactly that cell. */
  lemma DeleteStep(prog: seq<Code>, env: Env, s: State, k: nat)
    requires s.pc < |prog| && prog[s.pc] == Delete
    ensures var r := Step(prog, env, s, k);
      && (r.Ok? <==> s.ptr < |s.tape|)
      && (r.Err? ==> r.error == BoundsError)
      && (r.Ok? ==> |r.value.tape| + 1 == |s.tape| && r.value.ptr == s.ptr && r.value.pc == s.pc + 1)
      && (r.Ok? ==> r.value.tape == s.tape[..s.ptr] + s.tape[s.ptr + 1..])
  {
  }

  /** `S` exchanges the cell under the cursor with the next one and keeps the
      rest; it fails when either cell is missing. */
  lemma SwapStep(prog: seq<Code>, env: Env, s: State, k: nat)
    requires s.pc < |prog| && prog[s.pc] == Swap
    ensures var r := Step(prog, env, s, k);
      && (r.Ok? <==> s.ptr + 1 < |s.tape|)
      && (r.Err? ==> r.error == BoundsError)
      && (r.Ok? ==> |r.value.tape| == |s.tape| && r.value.ptr == s.ptr && r.value.pc == s.pc + 1)
      && (r.Ok? ==> r.value.tape[s.ptr] == s.tape[s.ptr + 1] && r.value.tape[s.ptr + 1] == s.tape[s.ptr])
      && (r.Ok? ==> forall i :: 0 <= i < |s.tape| && i != s.ptr && i != s.ptr + 1 ==> r.value.tape[i] == s.tape[i])
  {
  }

  /** `N` replaces the cells at the cursor and after it by their NAND. */
  lemma NandStep(prog: seq<Code>, env: Env, s: State, k: nat)
    requires s.pc < |prog| && prog[s.pc] == Nand
    ensures var r := Step(prog, env, s, k);
      && (r.Ok? <==> s.ptr + 1 < |s.tape|)
      && (r.Err? ==> r.error == BoundsError)
      && (r.Ok? ==> r.value.ptr == s.ptr && r.value.pc == s.pc + 1)
      && (r.Ok? ==> r.value.tape == s.tape[..s.ptr] + [!(s.tape[s.ptr] && s.tape[s.ptr + 1])] + s.tape[s.ptr + 2..])
  {
    var r := Step(prog, env, s, k);
    if r.Ok? {
      var t := r.value.tape;
      assert t == t[..s.ptr] + [t[s.ptr]] + t[s.ptr + 1..];
    }
  }

  /** `I0` and `I1` insert false and true at the cursor, whatever the
      environment; the tape grows by one and the cursor stays on the new
      cell. `IU` fails when the input has ended. */
  lemma LiteralStep(prog: seq<Code>, env: Env, s: State, k: nat)
    requires s.pc < |prog| && prog[s.pc].Literal?
    ensures var r := Step(prog, env, s, k);
      && (prog[s.pc].tag != User ==> (r.Ok? <==> s.ptr <= |s.tape|))
      && (prog[s.pc].tag == User && env.answer(k).None? ==> r == Err(InputError))
      && (GetLiteral(prog[s.pc].tag, env, k).Some? ==> (r.Ok? <==> s.ptr <= |s.tape|))
      && (r.Err? ==> r.error == (if GetLiteral(prog[s.pc].tag, env, k).None? then InputError else BoundsError))
      && (r.Ok? ==> GetLiteral(prog[s.pc].tag, env, k) == Some(r.value.tape[s.ptr]))
      && (r.Ok? ==> |r.value.tape| == |s.tape| + 1 && r.value.ptr == s.ptr && r.value.pc == s.pc + 1)
      && (r.Ok? ==> r.value.tape == s.tape[..s.ptr] + [r.value.tape[s.ptr]] + s.tape[s.ptr..])
      && (r.Ok? && prog[s.pc].tag == Zero ==> !r.value.tape[s.ptr])
      && (r.Ok? && prog[s.pc].tag == One ==> r.value.tape[s.ptr])
  {
    var r := Step(prog, env, s, k);
    if r.Ok? {
      var t := r.value.tape;
      assert t == t[..s.ptr] + [t[s.ptr]] + t[s.ptr + 1..];
    }
  }

  /** `B` needs a cell under the cursor; on a true cell it skips exactly the
      next instruction. It never changes the tape or the cursor. */
  lemma BranchStep(prog: seq<Code>, env: Env, s: State, k: nat)
    requires s.pc < |prog| && prog[s.pc] == Branch
    ensures var r := Step(prog, env, s, k);
      && (r.Ok? <==> s.ptr < |s.tape|)
      && (r.Err? ==> r.error == BoundsError)
      && (r.Ok? ==> r.value.tape == s.tape && r.value.ptr == s.ptr)
      && (r.Ok? ==> r.value.pc == if s.tape[s.ptr] then s.pc + 2 else s.pc + 1)
  {
  }

  /** `]` resumes just after its matching `[` and fails exactly when the
      scan finds none; `[` does nothing. Neither touches tape or cursor. */
  lemma BracketStep(prog: seq<Code>, env: Env, s: State, k: nat)
    requires s.pc < |prog| && (prog[s.pc] == JumpBack || prog[s.pc] == LoopOpen)
    ensures var r := Step(prog, env, s, k);
      && (r.Ok? ==> r.value.tape == s.tape && r.value.ptr == s.ptr)
      && (prog[s.pc] == LoopOpen ==> r.Ok? && r.value.pc == s.pc + 1)
      && (prog[s.pc] == JumpBack && r.Ok? ==>
            r.value.pc >= 1 && prog[r.value.pc - 1] == LoopOpen &&
            Brackets.IsMatch(prog, BracketKind, r.value.pc - 1, s.pc))
      && (prog[s.pc] == JumpBack ==>
            (r.Err? <==> forall j :: 0 <= j < s.pc ==> Brackets.Depth(prog, BracketKind, j, s.pc) > 0))
      && (r.Err? ==> r.error == UnmatchedBracket)
  {
    Brackets.MatchOpenSpec(prog, BracketKind, s.pc);
  }

  // ---------------------------------------------------------------------
  // Whole runs

  /** The program uses only the constant literal sources. */
  predicate ConstantLiterals(prog: seq<Code>)
  {
    forall i :: 0 <= i < |prog| && prog[i].Literal? ==> prog[i].tag == Zero || prog[i].tag == One
  }

  /** More budget does not change a run that already ended. */
  lemma {:induction false} ExecMoreFuel(prog: seq<Code>, env: Env, s: State, k: nat, fuel: nat, extra: nat)
    requires Exec(prog, env, s, k, fuel) != Exhausted
    ensures Exec(prog, env, s, k, fuel + extra) == Exec(prog, env, s, k, fuel)
    decreases fuel
  {
    if s.pc < |prog| && fuel > 0 {
      match Step(prog, env, s, k)
      case Err(_) =>
      case Ok(s') => ExecMoreFuel(prog, env, s', k + 1, fuel - 1, extra);
    }
  }

  /** A program whose literals are all `I0` or `I1` is deterministic: its run
      depends neither on the clock nor on the input. */
  lemma {:induction false} ExecDeterministic(prog: seq<Code>, e1: Env, e2: Env, s: State, k1: nat, k2: nat, fuel: nat)
    requires ConstantLiterals(prog)
    ensures Exec(prog, e1, s, k1, fuel) == Exec(prog, e2, s, k2, fuel)
    decreases fuel
  {
    if s.pc < |prog| && fuel > 0 {
      assert Step(prog, e1, s, k1) == Step(prog, e2, s, k2);
      match Step(prog, e1, s, k1)
      case Err(_) =>
      case Ok(s') => ExecDeterministic(prog, e1, e2, s', k1 + 1, k2 + 1, fuel - 1);
    }
  }

  /** `[]` never halts: with any budget the run is still going. */
  lemma {:induction false} EmptyLoopRunsForever(env: Env, s: State, k: nat, fuel: nat)
    requires s.pc <= 1
    ensures Exec([LoopOpen, JumpBack], env, s, k, fuel) == Exhausted
    decreases fuel
  {
    var prog := [LoopOpen, JumpBack];
    if fuel > 0 {
      if s.pc == 1 {
        assert Brackets.MatchOpen(prog, BracketKind, 1, 1) == Some(0);
      }
      EmptyLoopRunsForever(env, Step(prog, env, s, k).value, k + 1, fuel - 1);
    }
  }

  function Lit(b: bool): LitType
  {
    if b then One else Zero
  }

  /** A literal alone leaves a one-cell tape holding its value. */
  lemma LiteralAlone(env: Env, a: bool)
    ensures Run([Literal(Lit(a))], env, 1) == Halted(([a], 0))
  {
    var p := [Literal(Lit(a))];
    Vec.InsertFront([], a);
    assert [a] + [] == [a];
    assert GetLiteral(Lit(a), env, 0) == Some(a);
    assert Step(p, env, Init, 0) == Ok(State([a], 0, 1));
  }

  /** The NAND truth table: two literals and `N` leave their NAND alone on
      the tape. */
  lemma NandTruthTable(env: Env, a: bool, b: bool)
    ensures Run([Literal(Lit(a)), Literal(Lit(b)), Nand], env, 3) == Halted(([!(a && b)], 0))
  {
    var p := [Literal(Lit(a)), Literal(Lit(b)), Nand];
    Vec.InsertFront([], a);
    assert [a] + [] == [a];
    assert GetLiteral(Lit(a), env, 0) == Some(a);
    assert Step(p, env, Init, 0) == Ok(State([a], 0, 1));
    Vec.InsertFront([a], b);
    assert [b] + [a] == [b, a];
    assert GetLiteral(Lit(b), env, 1) == Some(b);
    assert Step(p, env, State([a], 0, 1), 1) == Ok(State([b, a], 0, 2));
    var n := Vec.NandCells([b, a], 0);
    assert n.Ok? && |n.value| == 1 && n.value[0] == !(a && b);
    assert n.value == [!(a && b)];
    assert Step(p, env, State([b, a], 0, 2), 2) == Ok(State([!(a && b)], 0, 3));
  }

  /** A lone `]` fails with an unmatched bracket, a lone `-` with a bounds
      error. */
  lemma LoneInstructionsFail(env: Env)
    ensures Run([JumpBack], env, 1) == Failed(UnmatchedBracket)
    ensures Run([MoveBackward], env, 1) == Failed(BoundsError)
  {
    assert Brackets.MatchOpen([JumpBack], BracketKind, 0, 1) == None;
  }

  /** A Branch on a true cell skips exactly the next instruction: `I1 B I0
      I1` runs `I1`, `B`, then the second `I1`. */
  lemma BranchSkipsOne(env: Env)
    ensures Run([Literal(One), Branch, Literal(Zero), Literal(One)], env, 3) == Halted(([true, true], 0))
  {
    var p := [Literal(One), Branch, Literal(Zero), Literal(One)];
    Vec.InsertFront([], true);
    assert [true] + [] == [true];
    assert Step(p, env, Init, 0) == Ok(State([true], 0, 1));
    assert Step(p, env, State([true], 0, 1), 1) == Ok(State([true], 0, 3));
    Vec.InsertFront([true], true);
    assert [true] + [true] == [true, true];
    assert Step(p, env, State([true], 0, 3), 2) == Ok(State([true, true], 0, 4));
  }
}
