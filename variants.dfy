/** How the interpreters of NANDPROP.rs and PRON.rs relate: the two ways
    they compute a NAND edit give the same tape, and a NANDPROP.rs program
    without `E` runs exactly as the PRON.rs program with the same symbols. */
module Variants {
  import opened Base
  import Vec
  import Brackets
  import NandProp
  import Pron

  /** NANDPROP.rs's NAND (one `remove`, then an in-place write) and
      PRON.rs's (two `remove`s and an `insert`) fail on the same tapes and
      otherwise leave the same tape. */
  lemma NandEditsAgree(tape: seq<bool>, ptr: nat)
    ensures NandProp.NandInPlace(tape, ptr) == Vec.NandCells(tape, ptr)
  {
    var a := NandProp.NandInPlace(tape, ptr);
    var b := Vec.NandCells(tape, ptr);
    if a.Ok? {
      var u, w := a.value, b.value;
      assert u == u[..ptr] + [u[ptr]] + u[ptr + 1..];
      assert w == w[..ptr] + [w[ptr]] + w[ptr + 1..];
    }
  }

  function LitOf(t: NandProp.LitType): Pron.LitType
  {
    match t
    case Zero => Pron.Zero
    case One => Pron.One
    case User => Pron.User
  }

  /** The PRON.rs opcode written with the same symbol; `E` has none. */
  function CodeOf(op: NandProp.Code): Option<Pron.Code>
  {
    match op
    case MoveForward => Some(Pron.MoveForward)
    case MoveBackward => Some(Pron.MoveBackward)
    case Nand => Some(Pron.Nand)
    case Copy => Some(Pron.Copy)
    case Swap => Some(Pron.Swap)
    case Literal(t) => Some(Pron.Literal(LitOf(t)))
    case Emit => None
    case Delete => Some(Pron.Delete)
    case Branch => Some(Pron.Branch)
    case JumpBack => Some(Pron.JumpBack)
    case LoopOpen => Some(Pron.LoopOpen)
  }

  predicate EmitFree(prog: seq<NandProp.Code>)
  {
    forall i :: 0 <= i < |prog| ==> prog[i] != NandProp.Emit
  }

  /** The same program as PRON.rs opcodes. */
  function Translate(prog: seq<NandProp.Code>): (q: seq<Pron.Code>)
    requires EmitFree(prog)
    ensures |q| == |prog|
    ensures forall i :: 0 <= i < |prog| ==> CodeOf(prog[i]) == Some(q[i])
  {
    seq(|prog|, i requires 0 <= i < |prog| => CodeOf(prog[i]).value)
  }

  /** A NANDPROP.rs outcome with the output left out. */
  function Forget(o: Outcome<(seq<bool>, nat, seq<bool>)>): Outcome<(seq<bool>, nat)>
  {
    match o
    case Halted(v) => Halted((v.0, v.1))
    case Failed(e) => Failed(e)
    case Exhausted => Exhausted
  }

  /** The two scans of `]` find the same `[`. */
  lemma ScansAgree(prog: seq<NandProp.Code>, pc: nat)
    requires EmitFree(prog) && pc <= |prog|
    ensures Brackets.MatchOpen(prog, NandProp.BracketKind, pc, 1)
         == Brackets.MatchOpen(Translate(prog), Pron.BracketKind, pc, 1)
  {
    var q := Translate(prog);
    forall k | 0 <= k < |prog|
      ensures NandProp.BracketKind(prog[k]) == Pron.BracketKind(q[k])
    {
      assert CodeOf(prog[k]) == Some(q[k]);
    }
    Brackets.MatchOpenSameKinds(prog, NandProp.BracketKind, q, Pron.BracketKind, pc, 1);
  }

  /** What the PRON.rs step of `s` must be for the two steps to agree. */
  predicate SameStep(prog: seq<NandProp.Code>, env: Env, s: NandProp.State, k: nat)
    requires EmitFree(prog) && s.pc < |prog|
  {
    var r := NandProp.Step(prog, env, s, k);
    var q := Pron.Step(Translate(prog), env, Pron.State(s.tape, s.ptr, s.pc), k);
    && r.Ok? == q.Ok?
    && (r.Err? ==> r.error == q.error)
    && (r.Ok? ==> q.value == Pron.State(r.value.tape, r.value.ptr, r.value.pc) && r.value.out == s.out)
  }

  lemma MovesAgree(prog: seq<NandProp.Code>, env: Env, s: NandProp.State, k: nat)
    requires EmitFree(prog) && s.pc < |prog|
    requires prog[s.pc] in {NandProp.MoveForward, NandProp.MoveBackward, NandProp.LoopOpen, NandProp.Branch}
    ensures SameStep(prog, env, s, k)
  {
    assert CodeOf(prog[s.pc]) == Some(Translate(prog)[s.pc]);
  }

  lemma EditsAgree(prog: seq<NandProp.Code>, env: Env, s: NandProp.State, k: nat)
    requires EmitFree(prog) && s.pc < |prog|
    requires prog[s.pc] in {NandProp.Copy, NandProp.Swap, NandProp.Delete} || prog[s.pc].Literal?
    ensures SameStep(prog, env, s, k)
  {
    assert CodeOf(prog[s.pc]) == Some(Translate(prog)[s.pc]);
  }

  /** One instruction of an `E`-free program does the same in both
      interpreters and leaves the output alone. */
  lemma StepsAgree(prog: seq<NandProp.Code>, env: Env, s: NandProp.State, k: nat)
    requires EmitFree(prog) && s.pc < |prog|
    ensures SameStep(prog, env, s, k)
  {
    var q := Translate(prog);
    assert CodeOf(prog[s.pc]) == Some(q[s.pc]);
    match prog[s.pc] {
      case Nand => NandEditsAgree(s.tape, s.ptr);
      case JumpBack => ScansAgree(prog, s.pc);
      case Copy => EditsAgree(prog, env, s, k);
      case Swap => EditsAgree(prog, env, s, k);
      case Delete => EditsAgree(prog, env, s, k);
      case Literal(_) => EditsAgree(prog, env, s, k);
      case _ => MovesAgree(prog, env, s, k);
    }
  }

  /** An `E`-free NANDPROP.rs program, with any budget, ends as the PRON.rs
      program with the same symbols: same tape, same cursor, same error. */
  lemma {:induction false} RunsAgree(prog: seq<NandProp.Code>, env: Env, s: NandProp.State, k: nat, fuel: nat)
    requires EmitFree(prog)
    ensures Forget(NandProp.Exec(prog, env, s, k, fuel))
         == Pron.Exec(Translate(prog), env, Pron.State(s.tape, s.ptr, s.pc), k, fuel)
    decreases fuel
  {
    if s.pc < |prog| && fuel > 0 {
      StepsAgree(prog, env, s, k);
      var r := NandProp.Step(prog, env, s, k);
      if r.Ok? {
        RunsAgree(prog, env, r.value, k + 1, fuel - 1);
      }
    }
  }

  /** The same, for whole runs from the initial state. */
  lemma RunAgrees(prog: seq<NandProp.Code>, env: Env, fuel: nat)
    requires EmitFree(prog)
    ensures Forget(NandProp.Run(prog, env, fuel)) == Pron.Run(Translate(prog), env, fuel)
  {
    RunsAgree(prog, env, NandProp.Init, 0, fuel);
  }
}
