/** The backward bracket scan that every `]` runs, written once for the three
    instruction sets: each interpreter says which of its opcodes is an open
    bracket `[`, which a close bracket `]`, through a `kind` function. */
module Brackets {
  import opened Base

  datatype Kind = Open | Close | Other

  /** How one instruction moves the depth counter of the scan. */
  function Delta(k: Kind): int
  {
    match k
    case Close => 1
    case Open => -1
    case Other => 0
  }

  /** Close brackets minus open brackets in `s`. */
  function Excess<C>(s: seq<C>, kind: C -> Kind): int
  {
    if s == [] then 0 else Delta(kind(s[0])) + Excess(s[1..], kind)
  }

  /** The depth counter of the scan started at the `]` at `pc`, once it has
      visited index `j`: it starts at 1 and counts every `]` up and every
      `[` down in `prog[j..pc]`. */
  function Depth<C>(prog: seq<C>, kind: C -> Kind, j: nat, pc: nat): int
    requires j <= pc <= |prog|
  {
    1 + Excess(prog[j..pc], kind)
  }

  /** `j` is the `[` that matches the `]` at `pc`: the nearest index below
      `pc` at which the depth comes back to 0. */
  predicate IsMatch<C>(prog: seq<C>, kind: C -> Kind, j: nat, pc: nat)
    requires pc <= |prog|
  {
    j < pc && Depth(prog, kind, j, pc) == 0 &&
    forall k :: j < k < pc ==> Depth(prog, kind, k, pc) > 0
  }

  /** The scan as the source runs it: standing at index `i` with counter
      `depth`, stop when the counter is 0; otherwise step down one index
      (failing below index 0) and count the instruction there. */
  function MatchOpen<C>(prog: seq<C>, kind: C -> Kind, i: nat, depth: nat): (r: Option<nat>)
    requires i <= |prog|
    ensures r.Some? ==> r.value <= i
    decreases i
  {
    if depth == 0 then Some(i)
    else if i == 0 then None
    else
      var next := match kind(prog[i - 1])
        case Close => depth + 1
        case Open => depth - 1
        case Other => depth;
      MatchOpen(prog, kind, i - 1, next)
  }

  lemma ExcessStep<C>(prog: seq<C>, kind: C -> Kind, j: nat, pc: nat)
    requires j < pc <= |prog|
    ensures Depth(prog, kind, j, pc) == Delta(kind(prog[j])) + Depth(prog, kind, j + 1, pc)
  {
    assert prog[j..pc][0] == prog[j];
    assert prog[j..pc][1..] == prog[j + 1..pc];
  }

  /** The scan, resumed at index `i` with the depth it has there, finds the
      match exactly when there is one, and fails exactly when the depth stays
      positive down to index 0. */
  lemma {:induction false} MatchOpenFrom<C>(prog: seq<C>, kind: C -> Kind, i: nat, pc: nat)
    requires i <= pc <= |prog|
    requires forall k :: i <= k < pc ==> Depth(prog, kind, k, pc) > 0
    ensures Depth(prog, kind, i, pc) > 0
    ensures var r := MatchOpen(prog, kind, i, Depth(prog, kind, i, pc) as nat);
      && (r.Some? ==> IsMatch(prog, kind, r.value, pc) && kind(prog[r.value]) == Open)
      && (r.None? <==> forall k :: 0 <= k < pc ==> Depth(prog, kind, k, pc) > 0)
    decreases i
  {
    var d := Depth(prog, kind, i, pc);
    if i == pc {
      assert prog[i..pc] == [];
    }
    if i > 0 {
      var j := i - 1;
      ExcessStep(prog, kind, j, pc);
      var dj := Depth(prog, kind, j, pc);
      assert dj >= 0;
      var next := match kind(prog[j])
        case Close => d as nat + 1
        case Open => d as nat - 1
        case Other => d as nat;
      assert next == dj;
      if dj == 0 {
        assert MatchOpen(prog, kind, i, d as nat) == Some(j);
      } else {
        MatchOpenFrom(prog, kind, j, pc);
      }
    }
  }

  /** What the scan from a `]` at `pc` finds: the matching `[`, or nothing
      exactly when every prefix leaves more `]` than `[` open. */
  lemma MatchOpenSpec<C>(prog: seq<C>, kind: C -> Kind, pc: nat)
    requires pc <= |prog|
    ensures var r := MatchOpen(prog, kind, pc, 1);
      && (r.Some? ==> IsMatch(prog, kind, r.value, pc) && kind(prog[r.value]) == Open)
      && (r.None? <==> forall k :: 0 <= k < pc ==> Depth(prog, kind, k, pc) > 0)
  {
    assert prog[pc..pc] == [];
    MatchOpenFrom(prog, kind, pc, pc);
  }

  /** The matching `[` is unique: at most one index satisfies `IsMatch`. */
  lemma MatchUnique<C>(prog: seq<C>, kind: C -> Kind, j1: nat, j2: nat, pc: nat)
    requires pc <= |prog|
    requires IsMatch(prog, kind, j1, pc) && IsMatch(prog, kind, j2, pc)
    ensures j1 == j2
  {
  }

  /** The scan depends only on which instructions are brackets. */
  lemma {:induction false} MatchOpenSameKinds<C, D>(p: seq<C>, kp: C -> Kind, q: seq<D>, kq: D -> Kind, i: nat, depth: nat)
    requires |p| == |q| && i <= |p|
    requires forall k :: 0 <= k < |p| ==> kp(p[k]) == kq(q[k])
    ensures MatchOpen(p, kp, i, depth) == MatchOpen(q, kq, i, depth)
    decreases i
  {
    if depth != 0 && i > 0 {
      var next := match kp(p[i - 1])
        case Close => depth + 1
        case Open => depth - 1
        case Other => depth;
      MatchOpenSameKinds(p, kp, q, kq, i - 1, next);
    }
  }

  /** The loop that runs the scan, as the interpreters do at a `]`. */
  method ScanBack<C>(prog: seq<C>, kind: C -> Kind, pc: nat) returns (r: Option<nat>)
    requires pc <= |prog|
    ensures r == MatchOpen(prog, kind, pc, 1)
    ensures r.Some? ==> IsMatch(prog, kind, r.value, pc) && kind(prog[r.value]) == Open
    ensures r.None? <==> forall k :: 0 <= k < pc ==> Depth(prog, kind, k, pc) > 0
  {
    MatchOpenSpec(prog, kind, pc);
    var i: nat := pc;
    var depth: nat := 1;
    while depth != 0
      invariant i <= pc
      invariant MatchOpen(prog, kind, i, depth) == MatchOpen(prog, kind, pc, 1)
      decreases i
    {
      if i == 0 {
        return None;
      }
      i := i - 1;
      match kind(prog[i])
      case Close => depth := depth + 1;
      case Open => depth := depth - 1;
      case Other =>
    }
    return Some(i);
  }
}
