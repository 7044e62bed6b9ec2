/** The interactive literal `IU` of nand.rs, which reads lines until one of
    them, trimmed, is `0` or `1`. nand.rs reads every line into the same
    buffer without clearing it, so once a line with other text has been
    rejected, the trimmed buffer can never again be `0` or `1`. This module
    models that loop as written and the loop as evidently intended (each
    line judged on its own), and proves both behaviours. */
module Prompt {
  import opened Base

  /** The ASCII whitespace that Rust's `trim` removes. */
  predicate IsSpace(c: char)
  {
    c == ' ' || c == '\t' || c == '\n' || c == '\r' || c == 11 as char || c == 12 as char
  }

  /** `s` without its leading whitespace. */
  function TrimStart(s: string): (r: string)
    ensures |r| <= |s| && r == s[|s| - |r|..]
    ensures r == [] || !IsSpace(r[0])
    ensures forall i :: 0 <= i < |s| - |r| ==> IsSpace(s[i])
  {
    if s == [] || !IsSpace(s[0]) then s else TrimStart(s[1..])
  }

  /** `s` without its trailing whitespace. */
  function TrimEnd(s: string): (r: string)
    ensures |r| <= |s| && r == s[..|r|]
    ensures r == [] || !IsSpace(r[|r| - 1])
    ensures forall i :: |r| <= i < |s| ==> IsSpace(s[i])
  {
    if s == [] || !IsSpace(s[|s| - 1]) then s else TrimEnd(s[..|s| - 1])
  }

  /** `str::trim`. */
  function Trim(s: string): string
  {
    TrimEnd(TrimStart(s))
  }

  /** The two answers the prompt accepts. */
  function Answer(t: string): (r: Option<bool>)
    ensures r.Some? <==> t == "0" || t == "1"
    ensures r.Some? ==> (r.value <==> t == "1")
  {
    if t == "0" then Some(false) else if t == "1" then Some(true) else None
  }

  /** The prompt loop of nand.rs, as written: `read_line` appends each line
      (with its newline) to `buf`, and the whole buffer is trimmed and
      compared. When the lines run out, `read_line` adds nothing and the
      loop never ends: no answer. */
  function PromptAsWritten(lines: seq<string>, buf: string): Option<bool>
  {
    if lines == [] then None
    else
      var b := buf + lines[0];
      match Answer(Trim(b))
      case Some(v) => Some(v)
      case None => PromptAsWritten(lines[1..], b)
  }

  /** The prompt loop as evidently intended: each line is trimmed and
      judged on its own; the first `0` or `1` is the answer. */
  function PromptIntended(lines: seq<string>): Option<bool>
  {
    if lines == [] then None
    else match Answer(Trim(lines[0]))
      case Some(v) => Some(v)
      case None => PromptIntended(lines[1..])
  }

  /** Text after a non-blank start leaves the start's leading part alone. */
  lemma {:induction false} TrimStartAppend(a: string, b: string)
    requires TrimStart(a) != []
    ensures TrimStart(a + b) == TrimStart(a) + b
    decreases |a|
  {
    assert (a + b)[0] == a[0];
    if IsSpace(a[0]) {
      assert (a + b)[1..] == a[1..] + b;
      TrimStartAppend(a[1..], b);
    } else {
      assert TrimStart(a) == a;
    }
  }

  /** Appending text never shortens what `TrimEnd` keeps of the front. */
  lemma {:induction false} TrimEndAppend(u: string, b: string)
    ensures |TrimEnd(u)| <= |TrimEnd(u + b)|
    ensures TrimEnd(u + b)[..|TrimEnd(u)|] == TrimEnd(u)
    decreases |b|
  {
    if b == [] {
      assert u + b == u;
    } else if IsSpace(b[|b| - 1]) {
      assert (u + b)[..|u + b| - 1] == u + b[..|b| - 1];
      TrimEndAppend(u, b[..|b| - 1]);
    } else {
      assert TrimEnd(u + b) == u + b;
      assert (u + b)[..|u|] == u;
    }
  }

  /** Once the trimmed buffer holds something, it stays at the front of the
      trimmed buffer whatever is appended. */
  lemma TrimAppend(a: string, b: string)
    requires Trim(a) != []
    ensures |Trim(a)| <= |Trim(a + b)| && Trim(a + b)[..|Trim(a)|] == Trim(a)
  {
    TrimStartAppend(a, b);
    TrimEndAppend(TrimStart(a), b);
  }

  /** As written, a rejected non-blank buffer blocks every later answer:
      the prompt never accepts again. */
  lemma {:induction false} StuckAfterRejection(lines: seq<string>, buf: string)
    requires Trim(buf) != [] && Answer(Trim(buf)).None?
    ensures PromptAsWritten(lines, buf) == None
  {
    if lines != [] {
      var b := buf + lines[0];
      TrimAppend(buf, lines[0]);
      assert Answer(Trim(b)).None? by {
        if |Trim(b)| == 1 {
          assert Trim(b)[..1] == Trim(b);
        }
      }
      StuckAfterRejection(lines[1..], b);
    }
  }

  /** One visible character and a newline trim to that character. */
  lemma TrimLine(c: char)
    requires !IsSpace(c)
    ensures Trim([c, '\n']) == [c]
  {
    assert TrimStart([c, '\n']) == [c, '\n'];
    assert [c, '\n'][..1] == [c];
  }

  /** The input `x`, then `0`: the loop as written never answers, the
      intended loop answers false. */
  lemma RejectedThenZero()
    ensures PromptAsWritten(["x\n", "0\n"], "") == None
    ensures PromptIntended(["x\n", "0\n"]) == Some(false)
  {
    var lines := ["x\n", "0\n"];
    TrimLine('x');
    TrimLine('0');
    assert "x\n" == ['x', '\n'] && "0\n" == ['0', '\n'];
    assert "" + lines[0] == lines[0];
    assert Answer(Trim(lines[0])) == None;
    StuckAfterRejection(lines[1..], lines[0]);
    assert PromptIntended(lines[1..]) == Some(false);
  }

  /** The intended loop answers with the first line that trims to `0` or
      `1`, whatever came before it. */
  lemma {:induction false} IntendedFirstAnswer(lines: seq<string>, i: nat)
    requires i < |lines| && Answer(Trim(lines[i])).Some?
    requires forall j :: 0 <= j < i ==> Answer(Trim(lines[j])).None?
    ensures PromptIntended(lines) == Answer(Trim(lines[i]))
  {
    if i > 0 {
      IntendedFirstAnswer(lines[1..], i - 1);
    }
  }

  /** With no rejected line before the answer, the loop as written and the
      intended loop agree. */
  lemma AgreeOnFirstLine(lines: seq<string>)
    requires lines != [] && Answer(Trim(lines[0])).Some?
    ensures PromptAsWritten(lines, "") == PromptIntended(lines)
  {
    assert "" + lines[0] == lines[0];
  }
}
