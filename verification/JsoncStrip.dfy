/** The comment-stripping loop of src/lib.rs: one pass over a peekable character iterator,
    here the position of the next character in `input`. */
module JsoncStrip {
  import opened Jsonc

  /** What is still to be emitted from inside a string literal: its rest verbatim, then the rest stripped. */
  function AfterString(rest: string): string {
    var n := ScanString(rest).len;
    rest[..n] + Strip(rest[n..])
  }

  /** What is still to be emitted from each state of the loop. */
  function Remaining(inString: bool, escapeNext: bool, rest: string): string {
    if escapeNext then (if rest == "" then "" else [rest[0]] + AfterString(rest[1..]))
    else if inString then AfterString(rest)
    else Strip(rest)
  }

  lemma SliceTwice(s: string, i: nat, j: nat)
    requires i + j <= |s|
    ensures s[i..][j..] == s[i + j..]
    ensures s[i..][..j] == s[i..i + j]
    ensures s[..i] + s[i..][..j] == s[..i + j]
  {
  }

  lemma Emit(result: string, c: char, more: string)
    ensures result + ([c] + more) == (result + [c]) + more
  {
  }

  /** One character inside a string literal. */
  lemma StringStep(rest: string)
    requires rest != ""
    ensures AfterString(rest) == [rest[0]] + Remaining(rest[0] != '"', rest[0] == '\\', rest[1..])
  {
    var tail := rest[1..];
    if rest[0] == '"' || rest == "\\" {
    } else if rest[0] == '\\' {
      EscapeStep(rest);
    } else {
      var n := ScanString(tail).len;
      Prepend(rest, n, Strip(tail[n..]));
    }
  }

  lemma EscapeStep(rest: string)
    requires |rest| > 1 && rest[0] == '\\'
    ensures AfterString(rest) == [rest[0]] + ([rest[1]] + AfterString(rest[2..]))
  {
    var n := ScanString(rest[2..]).len;
    PrependTwo(rest, n, Strip(rest[2..][n..]));
  }

  lemma PrependTwo(rest: string, n: nat, more: string)
    requires n + 2 <= |rest|
    ensures rest[..n + 2] + more == [rest[0]] + ([rest[1]] + (rest[2..][..n] + more))
    ensures rest[n + 2..] == rest[2..][n..]
  {
  }

  lemma StringStarts(rest: string)
    requires rest != "" && rest[0] == '"'
    ensures Strip(rest) == ['"'] + AfterString(rest[1..])
  {
    var n := ScanString(rest[1..]).len;
    FirstLength(rest);
    StripFirst(rest, n + 1);
    Prepend(rest, n, Strip(rest[n + 1..]));
  }

  lemma Prepend(rest: string, n: nat, more: string)
    requires n + 1 <= |rest|
    ensures rest[..n + 1] + more == [rest[0]] + (rest[1..][..n] + more)
    ensures rest[n + 1..] == rest[1..][n..]
  {
  }

  lemma PrefixIs(a: string, s: string)
    requires a <= s
    ensures s[..|a|] == a
  {
  }

  /** The length of a block comment's body with its terminator, if it has one. */
  function BlockLen(s: string): (n: nat)
    ensures n <= |s|
  {
    BlockSpan(s) + (if ClosesAt(s, BlockSpan(s)) then 2 else 0)
  }

  lemma LineCommentDropped(rest: string)
    requires |rest| > 1 && rest[0] == '/' && rest[1] == '/'
    ensures Strip(rest) == Strip(rest[2..][LineSpan(rest[2..])..])
  {
    var n := LineSpan(rest[2..]);
    SliceTwice(rest, 2, n);
    StripFirst(rest, n + 2);
  }

  lemma BlockCommentDropped(rest: string)
    requires |rest| > 1 && rest[0] == '/' && rest[1] == '*'
    ensures Strip(rest) == Strip(rest[2..][BlockLen(rest[2..])..])
  {
    var n := BlockLen(rest[2..]);
    SliceTwice(rest, 2, n);
    StripFirst(rest, n + 2);
  }

  /** The first token of `rest` has length `n`. */
  lemma StripFirst(rest: string, n: nat)
    requires rest != "" && |RenderToken(First(rest))| == n
    ensures n <= |rest|
    ensures Strip(rest) == (if First(rest).IsComment() then "" else rest[..n]) + Strip(rest[n..])
  {
    PrefixIs(RenderToken(First(rest)), rest);
    StripUnfolds(rest);
  }

  lemma FirstLength(rest: string)
    requires rest != "" && rest[0] == '"'
    ensures |RenderToken(First(rest))| == ScanString(rest[1..]).len + 1
  {
    ScanStringReads(rest[1..]);
  }

  lemma TextKept(rest: string)
    requires rest != "" && First(rest) == Text(rest[0])
    ensures Strip(rest) == [rest[0]] + Strip(rest[1..])
  {
    StripFirst(rest, 1);
  }

  method StripJsoncComments(input: string) returns (result: string)
    ensures result == Strip(input)
  {
    result := "";
    var pos, inString, escapeNext := 0, false, false;
    while pos < |input|
      invariant 0 <= pos <= |input|
      invariant escapeNext ==> inString
      invariant result + Remaining(inString, escapeNext, input[pos..]) == Strip(input)
    {
      ghost var rest := input[pos..];
      var c := input[pos];
      pos := pos + 1;
      assert rest[1..] == input[pos..];

      if escapeNext {
        Emit(result, c, AfterString(rest[1..]));
        result := result + [c];
        escapeNext := false;
        continue;
      }

      if inString {
        StringStep(rest);
        Emit(result, c, Remaining(c != '"', c == '\\', rest[1..]));
        result := result + [c];
        if c == '\\' {
          escapeNext := true;
        } else if c == '"' {
          inString := false;
        }
        continue;
      }

      if c == '"' {
        StringStarts(rest);
        Emit(result, c, AfterString(rest[1..]));
        inString := true;
        result := result + [c];
      } else if c == '/' && pos < |input| && input[pos] == '/' {
        LineCommentDropped(rest);
        pos := pos + 1;
        assert rest[2..] == input[pos..];
        pos := SkipLine(input, pos);
      } else if c == '/' && pos < |input| && input[pos] == '*' {
        BlockCommentDropped(rest);
        pos := pos + 1;
        assert rest[2..] == input[pos..];
        pos := SkipBlock(input, pos);
      } else {
        TextKept(rest);
        Emit(result, c, Strip(rest[1..]));
        result := result + [c];
      }
    }
  }

  /** The inner loop that leaves the iterator at the newline ending a line comment. */
  method SkipLine(input: string, start: nat) returns (pos: nat)
    requires start <= |input|
    ensures pos == start + LineSpan(input[start..])
    ensures pos <= |input| && input[pos..] == input[start..][LineSpan(input[start..])..]
  {
    pos := start;
    while pos < |input| && input[pos] != '\n'
      invariant start <= pos <= |input|
      invariant pos + LineSpan(input[pos..]) == start + LineSpan(input[start..])
    {
      assert input[pos..][1..] == input[pos + 1..];
      pos := pos + 1;
    }
  }

  /** The inner loop that leaves the iterator after a block comment. */
  method SkipBlock(input: string, start: nat) returns (pos: nat)
    requires start <= |input|
    ensures pos == start + BlockLen(input[start..])
    ensures pos <= |input| && input[pos..] == input[start..][BlockLen(input[start..])..]
  {
    pos := start;
    while pos < |input|
      invariant start <= pos <= |input|
      invariant pos + BlockLen(input[pos..]) == start + BlockLen(input[start..])
    {
      ghost var rest := input[pos..];
      var c := input[pos];
      pos := pos + 1;
      assert rest[1..] == input[pos..];
      if c == '*' && pos < |input| && input[pos] == '/' {
        assert ClosesAt(rest, 0);
        pos := pos + 1;
        break;
      }
      assert !ClosesAt(rest, 0);
      assert ClosesAt(rest, BlockSpan(rest)) == ClosesAt(rest[1..], BlockSpan(rest[1..]));
    }
  }
}
