/** The command line that chroot builds hand to `/bin/sh -c` (src/build.rs), read back by the
    token recognition and quoting rules of POSIX.1-2017 XCU, sections 2.2 and 2.3. */
module Shell {
  import opened Wrappers

  // ---------- The builder ----------

  predicate IsTrigger(c: char) {
    c == ' ' || c == '\'' || c == '"' || c == '$' || c == '\\' || c == '*'
  }

  /** The characters that make the builder quote an argument. */
  predicate Triggered(a: string) {
    exists i :: 0 <= i < |a| && IsTrigger(a[i])
  }

  /** Every `'` leaves the quotes, is written `\'`, and enters them again. */
  function EscapeQuotes(a: string): string {
    if a == "" then ""
    else (if a[0] == '\'' then "'\\''" else [a[0]]) + EscapeQuotes(a[1..])
  }

  function QuoteArg(a: string): string {
    if Triggered(a) then "'" + EscapeQuotes(a) + "'" else a
  }

  function JoinArgs(args: seq<string>): string
    requires args != []
  {
    if |args| == 1 then QuoteArg(args[0]) else QuoteArg(args[0]) + (" " + JoinArgs(args[1..]))
  }

  function CommandLine(cmd: string, args: seq<string>): string {
    if args == [] then cmd else cmd + (" " + JoinArgs(args))
  }

  const NUL: char := '\0'

  /** The argument after `-c`. A command line with a NUL is no C string, and the builder panics. */
  function ShellCommand(cmd: string, args: seq<string>): Option<string> {
    var line := CommandLine(cmd, args);
    if NUL in line then None else Some(line)
  }

  // ---------- The reader ----------

  /** `expands` marks a word with an unquoted character that starts an expansion. */
  datatype ShellToken = Word(text: string, expands: bool) | Operator(c: char)

  datatype Mode = Unquoted | SingleQuoted | DoubleQuoted

  predicate IsBlank(c: char) {
    c == ' ' || c == '\t'
  }

  predicate IsOperator(c: char) {
    c == '|' || c == '&' || c == ';' || c == '<' || c == '>' || c == '(' || c == ')' || c == '\n'
  }

  /** Parameter, command and pathname expansion (sections 2.6.2, 2.6.3, 2.13.3). */
  predicate StartsExpansion(c: char) {
    c == '$' || c == '`' || c == '*' || c == '?' || c == '['
  }

  /** `word` with `c` appended; `None` is a word not yet begun. */
  function Add(word: Option<ShellToken>, c: char, expands: bool): Option<ShellToken>
    requires word.Some? ==> word.value.Word?
  {
    match word
    case None => Some(Word([c], expands))
    case Some(w) => Some(Word(w.text + [c], w.expands || expands))
  }

  function Begun(word: Option<ShellToken>): Option<ShellToken> {
    if word.None? then Some(Word("", false)) else word
  }

  /** `ts` with the finished `word` in front. */
  function Emit(word: Option<ShellToken>, ts: Option<seq<ShellToken>>): Option<seq<ShellToken>> {
    if word.None? || ts.None? then ts else Some([word.value] + ts.value)
  }

  function CommentLen(s: string): (n: nat)
    ensures n <= |s|
  {
    if s == "" || s[0] == '\n' then 0 else 1 + CommentLen(s[1..])
  }

  /** Reads the rest of the input; no result when a quote is left open. */
  function Tokens(s: string, word: Option<ShellToken>, mode: Mode): Option<seq<ShellToken>>
    requires word.Some? ==> word.value.Word?
    decreases |s|
  {
    match mode
    case Unquoted =>
      if s == "" then Emit(word, Some([]))
      else if s[0] == '\\' then
        if |s| == 1 then None
        else if s[1] == '\n' then Tokens(s[2..], word, Unquoted)
        else Tokens(s[2..], Add(word, s[1], false), Unquoted)
      else if s[0] == '\'' then Tokens(s[1..], Begun(word), SingleQuoted)
      else if s[0] == '"' then Tokens(s[1..], Begun(word), DoubleQuoted)
      else if IsBlank(s[0]) then Emit(word, Tokens(s[1..], None, Unquoted))
      else if IsOperator(s[0]) then Emit(word, Emit(Some(Operator(s[0])), Tokens(s[1..], None, Unquoted)))
      else if s[0] == '#' && word.None? then Tokens(s[1 + CommentLen(s[1..])..], None, Unquoted)
      else Tokens(s[1..], Add(word, s[0], StartsExpansion(s[0]) || (s[0] == '~' && word.None?)), Unquoted)
    case SingleQuoted =>
      if s == "" then None
      else if s[0] == '\'' then Tokens(s[1..], word, Unquoted)
      else Tokens(s[1..], Add(word, s[0], false), SingleQuoted)
    case DoubleQuoted =>
      if s == "" then None
      else if s[0] == '"' then Tokens(s[1..], word, Unquoted)
      else if s[0] == '\\' && |s| > 1 && s[1] in "$`\"\\" then
        Tokens(s[2..], Add(word, s[1], false), DoubleQuoted)
      else if s[0] == '\\' && |s| > 1 && s[1] == '\n' then Tokens(s[2..], word, DoubleQuoted)
      else Tokens(s[1..], Add(word, s[0], s[0] == '$' || s[0] == '`'), DoubleQuoted)
  }

  function Tokenize(s: string): Option<seq<ShellToken>> {
    Tokens(s, None, Unquoted)
  }

  function Words(args: seq<string>): seq<ShellToken> {
    seq(|args|, i requires 0 <= i < |args| => Word(args[i], false))
  }

  // ---------- Which arguments survive ----------

  /** A character that is itself anywhere in an unquoted word. */
  predicate IsPlain(c: char) {
    !IsTrigger(c) && !IsBlank(c) && !IsOperator(c) && !StartsExpansion(c)
  }

  predicate PlainWord(a: string) {
    a != "" && a[0] != '#' && a[0] != '~' && forall i :: 0 <= i < |a| ==> IsPlain(a[i])
  }

  predicate Supported(a: string) {
    Triggered(a) || PlainWord(a)
  }

  // ---------- Supported arguments are read back ----------

  lemma {:induction false} QuotedRead(a: string, w: string, rest: string)
    ensures Tokens(EscapeQuotes(a) + "'" + rest, Some(Word(w, false)), SingleQuoted)
         == Tokens(rest, Some(Word(w + a, false)), Unquoted)
    decreases |a|
  {
    var s := EscapeQuotes(a) + "'" + rest;
    if a == "" {
      assert s[1..] == rest && w + a == w;
    } else {
      var tail := EscapeQuotes(a[1..]) + "'" + rest;
      QuotedRead(a[1..], w + [a[0]], rest);
      assert (w + [a[0]]) + a[1..] == w + a;
      if a[0] == '\'' {
        LeaveAndReenter(s, w, tail);
      } else {
        assert s == [a[0]] + tail && s[1..] == tail;
      }
    }
  }

  lemma LeaveAndReenter(s: string, w: string, tail: string)
    requires s == "'\\''" + tail
    ensures Tokens(s, Some(Word(w, false)), SingleQuoted)
         == Tokens(tail, Some(Word(w + ['\''], false)), SingleQuoted)
  {
    var s1 := s[1..];
    var s3 := s1[2..];
    assert s1[0] == '\\' && s1[1] == '\'' && s3[0] == '\'' && s3[1..] == tail;
    assert Tokens(s, Some(Word(w, false)), SingleQuoted) == Tokens(s1, Some(Word(w, false)), Unquoted);
    assert Tokens(s1, Some(Word(w, false)), Unquoted) == Tokens(s3, Some(Word(w + ['\''], false)), Unquoted);
  }

  lemma {:induction false} PlainRead(a: string, w: string, rest: string)
    requires forall i :: 0 <= i < |a| ==> IsPlain(a[i])
    ensures Tokens(a + rest, Some(Word(w, false)), Unquoted) == Tokens(rest, Some(Word(w + a, false)), Unquoted)
    decreases |a|
  {
    if a == "" {
      assert a + rest == rest && w + a == w;
    } else {
      assert IsPlain(a[0]);
      assert (a + rest)[1..] == a[1..] + rest;
      PlainRead(a[1..], w + [a[0]], rest);
      assert (w + [a[0]]) + a[1..] == w + a;
    }
  }

  lemma EnterQuotes(tail: string, s: string)
    requires s == "'" + tail
    ensures Tokens(s, None, Unquoted) == Tokens(tail, Some(Word("", false)), SingleQuoted)
  {
    assert s[1..] == tail;
  }

  lemma ArgRead(a: string, rest: string)
    requires Supported(a)
    ensures Tokens(QuoteArg(a) + rest, None, Unquoted) == Tokens(rest, Some(Word(a, false)), Unquoted)
  {
    var s := QuoteArg(a) + rest;
    if Triggered(a) {
      EnterQuotes(EscapeQuotes(a) + "'" + rest, s);
      QuotedRead(a, "", rest);
      assert "" + a == a;
    } else {
      PlainArgRead(a, rest);
    }
  }

  lemma PlainArgRead(a: string, rest: string)
    requires PlainWord(a)
    ensures Tokens(a + rest, None, Unquoted) == Tokens(rest, Some(Word(a, false)), Unquoted)
  {
    var s := a + rest;
    assert IsPlain(a[0]);
    assert s[0] == a[0] && s[1..] == a[1..] + rest;
    PlainRead(a[1..], [a[0]], rest);
    assert [a[0]] + a[1..] == a;
  }

  /** Reading a supported first argument yields it as a word and goes on with the others. */
  lemma JoinRead(args: seq<string>)
    requires args != [] && Supported(args[0])
    ensures Tokens(JoinArgs(args), None, Unquoted)
         == if |args| == 1 then Some([Word(args[0], false)])
            else Emit(Some(Word(args[0], false)), Tokens(JoinArgs(args[1..]), None, Unquoted))
  {
    if |args| == 1 {
      LastArgRead(args[0]);
    } else {
      var rest := JoinArgs(args[1..]);
      ArgRead(args[0], " " + rest);
      BlankEndsWord(Word(args[0], false), rest);
    }
  }

  lemma LastArgRead(a: string)
    requires Supported(a)
    ensures Tokens(QuoteArg(a), None, Unquoted) == Some([Word(a, false)])
  {
    ArgRead(a, "");
    var s := QuoteArg(a);
    assert s + "" == s;
    InputEndsWord(Word(a, false));
  }

  lemma InputEndsWord(word: ShellToken)
    requires word.Word?
    ensures Tokens("", Some(word), Unquoted) == Some([word])
  {
    assert [word] + [] == [word];
  }

  lemma BlankEndsWord(word: ShellToken, rest: string)
    requires word.Word?
    ensures Tokens(" " + rest, Some(word), Unquoted) == Emit(Some(word), Tokens(rest, None, Unquoted))
  {
    assert (" " + rest)[1..] == rest;
  }

  lemma {:induction false} JoinRoundTrip(args: seq<string>)
    requires args != [] && forall a :: a in args ==> Supported(a)
    ensures Tokens(JoinArgs(args), None, Unquoted) == Some(Words(args))
  {
    JoinRead(args);
    if |args| == 1 {
      assert Words(args) == [Word(args[0], false)];
    } else {
      JoinRoundTrip(args[1..]);
      assert Words(args) == [Word(args[0], false)] + Words(args[1..]);
    }
  }

  // ---------- An unsupported argument is not ----------

  /** The first token read, if it is a word without expansions, could have been an argument. */
  predicate FirstSupported(ts: Option<seq<ShellToken>>) {
    ts.Some? && ts.value != [] && ts.value[0].Word? && !ts.value[0].expands ==> Supported(ts.value[0].text)
  }

  predicate GoodWord(word: Option<ShellToken>) {
    word.Some? ==> word.value.Word? && word.value.text != "" && (word.value.expands || PlainWord(word.value.text))
  }

  lemma CommentEnds(s: string)
    ensures var r := s[CommentLen(s)..]; r == "" || r[0] == '\n'
  {
  }

  /** An argument written without quotes yields, whatever it contains, only such first tokens. */
  lemma {:induction false} UnquotedFirst(a: string, word: Option<ShellToken>, rest: string)
    requires !Triggered(a) && GoodWord(word)
    requires rest != "" ==> rest[0] == ' ' && FirstSupported(Tokens(rest[1..], None, Unquoted))
    ensures FirstSupported(Tokens(a + rest, word, Unquoted))
    decreases |a|
  {
    var s := a + rest;
    if a == "" {
      assert s == rest;
    } else {
      var c := a[0];
      assert !IsTrigger(a[0]);
      assert s[1..] == a[1..] + rest;
      assert !Triggered(a[1..]) by {
        assert forall i :: 0 <= i < |a[1..]| ==> a[1..][i] == a[i + 1];
      }
      if c == '#' && word.None? {
        CommentEnds(s[1..]);
        assert s[1..][CommentLen(s[1..])..] == s[1 + CommentLen(s[1..])..];
      } else if IsBlank(c) || IsOperator(c) {
        UnquotedFirst(a[1..], None, rest);
      } else {
        UnquotedFirst(a[1..], Add(word, c, StartsExpansion(c) || (c == '~' && word.None?)), rest);
      }
    }
  }

  lemma {:induction false} JoinFirst(args: seq<string>)
    requires args != []
    ensures FirstSupported(Tokens(JoinArgs(args), None, Unquoted))
    decreases |args|
  {
    if Triggered(args[0]) {
      JoinRead(args);
    } else if |args| == 1 {
      assert args[0] + "" == args[0];
      UnquotedFirst(args[0], None, "");
    } else {
      JoinFirst(args[1..]);
      var rest := " " + JoinArgs(args[1..]);
      assert rest[1..] == JoinArgs(args[1..]);
      assert JoinArgs(args) == args[0] + rest;
      UnquotedFirst(args[0], None, rest);
    }
  }

  lemma {:induction false} JoinReadsOnlySupported(args: seq<string>)
    requires args != [] && Tokens(JoinArgs(args), None, Unquoted) == Some(Words(args))
    ensures forall a :: a in args ==> Supported(a)
    decreases |args|
  {
    JoinFirst(args);
    assert Words(args)[0] == Word(args[0], false);
    if |args| > 1 {
      JoinRead(args);
      assert Words(args) == [Word(args[0], false)] + Words(args[1..]);
      var rest := Tokens(JoinArgs(args[1..]), None, Unquoted);
      assert rest.Some? && rest.value == Words(args)[1..];
      JoinReadsOnlySupported(args[1..]);
      assert forall a :: a in args ==> a == args[0] || a in args[1..];
    }
  }

  /** The shell reads the command line as the command and its arguments if and only if every argument
      either contains a character that makes the builder quote it, or is a non-empty plain word. */
  lemma LineReadBack(cmd: string, args: seq<string>)
    requires PlainWord(cmd)
    ensures Tokenize(CommandLine(cmd, args)) == Some(Words([cmd] + args))
       <==> forall a :: a in args ==> Supported(a)
  {
    var rest := if args == [] then "" else " " + JoinArgs(args);
    var all := [cmd] + args;
    assert CommandLine(cmd, args) == cmd + rest;
    assert !Triggered(cmd);
    ArgRead(cmd, rest);
    assert Words(all) == [Word(cmd, false)] + Words(args);
    if args != [] {
      assert rest[1..] == JoinArgs(args);
      var ts := Tokens(JoinArgs(args), None, Unquoted);
      assert Tokenize(CommandLine(cmd, args)) == Emit(Some(Word(cmd, false)), ts);
      if forall a :: a in args ==> Supported(a) {
        JoinRoundTrip(args);
      }
      if Tokenize(CommandLine(cmd, args)) == Some(Words(all)) {
        assert ts.Some? && ts.value == Words(all)[1..];
        JoinReadsOnlySupported(args);
      }
    }
  }

  // ---------- NUL characters ----------

  lemma {:induction false} EscapeKeepsNul(a: string)
    ensures NUL in EscapeQuotes(a) <==> NUL in a
  {
    if a != "" {
      EscapeKeepsNul(a[1..]);
      assert a == [a[0]] + a[1..];
    }
  }

  lemma QuoteKeepsNul(a: string)
    ensures NUL in QuoteArg(a) <==> NUL in a
  {
    EscapeKeepsNul(a);
  }

  lemma {:induction false} JoinKeepsNul(args: seq<string>)
    requires args != []
    ensures NUL in JoinArgs(args) <==> exists a :: a in args && NUL in a
  {
    QuoteKeepsNul(args[0]);
    if |args| > 1 {
      JoinKeepsNul(args[1..]);
      assert args == [args[0]] + args[1..];
    }
  }

  // ---------- The exact class, character by character ----------

  lemma TriggeredMeans(a: string)
    ensures Triggered(a) <==> exists c :: c in a && c in " '\"$\\*"
  {
    forall i | 0 <= i < |a|
      ensures IsTrigger(a[i]) <==> a[i] in " '\"$\\*"
    {
    }
    if c :| c in a && c in " '\"$\\*" {
      var i :| 0 <= i < |a| && a[i] == c;
      assert IsTrigger(a[i]);
    }
  }

  lemma PlainMeans(a: string)
    ensures (forall i :: 0 <= i < |a| ==> IsPlain(a[i])) <==> forall c :: c in a ==> c !in " '\"$\\*\t\n|&;<>()`?["
  {
    forall c: char
      ensures IsPlain(c) <==> c !in " '\"$\\*\t\n|&;<>()`?["
    {
    }
    assert forall i :: 0 <= i < |a| ==> a[i] in a;
  }

  lemma SupportedMeans(a: string)
    ensures Supported(a) <==>
      || (exists c :: c in a && c in " '\"$\\*")
      || (a != "" && a[0] != '#' && a[0] != '~' && forall c :: c in a ==> c !in "\t\n|&;<>()`?[")
  {
    TriggeredMeans(a);
    PlainMeans(a);
    if !Triggered(a) {
      assert (forall c :: c in a ==> c !in "\t\n|&;<>()`?[")
        <==> (forall c :: c in a ==> c !in " '\"$\\*\t\n|&;<>()`?[") by {
        assert forall c: char :: c in " '\"$\\*\t\n|&;<>()`?[" <==> c in " '\"$\\*" || c in "\t\n|&;<>()`?[";
      }
    }
  }

  /** The builder gets as far as the shell, and the shell reads back exactly the command and its arguments,
      if and only if nothing holds a NUL and every argument either holds a space, a quote, `"`, `$`, a
      backslash or `*`, or is not empty, does not begin with `#` or `~`, and holds none of the other
      characters that mean something to the shell. */
  lemma ShellCommandRoundTrip(cmd: string, args: seq<string>)
    requires cmd != "" && cmd[0] != '#' && cmd[0] != '~'
    requires forall c :: c in cmd ==> c !in " '\"$\\*\t\n|&;<>()`?["
    ensures var line := ShellCommand(cmd, args);
      line.Some? && Tokenize(line.value) == Some(Words([cmd] + args))
      <==> '\0' !in cmd && forall a :: a in args ==>
        && '\0' !in a
        && (|| (exists c :: c in a && c in " '\"$\\*")
            || (a != "" && a[0] != '#' && a[0] != '~' && forall c :: c in a ==> c !in "\t\n|&;<>()`?["))
  {
    PlainMeans(cmd);
    LineReadBack(cmd, args);
    if args != [] {
      JoinKeepsNul(args);
    }
    forall a | a in args
      ensures Supported(a) <==>
        || (exists c :: c in a && c in " '\"$\\*")
        || (a != "" && a[0] != '#' && a[0] != '~' && forall c :: c in a ==> c !in "\t\n|&;<>()`?[")
    {
      SupportedMeans(a);
    }
  }
}
