/** A token grammar for JSON with comments, and what stripping comments means in terms of it.
    The grammar is given as a printer (`Render`) with a well-formedness predicate; `Lex` is its
    inverse on every text, so a text has exactly one reading. */
module Jsonc {
  /** A unit inside a string literal: a plain character, or a backslash with the character it escapes. */
  datatype Item = Plain(c: char) | Escape(c: char)

  /** How a string literal ends: at its quote, at the end of input, or there right after a backslash. */
  datatype Ending = Closed | Open | OpenAfterBackslash

  datatype Token =
    | Text(c: char)
    | Str(items: seq<Item>, ending: Ending)
    | LineComment(body: string)
    | BlockComment(body: string, closed: bool)
  {
    predicate IsComment() {
      LineComment? || BlockComment?
    }

    /** The token runs to the end of input because its closing delimiter is missing. */
    predicate Unterminated() {
      (Str? && !ending.Closed?) || (BlockComment? && !closed)
    }
  }

  // ---------- Printing ----------

  function RenderItem(i: Item): string {
    match i
    case Plain(c) => [c]
    case Escape(c) => ['\\', c]
  }

  function RenderItems(items: seq<Item>): string {
    if items == [] then "" else RenderItem(items[0]) + RenderItems(items[1..])
  }

  function RenderEnding(e: Ending): string {
    match e
    case Closed => "\""
    case Open => ""
    case OpenAfterBackslash => "\\"
  }

  function RenderToken(t: Token): (s: string)
    ensures s != ""
  {
    match t
    case Text(c) => [c]
    case Str(items, ending) => "\"" + RenderItems(items) + RenderEnding(ending)
    case LineComment(body) => "//" + body
    case BlockComment(body, closed) => "/*" + body + (if closed then "*/" else "")
  }

  function Render(ts: seq<Token>): string {
    if ts == [] then "" else RenderToken(ts[0]) + Render(ts[1..])
  }

  lemma RenderCons(t: Token, ts: seq<Token>)
    ensures Render([t] + ts) == RenderToken(t) + Render(ts)
  {
    assert ([t] + ts)[1..] == ts;
  }

  // ---------- Which token sequences are readings of a text ----------

  predicate ItemOk(i: Item) {
    i.Plain? ==> i.c != '"' && i.c != '\\'
  }

  predicate HasClose(s: string) {
    exists i :: 0 <= i < |s| - 1 && s[i] == '*' && s[i + 1] == '/'
  }

  predicate TokenOk(t: Token) {
    match t
    case Text(c) => c != '"'
    case Str(items, _) => forall i :: 0 <= i < |items| ==> ItemOk(items[i])
    case LineComment(body) => '\n' !in body
    case BlockComment(body, _) => !HasClose(body)
  }

  /** Whether `rest` may come right after `t`. */
  predicate FollowOk(t: Token, rest: string) {
    match t
    case Text(c) => c == '/' && rest != "" ==> rest[0] != '/' && rest[0] != '*'
    case Str(_, ending) => ending.Closed? || rest == ""
    case LineComment(_) => rest == "" || rest[0] == '\n'
    case BlockComment(_, closed) => closed || rest == ""
  }

  predicate WellFormed(ts: seq<Token>) {
    ts == [] || (TokenOk(ts[0]) && FollowOk(ts[0], Render(ts[1..])) && WellFormed(ts[1..]))
  }

  lemma WellFormedCons(t: Token, ts: seq<Token>)
    requires TokenOk(t) && FollowOk(t, Render(ts)) && WellFormed(ts)
    ensures WellFormed([t] + ts)
  {
    assert ([t] + ts)[1..] == ts;
  }

  // ---------- Lexing ----------

  datatype StringScan = StringScan(items: seq<Item>, ending: Ending, len: nat)

  /** Reads the inside of a string literal, closing quote included. */
  function ScanString(s: string): (r: StringScan)
    ensures r.len <= |s|
    ensures r.ending.Closed? || r.len == |s|
  {
    if s == "" then StringScan([], Open, 0)
    else if s[0] == '"' then StringScan([], Closed, 1)
    else if s[0] == '\\' then
      if |s| == 1 then StringScan([], OpenAfterBackslash, 1)
      else
        var r := ScanString(s[2..]);
        StringScan([Escape(s[1])] + r.items, r.ending, r.len + 2)
    else
      var r := ScanString(s[1..]);
      StringScan([Plain(s[0])] + r.items, r.ending, r.len + 1)
  }

  ghost predicate ScanReads(s: string, r: StringScan)
    requires r.len <= |s|
  {
    && s[..r.len] == RenderItems(r.items) + RenderEnding(r.ending)
    && forall i :: 0 <= i < |r.items| ==> ItemOk(r.items[i])
  }

  lemma ScanReadsCons(s: string, i: Item, r: StringScan)
    requires ItemOk(i) && RenderItem(i) <= s
    requires |RenderItem(i)| + r.len <= |s|
    requires ScanReads(s[|RenderItem(i)|..], r)
    ensures ScanReads(s, StringScan([i] + r.items, r.ending, |RenderItem(i)| + r.len))
  {
    var n := |RenderItem(i)|;
    assert s[..n + r.len] == s[..n] + s[n..][..r.len];
    assert ([i] + r.items)[1..] == r.items;
  }

  lemma {:induction false} ScanStringReads(s: string)
    ensures ScanReads(s, ScanString(s))
    decreases |s|
  {
    if s == "" || s[0] == '"' || s == "\\" {
    } else if s[0] == '\\' {
      ScanStringReads(s[2..]);
      ScanReadsCons(s, Escape(s[1]), ScanString(s[2..]));
    } else {
      ScanStringReads(s[1..]);
      ScanReadsCons(s, Plain(s[0]), ScanString(s[1..]));
    }
  }

  /** The length of the text before the next newline. */
  function LineSpan(s: string): (n: nat)
    ensures n <= |s| && '\n' !in s[..n]
    ensures n < |s| ==> s[n] == '\n'
  {
    if s == "" || s[0] == '\n' then 0 else 1 + LineSpan(s[1..])
  }

  predicate ClosesAt(s: string, i: int) {
    0 <= i && i + 1 < |s| && s[i] == '*' && s[i + 1] == '/'
  }

  /** The length of the text before the next block-comment terminator, or all of it. */
  function BlockSpan(s: string): (n: nat)
    ensures n <= |s| && (ClosesAt(s, n) || n == |s|)
    ensures forall i :: 0 <= i < n ==> !ClosesAt(s, i)
  {
    if s == "" || ClosesAt(s, 0) then 0
    else
      var n := BlockSpan(s[1..]);
      assert forall i :: i >= 1 ==> ClosesAt(s, i) == ClosesAt(s[1..], i - 1);
      n + 1
  }

  /** The first token of a non-empty text. */
  function First(s: string): (t: Token)
    requires s != ""
    ensures Reads(s, t)
  {
    if s[0] == '"' then
      StringTokenReads(s);
      var r := ScanString(s[1..]);
      Str(r.items, r.ending)
    else if s[0] == '/' && |s| > 1 && s[1] == '/' then
      LineTokenReads(s);
      LineComment(s[2..][..LineSpan(s[2..])])
    else if s[0] == '/' && |s| > 1 && s[1] == '*' then
      BlockTokenReads(s);
      var n := BlockSpan(s[2..]);
      BlockComment(s[2..][..n], ClosesAt(s[2..], n))
    else
      Text(s[0])
  }

  /** `t` is a token at the start of `s` that may be followed by the rest of `s`. */
  predicate Reads(s: string, t: Token) {
    TokenOk(t) && RenderToken(t) <= s && FollowOk(t, s[|RenderToken(t)|..])
  }

  lemma StringTokenReads(s: string)
    requires s != "" && s[0] == '"'
    ensures var r := ScanString(s[1..]); Reads(s, Str(r.items, r.ending))
  {
    var r := ScanString(s[1..]);
    ScanStringReads(s[1..]);
    assert s[..r.len + 1] == "\"" + s[1..][..r.len];
    assert RenderToken(Str(r.items, r.ending)) == s[..r.len + 1];
  }

  lemma LineTokenReads(s: string)
    requires |s| > 1 && s[..2] == "//"
    ensures Reads(s, LineComment(s[2..][..LineSpan(s[2..])]))
  {
    var n := LineSpan(s[2..]);
    assert s[..n + 2] == s[..2] + s[2..][..n];
  }

  lemma BlockTokenReads(s: string)
    requires |s| > 1 && s[..2] == "/*"
    ensures var n := BlockSpan(s[2..]); Reads(s, BlockComment(s[2..][..n], ClosesAt(s[2..], n)))
  {
    var n := BlockSpan(s[2..]);
    var body := s[2..][..n];
    forall i | 0 <= i && i + 1 < n
      ensures !(body[i] == '*' && body[i + 1] == '/')
    {
      assert !ClosesAt(s[2..], i);
    }
    assert s[..n + 2] == s[..2] + body;
    assert ClosesAt(s[2..], n) ==> s[..n + 4] == s[..2] + body + "*/";
  }

  function Lex(s: string): seq<Token>
    decreases |s|
  {
    if s == "" then [] else [First(s)] + Lex(s[|RenderToken(First(s))|..])
  }

  /** Every text is read, completely, as a well-formed token sequence. */
  lemma {:induction false} LexIsReading(s: string)
    ensures WellFormed(Lex(s)) && Render(Lex(s)) == s
    decreases |s|
  {
    if s != "" {
      var t := First(s);
      var rest := s[|RenderToken(t)|..];
      LexIsReading(rest);
      WellFormedCons(t, Lex(rest));
      RenderCons(t, Lex(rest));
      assert s == RenderToken(t) + rest;
    }
  }

  // ---------- The reading is unique ----------

  lemma {:induction false} ScanStringUnique(items: seq<Item>, ending: Ending, rest: string)
    requires forall i :: 0 <= i < |items| ==> ItemOk(items[i])
    requires ending.Closed? || rest == ""
    ensures ScanString(RenderItems(items) + RenderEnding(ending) + rest)
            == StringScan(items, ending, |RenderItems(items) + RenderEnding(ending)|)
    decreases |items|
  {
    var s := RenderItems(items) + RenderEnding(ending) + rest;
    if items == [] {
      assert s == RenderEnding(ending) + rest;
    } else {
      ScanStringUnique(items[1..], ending, rest);
      var tail := RenderItems(items[1..]) + RenderEnding(ending) + rest;
      assert items == [items[0]] + items[1..];
      assert s == RenderItem(items[0]) + tail;
      assert s[|RenderItem(items[0])|..] == tail;
    }
  }

  lemma {:induction false} LineSpanUnique(body: string, rest: string)
    requires '\n' !in body && (rest == "" || rest[0] == '\n')
    ensures LineSpan(body + rest) == |body|
  {
    if body == "" {
      assert body + rest == rest;
    } else {
      assert (body + rest)[1..] == body[1..] + rest;
      LineSpanUnique(body[1..], rest);
    }
  }

  lemma NoCloseInTail(body: string)
    requires body != "" && !HasClose(body)
    ensures !HasClose(body[1..])
  {
  }

  lemma {:induction false} BlockSpanUnique(body: string, rest: string)
    requires !HasClose(body) && (rest == "" || (|rest| >= 2 && rest[..2] == "*/"))
    ensures BlockSpan(body + rest) == |body|
  {
    var s := body + rest;
    if body == "" {
      assert s == rest;
    } else {
      assert s[1..] == body[1..] + rest;
      assert |body| > 1 ==> !(body[0] == '*' && body[0 + 1] == '/');
      assert !ClosesAt(s, 0);
      NoCloseInTail(body);
      BlockSpanUnique(body[1..], rest);
    }
  }

  lemma FirstUnique(t: Token, rest: string)
    requires TokenOk(t) && FollowOk(t, rest)
    ensures First(RenderToken(t) + rest) == t
  {
    var s := RenderToken(t) + rest;
    match t {
      case Text(c) => assert s[0] == c && s[1..] == rest;
      case Str(items, ending) => FirstString(items, ending, rest);
      case LineComment(body) => FirstLine(body, rest);
      case BlockComment(body, closed) => FirstBlock(body, closed, rest);
    }
  }

  lemma FirstString(items: seq<Item>, ending: Ending, rest: string)
    requires TokenOk(Str(items, ending)) && FollowOk(Str(items, ending), rest)
    ensures First(RenderToken(Str(items, ending)) + rest) == Str(items, ending)
  {
    var s := RenderToken(Str(items, ending)) + rest;
    assert s[0] == '"' && s[1..] == RenderItems(items) + RenderEnding(ending) + rest;
    ScanStringUnique(items, ending, rest);
  }

  lemma FirstLine(body: string, rest: string)
    requires TokenOk(LineComment(body)) && FollowOk(LineComment(body), rest)
    ensures First(RenderToken(LineComment(body)) + rest) == LineComment(body)
  {
    var s := RenderToken(LineComment(body)) + rest;
    assert s[0] == '/' && s[1] == '/' && s[2..] == body + rest;
    LineSpanUnique(body, rest);
    assert (body + rest)[..|body|] == body;
  }

  lemma FirstBlock(body: string, closed: bool, rest: string)
    requires TokenOk(BlockComment(body, closed)) && FollowOk(BlockComment(body, closed), rest)
    ensures First(RenderToken(BlockComment(body, closed)) + rest) == BlockComment(body, closed)
  {
    var s := RenderToken(BlockComment(body, closed)) + rest;
    var tail := (if closed then "*/" else "") + rest;
    assert s[0] == '/' && s[1] == '*' && s[2..] == body + tail;
    assert closed ==> tail[..2] == "*/";
    BlockSpanUnique(body, tail);
    assert (body + tail)[..|body|] == body;
  }

  /** A well-formed token sequence is the only reading of the text it prints. */
  lemma {:induction false} ReadingIsUnique(ts: seq<Token>)
    requires WellFormed(ts)
    ensures Lex(Render(ts)) == ts
  {
    if ts != [] {
      var s := Render(ts);
      FirstUnique(ts[0], Render(ts[1..]));
      assert s[|RenderToken(ts[0])|..] == Render(ts[1..]);
      ReadingIsUnique(ts[1..]);
    }
  }

  // ---------- Stripping ----------

  /** The tokens that are not comments, in order. */
  function Keep(ts: seq<Token>): seq<Token> {
    if ts == [] then []
    else if ts[0].IsComment() then Keep(ts[1..])
    else [ts[0]] + Keep(ts[1..])
  }

  function Strip(s: string): string {
    Render(Keep(Lex(s)))
  }

  /** How `Strip` goes through a text token by token. */
  lemma StripUnfolds(s: string)
    requires s != ""
    ensures var t := First(s);
      Strip(s) == (if t.IsComment() then "" else RenderToken(t)) + Strip(s[|RenderToken(t)|..])
  {
    var t := First(s);
    var rest := Lex(s[|RenderToken(t)|..]);
    assert Lex(s) == [t] + rest && ([t] + rest)[1..] == rest;
    if !t.IsComment() {
      assert ([t] + Keep(rest))[1..] == Keep(rest);
    }
  }

  /** Dropping the comments brings no two tokens together that would read differently. */
  lemma {:induction false} KeepWellFormed(ts: seq<Token>)
    requires WellFormed(ts)
    ensures WellFormed(Keep(ts))
  {
    if ts != [] {
      KeepWellFormed(ts[1..]);
      var kept := Keep(ts[1..]);
      if !ts[0].IsComment() {
        assert ([ts[0]] + kept)[1..] == kept;
        FollowKept(ts[0], ts[1..]);
      }
    }
  }

  lemma FollowKept(t: Token, rest: seq<Token>)
    requires !t.IsComment() && FollowOk(t, Render(rest))
    ensures FollowOk(t, Render(Keep(rest)))
  {
  }

  /** The only reading of a stripped text is the non-comment tokens of the original. */
  lemma {:induction false} StripKeepsTokens(s: string)
    ensures Lex(Strip(s)) == Keep(Lex(s))
  {
    LexIsReading(s);
    KeepWellFormed(Lex(s));
    ReadingIsUnique(Keep(Lex(s)));
  }

  /** Stripping again changes nothing. */
  lemma {:induction false} StripIsIdempotent(s: string)
    ensures Strip(Strip(s)) == Strip(s)
  {
    StripKeepsTokens(s);
    KeepTwice(Lex(s));
  }

  lemma {:induction false} KeepTwice(ts: seq<Token>)
    ensures Keep(Keep(ts)) == Keep(ts)
  {
    if ts != [] {
      KeepTwice(ts[1..]);
      assert ([ts[0]] + Keep(ts[1..]))[1..] == Keep(ts[1..]);
    }
  }

  // ---------- Inserting comments and stripping them again ----------

  /** Where comments may stand: never right after a bare `/` or an unterminated token, each without
      its own terminator inside, and a line comment only before a newline or the end. */
  predicate CommentsPlaced(ts: seq<Token>) {
    ts == [] ||
    (&& CommentsPlaced(ts[1..])
     && (ts[0].IsComment() ==> TokenOk(ts[0]) && FollowOk(ts[0], Render(ts[1..])))
     && (|ts| > 1 && ts[1].IsComment() ==> ts[0] != Text('/') && !ts[0].Unterminated()))
  }

  lemma {:induction false} PlacedIsWellFormed(ts: seq<Token>)
    requires CommentsPlaced(ts) && WellFormed(Keep(ts))
    ensures WellFormed(ts)
  {
    if ts != [] {
      if ts[0].IsComment() {
        PlacedIsWellFormed(ts[1..]);
      } else {
        assert Keep(ts)[1..] == Keep(ts[1..]);
        PlacedIsWellFormed(ts[1..]);
        if |ts| > 1 && !ts[1].IsComment() {
          assert Render(Keep(ts[1..]))[0] == RenderToken(ts[1])[0] == Render(ts[1..])[0];
        }
      }
    }
  }

  /** Comments added to a text between its tokens are exactly what stripping takes out again.
      `ts` is the reading of `text` with comments inserted. */
  lemma {:induction false} InsertThenStrip(text: string, ts: seq<Token>)
    requires Keep(ts) == Lex(text) && CommentsPlaced(ts)
    ensures Strip(Render(ts)) == text
  {
    LexIsReading(text);
    PlacedIsWellFormed(ts);
    ReadingIsUnique(ts);
  }

  // ---------- Stripping in pieces ----------

  /** No token of `a` reaches into `b`. */
  predicate SplitsCleanly(a: string, b: string) {
    var ts := Lex(a);
    ts == [] || FollowOk(ts[|ts| - 1], b)
  }

  lemma FollowLonger(t: Token, rest: string, more: string)
    requires FollowOk(t, rest) && (rest == "" ==> FollowOk(t, more))
    ensures FollowOk(t, rest + more)
  {
  }

  lemma {:induction false} KeepAppends(ts: seq<Token>, us: seq<Token>)
    ensures Keep(ts + us) == Keep(ts) + Keep(us)
  {
    if ts == [] {
      assert ts + us == us;
    } else {
      assert (ts + us)[1..] == ts[1..] + us;
      KeepAppends(ts[1..], us);
    }
  }

  lemma HeadFirst<T>(ts: seq<T>, us: seq<T>)
    requires ts != []
    ensures ts + us == [ts[0]] + (ts[1..] + us)
  {
  }

  lemma {:induction false} JoinWellFormed(ts: seq<Token>, us: seq<Token>)
    requires WellFormed(ts) && WellFormed(us)
    requires ts == [] || FollowOk(ts[|ts| - 1], Render(us))
    ensures WellFormed(ts + us)
  {
    if ts == [] {
      assert ts + us == us;
    } else {
      var t, tail := ts[0], ts[1..];
      RenderAppends(tail, us);
      JoinWellFormed(tail, us);
      FollowLonger(t, Render(tail), Render(us));
      WellFormedCons(t, tail + us);
      HeadFirst(ts, us);
    }
  }

  lemma {:induction false} RenderAppends(ts: seq<Token>, us: seq<Token>)
    ensures Render(ts + us) == Render(ts) + Render(us)
  {
    if ts == [] {
      assert ts + us == us;
    } else {
      assert (ts + us)[1..] == ts[1..] + us;
      RenderAppends(ts[1..], us);
    }
  }

  lemma {:induction false} StripConcat(a: string, b: string)
    requires SplitsCleanly(a, b)
    ensures Strip(a + b) == Strip(a) + Strip(b)
  {
    LexIsReading(a);
    LexIsReading(b);
    JoinWellFormed(Lex(a), Lex(b));
    ReadingIsUnique(Lex(a) + Lex(b));
    RenderAppends(Lex(a), Lex(b));
    KeepAppends(Lex(a), Lex(b));
    RenderAppends(Keep(Lex(a)), Keep(Lex(b)));
  }

  // ---------- JSON strings (RFC 8259, section 7) ----------

  datatype JsonChar = Unescaped(c: char) | TwoCharEscape(c: char) | UnicodeEscape(hex: string)

  predicate IsHexDigit(c: char) {
    '0' <= c <= '9' || 'a' <= c <= 'f' || 'A' <= c <= 'F'
  }

  predicate JsonCharOk(j: JsonChar) {
    match j
    case Unescaped(c) => c >= ' ' && c != '"' && c != '\\'
    case TwoCharEscape(c) => c in "\"\\/bfnrt"
    case UnicodeEscape(hex) => |hex| == 4 && forall i :: 0 <= i < 4 ==> IsHexDigit(hex[i])
  }

  function RenderJsonChars(js: seq<JsonChar>): string {
    if js == [] then ""
    else
      (match js[0]
       case Unescaped(c) => [c]
       case TwoCharEscape(c) => ['\\', c]
       case UnicodeEscape(hex) => "\\u" + hex) + RenderJsonChars(js[1..])
  }

  function PlainItems(s: string): seq<Item> {
    if s == "" then [] else [Plain(s[0])] + PlainItems(s[1..])
  }

  lemma {:induction false} RenderPlainItems(s: string)
    ensures RenderItems(PlainItems(s)) == s
  {
    if s != "" {
      RenderPlainItems(s[1..]);
      assert PlainItems(s)[1..] == PlainItems(s[1..]);
    }
  }

  lemma {:induction false} HexItemsOk(s: string)
    requires forall i :: 0 <= i < |s| ==> IsHexDigit(s[i])
    ensures forall i :: 0 <= i < |PlainItems(s)| ==> ItemOk(PlainItems(s)[i])
  {
    if s != "" {
      HexItemsOk(s[1..]);
    }
  }

  function ItemsOf(js: seq<JsonChar>): seq<Item> {
    if js == [] then []
    else
      (match js[0]
       case Unescaped(c) => [Plain(c)]
       case TwoCharEscape(c) => [Escape(c)]
       case UnicodeEscape(hex) => [Escape('u')] + PlainItems(hex))
      + ItemsOf(js[1..])
  }

  lemma {:induction false} RenderItemsAppends(a: seq<Item>, b: seq<Item>)
    ensures RenderItems(a + b) == RenderItems(a) + RenderItems(b)
  {
    if a == [] {
      assert a + b == b;
    } else {
      assert (a + b)[1..] == a[1..] + b;
      RenderItemsAppends(a[1..], b);
    }
  }

  lemma {:induction false} ItemsOfJson(js: seq<JsonChar>)
    requires forall i :: 0 <= i < |js| ==> JsonCharOk(js[i])
    ensures RenderItems(ItemsOf(js)) == RenderJsonChars(js)
    ensures forall i :: 0 <= i < |ItemsOf(js)| ==> ItemOk(ItemsOf(js)[i])
  {
    if js != [] {
      ItemsOfJson(js[1..]);
      var head := ItemsOf(js)[..|ItemsOf(js)| - |ItemsOf(js[1..])|];
      assert ItemsOf(js) == head + ItemsOf(js[1..]);
      RenderItemsAppends(head, ItemsOf(js[1..]));
      match js[0] {
        case Unescaped(c) => assert head == [Plain(c)];
        case TwoCharEscape(c) => assert head == [Escape(c)];
        case UnicodeEscape(h) =>
          assert head == [Escape('u')] + PlainItems(h);
          assert head[1..] == PlainItems(h);
          RenderPlainItems(h);
          HexItemsOk(h);
      }
    }
  }

  /** A JSON string literal, whatever it contains, survives stripping verbatim. */
  lemma {:induction false} JsonStringKept(js: seq<JsonChar>, rest: string)
    requires forall i :: 0 <= i < |js| ==> JsonCharOk(js[i])
    ensures var literal := "\"" + RenderJsonChars(js) + "\"";
      Strip(literal + rest) == literal + Strip(rest)
  {
    ItemsOfJson(js);
    var t := Str(ItemsOf(js), Closed);
    FirstUnique(t, rest);
    StripUnfolds(RenderToken(t) + rest);
    assert (RenderToken(t) + rest)[|RenderToken(t)|..] == rest;
  }
}
