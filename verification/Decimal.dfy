/** Decimal text: how counters are written to files and how unsigned numbers and memory sizes are
    read back (src/config.rs, and the `parse` calls of src/network.rs and src/container.rs). */
module Decimal {
  import opened Wrappers

  const U8_MAX: nat := 0xff
  const U32_MAX: nat := 0xffff_ffff
  const U64_MAX: nat := 0xffff_ffff_ffff_ffff

  predicate IsDigit(c: char) {
    '0' <= c <= '9'
  }

  predicate AllDigits(s: string) {
    forall i :: 0 <= i < |s| ==> IsDigit(s[i])
  }

  function DigitChar(d: nat): char
    requires d < 10
  {
    "0123456789"[d]
  }

  /** How `to_string` writes a number. */
  function Show(n: nat): (s: string)
    ensures s != "" && AllDigits(s)
  {
    if n < 10 then [DigitChar(n)] else Show(n / 10) + [DigitChar(n % 10)]
  }

  function ValueOf(s: string): nat
    requires AllDigits(s)
  {
    if s == "" then 0 else 10 * ValueOf(s[..|s| - 1]) + (s[|s| - 1] - '0') as nat
  }

  /** The number a digit string denotes, with the one leading `+` that Rust's `parse` allows. */
  function Numeral(s: string): Option<nat> {
    var digits := if s != "" && s[0] == '+' then s[1..] else s;
    if digits != "" && AllDigits(digits) then Some(ValueOf(digits)) else None
  }

  /** `str::parse` into an unsigned type with maximum `max`: overflow is an error. */
  function ParseUnsigned(s: string, max: nat): Option<nat> {
    match Numeral(s)
    case Some(n) => if n <= max then Some(n) else None
    case None => None
  }

  lemma {:induction false} ShowValue(n: nat)
    ensures ValueOf(Show(n)) == n
  {
    if n >= 10 {
      var s := Show(n);
      ShowValue(n / 10);
      assert s[..|s| - 1] == Show(n / 10);
    } else {
      assert Show(n)[..0] == "";
    }
  }

  /** Reading back a written number gives that number, unless the type cannot hold it. */
  lemma {:induction false} ShowThenParse(n: nat, max: nat)
    ensures ParseUnsigned(Show(n), max) == if n <= max then Some(n) else None
  {
    ShowValue(n);
    assert IsDigit(Show(n)[0]);
  }

  // ---------- Memory sizes ----------

  datatype MemoryError = EmptyMemory | InvalidMemory | MemoryOverflow

  /** The characters that `trim` removes: those with the Unicode property White_Space. */
  predicate IsSpace(c: char) {
    || c == ' ' || '\t' <= c <= '\r' || c == '\U{85}' || c == '\U{A0}' || c == '\U{1680}'
    || '\U{2000}' <= c <= '\U{200A}' || c == '\U{2028}' || c == '\U{2029}' || c == '\U{202F}'
    || c == '\U{205F}' || c == '\U{3000}'
  }

  function TrimStart(s: string): string {
    if s != "" && IsSpace(s[0]) then TrimStart(s[1..]) else s
  }

  function TrimEnd(s: string): string {
    if s != "" && IsSpace(s[|s| - 1]) then TrimEnd(s[..|s| - 1]) else s
  }

  function Trim(s: string): string {
    TrimEnd(TrimStart(s))
  }

  /** The factor of a binary suffix, if `c` is one. */
  function SuffixFactor(c: char): Option<nat> {
    if c == 'k' || c == 'K' then Some(0x400)
    else if c == 'm' || c == 'M' then Some(0x10_0000)
    else if c == 'g' || c == 'G' then Some(0x4000_0000)
    else None
  }

  function ParseMemory(text: string): Result<nat, MemoryError> {
    var s := Trim(text);
    if s == "" then Err(EmptyMemory)
    else
      var factor := SuffixFactor(s[|s| - 1]);
      var numStr := if factor.Some? then s[..|s| - 1] else s;
      match ParseUnsigned(numStr, U64_MAX)
      case None => Err(InvalidMemory)
      case Some(num) =>
        var bytes := num * (if factor.Some? then factor.value else 1);
        if bytes <= U64_MAX then Ok(bytes) else Err(MemoryOverflow)
  }

  predicate AllSpaces(s: string) {
    forall c :: c in s ==>
      c in " \t\n\r\U{0B}\U{0C}\U{85}\U{A0}\U{1680}\U{2000}\U{2001}\U{2002}\U{2003}\U{2004}\U{2005}\U{2006}\U{2007}"
      || c in "\U{2008}\U{2009}\U{200A}\U{2028}\U{2029}\U{202F}\U{205F}\U{3000}"
  }

  lemma AllSpacesMeans(s: string)
    ensures AllSpaces(s) <==> forall i :: 0 <= i < |s| ==> IsSpace(s[i])
  {
    assert forall c :: IsSpace(c) <==>
      c in " \t\n\r\U{0B}\U{0C}\U{85}\U{A0}\U{1680}\U{2000}\U{2001}\U{2002}\U{2003}\U{2004}\U{2005}\U{2006}\U{2007}"
      || c in "\U{2008}\U{2009}\U{200A}\U{2028}\U{2029}\U{202F}\U{205F}\U{3000}";
    assert forall i :: 0 <= i < |s| ==> s[i] in s;
  }

  lemma {:induction false} TrimPadded(before: string, s: string, after: string)
    requires forall i :: 0 <= i < |before| ==> IsSpace(before[i])
    requires forall i :: 0 <= i < |after| ==> IsSpace(after[i])
    requires s != "" && !IsSpace(s[0]) && !IsSpace(s[|s| - 1])
    ensures Trim(before + s + after) == s
    decreases |before|, |after|
  {
    var t := before + s + after;
    if before != "" {
      assert t[1..] == before[1..] + s + after;
      TrimPadded(before[1..], s, after);
    } else if after != "" {
      assert t == s + after;
      assert t[..|t| - 1] == "" + s + after[..|after| - 1];
      TrimPadded("", s, after[..|after| - 1]);
    } else {
      assert t == s;
    }
  }

  /** What the suffixes mean, written out. */
  lemma SuffixMeans(suffix: string)
    requires suffix in ["", "k", "K", "m", "M", "g", "G"]
    ensures (suffix == "" || (|suffix| == 1 && SuffixFactor(suffix[0]).Some?))
    ensures (if suffix == "" then 1 else SuffixFactor(suffix[0]).value)
         == if suffix == "" then 1
            else if suffix == "k" || suffix == "K" then 1024
            else if suffix == "m" || suffix == "M" then 1024 * 1024
            else 1024 * 1024 * 1024
  {
  }

  /** A number with a suffix, or none, and any blanks around it, is read as digits times factor
      exactly when number and product fit in 64 bits; otherwise the error says which does not. */
  lemma {:induction false} MemoryReadExactly(before: string, num: string, suffix: string, after: string)
    requires AllSpaces(before) && AllSpaces(after)
    requires Numeral(num).Some? && suffix in ["", "k", "K", "m", "M", "g", "G"]
    ensures var n := Numeral(num).value;
      var bytes := if suffix == "" then n
                   else if suffix == "k" || suffix == "K" then n * 1024
                   else if suffix == "m" || suffix == "M" then n * (1024 * 1024)
                   else n * (1024 * 1024 * 1024);
      ParseMemory(before + num + suffix + after)
      == if bytes <= 0xffff_ffff_ffff_ffff then Ok(bytes)
         else if n <= 0xffff_ffff_ffff_ffff then Err(MemoryOverflow) else Err(InvalidMemory)
  {
    SuffixMeans(suffix);
    MemoryRead(before, num, suffix, after);
  }

  lemma {:induction false} MemoryRead(before: string, num: string, suffix: string, after: string)
    requires AllSpaces(before) && AllSpaces(after)
    requires Numeral(num).Some?
    requires suffix == "" || (|suffix| == 1 && SuffixFactor(suffix[0]).Some?)
    ensures var n := Numeral(num).value;
      var bytes := n * (if suffix == "" then 1 else SuffixFactor(suffix[0]).value);
      ParseMemory(before + num + suffix + after)
      == if bytes <= U64_MAX then Ok(bytes) else if n <= U64_MAX then Err(MemoryOverflow) else Err(InvalidMemory)
  {
    var s := num + suffix;
    NumeralEnds(num);
    assert before + num + suffix + after == before + s + after;
    AllSpacesMeans(before);
    AllSpacesMeans(after);
    TrimPadded(before, s, after);
    if suffix == "" {
      assert s == num;
    } else {
      assert s[..|s| - 1] == num;
      MulGrows(Numeral(num).value, SuffixFactor(suffix[0]).value);
    }
  }

  /** Blanks alone are an error of their own. */
  lemma {:induction false} BlanksAreEmpty(blanks: string)
    requires AllSpaces(blanks)
    ensures ParseMemory(blanks) == Err(EmptyMemory)
  {
    AllSpacesMeans(blanks);
    if blanks != "" {
      BlanksAreEmpty(blanks[1..]);
    }
  }

  /** One leading plus is allowed, and a number in it is read like without. */
  lemma PlusRead(n: nat, max: nat)
    ensures ParseUnsigned("+" + Show(n), max) == if n <= max then Some(n) else None
  {
    assert ("+" + Show(n))[1..] == Show(n);
    ShowValue(n);
  }

  lemma NumeralEnds(num: string)
    requires Numeral(num).Some?
    ensures num != "" && !IsSpace(num[0]) && IsDigit(num[|num| - 1])
  {
    assert num[0] == '+' ==> num[1..][|num| - 2] == num[|num| - 1];
  }

  lemma MulGrows(n: nat, f: nat)
    requires f >= 1
    ensures n * f >= n
  {
  }

  /** Nothing else is accepted: blanks, at most one plus, digits, at most one suffix, blanks. */
  lemma {:induction false} MemoryAcceptsOnly(text: string)
    requires ParseMemory(text).Ok?
    ensures exists before, num, suffix, after ::
      && text == before + (num + suffix) + after && AllSpaces(before) && AllSpaces(after)
      && Numeral(num).Some? && suffix in ["", "k", "K", "m", "M", "g", "G"]
  {
    var s := Trim(text);
    var before, after := TrimSplits(text);
    if SuffixFactor(s[|s| - 1]).Some? {
      var num, suffix := s[..|s| - 1], s[|s| - 1..];
      assert suffix == [s[|s| - 1]] && s == num + suffix;
      SuffixIsOne(suffix[0]);
      assert text == before + (num + suffix) + after;
    } else {
      assert s == s + "";
      assert text == before + (s + "") + after;
    }
  }

  lemma SuffixIsOne(c: char)
    requires SuffixFactor(c).Some?
    ensures [c] in ["", "k", "K", "m", "M", "g", "G"]
  {
    assert c in "kKmMgG";
    assert [c] == "k" || [c] == "K" || [c] == "m" || [c] == "M" || [c] == "g" || [c] == "G";
  }

  lemma TrimSplits(text: string) returns (before: string, after: string)
    ensures text == before + Trim(text) + after && AllSpaces(before) && AllSpaces(after)
  {
    before := StartSplits(text);
    after := EndSplits(TrimStart(text));
  }

  lemma {:induction false} StartSplits(text: string) returns (before: string)
    ensures text == before + TrimStart(text) && AllSpaces(before)
  {
    before := "";
    if text != "" && IsSpace(text[0]) {
      var more := StartSplits(text[1..]);
      AllSpacesMeans(more);
      before := [text[0]] + more;
    }
    AllSpacesMeans(before);
  }

  lemma {:induction false} EndSplits(text: string) returns (after: string)
    ensures text == TrimEnd(text) + after && AllSpaces(after)
  {
    after := "";
    if text != "" && IsSpace(text[|text| - 1]) {
      var more := EndSplits(text[..|text| - 1]);
      AllSpacesMeans(more);
      after := more + [text[|text| - 1]];
    }
    AllSpacesMeans(after);
  }

  /** A number is digits, after at most one plus. */
  lemma NumeralMeans(s: string)
    ensures Numeral(s).Some? <==>
      || (s != "" && forall c :: c in s ==> '0' <= c <= '9')
      || (|s| > 1 && s[0] == '+' && forall c :: c in s[1..] ==> '0' <= c <= '9')
  {
    AllDigitsMeans(s);
    if s != "" {
      AllDigitsMeans(s[1..]);
      assert s[0] in s;
    }
  }

  lemma AllDigitsMeans(s: string)
    ensures AllDigits(s) <==> forall c :: c in s ==> '0' <= c <= '9'
  {
    assert forall i :: 0 <= i < |s| ==> s[i] in s;
    assert forall c :: c in s && AllDigits(s) ==> IsDigit(c);
  }
}
