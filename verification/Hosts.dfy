/** The text of a network's hosts file (src/network.rs) and how a resolver reads it. */
module Hosts {
  import opened Wrappers
  import opened Decimal

  newtype u8 = x: int | 0 <= x < 0x100

  /** The address 10.0.`third`.`last`. */
  datatype Address = Address(third: u8, last: u8)

  function AddressText(a: Address): string {
    "10.0." + Show(a.third as nat) + "." + Show(a.last as nat)
  }

  // ---------- Writing ----------

  datatype HostLine = HostLine(ip: Address, name: string)

  function LineText(l: HostLine): string {
    AddressText(l.ip) + " " + l.name + "\n"
  }

  function HostsText(lines: seq<HostLine>): string {
    if lines == [] then "" else LineText(lines[0]) + HostsText(lines[1..])
  }

  lemma {:induction false} HostsTextAppends(lines: seq<HostLine>, l: HostLine)
    ensures HostsText(lines + [l]) == HostsText(lines) + LineText(l)
  {
    if lines == [] {
      assert [l][1..] == [];
      assert lines + [l] == [l];
    } else {
      assert (lines + [l])[1..] == lines[1..] + [l];
      HostsTextAppends(lines[1..], l);
    }
  }

  // ---------- Reading ----------

  predicate IsBlank(c: char) {
    c == ' ' || '\t' <= c <= '\r'
  }

  /** The blank-separated fields of a line, up to a comment; `word` is the field being read. */
  function Fields(line: string, word: string): seq<string> {
    if line == "" || line[0] == '#' then Field(word)
    else if IsBlank(line[0]) then Field(word) + Fields(line[1..], "")
    else Fields(line[1..], word + [line[0]])
  }

  function Field(word: string): seq<string> {
    if word == "" then [] else [word]
  }

  function LineEnd(s: string): (n: nat)
    ensures n <= |s|
  {
    if s == "" || s[0] == '\n' then 0 else 1 + LineEnd(s[1..])
  }

  /** The first address whose line lists the name: an address comes first, its names after it. */
  function Lookup(text: string, name: string): Option<string>
    decreases |text|
  {
    if text == "" then None
    else
      var n := LineEnd(text);
      var fields := Fields(text[..n], "");
      if fields != [] && name in fields[1..] then Some(fields[0])
      else Lookup(if n < |text| then text[n + 1..] else "", name)
  }

  /** A name that a line can carry: not empty, and without blanks, newlines and comment signs. */
  predicate PlainName(name: string) {
    name != "" && forall i :: 0 <= i < |name| ==> name[i] != ' ' && !('\t' <= name[i] <= '\r') && name[i] != '#'
  }

  // ---------- Only plain names are ever found ----------

  lemma {:induction false} FieldsArePlain(line: string, word: string)
    requires word == "" || PlainName(word)
    ensures forall f :: f in Fields(line, word) ==> PlainName(f)
    decreases |line|
  {
    if line != "" && line[0] != '#' {
      if IsBlank(line[0]) {
        FieldsArePlain(line[1..], "");
      } else {
        FieldsArePlain(line[1..], word + [line[0]]);
      }
    }
  }

  lemma {:induction false} LookupFindsPlain(text: string, name: string)
    ensures Lookup(text, name).Some? ==> PlainName(name)
    decreases |text|
  {
    if text != "" {
      var n := LineEnd(text);
      FieldsArePlain(text[..n], "");
      LookupFindsPlain(if n < |text| then text[n + 1..] else "", name);
    }
  }

  // ---------- A line with a plain name is read back ----------

  lemma {:induction false} FieldsOfWord(w: string, rest: string, word: string)
    requires w == "" || PlainName(w)
    ensures Fields(w + rest, word) == Fields(rest, word + w)
    decreases |w|
  {
    if w == "" {
      assert w + rest == rest && word + w == word;
    } else {
      assert !IsBlank(w[0]) && w[0] != '#';
      assert (w + rest)[1..] == w[1..] + rest;
      FieldsOfWord(w[1..], rest, word + [w[0]]);
      assert (word + [w[0]]) + w[1..] == word + w;
    }
  }

  lemma FieldsOfPair(ip: string, name: string)
    requires PlainName(ip) && PlainName(name)
    ensures Fields(ip + (" " + name), "") == [ip, name]
  {
    FieldsOfWord(ip, " " + name, "");
    assert "" + ip == ip && (" " + name)[1..] == name;
    FieldsOfWord(name, "", "");
    assert name + "" == name && "" + name == name;
  }

  lemma {:induction false} LineEndFound(w: string, rest: string)
    requires '\n' !in w
    ensures LineEnd(w + ("\n" + rest)) == |w|
  {
    if w == "" {
      assert w + ("\n" + rest) == "\n" + rest;
    } else {
      assert (w + ("\n" + rest))[1..] == w[1..] + ("\n" + rest);
      LineEndFound(w[1..], rest);
    }
  }

  lemma AddressIsPlain(a: Address)
    ensures PlainName(AddressText(a))
  {
    var s, t := Show(a.third as nat), Show(a.last as nat);
    assert forall i :: 0 <= i < |s| ==> IsDigit(s[i]);
    assert forall i :: 0 <= i < |t| ==> IsDigit(t[i]);
  }

  lemma LookupFirstLine(l: HostLine, rest: string, name: string)
    requires PlainName(l.name)
    ensures Lookup(LineText(l) + rest, name) == if name == l.name then Some(AddressText(l.ip)) else Lookup(rest, name)
  {
    var ip := AddressText(l.ip);
    var line := ip + (" " + l.name);
    var text := LineText(l) + rest;
    AddressIsPlain(l.ip);
    assert '\n' !in ip && '\n' !in l.name by {
      assert IsBlank('\n');
    }
    assert text == line + ("\n" + rest);
    LineEndFound(line, rest);
    assert text[..|line|] == line && text[|line| + 1..] == rest;
    FieldsOfPair(ip, l.name);
    assert [ip, l.name][1..] == [l.name];
  }

  // ---------- Lookup agrees with the saved map ----------

  /** The lines are exactly the map's entries, each once. */
  ghost predicate LinesMatch(lines: seq<HostLine>, containers: map<string, Address>) {
    && |lines| == |containers|
    && (forall l :: l in lines ==> l.name in containers && containers[l.name] == l.ip)
    && (forall n :: n in containers ==> HostLine(containers[n], n) in lines)
  }

  /** The file holds a line per entry of the map, in some order. */
  ghost predicate HostsMatch(hosts: Option<string>, containers: map<string, Address>) {
    hosts.Some? && exists lines :: LinesMatch(lines, containers) && hosts.value == HostsText(lines)
  }

  /** Every name is found at the address the map gives it, and no other name is found. */
  ghost predicate Resolves(text: string, containers: map<string, Address>) {
    forall name :: Lookup(text, name) == if name in containers then Some(AddressText(containers[name])) else None
  }

  ghost predicate PlainNames(containers: map<string, Address>) {
    forall n :: n in containers ==> PlainName(n)
  }

  lemma {:induction false} LookupLines(lines: seq<HostLine>, containers: map<string, Address>, name: string)
    requires forall l :: l in lines ==> PlainName(l.name) && l.name in containers && containers[l.name] == l.ip
    ensures var found := Lookup(HostsText(lines), name);
      && (found.Some? ==> name in containers && found == Some(AddressText(containers[name])))
      && (found.None? ==> forall l :: l in lines ==> l.name != name)
  {
    if lines != [] {
      LookupLines(lines[1..], containers, name);
      LookupFirstLine(lines[0], HostsText(lines[1..]), name);
      assert lines == [lines[0]] + lines[1..];
    }
  }

  /** A file that holds the map's entries resolves every name as the map does if and only if all its
      names are plain. */
  lemma LookupAgreesExactly(text: string, containers: map<string, Address>)
    requires HostsMatch(Some(text), containers)
    ensures Resolves(text, containers) <==> PlainNames(containers)
  {
    var lines :| LinesMatch(lines, containers) && text == HostsText(lines);
    if PlainNames(containers) {
      forall name
        ensures Lookup(text, name) == if name in containers then Some(AddressText(containers[name])) else None
      {
        LookupLines(lines, containers, name);
        assert name in containers ==> HostLine(containers[name], name) in lines;
      }
    }
    if Resolves(text, containers) {
      forall n | n in containers
        ensures PlainName(n)
      {
        LookupFindsPlain(text, n);
      }
    }
  }

  lemma EmptyHostsMatch()
    ensures HostsMatch(Some(""), map[])
  {
    assert LinesMatch([], map[]) && HostsText([]) == "";
  }

  // ---------- The writing loop ----------

  /** Appends a line per entry, in whatever order the map is iterated. */
  method WriteHostsText(containers: map<string, Address>) returns (hosts: string)
    ensures HostsMatch(Some(hosts), containers)
  {
    hosts := "";
    ghost var lines: seq<HostLine> := [];
    var rest := containers.Keys;
    while rest != {}
      invariant rest <= containers.Keys
      invariant hosts == HostsText(lines) && |lines| + |rest| == |containers|
      invariant forall l :: l in lines ==> l.name in containers && containers[l.name] == l.ip
      invariant forall n :: n in containers && n !in rest ==> HostLine(containers[n], n) in lines
      decreases |rest|
    {
      var n :| n in rest;
      HostsTextAppends(lines, HostLine(containers[n], n));
      hosts := hosts + LineText(HostLine(containers[n], n));
      lines := lines + [HostLine(containers[n], n)];
      rest := rest - {n};
    }
    assert LinesMatch(lines, containers);
  }
}
