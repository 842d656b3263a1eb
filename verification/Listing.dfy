/** Directory listings as text: one line per entry, a name and a decimal mode. Bodies are texts of
    Unicode characters. */
module Listing {
  import opened Wrappers
  import opened Seqs
  import opened Codec
  import opened Modes
  import opened Decimals

  datatype Entry = Entry(name: string, mode: Mode)

  // ----- entries in the order of their names -----

  predicate Below(a: string, b: string) {
    b != [] && (a == [] || a[0] < b[0] || (a[0] == b[0] && Below(a[1..], b[1..])))
  }

  lemma {:induction false} BelowIsStrict(a: string, b: string)
    ensures !(Below(a, b) && Below(b, a)) && !Below(a, a) && (a == b || Below(a, b) || Below(b, a))
  {
    if a != [] && b != [] {
      BelowIsStrict(a[1..], b[1..]);
      assert a == [a[0]] + a[1..] && b == [b[0]] + b[1..];
    }
    if a != [] { BelowIsStrict(a[1..], a[1..]); }
  }

  lemma {:induction false} BelowIsTransitive(a: string, b: string, c: string)
    requires Below(a, b) && Below(b, c)
    ensures Below(a, c)
  {
    if a != [] && a[0] == b[0] && b[0] == c[0] { BelowIsTransitive(a[1..], b[1..], c[1..]); }
  }

  /** A map from names to modes, as the sequence that iterating over it gives. */
  predicate Sorted(es: seq<Entry>) {
    forall i, j :: 0 <= i < j < |es| ==> Below(es[i].name, es[j].name)
  }

  function Lookup(es: seq<Entry>, name: string): Option<Mode> {
    if es == [] then None else if es[0].name == name then Some(es[0].mode) else Lookup(es[1..], name)
  }

  function Put(es: seq<Entry>, name: string, mode: Mode): seq<Entry> {
    if es == [] || Below(name, es[0].name) then [Entry(name, mode)] + es
    else if name == es[0].name then [Entry(name, mode)] + es[1..]
    else [es[0]] + Put(es[1..], name, mode)
  }

  function Drop(es: seq<Entry>, name: string): seq<Entry> {
    if es == [] then [] else if es[0].name == name then es[1..] else [es[0]] + Drop(es[1..], name)
  }

  predicate AllBelow(name: string, es: seq<Entry>) {
    forall i :: 0 <= i < |es| ==> Below(name, es[i].name)
  }

  lemma {:induction false} LookupAbove(name: string, es: seq<Entry>)
    requires AllBelow(name, es)
    ensures Lookup(es, name) == None
  {
    if es != [] {
      BelowIsStrict(name, es[0].name);
      LookupAbove(name, es[1..]);
    }
  }

  lemma {:induction false} PutSets(es: seq<Entry>, name: string, mode: Mode, other: string)
    requires Sorted(es)
    ensures Sorted(Put(es, name, mode))
    ensures Lookup(Put(es, name, mode), other) == if other == name then Some(mode) else Lookup(es, other)
    ensures forall low :: AllBelow(low, es) && Below(low, name) ==> AllBelow(low, Put(es, name, mode))
  {
    if es != [] {
      BelowIsStrict(name, es[0].name);
      if Below(name, es[0].name) {
        forall i | 0 < i < |es| ensures Below(name, es[i].name) { BelowIsTransitive(name, es[0].name, es[i].name); }
      } else if name != es[0].name {
        PutSets(es[1..], name, mode, other);
        assert AllBelow(es[0].name, Put(es[1..], name, mode));
      }
    }
  }

  lemma {:induction false} DropRemoves(es: seq<Entry>, name: string, other: string)
    requires Sorted(es)
    ensures Sorted(Drop(es, name))
    ensures Lookup(Drop(es, name), other) == if other == name then None else Lookup(es, other)
  {
    if es != [] {
      assert AllBelow(es[0].name, es[1..]);
      if es[0].name == name {
        LookupAbove(name, es[1..]);
      } else {
        DropRemoves(es[1..], name, other);
        DropStaysAbove(es[1..], name, es[0].name);
      }
    }
  }

  lemma {:induction false} DropStaysAbove(es: seq<Entry>, name: string, low: string)
    requires AllBelow(low, es)
    ensures AllBelow(low, Drop(es, name))
  {
    if es != [] && es[0].name != name { DropStaysAbove(es[1..], name, low); }
  }

  lemma {:induction false} PutLast(es: seq<Entry>, e: Entry)
    requires Sorted(es + [e])
    ensures Put(es, e.name, e.mode) == es + [e]
  {
    var all := es + [e];
    if es != [] {
      assert Below(all[0].name, all[|es|].name);
      BelowIsStrict(es[0].name, e.name);
      assert all[1..] == es[1..] + [e];
      PutLast(es[1..], e);
    }
  }

  lemma {:induction false} NoNameAbove(name: string, es: seq<Entry>, e: Entry)
    requires AllBelow(name, es) && e in es
    ensures e.name != name
  {
    BelowIsStrict(name, name);
  }

  /** Setting a name replaces its entry and leaves the others. */
  lemma {:induction false} PutMembers(es: seq<Entry>, name: string, mode: Mode, e: Entry)
    requires Sorted(es)
    ensures e in Put(es, name, mode) <==> e == Entry(name, mode) || (e in es && e.name != name)
  {
    if es != [] {
      BelowIsStrict(name, es[0].name);
      assert AllBelow(es[0].name, es[1..]);
      assert es == [es[0]] + es[1..];
      if Below(name, es[0].name) {
        forall i | 0 < i < |es| ensures Below(name, es[i].name) { BelowIsTransitive(name, es[0].name, es[i].name); }
        if e in es { NoNameAbove(name, es, e); }
      } else if name != es[0].name {
        PutMembers(es[1..], name, mode, e);
      } else if e in es[1..] {
        NoNameAbove(name, es[1..], e);
      }
    }
  }

  /** Removing a name removes its entry and leaves the others. */
  lemma {:induction false} DropMembers(es: seq<Entry>, name: string, e: Entry)
    requires Sorted(es)
    ensures e in Drop(es, name) <==> e in es && e.name != name
  {
    if es != [] {
      assert AllBelow(es[0].name, es[1..]);
      assert es == [es[0]] + es[1..];
      if es[0].name != name {
        DropMembers(es[1..], name, e);
      } else if e in es[1..] {
        NoNameAbove(name, es[1..], e);
      }
    }
  }

  // ----- words and lines -----

  /** The characters that Unicode counts as white space. */
  predicate Space(c: char) {
    var n := c as int;
    || 9 <= n <= 13 || n == 32 || n == 0x85 || n == 0xA0 || n == 0x1680 || 0x2000 <= n <= 0x200A
    || n == 0x2028 || n == 0x2029 || n == 0x202F || n == 0x205F || n == 0x3000
  }

  predicate Solid(s: string) {
    forall i :: 0 <= i < |s| ==> !Space(s[i])
  }

  function FirstWord(s: string): (w: string)
    ensures w <= s && Solid(w)
  {
    if s == [] || Space(s[0]) then [] else [s[0]] + FirstWord(s[1..])
  }

  /** The words between white space. */
  function Words(s: string): (ws: seq<string>)
    ensures forall i :: 0 <= i < |ws| ==> ws[i] != [] && Solid(ws[i])
    decreases |s|
  {
    if s == [] then [] else if Space(s[0]) then Words(s[1..]) else [FirstWord(s)] + Words(s[|FirstWord(s)|..])
  }

  /** The lines of a text. A carriage return at the end of a line stays here; it is white space to
      what reads the line. */
  function Lines(s: string): seq<string> {
    LinesOf(s, '\n')
  }

  lemma {:induction false} FirstWordEnds(w: string, rest: string)
    requires Solid(w) && (rest == [] || Space(rest[0]))
    ensures FirstWord(w + rest) == w
  {
    if w == [] {
      assert w + rest == rest;
    } else {
      FirstWordEnds(w[1..], rest);
      assert (w + rest)[1..] == w[1..] + rest;
    }
  }

  lemma TwoWords(a: string, b: string)
    requires Solid(a) && Solid(b) && a != [] && b != []
    ensures Words(a + " " + b) == [a, b]
  {
    var s := a + " " + b;
    assert s == a + (" " + b);
    FirstWordEnds(a, " " + b);
    assert s[|a|..] == " " + b && (" " + b)[1..] == b;
    FirstWordEnds(b, []);
    assert b + [] == b && b[|b|..] == [];
    assert Words(b) == [b] + Words([]);
    assert Words(" " + b) == Words(b);
  }

  // ----- numbers and modes -----

  /** A number of 32 bits, with an optional plus sign. */
  function ParseU32(s: string): Option<u32> {
    var digits := if s != [] && s[0] == '+' then s[1..] else s;
    if digits == [] || !AllDigits(digits) || ValueOf(digits) >= 0x1_0000_0000 then None else Some(ValueOf(digits))
  }

  lemma DecimalParses(n: u32)
    ensures ParseU32(Decimal(n)) == Some(n) && Solid(Decimal(n))
  {
    DecimalIsValue(n);
  }

  /** `parse_http_mode`: what is not a number counts as 0644, other kinds as regular files. */
  function ParseMode(s: string): Mode {
    match ParseU32(s)
    case None => Mode(Regular, 420)
    case Some(bits) => Mode(match TypeNibble(bits) case 4 => Directory case 10 => Symlink case _ => Regular, bits % 512)
  }

  function FormatMode(m: Mode): string {
    Decimal(UnixMode(m))
  }

  predicate ListableMode(m: Mode) {
    m.kind.Directory? || m.kind.Symlink? || m.kind.Regular?
  }

  /** A mode survives exactly when its kind is one that a listing can tell. */
  lemma ModeRoundTrip(m: Mode)
    ensures ParseMode(FormatMode(m)) == m <==> ListableMode(m)
  {
    DecimalParses(UnixMode(m));
    UnixRoundTrip(m);
  }

  // ----- listings -----

  function ParseLine(line: string): Option<Entry> {
    var ws := Words(line);
    if |ws| < 2 then None else Some(Entry(ws[0], ParseMode(ws[1])))
  }

  function Enter(es: seq<Entry>, e: Option<Entry>): seq<Entry> {
    if e.None? then es else Put(es, e.value.name, e.value.mode)
  }

  function ParseLines(lines: seq<string>): seq<Entry> {
    if lines == [] then [] else Enter(ParseLines(lines[..|lines| - 1]), ParseLine(lines[|lines| - 1]))
  }

  function ParseListing(body: string): seq<Entry> {
    ParseLines(Lines(body))
  }

  function EntryText(e: Entry): string {
    e.name + " " + FormatMode(e.mode)
  }

  function FormatListing(es: seq<Entry>): string {
    if es == [] then "" else EntryText(es[0]) + "\n" + FormatListing(es[1..])
  }

  predicate ListableName(name: string) {
    name != [] && Solid(name)
  }

  predicate Listable(e: Entry) {
    ListableName(e.name) && ListableMode(e.mode)
  }

  predicate AllListable(es: seq<Entry>) {
    forall i :: 0 <= i < |es| ==> Listable(es[i])
  }

  lemma EntryTextParses(e: Entry)
    requires ListableName(e.name)
    ensures ParseLine(EntryText(e)) == Some(Entry(e.name, ParseMode(FormatMode(e.mode)))) && '\n' !in EntryText(e)
  {
    DecimalParses(UnixMode(e.mode));
    TwoWords(e.name, FormatMode(e.mode));
  }

  function EntryTexts(es: seq<Entry>): (ts: seq<string>)
    ensures |ts| == |es| && forall i :: 0 <= i < |es| ==> ts[i] == EntryText(es[i])
  {
    if es == [] then [] else [EntryText(es[0])] + EntryTexts(es[1..])
  }

  lemma {:induction false} LinesOfListing(es: seq<Entry>)
    requires AllListable(es)
    ensures Lines(FormatListing(es)) == EntryTexts(es)
  {
    if es != [] {
      EntryTextParses(es[0]);
      LinesOfListing(es[1..]);
      LineBreak(EntryText(es[0]), '\n', FormatListing(es[1..]));
    }
  }

  lemma {:induction false} ParseTexts(es: seq<Entry>)
    requires AllListable(es) && Sorted(es)
    ensures ParseLines(EntryTexts(es)) == es
  {
    if es != [] {
      var front, last := es[..|es| - 1], es[|es| - 1];
      ParseTexts(front);
      TextsOfFront(es);
      EntryTextParses(last);
      ModeRoundTrip(last.mode);
      TakeStep(es, |es| - 1);
      TakeAll(es);
      PutLast(front, last);
    }
  }

  lemma TextsOfFront(es: seq<Entry>)
    requires es != []
    ensures EntryTexts(es)[..|es| - 1] == EntryTexts(es[..|es| - 1])
  {
  }

  lemma PutIsListable(es: seq<Entry>, e: Entry)
    requires AllListable(es) && Listable(e)
    ensures AllListable(Put(es, e.name, e.mode))
  {
  }

  /** Whatever the text, what is parsed from it is sorted and can be listed. */
  lemma {:induction false} ParsedIsListable(lines: seq<string>)
    ensures Sorted(ParseLines(lines)) && AllListable(ParseLines(lines))
  {
    if lines != [] {
      ParsedIsListable(lines[..|lines| - 1]);
      var es, e := ParseLines(lines[..|lines| - 1]), ParseLine(lines[|lines| - 1]);
      if e.Some? {
        PutSets(es, e.value.name, e.value.mode, []);
        PutIsListable(es, e.value);
      }
    }
  }

  /** A listing comes back from its text exactly when all its names and modes can be listed. */
  lemma ListingRoundTrip(es: seq<Entry>)
    requires Sorted(es)
    ensures ParseListing(FormatListing(es)) == es <==> AllListable(es)
  {
    if AllListable(es) {
      LinesOfListing(es);
      ParseTexts(es);
    }
    ParsedIsListable(Lines(FormatListing(es)));
  }
  /** A name of two words, the second of them no number, comes back as a regular file under its first
      word, whatever the entry was. */
  lemma {:induction false} SpaceSplitsName(a: string, b: string, m: Mode)
    requires ListableName(a) && ListableName(b) && ParseU32(b) == None
    ensures ParseListing(FormatListing([Entry(a + " " + b, m)])) == [Entry(a, Mode(Regular, 420))]
  {
    var e := Entry(a + " " + b, m);
    var line := EntryText(e);
    DecimalParses(UnixMode(m));
    ManyWords(a, b, FormatMode(m));
    OneLine(e, line);
    assert ParseLines([line]) == Enter(ParseLines([]), ParseLine(line));
  }

  lemma ManyWords(a: string, b: string, rest: string)
    requires ListableName(a) && ListableName(b)
    ensures var ws := Words(a + " " + b + " " + rest); |ws| >= 2 && ws[0] == a && ws[1] == b
  {
    var tail := b + (" " + rest);
    var s := a + (" " + tail);
    assert a + " " + b + " " + rest == s;
    FirstWordEnds(a, " " + tail);
    FirstWordEnds(b, " " + rest);
    assert !Space(s[0]) && !Space(tail[0]);
    assert s[|a|..] == " " + tail && (" " + tail)[1..] == tail;
    assert Words(s) == [a] + Words(" " + tail) && Words(" " + tail) == Words(tail);
    assert Words(tail) == [b] + Words(tail[|b|..]);
  }

  lemma OneLine(e: Entry, line: string)
    requires line == EntryText(e) && '\n' !in line
    ensures Lines(FormatListing([e])) == [line]
  {
    assert FormatListing([e]) == line + "\n" + FormatListing([]);
    LineBreak(line, '\n', "");
  }

  /** The order of names: the shorter when it is a prefix, else by the first character that differs. */
  lemma {:induction false} BelowIsLexicographic(a: string, b: string, k: nat)
    requires k <= |a| && k <= |b| && a[..k] == b[..k]
    requires k == |a| || k == |b| || a[k] != b[k]
    ensures Below(a, b) <==> k < |b| && (k == |a| || a[k] < b[k])
  {
    if k > 0 {
      assert a[0] == a[..k][0] && b[0] == b[..k][0];
      assert a[1..][..k - 1] == a[..k][1..] && b[1..][..k - 1] == b[..k][1..];
      BelowIsLexicographic(a[1..], b[1..], k - 1);
    }
  }

  /** An entry's line: its name, a blank, its Unix mode in decimal, a line feed. */
  lemma {:induction false} ListingLayout(e: Entry, more: seq<Entry>)
    ensures FormatListing([]) == ""
    ensures FormatListing([e] + more) == e.name + " " + Decimal(UnixMode(e.mode)) + "\n" + FormatListing(more)
  {
    assert ([e] + more)[1..] == more;
  }

  /** What a line says: its first two words are the name and the mode; a line of fewer words says
      nothing. A mode that is no number of 32 bits counts as that of a plain file. */
  lemma {:induction false} LineSays(line: string)
    ensures |Words(line)| < 2 ==> ParseLine(line) == None
    ensures |Words(line)| >= 2 ==> ParseLine(line).Some? && ParseLine(line).value.name == Words(line)[0]
    ensures |Words(line)| >= 2 && !(AllDigits(Words(line)[1]) && ValueOf(Words(line)[1]) < 0x1_0000_0000)
            && Words(line)[1][0] != '+' ==>
      ParseLine(line).value.mode == Mode(Regular, 420)
  {
  }

  /** Of several lines about a name the last counts; lines that say nothing change nothing. */
  lemma {:induction false} LastLineCounts(lines: seq<string>, line: string, e: Entry)
    ensures e in ParseLines(lines + [line]) <==>
      if ParseLine(line).Some? && ParseLine(line).value.name == e.name then ParseLine(line) == Some(e)
      else e in ParseLines(lines)
  {
    assert (lines + [line])[..|lines|] == lines;
    ParsedIsListable(lines);
    var said := ParseLine(line);
    if said.Some? { PutMembers(ParseLines(lines), said.value.name, said.value.mode, e); }
  }
}
