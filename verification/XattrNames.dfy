/** The list of attribute names as one value: sorted, each name ended by a zero byte. */
module XattrNames {
  import opened Wrappers
  import opened Bytes
  import opened Codec

  /** Byte order on texts, as strings are compared. */
  predicate LessEq(a: Text, b: Text) {
    a == [] || (b != [] && (a[0] < b[0] || (a[0] == b[0] && LessEq(a[1..], b[1..]))))
  }

  lemma {:induction false} Total(a: Text, b: Text)
    ensures LessEq(a, b) || LessEq(b, a)
  {
    if a != [] && b != [] { Total(a[1..], b[1..]); }
  }

  predicate Sorted(names: seq<Text>) {
    forall i :: 0 <= i < |names| - 1 ==> LessEq(names[i], names[i + 1])
  }

  function Insert(name: Text, names: seq<Text>): seq<Text> {
    if names == [] || LessEq(name, names[0]) then [name] + names else [names[0]] + Insert(name, names[1..])
  }

  function SortNames(names: seq<Text>): seq<Text> {
    if names == [] then [] else Insert(names[0], SortNames(names[1..]))
  }

  lemma {:induction false} InsertSorts(name: Text, names: seq<Text>)
    requires Sorted(names)
    ensures Sorted(Insert(name, names)) && multiset(Insert(name, names)) == multiset{name} + multiset(names)
    ensures Insert(name, names) != []
    ensures (Insert(name, names)[0] == name || (names != [] && Insert(name, names)[0] == names[0]))
  {
    if names != [] && !LessEq(name, names[0]) {
      InsertSorts(name, names[1..]);
      Total(name, names[0]);
      assert names == [names[0]] + names[1..];
    }
  }

  /** Sorting keeps the names, each as often as it came. */
  lemma {:induction false} SortNamesSorts(names: seq<Text>)
    ensures Sorted(SortNames(names)) && multiset(SortNames(names)) == multiset(names)
  {
    if names != [] {
      SortNamesSorts(names[1..]);
      InsertSorts(names[0], SortNames(names[1..]));
      assert names == [names[0]] + names[1..];
    }
  }

  function EncodeInOrder(names: seq<Text>): seq<Byte> {
    if names == [] then [] else names[0] + [0] + EncodeInOrder(names[1..])
  }

  function EncodeXattrNames(names: seq<Text>): seq<Byte> {
    EncodeInOrder(SortNames(names))
  }

  /** The pieces between zero bytes. */
  function Pieces(s: seq<Byte>): (r: seq<Text>)
    ensures |r| >= 1
  {
    if s == [] then [[]]
    else
      var rest := Pieces(s[1..]);
      if s[0] == 0 then [[]] + rest else [[s[0]] + rest[0]] + rest[1..]
  }

  function DecodeXattrNames(data: seq<Byte>): Result<seq<Text>> {
    if data == [] then Ok([])
    else if data[|data| - 1] != 0 then Err(Invalid)
    else
      var names := Pieces(data[..|data| - 1]);
      if forall i :: 0 <= i < |names| ==> Utf8(names[i]) then Ok(names) else Err(Invalid)
  }

  lemma {:induction false} PiecesAtZero(name: Text, rest: seq<Byte>)
    requires 0 !in name
    ensures Pieces(name) == [name] && Pieces(name + [0] + rest) == [name] + Pieces(rest)
  {
    if name == [] {
      assert name + [0] + rest == [0] + rest;
    } else {
      PiecesAtZero(name[1..], rest);
      assert (name + [0] + rest)[1..] == name[1..] + [0] + rest;
      assert name == [name[0]] + name[1..];
    }
  }

  /** Names without zero bytes. */
  predicate Nameable(names: seq<Text>) {
    forall i :: 0 <= i < |names| ==> 0 !in names[i] && Utf8(names[i])
  }

  lemma {:induction false} PiecesOfNames(names: seq<Text>)
    requires Nameable(names) && names != []
    ensures var e := EncodeInOrder(names); e != [] && e[|e| - 1] == 0 && Pieces(e[..|e| - 1]) == names
  {
    var e, rest := EncodeInOrder(names), EncodeInOrder(names[1..]);
    if |names| == 1 {
      assert names == [names[0]] && e[..|e| - 1] == names[0];
      PiecesAtZero(names[0], []);
    } else {
      PiecesOfNames(names[1..]);
      assert e[..|e| - 1] == names[0] + [0] + rest[..|rest| - 1];
      PiecesAtZero(names[0], rest[..|rest| - 1]);
      assert names == [names[0]] + names[1..];
    }
  }

  lemma SortedIsNameable(names: seq<Text>)
    requires Nameable(names)
    ensures Nameable(SortNames(names)) && (SortNames(names) == [] <==> names == [])
  {
    var sorted := SortNames(names);
    SortNamesSorts(names);
    assert |multiset(sorted)| == |multiset(names)|;
    forall i | 0 <= i < |sorted| ensures 0 !in sorted[i] && Utf8(sorted[i]) {
      assert sorted[i] in multiset(names);
    }
  }

  /** A listing decodes to the sorted names. */
  lemma NamesRoundTrip(names: seq<Text>)
    requires Nameable(names)
    ensures DecodeXattrNames(EncodeXattrNames(names)) == Ok(SortNames(names))
  {
    SortedIsNameable(names);
    var sorted := SortNames(names);
    if sorted != [] { PiecesOfNames(sorted); }
  }

  lemma NamesComeBack(names: seq<Text>)
    ensures Nameable(names) ==> DecodeXattrNames(EncodeXattrNames(names)) == Ok(SortNames(names))
  {
    if Nameable(names) { NamesRoundTrip(names); }
  }

  /** Each name is ended by a zero byte, the last one too. */
  lemma {:induction false} NamesLayout(name: Text, more: seq<Text>)
    ensures EncodeInOrder([]) == [] && EncodeInOrder([name] + more) == name + [0] + EncodeInOrder(more)
  {
    assert ([name] + more)[1..] == more;
  }

  /** The order of names: the shorter when it is a prefix, else by the first byte that differs. */
  lemma {:induction false} LessEqIsLexicographic(a: Text, b: Text, k: nat)
    requires k <= |a| && k <= |b| && a[..k] == b[..k]
    requires k == |a| || k == |b| || a[k] != b[k]
    ensures LessEq(a, b) <==> k == |a| || (k < |b| && a[k] < b[k])
  {
    if k > 0 {
      assert a[0] == a[..k][0] && b[0] == b[..k][0];
      assert a[1..][..k - 1] == a[..k][1..] && b[1..][..k - 1] == b[..k][1..];
      LessEqIsLexicographic(a[1..], b[1..], k - 1);
    }
  }

  /** A list that does not end with a zero byte is refused; an empty one has no names. */
  lemma UnendedNames(data: seq<Byte>)
    ensures DecodeXattrNames([]) == Ok([])
    ensures data != [] && data[|data| - 1] != 0 ==> DecodeXattrNames(data) == Err(Invalid)
  {
  }
}
