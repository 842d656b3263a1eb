/** The binary form of 9P messages, field by field: little-endian integers, counted strings,
    counted data, lists of strings and of qids. (9P: intro(5).) */
module Codec {
  import opened Wrappers
  import opened Bytes
  import opened Seqs

  type u8 = n: int | 0 <= n < 0x100
  type u16 = n: int | 0 <= n < 0x1_0000
  type u32 = n: int | 0 <= n < 0x1_0000_0000
  type u64 = n: int | 0 <= n < 0x1_0000_0000_0000_0000

  datatype Qid = Qid(typ: u8, version: u32, path: u64)

  /** A field of a message. `Num` carries its width in bytes. */
  datatype Field =
    | Num(width: nat, n: nat)
    | Str(bytes: seq<Byte>)
    | Data(data: seq<Byte>)
    | Strs(names: seq<seq<Byte>>)
    | Qids(qids: seq<Qid>)

  datatype Kind = KNum(width: nat) | KStr | KData | KStrs | KQids

  function KindOf(f: Field): Kind {
    match f
    case Num(w, _) => KNum(w)
    case Str(_) => KStr
    case Data(_) => KData
    case Strs(_) => KStrs
    case Qids(_) => KQids
  }

  // ----- integers -----

  function Pow256(width: nat): (r: nat)
    ensures r >= 1
  {
    if width == 0 then 1 else 256 * Pow256(width - 1)
  }

  /** Little-endian, `width` bytes. */
  function LE(width: nat, n: nat): (r: seq<Byte>)
    ensures |r| == width
  {
    if width == 0 then [] else [n % 256] + LE(width - 1, n / 256)
  }

  function FromLE(b: seq<Byte>): (r: nat)
    ensures r < Pow256(|b|)
  {
    if b == [] then 0 else b[0] + 256 * FromLE(b[1..])
  }

  lemma {:induction false} FromLEOfLE(width: nat, n: nat)
    requires n < Pow256(width)
    ensures FromLE(LE(width, n)) == n
  {
    if width > 0 {
      FromLEOfLE(width - 1, n / 256);
      assert LE(width, n)[1..] == LE(width - 1, n / 256);
    }
  }

  lemma {:induction false} LEOfFromLE(b: seq<Byte>)
    ensures LE(|b|, FromLE(b)) == b
  {
    if b != [] {
      LEOfFromLE(b[1..]);
      LowByte(b[0], FromLE(b[1..]));
      assert b == [b[0]] + b[1..];
    }
  }

  lemma LowByte(low: Byte, high: nat)
    ensures (low + 256 * high) % 256 == low && (low + 256 * high) / 256 == high
  {
  }

  lemma Widths()
    ensures Pow256(1) == 0x100 && Pow256(2) == 0x1_0000 && Pow256(4) == 0x1_0000_0000
    ensures Pow256(8) == 0x1_0000_0000_0000_0000
  {
    assert Pow256(2) == 256 * Pow256(1);
    assert Pow256(3) == 256 * Pow256(2);
    assert Pow256(4) == 256 * Pow256(3);
    assert Pow256(5) == 256 * Pow256(4);
    assert Pow256(6) == 256 * Pow256(5);
    assert Pow256(7) == 256 * Pow256(6);
    assert Pow256(8) == 256 * Pow256(7);
  }

  // ----- UTF-8 -----

  predicate Cont(b: Byte) {
    0x80 <= b < 0xC0
  }

  /** How many bytes the first character takes; 0 when it is malformed. */
  function Utf8Head(s: seq<Byte>): (k: nat)
    requires s != []
    ensures k <= |s|
  {
    var b := s[0];
    if b < 0x80 then 1
    else if 0xC2 <= b < 0xE0 then (if |s| >= 2 && Cont(s[1]) then 2 else 0)
    else if 0xE0 <= b < 0xF0 then
      if |s| >= 3 && Cont(s[1]) && Cont(s[2]) && (b == 0xE0 ==> s[1] >= 0xA0)
      && (b == 0xED ==> s[1] < 0xA0) then 3 else 0
    else if 0xF0 <= b < 0xF5 then
      if |s| >= 4 && Cont(s[1]) && Cont(s[2]) && Cont(s[3]) && (b == 0xF0 ==> s[1] >= 0x90)
      && (b == 0xF4 ==> s[1] < 0x90) then 4 else 0
    else 0
  }

  predicate Utf8(s: seq<Byte>) {
    s == [] || (Utf8Head(s) > 0 && Utf8(s[Utf8Head(s)..]))
  }

  /** An ASCII byte between two texts splits well-formedness. */
  lemma {:induction false} Utf8AroundAscii(a: seq<Byte>, c: Byte, b: seq<Byte>)
    requires c < 0x80
    ensures Utf8(a + [c] + b) <==> Utf8(a) && Utf8(b)
    decreases |a|
  {
    var s := a + [c] + b;
    if a == [] {
      assert s[1..] == b;
    } else {
      var k := Utf8Head(a);
      assert forall i :: 0 <= i < |a| ==> s[i] == a[i];
      assert s[|a|] == c;
      assert Utf8Head(s) == k;
      if k > 0 {
        Utf8AroundAscii(a[k..], c, b);
        assert s[k..] == a[k..] + [c] + b;
      }
    }
  }

  // ----- encoding -----

  function EncodeQid(q: Qid): seq<Byte> {
    [q.typ] + LE(4, q.version) + LE(8, q.path)
  }

  function EncodeStr(s: seq<Byte>): seq<Byte> {
    LE(2, |s|) + s
  }

  function EncodeStrs(names: seq<seq<Byte>>): seq<Byte> {
    if names == [] then [] else EncodeStr(names[0]) + EncodeStrs(names[1..])
  }

  function EncodeQids(qids: seq<Qid>): seq<Byte> {
    if qids == [] then [] else EncodeQid(qids[0]) + EncodeQids(qids[1..])
  }

  function EncodeField(f: Field): seq<Byte> {
    match f
    case Num(w, n) => LE(w, n)
    case Str(s) => EncodeStr(s)
    case Data(d) => LE(4, |d|) + d
    case Strs(names) => LE(2, |names|) + EncodeStrs(names)
    case Qids(qids) => LE(2, |qids|) + EncodeQids(qids)
  }

  function EncodeAll(fs: seq<Field>): seq<Byte> {
    if fs == [] then [] else EncodeField(fs[0]) + EncodeAll(fs[1..])
  }

  predicate FitsStr(s: seq<Byte>) {
    |s| < 0x1_0000
  }

  /** The lengths that the encoder accepts. */
  predicate Fits(f: Field) {
    match f
    case Num(w, n) => n < Pow256(w)
    case Str(s) => FitsStr(s)
    case Data(d) => |d| < 0x1_0000_0000
    case Strs(names) => |names| < 0x1_0000 && forall i :: 0 <= i < |names| ==> FitsStr(names[i])
    case Qids(qids) => |qids| < 0x1_0000
  }

  /** Strings are text: a Rust string is always well-formed UTF-8. */
  predicate Textual(f: Field) {
    match f
    case Str(s) => Utf8(s)
    case Strs(names) => forall i :: 0 <= i < |names| ==> Utf8(names[i])
    case _ => true
  }

  predicate Good(f: Field) {
    Fits(f) && Textual(f)
  }

  predicate AllGood(fs: seq<Field>) {
    forall i :: 0 <= i < |fs| ==> Good(fs[i])
  }

  predicate AllFit(fs: seq<Field>) {
    forall i :: 0 <= i < |fs| ==> Fits(fs[i])
  }

  predicate KindsMatch(kinds: seq<Kind>, fs: seq<Field>) {
    |kinds| == |fs| && forall i :: 0 <= i < |fs| ==> KindOf(fs[i]) == kinds[i]
  }

  // ----- decoding -----

  /** A value read from the front of a byte string, with what is left. */
  datatype Parsed<+T> = Parsed(value: T, rest: seq<Byte>)

  function TakeBytes(b: seq<Byte>, n: nat): Result<Parsed<seq<Byte>>> {
    if n <= |b| then Ok(Parsed(b[..n], b[n..])) else Err(UnexpectedEof)
  }

  function TakeNum(b: seq<Byte>, width: nat): Result<Parsed<nat>> {
    if width <= |b| then Ok(Parsed(FromLE(b[..width]), b[width..])) else Err(UnexpectedEof)
  }

  function TakeStr(b: seq<Byte>): Result<Parsed<seq<Byte>>> {
    var n :- TakeNum(b, 2);
    var s :- TakeBytes(n.rest, n.value);
    if Utf8(s.value) then Ok(s) else Err(Invalid)
  }

  function TakeQid(b: seq<Byte>): Result<Parsed<Qid>> {
    if |b| >= 13 then
      Widths();
      Ok(Parsed(Qid(b[0], FromLE(b[1..5]), FromLE(b[5..13])), b[13..]))
    else Err(UnexpectedEof)
  }

  function TakeStrs(b: seq<Byte>, n: nat): Result<Parsed<seq<seq<Byte>>>>
    decreases n
  {
    if n == 0 then Ok(Parsed([], b))
    else
      var s :- TakeStr(b);
      var more :- TakeStrs(s.rest, n - 1);
      Ok(Parsed([s.value] + more.value, more.rest))
  }

  function TakeQids(b: seq<Byte>, n: nat): Result<Parsed<seq<Qid>>>
    decreases n
  {
    if n == 0 then Ok(Parsed([], b))
    else
      var q :- TakeQid(b);
      var more :- TakeQids(q.rest, n - 1);
      Ok(Parsed([q.value] + more.value, more.rest))
  }

  function TakeField(k: Kind, b: seq<Byte>): Result<Parsed<Field>> {
    match k
    case KNum(w) => var n :- TakeNum(b, w); Ok(Parsed(Num(w, n.value), n.rest))
    case KStr => var s :- TakeStr(b); Ok(Parsed(Str(s.value), s.rest))
    case KData => var n :- TakeNum(b, 4); var d :- TakeBytes(n.rest, n.value); Ok(Parsed(Data(d.value), d.rest))
    case KStrs => var n :- TakeNum(b, 2); var s :- TakeStrs(n.rest, n.value); Ok(Parsed(Strs(s.value), s.rest))
    case KQids => var n :- TakeNum(b, 2); var q :- TakeQids(n.rest, n.value); Ok(Parsed(Qids(q.value), q.rest))
  }

  function TakeFields(kinds: seq<Kind>, b: seq<Byte>): Result<Parsed<seq<Field>>>
    decreases |kinds|
  {
    if kinds == [] then Ok(Parsed([], b))
    else
      var f :- TakeField(kinds[0], b);
      var more :- TakeFields(kinds[1..], f.rest);
      Ok(Parsed([f.value] + more.value, more.rest))
  }

  // ----- each form inverts the other -----

  lemma TakeNumInverts(width: nat, n: nat, rest: seq<Byte>)
    requires n < Pow256(width)
    ensures TakeNum(LE(width, n) + rest, width) == Ok(Parsed(n, rest))
  {
    FromLEOfLE(width, n);
    assert (LE(width, n) + rest)[..width] == LE(width, n);
    assert (LE(width, n) + rest)[width..] == rest;
  }

  lemma TakeStrInverts(s: seq<Byte>, rest: seq<Byte>)
    requires FitsStr(s) && Utf8(s)
    ensures TakeStr(EncodeStr(s) + rest) == Ok(Parsed(s, rest))
  {
    Widths();
    assert EncodeStr(s) + rest == LE(2, |s|) + (s + rest);
    TakeNumInverts(2, |s|, s + rest);
    assert (s + rest)[..|s|] == s && (s + rest)[|s|..] == rest;
  }

  lemma TakeQidInverts(q: Qid, rest: seq<Byte>)
    ensures TakeQid(EncodeQid(q) + rest) == Ok(Parsed(q, rest))
  {
    Widths();
    var b := EncodeQid(q) + rest;
    FromLEOfLE(4, q.version);
    FromLEOfLE(8, q.path);
    assert b[1..5] == LE(4, q.version) && b[5..13] == LE(8, q.path) && b[13..] == rest;
  }

  lemma {:induction false} TakeStrsInverts(names: seq<seq<Byte>>, rest: seq<Byte>)
    requires forall i :: 0 <= i < |names| ==> FitsStr(names[i]) && Utf8(names[i])
    ensures TakeStrs(EncodeStrs(names) + rest, |names|) == Ok(Parsed(names, rest))
  {
    if names == [] {
      assert EncodeStrs(names) + rest == rest;
    } else {
      assert EncodeStrs(names) + rest == EncodeStr(names[0]) + (EncodeStrs(names[1..]) + rest);
      TakeStrInverts(names[0], EncodeStrs(names[1..]) + rest);
      TakeStrsInverts(names[1..], rest);
      assert [names[0]] + names[1..] == names;
    }
  }

  lemma {:induction false} TakeQidsInverts(qids: seq<Qid>, rest: seq<Byte>)
    ensures TakeQids(EncodeQids(qids) + rest, |qids|) == Ok(Parsed(qids, rest))
  {
    if qids == [] {
      assert EncodeQids(qids) + rest == rest;
    } else {
      assert EncodeQids(qids) + rest == EncodeQid(qids[0]) + (EncodeQids(qids[1..]) + rest);
      TakeQidInverts(qids[0], EncodeQids(qids[1..]) + rest);
      TakeQidsInverts(qids[1..], rest);
      assert [qids[0]] + qids[1..] == qids;
    }
  }

  lemma TakeDataInverts(d: seq<Byte>, rest: seq<Byte>)
    requires Good(Data(d))
    ensures TakeField(KData, EncodeField(Data(d)) + rest) == Ok(Parsed(Data(d), rest))
  {
    Widths();
    Assoc(LE(4, |d|), d, rest);
    TakeNumInverts(4, |d|, d + rest);
    Front(d, rest);
  }

  lemma TakeNameListInverts(names: seq<seq<Byte>>, rest: seq<Byte>)
    requires Good(Strs(names))
    ensures TakeField(KStrs, EncodeField(Strs(names)) + rest) == Ok(Parsed(Strs(names), rest))
  {
    Widths();
    Assoc(LE(2, |names|), EncodeStrs(names), rest);
    TakeNumInverts(2, |names|, EncodeStrs(names) + rest);
    TakeStrsInverts(names, rest);
  }

  lemma TakeQidListInverts(qids: seq<Qid>, rest: seq<Byte>)
    requires Good(Qids(qids))
    ensures TakeField(KQids, EncodeField(Qids(qids)) + rest) == Ok(Parsed(Qids(qids), rest))
  {
    Widths();
    Assoc(LE(2, |qids|), EncodeQids(qids), rest);
    TakeNumInverts(2, |qids|, EncodeQids(qids) + rest);
    TakeQidsInverts(qids, rest);
  }

  lemma TakeFieldInverts(f: Field, rest: seq<Byte>)
    requires Good(f)
    ensures TakeField(KindOf(f), EncodeField(f) + rest) == Ok(Parsed(f, rest))
  {
    match f
    case Num(w, n) => TakeNumInverts(w, n, rest);
    case Str(s) => TakeStrInverts(s, rest);
    case Data(d) => TakeDataInverts(d, rest);
    case Strs(names) => TakeNameListInverts(names, rest);
    case Qids(qids) => TakeQidListInverts(qids, rest);
  }

  /** Decoding what was encoded gives the fields back and consumes exactly their bytes. */
  lemma {:induction false} TakeFieldsInverts(kinds: seq<Kind>, fs: seq<Field>, rest: seq<Byte>)
    requires KindsMatch(kinds, fs) && AllGood(fs)
    ensures TakeFields(kinds, EncodeAll(fs) + rest) == Ok(Parsed(fs, rest))
    decreases |fs|
  {
    if fs == [] {
      assert EncodeAll(fs) + rest == rest;
    } else {
      Assoc(EncodeField(fs[0]), EncodeAll(fs[1..]), rest);
      TakeFieldInverts(fs[0], EncodeAll(fs[1..]) + rest);
      TakeFieldsInverts(kinds[1..], fs[1..], rest);
      assert [fs[0]] + fs[1..] == fs;
    }
  }

  lemma TakeNumSound(b: seq<Byte>, width: nat)
    requires TakeNum(b, width).Ok?
    ensures var p := TakeNum(b, width).value; p.value < Pow256(width) && b == LE(width, p.value) + p.rest
  {
    LEOfFromLE(b[..width]);
    Halves(b, width);
  }

  lemma TakeStrSound(b: seq<Byte>)
    requires TakeStr(b).Ok?
    ensures var p := TakeStr(b).value; FitsStr(p.value) && Utf8(p.value) && b == EncodeStr(p.value) + p.rest
  {
    Widths();
    TakeNumSound(b, 2);
    var n := TakeNum(b, 2).value;
    Halves(n.rest, n.value);
    Assoc(LE(2, n.value), n.rest[..n.value], n.rest[n.value..]);
  }

  lemma TakeQidSound(b: seq<Byte>)
    requires TakeQid(b).Ok?
    ensures b == EncodeQid(TakeQid(b).value.value) + TakeQid(b).value.rest
  {
    LEOfFromLE(b[1..5]);
    LEOfFromLE(b[5..13]);
  }

  predicate GoodNames(names: seq<seq<Byte>>) {
    forall i :: 0 <= i < |names| ==> FitsStr(names[i]) && Utf8(names[i])
  }

  lemma GoodNamesCons(name: seq<Byte>, more: seq<seq<Byte>>)
    requires FitsStr(name) && Utf8(name) && GoodNames(more)
    ensures GoodNames([name] + more)
  {
  }

  lemma {:induction false} TakeStrsSound(b: seq<Byte>, n: nat)
    requires TakeStrs(b, n).Ok?
    ensures var p := TakeStrs(b, n).value;
            |p.value| == n && GoodNames(p.value) && b == EncodeStrs(p.value) + p.rest
    decreases n
  {
    if n > 0 {
      TakeStrSound(b);
      var s := TakeStr(b).value;
      TakeStrsSound(s.rest, n - 1);
      var more := TakeStrs(s.rest, n - 1).value;
      GoodNamesCons(s.value, more.value);
      assert ([s.value] + more.value)[1..] == more.value;
      Assoc(EncodeStr(s.value), EncodeStrs(more.value), more.rest);
    }
  }

  lemma {:induction false} TakeQidsSound(b: seq<Byte>, n: nat)
    requires TakeQids(b, n).Ok?
    ensures var p := TakeQids(b, n).value; |p.value| == n && b == EncodeQids(p.value) + p.rest
    decreases n
  {
    if n > 0 {
      TakeQidSound(b);
      var q := TakeQid(b).value;
      TakeQidsSound(q.rest, n - 1);
      var more := TakeQids(q.rest, n - 1).value;
      assert ([q.value] + more.value)[1..] == more.value;
      Assoc(EncodeQid(q.value), EncodeQids(more.value), more.rest);
    }
  }

  lemma TakeFieldSound(k: Kind, b: seq<Byte>)
    requires TakeField(k, b).Ok?
    ensures var p := TakeField(k, b).value; KindOf(p.value) == k && Good(p.value) && b == EncodeField(p.value) + p.rest
  {
    Widths();
    match k
    case KNum(w) => TakeNumSound(b, w);
    case KStr => TakeStrSound(b);
    case KData =>
      TakeNumSound(b, 4);
      var n := TakeNum(b, 4).value;
      Halves(n.rest, n.value);
      Assoc(LE(4, n.value), n.rest[..n.value], n.rest[n.value..]);
    case KStrs =>
      TakeNumSound(b, 2);
      var n := TakeNum(b, 2).value;
      TakeStrsSound(n.rest, n.value);
      var p := TakeStrs(n.rest, n.value).value;
      Assoc(LE(2, n.value), EncodeStrs(p.value), p.rest);
    case KQids =>
      TakeNumSound(b, 2);
      var n := TakeNum(b, 2).value;
      TakeQidsSound(n.rest, n.value);
      var p := TakeQids(n.rest, n.value).value;
      Assoc(LE(2, n.value), EncodeQids(p.value), p.rest);
  }

  /** Whatever decodes is the encoding of what it decodes to. */
  lemma {:induction false} TakeFieldsSound(kinds: seq<Kind>, b: seq<Byte>)
    requires TakeFields(kinds, b).Ok?
    ensures var p :=
      TakeFields(kinds, b).value; KindsMatch(kinds, p.value) && AllGood(p.value) && b == EncodeAll(p.value) + p.rest
    decreases |kinds|
  {
    if kinds != [] {
      TakeFieldSound(kinds[0], b);
      var f := TakeField(kinds[0], b).value;
      TakeFieldsSound(kinds[1..], f.rest);
      var more := TakeFields(kinds[1..], f.rest).value;
      assert ([f.value] + more.value)[1..] == more.value;
      Assoc(EncodeField(f.value), EncodeAll(more.value), more.rest);
    }
  }
}
