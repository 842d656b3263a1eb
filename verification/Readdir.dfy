/** Directory listings in pages: the server packs as many encoded entries as fit, each carrying
    the cursor from which the next page continues. (9P: read(5), readdir in 9P2000.L.) */
module Readdir {
  import opened Wrappers
  import opened Bytes
  import opened Seqs
  import opened Codec

  datatype Dirent = Dirent(qid: Qid, offset: u64, typ: u8, name: seq<Byte>)

  function EncodeDirent(d: Dirent): seq<Byte> {
    EncodeQid(d.qid) + (LE(8, d.offset) + ([d.typ] + EncodeStr(d.name)))
  }

  function EncodeDirents(ds: seq<Dirent>): seq<Byte> {
    if ds == [] then [] else EncodeDirent(ds[0]) + EncodeDirents(ds[1..])
  }

  predicate GoodDirent(d: Dirent) {
    FitsStr(d.name) && Utf8(d.name)
  }

  predicate AllGoodDirents(ds: seq<Dirent>) {
    forall i :: 0 <= i < |ds| ==> GoodDirent(ds[i])
  }

  function TakeDirent(b: seq<Byte>): Result<Parsed<Dirent>> {
    var qid :- TakeQid(b);
    var offset :- TakeNum(qid.rest, 8);
    var typ :- TakeNum(offset.rest, 1);
    var name :- TakeStr(typ.rest);
    Widths();
    Ok(Parsed(Dirent(qid.value, offset.value, typ.value, name.value), name.rest))
  }

  lemma {:induction false} TakeDirentInverts(d: Dirent, rest: seq<Byte>)
    requires GoodDirent(d)
    ensures TakeDirent(EncodeDirent(d) + rest) == Ok(Parsed(d, rest))
  {
    Widths();
    var name := EncodeStr(d.name);
    Assoc(EncodeQid(d.qid), LE(8, d.offset) + ([d.typ] + name), rest);
    TakeQidInverts(d.qid, LE(8, d.offset) + ([d.typ] + name) + rest);
    Assoc(LE(8, d.offset), [d.typ] + name, rest);
    TakeNumInverts(8, d.offset, [d.typ] + name + rest);
    Assoc([d.typ], name, rest);
    OneByte(d.typ);
    TakeNumInverts(1, d.typ, name + rest);
    TakeStrInverts(d.name, rest);
  }

  lemma {:induction false} OneByte(n: u8)
    ensures LE(1, n) == [n] && n < Pow256(1)
  {
    assert LE(1, n) == [n % 256] + LE(0, n / 256);
    Widths();
  }

  lemma {:induction false} DirentIsNotEmpty(d: Dirent)
    ensures |EncodeDirent(d)| == 24 + |d.name|
  {
  }

  lemma {:induction false} TakeDirentShrinks(b: seq<Byte>)
    requires TakeDirent(b).Ok?
    ensures |TakeDirent(b).value.rest| < |b|
  {
  }

  /** All entries of a page. */
  function DecodeDirents(b: seq<Byte>): Result<seq<Dirent>>
    decreases |b|
  {
    if b == [] then Ok([])
    else
      var d :- TakeDirent(b);
      TakeDirentShrinks(b);
      var more :- DecodeDirents(d.rest);
      Ok([d.value] + more)
  }

  lemma {:induction false} DecodeFirst(d: Dirent, rest: seq<Byte>)
    requires GoodDirent(d) && DecodeDirents(rest).Ok?
    ensures DecodeDirents(EncodeDirent(d) + rest) == Ok([d] + DecodeDirents(rest).value)
  {
    TakeDirentInverts(d, rest);
    DirentIsNotEmpty(d);
  }

  lemma {:induction false} DecodeDirentsInverts(ds: seq<Dirent>)
    requires AllGoodDirents(ds)
    ensures DecodeDirents(EncodeDirents(ds)) == Ok(ds)
    ensures EncodeDirents(ds) == [] <==> ds == []
  {
    if ds != [] {
      DecodeDirentsInverts(ds[1..]);
      DecodeFirst(ds[0], EncodeDirents(ds[1..]));
      DirentIsNotEmpty(ds[0]);
      assert [ds[0]] + ds[1..] == ds;
    }
  }

  lemma {:induction false} EncodeDirentsAppend(ds: seq<Dirent>, d: Dirent)
    ensures EncodeDirents(ds + [d]) == EncodeDirents(ds) + EncodeDirent(d)
  {
    var entry := EncodeDirent(d);
    if ds == [] {
      assert ds + [d] == [d] && entry + [] == entry && [] + entry == entry;
      assert EncodeDirents([d]) == entry + EncodeDirents([d][1..]);
    } else {
      EncodeDirentsAppend(ds[1..], d);
      assert (ds + [d])[1..] == ds[1..] + [d];
      Assoc(EncodeDirent(ds[0]), EncodeDirents(ds[1..]), entry);
    }
  }

  // ----- pages -----

  /** The entry before which a page that starts at `offset` must stop. */
  function PageEnd(ds: seq<Dirent>, offset: nat, count: nat): (end: nat)
    ensures offset <= end && (offset <= |ds| ==> end <= |ds|)
    decreases |ds| - offset
  {
    if offset >= |ds| || |EncodeDirent(ds[offset])| > count then offset
    else PageEnd(ds, offset + 1, count - |EncodeDirent(ds[offset])|)
  }

  /** The page that starts after `offset` entries: entries as long as there is room. */
  function Page(ds: seq<Dirent>, offset: nat, count: nat): seq<Byte>
    decreases |ds| - offset
  {
    if offset >= |ds| || |EncodeDirent(ds[offset])| > count then []
    else EncodeDirent(ds[offset]) + Page(ds, offset + 1, count - |EncodeDirent(ds[offset])|)
  }

  // ----- the packing loop -----

  /** The loop from entry `i` on, with `data` packed so far. An entry that cannot be examined fails
      the page only if the loop gets to it. */
  function PackFrom(rs: seq<Result<Dirent>>, i: nat, offset: nat, count: nat, data: seq<Byte>): Result<seq<Byte>>
    decreases |rs| - i
  {
    if i >= |rs| then Ok(data)
    else if i + 1 <= offset then PackFrom(rs, i + 1, offset, count, data)
    else
      var d :- rs[i];
      if |data| + |EncodeDirent(d)| > count then Ok(data)
      else PackFrom(rs, i + 1, offset, count, data + EncodeDirent(d))
  }

  /** Entries before the cursor are passed over. */
  lemma {:induction false} PackSkips(rs: seq<Result<Dirent>>, i: nat, offset: nat, count: nat)
    requires i <= offset
    ensures PackFrom(rs, i, offset, count, []) == PackFrom(rs, offset, offset, count, [])
    decreases offset - i
  {
    if i < offset { PackSkips(rs, i + 1, offset, count); }
  }

  /** An entry that can be examined and fits into a page of its own. */
  predicate Deliverable(r: Result<Dirent>, count: nat) {
    r.Ok? && |EncodeDirent(r.value)| <= count
  }

  /** The first entry from the `i`-th on that is not deliverable. */
  function Stop(rs: seq<Result<Dirent>>, i: nat, count: nat): (k: nat)
    requires i <= |rs|
    ensures i <= k <= |rs| && forall j :: i <= j < k ==> Deliverable(rs[j], count)
    ensures k < |rs| ==> !Deliverable(rs[k], count)
    decreases |rs| - i
  {
    if i < |rs| && Deliverable(rs[i], count) then Stop(rs, i + 1, count) else i
  }

  /** What a listing in pages of `count` bytes can deliver. */
  function Delivered(rs: seq<Result<Dirent>>, count: nat): (ds: seq<Dirent>)
    ensures |ds| == Stop(rs, 0, count)
  {
    seq(Stop(rs, 0, count), k requires 0 <= k < Stop(rs, 0, count) => rs[k].value)
  }

  /** What a client that asks page by page ends up with: an entry that cannot be examined is an
      error, but one that is too long for a page is taken for the end. */
  function Listed(rs: seq<Result<Dirent>>, count: nat): Result<seq<Dirent>> {
    var k := Stop(rs, 0, count);
    if k < |rs| && rs[k].Err? then Err(rs[k].error) else Ok(Delivered(rs, count))
  }

  /** The page from a cursor within what can be delivered: an error when the room would have lasted
      to an entry that cannot be examined. */
  function PageFrom(rs: seq<Result<Dirent>>, offset: nat, count: nat, room: nat): Result<seq<Byte>> {
    var ds := Delivered(rs, count);
    if Listed(rs, count).Err? && PageEnd(ds, offset, room) == |ds| then Err(Listed(rs, count).error)
    else Ok(Page(ds, offset, room))
  }

  /** The loop adds to `data` the page of the room left. */
  lemma {:induction false} PackFromIsPage(rs: seq<Result<Dirent>>, i: nat, offset: nat, count: nat, data: seq<Byte>)
    requires offset <= i <= Stop(rs, 0, count) && |data| <= count
    ensures var rest := PageFrom(rs, i, count, count - |data|);
            PackFrom(rs, i, offset, count, data) == if rest.Ok? then Ok(data + rest.value) else Err(rest.error)
    decreases |rs| - i
  {
    var ds := Delivered(rs, count);
    if i >= |ds| {
      assert data + [] == data;
    } else {
      var entry := EncodeDirent(ds[i]);
      assert Deliverable(rs[i], count) && rs[i] == Ok(ds[i]);
      if |data| + |entry| > count {
        assert data + [] == data;
      } else {
        PackFromIsPage(rs, i + 1, offset, count, data + entry);
        Assoc(data, entry, Page(ds, i + 1, count - |data + entry|));
      }
    }
  }

  /** `es` are the entries from the `offset`-th on. */
  ghost predicate Consecutive(rs: seq<Result<Dirent>>, offset: nat, es: seq<Dirent>) {
    && (es != [] ==> offset + |es| <= |rs|)
    && forall i :: offset <= i < offset + |es| ==> rs[i] == Ok(es[i - offset])
  }

  /** `data` is some run of entries from the `offset`-th on. */
  ghost predicate Batch(rs: seq<Result<Dirent>>, offset: nat, es: seq<Dirent>, data: seq<Byte>) {
    data == EncodeDirents(es) && Consecutive(rs, offset, es)
  }

  /** In any case what is packed is a run of entries from the cursor on, within the limit. */
  lemma {:induction false} PackFromIsBatch(rs: seq<Result<Dirent>>, i: nat, offset: nat, count: nat, es: seq<Dirent>,
      data: seq<Byte>)
    returns (all: seq<Dirent>)
    requires i <= |rs| && |data| <= count && |es| == (if i >= offset then i - offset else 0)
    requires data == EncodeDirents(es) && Consecutive(rs, offset, es)
    ensures var r := PackFrom(rs, i, offset, count, data);
            r.Ok? ==> |r.value| <= count && r.value == EncodeDirents(all) && Consecutive(rs, offset, all)
    decreases |rs| - i
  {
    all := es;
    if i < |rs| {
      if i + 1 <= offset {
        all := PackFromIsBatch(rs, i + 1, offset, count, es, data);
      } else if rs[i].Ok? && |data| + |EncodeDirent(rs[i].value)| <= count {
        EncodeDirentsAppend(es, rs[i].value);
        all := PackFromIsBatch(rs, i + 1, offset, count, es + [rs[i].value], data + EncodeDirent(rs[i].value));
      }
    }
  }

  /** The packing loop, from any cursor: a run of entries within the limit; and from a cursor within
      what can be delivered, exactly the page that starts there. */
  lemma {:induction false} PackedPage(rs: seq<Result<Dirent>>, offset: nat, count: nat)
    ensures var r := PackFrom(rs, 0, offset, count, []);
            && (r.Ok? ==> |r.value| <= count && exists es :: Batch(rs, offset, es, r.value))
            && (offset <= Stop(rs, 0, count) ==> r == PageFrom(rs, offset, count, count))
  {
    var es := PackFromIsBatch(rs, 0, offset, count, [], []);
    var r := PackFrom(rs, 0, offset, count, []);
    if r.Ok? { assert Batch(rs, offset, es, r.value); }
    if offset <= Stop(rs, 0, count) {
      PackSkips(rs, 0, offset, count);
      PackFromIsPage(rs, offset, offset, count, []);
      var page := Page(Delivered(rs, count), offset, count);
      assert [] + page == page;
    }
  }

  /** Cursors as the server hands them out: entry `i` says "continue after i + 1 entries". */
  predicate Numbered(ds: seq<Dirent>) {
    forall i :: 0 <= i < |ds| ==> ds[i].offset == i + 1
  }

  /** A page is the encoding of the entries up to its end. */
  lemma {:induction false} PageIsSlice(ds: seq<Dirent>, offset: nat, count: nat)
    requires offset <= |ds|
    ensures Page(ds, offset, count) == EncodeDirents(ds[offset..PageEnd(ds, offset, count)])
    decreases |ds| - offset
  {
    if offset < |ds| && |EncodeDirent(ds[offset])| <= count {
      PageIsSlice(ds, offset + 1, count - |EncodeDirent(ds[offset])|);
      var end := PageEnd(ds, offset, count);
      assert ds[offset..end][1..] == ds[offset + 1..end];
    }
  }

  /** The last cursor of a slice says where to go on. */
  lemma {:induction false} SliceEnd(ds: seq<Dirent>, offset: nat, end: nat)
    requires Numbered(ds) && offset < end <= |ds|
    ensures var es := ds[offset..end]; es[|es| - 1].offset == end && ds[..offset] + es == ds[..end]
  {
    var es := ds[offset..end];
    assert es[|es| - 1] == ds[end - 1];
  }

  /** One round of the client's loop, from a cursor within what can be delivered: the page decodes to
      the next entries, and to none exactly at the end; it fails only if the listing does. */
  lemma {:induction false} NextPage(rs: seq<Result<Dirent>>, offset: nat, count: nat) returns (end: nat)
    requires AllGoodDirents(Delivered(rs, count)) && offset <= Stop(rs, 0, count)
    ensures var page, ds := PageFrom(rs, offset, count, count), Delivered(rs, count);
            && offset <= end <= |ds| && (offset == end <==> offset == |ds|)
            && (page.Ok? ==> DecodeDirents(page.value) == Ok(ds[offset..end]))
            && (page.Ok? && offset == end ==> Listed(rs, count) == Ok(ds))
            && (page.Err? ==> Listed(rs, count) == Err(page.error))
  {
    var ds := Delivered(rs, count);
    end := PageEnd(ds, offset, count);
    if offset < |ds| {
      assert Deliverable(rs[offset], count) && ds[offset] == rs[offset].value;
    }
    PageIsSlice(ds, offset, count);
    SliceIsGood(ds, offset, end);
    DecodeDirentsInverts(ds[offset..end]);
  }

  lemma {:induction false} SliceIsGood(ds: seq<Dirent>, offset: nat, end: nat)
    requires AllGoodDirents(ds) && offset <= end <= |ds|
    ensures AllGoodDirents(ds[offset..end])
  {
    var es := ds[offset..end];
    forall i | 0 <= i < |es| ensures GoodDirent(es[i]) { assert es[i] == ds[offset + i]; }
  }

  /** Nothing is left out exactly when every entry can be examined and fits a page. */
  lemma {:induction false} EverythingListed(rs: seq<Result<Dirent>>, count: nat)
    ensures Listed(rs, count).Ok? && |Listed(rs, count).value| == |rs|
            <==> forall i :: 0 <= i < |rs| ==> Deliverable(rs[i], count)
  {
    var k := Stop(rs, 0, count);
    if k < |rs| { assert !Deliverable(rs[k], count); }
  }

  /** An entry too long for a page ends the listing before it without an error, whatever follows. */
  lemma {:induction false} LongEntryHidesTheRest(rs: seq<Result<Dirent>>, k: nat, count: nat)
    requires k < |rs| && rs[k].Ok? && |EncodeDirent(rs[k].value)| > count
    requires forall i :: 0 <= i < k ==> Deliverable(rs[i], count)
    ensures Listed(rs, count).Ok? && |Listed(rs, count).value| == k < |rs|
  {
    StopIs(rs, 0, k, count);
  }

  lemma {:induction false} StopIs(rs: seq<Result<Dirent>>, i: nat, k: nat, count: nat)
    requires i <= k < |rs| && !Deliverable(rs[k], count)
    requires forall j :: i <= j < k ==> Deliverable(rs[j], count)
    ensures Stop(rs, i, count) == k
    decreases k - i
  {
    if i < k { StopIs(rs, i + 1, k, count); }
  }
}
