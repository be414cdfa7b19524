/**
 * The encoder of bit_torrent/bencode.py: every writer appends to one shared
 * output stream, collections are wrapped by their tag byte and END_CHAR, and
 * dict entries are written in insertion order (they are never sorted).
 */
module BencodeEncode {
  import opened Wrappers
  import opened Ascii
  import opened Decimal
  import opened BencodeValue

  /** The bytes `bencode(v)` writes for an encodable value. */
  function Enc(v: BValue): (r: seq<Byte>)
    requires Encodable(v)
    ensures 0 < |r|
    ensures r[0] == IntTag <==> v.BInt?
    ensures r[0] == ListTag <==> v.BList?
    ensures r[0] == DictTag <==> v.BDict?
    ensures IsDigit(r[0]) <==> v.BStr?
    ensures !v.BStr? ==> r[|r| - 1] == EndTag
    decreases v
  {
    match v
    case BInt(n) => [IntTag] + IntText(n) + [EndTag]
    case BStr(b) => NatText(|b|) + [Colon] + b
    case BList(xs) => [ListTag] + EncItems(xs) + [EndTag]
    case BDict(es) => [DictTag] + EncEntries(es) + [EndTag]
  }

  /** The elements' encodings, one after the other in list order. */
  function EncItems(xs: seq<BValue>): seq<Byte>
    requires forall i :: 0 <= i < |xs| ==> Encodable(xs[i])
    decreases xs
  {
    if xs == [] then [] else Enc(xs[0]) + EncItems(xs[1..])
  }

  /** For each entry, the key's encoding then the value's, in insertion order. */
  function EncEntries(es: seq<(BValue, BValue)>): seq<Byte>
    requires forall i :: 0 <= i < |es| ==> Encodable(es[i].0) && Encodable(es[i].1)
    decreases es
  {
    if es == [] then [] else EncEntry(es[0]) + EncEntries(es[1..])
  }

  /** One dict entry: the key's encoding then the value's. */
  function EncEntry(e: (BValue, BValue)): seq<Byte>
    requires Encodable(e.0) && Encodable(e.1)
    decreases e
  {
    Enc(e.0) + Enc(e.1)
  }

  lemma {:induction false} EncItemsAppend(a: seq<BValue>, b: seq<BValue>)
    requires forall i :: 0 <= i < |a| ==> Encodable(a[i])
    requires forall i :: 0 <= i < |b| ==> Encodable(b[i])
    ensures EncItems(a + b) == EncItems(a) + EncItems(b)
    decreases |a|
  {
    if a != [] {
      assert (a + b)[1..] == a[1..] + b;
      EncItemsAppend(a[1..], b);
    } else {
      assert a + b == b;
    }
  }

  /** A list's element encodings around element k. */
  lemma EncItemsAt(xs: seq<BValue>, k: nat)
    requires k < |xs| && forall i :: 0 <= i < |xs| ==> Encodable(xs[i])
    ensures EncItems(xs) == EncItems(xs[..k]) + (Enc(xs[k]) + EncItems(xs[k + 1..]))
  {
    assert xs == xs[..k] + xs[k..];
    EncItemsAppend(xs[..k], xs[k..]);
    EncItemsFrom(xs, k);
  }

  lemma EncItemsFrom(xs: seq<BValue>, k: nat)
    requires k < |xs| && forall i :: 0 <= i < |xs| ==> Encodable(xs[i])
    ensures EncItems(xs[k..]) == Enc(xs[k]) + EncItems(xs[k + 1..])
  {
    assert xs[k..][1..] == xs[k + 1..];
  }

  /** The encodings of the first i + 1 elements extend those of the first i by element i's. */
  lemma EncItemsSnoc(xs: seq<BValue>, i: nat)
    requires i < |xs| && forall j :: 0 <= j <= i ==> Encodable(xs[j])
    ensures EncItems(xs[..i + 1]) == EncItems(xs[..i]) + Enc(xs[i])
  {
    assert xs[..i + 1] == xs[..i] + [xs[i]];
    EncItemsAppend(xs[..i], [xs[i]]);
    assert EncItems([xs[i]]) == Enc(xs[i]) + EncItems([]);
  }

  /** The encodings of the first i + 1 entries extend those of the first i by entry i's. */
  lemma EncEntriesSnoc(es: seq<(BValue, BValue)>, i: nat)
    requires i < |es| && forall j :: 0 <= j <= i ==> Encodable(es[j].0) && Encodable(es[j].1)
    ensures EncEntries(es[..i + 1]) == EncEntries(es[..i]) + EncEntry(es[i])
  {
    assert es[..i + 1] == es[..i] + [es[i]];
    EncEntriesAppend(es[..i], [es[i]]);
    assert EncEntries([es[i]]) == EncEntry(es[i]) + EncEntries([]);
  }

  /** A dict's entry encodings around entry k. */
  lemma EncEntriesAt(es: seq<(BValue, BValue)>, k: nat)
    requires k < |es| && forall i :: 0 <= i < |es| ==> Encodable(es[i].0) && Encodable(es[i].1)
    ensures EncEntries(es) == EncEntries(es[..k]) + (EncEntry(es[k]) + EncEntries(es[k + 1..]))
  {
    assert es == es[..k] + es[k..];
    EncEntriesAppend(es[..k], es[k..]);
    EncEntriesFrom(es, k);
  }

  lemma EncEntriesFrom(es: seq<(BValue, BValue)>, k: nat)
    requires k < |es| && forall i :: 0 <= i < |es| ==> Encodable(es[i].0) && Encodable(es[i].1)
    ensures EncEntries(es[k..]) == EncEntry(es[k]) + EncEntries(es[k + 1..])
  {
    assert es[k..][1..] == es[k + 1..];
  }

  lemma {:induction false} EncEntriesAppend(a: seq<(BValue, BValue)>, b: seq<(BValue, BValue)>)
    requires forall i :: 0 <= i < |a| ==> Encodable(a[i].0) && Encodable(a[i].1)
    requires forall i :: 0 <= i < |b| ==> Encodable(b[i].0) && Encodable(b[i].1)
    ensures EncEntries(a + b) == EncEntries(a) + EncEntries(b)
    decreases |a|
  {
    if a != [] {
      assert (a + b)[1..] == a[1..] + b;
      EncEntriesAppend(a[1..], b);
    } else {
      assert a + b == b;
    }
  }

  /** The output stream the writers share (a BytesIO that is only written to). */
  class Stream {
    var bytes: seq<Byte>

    constructor ()
      ensures bytes == []
    {
      bytes := [];
    }

    method Write(b: seq<Byte>)
      modifies this
      ensures bytes == old(bytes) + b
    {
      bytes := bytes + b;
    }
  }

  /** `encode_buffer`: the length in decimal, ':', then the bytes themselves. */
  method EncodeBuffer(data: seq<Byte>, stream: Stream)
    modifies stream
    ensures stream.bytes == old(stream.bytes) + Enc(BStr(data))
  {
    stream.Write(NatText(|data|));
    stream.Write([Colon]);
    stream.Write(data);
  }

  /** `encode_int` under `with_end`: 'i', the decimal text, then END_CHAR. */
  method EncodeInt(n: int, stream: Stream)
    modifies stream
    ensures stream.bytes == old(stream.bytes) + Enc(BInt(n))
  {
    stream.Write([IntTag] + IntText(n));
    stream.Write([EndTag]);
  }

  /**
   * `encode_list` under `with_end`. A None element makes `bencode` raise
   * (no writer for its type); then `ok` is false and END_CHAR is not written.
   */
  method EncodeList(items: seq<BValue>, stream: Stream) returns (ok: bool)
    modifies stream
    ensures ok <==> Encodable(BList(items))
    ensures ok ==> stream.bytes == old(stream.bytes) + Enc(BList(items))
    decreases items
  {
    stream.Write([ListTag]);
    ghost var start := stream.bytes;
    var i := 0;
    while i < |items|
      invariant 0 <= i <= |items|
      invariant forall j :: 0 <= j < i ==> Encodable(items[j])
      invariant stream.bytes == start + EncItems(items[..i])
    {
      ok := BencodeInto(items[i], stream);
      if !ok {
        assert !Encodable(items[i]);
        return;
      }
      EncItemsSnoc(items, i);
      AppendAssoc(start, EncItems(items[..i]), Enc(items[i]));
      i := i + 1;
    }
    assert items[..i] == items;
    stream.Write([EndTag]);
    ok := true;
    Wrapped(old(stream.bytes), ListTag, EncItems(items), EndTag);
  }

  /** `encode_dict` under `with_end`: key then value for each entry, in insertion order. */
  method EncodeDict(entries: seq<(BValue, BValue)>, stream: Stream) returns (ok: bool)
    modifies stream
    ensures ok <==> Encodable(BDict(entries))
    ensures ok ==> stream.bytes == old(stream.bytes) + Enc(BDict(entries))
    decreases entries
  {
    stream.Write([DictTag]);
    ghost var start := stream.bytes;
    var i := 0;
    while i < |entries|
      invariant 0 <= i <= |entries|
      invariant forall j :: 0 <= j < i ==> Encodable(entries[j].0) && Encodable(entries[j].1)
      invariant stream.bytes == start + EncEntries(entries[..i])
    {
      ok := EncodeEntry(entries[i], stream);
      if !ok {
        assert !(Encodable(entries[i].0) && Encodable(entries[i].1));
        return;
      }
      EncEntriesSnoc(entries, i);
      AppendAssoc(start, EncEntries(entries[..i]), EncEntry(entries[i]));
      i := i + 1;
    }
    assert entries[..i] == entries;
    stream.Write([EndTag]);
    ok := true;
    Wrapped(old(stream.bytes), DictTag, EncEntries(entries), EndTag);
  }

  /** The body of `encode_dict`'s loop: `bencode(key, stream)` then `bencode(value, stream)`. */
  method EncodeEntry(e: (BValue, BValue), stream: Stream) returns (ok: bool)
    modifies stream
    ensures ok <==> Encodable(e.0) && Encodable(e.1)
    ensures ok ==> stream.bytes == old(stream.bytes) + EncEntry(e)
    decreases e
  {
    ghost var before := stream.bytes;
    ok := BencodeInto(e.0, stream);
    if ok {
      ok := BencodeInto(e.1, stream);
      if ok {
        AppendAssoc(before, Enc(e.0), Enc(e.1));
      }
    }
  }

  lemma Wrapped(a: seq<Byte>, open: Byte, b: seq<Byte>, close: Byte)
    ensures a + [open] + b + [close] == a + ([open] + b + [close])
  {
  }

  lemma AppendAssoc(a: seq<Byte>, b: seq<Byte>, c: seq<Byte>)
    ensures a + b + c == a + (b + c)
  {
  }

  /** `bencode(data, stream)`: dispatch on the value's type; None has no writer. */
  method BencodeInto(v: BValue, stream: Stream) returns (ok: bool)
    modifies stream
    ensures ok <==> Encodable(v)
    ensures ok ==> stream.bytes == old(stream.bytes) + Enc(v)
    decreases v
  {
    match v
    case BStr(b) =>
      EncodeBuffer(b, stream);
      ok := true;
    case BInt(n) =>
      EncodeInt(n, stream);
      ok := true;
    case BList(xs) =>
      ok := EncodeList(xs, stream);
    case BDict(es) =>
      ok := EncodeDict(es, stream);
    case BNone =>
      ok := false;
  }

  /** `bencode(data)` with a fresh stream: its whole contents, or None where Python raises. */
  method Bencode(v: BValue) returns (r: Option<seq<Byte>>)
    ensures r.Some? <==> Encodable(v)
    ensures r.Some? ==> r.value == Enc(v)
  {
    var stream := new Stream();
    var ok := BencodeInto(v, stream);
    r := if ok then Some(stream.bytes) else None;
  }
}
