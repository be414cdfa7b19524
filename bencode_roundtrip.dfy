/**
 * Properties that relate the encoder to the decoder: what `bdecode` returns
 * always looks like a decoded Python value, `bdecode(bencode(v)) == v` for
 * such values without None, and a falsy list element or dict key makes the
 * decoder stop the collection early.
 */
module BencodeRoundTrip {
  import opened Wrappers
  import opened Ascii
  import opened Decimal
  import opened BencodeValue
  import opened BencodeEncode
  import opened BencodeDecode

  /** The bytes t occur in s starting at position p: reading |t| bytes there gives t. */
  predicate At(s: seq<Byte>, p: nat, t: seq<Byte>) {
    p + |t| <= |s| && ReadAt(s, p, |t|) == t
  }

  lemma AtSlice(s: seq<Byte>, p: nat, t: seq<Byte>)
    requires At(s, p, t)
    ensures s[p..p + |t|] == t
  {
    ReadAtTakes(s, p, |t|);
  }

  lemma AtIndex(s: seq<Byte>, p: nat, t: seq<Byte>, i: nat)
    requires At(s, p, t) && i < |t|
    ensures p + i < |s| && s[p + i] == t[i]
  {
    AtSlice(s, p, t);
    assert s[p..p + |t|][i] == s[p + i];
  }

  lemma AtWhole(s: seq<Byte>)
    ensures At(s, 0, s)
  {
    ReadAtTakes(s, 0, |s|);
    assert s[0..|s|] == s;
  }

  lemma AtSplit(s: seq<Byte>, p: nat, a: seq<Byte>, b: seq<Byte>)
    requires At(s, p, a + b)
    ensures At(s, p, a) && At(s, p + |a|, b)
  {
    AtSlice(s, p, a + b);
    ReadAtTakes(s, p, |a|);
    ReadAtTakes(s, p + |a|, |b|);
    assert s[p..p + |a|] == (a + b)[..|a|];
    assert s[p + |a|..p + |a| + |b|] == (a + b)[|a|..];
  }

  /** A body wrapped in a tag byte and END_CHAR: where the tag, the body and the end sit. */
  lemma Framed(s: seq<Byte>, p: nat, tag: Byte, body: seq<Byte>)
    requires At(s, p, [tag] + body + [EndTag])
    ensures p < |s| && s[p] == tag && At(s, p + 1, body) && At(s, p + 1 + |body|, [EndTag])
  {
    AtSplit(s, p, [tag] + body, [EndTag]);
    AtSplit(s, p, [tag], body);
    AtIndex(s, p, [tag], 0);
  }

  // ---------------------------------------------------------------------------
  // Everything the decoder returns is well formed.

  lemma {:induction false} DecodedWellFormed(s: seq<Byte>, p: nat)
    requires p <= |s|
    ensures DecodeAt(s, p).Ok? ==> WellFormed(DecodeAt(s, p).value.0)
    decreases |s| - p, 0
  {
    if p < |s| {
      if s[p] == DictTag {
        DictFromWellFormed(s, p + 1, []);
      } else if s[p] == ListTag {
        ListFromWellFormed(s, p + 1, []);
      }
    }
  }

  lemma {:induction false} ListFromWellFormed(s: seq<Byte>, p: nat, acc: seq<BValue>)
    requires p <= |s|
    requires forall i :: 0 <= i < |acc| ==> Truthy(acc[i]) && WellFormed(acc[i])
    ensures ListFrom(s, p, acc).Ok? ==> WellFormed(ListFrom(s, p, acc).value.0)
    decreases |s| - p, 1
  {
    match DecodeAt(s, p)
    case Err(_) =>
    case Ok((v, q)) =>
      DecodedWellFormed(s, p);
      if Truthy(v) {
        ListFromWellFormed(s, q, acc + [v]);
      }
  }

  lemma {:induction false} DictFromWellFormed(s: seq<Byte>, p: nat, acc: seq<(BValue, BValue)>)
    requires p <= |s|
    requires KeysOk(acc) && forall i :: 0 <= i < |acc| ==> WellFormed(acc[i].1)
    ensures DictFrom(s, p, acc).Ok? ==> WellFormed(DictFrom(s, p, acc).value.0)
    decreases |s| - p, 1
  {
    match DecodeAt(s, p)
    case Err(_) =>
    case Ok((k, q)) =>
      DecodedWellFormed(s, p);
      if Truthy(k) {
        if k.BDict? {
          var merged := MergeNew(acc, k.entries);
          MergeNewSpec(acc, k.entries);
          MergeNewKeepsKeysOk(acc, k.entries);
          assert forall i :: 0 <= i < |merged| ==> WellFormed(merged[i].1) by {
            forall i | 0 <= i < |merged| ensures WellFormed(merged[i].1) {
              if merged[i] in acc {
                var j :| 0 <= j < |acc| && acc[j] == merged[i];
              } else {
                var j :| 0 <= j < |k.entries| && k.entries[j] == merged[i];
              }
            }
          }
          DictFromWellFormed(s, q, merged);
        } else {
          match DecodeAt(s, q)
          case Err(_) =>
          case Ok((v, q')) =>
            DecodedWellFormed(s, q);
            if !k.BList? {
              PutKeepsKeysOk(acc, k, v);
              DictFromWellFormed(s, q', Put(acc, k, v));
            }
        }
      }
  }

  // ---------------------------------------------------------------------------
  // Decoding what the encoder wrote.

  lemma {:induction false} ScanFinds(s: seq<Byte>, p: nat, q: nat, end: Byte)
    requires p <= q < |s| && s[q] == end
    requires forall j :: p <= j < q ==> s[j] != end && IsAscii(s[j])
    ensures ScanTo(s, p, end) == Ok(s[p..q])
    decreases q - p
  {
    if p < q {
      ScanFinds(s, p + 1, q, end);
      assert [s[p]] + s[p + 1..q] == s[p..q];
    } else {
      assert s[p..q] == [];
    }
  }

  /** `get_int` reads back the decimal text `str(n)` followed by its terminator. */
  lemma IntAtText(s: seq<Byte>, p: nat, n: int, end: Byte)
    requires end != Minus && !IsDigit(end)
    requires At(s, p, IntText(n)) && At(s, p + |IntText(n)|, [end])
    ensures IntAt(s, p, end) == Ok((n, p + |IntText(n)| + 1))
  {
    var t := IntText(n);
    var q := p + |t|;
    TextSkipped(s, p, n, end);
    AtIndex(s, q, [end], 0);
    ScanFinds(s, p, q, end);
    AtSlice(s, p, t);
    ParseIntText(n);
  }

  /** Every byte of `str(n)` is ASCII and differs from a terminator that is neither '-' nor a digit. */
  lemma TextSkipped(s: seq<Byte>, p: nat, n: int, end: Byte)
    requires end != Minus && !IsDigit(end)
    requires At(s, p, IntText(n))
    ensures forall j :: p <= j < p + |IntText(n)| ==> s[j] != end && IsAscii(s[j])
  {
    var t := IntText(n);
    IntTextBytes(n);
    forall j | p <= j < p + |t| ensures s[j] != end && IsAscii(s[j]) {
      AtIndex(s, p, t, j - p);
    }
  }

  // One step of each decoder function, each in a context of its own.

  lemma DecodeAtInt(s: seq<Byte>, p: nat)
    requires p < |s| && s[p] == IntTag && IntAt(s, p + 1, EndTag).Ok?
    ensures DecodeAt(s, p) == Ok((BInt(IntAt(s, p + 1, EndTag).value.0), IntAt(s, p + 1, EndTag).value.1))
  {
  }

  lemma DecodeAtStr(s: seq<Byte>, p: nat)
    requires p < |s| && IsDigit(s[p]) && StringAt(s, p).Ok?
    ensures DecodeAt(s, p) == Ok((BStr(StringAt(s, p).value.0), StringAt(s, p).value.1))
  {
  }

  lemma DecodeAtList(s: seq<Byte>, p: nat)
    requires p < |s| && s[p] == ListTag
    ensures DecodeAt(s, p) == ListFrom(s, p + 1, [])
  {
  }

  lemma DecodeAtDict(s: seq<Byte>, p: nat)
    requires p < |s| && s[p] == DictTag
    ensures DecodeAt(s, p) == DictFrom(s, p + 1, [])
  {
  }

  lemma {:induction false} DecodeEnc(v: BValue, s: seq<Byte>, p: nat)
    requires Encodable(v) && WellFormed(v) && At(s, p, Enc(v))
    ensures DecodeAt(s, p) == Ok((v, p + |Enc(v)|))
    decreases v, 1
  {
    if v.BInt? {
      DecodeEncInt(v, s, p);
    } else if v.BStr? {
      DecodeEncStr(v, s, p);
    } else if v.BList? {
      DecodeEncList(v, s, p);
    } else {
      DecodeEncDict(v, s, p);
    }
  }

  lemma DecodeEncInt(v: BValue, s: seq<Byte>, p: nat)
    requires v.BInt? && At(s, p, Enc(v))
    ensures DecodeAt(s, p) == Ok((v, p + |Enc(v)|))
  {
    var t := IntText(v.n);
    assert Enc(v) == [IntTag] + t + [EndTag];
    Framed(s, p, IntTag, t);
    IntAtText(s, p + 1, v.n, EndTag);
    DecodeAtInt(s, p);
  }

  lemma DecodeEncStr(v: BValue, s: seq<Byte>, p: nat)
    requires v.BStr? && At(s, p, Enc(v))
    ensures DecodeAt(s, p) == Ok((v, p + |Enc(v)|))
  {
    var b := v.bytes;
    var t := NatText(|b|);
    assert Enc(v) == t + [Colon] + b;
    assert IntText(|b|) == t;
    AtSplit(s, p, t + [Colon], b);
    AtSplit(s, p, t, [Colon]);
    IntAtText(s, p, |b|, Colon);
    AtIndex(s, p, t, 0);
    var c := p + |t| + 1;
    assert StringAt(s, p) == Ok((b, c + |b|));
    DecodeAtStr(s, p);
  }

  lemma {:induction false} DecodeEncList(v: BValue, s: seq<Byte>, p: nat)
    requires v.BList? && Encodable(v) && WellFormed(v) && At(s, p, Enc(v))
    ensures DecodeAt(s, p) == Ok((v, p + |Enc(v)|))
    decreases v, 0
  {
    var xs := v.items;
    var e := ListFramed(v, s, p);
    EndAt(s, e);
    EncItemsList(xs, s, p + 1, e, [], BNone, e + 1);
    ListAt(s, p, xs, e + 1);
  }

  /** Where a list's tag, its items' encodings and its END_CHAR sit. */
  lemma ListFramed(v: BValue, s: seq<Byte>, p: nat) returns (e: nat)
    requires v.BList? && Encodable(v) && At(s, p, Enc(v))
    ensures e == p + 1 + |EncItems(v.items)| && e + 1 == p + |Enc(v)|
    ensures p < |s| && s[p] == ListTag && At(s, p + 1, EncItems(v.items)) && At(s, e, [EndTag])
  {
    e := p + 1 + |EncItems(v.items)|;
    Framed(s, p, ListTag, EncItems(v.items));
  }

  /** Where a dict's tag, its entries' encodings and its END_CHAR sit. */
  lemma DictFramed(v: BValue, s: seq<Byte>, p: nat) returns (e: nat)
    requires v.BDict? && Encodable(v) && At(s, p, Enc(v))
    ensures e == p + 1 + |EncEntries(v.entries)| && e + 1 == p + |Enc(v)|
    ensures p < |s| && s[p] == DictTag && At(s, p + 1, EncEntries(v.entries)) && At(s, e, [EndTag])
  {
    e := p + 1 + |EncEntries(v.entries)|;
    Framed(s, p, DictTag, EncEntries(v.entries));
  }

  lemma ListAt(s: seq<Byte>, p: nat, xs: seq<BValue>, q: nat)
    requires p < |s| && s[p] == ListTag && ListFrom(s, p + 1, []) == Ok((BList([] + xs), q))
    ensures DecodeAt(s, p) == Ok((BList(xs), q))
  {
    EmptyPrefix(xs);
    DecodeAtList(s, p);
  }

  lemma {:induction false} DecodeEncDict(v: BValue, s: seq<Byte>, p: nat)
    requires v.BDict? && Encodable(v) && WellFormed(v) && At(s, p, Enc(v))
    ensures DecodeAt(s, p) == Ok((v, p + |Enc(v)|))
    decreases v, 0
  {
    var es := v.entries;
    var e := DictFramed(v, s, p);
    EndAt(s, e);
    EncEntriesDict(es, s, p + 1, e, [], BNone, e + 1);
    DictAt(s, p, es, e + 1);
  }

  lemma DictAt(s: seq<Byte>, p: nat, es: seq<(BValue, BValue)>, q: nat)
    requires p < |s| && s[p] == DictTag && DictFrom(s, p + 1, []) == Ok((BDict([] + es), q))
    ensures DecodeAt(s, p) == Ok((BDict(es), q))
  {
    EmptyPrefix(es);
    DecodeAtDict(s, p);
  }

  /** A bare END_CHAR decodes as None. */
  lemma EndAt(s: seq<Byte>, e: nat)
    requires At(s, e, [EndTag])
    ensures e < |s| && DecodeAt(s, e) == Ok((BNone, e + 1))
  {
    AtIndex(s, e, [EndTag], 0);
  }

  lemma EmptyPrefix<T>(xs: seq<T>)
    ensures [] + xs == xs
  {
  }

  /**
   * The encodings of truthy elements xs, followed by a falsy value w:
   * `get_list` collects exactly xs and stops after w.
   */
  lemma {:induction false} EncItemsList(xs: seq<BValue>, s: seq<Byte>, p: nat, stop: nat, acc: seq<BValue>, w: BValue, q: nat)
    requires forall i :: 0 <= i < |xs| ==> Encodable(xs[i]) && WellFormed(xs[i]) && Truthy(xs[i])
    requires At(s, p, EncItems(xs)) && stop == p + |EncItems(xs)|
    requires stop <= |s| && DecodeAt(s, stop) == Ok((w, q)) && !Truthy(w)
    ensures ListFrom(s, p, acc) == Ok((BList(acc + xs), q))
    decreases xs, 2
  {
    if xs == [] {
      assert acc + xs == acc;
      ListFromStep(s, p, acc, w, q);
    } else {
      var m := EncItemsHead(xs, s, p);
      ListFromStep(s, p, acc, xs[0], m);
      EncItemsList(xs[1..], s, m, stop, acc + [xs[0]], w, q);
      ConsSplit(acc, xs);
    }
  }

  lemma ConsSplit<T>(acc: seq<T>, xs: seq<T>)
    requires xs != []
    ensures acc + [xs[0]] + xs[1..] == acc + xs
  {
  }

  /** The first element's encoding decodes as the element; the others' encodings follow it. */
  lemma EncItemsHead(xs: seq<BValue>, s: seq<Byte>, p: nat) returns (m: nat)
    requires xs != [] && forall i :: 0 <= i < |xs| ==> Encodable(xs[i]) && WellFormed(xs[i])
    requires At(s, p, EncItems(xs))
    ensures p <= |s| && DecodeAt(s, p) == Ok((xs[0], m))
    ensures At(s, m, EncItems(xs[1..])) && m + |EncItems(xs[1..])| == p + |EncItems(xs)|
    decreases xs, 1
  {
    m := ItemsSplit(xs, s, p);
    ItemDecode(xs, s, p, m);
  }

  /** The first element decodes from its encoding. */
  lemma ItemDecode(xs: seq<BValue>, s: seq<Byte>, p: nat, m: nat)
    requires xs != [] && Encodable(xs[0]) && WellFormed(xs[0])
    requires At(s, p, Enc(xs[0])) && m == p + |Enc(xs[0])|
    ensures p <= |s| && DecodeAt(s, p) == Ok((xs[0], m))
    decreases xs, 0
  {
    DecodeEnc(xs[0], s, p);
  }

  /** Where the first element's encoding and the others' sit. */
  lemma ItemsSplit(xs: seq<BValue>, s: seq<Byte>, p: nat) returns (m: nat)
    requires xs != [] && forall i :: 0 <= i < |xs| ==> Encodable(xs[i])
    requires At(s, p, EncItems(xs))
    ensures m == p + |Enc(xs[0])| && At(s, p, Enc(xs[0])) && At(s, m, EncItems(xs[1..]))
    ensures m + |EncItems(xs[1..])| == p + |EncItems(xs)|
  {
    m := p + |Enc(xs[0])|;
    assert EncItems(xs) == Enc(xs[0]) + EncItems(xs[1..]);
    AtSplit(s, p, Enc(xs[0]), EncItems(xs[1..]));
  }

  /** The first entry's key and value decode from their encodings; the other entries' encodings follow. */
  lemma EncEntriesHead(es: seq<(BValue, BValue)>, s: seq<Byte>, p: nat) returns (m: nat, n: nat)
    requires es != [] && forall i :: 0 <= i < |es| ==> Encodable(es[i].0) && Encodable(es[i].1) && WellFormed(es[i].1)
    requires IsKey(es[0].0)
    requires At(s, p, EncEntries(es))
    ensures p <= |s| && DecodeAt(s, p) == Ok((es[0].0, m))
    ensures m <= |s| && DecodeAt(s, m) == Ok((es[0].1, n))
    ensures At(s, n, EncEntries(es[1..])) && n + |EncEntries(es[1..])| == p + |EncEntries(es)|
    decreases es, 0
  {
    m, n := EntriesSplit(es, s, p);
    EntryDecode(es[0], s, p, m, n);
  }

  /** A key and then its value decode from their encodings. */
  lemma EntryDecode(e: (BValue, BValue), s: seq<Byte>, p: nat, m: nat, n: nat)
    requires IsKey(e.0) && Encodable(e.1) && WellFormed(e.1)
    requires At(s, p, Enc(e.0)) && m == p + |Enc(e.0)|
    requires At(s, m, Enc(e.1)) && n == m + |Enc(e.1)|
    ensures p <= |s| && DecodeAt(s, p) == Ok((e.0, m))
    ensures m <= |s| && DecodeAt(s, m) == Ok((e.1, n))
    decreases e, 1
  {
    KeyDecode(e.0, s, p, m);
    ValueDecode(e, s, m, n);
  }

  /** An entry's value decodes from its encoding. */
  lemma ValueDecode(e: (BValue, BValue), s: seq<Byte>, m: nat, n: nat)
    requires Encodable(e.1) && WellFormed(e.1) && At(s, m, Enc(e.1)) && n == m + |Enc(e.1)|
    ensures m <= |s| && DecodeAt(s, m) == Ok((e.1, n))
    decreases e, 0
  {
    DecodeEnc(e.1, s, m);
  }

  /** Where the first entry's key, its value and the other entries' encodings sit. */
  lemma EntriesSplit(es: seq<(BValue, BValue)>, s: seq<Byte>, p: nat) returns (m: nat, n: nat)
    requires es != [] && forall i :: 0 <= i < |es| ==> Encodable(es[i].0) && Encodable(es[i].1)
    requires At(s, p, EncEntries(es))
    ensures m == p + |Enc(es[0].0)| && n == m + |Enc(es[0].1)|
    ensures At(s, p, Enc(es[0].0)) && At(s, m, Enc(es[0].1)) && At(s, n, EncEntries(es[1..]))
    ensures n + |EncEntries(es[1..])| == p + |EncEntries(es)|
  {
    m := p + |Enc(es[0].0)|;
    n := m + |Enc(es[0].1)|;
    EncEntriesCons(es);
    Split3(s, p, Enc(es[0].0), Enc(es[0].1), EncEntries(es[1..]));
  }

  lemma EncEntriesCons(es: seq<(BValue, BValue)>)
    requires es != [] && forall i :: 0 <= i < |es| ==> Encodable(es[i].0) && Encodable(es[i].1)
    ensures EncEntries(es) == Enc(es[0].0) + Enc(es[0].1) + EncEntries(es[1..])
  {
  }

  /** Three consecutive pieces: where each one sits. */
  lemma Split3(s: seq<Byte>, p: nat, a: seq<Byte>, b: seq<Byte>, c: seq<Byte>)
    requires At(s, p, a + b + c)
    ensures At(s, p, a) && At(s, p + |a|, b) && At(s, p + |a| + |b|, c)
  {
    AtSplit(s, p, a + b, c);
    AtSplit(s, p, a, b);
  }

  /** A key, an integer or a string, decodes from its encoding. */
  lemma KeyDecode(k: BValue, s: seq<Byte>, p: nat, m: nat)
    requires IsKey(k) && At(s, p, Enc(k)) && m == p + |Enc(k)|
    ensures p <= |s| && DecodeAt(s, p) == Ok((k, m))
  {
    if k.BInt? {
      DecodeEncInt(k, s, p);
    } else {
      DecodeEncStr(k, s, p);
    }
  }

  /** A key that occurs after acc in a list of entries with distinct keys is not in acc. */
  lemma FreshKey(acc: seq<(BValue, BValue)>, es: seq<(BValue, BValue)>)
    requires es != [] && KeysOk(acc + es)
    ensures IsKey(es[0].0) && !HasKey(acc, es[0].0)
    ensures KeysOk(acc + [es[0]] + es[1..])
  {
    assert (acc + es)[|acc|] == es[0];
    assert acc + [es[0]] + es[1..] == acc + es;
    forall i | 0 <= i < |acc| ensures acc[i].0 != es[0].0 {
      assert (acc + es)[i] == acc[i];
    }
  }

  /**
   * The encodings of entries es with distinct hashable keys, followed by a
   * falsy key w: `get_dict` rebuilds exactly es and stops after w.
   */
  lemma {:induction false} EncEntriesDict(es: seq<(BValue, BValue)>, s: seq<Byte>, p: nat, stop: nat, acc: seq<(BValue, BValue)>, w: BValue, q: nat)
    requires forall i :: 0 <= i < |es| ==> Encodable(es[i].0) && Encodable(es[i].1) && WellFormed(es[i].1)
    requires KeysOk(acc + es)
    requires At(s, p, EncEntries(es)) && stop == p + |EncEntries(es)|
    requires stop <= |s| && DecodeAt(s, stop) == Ok((w, q)) && !Truthy(w)
    ensures DictFrom(s, p, acc) == Ok((BDict(acc + es), q))
    decreases es, 1
  {
    if es == [] {
      assert acc + es == acc;
      DictFromStop(s, p, acc, w, q);
    } else {
      var e := es[0];
      FreshKey(acc, es);
      assert Put(acc, e.0, e.1) == acc + [e];
      var m, n := EncEntriesHead(es, s, p);
      DictFromStore(s, p, acc, e.0, m, e.1, n);
      EncEntriesDict(es[1..], s, n, stop, acc + [e], w, q);
      ConsSplit(acc, es);
    }
  }

  /** `bdecode(bencode(v)) == v` for every value `bdecode` could have produced that holds no None. */
  lemma RoundTrip(v: BValue)
    requires Encodable(v) && WellFormed(v)
    ensures Bdecode(Enc(v)) == Ok(v)
  {
    AtWhole(Enc(v));
    DecodeEnc(v, Enc(v), 0);
  }

  // ---------------------------------------------------------------------------
  // The falsy-terminator quirk.

  /** Where the first k elements' encodings and element k's encoding sit in a list's encoding. */
  lemma ListAround(xs: seq<BValue>, k: nat)
    requires k < |xs| && forall i :: 0 <= i < |xs| ==> Encodable(xs[i])
    ensures var s := Enc(BList(xs)); var f := EncItems(xs[..k]);
      0 < |s| && s[0] == ListTag && At(s, 1, f) && At(s, 1 + |f|, Enc(xs[k]))
  {
    var s := Enc(BList(xs));
    var f := EncItems(xs[..k]);
    AtWhole(s);
    Framed(s, 0, ListTag, EncItems(xs));
    ItemsAround(s, 1, xs, k);
  }

  /** Where the first k elements' encodings and element k's encoding sit among the elements' encodings. */
  lemma ItemsAround(s: seq<Byte>, p: nat, xs: seq<BValue>, k: nat)
    requires k < |xs| && forall i :: 0 <= i < |xs| ==> Encodable(xs[i])
    requires At(s, p, EncItems(xs))
    ensures At(s, p, EncItems(xs[..k])) && At(s, p + |EncItems(xs[..k])|, Enc(xs[k]))
  {
    var f := EncItems(xs[..k]);
    EncItemsAt(xs, k);
    AtSplit(s, p, f, Enc(xs[k]) + EncItems(xs[k + 1..]));
    AtSplit(s, p + |f|, Enc(xs[k]), EncItems(xs[k + 1..]));
  }

  /**
   * A list whose element k is falsy decodes as its first k elements only:
   * the decoder treats the falsy element as the end of the list.
   */
  lemma FalsyElementTruncatesList(xs: seq<BValue>, k: nat)
    requires k < |xs| && forall i :: 0 <= i < |xs| ==> Encodable(xs[i])
    requires forall i :: 0 <= i < k ==> Truthy(xs[i]) && WellFormed(xs[i])
    requires !Truthy(xs[k]) && WellFormed(xs[k])
    ensures Bdecode(Enc(BList(xs))) == Ok(BList(xs[..k]))
    ensures Bdecode(Enc(BList(xs))) != Ok(BList(xs))
  {
    ListAround(xs, k);
    ListPrefixDecodes(Enc(BList(xs)), xs[..k], xs[k]);
    assert |xs[..k]| < |xs|;
  }

  /** A list's bytes holding truthy elements and then a falsy one decode as those elements. */
  lemma ListPrefixDecodes(s: seq<Byte>, front: seq<BValue>, w: BValue)
    requires forall i :: 0 <= i < |front| ==> Encodable(front[i]) && Truthy(front[i]) && WellFormed(front[i])
    requires Encodable(w) && !Truthy(w) && WellFormed(w)
    requires 0 < |s| && s[0] == ListTag
    requires At(s, 1, EncItems(front)) && At(s, 1 + |EncItems(front)|, Enc(w))
    ensures Bdecode(s) == Ok(BList(front))
  {
    var stop := 1 + |EncItems(front)|;
    var q := stop + |Enc(w)|;
    DecodeEncTo(w, s, stop, q);
    EncItemsList(front, s, 1, stop, [], w, q);
    ListDecodes(s, front, q);
  }

  lemma ListDecodes(s: seq<Byte>, xs: seq<BValue>, q: nat)
    requires 0 < |s| && s[0] == ListTag && ListFrom(s, 1, []) == Ok((BList([] + xs), q))
    ensures Bdecode(s) == Ok(BList(xs))
  {
    ListAt(s, 0, xs, q);
  }

  lemma DictDecodes(s: seq<Byte>, es: seq<(BValue, BValue)>, q: nat)
    requires 0 < |s| && s[0] == DictTag && DictFrom(s, 1, []) == Ok((BDict([] + es), q))
    ensures Bdecode(s) == Ok(BDict(es))
  {
    DictAt(s, 0, es, q);
  }

  /** DecodeEnc, with the end position named by the caller. */
  lemma DecodeEncTo(v: BValue, s: seq<Byte>, p: nat, q: nat)
    requires Encodable(v) && WellFormed(v) && At(s, p, Enc(v)) && q == p + |Enc(v)|
    ensures p <= |s| && DecodeAt(s, p) == Ok((v, q))
  {
    DecodeEnc(v, s, p);
  }

  /** Where the first k entries' encodings and key k's encoding sit in a dict's encoding. */
  lemma DictAround(es: seq<(BValue, BValue)>, k: nat)
    requires k < |es| && forall i :: 0 <= i < |es| ==> Encodable(es[i].0) && Encodable(es[i].1)
    ensures var s := Enc(BDict(es)); var f := EncEntries(es[..k]);
      0 < |s| && s[0] == DictTag && At(s, 1, f) && At(s, 1 + |f|, Enc(es[k].0))
  {
    var s := Enc(BDict(es));
    var f := EncEntries(es[..k]);
    AtWhole(s);
    Framed(s, 0, DictTag, EncEntries(es));
    EntriesAround(s, 1, es, k);
  }

  /** Where the first k entries' encodings and key k's encoding sit among the entries' encodings. */
  lemma EntriesAround(s: seq<Byte>, p: nat, es: seq<(BValue, BValue)>, k: nat)
    requires k < |es| && forall i :: 0 <= i < |es| ==> Encodable(es[i].0) && Encodable(es[i].1)
    requires At(s, p, EncEntries(es))
    ensures At(s, p, EncEntries(es[..k])) && At(s, p + |EncEntries(es[..k])|, Enc(es[k].0))
  {
    var f := EncEntries(es[..k]);
    EncEntriesAt(es, k);
    AtSplit(s, p, f, EncEntry(es[k]) + EncEntries(es[k + 1..]));
    AtSplit(s, p + |f|, EncEntry(es[k]), EncEntries(es[k + 1..]));
    AtSplit(s, p + |f|, Enc(es[k].0), Enc(es[k].1));
  }

  /** A dict whose key k is falsy decodes as its first k entries only. */
  lemma FalsyKeyTruncatesDict(es: seq<(BValue, BValue)>, k: nat)
    requires k < |es| && forall i :: 0 <= i < |es| ==> Encodable(es[i].0) && Encodable(es[i].1)
    requires KeysOk(es[..k]) && forall i :: 0 <= i < k ==> WellFormed(es[i].1)
    requires !Truthy(es[k].0) && WellFormed(es[k].0)
    ensures Bdecode(Enc(BDict(es))) == Ok(BDict(es[..k]))
  {
    DictAround(es, k);
    DictPrefixDecodes(Enc(BDict(es)), es[..k], es[k].0);
  }

  /** A dict's bytes holding entries with distinct hashable keys and then a falsy key decode as those entries. */
  lemma DictPrefixDecodes(s: seq<Byte>, front: seq<(BValue, BValue)>, w: BValue)
    requires forall i :: 0 <= i < |front| ==> Encodable(front[i].0) && Encodable(front[i].1) && WellFormed(front[i].1)
    requires KeysOk(front) && Encodable(w) && !Truthy(w) && WellFormed(w)
    requires 0 < |s| && s[0] == DictTag
    requires At(s, 1, EncEntries(front)) && At(s, 1 + |EncEntries(front)|, Enc(w))
    ensures Bdecode(s) == Ok(BDict(front))
  {
    var stop := 1 + |EncEntries(front)|;
    var q := stop + |Enc(w)|;
    DecodeEncTo(w, s, stop, q);
    EncEntriesDict(front, s, 1, stop, [], w, q);
    DictDecodes(s, front, q);
  }
}
