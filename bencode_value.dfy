/**
 * The values bit_torrent/bencode.py produces and consumes: Python ints, byte
 * strings, lists and insertion-ordered dicts, plus the None that `bdecode`
 * returns for a bare end marker.
 */
module BencodeValue {
  import opened Wrappers
  import opened Ascii

  const IntTag: Byte := 105   // 'i'
  const ListTag: Byte := 108  // 'l'
  const DictTag: Byte := 100  // 'd'
  const EndTag: Byte := 101   // 'e', END_CHAR

  /**
   * A dict is the sequence of its (key, value) entries in insertion order, so
   * that Python's ordering of `dict.items()` is part of the value.
   */
  datatype BValue =
    | BInt(n: int)
    | BStr(bytes: seq<Byte>)
    | BList(items: seq<BValue>)
    | BDict(entries: seq<(BValue, BValue)>)
    | BNone

  /** Python truthiness: zero, empty strings, empty collections and None are false. */
  predicate Truthy(v: BValue) {
    match v
    case BInt(n) => n != 0
    case BStr(b) => b != []
    case BList(xs) => xs != []
    case BDict(es) => es != []
    case BNone => false
  }

  predicate HasKey(es: seq<(BValue, BValue)>, k: BValue) {
    exists i :: 0 <= i < |es| && es[i].0 == k
  }

  /** The position of the entry with key k, as Python's dict keeps it. */
  function IndexOf(es: seq<(BValue, BValue)>, k: BValue): (r: Option<nat>)
    ensures r.None? <==> !HasKey(es, k)
    ensures r.Some? ==> r.value < |es| && es[r.value].0 == k &&
                        forall j :: 0 <= j < r.value ==> es[j].0 != k
  {
    if es == [] then None
    else if es[0].0 == k then Some(0)
    else match IndexOf(es[1..], k)
      case None => None
      case Some(i) => Some(i + 1)
  }

  /** `dict.get(k)`: the value stored under k, or None when k is absent. */
  function Lookup(es: seq<(BValue, BValue)>, k: BValue): (r: Option<BValue>)
    ensures r.Some? <==> HasKey(es, k)
    ensures r.Some? ==> (k, r.value) in es
  {
    match IndexOf(es, k)
    case None => None
    case Some(i) => Some(es[i].1)
  }

  /**
   * `d[k] = v`: a key already present keeps its position and gets the new
   * value; a new key goes at the end. PutSpec states what it does.
   */
  function Put(es: seq<(BValue, BValue)>, k: BValue, v: BValue): (r: seq<(BValue, BValue)>)
    ensures Lookup(r, k) == Some(v)
    ensures HasKey(es, k) ==> |r| == |es|
    ensures !HasKey(es, k) ==> |r| == |es| + 1 && r[..|es|] == es
    ensures forall i :: 0 <= i < |es| && es[i].0 != k ==> r[i] == es[i]
  {
    match IndexOf(es, k)
    case None =>
      var r := es + [(k, v)];
      assert r[|es|].0 == k;
      assert forall j :: 0 <= j < |es| ==> r[j].0 != k;
      r
    case Some(i) =>
      var r := es[i := (k, v)];
      assert r[i].0 == k;
      assert forall j :: 0 <= j < i ==> r[j].0 != k;
      r
  }

  lemma PutSpec(es: seq<(BValue, BValue)>, k: BValue, v: BValue)
    ensures Lookup(Put(es, k, v), k) == Some(v)
    ensures HasKey(es, k) ==> |Put(es, k, v)| == |es|
    ensures !HasKey(es, k) ==> Put(es, k, v) == es + [(k, v)]
    ensures forall i :: 0 <= i < |es| && es[i].0 != k ==> Put(es, k, v)[i] == es[i]
    ensures forall j :: 0 <= j < |Put(es, k, v)| ==> Put(es, k, v)[j] == (k, v) || (j < |es| && Put(es, k, v)[j] == es[j])
  {
    var r := Put(es, k, v);
    match IndexOf(es, k)
    case None =>
      assert r[|es|].0 == k;
      assert forall j :: 0 <= j < |es| ==> r[j] == es[j];
    case Some(i) =>
      assert r[i].0 == k;
      assert forall j :: 0 <= j < i ==> r[j] == es[j];
  }

  /**
   * The loop `for k, v in other.items(): if k not in d: d[k] = v`: entries of
   * `other` are added in order, and a key already present keeps its value.
   * MergeNewSpec states what it does.
   */
  function MergeNew(es: seq<(BValue, BValue)>, other: seq<(BValue, BValue)>): (r: seq<(BValue, BValue)>)
    ensures |es| <= |r| <= |es| + |other|
    ensures r[..|es|] == es
    decreases |other|
  {
    if other == [] then es
    else MergeNew(if HasKey(es, other[0].0) then es else es + [other[0]], other[1..])
  }

  lemma {:induction false} MergeNewSpec(es: seq<(BValue, BValue)>, other: seq<(BValue, BValue)>)
    ensures |es| <= |MergeNew(es, other)| && MergeNew(es, other)[..|es|] == es
    ensures forall k :: HasKey(MergeNew(es, other), k) <==> HasKey(es, k) || HasKey(other, k)
    ensures forall j :: 0 <= j < |MergeNew(es, other)| ==> MergeNew(es, other)[j] in es || MergeNew(es, other)[j] in other
    decreases |other|
  {
    if other != [] {
      var next := if HasKey(es, other[0].0) then es else es + [other[0]];
      HasKeyCons(other);
      HasKeyAppend(es, other[0]);
      MergeNewSpec(next, other[1..]);
      var r := MergeNew(next, other[1..]);
      assert r[..|es|] == next[..|es|] == es by { assert r[..|next|] == next; }
      forall j | 0 <= j < |r| ensures r[j] in es || r[j] in other {
        if r[j] in other[1..] {
          var i :| 0 <= i < |other[1..]| && other[1..][i] == r[j];
          assert other[i + 1] == r[j];
        } else if r[j] !in es {
          assert r[j] == other[0];
        }
      }
    }
  }

  lemma HasKeyCons(es: seq<(BValue, BValue)>)
    requires es != []
    ensures forall k :: HasKey(es, k) <==> es[0].0 == k || HasKey(es[1..], k)
  {
    forall k | HasKey(es, k) && es[0].0 != k ensures HasKey(es[1..], k) {
      var i :| 0 <= i < |es| && es[i].0 == k;
      assert es[1..][i - 1] == es[i];
    }
    forall k | HasKey(es[1..], k) ensures HasKey(es, k) {
      var i :| 0 <= i < |es[1..]| && es[1..][i].0 == k;
      assert es[i + 1] == es[1..][i];
    }
  }

  lemma HasKeyAppend(es: seq<(BValue, BValue)>, x: (BValue, BValue))
    ensures forall k :: HasKey(es + [x], k) <==> HasKey(es, k) || x.0 == k
  {
    var r := es + [x];
    assert r[|es|] == x;
    forall k | HasKey(es, k) ensures HasKey(r, k) {
      var i :| 0 <= i < |es| && es[i].0 == k;
      assert r[i] == es[i];
    }
  }

  predicate DistinctKeys(es: seq<(BValue, BValue)>) {
    forall i, j :: 0 <= i < j < |es| ==> es[i].0 != es[j].0
  }

  /** Keys the decoder can store: hashable (int or string) and truthy. */
  predicate IsKey(k: BValue) {
    (k.BInt? || k.BStr?) && Truthy(k)
  }

  predicate KeysOk(es: seq<(BValue, BValue)>) {
    DistinctKeys(es) && forall i :: 0 <= i < |es| ==> IsKey(es[i].0)
  }

  /**
   * What a Python value decoded by `bdecode` looks like: list elements are
   * truthy, dict keys are distinct truthy ints or strings, and None appears
   * only as a dict value or on its own.
   */
  predicate WellFormed(v: BValue) {
    match v
    case BList(xs) => forall i :: 0 <= i < |xs| ==> Truthy(xs[i]) && WellFormed(xs[i])
    case BDict(es) => KeysOk(es) && forall i :: 0 <= i < |es| ==> WellFormed(es[i].1)
    case _ => true
  }

  /** The encoder has a writer for every part: there is no None anywhere inside. */
  predicate Encodable(v: BValue) {
    match v
    case BNone => false
    case BList(xs) => forall i :: 0 <= i < |xs| ==> Encodable(xs[i])
    case BDict(es) => forall i :: 0 <= i < |es| ==> Encodable(es[i].0) && Encodable(es[i].1)
    case _ => true
  }

  lemma {:induction false} PutKeepsKeysOk(es: seq<(BValue, BValue)>, k: BValue, v: BValue)
    requires KeysOk(es) && IsKey(k)
    ensures KeysOk(Put(es, k, v))
  {
    var r := Put(es, k, v);
    PutSpec(es, k, v);
    if HasKey(es, k) {
      forall i, j | 0 <= i < j < |r| ensures r[i].0 != r[j].0 {
        if r[i].0 == k || r[j].0 == k {
          var w :| 0 <= w < |es| && es[w].0 == k;
        }
      }
    }
  }

  lemma {:induction false} MergeNewKeepsKeysOk(es: seq<(BValue, BValue)>, other: seq<(BValue, BValue)>)
    requires KeysOk(es) && KeysOk(other)
    ensures KeysOk(MergeNew(es, other))
    decreases |other|
  {
    if other != [] {
      var next := if HasKey(es, other[0].0) then es else es + [other[0]];
      HasKeyAppend(es, other[0]);
      assert KeysOk(next);
      assert KeysOk(other[1..]);
      MergeNewKeepsKeysOk(next, other[1..]);
    }
  }

  /** Merging keeps the values of keys already present: first seen wins. */
  lemma {:induction false} MergeNewFirstWins(es: seq<(BValue, BValue)>, other: seq<(BValue, BValue)>, k: BValue)
    requires HasKey(es, k)
    ensures Lookup(MergeNew(es, other), k) == Lookup(es, k)
    decreases |other|
  {
    if other != [] {
      var next := if HasKey(es, other[0].0) then es else es + [other[0]];
      var i := IndexOf(es, k).value;
      assert IndexOf(next, k) == Some(i) by { PrefixIndexOf(es, next, k); }
      HasKeyAppend(es, other[0]);
      MergeNewFirstWins(next, other[1..], k);
      MergeNewSpec(next, other[1..]);
      PrefixIndexOf(next, MergeNew(next, other[1..]), k);
    }
  }

  lemma {:induction false} PrefixIndexOf(es: seq<(BValue, BValue)>, longer: seq<(BValue, BValue)>, k: BValue)
    requires HasKey(es, k) && |es| <= |longer| && longer[..|es|] == es
    ensures IndexOf(longer, k) == IndexOf(es, k)
  {
    var i := IndexOf(es, k).value;
    assert forall m :: 0 <= m < |es| ==> longer[m] == es[m];
    assert HasKey(longer, k) by { assert longer[i].0 == k; }
  }
}
