/**
 * The decoder as the Python code runs it: a cursor over a `BytesIO` buffer
 * that `read(n)` advances and `seek(-1, SEEK_CUR)` moves back, and loops that
 * grow the integer's text, the list and the dictionary in place. Each method
 * is proved to compute the decoder function of BencodeDecode at the cursor
 * it starts from, and to leave the cursor where that function says.
 */
module BencodeReader {
  import opened Wrappers
  import opened Ascii
  import opened Decimal
  import opened BencodeValue
  import opened BencodeDecode

  /** A method's outcome `r`, with the cursor left at `pos`, is the decoder function's result `spec`. */
  predicate Agrees<T(==)>(spec: Result<(T, nat), DecodeError>, r: Result<T, DecodeError>, pos: nat) {
    match r
    case Ok(v) => spec == Ok((v, pos))
    case Err(e) => spec == Err(e)
  }

  /** The outcome of scanning the rest of the text, with `t` already scanned in front of it. */
  function Prefixed(t: seq<Byte>, r: Result<seq<Byte>, DecodeError>): Result<seq<Byte>, DecodeError> {
    match r
    case Err(e) => Err(e)
    case Ok(u) => Ok(t + u)
  }

  /** The `BytesIO` buffer: its bytes, which the decoder never changes, and the cursor. */
  class Reader {
    const data: array<Byte>
    ghost const bytes: seq<Byte>
    var pos: nat

    ghost predicate Valid()
      reads this, data
    {
      data[..] == bytes && pos <= |bytes|
    }

    /** `BytesIO(data)`: a copy of the bytes with the cursor at the start. */
    constructor (s: seq<Byte>)
      ensures Valid() && bytes == s && pos == 0
    {
      data := new Byte[|s|](i requires 0 <= i < |s| => s[i]);
      bytes := s;
      pos := 0;
    }

    /** `data.read(n)`: the next n bytes, or what is left; a negative n reads to the end. */
    method Read(n: int) returns (b: seq<Byte>)
      requires Valid()
      modifies this
      ensures Valid() && b == ReadAt(bytes, old(pos), n) && pos == old(pos) + |b|
    {
      var stop := if n < 0 || data.Length - pos < n then data.Length else pos + n;
      ReadAtSlice(bytes, pos, n);
      b := data[pos..stop];
      pos := stop;
    }

    /** `get_int(data, end)`: the text up to the terminator, through `int()`. */
    method GetInt(end: Byte) returns (r: Result<int, DecodeError>)
      requires Valid()
      modifies this
      ensures Valid() && Agrees(IntAt(bytes, old(pos), end), r, pos)
    {
      var text := ScanText(end);
      match text
      case Err(e) =>
        r := Err(e);
      case Ok(value) =>
        match ParseInt(value) {
          case None => r := Err(BadInteger);
          case Some(n) => r := Ok(n);
        }
    }

    /** The loop of `get_int`: bytes are read one at a time and collected until the terminator. */
    method ScanText(end: Byte) returns (r: Result<seq<Byte>, DecodeError>)
      requires Valid()
      modifies this
      ensures Valid() && r == ScanTo(bytes, old(pos), end)
      ensures r.Ok? ==> pos == old(pos) + |r.value| + 1
    {
      ghost var p0 := pos;
      var value: seq<Byte> := [];
      ghost var q := pos;  // where the byte just read sits
      var byte := Read(1);
      ReadOne(bytes, q);
      PrefixedEmpty(ScanTo(bytes, p0, end));
      while byte != [end]
        invariant Valid() && q == p0 + |value| && q <= |bytes|
        invariant byte == (if q == |bytes| then [] else [bytes[q]]) && pos == q + |byte|
        invariant ScanTo(bytes, p0, end) == Prefixed(value, ScanTo(bytes, q, end))
        decreases |bytes| - q
      {
        if byte == [] {
          // At the end of the buffer `read(1)` returns b"" forever: Python never leaves this loop.
          return Err(Unterminated);
        }
        if !IsAscii(byte[0]) {
          return Err(NotUtf8);
        }
        ScanStep(bytes, p0, q, end, value);
        value := value + byte;
        q := pos;
        byte := Read(1);
        ReadOne(bytes, q);
      }
      ScanEnds(bytes, p0, q, end, value);
      r := Ok(value);
    }

    /** `get_string(data)`, entered with the cursor just past the first digit of the length. */
    method GetString() returns (r: Result<seq<Byte>, DecodeError>)
      requires Valid() && 0 < pos && IsDigit(bytes[pos - 1])
      modifies this
      ensures Valid() && Agrees(StringAt(bytes, old(pos) - 1), r, pos)
    {
      pos := pos - 1;
      var length := GetInt(Colon);
      match length
      case Err(e) =>
        r := Err(e);
      case Ok(n) =>
        var value := Read(n);
        r := Ok(value);
    }

    /** `get_list(data)`: values are appended until one decodes as falsy. */
    method GetList() returns (r: Result<BValue, DecodeError>)
      requires Valid()
      modifies this
      ensures Valid() && Agrees(ListFrom(bytes, old(pos), []), r, pos)
      decreases |bytes| - pos, 1
    {
      ghost var p0 := pos;
      var values: seq<BValue> := [];
      ghost var vp := pos;
      var next := Decode();
      if next.Err? {
        ListFromFails(bytes, vp, values, next.error);
        return Err(next.error);
      }
      var value := next.value;
      while Truthy(value)
        invariant Valid() && p0 <= vp < pos
        invariant DecodeAt(bytes, vp) == Ok((value, pos))
        invariant ListFrom(bytes, p0, []) == ListFrom(bytes, vp, values)
        decreases |bytes| - pos
      {
        ListFromStep(bytes, vp, values, value, pos);
        values := values + [value];
        vp := pos;
        next := Decode();
        if next.Err? {
          ListFromFails(bytes, vp, values, next.error);
          return Err(next.error);
        }
        value := next.value;
      }
      ListFromStep(bytes, vp, values, value, pos);
      r := Ok(BList(values));
    }

    /**
     * `get_dict(data)`: keys are read until one decodes as falsy; a dict in
     * key position has its new keys copied in, any other key gets the value
     * that follows it.
     */
    method GetDict() returns (r: Result<BValue, DecodeError>)
      requires Valid()
      modifies this
      ensures Valid() && Agrees(DictFrom(bytes, old(pos), []), r, pos)
      decreases |bytes| - pos, 1
    {
      ghost var p0 := pos;
      var dictionary: seq<(BValue, BValue)> := [];
      ghost var kp := pos;
      var next := Decode();
      if next.Err? {
        DictFromKeyFails(bytes, kp, dictionary, next.error);
        return Err(next.error);
      }
      var key := next.value;
      while Truthy(key)
        invariant Valid() && p0 <= kp < pos
        invariant DecodeAt(bytes, kp) == Ok((key, pos))
        invariant DictFrom(bytes, p0, []) == DictFrom(bytes, kp, dictionary)
        decreases |bytes| - pos
      {
        if key.BDict? {
          DictFromMerge(bytes, kp, dictionary, key, pos);
          dictionary := CopyNew(dictionary, key.entries);
        } else {
          ghost var vp := pos;
          var value := Decode();
          if value.Err? {
            DictFromValueFails(bytes, kp, dictionary, key, vp, value.error);
            return Err(value.error);
          }
          if key.BList? {
            DictFromUnhashable(bytes, kp, dictionary, key, vp);
            return Err(Unhashable);
          }
          DictFromStore(bytes, kp, dictionary, key, vp, value.value, pos);
          dictionary := Put(dictionary, key, value.value);
        }
        kp := pos;
        next := Decode();
        if next.Err? {
          DictFromKeyFails(bytes, kp, dictionary, next.error);
          return Err(next.error);
        }
        key := next.value;
      }
      DictFromStop(bytes, kp, dictionary, key, pos);
      r := Ok(BDict(dictionary));
    }

    /** `bdecode(data)` on the buffer: the first byte picks the reader. */
    method Decode() returns (r: Result<BValue, DecodeError>)
      requires Valid()
      modifies this
      ensures Valid() && Agrees(DecodeAt(bytes, old(pos)), r, pos)
      decreases |bytes| - pos, 0
    {
      ghost var p0 := pos;
      var first := Read(1);
      ReadOne(bytes, p0);
      if first == [EndTag] {
        r := Ok(BNone);
      } else if first == [IntTag] {
        var n := GetInt(EndTag);
        match n
        case Err(e) => r := Err(e);
        case Ok(i) => r := Ok(BInt(i));
      } else if first == [DictTag] {
        r := GetDict();
      } else if first == [ListTag] {
        r := GetList();
      } else if first != [] && IsDigit(first[0]) {
        var b := GetString();
        match b
        case Err(e) => r := Err(e);
        case Ok(s) => r := Ok(BStr(s));
      } else {
        r := Err(InvalidType);
      }
    }
  }

  /** `for k, v in other.items(): if k not in dictionary: dictionary[k] = v`. */
  method CopyNew(dictionary: seq<(BValue, BValue)>, other: seq<(BValue, BValue)>) returns (r: seq<(BValue, BValue)>)
    ensures r == MergeNew(dictionary, other)
  {
    r := dictionary;
    for i := 0 to |other|
      invariant MergeNew(dictionary, other) == MergeNew(r, other[i..])
    {
      assert other[i..][0] == other[i] && other[i..][1..] == other[i + 1..];
      var (k, v) := other[i];
      if !HasKey(r, k) {
        r := r + [(k, v)];
      }
    }
    assert other[|other|..] == [];
  }

  /** `bdecode(data)` called with bytes: wrap them in a fresh buffer and decode from the start. */
  method DecodeBytes(s: seq<Byte>) returns (r: Result<BValue, DecodeError>)
    ensures r == Bdecode(s)
  {
    var reader := new Reader(s);
    r := reader.Decode();
  }

  // ---------------------------------------------------------------------------
  // Facts about the buffer the methods above rely on.

  lemma {:induction false} ReadAtSlice(s: seq<Byte>, c: nat, n: int)
    requires c <= |s|
    ensures var q := if n < 0 || |s| - c < n then |s| else c + n; ReadAt(s, c, n) == s[c..q]
    decreases |s| - c
  {
    if n >= 0 {
      ReadAtTakes(s, c, n);
    } else if c < |s| {
      ReadAtSlice(s, c + 1, n - 1);
      assert [s[c]] + s[c + 1..] == s[c..];
    }
  }

  lemma ReadOne(s: seq<Byte>, c: nat)
    requires c <= |s|
    ensures ReadAt(s, c, 1) == if c == |s| then [] else [s[c]]
  {
    if c < |s| {
      assert ReadAt(s, c + 1, 0) == [];
    }
  }

  lemma PrefixedEmpty(r: Result<seq<Byte>, DecodeError>)
    ensures Prefixed([], r) == r
  {
    if r.Ok? {
      assert [] + r.value == r.value;
    }
  }

  lemma ScanStep(s: seq<Byte>, p: nat, q: nat, end: Byte, t: seq<Byte>)
    requires q < |s| && s[q] != end && IsAscii(s[q])
    requires p <= |s| && ScanTo(s, p, end) == Prefixed(t, ScanTo(s, q, end))
    ensures ScanTo(s, p, end) == Prefixed(t + [s[q]], ScanTo(s, q + 1, end))
  {
    match ScanTo(s, q + 1, end)
    case Err(e) =>
    case Ok(u) => assert t + ([s[q]] + u) == t + [s[q]] + u;
  }

  lemma ScanEnds(s: seq<Byte>, p: nat, q: nat, end: Byte, t: seq<Byte>)
    requires q < |s| && s[q] == end
    requires p <= |s| && ScanTo(s, p, end) == Prefixed(t, ScanTo(s, q, end))
    ensures ScanTo(s, p, end) == Ok(t)
  {
    assert t + [] == t;
  }
}
