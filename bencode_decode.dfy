/**
 * What `bdecode` computes, as functions of the buffer and the cursor position:
 * each returns the decoded value with the position just past it, or the
 * error Python raises. The Reader class in bencode_reader.dfy is proved to
 * compute exactly these.
 */
module BencodeDecode {
  import opened Wrappers
  import opened Ascii
  import opened Decimal
  import opened BencodeValue

  datatype DecodeError =
    | InvalidType   // ValueError("Invalid data type"): an unknown first byte, or no byte left
    | BadInteger    // int(text) raises ValueError
    | NotUtf8       // byte.decode() raises UnicodeDecodeError on a byte of 0x80 or more
    | Unterminated  // get_int reaches the end of the buffer: Python loops there forever
    | Unhashable    // a list decoded in key position: TypeError on dictionary[key] = value

  /**
   * The `while byte != end` loop of `get_int`: the text `value` it builds
   * from the bytes before the first terminator, each decoded as a one-byte
   * ASCII string.
   */
  function ScanTo(s: seq<Byte>, p: nat, end: Byte): (r: Result<seq<Byte>, DecodeError>)
    requires p <= |s|
    ensures r.Ok? ==> p + |r.value| < |s|
    ensures r.Err? ==> r.error == Unterminated || r.error == NotUtf8
    decreases |s| - p
  {
    if p == |s| then Err(Unterminated)
    else if s[p] == end then Ok([])
    else if !IsAscii(s[p]) then Err(NotUtf8)
    else
      match ScanTo(s, p + 1, end)
      case Err(e) => Err(e)
      case Ok(t) => Ok([s[p]] + t)
  }

  /** `get_int(data, end)` from position p: `int()` of the scanned text; the cursor ends past the terminator. */
  function IntAt(s: seq<Byte>, p: nat, end: Byte): (r: Result<(int, nat), DecodeError>)
    requires p <= |s|
    ensures r.Ok? ==> p < r.value.1 <= |s|
  {
    match ScanTo(s, p, end)
    case Err(e) => Err(e)
    case Ok(t) =>
      match ParseInt(t)
      case None => Err(BadInteger)
      case Some(n) => Ok((n, p + |t| + 1))
  }

  /**
   * `data.read(n)` from position c: n bytes, fewer when the buffer ends
   * first; a negative n reads everything that is left.
   */
  function ReadAt(s: seq<Byte>, c: nat, n: int): (r: seq<Byte>)
    requires c <= |s|
    ensures c + |r| <= |s|
    decreases |s| - c
  {
    if n == 0 || c == |s| then [] else [s[c]] + ReadAt(s, c + 1, n - 1)
  }

  /**
   * `get_string` with the cursor on the first digit: the length up to ':',
   * then `data.read(length)`.
   */
  function StringAt(s: seq<Byte>, p: nat): (r: Result<(seq<Byte>, nat), DecodeError>)
    requires p < |s| && IsDigit(s[p])
    ensures r.Ok? ==> p < r.value.1 <= |s|
  {
    match IntAt(s, p, Colon)
    case Err(e) => Err(e)
    case Ok((n, c)) =>
      var b := ReadAt(s, c, n);
      Ok((b, c + |b|))
  }

  /**
   * `bdecode` with the cursor at p: a bare 'e' gives None; 'i', 'l', 'd' and a
   * digit select the reader; any other byte, or none, raises ValueError.
   */
  function DecodeAt(s: seq<Byte>, p: nat): (r: Result<(BValue, nat), DecodeError>)
    requires p <= |s|
    ensures r.Ok? ==> p < r.value.1 <= |s|
    decreases |s| - p, 0
  {
    if p == |s| then Err(InvalidType)
    else if s[p] == EndTag then Ok((BNone, p + 1))
    else if s[p] == IntTag then
      match IntAt(s, p + 1, EndTag)
      case Err(e) => Err(e)
      case Ok((n, q)) => Ok((BInt(n), q))
    else if s[p] == DictTag then DictFrom(s, p + 1, [])
    else if s[p] == ListTag then ListFrom(s, p + 1, [])
    else if IsDigit(s[p]) then
      match StringAt(s, p)
      case Err(e) => Err(e)
      case Ok((b, q)) => Ok((BStr(b), q))
    else Err(InvalidType)
  }

  /**
   * The loop of `get_list` with `acc` collected so far: decode the next value
   * and stop at the first one that is falsy, whether it is the end marker's
   * None or a genuine 0, empty string, empty list or empty dict.
   */
  function ListFrom(s: seq<Byte>, p: nat, acc: seq<BValue>): (r: Result<(BValue, nat), DecodeError>)
    requires p <= |s|
    ensures r.Ok? ==> p < r.value.1 <= |s| && r.value.0.BList?
    decreases |s| - p, 1
  {
    match DecodeAt(s, p)
    case Err(e) => Err(e)
    case Ok((v, q)) =>
      if !Truthy(v) then Ok((BList(acc), q))
      else
        ListFrom(s, q, acc + [v])
  }

  /**
   * The loop of `get_dict` with the entries `acc` so far: a falsy key ends
   * the dict; a dict in key position is merged into it, first seen wins; a
   * list in key position raises once its value is read; any other key stores
   * the value that follows it, overwriting an earlier value in place.
   */
  function DictFrom(s: seq<Byte>, p: nat, acc: seq<(BValue, BValue)>): (r: Result<(BValue, nat), DecodeError>)
    requires p <= |s|
    ensures r.Ok? ==> p < r.value.1 <= |s| && r.value.0.BDict?
    decreases |s| - p, 1
  {
    match DecodeAt(s, p)
    case Err(e) => Err(e)
    case Ok((k, q)) =>
      if !Truthy(k) then Ok((BDict(acc), q))
      else if k.BDict? then DictFrom(s, q, MergeNew(acc, k.entries))
      else
        match DecodeAt(s, q)
        case Err(e) => Err(e)
        case Ok((v, q')) =>
          if k.BList? then Err(Unhashable) else DictFrom(s, q', Put(acc, k, v))
  }

  /** `bdecode(data)` on a whole buffer: the value only; trailing bytes are ignored. */
  function Bdecode(s: seq<Byte>): (r: Result<BValue, DecodeError>)
    ensures r.Ok? ==> 0 < |s|
    ensures r.Ok? ==> (r.value.BNone? <==> s[0] == EndTag) && (r.value.BInt? <==> s[0] == IntTag)
    ensures r.Ok? ==> (r.value.BList? <==> s[0] == ListTag) && (r.value.BDict? <==> s[0] == DictTag)
    ensures r.Ok? ==> (r.value.BStr? <==> IsDigit(s[0]))
  {
    match DecodeAt(s, 0)
    case Err(e) => Err(e)
    case Ok((v, _)) => DecodeAtKind(s, 0); Ok(v)
  }

  // ---------------------------------------------------------------------------
  // What each reader step means.

  /**
   * The text `get_int` scans is the run of bytes before the first
   * terminator, each a one-byte ASCII string; it fails at the end of the
   * buffer or at the first non-ASCII byte.
   */
  lemma {:induction false} ScanToSkips(s: seq<Byte>, p: nat, end: Byte)
    requires p <= |s|
    ensures ScanTo(s, p, end).Ok? ==>
      var t := ScanTo(s, p, end).value;
      s[p + |t|] == end && t == s[p..p + |t|] &&
      forall j :: p <= j < p + |t| ==> s[j] != end && IsAscii(s[j])
    ensures ScanTo(s, p, end) == Err(Unterminated) ==>
      forall j :: p <= j < |s| ==> s[j] != end && IsAscii(s[j])
    ensures ScanTo(s, p, end) == Err(NotUtf8) ==>
      exists j :: p <= j < |s| && !IsAscii(s[j])
    decreases |s| - p
  {
    if p < |s| && s[p] != end && IsAscii(s[p]) {
      ScanToSkips(s, p + 1, end);
      if ScanTo(s, p, end).Ok? {
        var u := ScanTo(s, p + 1, end).value;
        assert [s[p]] + s[p + 1..p + 1 + |u|] == s[p..p + 1 + |u|];
      }
    }
  }

  /** `get_int` returns `int()` of exactly the text between p and the terminator. */
  lemma IntAtParses(s: seq<Byte>, p: nat, end: Byte)
    requires p <= |s|
    ensures IntAt(s, p, end).Ok? ==>
      var (n, next) := IntAt(s, p, end).value;
      ScanTo(s, p, end).Ok? && next == p + |ScanTo(s, p, end).value| + 1 &&
      ParseInt(ScanTo(s, p, end).value) == Some(n)
    ensures IntAt(s, p, end) == Err(BadInteger) <==>
      ScanTo(s, p, end).Ok? && ParseInt(ScanTo(s, p, end).value).None?
  {
  }

  /** `data.read(n)` returns the next n bytes, or all that is left when fewer remain. */
  lemma {:induction false} ReadAtTakes(s: seq<Byte>, c: nat, n: nat)
    requires c <= |s|
    ensures var q := if c + n <= |s| then c + n else |s|; ReadAt(s, c, n) == s[c..q]
    decreases |s| - c
  {
    if n != 0 && c != |s| {
      ReadAtTakes(s, c + 1, n - 1);
      var q := if c + n <= |s| then c + n else |s|;
      assert [s[c]] + s[c + 1..q] == s[c..q];
    }
  }

  /**
   * `get_string` returns the `length` bytes after the colon, or all that is
   * left when the buffer is shorter; the length text is what `get_int` reads.
   */
  lemma StringAtReads(s: seq<Byte>, p: nat)
    requires p < |s| && IsDigit(s[p])
    ensures StringAt(s, p).Ok? <==> IntAt(s, p, Colon).Ok?
    ensures StringAt(s, p).Ok? ==>
      var (n, c) := IntAt(s, p, Colon).value;
      var (b, q) := StringAt(s, p).value;
      n >= 0 && c <= q <= |s| && b == s[c..q] && |b| <= n && (|b| < n ==> q == |s|)
  {
    IntAtParses(s, p, Colon);
    if IntAt(s, p, Colon).Ok? {
      ScanToSkips(s, p, Colon);
      var t := ScanTo(s, p, Colon).value;
      assert t[0] == s[p];
      var (n, c) := IntAt(s, p, Colon).value;
      ReadAtTakes(s, c, n);
    }
  }

  /** The first byte decides the kind of the decoded value. */
  lemma DecodeAtKind(s: seq<Byte>, p: nat)
    requires p <= |s| && DecodeAt(s, p).Ok?
    ensures p < |s|
    ensures DecodeAt(s, p).value.0.BNone? <==> s[p] == EndTag
    ensures DecodeAt(s, p).value.0.BInt? <==> s[p] == IntTag
    ensures DecodeAt(s, p).value.0.BList? <==> s[p] == ListTag
    ensures DecodeAt(s, p).value.0.BDict? <==> s[p] == DictTag
    ensures DecodeAt(s, p).value.0.BStr? <==> IsDigit(s[p])
  {
  }

  /** `get_list` only appends to the elements collected so far. */
  lemma {:induction false} ListFromExtends(s: seq<Byte>, p: nat, acc: seq<BValue>)
    requires p <= |s| && ListFrom(s, p, acc).Ok?
    ensures |acc| <= |ListFrom(s, p, acc).value.0.items|
    ensures ListFrom(s, p, acc).value.0.items[..|acc|] == acc
    decreases |s| - p
  {
    var (v, q) := DecodeAt(s, p).value;
    if Truthy(v) {
      ListFromExtends(s, q, acc + [v]);
      assert (acc + [v])[..|acc|] == acc;
    }
  }

  // One step of each collection loop, each in a context of its own.

  lemma ListFromStep(s: seq<Byte>, p: nat, acc: seq<BValue>, v: BValue, q: nat)
    requires p <= |s| && DecodeAt(s, p) == Ok((v, q))
    ensures q <= |s|
    ensures ListFrom(s, p, acc) == if Truthy(v) then ListFrom(s, q, acc + [v]) else Ok((BList(acc), q))
  {
  }

  lemma DictFromStop(s: seq<Byte>, p: nat, acc: seq<(BValue, BValue)>, k: BValue, q: nat)
    requires p <= |s| && DecodeAt(s, p) == Ok((k, q)) && !Truthy(k)
    ensures DictFrom(s, p, acc) == Ok((BDict(acc), q))
  {
  }

  lemma DictFromStore(s: seq<Byte>, p: nat, acc: seq<(BValue, BValue)>, k: BValue, q: nat, v: BValue, q': nat)
    requires p <= |s| && DecodeAt(s, p) == Ok((k, q)) && Truthy(k) && !k.BDict? && !k.BList?
    requires q <= |s| && DecodeAt(s, q) == Ok((v, q'))
    ensures q' <= |s|
    ensures DictFrom(s, p, acc) == DictFrom(s, q', Put(acc, k, v))
  {
  }

  lemma ListFromFails(s: seq<Byte>, p: nat, acc: seq<BValue>, e: DecodeError)
    requires p <= |s| && DecodeAt(s, p) == Err(e)
    ensures ListFrom(s, p, acc) == Err(e)
  {
  }

  lemma DictFromKeyFails(s: seq<Byte>, p: nat, acc: seq<(BValue, BValue)>, e: DecodeError)
    requires p <= |s| && DecodeAt(s, p) == Err(e)
    ensures DictFrom(s, p, acc) == Err(e)
  {
  }

  lemma DictFromMerge(s: seq<Byte>, p: nat, acc: seq<(BValue, BValue)>, k: BValue, q: nat)
    requires p <= |s| && DecodeAt(s, p) == Ok((k, q)) && Truthy(k) && k.BDict?
    ensures q <= |s|
    ensures DictFrom(s, p, acc) == DictFrom(s, q, MergeNew(acc, k.entries))
  {
  }

  lemma DictFromValueFails(s: seq<Byte>, p: nat, acc: seq<(BValue, BValue)>, k: BValue, q: nat, e: DecodeError)
    requires p <= |s| && DecodeAt(s, p) == Ok((k, q)) && Truthy(k) && !k.BDict?
    requires q <= |s| && DecodeAt(s, q) == Err(e)
    ensures DictFrom(s, p, acc) == Err(e)
  {
  }

  lemma DictFromUnhashable(s: seq<Byte>, p: nat, acc: seq<(BValue, BValue)>, k: BValue, q: nat)
    requires p <= |s| && DecodeAt(s, p).Ok? && DecodeAt(s, p).value == (k, q) && Truthy(k) && k.BList?
    requires q <= |s| && DecodeAt(s, q).Ok?
    ensures DictFrom(s, p, acc) == Err(Unhashable)
  {
  }
}
