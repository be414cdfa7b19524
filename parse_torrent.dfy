/**
 * The piece-hash step of `parse_torrent` (py_bit_torrent/parse_torrent.py):
 * the `pieces` byte string of the decoded metainfo's `info` dict is cut into
 * 20-byte strides, each stride goes through SHA-1, and the list of their hex
 * digests replaces `info["pieces"]`. SHA-1 itself is a parameter.
 */
module ParseTorrent {
  import opened Wrappers
  import opened Ascii
  import opened BencodeValue

  /** The stride of `range(0, len(pieces), 20)`. */
  const Stride: nat := 20

  /** What `hashlib.sha1(...).digest()` produces: 20 bytes. */
  type Digest = d: seq<Byte> | |d| == 20 witness seq(20, _ => 0)

  const InfoKey: BValue := BStr([105, 110, 102, 111])            // "info"
  const PiecesKey: BValue := BStr([112, 105, 101, 99, 101, 115])  // "pieces"

  /** Why `parse_torrent` raises before it gets to replace the pieces. */
  datatype TorrentError =
    | NotADict        // not a dict: raises before or at `.get` (building MetaInfoStruct, or AttributeError)
    | NoInfo          // `decoded.get("info")` is None: AttributeError on `.get`
    | InfoNotADict    // the info value has no `.get`: AttributeError
    | NoPieces        // `info.get("pieces")` is None: `len(None)` raises TypeError
    | PiecesNotBytes  // an int, None, or a non-empty list or dict cannot be sliced and hashed: TypeError

  // ---------------------------------------------------------------------------
  // Hex digests.

  /** The lower-case hex digit for a value below 16. */
  function HexDigit(n: nat): (c: Byte)
    requires n < 16
    ensures (48 <= c <= 57) || (97 <= c <= 102)
  {
    if n < 10 then 48 + n else 87 + n
  }

  /** The value of a lower-case hex digit. */
  function HexValue(c: Byte): (n: nat)
    requires 48 <= c <= 57 || 97 <= c <= 102
    ensures n < 16 && HexDigit(n) == c
  {
    if c <= 57 then c - 48 else c - 87
  }

  /** `hexdigest()`: two lower-case hex digits per byte, high nibble first. */
  function HexDigest(d: seq<Byte>): (h: seq<Byte>)
    ensures |h| == 2 * |d|
    ensures forall i :: 0 <= i < |h| ==> 48 <= h[i] <= 57 || 97 <= h[i] <= 102
  {
    if d == [] then [] else [HexDigit(d[0] / 16), HexDigit(d[0] % 16)] + HexDigest(d[1..])
  }

  /** Reading the hex digits back in pairs. */
  function UnHex(h: seq<Byte>): seq<Byte>
    requires |h| % 2 == 0
    requires forall i :: 0 <= i < |h| ==> 48 <= h[i] <= 57 || 97 <= h[i] <= 102
  {
    if h == [] then []
    else
      var b := 16 * HexValue(h[0]) + HexValue(h[1]);
      [if b < 256 then b else 0] + UnHex(h[2..])
  }

  /** A hex digest spells out its bytes: reading it back gives them again. */
  lemma {:induction false} HexDigestRoundTrip(d: seq<Byte>)
    ensures forall i :: 0 <= i < |HexDigest(d)| ==> 48 <= HexDigest(d)[i] <= 57 || 97 <= HexDigest(d)[i] <= 102
    ensures UnHex(HexDigest(d)) == d
  {
    if d != [] {
      HexDigestRoundTrip(d[1..]);
      var h := HexDigest(d);
      assert h[2..] == HexDigest(d[1..]);
    }
  }

  // ---------------------------------------------------------------------------
  // Chunks.

  /** How many times `range(0, n, 20)` runs: n / 20 rounded up. */
  function NumChunks(n: nat): (k: nat)
    ensures Stride * (k - 1) < n <= Stride * k || (n == 0 && k == 0)
  {
    (n + Stride - 1) / Stride
  }

  /** `pieces[20k : 20k + 20]`: a slice past the end stops at the end. */
  function Chunk(pieces: seq<Byte>, k: nat): (c: seq<Byte>)
    requires k < NumChunks(|pieces|)
    ensures 0 < |c| <= Stride
    ensures |c| < Stride ==> k + 1 == NumChunks(|pieces|)
  {
    var lo := Stride * k;
    var hi := if lo + Stride <= |pieces| then lo + Stride else |pieces|;
    pieces[lo..hi]
  }

  /** The list `parse_torrent` builds: the hex digest of each chunk's SHA-1, in chunk order. */
  function PieceHashes(pieces: seq<Byte>, sha1: seq<Byte> -> Digest): (hs: seq<BValue>)
    ensures |hs| == NumChunks(|pieces|)
    ensures forall k :: 0 <= k < |hs| ==> hs[k].BStr? && |hs[k].bytes| == 40
  {
    var hs := seq(NumChunks(|pieces|), k requires 0 <= k < NumChunks(|pieces|) => BStr(HexDigest(sha1(Chunk(pieces, k)))));
    assert forall k :: 0 <= k < |hs| ==> |hs[k].bytes| == 2 * |sha1(Chunk(pieces, k))| == 40;
    hs
  }

  /** Every chunk but the last holds 20 bytes; the last holds 1 to 20, and only it can be short. */
  lemma ChunkSizes(pieces: seq<Byte>, k: nat)
    requires k < NumChunks(|pieces|)
    ensures 0 < |Chunk(pieces, k)| <= Stride
    ensures k + 1 < NumChunks(|pieces|) ==> |Chunk(pieces, k)| == Stride
    ensures k + 1 == NumChunks(|pieces|) ==> |Chunk(pieces, k)| == |pieces| - Stride * k
  {
  }

  /** The chunks, one after another, give back `pieces`: nothing is skipped or read twice. */
  function Joined(pieces: seq<Byte>, k: nat): seq<Byte>
    requires k <= NumChunks(|pieces|)
  {
    if k == 0 then [] else Joined(pieces, k - 1) + Chunk(pieces, k - 1)
  }

  lemma {:induction false} JoinedPrefix(pieces: seq<Byte>, k: nat)
    requires k <= NumChunks(|pieces|)
    ensures Joined(pieces, k) == pieces[..if Stride * k <= |pieces| then Stride * k else |pieces|]
  {
    if k > 0 {
      JoinedPrefix(pieces, k - 1);
      var lo := Stride * (k - 1);
      var hi := if lo + Stride <= |pieces| then lo + Stride else |pieces|;
      assert pieces[..lo] + pieces[lo..hi] == pieces[..hi];
    }
  }

  lemma ChunksCover(pieces: seq<Byte>)
    ensures Joined(pieces, NumChunks(|pieces|)) == pieces
  {
    JoinedPrefix(pieces, NumChunks(|pieces|));
  }

  /** Entry k of the new `pieces` list is the hex SHA-1 of bytes 20k up to 20k + 20 (or the end). */
  lemma PieceHashesSpec(pieces: seq<Byte>, sha1: seq<Byte> -> Digest)
    ensures |PieceHashes(pieces, sha1)| == NumChunks(|pieces|)
    ensures pieces == [] <==> PieceHashes(pieces, sha1) == []
    ensures forall k :: 0 <= k < NumChunks(|pieces|) ==>
      PieceHashes(pieces, sha1)[k] == BStr(HexDigest(sha1(Chunk(pieces, k)))) &&
      |PieceHashes(pieces, sha1)[k].bytes| == 40
    ensures forall k, i :: 0 <= k < NumChunks(|pieces|) && 0 <= i < 40 ==>
      48 <= PieceHashes(pieces, sha1)[k].bytes[i] <= 57 || 97 <= PieceHashes(pieces, sha1)[k].bytes[i] <= 102
  {
  }

  // ---------------------------------------------------------------------------
  // parse_torrent.

  /** The `for i in range(0, len(pieces), 20)` loop that fills `sha_pieces`. */
  method HashPieces(pieces: seq<Byte>, sha1: seq<Byte> -> Digest) returns (shaPieces: seq<BValue>)
    ensures shaPieces == PieceHashes(pieces, sha1)
  {
    shaPieces := [];
    var i := 0;
    while i < |pieces|
      invariant i == Stride * |shaPieces| && |shaPieces| <= NumChunks(|pieces|)
      invariant forall k :: 0 <= k < |shaPieces| ==> shaPieces[k] == BStr(HexDigest(sha1(Chunk(pieces, k))))
    {
      var hi := if i + Stride <= |pieces| then i + Stride else |pieces|;
      var chunk := pieces[i..hi];
      assert chunk == Chunk(pieces, |shaPieces|);
      shaPieces := shaPieces + [BStr(HexDigest(sha1(chunk)))];
      i := i + Stride;
    }
  }

  /**
   * What `parse_torrent` returns for the decoded metainfo: the same dict with
   * `info["pieces"]` replaced by the digest list, or the error it raises.
   */
  function ReplacePieces(decoded: BValue, sha1: seq<Byte> -> Digest): (r: Result<BValue, TorrentError>)
    ensures r == Err(NotADict) <==> !decoded.BDict?
    ensures r == Err(NoInfo) <==> decoded.BDict? && !HasKey(decoded.entries, InfoKey)
    ensures r.Ok? ==> r.value.BDict? && |r.value.entries| == |decoded.entries| && HasKey(r.value.entries, InfoKey)
  {
    if !decoded.BDict? then Err(NotADict)
    else match Lookup(decoded.entries, InfoKey)
      case None => Err(NoInfo)
      case Some(info) =>
        if !info.BDict? then Err(InfoNotADict)
        else match Lookup(info.entries, PiecesKey)
          case None => Err(NoPieces)
          case Some(pieces) =>
            match PiecesBytes(pieces)
            case None => Err(PiecesNotBytes)
            case Some(b) =>
              var info' := BDict(Put(info.entries, PiecesKey, BList(PieceHashes(b, sha1))));
              Ok(BDict(Put(decoded.entries, InfoKey, info')))
  }

  /**
   * The bytes the loop walks: a byte string as it is; an empty list or dict
   * has length 0, so the loop never slices or hashes it. Anything else raises.
   */
  function PiecesBytes(pieces: BValue): (r: Option<seq<Byte>>)
    ensures r.Some? <==> pieces.BStr? || pieces == BList([]) || pieces == BDict([])
    ensures r.Some? && !pieces.BStr? ==> r.value == []
  {
    match pieces
    case BStr(b) => Some(b)
    case BList(xs) => if xs == [] then Some([]) else None
    case BDict(es) => if es == [] then Some([]) else None
    case _ => None
  }

  /** `parse_torrent` after `bdecode`: find `info["pieces"]`, hash it, put the digests in its place. */
  method ParseTorrent(decoded: BValue, sha1: seq<Byte> -> Digest) returns (r: Result<BValue, TorrentError>)
    ensures r == ReplacePieces(decoded, sha1)
  {
    if !decoded.BDict? {
      return Err(NotADict);
    }
    var info := Lookup(decoded.entries, InfoKey);
    if info.None? {
      return Err(NoInfo);
    }
    if !info.value.BDict? {
      return Err(InfoNotADict);
    }
    var pieces := Lookup(info.value.entries, PiecesKey);
    if pieces.None? {
      return Err(NoPieces);
    }
    var bytes := PiecesBytes(pieces.value);
    if bytes.None? {
      return Err(PiecesNotBytes);
    }
    var shaPieces := HashPieces(bytes.value, sha1);
    var newInfo := BDict(Put(info.value.entries, PiecesKey, BList(shaPieces)));
    r := Ok(BDict(Put(decoded.entries, InfoKey, newInfo)));
  }

  // ---------------------------------------------------------------------------
  // What the replacement keeps.

  /**
   * Only `info["pieces"]` changes: every other key of the top-level dict and
   * of `info` keeps its value and its place, and `pieces` keeps its place.
   */
  lemma ReplaceOnlyPieces(decoded: BValue, sha1: seq<Byte> -> Digest)
    requires ReplacePieces(decoded, sha1).Ok?
    ensures var out := ReplacePieces(decoded, sha1).value;
      var info := Lookup(decoded.entries, InfoKey).value;
      out.BDict? && info.BDict? &&
      |out.entries| == |decoded.entries| &&
      (forall i :: 0 <= i < |decoded.entries| ==> out.entries[i].0 == decoded.entries[i].0) &&
      (forall k :: k != InfoKey ==> Lookup(out.entries, k) == Lookup(decoded.entries, k)) &&
      Lookup(out.entries, InfoKey).Some? &&
      var info' := Lookup(out.entries, InfoKey).value;
      info'.BDict? && |info'.entries| == |info.entries| &&
      (forall i :: 0 <= i < |info.entries| ==> info'.entries[i].0 == info.entries[i].0) &&
      (forall k :: k != PiecesKey ==> Lookup(info'.entries, k) == Lookup(info.entries, k)) &&
      Lookup(info'.entries, PiecesKey) == Some(BList(PieceHashes(PiecesBytes(Lookup(info.entries, PiecesKey).value).value, sha1)))
  {
    var info := Lookup(decoded.entries, InfoKey).value;
    var pieces := PiecesBytes(Lookup(info.entries, PiecesKey).value).value;
    var info' := BDict(Put(info.entries, PiecesKey, BList(PieceHashes(pieces, sha1))));
    PutKeepsOthers(info.entries, PiecesKey, BList(PieceHashes(pieces, sha1)));
    PutKeepsOthers(decoded.entries, InfoKey, info');
  }

  /** `d[k] = v` on a key already present: same keys in the same places; only k's value changes. */
  lemma PutKeepsOthers(es: seq<(BValue, BValue)>, k: BValue, v: BValue)
    requires HasKey(es, k)
    ensures |Put(es, k, v)| == |es|
    ensures forall i :: 0 <= i < |es| ==> Put(es, k, v)[i].0 == es[i].0
    ensures Lookup(Put(es, k, v), k) == Some(v)
    ensures forall j :: j != k ==> Lookup(Put(es, k, v), j) == Lookup(es, j)
  {
    PutSpec(es, k, v);
    var i := IndexOf(es, k).value;
    forall j | j != k ensures Lookup(Put(es, k, v), j) == Lookup(es, j) {
      LookupSameKeys(es, Put(es, k, v), j);
    }
  }

  /** Two entry lists with the same keys in the same places, and the same value wherever the key is not k. */
  lemma {:induction false} LookupSameKeys(es: seq<(BValue, BValue)>, fs: seq<(BValue, BValue)>, j: BValue)
    requires |es| == |fs|
    requires forall i :: 0 <= i < |es| ==> fs[i].0 == es[i].0
    requires forall i :: 0 <= i < |es| && es[i].0 == j ==> fs[i] == es[i]
    ensures Lookup(fs, j) == Lookup(es, j)
  {
    if es != [] && es[0].0 != j {
      LookupSameKeys(es[1..], fs[1..], j);
    }
  }

  /**
   * The length of `pieces` is never checked: any byte string under
   * `info["pieces"]`, whatever its length, is accepted and hashed.
   */
  lemma RaggedPiecesAccepted(decoded: BValue, sha1: seq<Byte> -> Digest)
    requires decoded.BDict? && Lookup(decoded.entries, InfoKey).Some?
    requires Lookup(decoded.entries, InfoKey).value.BDict?
    requires Lookup(Lookup(decoded.entries, InfoKey).value.entries, PiecesKey).Some?
    requires Lookup(Lookup(decoded.entries, InfoKey).value.entries, PiecesKey).value.BStr?
    ensures ReplacePieces(decoded, sha1).Ok?
  {
  }
}
