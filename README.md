# py-bit-torrent core, modelled and proved in Dafny

This project models the core of py-bit-torrent, a BitTorrent client written in Python:

- **The bencode codec** (`bit_torrent/bencode.py`):
  - The decoder is a cursor over a `BytesIO` buffer. `get_int`, `get_string`, `get_list`, `get_dict` and `bdecode` read from it.
  - The encoder has `encode_buffer`, `encode_int`, `encode_list`, `encode_dict`, the `with_end` decorator and `bencode`. It writes to a stream.
- **The piece-hash step of the torrent loader** (`py_bit_torrent/parse_torrent.py`). It cuts the `pieces` string of the decoded `info` dictionary into 20-byte chunks. It replaces the string with the hexadecimal SHA-1 digests of those chunks.
- **The client object** (`py_bit_torrent/protocol/client.py`):
  - the settings its constructor derives from the command line;
  - the shaping of what a DHT lookup returns;
  - the `contact_dht` step that records the peers dictionary;
  - the swarm set-up;
  - the merge of newly announced seeders into the swarm's peer list.
- **The command-line entry point** (`py_bit_torrent/protocol/main.py`): the checks on the options, and the start-up that retries the DHT until it answers.

The model follows the program's structure, one Dafny module per concern:

| file | module | what it holds |
|---|---|---|
| `wrappers.dfy` | `Wrappers` | `Option` and `Result` |
| `ascii.dfy` | `Ascii` | bytes, digits and the ASCII test Python's one-byte `decode()` applies |
| `decimal.dfy` | `Decimal` | `str(n)` and `int(text)` on decimal texts |
| `bencode_value.dfy` | `BencodeValue` | the values the codec handles; Python's insertion-ordered `dict` as a sequence of entries |
| `bencode_encode.dfy` | `BencodeEncode` | the encoding as a function (`Enc`) and the encoder as methods writing to a `Stream` object |
| `bencode_decode.dfy` | `BencodeDecode` | the decoder as functions of a byte sequence and a position, and one lemma per reader step |
| `bencode_reader.dfy` | `BencodeReader` | the decoder as the Python code runs it: a `Reader` object with a cursor, proved to compute the decoder functions |
| `bencode_roundtrip.dfy` | `BencodeRoundTrip` | decoding the encoding gives the value back, and where it does not |
| `parse_torrent.dfy` | `ParseTorrent` | the chunk loop and the in-place replacement of `info["pieces"]` |
| `client.dfy` | `BitTorrentClient` | client settings, DHT peers, the swarm and the seeder merge |
| `main_options.dfy` | `BitTorrentMain` | option checks and the start-up retry loop |

Bencoded text is a sequence of bytes (`seq<Byte>`). Command-line options and DHT records are Dafny strings.

Three things are model parameters rather than computed: SHA-1 (a function to 20-byte digests), `json.loads` (a function that may fail), and the outcome of each network call.

## Model

| member | source | states |
|---|---|---|
| Decimal.IntText | bit_torrent/bencode.py:119 | `str(n)` is non-empty; it starts with '-' exactly when n is negative; the digits that follow are those of the magnitude |
| Decimal.NatText | bit_torrent/bencode.py:112 | `str(n)` of a natural number is all digits, with no leading zero unless it is "0" |
| Decimal.ParseInt | bit_torrent/bencode.py:22 | `int(text)` succeeds exactly on -?[0-9]+ texts; a text of digits alone gives a non-negative number |
| Decimal.ParseIntText | bit_torrent/bencode.py:22 | `int(str(n)) == n` for every integer |
| Decimal.NatTextValue | bit_torrent/bencode.py:112 | the digits `str(n)` writes denote n |
| Ascii.AsciiBytes | py_bit_torrent/protocol/client.py:75-87 | a text has a byte form exactly when all its characters are below 128, and that form keeps each character's code |
| BencodeValue.IndexOf | bit_torrent/bencode.py:51-55 | the position of a key is where it first occurs; none exactly when the key is absent |
| BencodeValue.Lookup | bit_torrent/bencode.py:51 | a key is found exactly when some entry has it, and the value found is one stored under that key |
| BencodeValue.Put | bit_torrent/bencode.py:55 | after `dictionary[key] = value` the key maps to the value; a present key keeps the size; a new key adds one entry after the old ones, which stay as they were; entries under other keys keep their place |
| BencodeValue.MergeNew | bit_torrent/bencode.py:50-52 | copying a dict key's items only adds entries after the existing ones, at most one per item copied |
| BencodeValue.PutSpec | bit_torrent/bencode.py:55 | `dictionary[key] = value`: afterwards the key maps to the value; an existing key keeps its place and the size; a new key goes at the end; every other entry is untouched |
| BencodeValue.MergeNewSpec | bit_torrent/bencode.py:49-52 | copying a dict key's new entries only appends; the keys afterwards are those of both dictionaries; every entry comes from one of them |
| BencodeValue.MergeNewFirstWins | bit_torrent/bencode.py:51-52 | a key already in the dictionary keeps its value when a dict key brings it again |
| BencodeValue.PutKeepsKeysOk | bit_torrent/bencode.py:55 | storing a hashable truthy key keeps the keys distinct and valid |
| BencodeValue.MergeNewKeepsKeysOk | bit_torrent/bencode.py:49-52 | merging two dictionaries with valid keys keeps the keys distinct and valid |
| BencodeValue.PrefixIndexOf | bit_torrent/bencode.py:51-55 | appending entries does not move a key that is already present |
| BencodeEncode.Enc | bit_torrent/bencode.py:108-143 | every encoding is non-empty; its first byte says its kind ('i', 'l', 'd', or a digit for a string); all but strings end in 'e' |
| BencodeEncode.EncItemsAppend | bit_torrent/bencode.py:125-126 | the items of two lists encode as the two encodings side by side |
| BencodeEncode.EncEntriesAppend | bit_torrent/bencode.py:132-134 | the entries of two dictionaries encode as the two encodings side by side |
| BencodeEncode.Stream.Write | bit_torrent/bencode.py:112-114 | `stream.write(b)` appends b to what the stream holds |
| BencodeEncode.EncodeBuffer | bit_torrent/bencode.py:108-114 | writes the length, ':' and the bytes: the stream gains exactly the string's encoding |
| BencodeEncode.EncodeInt | bit_torrent/bencode.py:117-119 | writes 'i', the digits and the 'e' `with_end` adds: the stream gains exactly the integer's encoding |
| BencodeEncode.EncodeList | bit_torrent/bencode.py:122-126 | succeeds exactly when no item holds a None; then the stream gains 'l', each item's encoding in order, and 'e' |
| BencodeEncode.EncodeDict | bit_torrent/bencode.py:129-134 | succeeds exactly when no key or value holds a None; then the stream gains 'd', each key's and value's encoding in insertion order, and 'e' |
| BencodeEncode.EncodeEntry | bit_torrent/bencode.py:133-134 | one key and its value are written back to back, or the call fails when either holds a None |
| BencodeEncode.BencodeInto | bit_torrent/bencode.py:146-152 | dispatch on the value's type: the stream gains exactly the value's encoding, and it fails exactly on a None |
| BencodeEncode.Bencode | bit_torrent/bencode.py:146-152 | `bencode(v)` on a fresh stream returns the encoding of v, or fails exactly when v holds a None |
| BencodeDecode.Bdecode | bit_torrent/bencode.py:80-95 | a decoded input is non-empty, and its first byte names the value's kind: 'e' None, 'i' an integer, 'l' a list, 'd' a dictionary, a digit a string |
| BencodeDecode.ScanTo | bit_torrent/bencode.py:12-20 | the text `get_int` collects ends before the input does; the only failures are the end of the input and a non-ASCII byte |
| BencodeDecode.ScanToSkips | bit_torrent/bencode.py:12-20 | the text collected is the run of ASCII bytes before the first terminator; running out means no terminator was there; a non-ASCII byte fails the scan |
| BencodeDecode.IntAt | bit_torrent/bencode.py:8-22 | `get_int` leaves the cursor past the terminator, inside the input |
| BencodeDecode.ReadAt | bit_torrent/bencode.py:32 | `read(n)` never reads past the end of the buffer |
| BencodeDecode.ReadAtTakes | bit_torrent/bencode.py:32 | `read(n)` returns the next n bytes, or what is left when fewer remain |
| BencodeDecode.StringAt | bit_torrent/bencode.py:25-38 | `get_string` leaves the cursor inside the input and past where it started |
| BencodeDecode.StringAtReads | bit_torrent/bencode.py:30-32 | `get_string` succeeds exactly when its length does; the length is non-negative; the string is the bytes after the ':'; it is short only at the end of the input |
| BencodeDecode.DecodeAt | bit_torrent/bencode.py:80-95 | a decoded value always moves the cursor forward, inside the input |
| BencodeDecode.DecodeAtKind | bit_torrent/bencode.py:76-95 | the first byte picks the decoder: 'e' gives None, 'i' an integer, 'l' a list, 'd' a dictionary, a digit a string |
| BencodeDecode.ListFrom | bit_torrent/bencode.py:62-73 | `get_list` yields a list and moves the cursor forward |
| BencodeDecode.ListFromExtends | bit_torrent/bencode.py:69-71 | values are only appended: the list so far is a prefix of the result |
| BencodeDecode.DictFrom | bit_torrent/bencode.py:41-59 | `get_dict` yields a dictionary and moves the cursor forward |
| BencodeReader.Reader.constructor | bit_torrent/bencode.py:82-83 | `BytesIO(data)` holds the bytes, with the cursor at the start |
| BencodeReader.Reader.Read | bit_torrent/bencode.py:13-20 | `read(n)` returns the bytes `ReadAt` names and moves the cursor past them |
| BencodeReader.Reader.GetInt | bit_torrent/bencode.py:8-22 | the loop over `read(1)` computes `IntAt` at the cursor, with the same result or error, and leaves the cursor where `IntAt` says |
| BencodeReader.Reader.ScanText | bit_torrent/bencode.py:12-20 | the byte-by-byte loop computes `ScanTo` and stops just past the terminator |
| BencodeReader.Reader.GetString | bit_torrent/bencode.py:25-38 | after the step back over the first digit, computes `StringAt` at that digit |
| BencodeReader.Reader.GetList | bit_torrent/bencode.py:62-73 | the append loop computes `ListFrom` at the cursor |
| BencodeReader.Reader.GetDict | bit_torrent/bencode.py:41-59 | the key loop, with its merge and store branches, computes `DictFrom` at the cursor |
| BencodeReader.Reader.Decode | bit_torrent/bencode.py:80-95 | `bdecode` on the buffer computes `DecodeAt` at the cursor |
| BencodeReader.CopyNew | bit_torrent/bencode.py:50-52 | the copy loop over a dict key's items computes `MergeNew` |
| BencodeReader.DecodeBytes | bit_torrent/bencode.py:80-95 | `bdecode(bytes)` computes `Bdecode` |
| BencodeRoundTrip.DecodedWellFormed | bit_torrent/bencode.py:41-73 | every decoded value is well formed: list elements truthy; dict keys distinct, truthy, int or string |
| BencodeRoundTrip.IntAtText | bit_torrent/bencode.py:8-22 | scanning the digits `encode_int` wrote, up to a non-digit terminator, gives the integer back |
| BencodeRoundTrip.DecodeEnc | bit_torrent/bencode.py:80-95 | a well-formed value decodes from its encoding, wherever the encoding sits, and the cursor ends just past it |
| BencodeRoundTrip.EncItemsList | bit_torrent/bencode.py:62-73 | the encoded items of a list of truthy values, followed by a falsy value, decode as that list |
| BencodeRoundTrip.EncEntriesDict | bit_torrent/bencode.py:41-59 | encoded entries with fresh, valid keys, followed by a falsy key, decode as those entries |
| BencodeRoundTrip.RoundTrip | bit_torrent/bencode.py:80-152 | `bdecode(bencode(v)) == v` for every well-formed value without None |
| BencodeRoundTrip.FalsyElementTruncatesList | bit_torrent/bencode.py:69 | a list whose k-th element is falsy (0, empty) decodes as its first k elements only, so the round trip fails |
| BencodeRoundTrip.FalsyKeyTruncatesDict | bit_torrent/bencode.py:48 | a dictionary whose k-th key is falsy decodes as its first k entries only |
| ParseTorrent.HexDigest | py_bit_torrent/parse_torrent.py:20 | `hexdigest()` writes two lower-case hex characters per byte |
| ParseTorrent.HexValue | py_bit_torrent/parse_torrent.py:20 | each lower-case hex digit stands for one value below 16, which writes back as that digit |
| ParseTorrent.HexDigestRoundTrip | py_bit_torrent/parse_torrent.py:20 | a hex digest is lower-case hex digits only, and reading it back gives the digest's bytes |
| ParseTorrent.NumChunks | py_bit_torrent/parse_torrent.py:16 | `range(0, n, 20)` has ceiling(n/20) steps |
| ParseTorrent.Chunk | py_bit_torrent/parse_torrent.py:16-17 | each slice `pieces[i:i + 20]` holds 1 to 20 bytes, and only the last can be short |
| ParseTorrent.PieceHashes | py_bit_torrent/parse_torrent.py:16-20 | `sha_pieces` has one entry per chunk, each a 40-character hex string |
| ParseTorrent.ChunkSizes | py_bit_torrent/parse_torrent.py:16-17 | every chunk but the last is 20 bytes; the last is 1 to 20 bytes |
| ParseTorrent.JoinedPrefix | py_bit_torrent/parse_torrent.py:16-17 | the first k chunks, joined, are the first 20k bytes of the pieces |
| ParseTorrent.ChunksCover | py_bit_torrent/parse_torrent.py:16-17 | all the chunks, joined, are the pieces string: nothing dropped, nothing repeated |
| ParseTorrent.PieceHashesSpec | py_bit_torrent/parse_torrent.py:16-20 | one digest per chunk, in order; none exactly when the pieces are empty; each is 40 lower-case hex characters |
| ParseTorrent.HashPieces | py_bit_torrent/parse_torrent.py:13-20 | the chunk loop collects `PieceHashes` |
| ParseTorrent.PiecesBytes | py_bit_torrent/parse_torrent.py:16-17 | the loop accepts a byte string, or an empty list or dict that it never enters |
| ParseTorrent.ReplacePieces | py_bit_torrent/parse_torrent.py:12-22 | the first error is raised exactly when the decoded value is not a dictionary, the second exactly when it has no `info`; a success is a dictionary of the same size that still holds `info` |
| ParseTorrent.ParseTorrent | py_bit_torrent/parse_torrent.py:12-22 | the lookups and the in-place replacement compute `ReplacePieces`, with one error for each lookup that raises |
| ParseTorrent.ReplaceOnlyPieces | py_bit_torrent/parse_torrent.py:22 | the result keeps every key of both dictionaries in place; it changes only `info["pieces"]`, which becomes the list of digests |
| ParseTorrent.PutKeepsOthers | py_bit_torrent/parse_torrent.py:22 | assigning to an existing key keeps the size, the key order and every other key's value |
| ParseTorrent.RaggedPiecesAccepted | py_bit_torrent/parse_torrent.py:16-22 | any pieces string is hashed, whatever its length; one not a multiple of 20 is not refused |
| BitTorrentClient.ClientRequestFrom | py_bit_torrent/protocol/client.py:64-87 | a download directory wins over a seeding one, so at most one mode is set; seeding is set exactly when a non-empty seeding directory is given and no non-empty download directory; the rate limit goes only to the active mode's rate; the others stay at sys.maxsize; max peers is 4 unless given; no options give the defaults; the download and seeding directories are the ones given; the active mode's rate and max peers, when given, are `int()` of their texts; the failure is exactly an `int()` on a text that is not a number |
| BitTorrentClient.BuildClientRequest | py_bit_torrent/protocol/client.py:64-87 | the successive updates of the constructor compute `ClientRequestFrom` |
| BitTorrentClient.PyInt | py_bit_torrent/protocol/client.py:76-87 | `int()` succeeds exactly on the texts -?[0-9]+; one without '-' gives a non-negative number |
| BitTorrentClient.PyIntText | py_bit_torrent/protocol/client.py:76-87 | `int(str(n)) == n` for every integer n |
| BitTorrentClient.NonEmpty | py_bit_torrent/protocol/client.py:128 | `if p` keeps exactly the non-empty records, and never more than there were |
| BitTorrentClient.NonEmptyAppend | py_bit_torrent/protocol/client.py:128 | the `if p` filter keeps nothing of no records, and each further record once, at the end, exactly when it is non-empty: every non-empty record, in order |
| BitTorrentClient.GetDhtPeers | py_bit_torrent/protocol/client.py:120-134 | no value, or a value of another type, gives no peers; a text gives its one record when it reads as JSON, otherwise none |
| BitTorrentClient.LoadAll | py_bit_torrent/protocol/client.py:128 | a success yields as many peers as there are non-empty records; a failure means some non-empty record does not read |
| BitTorrentClient.LoadAllSpec | py_bit_torrent/protocol/client.py:128 | the comprehension succeeds exactly when every non-empty record reads; then it yields one peer per non-empty record, in order |
| BitTorrentClient.GetDhtPeersList | py_bit_torrent/protocol/client.py:126-134 | a list of records yields one peer per non-empty record, in order, or no peers at all when one record does not read |
| BitTorrentClient.ListedAddress | py_bit_torrent/protocol/client.py:274-277 | the `any(...)` test holds exactly when the record's address is in the peer list |
| BitTorrentClient.MergePeers | py_bit_torrent/protocol/client.py:272-284 | a polling round only grows the peer list, by at most one peer per discovered record |
| BitTorrentClient.MergeAppendsUnlisted | py_bit_torrent/protocol/client.py:274-284 | every appended peer was not in the list before the round |
| BitTorrentClient.FirstAt | py_bit_torrent/protocol/client.py:272-277 | the position of the first discovered record with a given address; no earlier record has it |
| BitTorrentClient.MergeKeepsDiscoveryOrder | py_bit_torrent/protocol/client.py:272-284 | the new peers are appended in the order in which their addresses were first discovered |
| BitTorrentClient.MergeKeepsPrefix | py_bit_torrent/protocol/client.py:272-284 | the merge only appends: the swarm's existing peers stay, in order |
| BitTorrentClient.MergeListsAll | py_bit_torrent/protocol/client.py:272-284 | after the merge every discovered record's address is in the peer list |
| BitTorrentClient.MergeAddsOnlyNew | py_bit_torrent/protocol/client.py:274-284 | every appended peer is the address of a discovered record that was not listed before |
| BitTorrentClient.MergeKeepsDistinct | py_bit_torrent/protocol/client.py:274-284 | a peer list without repeated addresses stays so |
| BitTorrentClient.MergeAllListed | py_bit_torrent/protocol/client.py:278 | when every record is listed already, the round changes nothing |
| BitTorrentClient.MergeIdempotent | py_bit_torrent/protocol/client.py:272-284 | polling the same records a second time adds nothing |
| BitTorrentClient.PeersData.constructor | py_bit_torrent/protocol/client.py:167-178 | a peers dictionary holds the given peers and interval |
| BitTorrentClient.Swarm.constructor | py_bit_torrent/protocol/client.py:193-196 | a swarm keeps a reference to the peers dictionary it was built from |
| BitTorrentClient.Swarm.AddNewPeers | py_bit_torrent/protocol/client.py:272-284 | the loop over discovered records leaves the peer list equal to `MergePeers` of the old list |
| BitTorrentClient.Client.constructor | py_bit_torrent/protocol/client.py:64-87 | a new client holds its settings and has no peers dictionary and no swarm yet |
| BitTorrentClient.Client.ContactDht | py_bit_torrent/protocol/client.py:136-178 | answers true exactly once bootstrapped; a seeder records an empty peers dictionary and a downloader the lookup's peers, each with interval 1800; an exception records an empty one and answers falsy; no bootstrap nodes change nothing |
| BitTorrentClient.Client.InitializeSwarm | py_bit_torrent/protocol/client.py:185-196 | with a mode set, a swarm is built on the recorded peers dictionary, or on a new empty one; a seeder empties the shared dictionary's peers first, the client's own record included; with no mode nothing changes |
| BitTorrentClient.Client.MonitorRound | py_bit_torrent/protocol/client.py:268-284 | one polling round merges the lookup's peers into the swarm's list |
| BitTorrentMain.PeersCheck | py_bit_torrent/protocol/main.py:92-94 | a given max peers passes exactly when it is a number of at most 50, and is refused as too many exactly when it is a number above 50 |
| BitTorrentMain.RateCheck | py_bit_torrent/protocol/main.py:96-100 | a given rate passes exactly when it is a positive number, and is refused as not positive exactly when it is a number of 0 or below |
| BitTorrentMain.CheckOptions | py_bit_torrent/protocol/main.py:86-100 | the directory check refuses exactly the options that give neither directory |
| BitTorrentMain.CheckOptionsAccepts | py_bit_torrent/protocol/main.py:86-100 | the options pass exactly when a directory is given, a given max peers is a number of at most 50, and a given rate is a positive number |
| BitTorrentMain.CheckedOptionsBuild | py_bit_torrent/protocol/main.py:86-100 | options that pass never make the client's constructor raise; the settings stay within the limits checked |
| BitTorrentMain.EmptyDirectoryNoMode | py_bit_torrent/protocol/main.py:86 | an empty download directory passes the check, and the client then neither downloads nor seeds |
| BitTorrentMain.ContactUntilReady | py_bit_torrent/protocol/main.py:49-51 | `contact_dht` is called until it answers true: the last call is the first success, and without one every answer is used up; the swarm is untouched; once ready, the client's peers dictionary is fresh with interval 1800, empty for a seeder and the last lookup's peers for a downloader |
| BitTorrentMain.Start | py_bit_torrent/protocol/main.py:49-100 | refused options stop the program with their reason; otherwise the client is built from them, contacts the DHT until it answers, and then builds its swarm; that swarm's peers are empty for a seeder, and for a downloader those of the first lookup that bootstrapped |

## Left out

- Text values: `get_string` decodes a byte string that is valid UTF-8 into a `str` (bit_torrent/bencode.py:33-36). The model keeps every string as bytes, so `"a"` and `b"a"` are one value. BencodeRoundTrip.RoundTrip rests on this: in Python `bdecode(bencode(b"spam"))` is the `str` `"spam"`, not `b"spam"`, so the round trip returns the value only up to that identification.
- ParseTorrent.ReplacePieces and ParseTorrent.PiecesBytes: a non-empty `pieces` string that is valid UTF-8 is a `str` in Python. `len()` and the slices then count characters, and `sha1.update(chunk)` raises `TypeError` (py_bit_torrent/parse_torrent.py:16-19). The model hashes its bytes and succeeds instead. An empty one is never sliced, so both agree on it.
- `int()` here reads `-?[0-9]+` only, with ASCII digits. Python also accepts surrounding whitespace, a leading '+', '_' separators and the other Unicode decimal digits (such as Arabic-Indic ones).
- BencodeReader.Reader.GetInt: at the end of the buffer, Python's `read(1)` returns `b""` forever and the loop never ends. The model returns an `Unterminated` error instead.
- The falsy-element quirk is kept as written. A list element, or a dictionary key, that is 0 or empty ends the collection early. The model states this as a property (FalsyElementTruncatesList, FalsyKeyTruncatesDict) rather than correcting it.
- The encoder's `str` branch is not modelled separately. `encode_buffer` encodes a `str` to UTF-8 before taking `len()` (bit_torrent/bencode.py:109-112), so the length is in bytes, and on those bytes it does what the `bytes` branch does, which is BencodeEncode.EncodeBuffer.
- `TYPES` is keyed on the first byte read, and an unknown byte is the `ValueError` that the model keeps as `InvalidType`. `ENCODE_TYPES` is keyed on `type(data)` (bit_torrent/bencode.py:136-150). Floats, tuples and other Python types are a `KeyError` there, and the model does not have them: BValue holds only the kinds the codec handles, plus None.
- BencodeRoundTrip.RoundTrip, BencodeDecode.IntAt and BencodeEncode.EncodeInt: integers and nesting are unbounded in the model. CPython 3.10.7 and later refuse to convert between `int` and `str` beyond 4300 decimal digits, so `str(data)` in `encode_int` (bit_torrent/bencode.py:119) and `int(value)` in `get_int` (bit_torrent/bencode.py:22) raise `ValueError` on such numbers. Values nested deeper than the interpreter's recursion limit (about 1000 levels) raise `RecursionError` in both `bencode` and `bdecode`. The model encodes and decodes both, and RoundTrip holds for them.
- SHA-1 is a parameter of ParseTorrent.HashPieces and ParseTorrent.ParseTorrent, not computed.
- The file read in `parse_torrent` and the `MetaInfoStruct` built before and after are not modelled. `torrent.py` is not part of this model.
- ParseTorrent.ReplacePieces: a pieces string whose length is not a multiple of 20 is hashed like any other, its last chunk short. `parse_torrent.py` has no check for it, although a torrent's pieces are meant to be 20 bytes per piece; the model follows the code (RaggedPiecesAccepted).
- `json.loads` is a parameter of BitTorrentClient.GetDhtPeers, returning a peer record or a failure. Valid JSON that is not a record with `ip` and `port` counts as a failure too. In Python such a text loads, and the monitor raises at it (py_bit_torrent/protocol/client.py:273-285): the round has already appended the new peers of the records before it, and its handler ends the round. For a list holding such a text the model adds no peer that round.
- BitTorrentClient.Swarm.constructor: the swarm and its `Peer` objects are not part of this model. The peer list a new swarm builds is a parameter of InitializeSwarm.
- BitTorrentClient.Client.ContactDht: listening, bootstrapping, announcing with `set_dht_peer`, and the DHT lookup are the network. Their outcome is the attempt parameter. `set_dht_peer`, `seed`, `download` and `event_loop` are not modelled.
- BitTorrentClient.Client.MonitorRound: the monitor thread's `while not download_complete()` loop, its 10-second sleeps and its exception handler are not modelled. So is the thread's concurrency with the download. One round is modelled.
- BitTorrentMain.ContactUntilReady: Python retries `contact_dht` forever. The model takes the answers as a finite sequence and stops when they run out (`StillContacting`).
- The bootstrap-node mode of `main` (no arguments), `argparse` itself and the printed messages are not modelled. Logging throughout is left out.

