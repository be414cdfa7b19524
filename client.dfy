/**
 * The bittorrent client object: the settings it derives from the command
 * line, the shaping of what the DHT hands back, the set-up of the swarm and
 * the merge of newly announced seeders into the swarm's peer list.
 */
module BitTorrentClient {
  import opened Wrappers
  import opened Ascii
  import opened Decimal

  /** `sys.maxsize` on a 64-bit interpreter: the rate that means "no limit". */
  const MaxSize: int := 0x7fff_ffff_ffff_ffff
  const DefaultMaxPeers: int := 4
  /** The re-announce interval, in seconds, of every peers record the client makes. */
  const DhtInterval: int := 1800

  /** The parsed command line; an option the user did not give is None. */
  datatype UserArguments = UserArguments(
    torrentFilePath: string,
    downloadDirPath: Option<string>,
    seedingDirPath: Option<string>,
    maxPeers: Option<string>,
    rateLimit: Option<string>)

  /** Python truthiness of an option: given and not the empty text. */
  predicate Given(o: Option<string>) {
    o.Some? && o.value != ""
  }

  predicate IsDigitChar(c: char) {
    '0' <= c <= '9'
  }

  /** The texts `int()` reads here: an optional '-' and at least one decimal digit. */
  predicate IntegerText(s: string) {
    || (0 < |s| && forall i :: 0 <= i < |s| ==> IsDigitChar(s[i]))
    || (1 < |s| && s[0] == '-' && forall i :: 1 <= i < |s| ==> IsDigitChar(s[i]))
  }

  /** `int(text)` for texts of the form -?[0-9]+; None where Python raises ValueError. */
  function PyInt(s: string): (r: Option<int>)
    ensures r.Some? <==> IntegerText(s)
    ensures r.Some? && s[0] != '-' ==> r.value >= 0
  {
    match AsciiBytes(s)
    case None =>
      NotAsciiNotInteger(s);
      None
    case Some(b) =>
      AsciiDigits(s, b);
      ParseInt(b)
  }

  lemma NotAsciiNotInteger(s: string)
    requires AsciiBytes(s).None?
    ensures !IntegerText(s)
  {
    var i :| 0 <= i < |s| && s[i] as int >= 128;
    assert !IsDigitChar(s[i]) && s[i] != '-';
  }

  lemma DigitChar(c: char, x: Byte)
    requires x == c as int
    ensures IsDigit(x) <==> IsDigitChar(c)
    ensures x == Minus <==> c == '-'
  {
  }

  /** Over the byte form of a text, the digit and sign tests are the character tests. */
  lemma AsciiDigits(s: string, b: seq<Byte>)
    requires AsciiBytes(s) == Some(b)
    ensures 0 < |b| ==> (b[0] == Minus <==> s[0] == '-')
    ensures AllDigits(b) <==> forall i :: 0 <= i < |s| ==> IsDigitChar(s[i])
    ensures 1 < |b| ==> (AllDigits(b[1..]) <==> forall i :: 1 <= i < |s| ==> IsDigitChar(s[i]))
  {
    SameDigits(s, b);
    WholeDigits(s, b);
    if 1 < |b| {
      TailDigits(s, b);
    }
  }

  lemma WholeDigits(s: string, b: seq<Byte>)
    requires |b| == |s|
    requires forall i :: 0 <= i < |s| ==> (IsDigit(b[i]) <==> IsDigitChar(s[i]))
    ensures AllDigits(b) <==> forall i :: 0 <= i < |s| ==> IsDigitChar(s[i])
  {
    AllDigitsIndex(b);
  }

  lemma SameDigits(s: string, b: seq<Byte>)
    requires AsciiBytes(s) == Some(b)
    ensures |b| == |s|
    ensures forall i :: 0 <= i < |s| ==> (IsDigit(b[i]) <==> IsDigitChar(s[i])) && (b[i] == Minus <==> s[i] == '-')
  {
    forall i | 0 <= i < |s|
      ensures (IsDigit(b[i]) <==> IsDigitChar(s[i])) && (b[i] == Minus <==> s[i] == '-')
    {
      DigitChar(s[i], b[i]);
    }
  }

  lemma TailDigits(s: string, b: seq<Byte>)
    requires |b| == |s| && 1 < |b|
    requires forall i :: 0 <= i < |s| ==> (IsDigit(b[i]) <==> IsDigitChar(s[i]))
    ensures AllDigits(b[1..]) <==> forall i :: 1 <= i < |s| ==> IsDigitChar(s[i])
  {
    var u := b[1..];
    AllDigitsIndex(u);
    assert forall i :: 1 <= i < |s| ==> u[i - 1] == b[i];
  }

  /** The characters of a byte text. */
  function TextOf(t: seq<Byte>): (s: string)
    ensures |s| == |t| && forall i :: 0 <= i < |t| ==> s[i] as int == t[i]
  {
    seq(|t|, i requires 0 <= i < |t| => t[i] as char)
  }

  /** `int(str(n)) == n`: the number a client writes on the command line reads back. */
  lemma PyIntText(n: int)
    ensures PyInt(TextOf(IntText(n))) == Some(n)
  {
    var t := IntText(n);
    var s := TextOf(t);
    IntTextBytes(n);
    assert forall i :: 0 <= i < |s| ==> s[i] as int < 128;
    var b := AsciiBytes(s).value;
    assert b == t;
    ParseIntText(n);
  }

  // ---------------------------------------------------------------------
  // The client request
  // ---------------------------------------------------------------------

  datatype ClientRequest = ClientRequest(
    seeding: Option<string>,
    downloading: Option<string>,
    uploadingRate: int,
    downloadingRate: int,
    maxPeers: int)

  const DefaultRequest := ClientRequest(None, None, MaxSize, MaxSize, DefaultMaxPeers)

  /** The ValueError `int()` raises, with the text it could not read. */
  datatype ClientError = NotANumber(text: string)

  /** A download directory selects downloading, and wins over a seeding directory. */
  predicate Downloads(a: UserArguments) {
    Given(a.downloadDirPath)
  }

  predicate Seeds(a: UserArguments) {
    !Given(a.downloadDirPath) && Given(a.seedingDirPath)
  }

  /** The rate limit is read only when one of the two modes is selected. */
  predicate RateUsed(a: UserArguments) {
    (Downloads(a) || Seeds(a)) && Given(a.rateLimit)
  }

  /**
   * The settings the arguments ask for, field by field: the selected mode's
   * directory, the rate limit on the selected mode's rate only, and the
   * peer limit when one is given; a number that does not parse is an error.
   */
  function ClientRequestFrom(a: UserArguments): (r: Result<ClientRequest, ClientError>)
    ensures r.Err? <==> (RateUsed(a) && PyInt(a.rateLimit.value).None?)
                        || (Given(a.maxPeers) && PyInt(a.maxPeers.value).None?)
    ensures r.Ok? ==> !(r.value.seeding.Some? && r.value.downloading.Some?)
    ensures r.Ok? ==> (r.value.downloading.Some? <==> Given(a.downloadDirPath))
    ensures r.Ok? ==> (r.value.seeding.Some? <==> Seeds(a))
    ensures r.Ok? && r.value.seeding.Some? ==> r.value.seeding == a.seedingDirPath && !Given(a.downloadDirPath)
    ensures r.Ok? && r.value.seeding.None? ==> r.value.uploadingRate == MaxSize
    ensures r.Ok? && r.value.downloading.None? ==> r.value.downloadingRate == MaxSize
    ensures r.Ok? && !Given(a.rateLimit) ==> r.value.uploadingRate == MaxSize && r.value.downloadingRate == MaxSize
    ensures r.Ok? && !Given(a.maxPeers) ==> r.value.maxPeers == DefaultMaxPeers
    ensures !Given(a.downloadDirPath) && !Given(a.seedingDirPath) && !Given(a.maxPeers) ==> r == Ok(DefaultRequest)
    ensures r.Ok? && Downloads(a) ==> r.value.downloading == a.downloadDirPath
    ensures r.Ok? && Seeds(a) ==> r.value.seeding == a.seedingDirPath
    ensures r.Ok? && Downloads(a) && Given(a.rateLimit) ==> r.value.downloadingRate == PyInt(a.rateLimit.value).value
    ensures r.Ok? && Seeds(a) && Given(a.rateLimit) ==> r.value.uploadingRate == PyInt(a.rateLimit.value).value
    ensures r.Ok? && Given(a.maxPeers) ==> r.value.maxPeers == PyInt(a.maxPeers.value).value
  {
    if RateUsed(a) && PyInt(a.rateLimit.value).None? then Err(NotANumber(a.rateLimit.value))
    else if Given(a.maxPeers) && PyInt(a.maxPeers.value).None? then Err(NotANumber(a.maxPeers.value))
    else
      var rate := if RateUsed(a) then PyInt(a.rateLimit.value).value else MaxSize;
      Ok(ClientRequest(
        seeding := if Seeds(a) then a.seedingDirPath else None,
        downloading := if Downloads(a) then a.downloadDirPath else None,
        uploadingRate := if Seeds(a) then rate else MaxSize,
        downloadingRate := if Downloads(a) then rate else MaxSize,
        maxPeers := if Given(a.maxPeers) then PyInt(a.maxPeers.value).value else DefaultMaxPeers))
  }

  /** The constructor's settings, built as it builds them: defaults first, then one update per option. */
  method BuildClientRequest(a: UserArguments) returns (r: Result<ClientRequest, ClientError>)
    ensures r == ClientRequestFrom(a)
  {
    var request := DefaultRequest;
    if Given(a.downloadDirPath) {
      request := request.(downloading := a.downloadDirPath);
      if Given(a.rateLimit) {
        var n := PyInt(a.rateLimit.value);
        if n.None? {
          return Err(NotANumber(a.rateLimit.value));
        }
        request := request.(downloadingRate := n.value);
      }
    } else if Given(a.seedingDirPath) {
      request := request.(seeding := a.seedingDirPath);
      if Given(a.rateLimit) {
        var n := PyInt(a.rateLimit.value);
        if n.None? {
          return Err(NotANumber(a.rateLimit.value));
        }
        request := request.(uploadingRate := n.value);
      }
    }
    if Given(a.maxPeers) {
      var n := PyInt(a.maxPeers.value);
      if n.None? {
        return Err(NotANumber(a.maxPeers.value));
      }
      request := request.(maxPeers := n.value);
    }
    r := Ok(request);
  }

  // ---------------------------------------------------------------------
  // Peers found through the DHT
  // ---------------------------------------------------------------------

  /** A peer record as another client stored it in the DHT, once read back from JSON. */
  datatype PeerInfo = PeerInfo(ip: string, port: int, timestamp: int)

  /** What a DHT lookup hands back, by its Python type. */
  datatype DhtValue =
    | NoValue                        // None
    | Text(text: string)             // one stored record
    | Texts(items: seq<string>)      // several stored records
    | OtherValue(truthy: bool)       // any other type

  /** The items a comprehension with `if p` keeps: the non-empty ones, in order. */
  function NonEmpty(items: seq<string>): (r: seq<string>)
    ensures |r| <= |items|
    ensures forall t :: t in r <==> t in items && t != ""
  {
    if items == [] then []
    else (if items[0] == "" then [] else [items[0]]) + NonEmpty(items[1..])
  }

  /**
   * The filter read one record at a time: nothing from no records, and each
   * further record kept once, at the end, exactly when it is non-empty.
   */
  lemma {:induction false} NonEmptyAppend(items: seq<string>, t: string)
    ensures NonEmpty([]) == []
    ensures NonEmpty(items + [t]) == NonEmpty(items) + (if t == "" then [] else [t])
    decreases |items|
  {
    if items != [] {
      assert (items + [t])[1..] == items[1..] + [t];
      NonEmptyAppend(items[1..], t);
    } else {
      assert NonEmpty([t]) == (if t == "" then [] else [t]) + NonEmpty([]);
    }
  }

  /** `[json.loads(p) for p in items if p]`; None when one of the loads raises. */
  function LoadAll(items: seq<string>, loads: string -> Option<PeerInfo>): (r: Option<seq<PeerInfo>>)
    ensures r.Some? ==> |r.value| <= |items|
    ensures r.Some? ==> |r.value| == |NonEmpty(items)|
    ensures r.None? ==> exists t :: t in items && t != "" && loads(t).None?
  {
    if items == [] then Some([])
    else if items[0] == "" then LoadAll(items[1..], loads)
    else match loads(items[0])
      case None => None
      case Some(p) =>
        match LoadAll(items[1..], loads)
        case None => None
        case Some(ps) => Some([p] + ps)
  }

  /** Every non-empty item reads as JSON. */
  predicate AllLoad(items: seq<string>, loads: string -> Option<PeerInfo>) {
    forall t :: t in NonEmpty(items) ==> loads(t).Some?
  }

  /**
   * The peers a DHT lookup yields: nothing for a falsy or foreign value,
   * the one record of a text, the records of the non-empty texts of a list;
   * a record that does not read makes the whole lookup yield nothing.
   */
  function GetDhtPeers(v: DhtValue, loads: string -> Option<PeerInfo>): (r: seq<PeerInfo>)
    ensures v.NoValue? || v.OtherValue? ==> r == []
    ensures v.Text? ==> r == (if v.text != "" && loads(v.text).Some? then [loads(v.text).value] else [])
  {
    match v
    case NoValue => []
    case OtherValue(_) => []
    case Text(s) =>
      if s == "" then []
      else (match loads(s) case None => [] case Some(p) => [p])
    case Texts(items) =>
      if items == [] then []
      else (match LoadAll(items, loads) case None => [] case Some(ps) => ps)
  }

  lemma {:induction false} LoadAllSpec(items: seq<string>, loads: string -> Option<PeerInfo>)
    ensures LoadAll(items, loads).Some? <==> AllLoad(items, loads)
    ensures LoadAll(items, loads).Some? ==>
      var ps := LoadAll(items, loads).value;
      |ps| == |NonEmpty(items)| &&
      forall j :: 0 <= j < |ps| ==> Some(ps[j]) == loads(NonEmpty(items)[j])
    decreases |items|
  {
    if items != [] {
      LoadAllSpec(items[1..], loads);
      assert NonEmpty(items) == (if items[0] == "" then [] else [items[0]]) + NonEmpty(items[1..]);
      if items[0] != "" {
        assert items[0] in NonEmpty(items);
      }
    }
  }

  /** A list of records yields one peer per non-empty record, in order, when all of them read. */
  lemma GetDhtPeersList(items: seq<string>, loads: string -> Option<PeerInfo>)
    ensures var r := GetDhtPeers(Texts(items), loads);
      if AllLoad(items, loads) then
        |r| == |NonEmpty(items)| && forall j :: 0 <= j < |r| ==> Some(r[j]) == loads(NonEmpty(items)[j])
      else r == []
  {
    LoadAllSpec(items, loads);
  }

  // ---------------------------------------------------------------------
  // The swarm's peer list and the seeder merge
  // ---------------------------------------------------------------------

  /** A peer of the swarm, known by its address. */
  datatype Peer = Peer(ip: string, port: int)

  function AddressOf(info: PeerInfo): Peer {
    Peer(info.ip, info.port)
  }

  /** Some peer of the list has the record's IP and port. */
  predicate Listed(peers: seq<Peer>, info: PeerInfo) {
    exists i :: 0 <= i < |peers| && peers[i].ip == info.ip && peers[i].port == info.port
  }

  /** One polling round: each record, in turn, is appended unless its address is already listed. */
  function MergePeers(peers: seq<Peer>, found: seq<PeerInfo>): (r: seq<Peer>)
    ensures |peers| <= |r| <= |peers| + |found|
    decreases |found|
  {
    if found == [] then peers
    else MergePeers(if Listed(peers, found[0]) then peers else peers + [AddressOf(found[0])], found[1..])
  }

  predicate DistinctPeers(peers: seq<Peer>) {
    forall i, j :: 0 <= i < j < |peers| ==> peers[i] != peers[j]
  }

  lemma ListedAddress(peers: seq<Peer>, info: PeerInfo)
    ensures Listed(peers, info) <==> AddressOf(info) in peers
  {
    if AddressOf(info) in peers {
      var i :| 0 <= i < |peers| && peers[i] == AddressOf(info);
    }
  }

  /** The merge only appends: the peers already in the swarm stay, in place. */
  lemma {:induction false} MergeKeepsPrefix(peers: seq<Peer>, found: seq<PeerInfo>)
    ensures peers <= MergePeers(peers, found)
    decreases |found|
  {
    if found != [] {
      var next := if Listed(peers, found[0]) then peers else peers + [AddressOf(found[0])];
      MergeKeepsPrefix(next, found[1..]);
    }
  }

  /** After the merge every record's address is in the swarm. */
  lemma {:induction false} MergeListsAll(peers: seq<Peer>, found: seq<PeerInfo>)
    ensures forall info :: info in found ==> AddressOf(info) in MergePeers(peers, found)
    decreases |found|
  {
    if found != [] {
      var next := if Listed(peers, found[0]) then peers else peers + [AddressOf(found[0])];
      MergeListsAll(next, found[1..]);
      MergeKeepsPrefix(next, found[1..]);
      ListedAddress(peers, found[0]);
      assert AddressOf(found[0]) in next;
      forall info | info in found
        ensures AddressOf(info) in MergePeers(peers, found)
      {
        if info != found[0] {
          assert info in found[1..];
        }
      }
    }
  }

  /** Every peer the merge appends is the address of a record that was not listed before. */
  lemma {:induction false} MergeAddsOnlyNew(peers: seq<Peer>, found: seq<PeerInfo>)
    ensures forall i :: |peers| <= i < |MergePeers(peers, found)| ==>
      exists info :: info in found && MergePeers(peers, found)[i] == AddressOf(info) && !Listed(peers, info)
    decreases |found|
  {
    MergeKeepsPrefix(peers, found);
    if found != [] {
      var listed := Listed(peers, found[0]);
      var next := if listed then peers else peers + [AddressOf(found[0])];
      var r := MergePeers(peers, found);
      MergeAddsOnlyNew(next, found[1..]);
      MergeKeepsPrefix(next, found[1..]);
      forall i | |peers| <= i < |r|
        ensures exists info :: info in found && r[i] == AddressOf(info) && !Listed(peers, info)
      {
        if i < |next| {
          assert !listed && r[i] == AddressOf(found[0]);
        } else {
          var info :| info in found[1..] && r[i] == AddressOf(info) && !Listed(next, info);
          ListedAddress(next, info);
          ListedAddress(peers, info);
          assert info in found;
        }
      }
    }
  }

  /** A list without repeated addresses stays so. */
  lemma {:induction false} MergeKeepsDistinct(peers: seq<Peer>, found: seq<PeerInfo>)
    requires DistinctPeers(peers)
    ensures DistinctPeers(MergePeers(peers, found))
    decreases |found|
  {
    if found != [] {
      if !Listed(peers, found[0]) {
        ListedAddress(peers, found[0]);
      }
      var next := if Listed(peers, found[0]) then peers else peers + [AddressOf(found[0])];
      MergeKeepsDistinct(next, found[1..]);
    }
  }

  /** Every peer the merge appends was not in the list before. */
  lemma MergeAppendsUnlisted(peers: seq<Peer>, found: seq<PeerInfo>)
    ensures forall i :: |peers| <= i < |MergePeers(peers, found)| ==> MergePeers(peers, found)[i] !in peers
  {
    MergeAddsOnlyNew(peers, found);
    var r := MergePeers(peers, found);
    forall i | |peers| <= i < |r|
      ensures r[i] !in peers
    {
      var info :| info in found && r[i] == AddressOf(info) && !Listed(peers, info);
      ListedAddress(peers, info);
    }
  }

  /** The position of the first record with address p; |found| when there is none. */
  function FirstAt(found: seq<PeerInfo>, p: Peer): (k: nat)
    ensures k <= |found|
    ensures k < |found| ==> AddressOf(found[k]) == p
    ensures forall j :: 0 <= j < k ==> AddressOf(found[j]) != p
  {
    if found == [] then 0
    else if AddressOf(found[0]) == p then 0
    else 1 + FirstAt(found[1..], p)
  }

  /** The appended peers come in the order their records were first discovered. */
  lemma {:induction false} MergeKeepsDiscoveryOrder(peers: seq<Peer>, found: seq<PeerInfo>)
    ensures var r := MergePeers(peers, found);
      forall i, j :: |peers| <= i < j < |r| ==> FirstAt(found, r[i]) < FirstAt(found, r[j])
    decreases |found|
  {
    if found != [] {
      var listed := Listed(peers, found[0]);
      var next := if listed then peers else peers + [AddressOf(found[0])];
      var r := MergePeers(peers, found);
      assert r == MergePeers(next, found[1..]);
      MergeKeepsDiscoveryOrder(next, found[1..]);
      MergeKeepsPrefix(next, found[1..]);
      MergeAppendsUnlisted(next, found[1..]);
      ListedAddress(peers, found[0]);
      assert AddressOf(found[0]) in next;
      forall i | |next| <= i < |r|
        ensures FirstAt(found, r[i]) == 1 + FirstAt(found[1..], r[i])
      {
        assert r[i] != AddressOf(found[0]);
      }
      forall i, j | |peers| <= i < j < |r|
        ensures FirstAt(found, r[i]) < FirstAt(found, r[j])
      {
        if i < |next| {
          assert r[i] == AddressOf(found[0]);
        }
      }
    }
  }

  /** When every record is listed already, the round changes nothing. */
  lemma {:induction false} MergeAllListed(peers: seq<Peer>, found: seq<PeerInfo>)
    requires forall info :: info in found ==> AddressOf(info) in peers
    ensures MergePeers(peers, found) == peers
    decreases |found|
  {
    if found != [] {
      ListedAddress(peers, found[0]);
      MergeAllListed(peers, found[1..]);
    }
  }

  /** Polling the same records again adds nothing. */
  lemma MergeIdempotent(peers: seq<Peer>, found: seq<PeerInfo>)
    ensures MergePeers(MergePeers(peers, found), found) == MergePeers(peers, found)
  {
    MergeListsAll(peers, found);
    MergeAllListed(MergePeers(peers, found), found);
  }

  /** The `{"peers": [...], "interval": 1800}` dictionary, shared by reference. */
  class PeersData {
    var peers: seq<PeerInfo>
    var interval: int

    constructor (peers: seq<PeerInfo>, interval: int)
      ensures this.peers == peers && this.interval == interval
    {
      this.peers := peers;
      this.interval := interval;
    }
  }

  /**
   * The swarm object: the peers dictionary it was built from and its peer
   * list; the peer list it builds is given, as the swarm itself is not part
   * of this model.
   */
  class Swarm {
    const data: PeersData
    var peersList: seq<Peer>

    constructor (data: PeersData, peersList: seq<Peer>)
      ensures this.data == data && this.peersList == peersList
    {
      this.data := data;
      this.peersList := peersList;
    }

    /** One round of the seeder monitor over the records the DHT returned. */
    method AddNewPeers(found: seq<PeerInfo>)
      modifies this
      ensures peersList == MergePeers(old(peersList), found)
    {
      for i := 0 to |found|
        invariant MergePeers(old(peersList), found) == MergePeers(peersList, found[i..])
      {
        var info := found[i];
        assert found[i..][1..] == found[i + 1..];
        var known := Listed(peersList, info);
        if !known {
          peersList := peersList + [AddressOf(info)];
        }
      }
      assert found[|found|..] == [];
    }
  }

  /** How one attempt to reach the DHT went; the network itself is not part of this model. */
  datatype DhtAttempt =
    | Raised                          // an exception inside contact_dht
    | NoBootstrapNodes                // the bootstrap answered with no nodes
    | Bootstrapped(lookup: DhtValue)  // bootstrapped; what a lookup of the info hash returns

  class Client {
    const clientRequest: ClientRequest
    /** null until contact_dht sets the attribute. */
    var dhtPeersData: PeersData?
    var swarm: Swarm?

    constructor (request: ClientRequest)
      ensures clientRequest == request && dhtPeersData == null && swarm == null
    {
      clientRequest := request;
      dhtPeersData := null;
      swarm := null;
    }

    /**
     * One call of contact_dht: true once bootstrapped; a seeder records no
     * peers, a downloader the peers the lookup yields; a failure records no
     * peers and answers falsy.
     */
    method ContactDht(attempt: DhtAttempt, loads: string -> Option<PeerInfo>) returns (flag: bool)
      modifies this
      ensures flag <==> attempt.Bootstrapped?
      ensures swarm == old(swarm)
      ensures attempt.NoBootstrapNodes? ==> dhtPeersData == old(dhtPeersData)
      ensures attempt.Raised? ==>
        dhtPeersData != null && fresh(dhtPeersData) && dhtPeersData.peers == [] && dhtPeersData.interval == DhtInterval
      ensures attempt.Bootstrapped? && clientRequest.seeding.Some? ==>
        dhtPeersData != null && fresh(dhtPeersData) && dhtPeersData.peers == [] && dhtPeersData.interval == DhtInterval
      ensures attempt.Bootstrapped? && clientRequest.seeding.None? && clientRequest.downloading.Some? ==>
        dhtPeersData != null && fresh(dhtPeersData) && dhtPeersData.interval == DhtInterval
        && dhtPeersData.peers == GetDhtPeers(attempt.lookup, loads)
      ensures attempt.Bootstrapped? && clientRequest.seeding.None? && clientRequest.downloading.None? ==>
        dhtPeersData == old(dhtPeersData)
    {
      match attempt
      case Raised =>
        dhtPeersData := new PeersData([], DhtInterval);
        flag := false;
      case NoBootstrapNodes =>
        flag := false;
      case Bootstrapped(lookup) =>
        if clientRequest.seeding.Some? {
          dhtPeersData := new PeersData([], DhtInterval);
        } else if clientRequest.downloading.Some? {
          var peers := GetDhtPeers(lookup, loads);
          dhtPeersData := new PeersData(peers, DhtInterval);
        }
        flag := true;
    }

    /**
     * Builds the swarm from the recorded peers dictionary, or from an empty
     * one when none was recorded; a seeder first empties the dictionary's
     * peers, the client's own record included, as both are one object.
     */
    method InitializeSwarm(built: seq<Peer>)
      modifies this, dhtPeersData
      ensures dhtPeersData == old(dhtPeersData)
      ensures clientRequest.downloading.None? && clientRequest.seeding.None? ==>
        swarm == old(swarm) && (dhtPeersData != null ==> dhtPeersData.peers == old(dhtPeersData.peers))
      ensures clientRequest.downloading.Some? || clientRequest.seeding.Some? ==>
        swarm != null && fresh(swarm) && swarm.peersList == built
        && (old(dhtPeersData) != null ==> swarm.data == old(dhtPeersData))
        && (old(dhtPeersData) == null ==> fresh(swarm.data) && swarm.data.interval == DhtInterval)
      ensures clientRequest.seeding.Some? ==> swarm != null && swarm.data.peers == []
      ensures clientRequest.seeding.None? && clientRequest.downloading.Some? ==>
        swarm != null && swarm.data.peers == (if old(dhtPeersData) == null then [] else old(dhtPeersData.peers))
      ensures dhtPeersData != null ==> dhtPeersData.interval == old(dhtPeersData.interval)
    {
      var peersData: PeersData;
      if dhtPeersData != null {
        peersData := dhtPeersData;
      } else {
        peersData := new PeersData([], DhtInterval);
      }
      if clientRequest.downloading.Some? {
        swarm := new Swarm(peersData, built);
      }
      if clientRequest.seeding.Some? {
        peersData.peers := [];
        swarm := new Swarm(peersData, built);
      }
    }

    /** One round of monitor_dht_seeders: the lookup's peers are merged into the swarm. */
    method MonitorRound(lookup: DhtValue, loads: string -> Option<PeerInfo>)
      requires swarm != null
      modifies swarm
      ensures swarm.peersList == MergePeers(old(swarm.peersList), GetDhtPeers(lookup, loads))
    {
      var newPeers := GetDhtPeers(lookup, loads);
      swarm.AddNewPeers(newPeers);
    }
  }
}
