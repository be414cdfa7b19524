/**
 * The command-line entry point: the checks the options must pass before a
 * client is made, and the start-up that retries the DHT until it answers.
 */
module BitTorrentMain {
  import opened Wrappers
  import opened BitTorrentClient

  /** The most peer connections the client accepts. */
  const PeerLimit: int := 50

  /** Why the options were refused (the program prints a message and exits). */
  datatype OptionError =
    | NoDirectory            // neither -d nor -s
    | TooManyPeers           // -m above the limit
    | RateNotPositive        // -l zero or below
    | NotAnInteger(text: string)  // int() raised ValueError

  /** The peer-limit check: nothing to check when -m is falsy. */
  function PeersCheck(o: UserArguments): (r: Option<OptionError>)
    ensures r.None? <==> !Given(o.maxPeers) || (PyInt(o.maxPeers.value).Some? && PyInt(o.maxPeers.value).value <= PeerLimit)
    ensures r == Some(TooManyPeers) <==> Given(o.maxPeers) && PyInt(o.maxPeers.value).Some? && PyInt(o.maxPeers.value).value > PeerLimit
  {
    if !Given(o.maxPeers) then None
    else match PyInt(o.maxPeers.value)
      case None => Some(NotAnInteger(o.maxPeers.value))
      case Some(n) => if n > PeerLimit then Some(TooManyPeers) else None
  }

  /** The rate check: nothing to check when -l is falsy. */
  function RateCheck(o: UserArguments): (r: Option<OptionError>)
    ensures r.None? <==> !Given(o.rateLimit) || (PyInt(o.rateLimit.value).Some? && PyInt(o.rateLimit.value).value > 0)
    ensures r == Some(RateNotPositive) <==> Given(o.rateLimit) && PyInt(o.rateLimit.value).Some? && PyInt(o.rateLimit.value).value <= 0
  {
    if !Given(o.rateLimit) then None
    else match PyInt(o.rateLimit.value)
      case None => Some(NotAnInteger(o.rateLimit.value))
      case Some(n) => if n <= 0 then Some(RateNotPositive) else None
  }

  /** The three checks, in order; the first that fails decides. None: the options pass. */
  function CheckOptions(o: UserArguments): (r: Option<OptionError>)
    ensures r == Some(NoDirectory) <==> o.downloadDirPath.None? && o.seedingDirPath.None?
  {
    if o.downloadDirPath.None? && o.seedingDirPath.None? then Some(NoDirectory)
    else if PeersCheck(o).Some? then PeersCheck(o)
    else RateCheck(o)
  }

  /** What the checks let through, stated on its own. */
  predicate ValidOptions(o: UserArguments) {
    && (o.downloadDirPath.Some? || o.seedingDirPath.Some?)
    && (Given(o.maxPeers) ==> PyInt(o.maxPeers.value).Some? && PyInt(o.maxPeers.value).value <= PeerLimit)
    && (Given(o.rateLimit) ==> PyInt(o.rateLimit.value).Some? && PyInt(o.rateLimit.value).value > 0)
  }

  lemma CheckOptionsAccepts(o: UserArguments)
    ensures CheckOptions(o).None? <==> ValidOptions(o)
  {
  }

  /**
   * Options that pass the checks never make the client's constructor raise,
   * and the settings it derives keep within the limits checked.
   */
  lemma CheckedOptionsBuild(o: UserArguments)
    requires CheckOptions(o).None?
    ensures ClientRequestFrom(o).Ok?
    ensures ClientRequestFrom(o).value.maxPeers <= PeerLimit
    ensures ClientRequestFrom(o).value.uploadingRate > 0 && ClientRequestFrom(o).value.downloadingRate > 0
  {
    CheckOptionsAccepts(o);
  }

  /**
   * The directory check asks only whether an option was given: an empty
   * download directory passes it, and the client then neither downloads nor
   * seeds.
   */
  lemma EmptyDirectoryNoMode(o: UserArguments)
    requires o.downloadDirPath == Some("") && !Given(o.seedingDirPath)
    requires !Given(o.maxPeers) && !Given(o.rateLimit)
    ensures CheckOptions(o).None?
    ensures ClientRequestFrom(o) == Ok(DefaultRequest)
  {
  }

  /**
   * The main coroutine's start-up with the network's answers given in turn:
   * contact_dht is called until it answers true, and only then is the swarm
   * built. The model stops at the end of the answers it is given.
   */
  method ContactUntilReady(client: Client, attempts: seq<DhtAttempt>, loads: string -> Option<PeerInfo>)
    returns (tries: nat, ready: bool)
    modifies client
    ensures tries <= |attempts|
    ensures forall i :: 0 <= i < tries - 1 ==> !attempts[i].Bootstrapped?
    ensures ready ==> 0 < tries && attempts[tries - 1].Bootstrapped?
    ensures !ready ==> tries == |attempts| && forall i :: 0 <= i < |attempts| ==> !attempts[i].Bootstrapped?
    ensures client.swarm == old(client.swarm)
    ensures client.dhtPeersData == old(client.dhtPeersData) || fresh(client.dhtPeersData)
    ensures ready && client.clientRequest.seeding.Some? ==>
      client.dhtPeersData != null && client.dhtPeersData.peers == [] && client.dhtPeersData.interval == DhtInterval
    ensures ready && client.clientRequest.seeding.None? && client.clientRequest.downloading.Some? ==>
      client.dhtPeersData != null && client.dhtPeersData.interval == DhtInterval
      && client.dhtPeersData.peers == GetDhtPeers(attempts[tries - 1].lookup, loads)
  {
    var flag := false;
    tries := 0;
    while !flag && tries < |attempts|
      invariant tries <= |attempts|
      invariant forall i :: 0 <= i < tries - 1 ==> !attempts[i].Bootstrapped?
      invariant flag ==> 0 < tries && attempts[tries - 1].Bootstrapped?
      invariant !flag ==> forall i :: 0 <= i < tries ==> !attempts[i].Bootstrapped?
      invariant client.swarm == old(client.swarm)
      invariant client.dhtPeersData == old(client.dhtPeersData) || fresh(client.dhtPeersData)
      invariant flag && client.clientRequest.seeding.Some? ==>
        client.dhtPeersData != null && client.dhtPeersData.peers == [] && client.dhtPeersData.interval == DhtInterval
      invariant flag && client.clientRequest.seeding.None? && client.clientRequest.downloading.Some? ==>
        client.dhtPeersData != null && client.dhtPeersData.interval == DhtInterval
        && client.dhtPeersData.peers == GetDhtPeers(attempts[tries - 1].lookup, loads)
      decreases |attempts| - tries
    {
      flag := client.ContactDht(attempts[tries], loads);
      tries := tries + 1;
    }
    ready := flag;
  }

  /** Why the program did not reach its event loop. */
  datatype StartError =
    | Rejected(reason: OptionError)
    | StillContacting

  /**
   * The program with its options: the checks, the client, the DHT retries and
   * the swarm. `built` is the peer list the swarm makes.
   */
  method Start(o: UserArguments, attempts: seq<DhtAttempt>, loads: string -> Option<PeerInfo>, built: seq<Peer>)
    returns (r: Result<Client, StartError>)
    ensures CheckOptions(o).Some? ==> r == Err(Rejected(CheckOptions(o).value))
    ensures CheckOptions(o).None? && (exists i :: 0 <= i < |attempts| && attempts[i].Bootstrapped?) ==> r.Ok?
    ensures CheckOptions(o).None? && (forall i :: 0 <= i < |attempts| ==> !attempts[i].Bootstrapped?) ==> r == Err(StillContacting)
    ensures r.Ok? ==> fresh(r.value) && Ok(r.value.clientRequest) == ClientRequestFrom(o)
    ensures r.Ok? && (r.value.clientRequest.downloading.Some? || r.value.clientRequest.seeding.Some?) ==>
      r.value.swarm != null && r.value.swarm.peersList == built
    ensures r.Ok? && r.value.clientRequest.seeding.Some? ==> r.value.swarm != null && r.value.swarm.data.peers == []
    ensures r.Ok? && r.value.clientRequest.seeding.None? && r.value.clientRequest.downloading.Some? ==>
      r.value.swarm != null &&
      exists i :: 0 <= i < |attempts| && attempts[i].Bootstrapped? && (forall j :: 0 <= j < i ==> !attempts[j].Bootstrapped?)
        && r.value.swarm.data.peers == GetDhtPeers(attempts[i].lookup, loads)
  {
    var check := CheckOptions(o);
    if check.Some? {
      return Err(Rejected(check.value));
    }
    CheckedOptionsBuild(o);
    var request := BuildClientRequest(o);
    // the checks leave no number the constructor could fail to read
    assert request.Ok?;
    var client := new Client(request.value);
    var tries, ready := ContactUntilReady(client, attempts, loads);
    if !ready {
      return Err(StillContacting);
    }
    ghost var first := tries - 1;
    client.InitializeSwarm(built);
    assert forall j :: 0 <= j < first ==> !attempts[j].Bootstrapped?;
    r := Ok(client);
  }
}
