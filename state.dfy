/**
 * The sanitized view of a Tailscale daemon's status (libts/state.go): the State record,
 * the conversion of the backend-state tag, and the transform that classifies, sorts and
 * resolves an already-fetched status, preferences and network-lock status into a State.
 */
module LibTs {
  import opened Wrappers
  import opened Strings
  import opened Sorting

  type UserID = int
  type StableNodeID = string
  type NodeKey = seq<bv8>

  /** The daemon's lifecycle phase (ipn.State). */
  datatype BackendState =
    NoState | InUseOtherUser | NeedsLogin | NeedsMachineAuth | Stopped | Starting | Running

  /** A user directory entry (tailcfg.UserProfile). */
  datatype UserProfile = UserProfile(id: UserID, loginName: string, displayName: string, profilePicURL: string)

  /** The zero value of a UserProfile, which Go's map lookup yields for a missing key. */
  const ZeroProfile := UserProfile(0, "", "", "")

  /**
   * A peer as the daemon reports it (ipnstate.PeerStatus). `name` is what PeerName returns
   * for the peer and `tagged` what its IsTagged method returns; both are computed outside
   * this model.
   */
  datatype Peer = Peer(
    id: StableNodeID,
    name: string,
    userID: UserID,
    exitNodeOption: bool,
    tagged: bool,
    txBytes: int,
    rxBytes: int)

  function PeerName(p: Peer): string { p.name }

  /** The exit node the daemon currently routes through (ipnstate.ExitNodeStatus). */
  datatype ExitNodeStatus = ExitNodeStatus(id: StableNodeID)

  /**
   * The fetched daemon status (ipnstate.Status). Go keeps the peers in a map whose
   * iteration order is unspecified; the sequence stands for one such order.
   */
  datatype Status = Status(
    backendState: string,
    authURL: string,
    version: string,
    self: Option<Peer>,
    peers: seq<Peer>,
    users: map<UserID, UserProfile>,
    exitNodeStatus: Option<ExitNodeStatus>)

  /** A network-lock public key (key.NLPublic); the zero key is all zero bytes. */
  datatype NLPublic = NLPublic(bytes: seq<bv8>) {
    predicate IsZero() {
      forall i :: 0 <= i < |bytes| ==> bytes[i] == 0
    }
  }

  /** The fetched network-lock status (ipnstate.NetworkLockStatus). */
  datatype LockStatus = LockStatus(
    enabled: bool,
    nodeKey: Option<NodeKey>,
    publicKey: NLPublic,
    nodeKeySigned: bool)

  datatype Error =
    | FetchFailed(reason: string)
    | UnknownIpnState(tag: string)
    | CannotGetStatusFromState(inner: Error)

  /** The opinionated, sanitized subset of the daemon state; P is the opaque preferences blob. */
  datatype State<P> = State(
    prefs: P,
    backendState: BackendState,
    tsVersion: string,
    authURL: string,
    user: Option<UserProfile>,
    self: Option<Peer>,
    lockKey: Option<NLPublic>,
    isLockedOut: bool,
    exitNodes: seq<Peer>,
    myNodes: seq<Peer>,
    taggedNodes: seq<Peer>,
    ownedNodeKeys: seq<string>,
    ownedNodes: map<string, seq<Peer>>,
    currentExitNode: Option<StableNodeID>,
    currentExitNodeName: string,
    rxBytes: int,
    txBytes: int)

  // ---------------------------------------------------------------------------
  // Backend state tags

  /** The wire tag of each backend state. */
  function Tag(s: BackendState): string {
    match s
    case NoState => "NoState"
    case InUseOtherUser => "InUseOtherUser"
    case NeedsLogin => "NeedsLogin"
    case NeedsMachineAuth => "NeedsMachineAuth"
    case Stopped => "Stopped"
    case Starting => "Starting"
    case Running => "Running"
  }

  /** Converts a wire tag back to the closed enumeration; any other string is an error. */
  function NewIPNStateFromString(v: string): (r: Result<BackendState, Error>)
    ensures r.Ok? ==> Tag(r.value) == v
    ensures r.Err? ==> r.error == UnknownIpnState(v) && forall s: BackendState :: Tag(s) != v
  {
    match v
    case "NoState" => Ok(NoState)
    case "InUseOtherUser" => Ok(InUseOtherUser)
    case "NeedsLogin" => Ok(NeedsLogin)
    case "NeedsMachineAuth" => Ok(NeedsMachineAuth)
    case "Stopped" => Ok(Stopped)
    case "Starting" => Ok(Starting)
    case "Running" => Ok(Running)
    case _ => Err(UnknownIpnState(v))
  }

  // ---------------------------------------------------------------------------
  // Classification of peers: the specification

  /** Where a peer goes: the first matching rule wins. */
  datatype Dest = ToExit | ToMine | ToTagged | ToOwned(account: string)

  /**
   * The account name of a user: the display name, else the login name, and the empty
   * string when the user is not in the directory.
   */
  function AccountName(id: UserID, users: map<UserID, UserProfile>): string {
    if id in users then
      (if users[id].displayName == "" then users[id].loginName else users[id].displayName)
    else ""
  }

  /**
   * The bucket of a peer. A peer that is not exit-capable is compared with the local node;
   * the transform is only ever applied when that node is known (see SelfKnown).
   */
  function Destination(p: Peer, status: Status): Dest {
    if p.exitNodeOption then ToExit
    else if status.self.Some? && p.userID == status.self.value.userID then ToMine
    else if p.tagged then ToTagged
    else ToOwned(AccountName(p.userID, status.users))
  }

  /** The peers of ps whose bucket is d, in input order. */
  function Select(ps: seq<Peer>, d: Dest, status: Status): seq<Peer> {
    if ps == [] then []
    else
      var last := ps[|ps| - 1];
      Select(ps[..|ps| - 1], d, status) + (if Destination(last, status) == d then [last] else [])
  }

  /** The account names of the peers of ps that go to an account bucket. */
  function Accounts(ps: seq<Peer>, status: Status): set<string> {
    if ps == [] then {}
    else
      var last := ps[|ps| - 1];
      Accounts(ps[..|ps| - 1], status) + (match Destination(last, status)
                                          case ToOwned(a) => {a}
                                          case _ => {})
  }

  /** The quantities summed over peers: how many, bytes received, bytes sent. */
  datatype Measure = Count | Rx | Tx

  function Weight(p: Peer, m: Measure): int {
    match m
    case Count => 1
    case Rx => p.rxBytes
    case Tx => p.txBytes
  }

  function Total(ps: seq<Peer>, m: Measure): int {
    if ps == [] then 0 else Total(ps[..|ps| - 1], m) + Weight(ps[|ps| - 1], m)
  }

  /** The sum of Total over the buckets of owned that keys names. */
  function TotalOver(keys: seq<string>, owned: map<string, seq<Peer>>, m: Measure): int {
    if keys == [] then 0
    else (if keys[0] in owned then Total(owned[keys[0]], m) else 0) + TotalOver(keys[1..], owned, m)
  }

  /**
   * Line 130 reads the local node's user id for every peer that is not exit-capable, so
   * the transform needs the local node whenever such a peer exists.
   */
  predicate SelfKnown(status: Status) {
    status.self.None? ==> forall p :: p in status.peers ==> p.exitNodeOption
  }

  /** The buckets of the classification before sorting. */
  datatype Buckets = Buckets(
    exitNodes: seq<Peer>,
    myNodes: seq<Peer>,
    taggedNodes: seq<Peer>,
    ownedNodes: map<string, seq<Peer>>)

  /** b holds every peer of ps in the bucket its Destination names, in input order. */
  ghost predicate Classified(b: Buckets, ps: seq<Peer>, status: Status) {
    && b.exitNodes == Select(ps, ToExit, status)
    && b.myNodes == Select(ps, ToMine, status)
    && b.taggedNodes == Select(ps, ToTagged, status)
    && b.ownedNodes.Keys == Accounts(ps, status)
    && forall k :: k in b.ownedNodes ==> b.ownedNodes[k] == Select(ps, ToOwned(k), status)
  }

  lemma SelectSnoc(ps: seq<Peer>, p: Peer, d: Dest, status: Status)
    ensures Select(ps + [p], d, status) == Select(ps, d, status) + (if Destination(p, status) == d then [p] else [])
    ensures Accounts(ps + [p], status) == Accounts(ps, status) + (match Destination(p, status)
                                                                  case ToOwned(a) => {a}
                                                                  case _ => {})
    ensures forall m :: Total(ps + [p], m) == Total(ps, m) + Weight(p, m)
  {
    assert (ps + [p])[..|ps|] == ps;
  }

  /** An account that no peer produced has an empty bucket. */
  lemma {:induction false} SelectOutsideAccounts(ps: seq<Peer>, k: string, status: Status)
    requires k !in Accounts(ps, status)
    ensures Select(ps, ToOwned(k), status) == []
  {
    if ps != [] {
      SelectOutsideAccounts(ps[..|ps| - 1], k, status);
    }
  }

  // ---------------------------------------------------------------------------
  // The transform

  /**
   * The body of the pass for one peer (lines 128-147): appends it to the bucket of the
   * first matching rule, creating an account bucket on first use.
   */
  method AddPeer(b: Buckets, peer: Peer, status: Status, ghost ps: seq<Peer>) returns (b': Buckets)
    requires !peer.exitNodeOption ==> status.self.Some?
    requires Classified(b, ps, status)
    ensures Classified(b', ps + [peer], status)
  {
    SelectSnoc(ps, peer, ToExit, status);
    SelectSnoc(ps, peer, ToMine, status);
    SelectSnoc(ps, peer, ToTagged, status);
    if peer.exitNodeOption {
      b' := b.(exitNodes := b.exitNodes + [peer]);
      OwnedUnchanged(b', ps, peer, status);
    } else if peer.userID == status.self.value.userID {
      b' := b.(myNodes := b.myNodes + [peer]);
      OwnedUnchanged(b', ps, peer, status);
    } else if peer.tagged {
      b' := b.(taggedNodes := b.taggedNodes + [peer]);
      OwnedUnchanged(b', ps, peer, status);
    } else {
      var accountName := "";
      if peer.userID in status.users {
        var user := status.users[peer.userID];
        accountName := user.displayName;
        if accountName == "" {
          accountName := user.loginName;
        }
      }
      assert Destination(peer, status) == ToOwned(accountName);

      var owned := b.ownedNodes;
      if accountName !in owned {
        SelectOutsideAccounts(ps, accountName, status);
        owned := owned[accountName := []];
      }
      owned := owned[accountName := owned[accountName] + [peer]];
      b' := b.(ownedNodes := owned);
      OwnedExtended(b, b', ps, peer, accountName, status);
    }
  }

  /** Appending a peer that goes to no account bucket leaves the account buckets right. */
  lemma OwnedUnchanged(b: Buckets, ps: seq<Peer>, peer: Peer, status: Status)
    requires !Destination(peer, status).ToOwned?
    requires b.ownedNodes.Keys == Accounts(ps, status)
    requires forall k :: k in b.ownedNodes ==> b.ownedNodes[k] == Select(ps, ToOwned(k), status)
    ensures b.ownedNodes.Keys == Accounts(ps + [peer], status)
    ensures forall k :: k in b.ownedNodes ==> b.ownedNodes[k] == Select(ps + [peer], ToOwned(k), status)
  {
    forall k | k in b.ownedNodes
      ensures b.ownedNodes[k] == Select(ps + [peer], ToOwned(k), status)
    {
      SelectSnoc(ps, peer, ToOwned(k), status);
    }
    SelectSnoc(ps, peer, ToExit, status);
  }

  /** Appending a peer to the bucket of its account keeps the account buckets right. */
  lemma OwnedExtended(b: Buckets, b': Buckets, ps: seq<Peer>, peer: Peer, account: string, status: Status)
    requires Destination(peer, status) == ToOwned(account)
    requires Classified(b, ps, status)
    requires account !in b.ownedNodes ==> Select(ps, ToOwned(account), status) == []
    requires b'.ownedNodes == b.ownedNodes[account := (if account in b.ownedNodes then b.ownedNodes[account] else []) + [peer]]
    ensures b'.ownedNodes.Keys == Accounts(ps + [peer], status)
    ensures forall k :: k in b'.ownedNodes ==> b'.ownedNodes[k] == Select(ps + [peer], ToOwned(k), status)
  {
    forall k | k in b'.ownedNodes
      ensures b'.ownedNodes[k] == Select(ps + [peer], ToOwned(k), status)
    {
      SelectSnoc(ps, peer, ToOwned(k), status);
    }
    SelectSnoc(ps, peer, ToExit, status);
  }

  /**
   * The single pass over the peers (lines 124-148): sums the traffic counters and appends
   * each peer to its bucket.
   */
  method ClassifyPeers(status: Status) returns (b: Buckets, rx: int, tx: int)
    requires SelfKnown(status)
    ensures rx == Total(status.peers, Rx) && tx == Total(status.peers, Tx)
    ensures Classified(b, status.peers, status)
  {
    var peers := status.peers;
    b := Buckets([], [], [], map[]);
    rx, tx := 0, 0;
    var i := 0;
    while i < |peers|
      invariant 0 <= i <= |peers|
      invariant rx == Total(peers[..i], Rx) && tx == Total(peers[..i], Tx)
      invariant Classified(b, peers[..i], status)
    {
      var peer := peers[i];
      assert peers[..i + 1] == peers[..i] + [peer];
      SelectSnoc(peers[..i], peer, ToExit, status);
      tx := tx + peer.txBytes;
      rx := rx + peer.rxBytes;
      b := AddPeer(b, peer, status, peers[..i]);
      i := i + 1;
    }
    assert peers[..i] == peers;
  }

  /** sortNodes (lines 62-66): sorts the peers in place by PeerName. */
  method SortNodes(nodes: array<Peer>)
    modifies nodes
    ensures SortedBy(nodes[..], PeerName)
    ensures multiset(nodes[..]) == old(multiset(nodes[..]))
  {
    SortBy(nodes, PeerName);
  }

  /** A bucket sorted by sortNodes; the slice of Go is an array here. */
  method SortedNodes(s: seq<Peer>) returns (r: seq<Peer>)
    ensures SortedBy(r, PeerName) && multiset(r) == multiset(s)
  {
    var nodes := new Peer[|s|](i requires 0 <= i < |s| => s[i]);
    assert nodes[..] == s;
    SortNodes(nodes);
    r := nodes[..];
  }

  /** slices.Sort over the account names (line 157). */
  method SortKeys(s: seq<string>) returns (r: seq<string>)
    ensures SortedBy(r, Itself) && multiset(r) == multiset(s)
  {
    var keys := new string[|s|](i requires 0 <= i < |s| => s[i]);
    assert keys[..] == s;
    SortBy(keys, Itself);
    r := keys[..];
  }

  /**
   * Lines 153-157: visits the account buckets in arbitrary order, sorts each one and
   * collects its key, then sorts the keys.
   */
  method SortOwnedNodes(owned: map<string, seq<Peer>>) returns (sorted: map<string, seq<Peer>>, keys: seq<string>)
    ensures sorted.Keys == owned.Keys
    ensures forall k :: k in sorted ==> SortedBy(sorted[k], PeerName) && multiset(sorted[k]) == multiset(owned[k])
    ensures StrictlySorted(keys)
    ensures forall k :: k in keys <==> k in owned
  {
    sorted := owned;
    var collected: seq<string> := [];
    var remaining := owned.Keys;
    while remaining != {}
      invariant remaining <= owned.Keys
      invariant sorted.Keys == owned.Keys
      invariant forall k :: k in remaining ==> sorted[k] == owned[k]
      invariant forall k :: k in owned && k !in remaining ==>
                  SortedBy(sorted[k], PeerName) && multiset(sorted[k]) == multiset(owned[k])
      invariant Distinct(collected)
      invariant forall k :: k in collected <==> k in owned && k !in remaining
      decreases remaining
    {
      var key :| key in remaining;
      var value := SortedNodes(sorted[key]);
      sorted := sorted[key := value];
      collected := collected + [key];
      remaining := remaining - {key};
    }
    keys := SortKeys(collected);
    DistinctPermutation(collected, keys);
    SortedDistinctIsStrict(keys);
    forall k
      ensures k in keys <==> k in collected
    {
      assert k in keys <==> k in multiset(keys);
      assert k in collected <==> k in multiset(collected);
    }
  }

  /**
   * The version with its build suffix removed (lines 159-162): the part before the first
   * '-', or the whole string when there is none.
   */
  function ShortVersion(v: string): (r: string)
    ensures r <= v && '-' !in r
    ensures r == v || v[|r|] == '-'
  {
    var i := IndexByte(v, '-');
    if i != -1 then v[..i] else v
  }

  /**
   * The profile of the local user (lines 164-167): none without a local node, and the zero
   * profile when its user is missing from the directory.
   */
  function SelfProfile(self: Option<Peer>, users: map<UserID, UserProfile>): (r: Option<UserProfile>)
    ensures r.Some? <==> self.Some?
    ensures self.Some? && self.value.userID in users ==> r == Some(users[self.value.userID])
    ensures self.Some? && self.value.userID !in users ==> r == Some(ZeroProfile)
  {
    match self
    case None => None
    case Some(p) => Some(if p.userID in users then users[p.userID] else ZeroProfile)
  }

  /** The network-lock key and lock-out flag (lines 169-175). */
  function EvaluateLock(lock: LockStatus, backend: BackendState): (r: (Option<NLPublic>, bool))
    ensures r.0.Some? <==> lock.enabled && lock.nodeKey.Some? && !lock.publicKey.IsZero()
    ensures r.0.Some? ==> r.0.value == lock.publicKey
    ensures r.1 <==> r.0.Some? && !lock.nodeKeySigned && backend == Running
  {
    if lock.enabled && lock.nodeKey.Some? && !lock.publicKey.IsZero() then
      (Some(lock.publicKey), !lock.nodeKeySigned && backend == Running)
    else
      (None, false)
  }

  /** k is the first position of nodes that carries id. */
  ghost predicate IsFirstMatch(nodes: seq<Peer>, id: StableNodeID, k: int) {
    0 <= k < |nodes| && nodes[k].id == id && forall j :: 0 <= j < k ==> nodes[j].id != id
  }

  /**
   * The outcome of exit-node resolution: no selection gives no id and no name; a selection
   * gives its id, and the name of the first node that carries it or "" when none does.
   */
  ghost predicate ResolvesExitNode(nodes: seq<Peer>, selected: Option<ExitNodeStatus>,
                                   current: Option<StableNodeID>, name: string) {
    match selected
    case None => current == None && name == ""
    case Some(es) =>
      && current == Some(es.id)
      && ((exists k :: IsFirstMatch(nodes, es.id, k) && name == nodes[k].name)
          || ((forall j :: 0 <= j < |nodes| ==> nodes[j].id != es.id) && name == ""))
  }

  /** Lines 177-186: a linear search of the sorted exit nodes for the selected one. */
  method ResolveExitNode(exitNodes: seq<Peer>, selected: Option<ExitNodeStatus>)
    returns (current: Option<StableNodeID>, name: string)
    ensures ResolvesExitNode(exitNodes, selected, current, name)
  {
    current, name := None, "";
    if selected.Some? {
      var id := selected.value.id;
      current := Some(id);
      var i := 0;
      while i < |exitNodes|
        invariant 0 <= i <= |exitNodes|
        invariant name == ""
        invariant forall j :: 0 <= j < i ==> exitNodes[j].id != id
      {
        if exitNodes[i].id == id {
          name := PeerName(exitNodes[i]);
          assert IsFirstMatch(exitNodes, id, i);
          break;
        }
        i := i + 1;
      }
    }
  }

  /** st is a sorted permutation of the bucket s. */
  ghost predicate SortedPermutation(st: seq<Peer>, s: seq<Peer>) {
    SortedBy(st, PeerName) && multiset(st) == multiset(s)
  }

  /** What the transform promises about the State it builds from a status, prefs and lock status. */
  ghost predicate Describes<P>(st: State<P>, status: Status, prefs: P, lock: LockStatus) {
    && NewIPNStateFromString(status.backendState) == Ok(st.backendState)
    && st.prefs == prefs
    && st.authURL == status.authURL
    && st.self == status.self
    && st.tsVersion == ShortVersion(status.version)
    && st.user == SelfProfile(status.self, status.users)
    && (st.lockKey, st.isLockedOut) == EvaluateLock(lock, st.backendState)
    && st.rxBytes == Total(status.peers, Rx)
    && st.txBytes == Total(status.peers, Tx)
    && SortedPermutation(st.exitNodes, Select(status.peers, ToExit, status))
    && SortedPermutation(st.myNodes, Select(status.peers, ToMine, status))
    && SortedPermutation(st.taggedNodes, Select(status.peers, ToTagged, status))
    && st.ownedNodes.Keys == Accounts(status.peers, status)
    && (forall k :: k in st.ownedNodes ==>
          SortedPermutation(st.ownedNodes[k], Select(status.peers, ToOwned(k), status)))
    && StrictlySorted(st.ownedNodeKeys)
    && (forall k :: k in st.ownedNodeKeys <==> k in st.ownedNodes)
    && ResolvesExitNode(st.exitNodes, status.exitNodeStatus, st.currentExitNode, st.currentExitNodeName)
  }

  /**
   * GetState from line 110 on: turns the fetched status, preferences and lock status into a
   * State, or fails on an unknown backend-state tag without building any State.
   */
  method BuildState<P>(status: Status, prefs: P, lock: LockStatus) returns (r: Result<State<P>, Error>)
    requires NewIPNStateFromString(status.backendState).Ok? ==> SelfKnown(status)
    ensures r.Ok? <==> NewIPNStateFromString(status.backendState).Ok?
    ensures r.Err? ==> r.error == CannotGetStatusFromState(UnknownIpnState(status.backendState))
    ensures r.Ok? ==> Describes(r.value, status, prefs, lock)
  {
    var parsed := NewIPNStateFromString(status.backendState);
    if parsed.Err? {
      return Err(CannotGetStatusFromState(parsed.error));
    }
    var backendState := parsed.value;

    var buckets, rx, tx := ClassifyPeers(status);

    var exitNodes := SortedNodes(buckets.exitNodes);
    var myNodes := SortedNodes(buckets.myNodes);
    var taggedNodes := SortedNodes(buckets.taggedNodes);
    var ownedNodes, ownedNodeKeys := SortOwnedNodes(buckets.ownedNodes);

    var tsVersion := status.version;
    var versionSplitIndex := IndexByte(tsVersion, '-');
    if versionSplitIndex != -1 {
      tsVersion := tsVersion[..versionSplitIndex];
    }

    var user := SelfProfile(status.self, status.users);
    var (lockKey, isLockedOut) := EvaluateLock(lock, backendState);
    var currentExitNode, currentExitNodeName := ResolveExitNode(exitNodes, status.exitNodeStatus);

    var st := State(prefs, backendState, tsVersion, status.authURL, user, status.self,
                    lockKey, isLockedOut, exitNodes, myNodes, taggedNodes, ownedNodeKeys,
                    ownedNodes, currentExitNode, currentExitNodeName, rx, tx);
    assert st.tsVersion == ShortVersion(status.version);
    assert forall k :: k in st.ownedNodes ==>
             SortedPermutation(st.ownedNodes[k], Select(status.peers, ToOwned(k), status));
    assert ResolvesExitNode(st.exitNodes, status.exitNodeStatus, st.currentExitNode, st.currentExitNodeName);
    return Ok(st);
  }

  /**
   * GetState (lines 94-189) with the three fetches done by the caller: the first failed
   * fetch is returned as it is, and otherwise the State is built.
   */
  method GetState<P>(status: Result<Status, Error>, prefs: Result<P, Error>, lock: Result<LockStatus, Error>)
    returns (r: Result<State<P>, Error>)
    requires status.Ok? && prefs.Ok? && lock.Ok? && NewIPNStateFromString(status.value.backendState).Ok?
             ==> SelfKnown(status.value)
    ensures status.Err? ==> r == Err(status.error)
    ensures status.Ok? && prefs.Err? ==> r == Err(prefs.error)
    ensures status.Ok? && prefs.Ok? && lock.Err? ==> r == Err(lock.error)
    ensures status.Ok? && prefs.Ok? && lock.Ok? ==>
              (r.Ok? <==> NewIPNStateFromString(status.value.backendState).Ok?)
              && (r.Err? ==> r.error == CannotGetStatusFromState(UnknownIpnState(status.value.backendState)))
              && (r.Ok? ==> Describes(r.value, status.value, prefs.value, lock.value))
  {
    if status.Err? {
      return Err(status.error);
    }
    if prefs.Err? {
      return Err(prefs.error);
    }
    if lock.Err? {
      return Err(lock.error);
    }
    r := BuildState(status.value, prefs.value, lock.value);
  }
}
