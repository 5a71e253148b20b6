/**
 * Properties of the State that libts/state.go builds, proved about the Describes relation
 * that BuildState establishes: the classification is a strict partition, traffic totals are
 * conserved across buckets, the account keys are determined by the input, and the derived
 * version, lock and exit-node fields keep their promises.
 */
module StateProperties {
  import opened Wrappers
  import opened Strings
  import opened Sorting
  import opened LibTs

  // ---------------------------------------------------------------------------
  // Backend state tags

  /** Every backend state survives the trip through its wire tag. */
  lemma TagRoundTrip(s: BackendState)
    ensures NewIPNStateFromString(Tag(s)) == Ok(s)
  {
  }

  /** A tag is accepted exactly when it is the tag of some backend state. */
  lemma AcceptedTags(v: string)
    ensures NewIPNStateFromString(v).Ok? <==> exists s: BackendState :: Tag(s) == v
  {
  }

  lemma UnknownTagExample()
    ensures NewIPNStateFromString("Weird") == Err(UnknownIpnState("Weird"))
    ensures NewIPNStateFromString("running") == Err(UnknownIpnState("running"))
  {
  }

  // ---------------------------------------------------------------------------
  // Partition

  /** Select keeps every copy of a peer whose bucket is d and no copy of any other peer. */
  lemma {:induction false} SelectCount(ps: seq<Peer>, d: Dest, status: Status, p: Peer)
    ensures multiset(Select(ps, d, status))[p] == if Destination(p, status) == d then multiset(ps)[p] else 0
  {
    if ps != [] {
      var init, last := ps[..|ps| - 1], ps[|ps| - 1];
      assert ps == init + [last];
      SelectCount(init, d, status, p);
    }
  }

  /** Every account key was produced by at least one peer. */
  lemma {:induction false} AccountHasPeer(ps: seq<Peer>, k: string, status: Status)
    requires k in Accounts(ps, status)
    ensures Select(ps, ToOwned(k), status) != []
  {
    var init, last := ps[..|ps| - 1], ps[|ps| - 1];
    if Destination(last, status) != ToOwned(k) {
      AccountHasPeer(init, k, status);
    }
  }

  /**
   * Every peer lands, with all its copies, in the one bucket that the first matching rule
   * names (exit-capable, then same user as the local node, then tagged, then the account
   * bucket), and in no other bucket.
   */
  lemma EachPeerInExactlyOneBucket<P>(st: State<P>, status: Status, prefs: P, lock: LockStatus, p: Peer)
    requires Describes(st, status, prefs, lock)
    ensures multiset(st.exitNodes)[p] == if Destination(p, status) == ToExit then multiset(status.peers)[p] else 0
    ensures multiset(st.myNodes)[p] == if Destination(p, status) == ToMine then multiset(status.peers)[p] else 0
    ensures multiset(st.taggedNodes)[p] == if Destination(p, status) == ToTagged then multiset(status.peers)[p] else 0
    ensures forall k :: k in st.ownedNodes ==>
              multiset(st.ownedNodes[k])[p] == if Destination(p, status) == ToOwned(k) then multiset(status.peers)[p] else 0
    ensures p in status.peers && Destination(p, status).ToOwned? ==> Destination(p, status).account in st.ownedNodes
  {
    SelectCount(status.peers, ToExit, status, p);
    SelectCount(status.peers, ToMine, status, p);
    SelectCount(status.peers, ToTagged, status, p);
    forall k | k in st.ownedNodes
      ensures multiset(st.ownedNodes[k])[p] == if Destination(p, status) == ToOwned(k) then multiset(status.peers)[p] else 0
    {
      SelectCount(status.peers, ToOwned(k), status, p);
    }
    if p in status.peers && Destination(p, status).ToOwned? {
      var k := Destination(p, status).account;
      SelectCount(status.peers, ToOwned(k), status, p);
      if k !in st.ownedNodes {
        SelectOutsideAccounts(status.peers, k, status);
      }
    }
  }

  /** The account buckets are exactly those that received at least one peer. */
  lemma OwnedBucketsNonEmpty<P>(st: State<P>, status: Status, prefs: P, lock: LockStatus)
    requires Describes(st, status, prefs, lock)
    ensures forall k :: k in st.ownedNodes ==> |st.ownedNodes[k]| > 0
  {
    forall k | k in st.ownedNodes
      ensures |st.ownedNodes[k]| > 0
    {
      AccountHasPeer(status.peers, k, status);
      var s := Select(status.peers, ToOwned(k), status);
      assert s[0] in multiset(s);
    }
  }

  // ---------------------------------------------------------------------------
  // Conservation of counts and traffic

  lemma {:induction false} TotalAppend(a: seq<Peer>, b: seq<Peer>, m: Measure)
    ensures Total(a + b, m) == Total(a, m) + Total(b, m)
  {
    if b == [] {
      assert a + b == a;
    } else {
      var init, last := b[..|b| - 1], b[|b| - 1];
      assert (a + b)[..|a + b| - 1] == a + init;
      assert (a + b)[|a + b| - 1] == last;
      TotalAppend(a, init, m);
    }
  }

  lemma TotalSingleton(p: Peer, m: Measure)
    ensures Total([p], m) == Weight(p, m)
  {
    assert [p][..0] == [];
  }

  /** Appending a peer adds its weight to the total of its own bucket only. */
  lemma TotalSelectSnoc(ps: seq<Peer>, p: Peer, d: Dest, status: Status, m: Measure)
    ensures Total(Select(ps + [p], d, status), m)
            == Total(Select(ps, d, status), m) + (if Destination(p, status) == d then Weight(p, m) else 0)
  {
    SelectSnoc(ps, p, d, status);
    if Destination(p, status) == d {
      TotalAppend(Select(ps, d, status), [p], m);
      TotalSingleton(p, m);
    } else {
      assert Select(ps + [p], d, status) == Select(ps, d, status);
    }
  }

  /** Taking the peer at position j out of b takes its weight out of the total. */
  lemma TotalRemove(b: seq<Peer>, j: int, m: Measure)
    requires 0 <= j < |b|
    ensures Total(b, m) == Total(b[..j] + b[j + 1..], m) + Weight(b[j], m)
    ensures multiset(b) == multiset(b[..j] + b[j + 1..]) + multiset{b[j]}
  {
    assert b == b[..j] + [b[j]] + b[j + 1..];
    TotalAppend(b[..j] + [b[j]], b[j + 1..], m);
    TotalAppend(b[..j], [b[j]], m);
    TotalAppend(b[..j], b[j + 1..], m);
    TotalSingleton(b[j], m);
  }

  /** A total does not depend on the order of the peers. */
  lemma {:induction false} TotalPermutation(a: seq<Peer>, b: seq<Peer>, m: Measure)
    requires multiset(a) == multiset(b)
    ensures Total(a, m) == Total(b, m)
  {
    if a != [] {
      var init, last := a[..|a| - 1], a[|a| - 1];
      assert a == init + [last];
      assert multiset(a) == multiset(init) + multiset{last};
      assert last in multiset(b);
      var j :| 0 <= j < |b| && b[j] == last;
      var rest := b[..j] + b[j + 1..];
      TotalRemove(b, j, m);
      assert multiset(init) == multiset(rest) by {
        assert forall x :: multiset(init)[x] == multiset(rest)[x] by {
          forall x
            ensures multiset(init)[x] == multiset(rest)[x]
          {
            assert multiset(a)[x] == multiset(init)[x] + multiset{last}[x];
            assert multiset(b)[x] == multiset(rest)[x] + multiset{last}[x];
          }
        }
      }
      TotalPermutation(init, rest, m);
    }
  }

  lemma {:induction false} TotalCount(ps: seq<Peer>)
    ensures Total(ps, Count) == |ps|
  {
    if ps != [] {
      TotalCount(ps[..|ps| - 1]);
    }
  }

  /** The sum over keys of the totals of the account buckets of ps, before sorting. */
  ghost function SelectedOver(keys: seq<string>, ps: seq<Peer>, status: Status, m: Measure): int {
    if keys == [] then 0
    else Total(Select(ps, ToOwned(keys[0]), status), m) + SelectedOver(keys[1..], ps, status, m)
  }

  lemma {:induction false} SelectedOverSnoc(keys: seq<string>, ps: seq<Peer>, p: Peer, status: Status, m: Measure)
    requires Distinct(keys)
    ensures SelectedOver(keys, ps + [p], status, m)
            == SelectedOver(keys, ps, status, m)
               + (if Destination(p, status).ToOwned? && Destination(p, status).account in keys then Weight(p, m) else 0)
  {
    if keys != [] {
      assert Distinct(keys[1..]);
      SelectedOverSnoc(keys[1..], ps, p, status, m);
      TotalSelectSnoc(ps, p, ToOwned(keys[0]), status, m);
      if Destination(p, status) == ToOwned(keys[0]) {
        assert keys[0] !in keys[1..];
      }
      assert Destination(p, status).ToOwned? && Destination(p, status).account in keys
             <==> Destination(p, status) == ToOwned(keys[0])
                  || (Destination(p, status).ToOwned? && Destination(p, status).account in keys[1..]);
    }
  }

  /** The peers' total splits over the four kinds of bucket, whatever their category. */
  lemma {:induction false} TotalSplit(ps: seq<Peer>, keys: seq<string>, status: Status, m: Measure)
    requires Distinct(keys)
    requires forall a :: a in Accounts(ps, status) ==> a in keys
    ensures Total(ps, m) == Total(Select(ps, ToExit, status), m) + Total(Select(ps, ToMine, status), m)
                           + Total(Select(ps, ToTagged, status), m) + SelectedOver(keys, ps, status, m)
  {
    if ps != [] {
      var init, last := ps[..|ps| - 1], ps[|ps| - 1];
      assert ps == init + [last];
      SelectSnoc(init, last, ToExit, status);
      TotalSplit(init, keys, status, m);
      SelectedOverSnoc(keys, init, last, status, m);
      TotalSelectSnoc(init, last, ToExit, status, m);
      TotalSelectSnoc(init, last, ToMine, status, m);
      TotalSelectSnoc(init, last, ToTagged, status, m);
      assert Total(ps, m) == Total(init, m) + Weight(last, m);
      if Destination(last, status).ToOwned? {
        assert Destination(last, status).account in Accounts(ps, status);
      }
    } else {
      SelectedOverNoPeers(keys, status, m);
    }
  }

  lemma {:induction false} SelectedOverNoPeers(keys: seq<string>, status: Status, m: Measure)
    ensures SelectedOver(keys, [], status, m) == 0
  {
    if keys != [] {
      SelectedOverNoPeers(keys[1..], status, m);
    }
  }

  lemma {:induction false} TotalOverSelected(keys: seq<string>, owned: map<string, seq<Peer>>, ps: seq<Peer>,
                                             status: Status, m: Measure)
    requires forall k :: k in keys ==> k in owned && multiset(owned[k]) == multiset(Select(ps, ToOwned(k), status))
    ensures TotalOver(keys, owned, m) == SelectedOver(keys, ps, status, m)
  {
    if keys != [] {
      TotalPermutation(owned[keys[0]], Select(ps, ToOwned(keys[0]), status), m);
      TotalOverSelected(keys[1..], owned, ps, status, m);
    }
  }

  /**
   * Summed over the buckets of the State (the account buckets in key order), any measure
   * of the peers is what it is over the whole input.
   */
  lemma Conservation<P>(st: State<P>, status: Status, prefs: P, lock: LockStatus, m: Measure)
    requires Describes(st, status, prefs, lock)
    ensures Total(status.peers, m) == Total(st.exitNodes, m) + Total(st.myNodes, m) + Total(st.taggedNodes, m)
                                      + TotalOver(st.ownedNodeKeys, st.ownedNodes, m)
  {
    var keys := st.ownedNodeKeys;
    assert Distinct(keys);
    TotalSplit(status.peers, keys, status, m);
    TotalPermutation(st.exitNodes, Select(status.peers, ToExit, status), m);
    TotalPermutation(st.myNodes, Select(status.peers, ToMine, status), m);
    TotalPermutation(st.taggedNodes, Select(status.peers, ToTagged, status), m);
    TotalOverSelected(keys, st.ownedNodes, status.peers, status, m);
  }

  /**
   * The bucket sizes add up to the number of peers. The account buckets enter through
   * TotalOver with the Count measure, which is the sum of their lengths (TotalCount).
   */
  lemma BucketSizesSumToPeerCount<P>(st: State<P>, status: Status, prefs: P, lock: LockStatus)
    requires Describes(st, status, prefs, lock)
    ensures |status.peers| == |st.exitNodes| + |st.myNodes| + |st.taggedNodes|
                              + TotalOver(st.ownedNodeKeys, st.ownedNodes, Count)
  {
    Conservation(st, status, prefs, lock, Count);
    TotalCount(status.peers);
    TotalCount(st.exitNodes);
    TotalCount(st.myNodes);
    TotalCount(st.taggedNodes);
  }

  /** The traffic totals are the sums over all buckets. */
  lemma TrafficOverBuckets<P>(st: State<P>, status: Status, prefs: P, lock: LockStatus)
    requires Describes(st, status, prefs, lock)
    ensures st.rxBytes == Total(st.exitNodes, Rx) + Total(st.myNodes, Rx) + Total(st.taggedNodes, Rx)
                          + TotalOver(st.ownedNodeKeys, st.ownedNodes, Rx)
    ensures st.txBytes == Total(st.exitNodes, Tx) + Total(st.myNodes, Tx) + Total(st.taggedNodes, Tx)
                          + TotalOver(st.ownedNodeKeys, st.ownedNodes, Tx)
  {
    Conservation(st, status, prefs, lock, Rx);
    Conservation(st, status, prefs, lock, Tx);
  }

  // ---------------------------------------------------------------------------
  // Determinism of the account keys

  /**
   * In two sorted orders of the same exit nodes, the first node carrying id in b sorts no
   * later than the first one carrying it in a.
   */
  lemma FirstMatchSortsFirst(a: seq<Peer>, b: seq<Peer>, id: StableNodeID, ka: int, kb: int)
    requires multiset(a) == multiset(b) && SortedBy(b, PeerName)
    requires IsFirstMatch(a, id, ka) && IsFirstMatch(b, id, kb)
    ensures Compare(b[kb].name, a[ka].name) <= 0
  {
    assert a[ka] in multiset(b);
    var j :| 0 <= j < |b| && b[j] == a[ka];
    if j != kb {
      assert kb < j;
      assert Compare(PeerName(b[kb]), PeerName(b[j])) <= 0;
    }
  }

  /** The exit-node name does not depend on how ties were ordered by the sort. */
  lemma ExitNameDetermined(a: seq<Peer>, b: seq<Peer>, selected: Option<ExitNodeStatus>,
                           ca: Option<StableNodeID>, na: string, cb: Option<StableNodeID>, nb: string)
    requires multiset(a) == multiset(b) && SortedBy(a, PeerName) && SortedBy(b, PeerName)
    requires ResolvesExitNode(a, selected, ca, na) && ResolvesExitNode(b, selected, cb, nb)
    ensures na == nb
  {
    if selected.Some? {
      var id := selected.value.id;
      if j :| 0 <= j < |a| && a[j].id == id {
        assert a[j] in multiset(b);
        var ka :| IsFirstMatch(a, id, ka) && na == a[ka].name;
        var kb :| IsFirstMatch(b, id, kb) && nb == b[kb].name;
        FirstMatchSortsFirst(a, b, id, ka, kb);
        FirstMatchSortsFirst(b, a, id, kb, ka);
        CompareAntisymmetric(a[ka].name, b[kb].name);
      } else {
        forall j | 0 <= j < |b| ensures b[j].id != id {
          assert b[j] in multiset(a);
        }
      }
    }
  }

  /**
   * Although Go visits the account buckets in unspecified order, the account keys, the key
   * list, the contents of every bucket and every other field are fixed by the input; only
   * the order of ties inside a bucket is not.
   */
  lemma DeterminedByInput<P>(st1: State<P>, st2: State<P>, status: Status, prefs: P, lock: LockStatus)
    requires Describes(st1, status, prefs, lock) && Describes(st2, status, prefs, lock)
    ensures st1.ownedNodeKeys == st2.ownedNodeKeys
    ensures st1.ownedNodes.Keys == st2.ownedNodes.Keys
    ensures forall k :: k in st1.ownedNodes ==> multiset(st1.ownedNodes[k]) == multiset(st2.ownedNodes[k])
    ensures multiset(st1.exitNodes) == multiset(st2.exitNodes)
    ensures multiset(st1.myNodes) == multiset(st2.myNodes)
    ensures multiset(st1.taggedNodes) == multiset(st2.taggedNodes)
    ensures st1.prefs == st2.prefs && st1.authURL == st2.authURL && st1.self == st2.self
    ensures st1.backendState == st2.backendState && st1.tsVersion == st2.tsVersion
    ensures st1.user == st2.user && st1.lockKey == st2.lockKey && st1.isLockedOut == st2.isLockedOut
    ensures st1.currentExitNode == st2.currentExitNode
    ensures st1.currentExitNodeName == st2.currentExitNodeName
    ensures st1.rxBytes == st2.rxBytes && st1.txBytes == st2.txBytes
  {
    StrictlySortedUnique(st1.ownedNodeKeys, st2.ownedNodeKeys);
    ExitNameDetermined(st1.exitNodes, st2.exitNodes, status.exitNodeStatus,
                       st1.currentExitNode, st1.currentExitNodeName,
                       st2.currentExitNode, st2.currentExitNodeName);
  }

  // ---------------------------------------------------------------------------
  // Version

  lemma ShortVersionIdempotent(v: string)
    ensures ShortVersion(ShortVersion(v)) == ShortVersion(v)
  {
  }

  /** ShortVersion is the only prefix that is free of '-' and stops at a '-' or at the end. */
  lemma ShortVersionUnique(v: string, r: string)
    requires r <= v && '-' !in r
    requires r == v || v[|r|] == '-'
    ensures r == ShortVersion(v)
  {
  }

  lemma ShortVersionExamples()
    ensures ShortVersion("1.70.0-abc123") == "1.70.0"
    ensures ShortVersion("1.70.0") == "1.70.0"
    ensures ShortVersion("-dev") == ""
  {
    ShortVersionUnique("1.70.0-abc123", "1.70.0");
    ShortVersionUnique("1.70.0", "1.70.0");
    ShortVersionUnique("-dev", "");
  }

  // ---------------------------------------------------------------------------
  // User profile

  /** A local node gives a profile, the zero one when its user is not in the directory. */
  lemma UserOfSelf<P>(st: State<P>, status: Status, prefs: P, lock: LockStatus)
    requires Describes(st, status, prefs, lock)
    ensures st.user.Some? <==> status.self.Some?
    ensures status.self.Some? && status.self.value.userID in status.users
            ==> st.user == Some(status.users[status.self.value.userID])
    ensures status.self.Some? && status.self.value.userID !in status.users ==> st.user == Some(ZeroProfile)
  {
  }

  // ---------------------------------------------------------------------------
  // Network lock

  /** With the lock disabled there is no lock key and no lock-out, whatever else holds. */
  lemma LockDisabledMeansUnlocked<P>(st: State<P>, status: Status, prefs: P, lock: LockStatus)
    requires Describes(st, status, prefs, lock)
    requires !lock.enabled
    ensures st.lockKey == None && !st.isLockedOut
  {
  }

  /** A lock-out needs the lock enabled, a node key, a non-zero key, no signature and Running. */
  lemma LockedOutConditions<P>(st: State<P>, status: Status, prefs: P, lock: LockStatus)
    requires Describes(st, status, prefs, lock)
    ensures st.isLockedOut <==> lock.enabled && lock.nodeKey.Some? && !lock.publicKey.IsZero()
                                && !lock.nodeKeySigned && st.backendState == Running
    ensures st.isLockedOut ==> st.lockKey == Some(lock.publicKey)
  {
  }

  lemma LockExamples(nodeKey: NodeKey, key: NLPublic)
    requires !key.IsZero()
    ensures EvaluateLock(LockStatus(true, Some(nodeKey), key, false), Running) == (Some(key), true)
    ensures EvaluateLock(LockStatus(true, Some(nodeKey), key, false), Stopped) == (Some(key), false)
    ensures EvaluateLock(LockStatus(true, Some(nodeKey), key, true), Running) == (Some(key), false)
    ensures EvaluateLock(LockStatus(true, None, key, false), Running) == (None, false)
    ensures EvaluateLock(LockStatus(true, Some(nodeKey), NLPublic([0, 0]), false), Running) == (None, false)
  {
  }

  // ---------------------------------------------------------------------------
  // Exit node

  /**
   * The current exit node is set exactly when one is selected; a name is shown only for a
   * selected node found among the exit nodes, and it is the name of the first such node.
   */
  lemma ExitNodeResolution<P>(st: State<P>, status: Status, prefs: P, lock: LockStatus)
    requires Describes(st, status, prefs, lock)
    ensures st.currentExitNode.Some? <==> status.exitNodeStatus.Some?
    ensures status.exitNodeStatus.Some? ==> st.currentExitNode == Some(status.exitNodeStatus.value.id)
    ensures st.currentExitNodeName != "" ==>
              exists k :: 0 <= k < |st.exitNodes| && st.exitNodes[k].id == st.currentExitNode.value
                          && st.exitNodes[k].name == st.currentExitNodeName
    ensures status.exitNodeStatus.Some?
            && (forall j :: 0 <= j < |st.exitNodes| ==> st.exitNodes[j].id != status.exitNodeStatus.value.id)
            ==> st.currentExitNodeName == ""
    ensures status.exitNodeStatus.Some?
            && (exists j :: 0 <= j < |st.exitNodes| && st.exitNodes[j].id == status.exitNodeStatus.value.id)
            ==> exists k :: IsFirstMatch(st.exitNodes, status.exitNodeStatus.value.id, k)
                            && st.currentExitNodeName == st.exitNodes[k].name
  {
  }
}
