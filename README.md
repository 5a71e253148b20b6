# tsui `libts` state transform, modelled in Dafny

`libts/state.go` turns what the Tailscale daemon reports (its status, the preferences and
the network-lock status) into one sanitized `State` for the terminal UI. It converts the
backend-state tag into the closed `ipn.State` enumeration. It classifies every peer into
exactly one of four kinds of bucket: exit nodes, the user's own nodes, tagged nodes, and nodes of
other accounts keyed by account name. It sums the traffic counters and sorts each bucket
and the account names. It shortens the version string, looks up the local user's profile,
evaluates network lock and resolves the name of the current exit node.

The project has five files:

- `wrappers.dfy`: `Option` and `Result`.
- `strings.dfy`: `Compare` (Go's `strings.Compare`) with its order lemmas, and `IndexByte`.
- `sorting.dfy`: an in-place sort of an `array` by a string key. It stands for
  `slices.SortFunc` with a `strings.Compare` comparator and for `slices.Sort` on strings.
- `state.dfy` (module `LibTs`): the data model, `NewIPNStateFromString` and the transform.
  The transform is split into the classification loop, the in-place bucket sorts, the key
  collection loop, the version, user, lock and exit-node steps, and `BuildState` /
  `GetState`. `BuildState` is proved to establish the relation `Describes`. That relation
  ties every field of the `State` to the inputs.
- `state_properties.dfy`: lemmas about `Describes`. They cover the strict partition, the
  conservation of counts and traffic over the buckets, and that the account keys are
  fixed by the input. They also cover the promises of the version, user, lock and
  exit-node fields.

The fetched inputs are plain parameters. `GetState` takes the three fetch outcomes as
`Result` values and returns the first failed fetch unchanged. Preferences are an opaque
type parameter that is passed through. `PeerName` and `IsTagged` are fields of `Peer`
(`name`, `tagged`). Go keeps the peers in a map with unspecified iteration order. Here
they are a sequence in one such order, and every proved property holds for every order.
Go visits the account buckets in map order, which is unspecified. The model picks them
in any order with `:|`.

## Model

| member | source | states |
|---|---|---|
| `LibTs.NewIPNStateFromString` | libts/state.go:72-91 | a successful conversion returns the state whose wire tag is the input; any other string gives `UnknownIpnState` with that string, and then no state has that tag |
| `StateProperties.TagRoundTrip` | libts/state.go:72-91 | each of the seven states converts back from its own tag |
| `StateProperties.AcceptedTags` | libts/state.go:72-91 | a tag is accepted if and only if it is the tag of some state |
| `StateProperties.UnknownTagExample` | libts/state.go:88-89 | "Weird" and the lower-case "running" are rejected with the offending tag |
| `LibTs.AddPeer` | libts/state.go:128-147 | appending one peer puts it in the bucket of the first matching rule (exit-capable, same user as self, tagged, else its account), creating the account bucket on first use, so the buckets stay those of the peers seen so far |
| `LibTs.ClassifyPeers` | libts/state.go:124-148 | after the pass, rx and tx are the sums over all peers, the three fixed buckets hold exactly the peers of their rule in input order, the account keys are exactly the accounts produced, and each account bucket holds exactly that account's peers |
| `Strings.Compare` | libts/state.go:64 | the comparison is -1, 0 or 1, and 0 exactly for equal strings |
| `Strings.CompareAntisymmetric` | libts/state.go:64 | swapping the arguments negates the comparison |
| `Strings.CompareTransitive` | libts/state.go:64 | the order "compares at most 0" is transitive |
| `Sorting.SortBy` | libts/state.go:62-66 | the array ends non-decreasing by key and is a permutation of what it held |
| `LibTs.SortNodes` | libts/state.go:62-66 | the peers end sorted by PeerName, in place, as a permutation of the input |
| `LibTs.SortedNodes` | libts/state.go:150-152 | a bucket after sortNodes is sorted by PeerName and has the same peers |
| `LibTs.SortKeys` | libts/state.go:157 | the account names end sorted and with the same elements |
| `LibTs.SortOwnedNodes` | libts/state.go:153-157 | every account bucket is sorted and keeps its peers, the key set is unchanged, and the key list is strictly increasing with exactly the map's keys |
| `Strings.IndexByte` | libts/state.go:159 | the result is -1 exactly when the character is absent, otherwise the position of its first occurrence |
| `LibTs.ShortVersion` | libts/state.go:159-162 | the short version is a prefix of the version without '-', and is the whole version or stops just before a '-' |
| `StateProperties.ShortVersionUnique` | libts/state.go:159-162 | any prefix with those properties is the short version |
| `StateProperties.ShortVersionIdempotent` | libts/state.go:159-162 | shortening twice is shortening once |
| `StateProperties.ShortVersionExamples` | libts/state.go:159-162 | "1.70.0-abc123" gives "1.70.0", "1.70.0" stays, "-dev" gives "" |
| `LibTs.SelfProfile` | libts/state.go:164-167 | none without a local node; otherwise the directory entry of the node's user, or the zero profile when that user is missing |
| `StateProperties.UserOfSelf` | libts/state.go:164-167 | the user is set exactly when the local node is known; it is the directory entry of the node's user, and the zero profile when that user is missing |
| `LibTs.EvaluateLock` | libts/state.go:169-175 | the lock key is set exactly when lock is enabled, a node key is present and the public key is non-zero, and then it is that key; locked out exactly when the key is set, the node key is unsigned and the backend is Running |
| `StateProperties.LockDisabledMeansUnlocked` | libts/state.go:169-175 | with lock disabled the State has no lock key and is not locked out |
| `StateProperties.LockedOutConditions` | libts/state.go:169-175 | the State is locked out exactly when all five conditions hold, and then its lock key is the public key |
| `StateProperties.LockExamples` | libts/state.go:169-175 | enabled, unsigned and Running locks out; Stopped, signed, no node key or a zero key do not |
| `LibTs.ResolveExitNode` | libts/state.go:177-186 | no selection gives no id and an empty name; a selection gives its id, and the name of the first exit node with that id, or "" when none has it |
| `StateProperties.ExitNodeResolution` | libts/state.go:177-186 | the current exit node is set exactly when one is selected; a non-empty name belongs to an exit node carrying the current id; a selected id found among the exit nodes gives the name of the first node carrying it; an id matching no exit node leaves the name empty |
| `LibTs.BuildState` | libts/state.go:110-188 | an unknown tag gives the wrapped `UnknownIpnState` error and no State; a known tag gives a State that `Describes` the inputs (all fields as above, each bucket a sorted permutation of its rule's peers) |
| `LibTs.GetState` | libts/state.go:94-189 | the first failed fetch is returned as it is; with all fetches good the result is that of `BuildState` |
| `StateProperties.EachPeerInExactlyOneBucket` | libts/state.go:128-147 | every copy of a peer is in the bucket its first matching rule names and in no other bucket, and an account peer's key is present |
| `StateProperties.OwnedBucketsNonEmpty` | libts/state.go:143-146 | every account key has at least one peer |
| `StateProperties.Conservation` | libts/state.go:124-147 | for the count, rx and tx, the total over all peers equals the sum over the three buckets and all account buckets |
| `StateProperties.BucketSizesSumToPeerCount` | libts/state.go:124-147 | the bucket sizes add up to the number of peers (the account buckets through their Count total, which is their length) |
| `StateProperties.TrafficOverBuckets` | libts/state.go:124-126 | RxBytes and TxBytes equal the sums over the buckets, whatever the category |
| `StateProperties.DeterminedByInput` | libts/state.go:150-186 | two States for the same input agree on the key list, the key set, the contents of each account, exit, own and tagged bucket, the exit-node name and every other field, whatever order the account map is visited in; only the order of ties inside a bucket may differ |
| `StateProperties.ExitNameDetermined` | libts/state.go:177-186 | two name-sorted orders of the same exit nodes resolve the selected exit node to the same name |

## Left out

- `libts/client.go` is not part of this model. Its functions are calls into the Tailscale
  local client over a local socket. `StartLoginInteractiveWillOpenBrowser` depends only on
  the operating system.
- The three fetches in `GetState` (lines 95-108) are not modelled as I/O. Their outcomes
  are inputs, and a failure is an opaque `FetchFailed` error value.
- `PeerName`, `PeerStatus.IsTagged` and the preferences blob are external. Their results
  are fields of `Peer` or an opaque type parameter.
- `key.NLPublic` is a byte sequence of any length, and `IsZero` holds when every byte is
  zero. Go's key has exactly 32 bytes.
- Strings are sequences of Unicode code points, not Go's byte strings. `Strings.IndexByte`
  therefore returns a character index where Go returns a byte offset ("é-1" gives 1, Go
  gives 2). The shortened version is the same for valid UTF-8. Invalid UTF-8 cannot be
  represented.
- Peer records carry only the fields the transform reads: ID, user, exit-node flag, tag
  flag, traffic counters and the name. Addresses and the other fields are left out.
- Peers are values, not pointers. Two equal peer records are counted as two copies, using
  multisets.
- Error messages are structured values: `CannotGetStatusFromState(UnknownIpnState(tag))`
  stands for "cannot get status from state: unknown ipn state: tag". Go's `NoState` value
  returned beside the tag error, and the empty `State{}` that `GetState` returns beside
  every error (libts/state.go:97, 102, 107, 112), are dropped, since a `Result` carries no
  value on failure.
- `LibTs.ClassifyPeers`: the traffic totals are mathematical integers. Go's int64 wrap on
  overflow is not modelled.
- `LibTs.SortNodes`: the sort is a selection sort, not Go's pattern-defeating quicksort.
  Only sortedness and permutation are promised, because Go's order of ties is unspecified.
- `LibTs.BuildState` requires the local node to be present whenever some peer is not
  exit-capable and the tag is known. In Go, line 130 dereferences a nil `Self` and panics
  in that case. The model does not include the panic.
