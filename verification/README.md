# Verified models of automaton-core

This project models the parts of automaton-core whose correctness is hardest to see from the code, and proves what they
promise: the transactional Merkle trie, the Ethereum ABI and RLP codecs, the discrete-event network simulator with the
node's framing, the hash miner, and the blob store under the persistent trie. Everything is plain Dafny; `dafny verify
dfyconfig.toml` checks the whole project.

**The trie** (`TrieModel`, `TrieHash`, `TrieEdits`, `TrieCommit`, `TrieLayout`, `Trie`, `DummyState`, `TrieRuns`). Nodes live in a vector and are
linked by index. A ghost map gives every live slot its absolute key, so that all invariants are local: parent and child
links agree, every inner node without a value has two children, every hash is the digest of value, prefix and child
hashes, every permanent slot that is not backed up is as committed, and live and free slots partition the vector. Every
operation of the class keeps them and acts on the contents as on a map. From this follow: every run refines a
specification with two maps, as `dummy_state` does, up to the first operation that the code does not carry out; hashes
depend on the contents alone, whatever run produced them; a discard restores every permanent node field for field. What
a hash is made of is said a second time without nodes, by recursion on the map: where nodes must be follows from the keys,
and a node's hash from the value there, the bytes since the node above, and the hashes below in the order of their first
bytes. So after one `set(k, v)` the root has the hash of the hash of v and k, and after two that of their fork; and with
an injective hash of fixed length, two tries with the same keys have the same root hash if and only if they have the same
contents, or hold nothing but a value for the empty key. (With different keys they may: a hash does not show where a
value ends.)

Three operations do not always do what they are meant to, and for each the exact condition is proved.
`commit_changes` keeps the trie if and only if the slots from the new end of the vector on hold no live node with
children and the slot at the new end is free (or nothing is free); otherwise it always leaves a link dangling. `discard_changes`
works if and only if no backup lies beyond the vector, which a second discard in a row violates. `erase` and
`delete_node_tree` of the empty key free the root slot unless, for `erase`, the root has two children. A caller can test
each condition beforehand, and for each failure there is a run from a new trie that leads to it.

**The ABI codec** (`AbiTypes`, `AbiSpec`, `AbiLayout`, `AbiEncoder`, `AbiDecoder`, `AbiCodec`). Types are a tree and its printed form; the
code only sees the text, and its reading of the text is proved to agree with the tree at any depth. The in-place encoder,
with its growing buffer and its two cursors that callers sometimes pass as one, is proved equal to the recursive head and
tail definition of the Contract ABI Specification, section "Formal Specification of the Encoding", for every well-typed
list with an encoding below 2^64 bytes, if and only if its heads are below 2^32 bytes and no dynamic array that holds
anything, at any depth, has static elements of 2^32 bytes or more: the code counts both on 32 bits. For each condition
there is an input: two arrays of 2^26 numbers, whose heads are exactly 2^32 bytes, come out as the empty string, and
a dynamic array of one array of 2^27 numbers as 64 bytes. The length of the result is stated for arguments of any kind.
The definition itself is checked against a second account that builds nothing: which number, which bytes and which zeros
stand at which position of given data, with every offset worked out from sizes. Data meets it if and only if the encoding
of the value stands there.
The decoder reads, from any data, the values that stand where its 32-bit steps lead; these are the values of every list
laid out at the start of the data, if nothing is read behind a static value of 2^32 bytes or more. (If something is, it
may be wrong, and there is an input for that, too: a number behind an array of 2^27 numbers is read from the start of
the array.) Of such lists it reads those, and only those, in which no array of dynamic elements is longer than 2^26 + 1
and no other array longer than 2^31 - 1: beyond that a 32-bit product of the loop counter, or the counter itself,
overflows. Decoding inverts encoding on every list that encode lays out as a tuple, with the same exception.

**RLP and transactions** (`Rlp`, `EthTransaction`). What `rlp_encode` writes decodes, with anything after it, to what went in, if and
only if it is shorter than 2^31 bytes and, for a list, not shorter than two bytes unless it is one byte of 128 or more
(Appendix B of the Ethereum Yellow Paper). The bytes that go in are half as many as digits, rounded up, and have the value
of the digits. A signed transaction is the list of nine that EIP-155 asks for, with each field at its place.

**The simulator** (`SimModel`, `SimSteps`, `SimLink`, `SimRuns`, `SimSound`, `SimScheduler`, `SimEffects`, `NetworkSimulation`) **and
framing** (`Framing`). The scheduler runs every accepted task exactly once, by time and then by order of acceptance. What
each task and each call of a user does is stated in full: the connections and ids it leaves, the callbacks it queues, the
tasks it schedules, and when these are due, which is the next moment or one lag after the latest thing sent. For any
connection that asks for a link, for the first time or again, from the request to the disconnection, and among any other
connections and events: at most one message or acknowledgement per direction is in flight, exactly one while the front
packet is completely sent; what arrived is a prefix of what was sent; success is reported once per message, in order,
after arrival; bytes handed on, in the read buffer and waiting add up to the bytes received; whatever can go on has a
task that will see to it, so that a simulation without tasks has delivered everything. These hold until the one step that
can break them, a `handle_send` of a begun packet with something still in flight; that step always puts two things in
flight, it never happens while packets fit the bandwidth, and from any idle link it does happen for a packet that does
not fit and is followed by another one. On top, framing delivers exactly the blobs sent for every way of cutting the
stream into chunks and of spacing the reads, and so it does from node to node over a simulated link.

**The persistent trie** (`BlobStorage`, `PersistentNodes`, `PersistentTrie`, `TrieTwins`, `PersistentRuns`). The store only appends,
and never changes what it holds. Over it, `state_persistent` does to what its stored nodes mean exactly what `state_impl`
does to its nodes, and the same lemmas prove the same contracts. What decides where a node goes is shared, too: a new
node takes the smallest free slot, removals move nothing, a commit fills gaps from the end. So every run of operations
other than setting an empty value, which does nothing here, leaves the nodes of both tries in the same slots, damages
both or neither at each operation, and gives the same answers of `get` and `get_node_hash`. The persistent trie stops
early for three reasons only, and the contracts say when: a text longer than 2^30 - 4 bytes, which needs such a key,
value or digest; a read of an empty blob that happens to stand in the very last word of a store that is exactly full; and
an id or slot beyond 2^32, since `set_parent` keeps 32 bits. For the last two there are sequences of calls that show
them. Every operation is bounded in the words it appends to the store, by the lengths of keys, values and digests, so
that whether a run can stop at all can be told from its operations: one whose cost is below 2^28 - 2 words never does,
and with keys, values and digests of up to 32 bytes that is every run of up to 400,000 operations.

**The miner** (`HashMiner`). `mine` finds the smallest positive nonce.

## Reading the model

- Undefined behaviour and exceptions of the code are results: `ok == false`, `None`, or a `Status` other than `Pass`. A contract
  says when they occur.
- The hasher is a function of the concatenation of its updates; the signer and the block hash are functions too. Lag is
  any number within the limits of a connection; an acceptor's decision is arbitrary.
- Integers are unbounded except where a width matters and is written out: 32-bit head sizes and element counts, 64-bit
  offsets, `int` array lengths and loop counters of the ABI code, 32-bit RLP lengths and `v`. Vector indices of the trie
  are taken not to overflow 32 bits, and simulated times to stay below 2^32.
- Bandwidths are positive and lag limits are ordered, as addresses are parsed. ABI types are those of the specification
  with array lengths that fit an `int`; the parser refuses others.
- Methods of the source that are long are split; the helper takes the name of what it does (`Locate`, `Sprout`, `SplitNode`
  for `set`; `Deliver`, `Receive`, `Reply`, `Acknowledge` for `handle_message`).
- Some definitions are stated as "equal to whatever the definition gives" behind a restricted trigger (`U256`, `Reads`, `PairOk`,
  `Sound`, `Scheduled`, `Means`, `Held`, `Short`, `Bounded`, `Gained`, `Adds`, `Sites`, `Shrinks`, `Accounted`, `Abreast`, `Unspoken`,
  `TextCost`, `Arrived`, `SendEffect`, `ConnectEffect`); a lemma next to each looks inside. They mean exactly what they abbreviate.
- The invariant of `NetworkSimulation.Simulation` watches the link of one connection, `watch.on`, which is arbitrary and
  never used by the code, so that what is proved of it is proved of all. The ghost method `Watch` begins anew, on the same
  connection or another one, and the callbacks of the link are counted from there.

## Model

| member | source | states |
|---|---|---|
| `TrieModel.Descend` | src/automaton/core/state/state_impl.cc:344-394 | A live node whose key properly extends that of another lies below the child at the next byte; the search of get_node_index misses nothing |
| `TrieModel.SamePath` | src/automaton/core/state/state_impl.cc:344-394 | No two live slots have the same key |
| `TrieHash.HashDeterminedByContents` | src/automaton/core/state/state_impl.cc:426-466 | History independence: in any two canonical, hashed tries with equal contents, nodes at equal keys have equal hashes |
| `TrieModel.SameLivePaths` | src/automaton/core/state/state_impl.cc:35-128 | Two canonical tries with the same contents have nodes at the same keys |
| `TrieHash.HashInIs` | src/automaton/core/state/state_impl.cc:426-466 | The hash kept in a node is the one that recursion on the contents gives, without nodes; there is none exactly where the keys need no node |
| `TrieHash.ChildIs` | src/automaton/core/state/state_impl.cc:35-128 | A node has a child at a byte exactly when some key goes on with it, and the child is where all such keys end or part |
| `TrieHash.OneKeyHash` | src/automaton/core/state/state_impl.cc:447-456 | With one key, the root has the hash of the hash of value and key |
| `TrieHash.TwoKeysHash` | src/automaton/core/state/state_impl.cc:447-456 | With two keys that part, the root has the hash of the hash of what they share and of their two hashes, in the order of the bytes where they part; without the outer hash if they share nothing |
| `TrieHash.NestedKeysHash` | src/automaton/core/state/state_impl.cc:447-456 | With one key that continues another, the longer one is hashed below the shorter one |
| `TrieHash.RootTellsContents` | src/automaton/core/state/state_impl.cc:426-466 | With an injective hash of fixed length, tries with the same keys have the same root hash if and only if they have the same contents or only a value for the empty key |
| `TrieHash.OneValueChanged` | src/automaton/core/state/state_impl.cc:426-466 | With such a hash, a new value for any key but the empty one gives a new root hash |
| `TrieHash.SameKeysNeeded` | src/automaton/core/state/state_impl.cc:447-456 | Two tries with different keys have the same root hash, whatever the hash function |
| `TrieEdits.SetValue` | src/automaton/core/state/state_impl.cc:124-127 | Setting the value of a live node updates exactly its key in the contents and disturbs only hashes at and above it |
| `TrieEdits.AddLeaf` | src/automaton/core/state/state_impl.cc:406-424 | A blank leaf hung below a node keeps the shape; contents and other hashes stay |
| `TrieEdits.SplitEdge` | src/automaton/core/state/state_impl.cc:72-88 | Cutting an edge with a new node keeps shape, contents and the hashes off the path |
| `TrieEdits.MergeEdge` | src/automaton/core/state/state_impl.cc:229-244 | Merging a node without a value into its only child keeps shape and contents |
| `TrieEdits.DropSubtrie` | src/automaton/core/state/state_impl.cc:156-202 | Unlinking a subtrie removes exactly the keys that extend its key |
| `Trie.StateImpl.constructor` | src/automaton/core/state/state_impl.cc:22-28 | A new trie is valid and empty |
| `Trie.StateImpl.GetNodeIndex` | src/automaton/core/state/state_impl.cc:344-394 | Finds the one live node at a key, and -1 exactly when there is none |
| `Trie.StateImpl.Get` | src/automaton/core/state/state_impl.cc:30-33 | The value that the contents hold for the key, empty if none |
| `Trie.StateImpl.GetNodeHash` | src/automaton/core/state/state_impl.cc:130-133 | The hash that the contents give the key, by recursion on them; empty where the keys need no node |
| `Trie.StateImpl.NodeHasChildren` | src/automaton/core/state/state_impl.cc:397-404 | True exactly when some child slot is in use |
| `Trie.StateImpl.BackupNodes` | src/automaton/core/state/state_impl.cc:468-476 | Afterwards the slot and all its permanent ancestors are backed up with the fields they have now; older backups stay; terminates by the slots not yet backed up |
| `Trie.StateImpl.AddNode` | src/automaton/core/state/state_impl.cc:406-424 | Takes the smallest free slot or else a new one, backs it up, and links it both ways |
| `Trie.StateImpl.CalculateHash` | src/automaton/core/state/state_impl.cc:426-466 | Changes hashes only; makes all hashes right if they were right off the path to the root, so that each is the one that the contents give; terminates by depth |
| `Trie.StateImpl.HashNode` | src/automaton/core/state/state_impl.cc:426-462 | The digest of value, prefix and child hashes in byte order, empty for a root without children |
| `Trie.StateImpl.Set` | src/automaton/core/state/state_impl.cc:35-128 | Updates exactly one key of the contents and keeps every invariant, and makes at most a fork and then a node, each in the smallest free slot; with an empty value it is erase |
| `Trie.StateImpl.Locate` | src/automaton/core/state/state_impl.cc:40-122 | The node for a key, found or made by hanging leaves and splitting edges, with the contents unchanged |
| `Trie.StateImpl.SplitNode` | src/automaton/core/state/state_impl.cc:98-122 | Splitting a live node at a position of its prefix keeps invariants and contents and gives the node for the shorter key |
| `Trie.StateImpl.Erase` | src/automaton/core/state/state_impl.cc:209-283 | Fails, changing nothing, exactly when the key is not set; otherwise removes exactly that key and keeps every invariant, except that the empty key with fewer than two children at the root frees the root and keeps its value |
| `Trie.StateImpl.MergeIntoChild` | src/automaton/core/state/state_impl.cc:229-244 | The merge of a node into its only child keeps soundness and contents, and frees the slot |
| `Trie.StateImpl.SubtrieMarkFree` | src/automaton/core/state/state_impl.cc:478-487 | Marks free exactly the slots at and below a node |
| `Trie.StateImpl.DeleteNodeTree` | src/automaton/core/state/state_impl.cc:156-202 | Fails, changing nothing, exactly when the key is not set; otherwise removes exactly the keys that extend it; the empty key frees the root |
| `Trie.StateImpl.CommitChanges` | src/automaton/core/state/state_impl.cc:285-317 | Keeps the trie and its contents, closes gaps from the end of the vector and makes the result permanent, if and only if the free slots are compactable; otherwise no assignment of keys makes the vector a trie |
| `Trie.StateImpl.DiscardChanges` | src/automaton/core/state/state_impl.cc:319-325 | Restores the vector of the last commit node for node, if and only if no backup lies beyond the end of the vector |
| `TrieCommit.CompactionOutcome` | src/automaton/core/state/state_impl.cc:285-317 | Every run of the compaction loop keeps shape, contents and hashes when the start is compactable, and leaves a dangling or stale link when it is not |
| `TrieCommit.CloseGaps` | src/automaton/core/state/state_impl.cc:294-314 | The loop is a run of relocations and skips, followed by one copy and a cut to the number of live slots |
| `TrieCommit.Truncate` | src/automaton/core/state/state_impl.cc:314-315 | Cutting free slots off the end keeps the trie |
| `TrieRuns.Execute` | src/automaton/core/state/state_impl.cc:35-325 | One operation refines the two-map specification if and only if it is sane; an operation that is not either damages the trie or writes out of bounds |
| `TrieRuns.IsSane` | src/automaton/core/state/state_impl.cc:209-325 | Whether an operation is sane can be told beforehand from the fields of the class |
| `TrieRuns.Run` | src/automaton/core/state/state_impl.cc:35-325 | Every run refines the two-map specification up to its first operation that is not sane; runs without removals of the empty key, commits with removals pending, or double discards have none |
| `TrieLayout.SameSettled` | src/automaton/core/state/state_impl.cc:406-424 | From the same layout, and to the same keys, set leads to the same layout |
| `TrieLayout.SameShrunk` | src/automaton/core/state/state_impl.cc:156-283 | To the same keys, removals lead to the same slots |
| `TrieLayout.SameClosed` | src/automaton/core/state/state_impl.cc:285-317 | From the same layout, a commit leads to the same layout |
| `TrieRuns.GetAfter` | src/automaton/core/state/state_impl.cc:30-33 | After as much of any run as is sane, get answers as the specification does |
| `TrieRuns.DummyAfter` | src/automaton/core/state/dummy_state.cc:13-26 | The same run of the reference with data and pending changes, where a removal is setting the empty value, gives the same answers |
| `TrieRuns.HashAfter` | src/automaton/core/state/state_impl.cc:130-133 | After as much of any run as is sane, get_node_hash is what recursion on the contents gives |
| `TrieRuns.HashOfOne` | src/automaton/core/state/state_impl.cc:130-133 | On a new trie, after set of a key and a value, get_node_hash of the empty key is the hash of the hash of value and key |
| `TrieRuns.HashOfTwo` | src/automaton/core/state/state_impl.cc:130-133 | After set of two keys that part, in either order, it is made of their hashes in byte order |
| `TrieRuns.DiscardTwice` | src/automaton/core/state/state_impl.cc:319-325 | On a new trie, setting any non-empty key and discarding twice succeeds once and then writes beyond the vector |
| `TrieRuns.CommitBreaks` | src/automaton/core/state/state_impl.cc:285-317 | On a new trie, setting any two keys with different first bytes and erasing the one in slot 1 makes a commit break the trie |
| `TrieRuns.EraseBreaks` | src/automaton/core/state/state_impl.cc:209-283 | On a new trie with only the empty key set, erasing it frees the root slot and leaves its value in place |
| `TrieRuns.DeleteTreeBreaks` | src/automaton/core/state/state_impl.cc:156-202 | With the empty key set, and any other beside it, delete_node_tree of the empty key frees the root slot |
| `DummyState.DummyState.Get` | src/automaton/core/state/dummy_state.cc:13-21 | The pending value if there is one, else the committed one, else empty |
| `DummyState.DummyState.Set` | src/automaton/core/state/dummy_state.cc:23-26 | Updates one key of what is visible and nothing committed |
| `DummyState.DummyState.CommitChanges` | src/automaton/core/state/dummy_state.cc:72-87 | What was visible becomes committed |
| `DummyState.DummyState.DiscardChanges` | src/automaton/core/state/dummy_state.cc:89-91 | What was committed becomes visible again |
| `AbiTypes.GetTypeAgrees` | src/automaton/core/interop/ethereum/eth_helper_functions.h:352-398 | Classifying the printed form of any type gives its kind, array kind and length |
| `AbiTypes.Names` | src/automaton/core/interop/ethereum/eth_helper_functions.h:352-398 | Types print as the specification writes them: uint256[3][], string[][12], bytes32, int8 |
| `AbiTypes.KindIsDynamic` | src/automaton/core/interop/ethereum/eth_helper_functions.h:374-379 | The text-level tests for dynamic kinds agree with the definition of dynamic types |
| `AbiTypes.ExtractAgrees` | src/automaton/core/interop/ethereum/eth_helper_functions.h:400-418 | Cutting the last suffix of a printed array type gives the printed element type |
| `AbiTypes.ReadType` | src/automaton/core/interop/ethereum/eth_helper_functions.h:352-398 | get_type describes the type that a text spells |
| `AbiTypes.ElementType` | src/automaton/core/interop/ethereum/eth_helper_functions.h:400-418 | extract_array_type describes the element type |
| `AbiSpec.BigEndianRoundTrip` | src/automaton/core/interop/ethereum/eth_helper_functions.h:452-464 | Big-endian bytes read back |
| `AbiSpec.StaticLength` | src/automaton/core/interop/ethereum/eth_helper_functions.h:420-437 | The encoding of a value of static type has the size of the type |
| `AbiSpec.PartsFit` | src/automaton/core/interop/ethereum/eth_helper_functions.h:546-674 | Every component, and every offset, is within the size of its tuple |
| `AbiLayout.ValueIs` | src/automaton/core/interop/ethereum/eth_helper_functions.h:546-674 | The encoding of a value stands at a position if and only if the data there is as laid down byte by byte: numbers in two's complement, bytesN first and addresses last in their words with zeros beside them, lengths, bytes and zeros of strings, every element at its place and every offset the distance to its value |
| `AbiLayout.TupleIs` | src/automaton/core/interop/ethereum/eth_helper_functions.h:546-674 | The same for the components of a tuple |
| `AbiLayout.ScalarIs` | src/automaton/core/interop/ethereum/eth_helper_functions.h:617-672 | The same for one word |
| `AbiLayout.BlobIs` | src/automaton/core/interop/ethereum/eth_helper_functions.h:603-616 | The same for a string or byte array: its length, its bytes, then only zeros to the end of the last word |
| `AbiLayout.SizeIs` | src/automaton/core/interop/ethereum/eth_helper_functions.h:420-437 | An encoding has the size that lengths and types add up to |
| `AbiEncoder.OutBuffer.CheckAndResize` | src/automaton/core/interop/ethereum/eth_helper_functions.h:504-516 | Afterwards there is room at the position, and nothing written is lost |
| `AbiEncoder.OutBuffer.Put` | src/automaton/core/interop/ethereum/eth_helper_functions.h:504-516 | Exactly the given bytes are written at the position |
| `AbiEncoder.U64ToU256` | src/automaton/core/interop/ethereum/eth_helper_functions.h:452-464 | A 64-bit number as a 256-bit big-endian word |
| `AbiEncoder.CountElements` | src/automaton/core/interop/ethereum/eth_helper_functions.h:425-432 | The product of all dimensions of a static array, modulo 2^32 |
| `AbiEncoder.CalculateOffset` | src/automaton/core/interop/ethereum/eth_helper_functions.h:420-437 | The total head size of a parameter list, modulo 2^32 |
| `AbiEncoder.EncodeScalar` | src/automaton/core/interop/ethereum/eth_helper_functions.h:617-672 | A scalar value stands in the word as laid down; which values are taken at all, and what each of them gives: bytes at their end of the word between zeros, integers in two's complement, negative ones for unsigned types by their magnitude, JSON numbers by their last 64 bits |
| `AbiDecoder.NumberEncoded` | src/automaton/core/interop/ethereum/eth_helper_functions.h:653-664 | A JSON number is encoded as itself if and only if it is from 0 to 2^64 - 1 |
| `AbiEncoder.EncodeParam` | src/automaton/core/interop/ethereum/eth_helper_functions.h:546-674 | Exactly the encoding of a well-typed, narrow value is written, at the head or the tail cursor, which moves by its length, also when both cursors are one; for a value of any kind, the tail cursor moves by what the code counts, and the head cursor by no more than the size of the type |
| `AbiEncoder.EncodeElements` | src/automaton/core/interop/ethereum/eth_helper_functions.h:553-556 | Static values follow one another and make up the tuple of their encodings |
| `AbiEncoder.EncodeWithOffsets` | src/automaton/core/interop/ethereum/eth_helper_functions.h:583-591 | Each offset is the distance from the start of the tuple to its value; heads and tails together are the tuple |
| `AbiEncoder.EncodeDynamicArray` | src/automaton/core/interop/ethereum/eth_helper_functions.h:557-602 | The length, if the type leaves it open, then the tuple of the elements |
| `AbiEncoder.EncodeTuple` | src/automaton/core/interop/ethereum/eth_helper_functions.h:573-602 | All three layouts of narrow elements write the same tuple; for elements of any kind, the cursor moves by what the code counts of them on 32 bits |
| `AbiEncoder.AdvanceIsLength` | src/automaton/core/interop/ethereum/eth_helper_functions.h:557-602 | What the code counts is never more than the length of the encoding, and equal to it if and only if no dynamic array that holds anything has static elements of 2^32 bytes or more |
| `AbiEncoder.EncodeBlob` | src/automaton/core/interop/ethereum/eth_helper_functions.h:603-616 | At the cursor stand the length, the bytes, and only zeros to a multiple of 32, behind which the cursor moves |
| `AbiCodec.Encode` | src/automaton/core/interop/ethereum/eth_helper_functions.h:676-725 | For every well-typed list with an encoding below 2^64 bytes, the result is the tuple of the specification, byte for byte, and equally has its size and everything at its place, if and only if its heads are below 2^32 bytes and its values are narrow; one string or byte array alone gives 32, the length, the bytes, and zeros to a multiple of 32; a list of static values always gives as many bytes of the tuple as 32 bits count of its heads; the length is stated for arguments of any kind; a wrong number of arguments gives the empty string |
| `AbiCodec.HeadsWrap` | src/automaton/core/interop/ethereum/eth_helper_functions.h:420-437 | Two arrays of 2^26 numbers, whose heads are 2^32 bytes, are encoded as the empty string |
| `AbiCodec.WideElements` | src/automaton/core/interop/ethereum/eth_helper_functions.h:573-580 | A dynamic array of one array of 2^27 numbers is encoded in 64 bytes instead of 2^32 + 64 |
| `AbiDecoder.U256ToU64` | src/automaton/core/interop/ethereum/eth_helper_functions.h:491-502 | The number in the last eight of 32 bytes, 0 for any other length |
| `AbiDecoder.FromBytesInverts` | src/automaton/core/interop/ethereum/eth_helper_functions.h:477-489 | Every signed or unsigned number of up to 256 bits reads back from its two's complement word |
| `AbiDecoder.BytesSizeIs` | src/automaton/core/interop/ethereum/eth_helper_functions.h:811-822 | The size of bytesN is read back from its name |
| `AbiDecoder.DecodeNumber` | src/automaton/core/interop/ethereum/eth_helper_functions.h:796-808 | The bit or number in the word at any position of any data; false for a bit in a word that is cut off; an exception behind the end, and a read outside the text for a number that is cut off |
| `AbiDecoder.DecodeFixedBytes` | src/automaton/core/interop/ethereum/eth_helper_functions.h:809-825 | As many bytes as the type asks for from any position of any data, or as there are; an exception behind the end |
| `AbiDecoder.DecodeBlob` | src/automaton/core/interop/ethereum/eth_helper_functions.h:787-795 | As many bytes as the word before them says, or as there are; an exception when that word is cut off |
| `AbiDecoder.DecodeParam` | src/automaton/core/interop/ethereum/eth_helper_functions.h:727-829 | Wherever the encoding of a well-typed value stands in the data, with nothing behind a static element of 2^32 bytes or more, decoding gives that value if it is readable and fails if not |
| `AbiDecoder.DecodeOffsets` | src/automaton/core/interop/ethereum/eth_helper_functions.h:770-780 | Elements behind offsets are read back exactly when there are at most 2^26 + 1 and all are readable |
| `AbiDecoder.DecodeStrided` | src/automaton/core/interop/ethereum/eth_helper_functions.h:731-768 | Static elements are read back at any stride that is right, or if there is only one, exactly when there are fewer than 2^31 and all are readable |
| `AbiDecoder.PointedAt` | src/automaton/core/interop/ethereum/eth_helper_functions.h:583-591 | In a tuple, the offset of a dynamic component leads to its encoding |
| `AbiCodec.Decode` | src/automaton/core/interop/ethereum/eth_helper_functions.h:831-866 | Any data decodes to the values found where the 32-bit steps of the code lead, if and only if they are readable; for data in which everything is at its place, with nothing behind a static value of 2^32 bytes or more, these are the values of the list |
| `AbiCodec.WideStep` | src/automaton/core/interop/ethereum/eth_helper_functions.h:857-862 | A number behind an array of 2^27 numbers is read from the start of the array |
| `AbiDecoder.NarrowIsSteady` | src/automaton/core/interop/ethereum/eth_helper_functions.h:727-829 | What encode lays out as a tuple, decode steps through |
| `AbiCodec.RoundTrip` | src/automaton/core/interop/ethereum/eth_helper_functions.h:676-866 | decode after encode is the identity on every list that encode lays out as a tuple, if and only if it is readable: no array of dynamic elements longer than 2^26 + 1, no other longer than 2^31 - 1 |
| `AbiCodec.BeyondReach` | src/automaton/core/interop/ethereum/eth_helper_functions.h:770-776 | Some list that encode handles is not readable: an array of 2^26 + 2 empty strings |
| `AbiCodec.BeyondCount` | src/automaton/core/interop/ethereum/eth_helper_functions.h:758-769 | So is an array of 2^31 numbers |
| `Rlp.RoundTrip` | src/automaton/core/interop/ethereum/eth_helper_functions.h:523-544 | An encoding followed by anything decodes to what follows and to bytes with the value of the digits, half as many, if and only if these are encodable |
| `Rlp.EvenValue` | src/automaton/core/interop/ethereum/eth_helper_functions.h:524-526 | A text made even has the same value and at most one digit more, and its bytes have that value, too |
| `Rlp.EncodeHead` | src/automaton/core/interop/ethereum/eth_helper_functions.h:523-544 | The head before the bytes of the text announces their number modulo 2^31, and is left out for one small byte |
| `Rlp.DecToHexValue` | src/automaton/core/io/io.cc:94-101 | The bytes of dec2hex are the big-endian number |
| `Rlp.BinUnbin` | src/automaton/core/io/io.cc:46-92 | hex2bin undoes bin2hex |
| `EthTransaction.SignedText` | src/automaton/core/interop/ethereum/eth_transaction.cc:18-21 | What is hashed and signed is a list of nine: items with the values of nonce, gas price, gas limit, recipient, value, data and chain, in this order, and two empty strings |
| `EthTransaction.SignedTransaction` | src/automaton/core/interop/ethereum/eth_transaction.cc:18-49 | The signed transaction is a list of nine: items with the values of nonce, gas price, gas limit, recipient, value and data, in this order, then v as a number, and the two halves of the signature |
| `EthTransaction.VOfChain` | src/automaton/core/interop/ethereum/eth_transaction.cc:28-33 | v decodes to twice the chain plus 35 or 36 by the parity of the signature, if and only if that fits 32 bits |
| `SimScheduler.Accept` | src/automaton/core/network/simulated_connection.cc:93-100 | Accepting a task leaves all that has run, and all other slots, as they are |
| `SimScheduler.AllRan` | src/automaton/core/network/simulated_connection.cc:334-363 | When nothing is left at the present, what has run is exactly what was due by then, by time and order of acceptance |
| `NetworkSimulation.Simulation.AddTask` | src/automaton/core/network/simulated_connection.cc:93-100 | A task is put at its time, or at the next moment if that is past; the slot being run does not change |
| `NetworkSimulation.Simulation.Process` | src/automaton/core/network/simulated_connection.cc:334-363 | Runs everything due up to the given time, each task once and in order, and leaves nothing due; keeps every invariant; stops only at a request whose source or acceptor does not exist, the last task run |
| `NetworkSimulation.Simulation.SetTime` | src/automaton/core/network/simulated_connection.cc:388-395 | Time moves on by one when nothing is left at the present |
| `NetworkSimulation.Simulation.RunTask` | src/automaton/core/network/simulated_connection.cc:342-356 | Every task keeps the invariant and does what is stated of it to connections, ids, tasks, their times, and callbacks; a report without a route tells the connection of the error; a task cannot be carried out, and does nothing, exactly when it is a request without a source or an acceptor |
| `NetworkSimulation.Simulation.RunNext` | src/automaton/core/network/simulated_connection.cc:342-356 | The task that runs is the next one of its moment, with all its effects |
| `NetworkSimulation.Simulation.NextCallback` | src/automaton/core/network/simulated_connection.cc:365-381 | Callbacks are taken in the order they were queued |
| `NetworkSimulation.Simulation.GetLag` | src/automaton/core/network/simulated_connection.cc:650-655 | A lag from the lower limit up to below the upper one, or the limit if they are equal |
| `NetworkSimulation.Simulation.NewConnection` | src/automaton/core/network/simulated_connection.cc:463-481 | A disconnected connection with the given limits, address and empty queues, beside all others |
| `NetworkSimulation.Simulation.AsyncSend` | src/automaton/core/network/simulated_connection.cc:483-509 | Queues the packet, and a send for the next moment if connected, or does nothing for an empty message or a disconnected connection; keeps the link in order |
| `NetworkSimulation.Simulation.AsyncRead` | src/automaton/core/network/simulated_connection.cc:587-616 | Queues the read, and one for the next moment if something waits, or does nothing when the buffer is too small; keeps the link in order |
| `NetworkSimulation.Simulation.HandleSend` | src/automaton/core/network/simulated_connection.cc:511-544 | With bytes to send, exactly the rest of the front packet, or as much as the bandwidth allows, is scheduled to arrive one lag after the later of now and the time stamp, which becomes the time of arrival; otherwise nothing happens. Keeps the link in order unless a begun packet is sent on with something in flight, and then two things are in flight; never while packets fit |
| `NetworkSimulation.Simulation.SendChunk` | src/automaton/core/network/simulated_connection.cc:523-543 | The next bytes arrive one moment and one lag after the later of now and the time stamp |
| `NetworkSimulation.Simulation.HandleMessage` | src/automaton/core/network/simulated_connection.cc:230-272 | A message reaches a connected peer, is appended to what it received, wakes its reader, and is answered by exactly one acknowledgement, a lag later, if the packet is complete, or the next send; otherwise the sender is told of the failure, a lag later |
| `NetworkSimulation.Simulation.Bounce` | src/automaton/core/network/simulated_connection.cc:237-244 | The failed acknowledgement comes one moment and one lag after the later of now and the time stamp of the sender |
| `NetworkSimulation.Simulation.SendAck` | src/automaton/core/network/simulated_connection.cc:260-265 | The acknowledgement arrives one moment and one lag after the later of now and the time stamp, which becomes the time of arrival |
| `NetworkSimulation.Simulation.HandleAck` | src/automaton/core/network/simulated_connection.cc:313-332 | The front packet is done and reported once, with the given result, and the next one will be sent at the next moment; nothing happens without a packet |
| `NetworkSimulation.Simulation.HandleRead` | src/automaton/core/network/simulated_connection.cc:546-585 | The front reader is answered exactly when it takes what there is or there is as much as it wants, with exactly the first bytes up to its limit, and the next one will be looked after; otherwise its buffer keeps all there is; the rest stays |
| `NetworkSimulation.Fill` | src/automaton/core/network/simulated_connection.cc:551-568 | Buffer and waiting bytes together stay the same; the buffer never passes its limit and stops short of it only when nothing waits |
| `NetworkSimulation.Simulation.Connect` | src/automaton/core/network/simulated_connection.cc:657-673 | At any time: a new id beside any old one and a request under way, which arrives one lag after the later of now and the time stamp, or nothing without an address; a connection that could be watched before can be watched after |
| `NetworkSimulation.Simulation.Register` | src/automaton/core/network/simulated_connection.cc:664-672 | The id, the time stamp and the request of a connection that asks for a link |
| `NetworkSimulation.Simulation.Watch` | src/automaton/core/network/simulated_connection.cc:657-704 | The guarantees begin anew for the next link of any connection, or one it has asked for, with no clearing due and nothing else that speaks of it |
| `SimSound.ClosedIsWatchable` | src/automaton/core/network/simulated_connection.cc:115-148 | A closed or refused connection of which nothing speaks any more, and whose queues are cleared, is one |
| `SimSound.ConnectIsWatchable` | src/automaton/core/network/simulated_connection.cc:402-416 | It stays one after connecting, even if its old id stays registered |
| `NetworkSimulation.Simulation.HandleRequest` | src/automaton/core/network/simulated_connection.cc:150-228 | Grants, making the other end with the smaller bandwidth, telling both handlers of it and scheduling its three tasks, or refuses, as the handler decides, after a warning when not accepting; all answers arrive together, one moment and one lag from now; cannot be carried out exactly when the source or the acceptor does not exist |
| `NetworkSimulation.Simulation.GrantRequest` | src/automaton/core/network/simulated_connection.cc:176-219 | The link becomes live, and its acceptance is due before anything the new end will send |
| `NetworkSimulation.Simulation.HandleAccept` | src/automaton/core/network/simulated_connection.cc:274-291 | The initiator is connected, hears of it, and will read and send at the next moment, or nothing happens without one; the link stays in order |
| `NetworkSimulation.Simulation.HandleRefuse` | src/automaton/core/network/simulated_connection.cc:293-311 | A refused connection is closed, hears of it, and will drop its queues at the next moment, or nothing happens without one; no live link is touched |
| `NetworkSimulation.Simulation.Disconnect` | src/automaton/core/network/simulated_connection.cc:675-704 | A connected end gives up its id and its peer, hears of it, and will drop its queues at the next moment; the peer is told one lag after the later of now and the time stamp, strictly after every message this end had sent; otherwise nothing happens |
| `NetworkSimulation.Simulation.Close` | src/automaton/core/network/simulated_connection.cc:680-703 | The two tasks, the callback and the times of a disconnection |
| `NetworkSimulation.Simulation.HandleDisconnect` | src/automaton/core/network/simulated_connection.cc:115-148 | Closes the other end, which gives up its id, hears of it, and will drop its queues at the next moment; nothing happens to an end that is gone or still connecting; never meets an end of a live link |
| `NetworkSimulation.Simulation.HandleClear` | src/automaton/core/network/simulated_connection.cc:722-755 | Empties the three queues of a closed connection, reporting each unsent message as failed, in order, and then an error for each unserved read |
| `NetworkSimulation.Simulation.AtMostOneInFlight` | src/automaton/core/network/simulated_connection.cc:230-272 | Stop and wait: per direction of a live link, at most one message or acknowledgement is pending |
| `NetworkSimulation.Simulation.CompleteIsInFlight` | src/automaton/core/network/simulated_connection.cc:230-272 | A completely sent front packet has a message or acknowledgement pending; while packets fit the bandwidth, if and only if |
| `NetworkSimulation.Simulation.NothingLost` | src/automaton/core/network/simulated_connection.cc:230-332 | Bytes handed on are a prefix of bytes received, these of bytes sent; reports of success are one per acknowledged message, in order, after arrival |
| `NetworkSimulation.Simulation.ReadsConserved` | src/automaton/core/network/simulated_connection.cc:546-616 | Bytes handed on, then the current buffer, then those waiting, are the bytes received; reads are answered once each, in order, with exactly what they asked for |
| `NetworkSimulation.Simulation.Quiescent` | src/automaton/core/network/simulated_connection.cc:230-332 | Without pending tasks, everything sent was received and reported, and no reader waits beside unread data |
| `NetworkSimulation.Simulation.Overrun` | src/automaton/core/network/simulated_connection.cc:257-267 | From any idle live link, a message above the bandwidth followed by another gets two things in flight at once |
| `SimModel.ReceivedIsPrefix` | src/automaton/core/network/simulated_connection.cc:246-253 | The invariant of a direction makes what arrived a prefix of what was sent |
| `SimModel.ReportedIsReceived` | src/automaton/core/network/simulated_connection.cc:313-332 | A message reported as sent has arrived completely |
| `SimSteps.ChunkSent` | src/automaton/core/network/simulated_connection.cc:511-544 | Sending a chunk with nothing in flight keeps the invariant of the direction |
| `SimSteps.Delivered` | src/automaton/core/network/simulated_connection.cc:246-267 | Delivery keeps it, with an acknowledgement exactly when the packet is complete |
| `SimSteps.Acknowledged` | src/automaton/core/network/simulated_connection.cc:313-332 | An acknowledgement finds its packet complete, and keeps it |
| `SimSteps.Served` | src/automaton/core/network/simulated_connection.cc:569-579 | Serving a reader keeps it |
| `SimRuns.FittingNeverPipelined` | src/automaton/core/network/simulated_connection.cc:511-530 | While packets are sent whole or not at all, an incomplete front packet has nothing in flight |
| `SimRuns.EndReached` | src/automaton/core/network/simulated_connection.cc:192-219 | A message for an end of a live link comes from the other end, and only after the acceptance |
| `SimSound.AfterGranted` | src/automaton/core/network/simulated_connection.cc:176-219 | A granted request keeps the invariant and, for the watched connection, starts its link |
| `SimSound.FlightStamp` | src/automaton/core/network/simulated_connection.cc:710-720 | Whatever an end has in flight is due no later than its time stamp |
| `Framing.SendBlob` | src/automaton/core/node/node.cc:330-344 | Three bytes whose big-endian value is the size of the blob, then the blob; nothing exactly above 256 bytes |
| `Framing.HeaderRoundTrip` | src/automaton/core/node/node.cc:339-343 | The three-byte length reads back |
| `Framing.HeaderIsBigEndian` | src/automaton/core/node/node.cc:567-570 | A header is read as a big-endian number |
| `Framing.Reader.constructor` | src/automaton/core/node/node.cc:629-647 | The first header is asked for |
| `Framing.Reader.OnMessageReceived` | src/automaton/core/node/node.cc:555-621 | A good header asks for its message, a bad one closes the peer, a message is handed on and the next header asked for |
| `Framing.Reader.Arrive` | src/automaton/core/network/simulated_connection.cc:246-253 | Any chunk may wait behind others; the blobs handed on stay a prefix of those sent |
| `Framing.Reader.Drain` | src/automaton/core/node/node.cc:555-621 | Any number of reads keeps the blobs handed on a prefix of those sent, and enough of them read all that waits |
| `Framing.Reader.AllDelivered` | src/automaton/core/node/node.cc:555-621 | When all bytes have arrived, exactly the blobs sent were handed on |
| `Framing.Transfer` | src/automaton/core/node/node.cc:330-344 | Every way of cutting the framed stream into chunks, with any number of reads between them, delivers exactly the blobs |
| `Framing.DeliveredOverLink` | src/automaton/core/node/node.cc:555-647 | Node to node over a simulated link of any bandwidth and lag: the blobs handed on are always a prefix of those sent, and all of them when no task is left |
| `HashMiner.NextNonce` | src/automaton/examples/crypto/basic_hash_miner.cc:11-20 | Adds one to the big-endian number, if and only if not all bytes are 255 |
| `HashMiner.IsValidHash` | src/automaton/examples/crypto/basic_hash_miner.cc:22-39 | True exactly when the first bits are zero |
| `HashMiner.Mine` | src/automaton/examples/crypto/basic_hash_miner.cc:50-72 | The smallest positive nonce for which the hash of block and nonce has enough leading zeros; none exactly when too many zeros are asked for or no nonce passes |
| `BlobStorage.Blobstore.Store` | src/automaton/core/storage/blobstore.cc:21-49 | A new id for the data, everything stored before unchanged; fails exactly when doubling once is not enough |
| `BlobStorage.Blobstore.Get` | src/automaton/core/storage/blobstore.cc:51-58 | What was stored under the id, except for an empty blob in the very last word |
| `BlobStorage.Blobstore.GetWord` | src/automaton/core/storage/blobstore.cc:51-58 | The pointer read as a 32-bit number: that of a four-byte blob, and behind an empty blob the size of the next one |
| `BlobStorage.Blobstore.Grow` | src/automaton/core/storage/blobstore.cc:27-33 | Doubling loses nothing |
| `BlobStorage.AllStay` | src/automaton/core/storage/blobstore.cc:21-42 | Writing behind the used part leaves all blobs in place |
| `BlobStorage.InMemory` | src/automaton/core/storage/blobstore.cc:21-49 | A blob is its size, least significant byte first, then its bytes; the next one follows at the first whole word |
| `PersistentNodes.MeansStays` | src/automaton/core/storage/blobstore.cc:21-49 | What stored nodes and backups mean does not change when more blobs are stored |
| `PersistentNodes.MeansRestore` | src/automaton/core/state/state_persistent.cc:327-330 | A backup put back means what it meant when it was made |
| `PersistentTrie.StatePersistent.constructor` | src/automaton/core/state/state_persistent.cc:23-35 | On any store: a valid empty trie if and only if blobs 0 and 1 are empty, as on a new store |
| `PersistentTrie.StatePersistent.SetPrefix` | src/automaton/core/state/state_persistent.cc:539-541 | The prefix of that node alone changes, and nothing else means anything new; refused exactly when one doubling of the store is not enough |
| `PersistentTrie.StatePersistent.SetValue` | src/automaton/core/state/state_persistent.cc:547-550 | The same for the value |
| `PersistentTrie.StatePersistent.SetHash` | src/automaton/core/state/state_persistent.cc:543-545 | The same for the hash |
| `PersistentTrie.StatePersistent.SetParent` | src/automaton/core/state/state_persistent.cc:535-537 | The same for the parent, exactly while the id of its blob and the slot fit 32 bits |
| `PersistentTrie.StatePersistent.GetValue` | src/automaton/core/state/state_persistent.cc:525-529 | The last value set, except when the id is the last word of the store, and then the value is empty |
| `PersistentTrie.StatePersistent.GetParent` | src/automaton/core/state/state_persistent.cc:506-510 | The last parent set, 0 for a new node |
| `PersistentTrie.StatePersistent.GetNodeIndex` | src/automaton/core/state/state_persistent.cc:354-404 | Finds the one live node at a key, and -1 exactly when there is none |
| `PersistentTrie.StatePersistent.Get` | src/automaton/core/state/state_persistent.cc:37-41 | The value that the contents hold for the key, empty if none |
| `PersistentTrie.StatePersistent.GetNodeHash` | src/automaton/core/state/state_persistent.cc:138-141 | As in memory: the hash that the contents give the key, empty where the keys need no node |
| `PersistentTrie.StatePersistent.BackupNodes` | src/automaton/core/state/state_persistent.cc:484-492 | As in memory: the slot and all its permanent ancestors are backed up with what they mean now |
| `PersistentTrie.StatePersistent.AddNode` | src/automaton/core/state/state_persistent.cc:416-434 | As in memory: the smallest free slot or a new one, backed up and linked both ways; appends four words |
| `PersistentTrie.StatePersistent.CalculateHash` | src/automaton/core/state/state_persistent.cc:436-482 | As in memory: makes all hashes right if they were right off the path to the root; appends at most one digest per byte of the key and one for the root |
| `PersistentTrie.StatePersistent.Set` | src/automaton/core/state/state_persistent.cc:43-136 | Updates exactly one key of the contents and keeps every invariant, with new nodes in the slots that they take in memory; nothing for an empty value; appends at most SetCost words and two slots, and succeeds whenever there is as much room; never out of room for keys, values and digests up to 2^30 - 4 bytes |
| `PersistentTrie.StatePersistent.Erase` | src/automaton/core/state/state_persistent.cc:216-291 | Removes exactly the key, with the failing cases of the trie in memory; appends at most RemoveCost words, and succeeds whenever there is as much room |
| `PersistentTrie.StatePersistent.DeleteNodeTree` | src/automaton/core/state/state_persistent.cc:161-209 | Removes exactly the keys that extend it; the empty key frees the root; appends at most RemoveCost words, and succeeds whenever there is as much room |
| `PersistentTrie.StatePersistent.CommitChanges` | src/automaton/core/state/state_persistent.cc:293-325 | Keeps the trie and its contents, closes gaps as in memory and makes the result permanent, if and only if the free slots are compactable; appends nothing, and succeeds whenever the store is not exactly full |
| `PersistentTrie.StatePersistent.DiscardChanges` | src/automaton/core/state/state_persistent.cc:327-333 | Restores the vector of the last commit node for node, if and only if no backup lies beyond its end |
| `PersistentRuns.Perform` | src/automaton/core/state/state_persistent.cc:43-333 | One operation does as its specification if and only if it is safe; it takes at most its cost of the store, and succeeds whenever there is as much room |
| `PersistentRuns.RunStored` | src/automaton/core/state/state_persistent.cc:23-333 | Every run on a new store does as the two-map specification up to its first operation that is not safe; it never stops otherwise when its cost is below 2^28 - 2 words, never for a long id when its cost is at most 2^32 - 2, and never for want of room while keys, values and digests are short |
| `PersistentRuns.FourHundredThousand` | src/automaton/core/storage/blobstore.cc:21-49 | With keys, values and digests of up to 32 bytes, every run of up to 400,000 operations costs less than that |
| `PersistentRuns.AnswersStored` | src/automaton/core/state/state_persistent.cc:37-141 | After such a run, get answers as the specification does, and get_node_hash is a function of the contents alone; there is an answer whenever the run is affordable |
| `TrieTwins.TwinsStay` | src/automaton/core/state/state_persistent.cc:43-333 | Two tries with their nodes in the same slots have them in the same slots after the same operation |
| `PersistentRuns.SameDamage` | src/automaton/core/state/state_persistent.cc:161-333 | With the same contents in the same slots, an operation damages the trie in memory if and only if it damages the persistent one |
| `PersistentRuns.RunBoth` | src/automaton/core/state/state_persistent.cc:43-333 | A run without empty values keeps the tries in step, slot for slot, and stops in both at the same operation, unless the store jams, which no affordable run makes it do |
| `PersistentRuns.SameAnswers` | src/automaton/core/state/state_persistent.cc:37-141 | After any run without empty values, the persistent trie and the trie in memory have carried out the same operations and give the same answers of get and get_node_hash, unless the store jams; affordable runs always have answers |
| `PersistentRuns.EmptyInLastWord` | src/automaton/core/storage/blobstore.cc:51-58 | On a store filled up to its last word, an empty value is stored and cannot be read |
| `PersistentRuns.ParentLost` | src/automaton/core/state/state_persistent.cc:535-537 | On a store with 2^32 words in use, a node set to have parent 1 reads parent 0 |

## Left out

- TrieRuns.DummyAfter: does not cover delete_node_tree, because the reference implements a different meaning for it.
- NetworkSimulation.Simulation.Watch: a watch does not begin while a clearing of the object's queues is due. That task enters the slot after the disconnection before a new request can, so that it runs before a second link is live; packets queued while connecting and before it runs are cleared with the old ones, and only they are not covered.
- NetworkSimulation.Simulation.HandleMessage: times are unbounded, where the code truncates them to 32 bits.
- AbiCodec.Encode: well-typed lists give integers as decimal strings; of JSON numbers, only the word they are encoded as is stated.
- AbiCodec.Decode: for a list with something behind a static value of 2^32 bytes or more, states that the values found where the code looks are returned; whether they happen to be those of the list depends on the data.
- AbiDecoder.DecodeParam: for an array with more than one static element of 2^32 bytes or more, nothing is stated, for the same reason; nor for arrays in data that encodes none, of which only the single words, bytes and strings are. It gives values, not JSON text; the code does not escape quotes in strings.
- EthTransaction.SignedTransaction: hash and signature are arbitrary functions; nothing is said of their strength.
- PersistentTrie.StatePersistent.CommitChanges: nodes are a sequence; the memory-mapped file behind the persistent vector is not modelled.
- Texts of hexadecimal and decimal numbers are modelled by their digits; upper and lower case, and number suffixes that are only partly numeric, are not distinguished.
- Connection and acceptor address parsing, acceptor registration, and printing of subtries would only add easy members.
- Threads and mutexes: tasks and callbacks are atomic steps.
- TCP, HTTP, curl, JSON-RPC, protobuf wrappers, the Lua engine, file-backed storage and the user interface are not part of this model.
