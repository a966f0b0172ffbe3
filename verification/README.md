# Verification of Eventopry

A Dafny model of the parts of Eventopry (event ticketing: a Rust server and a
mobile app) that are hardest to get right, with proofs about them. Every
theorem quantifies over all inputs, all runs or all interleavings of the model;
there is no bound on replicas, rows, pages, requests, messages or steps.

| module | models | main results |
|---|---|---|
| `VectorClocks` | vector clocks | the comparison loop is the pointwise order; four-way case split; merge is the least upper bound |
| `LwwElementSets`, `LwwReplicas` | the last-write-wins set, and any number of replicas exchanging stale copies | merge is the join of views on every reachable state; a view is a function of the causal history; convergence to the join of all replicas, and exactly when |
| `OrSets` | the observed-remove set and its replicas | merge is the union of tags, on lists and runs; an element is present after a merge, or after any gossip, exactly when a state that reached it has it |
| `KeysetPaging` | the event listings and their cursors | the exact rows a client of `list_events` collects by sending back `next_cursor` |
| `BleMesh` | the scanners' store-and-forward mesh | no check-in is lost; every record has a chain of pulls as long as its hop count |
| `DataViews`, `Base64Url`, `TicketPayloads`, `OfflineScanners` | the rotating QR payload and the gate scanner | both codec round trips; from ticket screen to gate; every logged record was signed and timely; one admission per ticket, and exactly when that fails |
| `Affiliates` | affiliate registration, interleaved statement by statement | one row and one code per pair, under every interleaving |
| `WaitingRoom` | the event-stream parser and the proof-of-work search | which calls depend on how a response is cut, and exactly when none does; closing is reported once |
| `Sha256`, `Sha256Constants`, `Sha256Js` | SHA-256 as specified and as computed with JavaScript numbers | the in-place implementation computes the specification; its constants are the roots of the first primes |
| `Ratings` | rating submissions and the summary | the stored aggregates are the fold over the rows in every run |
| `Checkout` | the checkout progress list | statuses stay in order; what a failure marks; what the list reads under every interleaving of calls and resets |

Objects that the source updates in place are classes whose methods are proved
against functions on values; protocols are state machines, and `Run` folds their
steps. `Gossips` tracks which states have
reached whom; `Wrappers`, `Sequences` and `Arithmetic` hold shared helpers.
`dafny verify dfyconfig.toml` checks the project. All lemmas carry
`{:induction false}`, so that a proof is exactly what its body says.

Where code and documentation disagree, the model follows the code:

- `server/src/utils/cursor_pagination.rs:7-8` says that a cursor holds the last
  item of the page; the handlers encode the extra row they pop
  (`server/src/handlers/events.rs:2074-2088`). `CollectEvents` states what that
  loses, `DocumentedWalkComplete` that the documented cursor loses nothing.
- `server/src/crdt/tests.rs:158-170` expects a removed element to stay removed
  after a merge; `RemovedElementReturns` shows that it comes back.
- `apps/mobile/services/waitingRoom.ts:155` says that `onClosed` also reports an
  abort; closing the stream from outside makes no call (`Stream.Fire`).
- `apps/mobile/lib/crypto.ts:195` says that a payload lives for two windows; the
  check allows 75 seconds on either side of the window boundary (`WindowBounds`).
- `apps/mobile/hooks/useTicketCheckout.ts:307-322` blames a step of the approval
  even when the payment fails; `FailureBlames` says exactly which steps end up
  marked.

## Model

| member | source | states |
|---|---|---|
| `VectorClocks.VectorClock.New` | server/src/crdt/vector_clock.rs:16-20 | a fresh clock holds the one given counter |
| `VectorClocks.VectorClock.Empty` | server/src/crdt/vector_clock.rs:23-27 | an empty clock counts zero for every node |
| `VectorClocks.VectorClock.Increment` | server/src/crdt/vector_clock.rs:30-33 | one counter goes up by one, wrapping at the 64-bit maximum, and no other changes |
| `VectorClocks.MergeClocks` | server/src/crdt/vector_clock.rs:36-45 | the loop over the other clock computes the pointwise maximum, in whatever order the keys come |
| `VectorClocks.Compare` | server/src/crdt/vector_clock.rs:49-74 | the two flags yield exactly the pointwise order, in whatever order the keys come |
| `VectorClocks.Equals` | server/src/crdt/vector_clock.rs:87-100 | true exactly when every counter agrees, a missing node counting zero |
| `VectorClocks.OrderAntisymmetric` | server/src/crdt/vector_clock.rs:49-74 | swapping the arguments negates the comparison |
| `VectorClocks.HappenedBeforeStrictOrder` | server/src/crdt/vector_clock.rs:77-79 | irreflexive, asymmetric and transitive |
| `VectorClocks.Quadrichotomy` | server/src/crdt/vector_clock.rs:77-100 | exactly one of before, after, concurrent and equal holds of any two clocks |
| `VectorClocks.MergeIsLub` | server/src/crdt/vector_clock.rs:36-45 | merge is the least upper bound: above both, and below whatever is above both |
| `VectorClocks.ClockLaws` | server/src/crdt/vector_clock.rs:36-45 | as maps, merged clocks are commutative, associative and idempotent |
| `VectorClocks.BumpAdvancesIff` | server/src/crdt/vector_clock.rs:30-33 | increment moves strictly forward exactly when the counter is below its maximum |
| `VectorClocks.BumpIsNext` | server/src/crdt/vector_clock.rs:30-33 | no clock lies strictly between a clock and its increment |
| `LwwElementSets.LwwElementSet.constructor` | server/src/crdt/lww_element_set.rs:26-30 | a new set is empty |
| `LwwElementSets.LwwElementSet.Add` | server/src/crdt/lww_element_set.rs:38-80 | an add takes effect if it is newer, or ties with a dominating clock; every other key stays |
| `LwwElementSets.LwwElementSet.Remove` | server/src/crdt/lww_element_set.rs:83-125 | a remove takes effect under the same conditions as an add |
| `LwwElementSets.LwwElementSet.Has` | server/src/crdt/lww_element_set.rs:128-135 | true exactly when the view shows an add under the key of the value |
| `LwwElementSets.LwwElementSet.Values` | server/src/crdt/lww_element_set.rs:138-146 | a value is listed exactly when the set has it, each once, as many as there are live keys |
| `LwwElementSets.LwwElementSet.Size` | server/src/crdt/lww_element_set.rs:149-151 | the number of keys whose newest write is an add |
| `LwwElementSets.LwwElementSet.ResolveConflict` | server/src/crdt/lww_element_set.rs:156-173 | the winner of two elements under one key: newer time, then dominating clock, then add over remove |
| `LwwElementSets.LwwElementSet.Merge` | server/src/crdt/lww_element_set.rs:154-180 | the in-place loop leaves, key by key, the resolution of both sides, whatever the iteration order, and keeps keys and values matched |
| `LwwElementSets.LwwElementSet.Clear` | server/src/crdt/lww_element_set.rs:183-185 | the set is empty again |
| `LwwElementSets.ResolveIsLaterIff` | server/src/crdt/lww_element_set.rs:154-180 | the winner of two elements is the lexicographic maximum of time and add-over-remove exactly when no remove with a dominating clock ties with an add; and it never depends on which side is merged into which |
| `LwwElementSets.ResolveTakes` | server/src/crdt/lww_element_set.rs:156-173 | the newer element wins unchanged; at one time with neither clock ahead the winner is an add if either side is |
| `LwwElementSets.ResolveClock` | server/src/crdt/lww_element_set.rs:159-173 | an element taken over at a tie carries the least clock above both |
| `LwwElementSets.MergeIsJoinIff` | server/src/crdt/lww_element_set.rs:154-180 | on arbitrary states merge is the pointwise maximum of the views if and only if no shared key holds such a tie |
| `LwwElementSets.MergeCommutes` | server/src/crdt/lww_element_set.rs:154-180 | merge commutes on views, for arbitrary states |
| `LwwElementSets.MergeNotAssociative` | server/src/crdt/lww_element_set.rs:154-180 | three states on which merge is not associative, so the invariant below is needed |
| `LwwElementSets.JoinLaws` | server/src/crdt/lww_element_set.rs:154-180 | the maximum of views is commutative, associative and idempotent |
| `LwwElementSets.JoinIsLub` | server/src/crdt/lww_element_set.rs:154-180 | the maximum of views is their least upper bound |
| `LwwElementSets.SoundNotOverridden` | server/src/crdt/lww_element_set.rs:42-43 | clocks with counters all 1, of one node on a remove, exclude the tie that breaks merge |
| `LwwElementSets.WriteKeepsSound` | server/src/crdt/lww_element_set.rs:38-125 | local writes keep that invariant |
| `LwwElementSets.MergeKeepsSound` | server/src/crdt/lww_element_set.rs:154-180 | merge keeps that invariant |
| `LwwElementSets.MergeIsJoin` | server/src/crdt/lww_element_set.rs:154-180 | under the invariant merge is the pointwise maximum of the views |
| `LwwElementSets.MergeLaws` | server/src/crdt/lww_element_set.rs:154-180 | under the invariant merge is commutative, associative and idempotent on views |
| `LwwElementSets.OldWriteDropped` | server/src/crdt/lww_element_set.rs:57-68 | a local write that is not strictly newer changes nothing: a fresh one-node clock never wins a tie |
| `LwwElementSets.WriteView` | server/src/crdt/lww_element_set.rs:38-125 | the exact effect of a local write on the view, and that no key ever goes back |
| `LwwReplicas.PutKeepsGood` | server/src/crdt/lww_element_set.rs:38-125 | a local write keeps a replica explained by the writes that reached it |
| `LwwReplicas.MergeKeepsGood` | server/src/crdt/lww_element_set.rs:154-180 | a merge keeps a replica explained by the union of both histories |
| `LwwReplicas.ApplyKeepsGood` | server/src/crdt/lww_element_set.rs:38-185 | every step of every replica keeps all replicas and all copies in flight explained |
| `LwwReplicas.RunExplained` | server/src/crdt/lww_element_set.rs:26-185 | in every state of every run, with stale, repeated, reordered and lost copies, each view is exactly the pointwise newest of the effective writes in its history |
| `LwwReplicas.LiveIffNewestIsAdd` | server/src/crdt/lww_element_set.rs:26-185 | in every run a replica has a key exactly when the newest write of the key that reached it is an add |
| `LwwReplicas.NewerWriteShows` | server/src/crdt/lww_element_set.rs:38-125 | in every run a write newer than what its replica shows is what that replica shows next; any other changes nothing shown |
| `LwwReplicas.SameHistorySameView` | server/src/crdt/lww_element_set.rs:26-185 | strong eventual consistency: two replicas reached by the same writes show the same view |
| `LwwReplicas.ReachableMergeLaws` | server/src/crdt/lww_element_set.rs:154-180 | between any replicas of any run, merge is the join of views and commutes, associates and is idempotent |
| `LwwReplicas.GossipTracked` | server/src/crdt/lww_element_set.rs:154-180 | after updates stop, a replica knows exactly what the states that reached it, however indirectly, knew |
| `LwwReplicas.GossipExact` | server/src/crdt/lww_element_set.rs:154-180 | after any run and any schedule of sends and receives, a view is the join of exactly the states that reached it through chains of merges |
| `LwwReplicas.GossipConvergesIff` | server/src/crdt/lww_element_set.rs:154-185 | after updates stop a view never goes back; it stays within the join of all replicas, and a replica that every replica has reached shows that join, if and only if no older copy that reached it shows something beyond it |
| `LwwReplicas.GossipConverges` | server/src/crdt/lww_element_set.rs:154-185 | so it is when no set was cleared, or when only copies sent after updates stopped are received: between its own view and the join of all replicas, and equal to the join once every replica has reached it |
| `LwwReplicas.ClearedReturns` | server/src/crdt/lww_element_set.rs:183-185 | otherwise a copy from before a clear brings the cleared element back |
| `OrSets.MergeTags` | server/src/crdt/or_set.rs:128-147 | for all lists no id twice and what both loops make of them; when the second repeats none, under every id the tag of its list, or of both with the clocks merged |
| `OrSets.OrSet.constructor` | server/src/crdt/or_set.rs:31-36 | a new set is empty |
| `OrSets.OrSet.Add` | server/src/crdt/or_set.rs:59-74 | one tag with the node, its one-node clock and the fresh id is appended under the key, and nothing else changes |
| `OrSets.AddedShows` | server/src/crdt/or_set.rs:59-74 | an add shows one more tag under its key, beside all those the key had; every other key shows the same, and a stored value is not replaced |
| `OrSets.AddStays` | server/src/crdt/or_set.rs:59-152 | in every run a replica that has added a key holds the tag of that add, and has the key, until it removes the key or is cleared itself |
| `OrSets.OrSet.Remove` | server/src/crdt/or_set.rs:77-80 | the key is forgotten with all its tags |
| `OrSets.OrSet.HasValue` | server/src/crdt/or_set.rs:83-90 | true exactly when the key holds a tag |
| `OrSets.OrSet.Size` | server/src/crdt/or_set.rs:104-109 | the number of keys that hold a tag |
| `OrSets.OrSet.Merge` | server/src/crdt/or_set.rs:112-125 | in place and in any iteration order, each key of both sides holds a list without repeats of the united tags with merged clocks; a key leaves only if neither side has a tag for it |
| `OrSets.MergedShows` | server/src/crdt/or_set.rs:112-147 | whatever the order of its lists, a merged set shows the merge of the two tag maps under every key |
| `OrSets.OrSet.Clear` | server/src/crdt/or_set.rs:150-152 | the set is empty again |
| `OrSets.MergeHasIff` | server/src/crdt/or_set.rs:83-125 | after a merge an element is present exactly when one of the inputs had it |
| `OrSets.MergeNeverDrops` | server/src/crdt/or_set.rs:116-117 | between sets without empty tag lists the removing branch of merge is dead |
| `OrSets.MergeCommutesIff` | server/src/crdt/or_set.rs:112-147 | merge commutes, tags and clocks included, exactly when no shared id carries two nodes |
| `OrSets.MergeIdempotentIff` | server/src/crdt/or_set.rs:112-125 | merging a set with itself gives it back exactly when no key has an empty tag list |
| `OrSets.MergeAssociates` | server/src/crdt/or_set.rs:112-147 | merge associates, tags and clocks included, on all states |
| `OrSets.MergeKeepsHonest` | server/src/crdt/or_set.rs:112-147 | a merge keeps all stored lists non-empty and without repeats, and all tags as issued |
| `OrSets.NextKeepsHonest` | server/src/crdt/or_set.rs:59-152 | every step of every replica keeps that of all replicas and copies |
| `OrSets.RunHonest` | server/src/crdt/or_set.rs:59-152 | in every state of every run, in whatever order merged lists come out, each stored tag list is non-empty, repeats no id, and holds its tags exactly as they were issued for that key |
| `OrSets.ReachableMergeLaws` | server/src/crdt/or_set.rs:112-147 | between any replicas of any run, merge is the plain union of tags under every key and commutes, associates and is idempotent |
| `OrSets.GossipExact` | server/src/crdt/or_set.rs:112-147 | after any run and any schedule of sends and receives, a replica shows under every key the union of the tags in exactly the states that reached it, and has an element exactly when one of them has it |
| `OrSets.RemovedElementReturns` | server/src/crdt/tests.rs:158-170 | in the scenario of that unit test the removed element is present after the merge, against the expectation stated there |
| `KeysetPaging.CursorSelectsRowsAfter` | server/src/handlers/events.rs:328-439 | for every sort but the rating count and both directions, the predicate with the values bound from an encoded row selects exactly the rows after that row in the generated order |
| `KeysetPaging.ClausesOrderFields` | server/src/handlers/events.rs:327-338 | the generated order of every sort and of every fixed listing compares exactly the field it is named for, then the id, in the stated directions |
| `KeysetPaging.RowsAsRequested` | server/src/handlers/events.rs:327-338 | every sort lists all rows, in the requested order of their own fields |
| `KeysetPaging.RowsAsListed` | server/src/handlers/events.rs:2207-2259 | past events come by end time and id, latest first; attendees by creation and category events by start time, oldest first |
| `KeysetPaging.BindsIff` | server/src/handlers/events.rs:2016-2058 | a cursor is refused exactly when it lacks the field its sort binds; the id bound is its own |
| `KeysetPaging.CursorIdentifies` | server/src/handlers/events.rs:2074-2088 | two rows have one cursor exactly when they agree in everything but the end time |
| `KeysetPaging.ListingsAligned` | server/src/handlers/events.rs:423-434 | order and cursor predicate agree on column and directions for all listings, except exactly descending rating count |
| `KeysetPaging.RatingsDescendingExact` | server/src/handlers/events.rs:333-434 | even a rightly bound cursor of that sort is right about a row exactly when the row is not in the cursor row's tie, or is the cursor row |
| `KeysetPaging.RatingsCursorMisses` | server/src/handlers/events.rs:2033-2044 | a row that the rating-count sort's cursor loses, in either direction |
| `KeysetPaging.RatingsCursorRightIff` | server/src/handlers/events.rs:2033-2044 | that cursor, which holds minted tickets, is right about every row exactly when the order ascends and both counts of its row agree |
| `KeysetPaging.SortCorrect` | server/src/handlers/events.rs:327-338 | ORDER BY is a strictly sorted permutation when ids are unique |
| `KeysetPaging.RemainingCorrect` | server/src/handlers/events.rs:416-439 | a page is cut from the sorted listing of exactly the selected rows |
| `KeysetPaging.CursorRestarts` | server/src/handlers/events.rs:416-439 | a cursor made of the row at some rank yields exactly the listing after that rank, so every page is a contiguous slice |
| `KeysetPaging.FetchPage` | server/src/handlers/events.rs:2063-2077 | fetching one row too many and popping it leaves the page, and the popped row exactly when more follow |
| `KeysetPaging.PageSize` | server/src/utils/cursor_pagination.rs:46-47 | the size from 1 to 100 closest to the one asked for |
| `KeysetPaging.ListEvents` | server/src/handlers/events.rs:2016-2095 | one request: the error of binding exactly when the cursor lacks the key of the sort; otherwise the clamped page and the cursor of the row after it |
| `KeysetPaging.WalkExact` | server/src/handlers/events.rs:2236-2259 | a walk by the positions of the popped rows returns, in order and without repeats, exactly the rows whose rank is not p modulo p+1, N - N/(p+1) of N; all of them exactly when one page suffices |
| `KeysetPaging.CollectEvents` | server/src/handlers/events.rs:2016-2095 | a client of list_events that sends back every encoded cursor, for any sort but the rating count, either direction and any limit, meets no error, comes to an end and has exactly those rows, in the requested order of their fields |
| `KeysetPaging.CollectListing` | server/src/handlers/events.rs:2207-2259 | the same for past events, attendees and the events of a category, whose cursors hold key and id; past events come by end time and id, latest first |
| `KeysetPaging.FollowRatings` | server/src/handlers/events.rs:2016-2095 | ascending by rating count, if the row popped from the first page has fewer minted tickets than any event has ratings, a client holds the first page and another cursor after any number of turns: that walk does not end |
| `KeysetPaging.DocumentedWalkComplete` | server/src/utils/cursor_pagination.rs:7-8 | with the cursor of the last row kept, the walk from any cursor is the whole remaining listing |
| `BleMesh.Scanner.constructor` | apps/mobile/services/bleMeshService.ts:55-63 | a new scanner has an empty log |
| `BleMesh.Scanner.RecordCheckIn` | apps/mobile/services/bleMeshService.ts:91-102 | the log gains the record with zero hops under its id, and nothing else changes |
| `BleMesh.Scanner.OnPeerDiscovered` | apps/mobile/services/bleMeshService.ts:109-113 | a device is pulled exactly when it has not been handled since the last tick |
| `BleMesh.Scanner.Merge` | apps/mobile/services/bleMeshService.ts:133-139 | the loop takes the first record of every unknown id below the hop limit, one hop further |
| `BleMesh.Scanner.Records` | apps/mobile/services/bleMeshService.ts:162-164 | what is served or posted is exactly the log, each id once |
| `BleMesh.Scanner.GossipTick` | apps/mobile/services/bleMeshService.ts:142-143 | every peer may be pulled again |
| `BleMesh.Scanner.Flushed` | apps/mobile/services/bleMeshService.ts:158-159 | exactly the returned ids leave the log |
| `BleMesh.MergeAdds` | apps/mobile/services/bleMeshService.ts:133-139 | merging keeps every held record, adds only incoming records below the limit with one more hop, and adds every such id |
| `BleMesh.ApplyKeepsAll` | apps/mobile/services/bleMeshService.ts:91-189 | each step keeps every check-in in its creator's log or accepted |
| `BleMesh.ApplyKeepsProvenance` | apps/mobile/services/bleMeshService.ts:91-189 | each step keeps every logged, in-flight and accepted record genuine |
| `BleMesh.MeshLosesNothing` | apps/mobile/services/bleMeshService.ts:91-189 | in every run, with stale reads, lost answers and late acknowledgements, each check-in is still in its creator's log or has been accepted |
| `BleMesh.MeshProvenance` | apps/mobile/services/bleMeshService.ts:27-139 | in every run each record anywhere equals the original apart from its hops, has at most 6 of them, and came by a chain of exactly that many pulls, each in an earlier merge than the next, from its creator |
| `BleMesh.PullSpreads` | apps/mobile/services/bleMeshService.ts:115-139 | in every run a peer that reads a log and merges it has every record of it below 6 hops |
| `BleMesh.PostedIsAccepted` | apps/mobile/services/bleMeshService.ts:153-159 | in every run what the gateway takes of a posted batch is accepted as it was in the log |
| `BleMesh.AcknowledgedIsDelivered` | apps/mobile/services/bleMeshService.ts:158-159 | in every run an acknowledgement takes exactly accepted records from the log of the scanner that posted them |
| `DataViews.Uint32RoundTrip` | apps/mobile/lib/crypto.ts:142-146 | reading a 32-bit field gives back the number written |
| `DataViews.Uint64RoundTrip` | apps/mobile/lib/crypto.ts:132-146 | reading the two halves of a 64-bit field gives back the number written |
| `DataViews.BigEndian` | apps/mobile/lib/crypto.ts:132-146 | fields of four and of eight bytes are read with the first byte the most significant |
| `DataViews.Uint64Bytes` | apps/mobile/lib/crypto.ts:132-146 | writing the number read gives back the eight bytes |
| `Base64Url.ToBase64Url` | apps/mobile/lib/crypto.ts:153-165 | the loop with its padding stripped writes exactly the sextets of section 5 of RFC 4648 |
| `Base64Url.FromBase64Url` | apps/mobile/lib/crypto.ts:172-186 | the loop computes the decoding of every text, with restored padding and unknown characters read as zero |
| `Base64Url.CharInverse` | apps/mobile/lib/crypto.ts:150-170 | the character at an index of the alphabet is found at that index |
| `Base64Url.IndexInverse` | apps/mobile/lib/crypto.ts:150-170 | the index of an alphabet character holds that character |
| `Base64Url.SextetsSpellBytes` | apps/mobile/lib/crypto.ts:153-165 | the sextets spell the number that the bytes spell, shifted by the bits that fill up the last one, at every length |
| `Base64Url.OctetsOfSextets` | apps/mobile/lib/crypto.ts:153-186 | regrouping bytes into sextets and back loses nothing, at every length |
| `Base64Url.SextetsOfOctets` | apps/mobile/lib/crypto.ts:153-186 | regrouping sextets into bytes and back is the identity on tight sextet sequences |
| `Base64Url.DecodeSpelled` | apps/mobile/lib/crypto.ts:172-186 | on alphabet texts of every length, also 1 modulo 4, decoding regroups the sextets |
| `Base64Url.DecodeEncode` | apps/mobile/lib/crypto.ts:153-186 | decoding inverts encoding on every byte string |
| `Base64Url.EncodeDecodeIff` | apps/mobile/lib/crypto.ts:153-186 | encoding inverts decoding exactly on canonical texts: alphabet only, no dangling character, unused bits zero |
| `TicketPayloads.DecodeFixedString` | apps/mobile/lib/crypto.ts:120-126 | the loop strips exactly the trailing zero bytes |
| `TicketPayloads.FieldContents` | apps/mobile/lib/crypto.ts:111-118 | a field holds the first bytes of the id and zeros behind them |
| `TicketPayloads.FieldRoundTripIff` | apps/mobile/lib/crypto.ts:111-126 | an id comes back from its field exactly when it fits and does not end in a zero byte |
| `TicketPayloads.WriteUint64BE` | apps/mobile/lib/crypto.ts:132-137 | eight bytes of the buffer are set big-endian, the rest is untouched |
| `TicketPayloads.GenerateRotatingPayload` | apps/mobile/lib/crypto.ts:201-230 | the buffer filled in place is the header and its signature, in base64url; a secret that is not 64 bytes is an error |
| `TicketPayloads.ParseGenerated` | apps/mobile/lib/crypto.ts:201-272 | a generated payload parses to its window, nonce, signature and signed 41 bytes; the id survives exactly when it fits and does not end in a zero byte |
| `TicketPayloads.ParseIsFaithful` | apps/mobile/lib/crypto.ts:248-272 | from any parsed payload the signed message and the decoded bytes can be rebuilt, and its text exactly when it was canonical |
| `TicketPayloads.ParseOkIff` | apps/mobile/lib/crypto.ts:248-272 | a text parses exactly when it decodes to 105 bytes of version 1; otherwise the error gives the length or the version |
| `TicketPayloads.VerifyExact` | apps/mobile/lib/crypto.ts:289-319 | a payload is accepted exactly when it parses, its signature over the first 41 bytes verifies under a key of 32 bytes, and it is within 75 seconds; every refusal has exactly its cause |
| `TicketPayloads.VerifyGenerated` | apps/mobile/lib/crypto.ts:289-319 | an honest payload is accepted exactly within 75 seconds of its window boundary, otherwise expired |
| `TicketPayloads.WindowBounds` | apps/mobile/lib/crypto.ts:214-316 | in seconds shown and scanned: always accepted from 75 early to 61 late, never beyond 89 early or 75 late, both bounds reached |
| `OfflineScanners.OfflineScanner.constructor` | apps/mobile/services/offlineScanner.ts:168-177 | every exported key is decoded under its ticket, and the log is empty |
| `OfflineScanners.OfflineScanner.Scan` | apps/mobile/services/offlineScanner.ts:185-266 | an awaited scan returns the outcome of the checks in their order, and logs exactly a valid one |
| `OfflineScanners.ScanExact` | apps/mobile/services/offlineScanner.ts:185-266 | a scan admits exactly a payload of a registered ticket that is signed under the ticket key, timely and not in the log; every refusal has exactly its cause |
| `OfflineScanners.UnsignedChangesNothing` | apps/mobile/services/offlineScanner.ts:212-236 | a payload not signed under the key of its ticket leaves the log as it is |
| `OfflineScanners.OfflineScanner.AddPublicKey` | apps/mobile/services/offlineScanner.ts:296-298 | one key changes, the log does not |
| `OfflineScanners.OfflineScanner.ClearScanLog` | apps/mobile/services/offlineScanner.ts:278-280 | the log is empty, the keys stay |
| `OfflineScanners.ScanKeepsFaithful` | apps/mobile/services/offlineScanner.ts:185-266 | a scan keeps the log in step with the outcomes |
| `OfflineScanners.RunFaithful` | apps/mobile/services/offlineScanner.ts:114-298 | over every run of awaited calls a ticket is admitted at most once between clears, the log is exactly the admissions, and a duplicate shows the first record |
| `OfflineScanners.LogJustified` | apps/mobile/services/offlineScanner.ts:114-298 | over every run each record in the log comes from a scan since the last clear, of a payload signed under the key registered at that time and within 75 seconds |
| `OfflineScanners.HonestTicketAdmitted` | apps/mobile/services/offlineScanner.ts:185-266 | from ticket screen to gate: with its exported key registered and the ticket unseen, an honest payload is admitted exactly within 75 seconds of its window |
| `OfflineScanners.AdmitsOnceIff` | apps/mobile/services/offlineScanner.ts:240-258 | scans interleaved at their awaits admit every ticket at most once exactly when no scan of a ticket starts while another has yet to write |
| `OfflineScanners.OverlapAdmitsTwice` | apps/mobile/services/offlineScanner.ts:240-258 | two overlapping scans of one ticket are both admitted |
| `Affiliates.ExecuteKeeps` | server/src/handlers/affiliates.rs:96-191 | one statement keeps both constraints, adds at most the request's own row, and answers from the table |
| `Affiliates.ApplyKeeps` | server/src/handlers/affiliates.rs:96-191 | every step keeps the server consistent, and rows are only added |
| `Affiliates.RunConsistent` | server/src/handlers/affiliates.rs:96-191 | under every interleaving: one row per pair and per code, every answer backed by a row, every conflict by five taken codes, one new registration per pair |
| `Affiliates.AnswersAgree` | server/src/handlers/affiliates.rs:110-191 | successful answers carry one code exactly when they are for one pair, and at most one of them is new |
| `Affiliates.AnswersHaveReasons` | server/src/handlers/affiliates.rs:96-191 | under every interleaving: not found means an unknown event, a conflict five taken codes, a database error a failed statement of that very request, and success a row of the pair with the code |
| `Affiliates.CodesSpelledOut` | server/src/handlers/affiliates.rs:29-44 | codes are ten characters, each a digit or a capital letter other than I, L, O and U |
| `Affiliates.RegistrationIsPermanent` | server/src/handlers/affiliates.rs:72-78 | a registered pair keeps its code whatever happens later, and a lookup finds it |
| `Affiliates.EventAffiliates.constructor` | server/migrations/20260831000001_affiliate_tracking.sql:9-21 | the table starts empty |
| `Affiliates.EventAffiliates.TryInsert` | server/migrations/20260831000001_affiliate_tracking.sql:9-21 | a row is stored exactly when neither its pair nor its code is taken |
| `Affiliates.EventAffiliates.Register` | server/src/handlers/affiliates.rs:96-191 | the request's own loop, uninterrupted, is a run of the interleaved statements |
| `Affiliates.AloneExact` | server/src/handlers/affiliates.rs:96-191 | uninterrupted, a repeated call returns the first code, otherwise the first generated code nobody has is stored; a conflict means exactly five taken codes; nothing else changes the table |
| `WaitingRoom.FindBlankFirst` | apps/mobile/services/waitingRoom.ts:221-221 | the separator found is the first one |
| `WaitingRoom.SplitExact` | apps/mobile/services/waitingRoom.ts:214-238 | frames and rest spell the text, each frame ends at its first blank line, and the rest has none |
| `WaitingRoom.SplitAppend` | apps/mobile/services/waitingRoom.ts:214-238 | text that arrives later is cut after what has been cut already |
| `WaitingRoom.LinesOfJoin` | apps/mobile/services/waitingRoom.ts:225-231 | splitting a frame at its newlines inverts joining |
| `WaitingRoom.DataFrame` | apps/mobile/services/waitingRoom.ts:225-231 | data sent as one or more trimmed data lines reaches the JSON parser as it was sent |
| `WaitingRoom.KeepAlive` | apps/mobile/services/waitingRoom.ts:225-229 | a frame without data lines is no message |
| `WaitingRoom.SpaceIff` | apps/mobile/services/waitingRoom.ts:228-228 | what trimming counts as space is the white space and line ends of ECMAScript |
| `WaitingRoom.TrimExact` | apps/mobile/services/waitingRoom.ts:228-228 | trimming takes away the space at both ends and nothing else |
| `WaitingRoom.Stream.constructor` | apps/mobile/services/waitingRoom.ts:172-175 | nothing read, nothing called |
| `WaitingRoom.Stream.FinishStream` | apps/mobile/services/waitingRoom.ts:177-181 | closing is reported the first time only |
| `WaitingRoom.Stream.HandleMessage` | apps/mobile/services/waitingRoom.ts:183-212 | the calls of every kind of message, in order; a kind that ends the stream also aborts the request and reports closing |
| `WaitingRoom.Stream.ConsumeChunk` | apps/mobile/services/waitingRoom.ts:214-238 | the loop handles exactly the complete frames of buffer and new text, in order, and keeps the rest |
| `WaitingRoom.Stream.Fire` | apps/mobile/services/waitingRoom.ts:240-262 | the handlers of the request and the returned close: after an abort, a completion, an error or a close, no event does anything |
| `WaitingRoom.FramesOfGlue` | apps/mobile/services/waitingRoom.ts:214-238 | cutting a text into frames inverts writing them |
| `WaitingRoom.HandleAll` | apps/mobile/services/waitingRoom.ts:214-238 | what a buffer of frames says: everything up to closing, and then, because the loop goes on, what the frames behind say |
| `WaitingRoom.ChunkingIrrelevant` | apps/mobile/services/waitingRoom.ts:214-242 | however a growing text is cut into progress callbacks, the stream is where one split puts it of the text read up to the first callback that completes an ending frame |
| `WaitingRoom.OpenIff` | apps/mobile/services/waitingRoom.ts:183-242 | however the text is cut, the stream is open exactly as long as no frame it has read is an admission, an error or not-in-queue |
| `WaitingRoom.OpenStreamEnds` | apps/mobile/services/waitingRoom.ts:247-262 | after any events a lost connection is reported and closes an open stream; the close of the caller reports nothing |
| `WaitingRoom.OverIsSilent` | apps/mobile/services/waitingRoom.ts:240-262 | once over, a stream makes no call and changes nothing, whatever follows |
| `WaitingRoom.CallsOfDelivery` | apps/mobile/services/waitingRoom.ts:183-246 | every delivery of a text makes the same calls up to closing, then those of the first n frames behind the ending one, for an n that depends on the cutting |
| `WaitingRoom.SameCallsUpToClose` | apps/mobile/services/waitingRoom.ts:183-246 | all deliveries of a text agree up to and including the one report that the stream is closed |
| `WaitingRoom.SameCallsIff` | apps/mobile/services/waitingRoom.ts:183-246 | all deliveries of a text make the same calls if and only if the frames behind the first ending frame say nothing |
| `WaitingRoom.PositionAfterAdmission` | apps/mobile/services/waitingRoom.ts:194-238 | a position behind an admission is reported if both arrive in one callback and not if they are cut apart |
| `WaitingRoom.CuttingMatters` | apps/mobile/services/waitingRoom.ts:194-238 | the same for two frames written out in full |
| `WaitingRoom.ClosedAtMostOnce` | apps/mobile/services/waitingRoom.ts:177-251 | over every sequence of progress, load, error and close events, closing is reported once if the stream has finished and never before |
| `WaitingRoom.ClosedIsLastIff` | apps/mobile/services/waitingRoom.ts:214-238 | closing is the last call of a buffer that ends the stream exactly when the later frames say nothing |
| `WaitingRoom.SolvesIff` | apps/mobile/services/waitingRoom.ts:128-133 | a nonce works exactly when the hash begins with that many zero digits |
| `WaitingRoom.DigitsExact` | apps/mobile/services/waitingRoom.ts:131-132 | nonces are decimal numerals without a leading zero |
| `WaitingRoom.SolvePow` | apps/mobile/services/waitingRoom.ts:128-138 | the smallest nonce that works, or an error exactly when none below the limit does |
| `Sha256.BitwiseBits` | apps/mobile/utils/sha256.ts:79-113 | a bitwise operator acts bit by bit |
| `Sha256.ShrBits` | apps/mobile/utils/sha256.ts:30-32 | bit i of a right shift is bit i+n |
| `Sha256.ShlBits` | apps/mobile/utils/sha256.ts:30-32 | bit i of a left shift is bit i-n, or zero |
| `Sha256.RotrBits` | apps/mobile/utils/sha256.ts:30-32 | the shift-and-or form is the circular rotation |
| `Sha256.NotBits` | apps/mobile/utils/sha256.ts:100-100 | complement flips every bit |
| `Sha256.ChBits` | apps/mobile/utils/sha256.ts:100-100 | every bit of Ch is chosen by the first word from the other two |
| `Sha256.MajBits` | apps/mobile/utils/sha256.ts:103-103 | every bit of Maj is the one at least two of the three words have |
| `Sha256.BigSigmaBits` | apps/mobile/utils/sha256.ts:99-102 | every bit of the two round functions is the sum of three rotated bits, with the amounts of section 4.1.2 of FIPS 180-4 |
| `Sha256.SmallSigmaBits` | apps/mobile/utils/sha256.ts:84-85 | every bit of the two schedule functions is the sum of two rotated bits and a shifted one |
| `Sha256.RoundEquations` | apps/mobile/utils/sha256.ts:98-113 | one round: two new words modulo 2^32, and the other six move down one place |
| `Sha256.RoundsInOrder` | apps/mobile/utils/sha256.ts:97-113 | the rounds use the constants and the schedule in order |
| `Sha256.ScheduleEquations` | apps/mobile/utils/sha256.ts:80-87 | the schedule starts with the block and continues by the recurrence of section 6.2.2 of FIPS 180-4 |
| `Sha256.BlockEquations` | apps/mobile/utils/sha256.ts:80-82 | a block is read as sixteen big-endian words |
| `Sha256.PlusEquations` | apps/mobile/utils/sha256.ts:115-122 | the hash grows word by word modulo 2^32 |
| `Sha256Constants.FirstPrimes` | apps/mobile/utils/sha256.ts:14-28 | the listed numbers are exactly the primes up to 311, ascending |
| `Sha256Constants.RoundConstants` | apps/mobile/utils/sha256.ts:14-23 | each of the 64 constants is the first 32 bits of the fractional part of the cube root of the prime in its place |
| `Sha256Constants.InitialHash` | apps/mobile/utils/sha256.ts:25-28 | the eight initial words are those of the square roots of the first eight primes |
| `Sha256.OrOfParts` | apps/mobile/utils/sha256.ts:41-55 | the union of disjoint bits is their sum |
| `Sha256.MaskIsMod` | apps/mobile/utils/sha256.ts:41-55 | masking the low bits is a remainder |
| `Sha256.SameBits` | apps/mobile/utils/sha256.ts:30-32 | a number is determined by its bits |
| `Sha256Js.RotrIsRotr` | apps/mobile/utils/sha256.ts:30-32 | on JavaScript numbers, with shift counts modulo 32, it is that rotation for every amount from 0 to 32 |
| `Sha256Js.ScheduleS0` | apps/mobile/utils/sha256.ts:84-84 | the signed result stands for the specified schedule function sigma 0 |
| `Sha256Js.ScheduleS1` | apps/mobile/utils/sha256.ts:85-85 | the signed result stands for the specified schedule function sigma 1 |
| `Sha256Js.Sum1` | apps/mobile/utils/sha256.ts:99-99 | the signed result stands for the specified round function Sigma 1 |
| `Sha256Js.Sum0` | apps/mobile/utils/sha256.ts:102-102 | the signed result stands for the specified round function Sigma 0 |
| `Sha256Js.Choose` | apps/mobile/utils/sha256.ts:100-100 | the signed result stands for Ch of FIPS 180-4 |
| `Sha256Js.Majority` | apps/mobile/utils/sha256.ts:103-103 | the signed result stands for Maj of FIPS 180-4 |
| `Sha256Js.SumOfFour` | apps/mobile/utils/sha256.ts:86-86 | the mixed signed sum is exact and reduces to the specified sum |
| `Sha256Js.SumOfFive` | apps/mobile/utils/sha256.ts:101-101 | the mixed signed sum is exact and reduces to the specified sum |
| `Sha256Js.PaddedLength` | apps/mobile/utils/sha256.ts:67-68 | the padded length is the least multiple of 64 with room for nine more bytes |
| `Sha256Js.PaddingInjective` | apps/mobile/utils/sha256.ts:67-74 | different messages are padded differently |
| `Sha256Js.PaddedContents` | apps/mobile/utils/sha256.ts:67-74 | the message, a byte with its first bit set, zeros, and the length in bits as a 64-bit number |
| `Sha256Js.Pad` | apps/mobile/utils/sha256.ts:64-74 | the buffer filled in place is the padding of section 5.1.1 of FIPS 180-4 |
| `Sha256Js.Expand` | apps/mobile/utils/sha256.ts:80-87 | the reused array holds the message schedule of the block |
| `Sha256Js.RunRounds` | apps/mobile/utils/sha256.ts:89-113 | the eight working variables go through the 64 specified rounds |
| `Sha256Js.Compress` | apps/mobile/utils/sha256.ts:79-122 | one block updates the hash words in place by the specified compression |
| `Sha256Js.BlockStep` | apps/mobile/utils/sha256.ts:76-123 | each further block adds its 64 rounds, over its own schedule, to the hash so far |
| `Sha256Js.HashPadded` | apps/mobile/utils/sha256.ts:76-123 | the block loop computes the specified hash of any number of blocks, from any start and constants |
| `Sha256Js.EncodeOne` | apps/mobile/utils/sha256.ts:41-55 | the four branches with their shifts, masks and ors write the bytes of section 3 of RFC 3629 |
| `Sha256Js.Utf8Encode` | apps/mobile/utils/sha256.ts:38-57 | the loop writes them for every character in turn |
| `Sha256Js.Utf8Injective` | apps/mobile/utils/sha256.ts:38-57 | different texts have different bytes |
| `Sha256Js.FallbackAgreesIff` | apps/mobile/utils/sha256.ts:34-58 | the fallback agrees with the platform encoder exactly on texts without lone surrogates |
| `Sha256Js.PaddedHex` | apps/mobile/utils/sha256.ts:125-128 | printing in base 16 and padding to a width gives exactly the digits of the number |
| `Sha256Js.DigitMeaning` | apps/mobile/utils/sha256.ts:125-128 | hexadecimal digits are the ten digits and the small letters from a to f, by value |
| `Sha256Js.HexOfExact` | apps/mobile/utils/sha256.ts:125-129 | the printed digest has eight digits per word and determines the words |
| `Sha256Js.Sha256Hex` | apps/mobile/utils/sha256.ts:63-130 | the whole function prints the SHA-256 of the UTF-8 bytes, for every text |
| `Ratings.InsertKeeps` | server/src/handlers/events.rs:3177-3210 | row and both aggregates together keep the aggregates exact |
| `Ratings.ApplyKeeps` | server/migrations/20260729000000_add_unique_rating_ticket_id.sql:1-3 | every step of every submission keeps ratings in range, one per ticket, and the aggregates exact |
| `Ratings.AggregatesExact` | server/src/handlers/events.rs:3048-3217 | after every run, with overlapping submissions, refused commits and deleted events, sum and count of every event are those of its rating rows, and no ticket has rated twice |
| `Ratings.RatingsWereChecked` | server/src/handlers/events.rs:3048-3217 | in every run each stored or pending rating is of one to five stars and was submitted by the scanned ticket of that event, while the event was listed and over |
| `Ratings.BeginsIff` | server/src/handlers/events.rs:3048-3175 | a submission is let through exactly when its ticket is entitled to it and has no rating yet |
| `Ratings.RefusalsAreTrue` | server/src/handlers/events.rs:3048-3145 | every refusal is for something that is wrong with the submission |
| `Ratings.EntitledRatingCounts` | server/src/handlers/events.rs:3048-3217 | after any run the first rating of an entitled ticket, of one to five stars, is stored and counted, and changes nothing else |
| `Ratings.RolledBackLeavesNothing` | server/src/handlers/events.rs:3147-3217 | after any run a submission that is rolled back leaves the database as it found it |
| `Ratings.EventsExist` | server/migrations/20260428000003_event_ratings.sql:1-16 | in every run an event has aggregates exactly when it was created and not deleted since |
| `Ratings.RatingsStay` | server/migrations/20260428000003_event_ratings.sql:1-16 | a stored rating stays until its event is deleted |
| `Ratings.TotalBounds` | server/src/handlers/events.rs:3048-3051 | count <= sum <= 5 count |
| `Ratings.Distribution` | server/src/handlers/events.rs:4491-4497 | zeros overwritten by the groups are the counts of all five stars |
| `Ratings.SummarizeRatings` | server/src/handlers/events.rs:4476-4505 | total, mean and distribution are those of the event's rows, the mean of none being zero |
| `Ratings.StarsPartition` | server/src/handlers/events.rs:4476-4501 | the rows of an event split by stars add up to its count and sum |
| `Ratings.SummaryMatchesAggregates` | server/src/handlers/events.rs:4476-4505 | in every run the grouped summary adds up to the two stored aggregates |
| `Checkout.AtMostOneActive` | apps/mobile/hooks/useTicketCheckout.ts:74-139 | over every sequence of actions there are nine steps and at most one is active |
| `Checkout.FailureMarks` | apps/mobile/hooks/useTicketCheckout.ts:102-126 | a failure leaves nothing active, and marks some step exactly when it names one or one is unfinished |
| `Checkout.ReportsClimb` | apps/mobile/services/ticketPaymentContract.ts:491-540 | the reports of a purchase, with any number of polls, start at the first step and advance by at most one |
| `Checkout.ReportsShown` | apps/mobile/services/ticketPaymentContract.ts:491-540 | which of the nine steps each report is shown as, for any number of polls |
| `Checkout.LastReportShows` | apps/mobile/hooks/useTicketCheckout.ts:203-210 | while a purchase reports, the step of the last report is active with its detail, those before are done and those behind pending |
| `Checkout.CheckoutInOrder` | apps/mobile/hooks/useTicketCheckout.ts:191-288 | at every moment before the end the statuses read done, at most one active, pending; exactly when one is active |
| `Checkout.SuccessCompletes` | apps/mobile/hooks/useTicketCheckout.ts:191-288 | a checkout that runs to its end leaves every step done, the receipt set and no error |
| `Checkout.FailureBlames` | apps/mobile/hooks/useTicketCheckout.ts:191-322 | a checkout that fails, wherever it does, leaves nothing active and marks exactly the named step and the step it was at |
| `Checkout.TransactionErrorMarks` | apps/mobile/hooks/useTicketCheckout.ts:307-322 | an error of the approval marks the one step it happened in; the same error of the payment marks its own step and the fourth before it |
| `Checkout.TicketCheckout.constructor` | apps/mobile/hooks/useTicketCheckout.ts:179-189 | idle, nothing in flight |
| `Checkout.HappenKeepsReads` | apps/mobile/hooks/useTicketCheckout.ts:191-290 | a call, a continuation of one or a reset keeps what the list reads |
| `Checkout.InterleavedReads` | apps/mobile/hooks/useTicketCheckout.ts:191-290 | over every interleaving of calls, their continuations and resets: while a call runs unreset, done, at most one active, pending; after a reset blank, or done only from some later step on; at rest blank, complete, or in error with nothing active |
| `Checkout.EndReads` | apps/mobile/hooks/useTicketCheckout.ts:262-287 | a reset does not change how a running call ends: complete with its receipt, or failed with its message and some step marked |
| `Checkout.TicketCheckout.ResetCheckout` | apps/mobile/hooks/useTicketCheckout.ts:290-290 | the list is blank again, and a running call goes on |
| `Checkout.TicketCheckout.ResumeCheckout` | apps/mobile/hooks/useTicketCheckout.ts:195-287 | a running call dispatches its next action; the last one clears the flag |
| `Checkout.TicketCheckout.Checkout` | apps/mobile/hooks/useTicketCheckout.ts:191-288 | a call that nothing interrupts dispatches exactly its actions and clears the flag; made while another runs, it does nothing |
| `Checkout.TicketCheckout.StartCheckout` | apps/mobile/hooks/useTicketCheckout.ts:191-194 | a call while another is in flight changes nothing; otherwise the flag is set and the list restarts |

## Left out

- Input and output: the database, Redis, HTTP, Bluetooth, SecureStore and the
  Soroban RPC appear only as the state or the atomic statement they stand for.
  Clocks, nonces, generated codes, UUIDs and service answers are parameters.
- Ed25519 is an abstract scheme in which a signature verifies under the key of
  its secret; that nobody without the secret can make one is not part of the
  model. The library throws on a public key that is not 32 bytes, which is an
  outcome of its own here.
- Ticket ids are their UTF-8 bytes: decoding malformed bytes or a byte-order
  mark in an id field is not modelled.
- Times are integers; that numbers above 2^53 are rounded is not modelled, nor
  are fractional milliseconds.
- Keys of both replicated sets are an injective function of the value, and a tag
  id is new, as its random UUID makes it.
- LwwElementSets.LwwElementSet.Merge: two distinct sets, as the borrow rules of
  the source demand.
- VectorClocks.VectorClock.Increment: wraps at the 64-bit maximum as in a build
  without overflow checks; a checked build stops there.
- BleMesh.MeshLosesNothing: record ids are unique and the gateway answers only
  with ids of the batch it accepted. The ids join scanner, ticket and time, so
  two scans of one ticket on one scanner in one millisecond would share one.
- KeysetPaging.CollectEvents: an unchanging table, and not the rating-count sort,
  whose cursor is shown wrong separately. Prices are integers. The other filters,
  the total, the cache, `search_events` and an event without end time are not
  modelled.
- Affiliates.RunConsistent: deleting an event with its registrations is not a
  step.
- Ratings.AggregatesExact: each transaction takes effect at its commit; the
  database's integer widths are not modelled, nor is deleting a ticket.
- Ratings.RatingsStay: deleting a ticket is not a step.
- WaitingRoom.Stream.ConsumeChunk: JSON parsing is a parameter; handlers do not
  throw, and do not call back into the stream while it is in its loop.
- WaitingRoom.SolvePow: the hash is a parameter.
- Sha256Js.Sha256Hex: text is a sequence of code points; the platform's own
  encoder is compared in `FallbackAgreesIff`.
- Checkout.TicketCheckout.StartCheckout: labels, receipts and error texts are
  plain strings.
- Base64Url.FromBase64Url: a character is a code point; JavaScript counts UTF-16
  units, so for a text with a character above U+FFFF the padding that decoding
  restores differs.
- Not modelled because they would only add easy members: `getAll` of the scan
  store, `values` of the observed-remove set, pending counts, and the request
  helpers around the modelled code.
- Not modelled: the sync engine, geofencing and map code, pricing, configuration
  and CORS, the in-memory cache, WebSocket backoff, calendar export, the smart
  contracts, user interface, seed data and benchmarks.
