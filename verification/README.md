# A verified model of the `part` toolbox

This project models the stateful components of a Go toolbox and proves what each of them promises, for every input,
every run or every interleaving. Each Dafny module is one component of the repository.

| module | component | main result |
|---|---|---|
| `CacheWriter`, `CacheNumber`, `CacheAccept` | `io.CacheWriter`, any number of writers and flushing goroutines | accepted writes are delivered once, unchanged, in order of their sends; no send and no receive blocks, and everything comes to its end; exactly which bursts of writes are accepted in full |
| `PathTree`, `WebPath` | the routing trie of `web.WebPath`, on values and in memory | it refines a finite map, and the prefix lookup is the longest stored prefix except in one exactly described case |
| `PlaceHolder`, `PlaceHolderNext` | `SqlTx.DoPlaceHolder` | repeated replacement is one simultaneous substitution; binding the arguments, by number or in turn, gives back the named query exactly for clear queries |
| `Resolver`, `ResolverSteps`, `ResolverChain`, `KeyFunc` | `keyFunc.getTrace`, on values and in memory | it ends for every behaviour of the callbacks, within a call budget that is reached, with a trace that replays what happened; every step follows from those before it, and so does the end |
| `BigEndian`, `Mp4Box` | `Itob32`, `Btoi`; `searchBox`, `decode` | a listing without error is exactly a gap-free description of the buffer; decoding inverts serialisation; exactly which buffers it never ends on |
| `Mp4Match`, `Mp4Frag` | `deals` and its two fragment patterns | which calls are made, for all patterns and all callbacks; one call per fragment on a stream |
| `SliceBuf`, `Groups`, `Fmp4`, `Mp4Segment`, `Mp4Cut`, `Mp4Ends` | `slice.Buf`; `Search_stream_fmp4` | a search of a stream cut at any byte emits the complete key frame groups; stopping and resuming at the cursor changes nothing; every way in which a search ends |
| `Copy` | `io.Copy` | every way of normalising keeps the byte budget, exactly unless a product wraps; the limit is obeyed exactly from one buffer on; what each way of ending means |
| `SliceIndex` | `slice.SliceIndexNoLock` | a queue: what was handed out, then what is left, is what was appended |
| `XmlDecoder` | the `xml` decoder and `Node.ToString` | decoding inverts printing exactly for printable nodes, also when stopped and resumed anywhere |
| `SqlTxs`, `SqlStmts` | `SqlTxs.Run` over `SqlTx` and function elements | who is begun, rolled back and committed, which statements are run and which failure is told, for every behaviour of the database and the callbacks |
| `WaitCtx` | `ctx.WithWait`, `ctx.WaitCtx` | `done` returning nil means that all planned children have registered and finished; exactly which answers there are |
| `AddCount`, `AddEnds`, `BelowZero` | `web.Limits.AddCount` | counters are maxima less what is held, come back to them, and get below zero in some run exactly when an item's number of entries does not divide its maximum |
| `Limit`, `LimitAlone` | `limit.Limit` | calls let through are bounded by tokens and periods, and the bound is reached; exactly who is told to be over the limit |
| `BlockSeq`, `BlockN` | `BlockSeqFunc`, `BlockFuncN` | mutual exclusion in order of arrival, everybody gets through; a counting semaphore, what its `BlockAll` gives, and exactly when calls stop each other |

`Util` holds a small shared vocabulary (optional values, counting, regrouping of sequences).

## How the source is modelled

- A component that several goroutines share is a step machine: a `State`, one `Action` per atomic operation or channel
  operation of the source, `Step` (None where a goroutine is blocked) and `Run` over an arbitrary schedule. A statement
  about `Run` is one about every interleaving. Fields marked as history record what happened and never steer a step.
- A mutable object is a class with the source's fields. Each method is proved against a function on values, and the
  properties are proved about that function (`WebPath` against `PathTree`, `KeyFunc` against `Resolver`, `Fmp4Decoder`
  against `SearchOf`, and so on).
- Callbacks, databases, readers and writers are arbitrary: functions of everything that happened before, scripts of
  what each call will do, or one record of behaviour per transaction. A theorem quantifies over all of them.
- Where the source stops the program (a slice bound, a failed wrap of an error, a closed channel closed again) the model
  has an explicit outcome (`Crashed`, `Panic`, `Panicked`) or a precondition naming the demand.

## Where the code does less than its comments say

The model follows the code. Each case has a lemma that describes it exactly or a concrete run that shows it.

- `CacheWriter` counts its writes in 32 bits: where the number of slots is no power of two, writes in a row can get one slot
  when the counter wraps, so that one is refused as busy (`CacheAccept.WrapCollides`; exactly when, in
  `CacheAccept.BusyBurstExactly` and `CacheNumber.SpreadWithin`).
- `LoadPerfix` on a path with a node but without handler, whose directory is stored among later siblings, misses that
  directory, so that the order of two stores decides the answer (`PathTree.PrefixExactly`, `PathTree.OrderMatters`).
- `DoPlaceHolder` with numbered tokens: a digit right behind a holder runs into the number, and a token that the query
  already contained is read as an argument (`PlaceHolder.NumberedRoundTrip`, `PlaceHolder.UnclearPasses`); with `?` a
  holder that occurs twice gets one argument only, and a `?` of the query's own before a holder takes that holder's
  (`PlaceHolderNext.QuestionExactly`).
- `deals` misses an occurrence whose first entry ends a false start (`Mp4Match.MissedAfterFalseStart`, `FiresIff`).
- `decode` never ends once it comes to a skipped box of size zero, and when it resynchronises on a skipped name (`ftyp`)
  also at a box of that name with at most four bytes and an unknown name behind it; on no other buffer
  (`Mp4Box.NeverEndsExactly`, `Mp4Frag.MoofNeverEndsExactly`, `Mp4Frag.FtypNeverEndsExactly`,
  `Mp4Frag.ShortFtypNeverEnds`). It reports an error for a buffer it has resynchronised in (`Mp4Box.ErrorStays`).
- A search of a stream that is cut between the fourth and the seventh byte of the header of a `moof` or `mdat` box reads
  outside the buffer; every other cut is read (`Mp4Cut.CutCrashesExactly`).
- `Btoi` reads a negative 32-bit value back as unsigned (`BigEndian.RoundTrip32`).
- `Buf.Append` does not check the limit on the append that first allocates (`SliceBuf.LimitExactly`).
- `Copy`: a wrapped product loses the limit or part of it (`Copy.BudgetExactly`, `Copy.OverflowUnlimits`), and a limit
  below one buffer does not shorten the first read (`Copy.LimitObeyedExactly`).
- `SliceIndexNoLock` keeps an appended empty range as a range, so that it is not empty without having an element
  (`SliceIndex.EmptyExactly`, `SliceIndex.AppendNothing`).
- `SqlTxs.Run` drops a failed commit of any transaction but the last (`SqlTxs.LostCommit`), panics when an earlier
  rollback fails (`SqlTxs.PanicsExactly`), and leaves a transaction open when a callback fails with one of the three
  errors that stand for a transaction's own end (`SqlTxs.FinishedExactly`).
- `AddCount` with one item listed several times can take its counter below zero: exactly when the number of its entries
  does not divide its maximum (`BelowZero.BelowZeroExactly`).
- `Limit` lets through up to (k + 1) times its maximum within k periods (`Limit.BoundReached`).
- Two `BlockAll` at once can stop each other, and everybody else, for good as soon as the maximum is two or more
  (`BlockN.SticksExactly`, `BlockN.StuckForever`); a semaphore with no room excludes nobody
  (`BlockN.NoRoomExcludesNobody`) and stops every `Block` (`BlockN.NoRoomStuckExactly`).

## Model

| member | source | states |
|---|---|---|
| CacheWriter.ReachableInv | io/io.go:620-653 | in every state any schedule reaches, the invariant holds: owners tell the truth about every slot, `rc` has one holder, every queued index has its goroutine, sends are listed once, slots hold the bytes of the call that filled them; the ring keeps its size |
| CacheWriter.InvRun | io/io.go:627-653 | the invariant survives any schedule, from any state that has it |
| CacheWriter.Delivery | io/io.go:639-653 | the underlying writer has been given exactly the payloads of an initial part of the sends, in order; no call is in the send order twice, and every accepted call is in it |
| CacheWriter.SendsGrow | io/io.go:640-648 | neither the order of sends nor what was delivered is ever revised |
| CacheWriter.BusyExactly | io/io.go:634-651 | a slot is busy if and only if a writer owns it, its index is queued, or it is being flushed |
| CacheWriter.SendNeverBlocks | io/io.go:640 | a writer that reaches the send on `cc` can always send |
| CacheWriter.ReceiveNeverBlocks | io/io.go:643-646 | a goroutine holding `rc` always finds an index in `cc` |
| CacheWriter.Progress | io/io.go:627-653 | no deadlock: every unfinished call can move, and while flushing goroutines remain one of them can |
| CacheWriter.Drained | io/io.go:627-653 | when all has returned, exactly the accepted calls have been delivered, once each, in the order of their sends and unchanged, and every slot is free |
| CacheWriter.Settles | io/io.go:627-653 | from every reachable state, steps of calls and goroutines that have begun, and no others, none of them a failing write, lead to a reachable state in which all has returned |
| CacheWriter.StepsBounded | io/io.go:627-653 | without new calls a run has only so many steps, whatever their order |
| CacheWriter.EndIsQuiescent | io/io.go:627-653 | and where nothing that has begun can go on any more, everything has returned |
| CacheAccept.DoneExactly | io/io.go:648-650 | once everything has returned, the context is done if and only if some underlying write has failed |
| CacheAccept.NeverCancelled | io/io.go:628-632 | while no underlying write fails no call meets the context error, in any interleaving |
| CacheAccept.LaterCancelled | io/io.go:628-632 | once a failed underlying write has been checked, a call that begins later is never sent and can only end with the context error |
| CacheNumber.SpreadWithin | io/io.go:634 | up to as many calls as there are slots get different slots, unless the counter wraps and the number of slots does not divide 2 to the 32 |
| CacheNumber.SpreadFits | io/io.go:634 | more calls than slots never do |
| CacheAccept.BurstNotBusy | io/io.go:634-637 | after everything has returned: of calls that get different slots none is ever refused as busy, in any interleaving and whatever fails |
| CacheAccept.BurstAccepted | io/io.go:627-653 | when they have returned, all of them have been accepted if no underlying write failed, and at least one whatever failed; what was delivered since are the accepted ones, once each and unchanged |
| CacheAccept.BusyBurstExactly | io/io.go:634-637 | some schedule of up to n calls has one refused as busy if and only if two of the next n numbers lead to one slot |
| CacheAccept.WrapCollides | io/io.go:634 | a state that is reached in which, with three slots, the second of two calls can be refused |
| CacheAccept.WriteAccepted | io/io.go:627-653 | one call while nothing else goes on: no schedule makes it busy or cancelled, and when everything has returned it was accepted and its bytes are the next that were delivered |
| CacheAccept.WriteGetsThrough | io/io.go:627-653 | and steps of its own and of its goroutine lead there |
| PathTree.ParseSplits | web/Web.go:305-311 | cutting off the first segment loses nothing; the rest is rooted and shorter, and the path is finished exactly when nothing is left |
| PathTree.ParseJoins | web/Web.go:305-311 | the converse: a segment followed by a rooted rest parses as that segment and that rest |
| PathTree.StoreWellFormed | web/Web.go:346-387 | storing keeps names single segments, siblings distinct and no non-root node without handler, `Same` and `Next` |
| PathTree.DeleteWellFormed | web/Web.go:389-421 | so does deleting, and deleteMe is true exactly when the node has become such a dead node |
| PathTree.LoadStored | web/Web.go:187-205 | after a store, a lookup gives the new handler at that path and what it gave before at every other (also web/Web.go:346-387) |
| PathTree.LoadDeleted | web/Web.go:187-205 | after a delete, a lookup gives nothing at that path and what it gave before at every other (also web/Web.go:389-421) |
| PathTree.RefinesMap | web/Web.go:174-205 | after any sequence of Store, StoreIfNotExist and Delete the trie is well-formed and every lookup is the lookup in the finite map the same operations build (also web/Web.go:313-421) |
| PathTree.PrefixLookup | web/Web.go:247-303 | LoadPerfix gives the exact handler, else that of the longest stored prefix ending in a slash; in the shadowed case exactly the candidate it misses is the path's own directory |
| PathTree.PrefixExactly | web/Web.go:247-303 | after any operations: right when the path is not shadowed, wrong when it is and no handler is stored twice; a path with a handler or a final slash is never shadowed |
| PathTree.OrderMatters | web/Web.go:278-294 | a concrete pair of stores whose order decides what LoadPerfix answers |
| WebPath.WebPath.constructor | web/Web.go:354 | a new node stands for the unused trie and has the back links given (also web/Web.go:381-383) |
| WebPath.WebPath.Load | web/Web.go:174-205 | the lookup in memory is the lookup in the trie the object stands for |
| WebPath.WebPath.LoadPerfix | web/Web.go:252-303 | so is the prefix lookup |
| WebPath.WebPath.StoreHere | web/Web.go:346-387 | in place, by new nodes only, the object comes to stand for the trie after the store; back links stay |
| WebPath.WebPath.Store | web/Web.go:331-344 | the exported store: ignores unrooted paths, deletes for a nil handler, else stores |
| WebPath.WebPath.StoreIfNotExist | web/Web.go:313-329 | the same, leaving a handler that is already there |
| WebPath.WebPath.Delete | web/Web.go:389-421 | in place, the trie after the delete, with deleteMe; no node outside the structure is touched |
| PlaceHolder.SqlFunc.DoPlaceHolder | sql/SqlTx.go:112-161 | the entry's query is the sorted run of replacement passes over it and its arguments are the holders' values in that order; without a query object it is left alone |
| PlaceHolder.HoldersFound | sql/SqlTx.go:126-154 | the sorted entries are exactly those named values whose holder occurs, each once, by first occurrence |
| PlaceHolder.NumberOfDecimal | sql/SqlTx.go:95-101 | the digits of a token read back as its number |
| PlaceHolder.DecimalExactly | sql/SqlTx.go:95-101 | of all digit strings that read as a number its digits are the one without a leading zero |
| PlaceHolder.MarksOfStyles | sql/SqlTx.go:94-101 | the two numbered styles write their mark and the number of the argument, counted from one |
| PlaceHolder.OnePass | sql/SqlTx.go:156-159 | one more replacement pass turns the simultaneous substitution of k holders into that of k + 1 |
| PlaceHolder.PassesAreSubst | sql/SqlTx.go:156-159 | k passes are one simultaneous substitution of k holders |
| PlaceHolder.Substitution | sql/SqlTx.go:121-159 | the whole run is one simultaneous substitution, for any style whose tokens start with a mark and contain no opening brace |
| PlaceHolder.MeaningFromHolders | sql/SqlTx.go:126-149 | leaving out the names that do not occur does not change what the named query means |
| PlaceHolder.BindExactly | sql/SqlTx.go:94-101 | reading numbered tokens as arguments gives back the named query if and only if no holder is followed by a digit and no such token was there before (also sql/SqlTx.go:156-159) |
| PlaceHolder.NumberedRoundTrip | sql/SqlTx.go:94-101 | the same for what DoPlaceHolder produces from the caller's query and values, for any multiplicity of holders (also sql/SqlTx.go:112-161) |
| PlaceHolder.UnclearPasses | sql/SqlTx.go:95-97 | a concrete query whose holder is followed by a digit, and the token that comes out (also sql/SqlTx.go:156-158) |
| PlaceHolder.UnclearExample | sql/SqlTx.go:95-97 | that query is not a clear one (also sql/SqlTx.go:156-158) |
| PlaceHolderNext.BindNextExactly | sql/SqlTx.go:90-93 | reading bare tokens in turn from any place of the scan on is right when the holders come in turn and no `?` of the query's own is met while arguments are left, and for distinct values only then (also sql/SqlTx.go:156-159) |
| PlaceHolderNext.ClearExactly | sql/SqlTx.go:139-154 | that is: no holder occurs at two places, and no `?` of the query's own stands before the first occurrence of a holder |
| PlaceHolderNext.QuestionRoundTrip | sql/SqlTx.go:90-93 | for such a query, taking the arguments DoPlaceHolder produces in turn gives back the named query, for any values (also sql/SqlTx.go:112-161) |
| PlaceHolderNext.QuestionExactly | sql/SqlTx.go:90-93 | and, for distinct values, for no other query (also sql/SqlTx.go:112-161) |
| Resolver.EnteredOnce | keyFunc/keyFunc.go:143-151 | the keys getTrace is called for, in order, are pairwise different, none was in the trace before, and each is in the trace afterwards or is the unregistered one |
| Resolver.CallBound | keyFunc/keyFunc.go:128-170 | from any trace, the calls made are at most the methods of the newly entered keys plus one retry for each but the first |
| Resolver.TotalBound | keyFunc/keyFunc.go:124-170 | from an empty trace, at most all registered methods plus the number of keys less one |
| ResolverChain.BudgetReached | keyFunc/keyFunc.go:128-170 | for every n there are n keys and callbacks for which exactly that many calls are made |
| Resolver.ResolveReplays | keyFunc/keyFunc.go:133-161 | the trace has one node per call, in order, with the error reported or put in its place |
| Resolver.ResolveInOrder | keyFunc/keyFunc.go:132-168 | per key, methods are called from the first on, repeating the last one or going on to the next; which of the two, and when neither, is in ResolverSteps.HistoryExactly |
| Resolver.TraceFacts | keyFunc/keyFunc.go:124-170 | the three together for one run of GetTrace, whatever the callbacks answer |
| Resolver.NilMeansChecked | keyFunc/keyFunc.go:157-158 | a result without error means that the last thing that happened was the check of this key saying yes |
| ResolverSteps.HistoryExactly | keyFunc/keyFunc.go:128-170 | from first to last, each call and check follows from those before it: a missed key is obtained from its first method on, then the call that missed it is made again; a value is checked; an ErrNextMethod or a check that says no leads to the next method, of this key or of one that waits for it; and the last event is one there is no going on from and makes the error given back |
| ResolverSteps.FatalIsLast | keyFunc/keyFunc.go:164-166 | an error that is no ErrNextMethod and comes without a missed key is the last event and the error given back |
| ResolverSteps.AllMethodsTried | keyFunc/keyFunc.go:132-168 | a run that ends with ErrNextMethod, or with the asked-for key's check saying no, has called the last method of that key |
| ResolverSteps.LaterMethodWorks | keyFunc/keyFunc.go:157-163 | a key whose first m methods ask for the next one and whose next gives a value that is accepted is obtained in m + 1 calls, one of each, without error |
| KeyFunc.Node.constructor | keyFunc/keyFunc.go:63-71 | a node with its key, method and error, linked to nothing |
| KeyFunc.Node.First | keyFunc/keyFunc.go:73-79 | from any node of a list, its first |
| KeyFunc.Node.Last | keyFunc/keyFunc.go:81-87 | from any node of a list, its last |
| KeyFunc.Node.Asc | keyFunc/keyFunc.go:103-111 | from any node of a list, all its nodes in order |
| KeyFunc.Node.Desc | keyFunc/keyFunc.go:113-121 | from any node of a list, all its nodes backwards |
| KeyFunc.KeyFunc.GetTrace | keyFunc/keyFunc.go:124-126 | the nodes built are a doubly linked list holding the trace of the specification, the result carries its error, and the callbacks were asked exactly what it says |
| KeyFunc.KeyFunc.getTrace | keyFunc/keyFunc.go:128-170 | the same behind any list built so far, whose nodes stay where they are |
| KeyFunc.KeyFunc.Methods | keyFunc/keyFunc.go:132-168 | the loop over the methods, which ends because each retry has entered a key |
| KeyFunc.KeyFunc.Round | keyFunc/keyFunc.go:133-166 | one turn of that loop: a node, a call, the key it misses or the check, and how it goes on |
| BigEndian.Itob32 | decoder/tool/B_I.go:23-31 | the big-endian digits of the value modulo 2 to the 32 |
| BigEndian.Btoi | decoder/tool/B_I.go:41-58 | the value of the bytes there are, zeros standing for missing ones, as a signed 64-bit number |
| BigEndian.CombineIsValue | decoder/tool/B_I.go:56-57 | shifting and combining eight bytes gives their positional value |
| BigEndian.ValueOfDigits | decoder/tool/B_I.go:23-58 | k digits of a number below 256 to the k have its value |
| BigEndian.DigitsOfValue | decoder/tool/B_I.go:23-58 | k bytes are the k digits of their value |
| BigEndian.RoundTrip32 | decoder/tool/B_I.go:23-58 | Btoi inverts Itob32 anywhere in a buffer if and only if the value is not negative |
| BigEndian.RoundTrip64 | decoder/tool/B_I.go:41-58 | with all eight bytes Btoi reads back every 64-bit value, negative ones included (also decoder/tool/B_I.go:9-21) |
| Mp4Box.Index | decoder/mp4/main.go:456 | the first occurrence of the resynchronisation name, or none |
| Mp4Box.Decode | decoder/mp4/main.go:443-494 | the loop computes the walk of the specification, for as many turns as it is given |
| Mp4Box.WalkSound | decoder/mp4/main.go:443-494 | a listing without error describes the buffer without a gap, entry by entry, up to where the walk stops |
| Mp4Box.WalkFollows | decoder/mp4/main.go:446-470 | a gap-free description is walked in as many turns as it has boxes |
| Mp4Box.DecodeExact | decoder/mp4/main.go:443-494 | decode gives a listing without error if and only if it describes the buffer |
| Mp4Box.ErrorStays | decoder/mp4/main.go:455-462 | after an unknown box the call ends with an error, also when it resynchronised |
| Mp4Box.ListingFrom | decoder/mp4/main.go:446-472 | with an error or without, the listing is a gap-free path from the start or from the place last resynchronised on, and the error tells that no box was listed, which unknown name was met, or that behind it there was nothing to resynchronise on |
| Mp4Box.ForestPath | decoder/mp4/main.go:479-494 | serialised boxes, wherever they stand in a buffer, are walked in pre-order, a container before its children |
| Mp4Box.DecodeInvertsSer | decoder/mp4/main.go:443-494 | decoding a serialised forest gives its boxes in pre-order with their first and last bytes, without error |
| Mp4Box.PreAdvances | decoder/mp4/main.go:488-492 | the entries of that listing start in strictly increasing order, inside the bytes written |
| Mp4Box.TrapNeverEnds | decoder/mp4/main.go:446-470 | at a skipped box of size zero, or at a short skipped box of the name to resynchronise on with an unknown name behind it, no number of turns is enough (also decoder/mp4/main.go:488-489) |
| Mp4Box.UnfinishedIsTrapped | decoder/mp4/main.go:446-470 | a walk that is not over after three turns for every byte ahead comes to such a place |
| Mp4Box.NeverEndsExactly | decoder/mp4/main.go:446-470 | decode never ends if and only if its walk comes to such a place, and that shows within three turns a byte; for any known name to resynchronise on that is descended into or that no known name can overlap |
| Mp4Box.ContainerTrap | decoder/mp4/main.go:488-492 | with a name to resynchronise on that is descended into, only a skipped box of size zero is such a place |
| Mp4Match.Unmatched | decoder/mp4/main.go:417-420 | an entry counts for an active pattern as if that pattern were alone (also decoder/mp4/main.go:430-432) |
| Mp4Match.DealEntry | decoder/mp4/main.go:416-433 | one entry against all active patterns, the three slices staying aligned when a pattern is dropped |
| Mp4Match.Deals | decoder/mp4/main.go:410-436 | the calls and the error are those of matching every pattern on its own, in order |
| Mp4Match.FiresIff | decoder/mp4/main.go:417-432 | a pattern fires at an entry if and only if an occurrence ends there and nothing of it was matched before that occurrence |
| Mp4Match.MissedAfterFalseStart | decoder/mp4/main.go:430-432 | an occurrence that begins with the entry ending a false start is missed |
| Mp4Match.WindowsApart | decoder/mp4/main.go:418-421 | windows of one pattern do not overlap |
| Mp4Match.DealsExactly | decoder/mp4/main.go:410-436 | whatever the callbacks answer: every call is a firing with its window, calls come in order, a dropped pattern is not called again, every firing of a pattern not dropped before is called, and the run stops at the first error |
| Mp4Match.WindowsExactly | decoder/mp4/main.go:421 | every window has its pattern's names and its place in the listing; of two windows of one pattern the later starts after the earlier ends |
| Mp4Frag.SyncNames | decoder/mp4/main.go:16-38 | of the two names the repository resynchronises on moof is descended into and ftyp overlaps no known name (also decoder/mp4/main.go:93, decoder/mp4/main.go:246) |
| Mp4Frag.MoofNeverEndsExactly | decoder/mp4/main.go:246 | the listing of fragments never ends if and only if it comes to a skipped box of size zero (also decoder/mp4/main.go:446-470) |
| Mp4Frag.FtypNeverEndsExactly | decoder/mp4/main.go:93 | the listing of an initialisation segment never ends if and only if it comes to one of the two places (also decoder/mp4/main.go:446-470) |
| Mp4Frag.ShortFtypNeverEnds | decoder/mp4/main.go:93 | twelve bytes on which it never ends although no size is zero (also decoder/mp4/main.go:455-458) |
| Mp4Frag.ShapeFires | decoder/mp4/main.go:251-254 | within a fragment of either shape exactly its own pattern fires, at its last entry, and both patterns are then back at their beginning (also decoder/mp4/main.go:417-432) |
| Mp4Frag.OneCallPerFragment | decoder/mp4/main.go:251-254 | over fragments of the two shapes, and any entries behind them that complete neither pattern, there is one call per fragment, in order, up to the first that fails (also decoder/mp4/main.go:410-436) |
| Mp4Frag.StreamSer | decoder/mp4/main.go:16-38 | a stream of proper fragments is a well-formed forest under the table of boxes, whose bytes are the fragments' bytes |
| Mp4Frag.FragEntries | decoder/mp4/main.go:251-254 | a fragment's entries have the names of its shape; its first byte, its end and its trun boxes are where the callbacks look for them (also decoder/mp4/main.go:288-301) |
| Mp4Frag.FragFlags | decoder/mp4/main.go:258 | the byte tested for a key frame is inside the buffer and is the flag byte of that track (also decoder/mp4/main.go:309) |
| Mp4Frag.StreamShapes | decoder/mp4/main.go:246-254 | the listing of a stream is fragments of their shapes, one after the other, whatever is listed behind it |
| Mp4Frag.StreamListing | decoder/mp4/main.go:246-254 | the windows of the calls are the fragments' own entries |
| Groups.GroupsPartition | decoder/mp4/main.go:287-304 | complete groups and pending group together are everything from the first key frame on; pending begins at the cursor |
| Groups.SnocKey | decoder/mp4/main.go:288-303 | a key frame closes the pending group and opens a new one at its first byte |
| Groups.SnocJoins | decoder/mp4/main.go:300-304 | any other fragment joins the pending group |
| Groups.SnocSkips | decoder/mp4/main.go:297-299 | before the first key frame a fragment is passed over, cursor included |
| Groups.Resume | decoder/mp4/main.go:287-304 | going on from the cursor after any beginning emits in all what one go emits, with the same cursor and pending group |
| SliceBuf.Buf.constructor | slice/Slice.go:30-37 | an empty buffer without memory, with its limit |
| SliceBuf.Buf.Append | slice/Slice.go:104-114 | content grows by the data and the counter by one, unless memory is there and the limit would be exceeded |
| SliceBuf.Buf.AppendTo | slice/Slice.go:80-82 | the same for the other buffer, also when it is the same one |
| SliceBuf.Buf.Reset | slice/Slice.go:75-78 | no content, counter up, memory kept |
| SliceBuf.Buf.Clear | slice/Slice.go:39-43 | no content, counter up, no memory |
| SliceBuf.Buf.IsEmpty | slice/Slice.go:71-73 | whether there is content |
| SliceBuf.Buf.HadModified | slice/Slice.go:193-200 | whether the counter has moved, and whether the snapshot is of this buffer |
| SliceBuf.LimitExactly | slice/Slice.go:104-114 | content is within the limit at every moment of a run of operations if and only if no append to a buffer without memory exceeds it |
| SliceBuf.UnmodifiedMeansUnchanged | slice/Slice.go:187-200 | the counter never goes back, and if it has not moved nothing has changed |
| Fmp4.Fmp4Decoder.OnFragmentOf | decoder/mp4/main.go:256-306 | one fragment callback does to the captured variables and both buffers what the specification says, errors and a read outside the buffer included (also decoder/mp4/main.go:307-402) |
| Fmp4.Fmp4Decoder.Fragments | decoder/mp4/main.go:155-160 | the calls one after the other up to the first error, and what the deferred function does then (also decoder/mp4/main.go:251-403) |
| Fmp4.Fmp4Decoder.SearchStreamFmp4 | decoder/mp4/main.go:145-160 | the search with its two early errors, the listing error, the fragments and both buffers (also decoder/mp4/main.go:246-404) |
| Fmp4.FoldStops | decoder/mp4/main.go:421-422 | once a fragment has ended the search nothing after it counts |
| Mp4Segment.DecodeChunk | decoder/mp4/main.go:246-249 | a chunk of fragments and a rest that completes no pattern is listed as its fragments' boxes and the boxes of that rest (also decoder/mp4/main.go:443-494) |
| Mp4Segment.ChunkCalls | decoder/mp4/main.go:251-254 | the calls made on it are the fragments' own, all or up to one that fails; the rest causes none |
| Mp4Segment.SegmentFold | decoder/mp4/main.go:287-304 | as long as there is no error, the captured variables and buffers are the groups of the fragments so far (also decoder/mp4/main.go:383-400) |
| Mp4Segment.Segmentation | decoder/mp4/main.go:145-404 | a successful search has emitted exactly the complete groups, keeps the last one, and returns where it begins |
| Mp4Segment.SegmentationCovers | decoder/mp4/main.go:145-404 | key frame buffer and pending buffer are all fragments from the first key frame on, and what lies between the cursor and the end of the fragments is the pending buffer |
| Mp4Segment.Succeeds | decoder/mp4/main.go:145-404 | with passing checks and no size limit a chunk in which any box is listed is searched without error |
| Mp4Segment.ResumedSearch | decoder/mp4/main.go:145-404 | a successful search of a beginning and one resumed at its cursor emit together what one search of everything emits; cursors add up, and the same group is left pending |
| Mp4Cut.CutWalk | decoder/mp4/main.go:446-470 | the first n bytes of a fragment, for every n: which of its boxes are listed, that they complete no pattern, and whether the walk then stops or reads outside the buffer |
| Mp4Cut.CutIsChunk | decoder/mp4/main.go:443-494 | a stream cut at any byte but inside the name of a moof or mdat header is a chunk of its whole fragments |
| Mp4Cut.CutCrashesExactly | decoder/mp4/main.go:480-482 | listing a stream cut at a byte reads outside the buffer if and only if the cut leaves four to seven bytes of a moof or mdat header |
| Mp4Cut.CutSegmentation | decoder/mp4/main.go:145-404 | a successful search of a stream cut at any byte has emitted exactly the complete groups of its whole fragments, keeps the last one, and returns where it begins |
| Mp4Cut.CutCovers | decoder/mp4/main.go:145-404 | both buffers together are its whole fragments from the first key frame on; the cursor is not behind them, and what lies between is the pending buffer |
| Mp4Cut.SucceededReads | decoder/mp4/main.go:145-404 | a search succeeds only if the cut is readable and shows a box, or at most three bytes are there |
| Mp4Cut.CutSucceeds | decoder/mp4/main.go:145-404 | every such cut is searched without error, with passing checks and no size limit |
| Mp4Cut.CutResumed | decoder/mp4/main.go:145-404 | for any two cuts: a successful search up to the first, and one from its cursor up to the second, emit together what one search up to the second emits; cursors add up, and the same group is left pending |
| Mp4Ends.SearchExactly | decoder/mp4/main.go:145-404 | every search of a chunk ends at the first fragment that does not let it go on: the program stops if its check reads outside the buffer; a refusal or a group that does not fit gives its error, cursor zero, an empty key frame buffer and the groups before it pending, or nothing where the refusal throws them away; without such a fragment it succeeds |
| Mp4Ends.ErrorLeavesNothing | decoder/mp4/main.go:145-160 | any error but the two early ones leaves a cursor of zero and an empty key frame buffer; the early ones leave both buffers alone |
| Mp4Ends.EarlyExactly | decoder/mp4/main.go:145-151 | which calls get which of the two early errors |
| Mp4Ends.SuccessMeansPassed | decoder/mp4/main.go:251-404 | a search succeeds only if every fragment of the chunk passed its check |
| Copy.Normalise | io/io.go:377-461 | the nine branches come to one rule: chunks of the buffer size for the limit in 64-bit arithmetic |
| Copy.NormaliseDefault | io/io.go:384-403 | that rule for its three branches without bytes per loop |
| Copy.NormaliseLarge | io/io.go:404-434 | that rule for its three branches with more bytes per loop than the default chunk |
| Copy.NormaliseSmall | io/io.go:435-461 | that rule for its three branches with at most that many |
| Copy.BudgetExactly | io/io.go:371 | the chunks add up to the configured limit if and only if no product loses bits that matter (also io/io.go:377-461) |
| Copy.OverflowUnlimits | io/io.go:371 | a configuration whose product wraps to zero is left without any limit (also io/io.go:453) |
| Copy.CopyAll | io/io.go:471-513 | the loop does to any reader and any writer what the specification's run does, and ends the same way |
| Copy.CopiesPrefix | io/io.go:473-512 | what is written is an initial part of the input, in order; unless a write failed all that was read has been written |
| Copy.EndsExactly | io/io.go:471-513 | a copy ends with a read or a write error if and only if a read or a write failed, and then at once; with ErrLoopMax only when as many turns as loops were made; and with nil only when all of the input has been written |
| Copy.WithinRoom | io/io.go:500-507 | with loops counted, no reader and writer get more bytes through than the loops have room for |
| Copy.LimitObeyedExactly | io/io.go:377-512 | the limit holds for all readers and writers if and only if it is at least one buffer |
| Copy.FillingCopies | io/io.go:473-512 | where reads fill the buffer, exactly what there is room for is copied, and the end is ErrLoopMax exactly when the last loop was reached |
| Copy.CopyFilling | io/io.go:377-512 | from a configuration: exactly the smaller of input and limit, or all of the input without a limit |
| SliceIndex.SliceIndexNoLock.Append | slice/SliceIndex.go:174-185 | the queue grows by exactly the elements of the range, whether a range is extended or added; a range with elements adds no empty range |
| SliceIndex.SliceIndexNoLock.Size | slice/SliceIndex.go:197-202 | the number of elements left |
| SliceIndex.SliceIndexNoLock.IsEmpty | slice/SliceIndex.go:259-261 | whether no range is left |
| SliceIndex.SliceIndexNoLock.Reset | slice/SliceIndex.go:207-211 | an empty queue |
| SliceIndex.SliceIndexNoLock.Iter | slice/SliceIndex.go:212-224 | visits the elements left in order, all of them or up to where the visitor stops |
| SliceIndex.SliceIndexNoLock.Read | slice/SliceIndex.go:238-258 | hands out the first elements, as many as fit or are left, reports the end exactly when no range is left, leaves the rest of the target alone, and brings in no empty range |
| SliceIndex.SliceIndexNoLock.WriteTo | slice/SliceIndex.go:291-309 | what the writer took, also when it failed, is handed out and nothing else; without failure nothing is left; no empty range comes in |
| SliceIndex.TakeFirst | slice/SliceIndex.go:243-250 | taking n elements from the first range takes the first n of the queue (also slice/SliceIndex.go:297-301) |
| SliceIndex.Extended | slice/SliceIndex.go:175-179 | extending the last range appends the elements from its old end on |
| SliceIndex.EmptyExactly | slice/SliceIndex.go:259-261 | that no range is left means that no element is left, if and only if there is no range or some range has an element; so it does wherever every range has one |
| SliceIndex.ElementsExactly | slice/SliceIndex.go:197-202 | there are elements left if and only if some range is not empty |
| SliceIndex.AppendNothing | slice/SliceIndex.go:180-181 | an empty range appended to an empty queue: it then says that it is not empty, and has no element |
| XmlDecoder.Decoder.constructor | xml/decoder.go:46-47 | a decoder before the first bracket |
| XmlDecoder.Decoder.Range | xml/decoder.go:48-95 | the nodes given now, and those still to come from where the decoder is left, are those to come from where it was; it stops only for the caller, the end or a failed read |
| XmlDecoder.DecodedInPieces | xml/decoder.go:46-95 | an input may come in any pieces |
| XmlDecoder.NodeRead | xml/decoder.go:33-44 | a printable node is read back once the next bracket comes (also xml/decoder.go:52-87) |
| XmlDecoder.NodeLost | xml/decoder.go:33-44 | any other node is not: the first node read differs from it (also xml/decoder.go:52-87) |
| XmlDecoder.DecodeInvertsPrint | xml/decoder.go:27-95 | decoding a bracket-free prefix, printed nodes and a final bracket gives back the nodes if and only if all are printable |
| SqlTxs.Tx.Do | sql/SqlTx.go:198-257 | begins the transaction and runs its statements up to the first failure, whose kind the error tells (also sql/SqlTxs.go:13-15) |
| SqlTxs.Tx.RunStmts | sql/SqlTx.go:210-254 | the loop over the statements |
| SqlTxs.Tx.CommitOrRollback | sql/SqlTx.go:259-279 | what is committed or rolled back, the error that comes out, and the transaction finished for good (also sql/SqlTxs.go:17-19, sql/SqlTxErr.go:64-91) |
| SqlTxs.SqlTxs.AddTx | sql/SqlTxs.go:41-49 | the list grows by this element at its end, whatever it is; a list ready to run stays so when the element is new and unused |
| SqlTxs.SqlTxs.DoAll | sql/SqlTxs.go:54-58 | the elements do their part in order up to the first error |
| SqlTxs.SqlTxs.FinishAll | sql/SqlTxs.go:63-69 | the elements before the stopping one are finished, last first |
| SqlTxs.SqlTxs.Run | sql/SqlTxs.go:53-71 | the whole run, its log of database and callback events, its index and error, or its panic |
| SqlTxs.OwnErrorNeverPanics | sql/SqlTxs.go:59 | finishing an element with its own error never panics |
| SqlTxs.PerTransaction | sql/SqlTxs.go:53-71 | in a run without panic each element up to the stopping one does its part and is then finished; the others do nothing |
| SqlTxs.FinishedExactly | sql/SqlTxs.go:53-71 | each transaction begun is finished exactly once and no other is, except the stopping one after an error that stands for a transaction's own end (also sql/SqlTx.go:262) |
| SqlTxs.ErrorUndoesAll | sql/SqlTxs.go:59-66 | an error is the stopping element's; every transaction begun before it is rolled back and not committed, and none after it is begun |
| SqlTxs.NilCommitsAll | sql/SqlTxs.go:59-68 | no error means that all did their part and each was finished by a commit, the last one's with success |
| SqlTxs.NilAllCommittedExactly | sql/SqlTxs.go:59-68 | a run without error has committed everything if and only if no commit failed |
| SqlTxs.LostCommit | sql/SqlTxs.go:67 | two transactions of which the first fails to commit: no error is returned |
| SqlTxs.PanicsExactly | sql/SqlTxs.go:64-65 | a run panics if and only if it has an error and a rollback before the stopping element fails (also sql/SqlTx.go:263-265) |
| SqlTxs.BeginsInOrder | sql/SqlTxs.go:55-58 | transactions begin in the order of the list, up to the stopping one |
| SqlStmts.RanExactly | sql/SqlTx.go:210-254 | a transaction runs its statements with SQL up to the first that is wrong, once each and in order, and that one exactly if it got as far as the database; only the stopping transaction, in a run with an error, has a wrong one |
| SqlStmts.NilRanAll | sql/SqlTx.go:210-254 | a run without error has run every statement with SQL of every transaction, and nothing was wrong with any |
| SqlStmts.PartErrorExactly | sql/SqlTx.go:203-254 | a transaction's part fails if and only if its begin or a statement does, with the kind and cause of the first thing that is wrong |
| SqlStmts.SettledExactly | sql/SqlTx.go:262 | such an error stands for the transaction's own end if and only if its begin failed or its cause is one of the sentinels |
| SqlStmts.ErrorTells | sql/SqlTxs.go:53-71 | the error of a run is what begin, first wrong statement or commit of the stopping transaction gave, with the failure of its own rollback around it |
| WaitCtx.RunKeeps | ctx/Ctx.go:40-109 | the invariant over counters and calls of done survives any interleaving |
| WaitCtx.CountersHold | ctx/Ctx.go:42-43 | at any moment actualC is the number of children begun and not finished, and planC the plan less the completed registrations (also ctx/Ctx.go:62, ctx/Ctx.go:100-106) |
| WaitCtx.NilMeansFinished | ctx/Ctx.go:54-84 | done returned nil: the children begun before it found actualC at zero are at least as many as planned, and all have finished |
| WaitCtx.AnswersMean | ctx/Ctx.go:55-58 | who is told that done was called before, that there is nothing to wait for, or that time is up; one call at most is the first (also ctx/Ctx.go:64-82) |
| WaitCtx.NothingWaitExactly | ctx/Ctx.go:64-66 | done answers that there is nothing to wait for if and only if nothing was planned and no child has completed its registration |
| WaitCtx.GetsThrough | ctx/Ctx.go:68-83 | once enough children have registered and all have finished, a waiting done gets through |
| WaitCtx.AnswersExactly | ctx/Ctx.go:54-84 | while the children stay as they are a call of done can give exactly the answers that its place among the calls, the plan, the children and the time limit allow, and waits for ever where there is none |
| WaitCtx.KidsFinish | ctx/Ctx.go:99-107 | the children that have begun can all complete their registration and finish, which brings actualC to zero |
| WaitCtx.PlanFirstMisses | ctx/Ctx.go:42-43 | with the two counters changed in the other order there is a run in which done returns nil although the planned child has not finished (also ctx/Ctx.go:100-101) |
| AddCount.RunKeeps | web/Web.go:458-516 | the invariant survives any interleaving of arriving requests, their steps under and outside the lock, and their release |
| AddCount.AvailableIs | web/Web.go:496-511 | each counter is its maximum less what requests have taken and not given back, also in the middle of taking and giving (also web/Web.go:534-538) |
| AddCount.HeldBy | web/Web.go:466-514 | a request that is refused, finished or still checking holds nothing; an admitted one holds one of every matching item and of no other |
| AddCount.RefusedExactly | web/Web.go:478-495 | over any run: at the moment a request is decided it is refused if and only if of some item it matches as many are taken as its maximum, and the decision changes no counter |
| AddCount.HolderMoves | web/Web.go:488-511 | whoever holds the lock can go on |
| AddEnds.StepsBounded | web/Web.go:458-516 | without new requests a run has only so many steps, whatever their order |
| AddEnds.SomebodyMoves | web/Web.go:487-511 | unless all requests are finished one of them can go on |
| AddEnds.AllReturned | web/Web.go:502-513 | when none can, every request is finished, the lock is free and every counter is back at its maximum |
| BelowZero.NeverBelowZero | web/Web.go:487-501 | with distinct items no counter goes below zero, and no more is taken of an item than its maximum |
| BelowZero.CapacityRespected | web/Web.go:458-516 | with distinct items never more requests are admitted at a time than an item they match allows |
| BelowZero.NotBelowZero | web/Web.go:487-511 | if every request takes u of an item or nothing, and u divides its maximum, no run takes its counter below zero |
| BelowZero.BelowZeroExactly | web/Web.go:466-501 | where entries of one item match alike, some run takes its counter below zero if and only if it has entries and their number does not divide its maximum |
| BelowZero.BelowZeroAnyExactly | web/Web.go:466-501 | for requests that match entries in any way, if and only if an item with a positive maximum is listed more than once |
| Limit.RunKeeps | limit/Limit.go:47-117 | over any run the bucket, the refill in progress, the ticks and the calls let through stay in the relation of the bound |
| Limit.GrantsBounded | limit/Limit.go:47-83 | over any stretch in which the limit is live, calls let through are at most the tokens at its start, those left in a refill under way, and the maximum per period that ends in it (also limit/Limit.go:91-117) |
| Limit.GrantsFromCreation | limit/Limit.go:25-117 | from the creation on, at most the maximum for every period begun |
| Limit.BoundReached | limit/Limit.go:64-82 | for any number of periods there is a run that reaches this bound |
| Limit.BucketAndSteady | limit/Limit.go:27 | the bucket never holds more than the maximum; with a period of zero nobody is told to be over the limit (also limit/Limit.go:56-63, limit/Limit.go:99-101) |
| Limit.ClosedLetsThrough | limit/Limit.go:54 | after the close every waiting call can go, and none is turned away without waiting (also limit/Limit.go:99-116) |
| LimitAlone.AnswersExactly | limit/Limit.go:85-117 | while nothing else moves: a dead limit lets everybody through, a live one whom it has a token for; and over the limit is told who has a time to wait, or does not wait and finds nothing, unless the period is zero; there is no other answer |
| LimitAlone.RefillFills | limit/Limit.go:64-82 | with no calls in between the bucket is full when the goroutine waits for the next period again |
| LimitAlone.FillerGoesOn | limit/Limit.go:70-81 | in the middle of a refill the goroutine can always go on and comes nearer to its end |
| LimitAlone.CloseEnds | limit/Limit.go:50-81 | after the close it can close the bucket wherever it is, or one step later |
| BlockSeq.MutualExclusion | funcCtrl/FuncCtrl.go:112-126 | at most one call at a time is between the return of Block and its done |
| BlockSeq.EntersInOrder | funcCtrl/FuncCtrl.go:120-122 | calls enter in the order of their Swap |
| BlockSeq.NextGetsThrough | funcCtrl/FuncCtrl.go:120-126 | with nobody inside, the next in that order gets through |
| BlockSeq.StepsBounded | funcCtrl/FuncCtrl.go:112-126 | without new calls a run has only so many steps |
| BlockSeq.SomebodyGoes | funcCtrl/FuncCtrl.go:120-126 | unless all calls have left one of them can go on |
| BlockSeq.AllGetThrough | funcCtrl/FuncCtrl.go:120-126 | when none can, every call has been inside, in the order of the Swaps, and has left |
| BlockN.TokensAreHeld | funcCtrl/FuncCtrl.go:81-105 | in every interleaving the tokens in the channel are exactly those held, and no more than it has room for |
| BlockN.AllExcludes | funcCtrl/FuncCtrl.go:96-105 | while a BlockAll has completed nobody else holds a token or has completed either |
| BlockN.NoRoomExcludesNobody | funcCtrl/FuncCtrl.go:85-105 | with a maximum of zero two BlockAll complete at once |
| BlockN.CanGoExactly | funcCtrl/FuncCtrl.go:89-105 | a call can go on if and only if it has not finished and there is room or it does not wait for room: whoever has returned can release |
| BlockN.StuckExactly | funcCtrl/FuncCtrl.go:89-105 | nobody can go on if and only if the channel is full and every unfinished call waits for room |
| BlockN.StepsBounded | funcCtrl/FuncCtrl.go:89-105 | without new calls a run has only so many steps |
| BlockN.EndsOrSticks | funcCtrl/FuncCtrl.go:89-105 | when nobody can go on, they are stuck, or everybody has finished and the channel is empty |
| BlockN.StuckNeedsTwo | funcCtrl/FuncCtrl.go:96-99 | with any room, that takes a maximum of two or more and two BlockAll that each hold some of the tokens |
| BlockN.SticksExactly | funcCtrl/FuncCtrl.go:89-105 | with any room, some run with k calls of BlockAll gets stuck if and only if the maximum is two or more and so is k |
| BlockN.NoRoomStuckExactly | funcCtrl/FuncCtrl.go:89-94 | without room, exactly calls of Block stop, for good |
| BlockN.StuckForever | funcCtrl/FuncCtrl.go:89-105 | once somebody has not finished and nobody can go on, none of those calls ever moves, whatever further calls are made, and those are stuck as well; also in a semaphore that was used before |
| BlockN.TwoAllStop | funcCtrl/FuncCtrl.go:96-99 | two BlockAll that each get some of the tokens come to that, for every maximum of two or more |

## Left out

- CacheWriter.Delivery: the underlying writer is arbitrary and may fail, but it takes whole payloads and keeps no reference to them; the second result of an accepted Write (the context error after the send) is not distinguished.
- CacheWriter.StepsBounded: with `EndIsQuiescent` every run that is not cut short ends; while calls keep arriving, no bound on how long one of them may take is stated.
- WebPath.WebPath.Load: each operation is atomic; the lock taken anew at every node, and so the interleaving of two operations on the way down, is not modelled, nor are handlers other than by identity.
- WebPath.WebPath.Delete: the back links `Per` and `PerSame` of removed nodes stay as they are and nothing is stated of them; `Reset`, `LoadOnePerfix` and the JSON tags are not part of this model.
- PlaceHolder.SqlFunc.DoPlaceHolder: the query object is a list of names and values (the keys of a map in any order, or the settable fields of a struct); reflection, the pool of scratch slices, the copying of the entry and the detection of the statement type are left out.
- PlaceHolder.NumberedRoundTrip: names are free of braces and of the token's mark, as identifiers are; names a map could have beyond that are not covered, here and in `PlaceHolderNext`.
- Resolver.TraceFacts: registrations do not change while a key is resolved, and a callback does not call back into the same resolver.
- KeyFunc.KeyFunc.GetTrace: the joined error text and the wrapping of ErrKeyNotValid are one value; the iterators give all nodes, as getTrace stops them only to return.
- BigEndian.Btoi: asks for a size of at most eight, as the source panics otherwise, and for an offset that is not negative.
- Mp4Box.Decode: a number of turns bounds the loop, which in the source has no bound; the outcome `Unfinished` stands for a run cut off, and every theorem says which numbers suffice.
- Mp4Box.NeverEndsExactly: the name to resynchronise on is a known one, as both names the repository passes are; for an unknown name the places at which the loop goes round are others.
- Mp4Box.DecodeExact: reading a header beyond the length of the buffer is a crash, although Go allows slicing up to the capacity.
- Mp4Match.Deals: patterns are not empty, as the source reads their first name unconditionally; aliasing of the sub-slices left by a removal is not modelled.
- Mp4Segment.Segmentation: sample sizes, time stamps and the difference of the tracks are an arbitrary verdict per fragment (pass, refuse, refuse and forget, read out of bounds) that may depend on all earlier ones; floating point is not modelled.
- Mp4Segment.ResumedSearch: speaks of searches that succeed; a refused fragment empties the key frame buffer and the cursor, and what a caller then does is its own.
- Fmp4.Fmp4Decoder.SearchStreamFmp4: the fragment functions are applied after matching instead of during it, which gives the same buffers because they never drop a pattern; the initialisation segment (Init_fmp4) is not modelled, only the set of tracks it leaves.
- SliceBuf.Buf.Append: memory beyond the size, capacity, sharing of memory and the wrap of the 64-bit counter are not modelled; the locked variants and partial writes are left out.
- Copy.CopyAll: SkipByte is zero; pauses of the ticker move no bytes and are left out; a writer that takes fewer bytes without an error does not occur, and every reader's script ends.
- SliceIndex.SliceIndexNoLock.Append: ranges lie inside the source and do not run backwards; slicing up to the capacity, the locked variant, Merge, RemoveFront, RemoveBack, Equal and FiliterAppend are left out.
- XmlDecoder.Decoder.Range: trimming is a parameter (for the round trip it never lengthens anything); a yielded node is a value, not the decoder's own memory; a read of no bytes without an error panics in the source like any failed read.
- SqlTxs.SqlTxs.Run: asks for a list that is not empty, as the source indexes its first element, and for elements that are different and unused, as the source panics on a finished one; how statements are built, contexts and the final callback are left out.
- SqlTxs.Tx.CommitOrRollback: error chains keep their kinds and whether their cause is one of the three sentinels; texts and the statement attached to an error are left out.
- WaitCtx.NilMeansFinished: a child is a direct one (a nested WithWait counts as a child of its parent like a WaitCtx); cancellation signals, the sleep between two looks and the 32-bit width of the counters are not modelled.
- AddCount.AvailableIs: which entries a request matches is given, and may differ between entries of one item except where `BelowZero.Alike` is asked for (the source evaluates the same functions for them, but these may be impure); items are not added while requests run; the list's read lock per item is one atomic look.
- Limit.GrantsBounded: time is a step that may come at any moment; the panics of the constructor and the count of waiting calls are left out.
- BlockSeq.MutualExclusion: BlockCtx is left out, because a cancelled waiter releases its successor; calling done twice closes a closed channel and is not a step.
- BlockN.TokensAreHeld: the function that releases is called at most once per call.
- BlockN.SticksExactly: speaks of runs in which every completed call may still release; whether callers do is theirs.
- Network, file system, HTTP, websocket, database drivers, process control, logging, crypto and compression.
- Garbage-collector hooks, pools, weak pointers, reflection and call-tree strings.
- Bit readers, message queues, boolean rules and line readers, whose loops have no clean specification on their full domain.
- Wrappers around sync.Map, id pools, cookies, random strings and small slice helpers, which would only add easy members.
