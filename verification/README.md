# A verified model of the bionic shim linker and its runtime

This project models, in Dafny, the parts of the shim linker and its small runtime whose correctness
does not show in any single function, and proves what they promise.

- **Library life cycle** (`Linker.dfy`, on top of `LoadOrder.dfy`, `Bindings.dfy`, `Images.dfy`,
  `Siblings.dfy`, `Calls.dfy`, `Collection.dfy`, `Bookkeeping.dfy`, `Lifetimes.dfy`, `RefGraph.dfy`,
  `Traces.dfy`). `Linker` is a class with the fields of the 128 pool slots and of the static libdl, the live
  list, the free list and the tail pointer. `Dlopen` and `Dlclose` change it in place, over any file system:
  files may need each other in cycles, be missing, fail to map or fail to link, and may change between two
  attempts. `Valid()` holds between any two calls: counts are handles plus recorded DT_NEEDED pointers, the
  recorded graph has no cycle and nothing dangles, names are unique, and the trace of constructor and
  destructor calls is in order. `Run` shows this for every sequence of opens and closes. `CountsAtRest`,
  `LivesAtRest`, `InitialisedAtRest` and `RecordedGraphIsAcyclic` say what the invariant means, and
  `StaysIffReached` that closing a handle frees exactly what can no longer be reached (`Collection.dfy`).
  `Siblings.dfy` and `LoadOrder.dfy` fix the order in which what one library needs is loaded, constructed and
  unloaded, and `Calls.dfy` which functions are called for it. `BoundAtRest` and `Resolved` (`Bindings.dfy`)
  give the rule by which missing libraries and cycles are resolved. `Runs.dfy` has two short runs. Recursion
  terminates: find/load/link by the number of slots not in the live list, unload and constructors by the
  moment of linking.
- **One-time construction guard** (`Guard.dfy`). A step relation over the shared word and any number of
  threads, with stale values, spurious failures and sleepers. Every run refines the machine Idle /
  Running(owner) / Done, no wake-up is lost, construction can always be taken when nobody has it, and after
  Done every thread gets out of acquire in at most four steps of its own.
- **SHA-1** (`Sha1.dfy` against `Fips180.dfy`, with a known answer in `KnownAnswer.dfy`). The incremental
  context gives the FIPS 180-4 digest for every way of cutting a message.
- **Symbol index** (`SymbolIndex.dfy`, `Bits.dfy`) and **RELR** (`Relr.dfy`). Each fast or compressed form
  equals a plain scan or a plain list of relocations.
- **Segment loading** (`Segments.dfy`). The memory image of the gABI, frame conditions, and exactly when
  mappings stay in the reserved range.
- **Environment block** (`Environ.dfy`) and **library path** (`LibraryPath.dfy`). In-place compaction and
  in-place splitting over a truncating copy.

Where the code does not meet a property on all inputs, the exact condition is stated:
`InsideIffStartsAtZero`, `LoadReserved` and `RefusedLoadLeavesPages` (the load base is not corrected for a
lowest page other than 0, and a refused load then leaves pages behind),
`LibdlLastReference` and `UnpinnedLibdlFails` (closing a handle takes libdl apart, unless libdl is held
from outside, exactly when libdl is reached from the open handles and failed images only through that
handle), `OnceIffListedOnce` and `TwoAddresses` (a stream that lists a word twice relocates it twice),
`BranchIsExact` (the 32-bit length sum of SHA1Update must not wrap), `HarmlessUnset` and `HarmfulUnset`
(unsetting a name with an equal sign inside takes another variable along). The documentation of
DT_PREINIT_ARRAY says that it does not appear in shared libraries; the code calls it for every library,
before the library's dependencies are constructed. So constructors in the sense of preinit functions do
not always run after those of everything needed: `PreinitComesFirst` and `ConstructionsNest` say exactly
when they do, and `PreinitBeforeDependency` is a run in which they do not. DT_INIT and the init array always do.

`dafny verify dfyconfig.toml` checks the whole project.

## Model

| member | source | states |
|---|---|---|
| LinkerModel.Run | linker/dlfcn.c:66-226 | over every world and every sequence of dlopen and of dlclose on open handles, the invariant and the binding rule hold between any two calls, each command makes exactly the calls of the blocks that it adds, each open does what Opens says for its file name and the answers of the world at that moment, and each close what Closes says; no call, incarnation code, recorded dependency or question of any earlier moment is ever lost, and the linker ends with exactly the handles that are open; every call terminates |
| LinkerModel.Linker.Dlopen | linker/dlfcn.c:66-84 | keeps the linker valid and does what Opens says: success gives the live library of the resolved name and one more handle on it; a name already live gives that library and changes no list, or fails if it is marked failed or unlinked; otherwise success exactly when the world provides an image that links, its name fits and a slot is left, and then each DT_NEEDED entry leads to the library it names, or to libdl for a stated reason, while an image that does not link stays live and marked failed and without a slot the live list is unchanged; afterwards a live library is constructed if and only if it was before or the opened one leads to it along recorded pointers; unless it was constructed before, the preinit functions of the opened one are the first calls, and they follow the initialisers of a library it points to exactly if that one was constructed before; what a library needs is loaded and constructed in the order of its entries, as EntriesInLoadOrder and ConstructedInOrder say, and exactly the functions of the added blocks are called, in the order of Calls.dfy; failure opens and runs nothing; what libraries already live are and record is unchanged, libraries that appear are new incarnations, and calls made and dependencies recorded only grow |
| LinkerModel.Linker.OpenFound | linker/dlfcn.c:74-76 | constructors are complete before the caller's reference is counted, exactly libraries that the opened one leads to are newly constructed, its preinit block comes first, and what any newly constructed library needs is initialised in the order of its entries |
| LinkerModel.Linker.Dlclose | linker/dlfcn.c:215-226 | keeps the linker valid and takes one handle back; the library goes exactly when this was its last reference; what stays is libdl and exactly what the remaining handles and the failed images reach along the pointers recorded before; those that stay keep their recorded pointers and gain no references; only the outside reference to libdl is left exactly when libdl is not so reached; what a finalised library needs goes in the order of its entries, unless something else keeps it; exactly the functions of the added blocks are called; nothing of the history is lost |
| Collection.StaysIffReached | linker/linker.c:1495-1543 | reference counting is exact collection: after a close a library is live if and only if it is libdl or reached, along the pointers recorded before, from a remaining handle or a failed image |
| Collection.LiveIsReached | linker/linker.c:1495-1543 | between calls every live library but libdl is the end of a recorded path from an open handle or a failed image |
| Collection.ReachedIsLive | linker/linker.c:1495-1543 | between calls everything so reached is live |
| Collection.DependentsInOrder | linker/linker.c:1497-1531 | of two libraries one of which now points to the other, in the trace of any later moment the one pointed to is initialised first and finalised last, and the preinit functions of the other follow its initialisers exactly if they follow its preinit functions |
| Collection.LibdlLastReference | linker/linker.c:1497-1516 | a close drops the last reference to libdl other than the outside one if and only if libdl was reached from the handles and failed images before and is not reached without this handle |
| Collection.LibdlUnreferenced | linker/dlfcn.c:271-282 | between calls the count of libdl is down to the outside reference exactly when libdl is not reached |
| Runs.UnpinnedLibdlFails | linker/linker.c:1514-1516 | opening a library that needs libdl and closing it again does drop that last reference |
| Runs.PreinitBeforeDependency | linker/linker.c:2391-2411 | opening a library with a preinit function that needs another one with DT_INIT calls the preinit function first and the initialiser of the dependency later |
| Collection.PreinitComesFirst | linker/linker.c:2391-2411 | the preinit functions of the opened library follow the initialisers of a library it points to if and only if that one was constructed before the call |
| Traces.ConstructionsNest | linker/linker.c:2391-2411 | in every trace constructions are nested: whatever a library needs is complete or not yet begun when its preinit functions are called, so that they follow its initialisers exactly if they follow its preinit functions |
| Bookkeeping.PreinitAdmissible | linker/linker.c:2391-2397 | nothing a library points to is in the middle of construction when its own begins |
| Collection.ConstructsReached | linker/linker.c:2375-2426 | a live library is constructed after an open if and only if it was before or the opened one leads to it |
| Collection.LeadsToConstructed | linker/linker.c:2399-2411 | between calls everything a constructed library leads to is constructed |
| LinkerModel.FoundOne | linker/dlfcn.c:74-76 | finding a library and then constructing it together are what Opens says |
| LinkerModel.FoundNothing | linker/dlfcn.c:77-81 | a lookup in vain constructs nothing and opens nothing |
| Bindings.BoundAtRest | linker/linker.c:2873-2904 | between calls every recorded entry of a linked library leads to the library it names or to libdl; and if to libdl, any usable library of that name is its owner, was loaded after it or was linked after it |
| Bindings.BoundLinked | linker/linker.c:2939 | finishing a link keeps that rule, because whatever else is in the middle of linking was loaded earlier |
| Bindings.BoundNeeded | linker/linker.c:2878-2902 | writing the pointer of an entry keeps that rule |
| Bindings.BoundFewer | linker/linker.c:1533-1536 | unloading keeps that rule |
| Bindings.InVain | linker/linker.c:2878-2887 | where libdl stands in, the world was asked for that path during this lookup and gave no image that links, or there was no slot at that moment, by the name or by the pool; or a library of that name had failed, or was the owner or loaded before the owner and still in the middle of linking |
| Bindings.ExcusedStays | linker/linker.c:2873-2904 | such a reason stays good while more libraries are loaded and linked |
| Bindings.InnermostStays | linker/linker.c:2873-2904 | an image being linked stays the one loaded last among those being linked, whenever control is back in its loop |
| LinkerModel.CallsExtend | linker/linker.c:2353-2443 | a longer history means a longer trace of function calls, and what was added are the calls of the added blocks, block by block |
| Calls.CallsAreInOrder | linker/linker.c:2353-2443 | by position: an init or preinit array is called forwards and a fini array backwards, each entry other than 0 and -1 once; a non-zero DT_INIT is the first call of its block and a non-zero DT_FINI the last; nothing else is called |
| Calls.ExpandRan | linker/linker.c:2375-2443 | the calls of a stretch of the trace are cut, block after block, into the calls of each block |
| LinkerModel.ToldMore | linker/dlfcn.c:66-226 | the story of a run goes on: one more command that does what is said of it and makes the calls of the blocks that it adds |
| Siblings.ConstructedInOrder | linker/linker.c:2391-2425 | for every library that a construction begins for: of the libraries y and z of entries i < j, Init of y precedes Init of z in the trace, unless the construction of z had begun before that of the owner or an entry up to i leads to z |
| Siblings.MarksInOrder | linker/linker.c:2399-2411 | the same from the moments after each turn of the loop |
| Siblings.DroppedAll | linker/linker.c:1514-1531 | after the loop: if only entries of x before entry j refer to y and y is not held otherwise, y is finalised, and before the library of entry j if that one is |
| Siblings.Dismantled | linker/linker.c:1497-1536 | so it is for every library that is finalised between two moments, relative to what was recorded at the first |
| Siblings.DownJoined | linker/linker.c:1495-1543 | what holds of two successive unloadings holds of both together |
| LoadOrder.EntriesInLoadOrder | linker/linker.c:2873-2904 | of two libraries loaded after x, the one that entry i leads to was loaded first, unless an image for an entry up to i had been loaded after x by the time the other was |
| LoadOrder.NextEntry | linker/linker.c:2873-2904 | one turn of the loop keeps that rule |
| LoadOrder.LoadedTwice | linker/linker.c:1410-1428 | later loading does not disturb it |
| Bindings.ProvidedNew | linker/linker.c:1366-1401 | every live library but libdl stays an image the world provided, under its base name and with its code, when one is loaded |
| Bindings.ProvidedFewer | linker/linker.c:1533-1536 | the same when libraries go |
| Bindings.ProvidedFailed | linker/linker.c:2989-2992 | a library is marked failed only if the world provided an image of that name that does not link |
| LinkerModel.Linker.constructor | linker/dlfcn.c:271-282 | the initial linker, with only libdl live and one outside reference to it, is valid |
| Images.Basename | linker/linker.c:1461-1462 | the part after the last slash: a suffix without slashes, preceded by one or the whole name |
| Images.StripPrefixMeans | linker/linker.c:1443-1450 | either system directory is stripped, once, and any other name is kept |
| Images.FirstOverrideWins | linker/linker.c:1452-1459 | the first override of the name gives the path; a name without one is its own path |
| LinkerModel.Linker.ResolveName | linker/linker.c:1443-1459 | strips one system directory and applies the first matching override |
| LinkerModel.Linker.FindLoaded | linker/linker.c:1464-1475 | finds a live slot of that name, and NIL only if no live library has it |
| LinkerModel.Linker.Find | linker/linker.c:1430-1488 | as Dlopen without the reference; terminates for cyclic DT_NEEDED names because each level holds one more slot; the result is linked and not failed and everything else successfully linked is referred to; if anything is loaded, an image of the name asked for comes first; NIL means that no usable library of that name is live |
| LinkerModel.Linker.LoadAndLink | linker/linker.c:1478-1487 | the same for a name that is not live |
| LinkerModel.Linker.LoadLibrary | linker/linker.c:1296-1408 | a slot is filled exactly when the world provides an image, the name fits and the pool has room; a mapping failure gives the slot back and leaves the live list as it was |
| LinkerModel.Linker.Ask | linker/linker.c:1300-1351 | one more question to the world, for this path and with this many libraries live, and nothing else changes |
| LinkerModel.Linker.TakeAndGiveBack | linker/linker.c:1366-1407 | allocating and freeing again restores the live list and keeps the invariant |
| LinkerModel.Linker.TakeAndFill | linker/linker.c:1366-1401 | succeeds exactly for a short enough name with a slot left, and records the image |
| LinkerModel.Linker.FillSlot | linker/linker.c:1375-1397 | a loaded image joins as a new incarnation that nobody refers to |
| Bindings.MappedAndLinked | linker/linker.c:1410-1428 | loading and then linking together have the outcome that find promises |
| LinkerModel.Linker.LinkImage | linker/linker.c:2594-2993 | succeeds exactly for an image whose tables, relocations and RELRO protection are in order; then it is linked and every DT_NEEDED entry leads to the library it names, or to libdl for a stated reason; otherwise it is marked failed; libraries that were there are untouched apart from gained references |
| LinkerModel.Linker.Relocate | linker/linker.c:2906-2993 | after the entries: the image is marked linked or failed, as its relocations and RELRO protection decide, and nothing else changes |
| LinkerModel.Linker.LinkNeeded | linker/linker.c:2873-2904 | after the loop every payload is a counted pointer to the live library it names, or to libdl for a stated reason; whatever was loaded meanwhile came after an image for an entry up to the one that was having its turn |
| LinkerModel.Linker.LinkOne | linker/linker.c:2874-2903 | one entry: it leads to the library of its name, or to libdl, and then no usable library of that name is live and there is a reason for that; if anything is loaded, an image of that name comes first |
| Bindings.OneMoreResolved | linker/linker.c:2873-2904 | one turn of the loop resolves its entry and leaves the earlier ones resolved |
| LinkerModel.Linker.RecordNeeded | linker/linker.c:2901-2902 | writing the pointer and raising the count together keep the whole invariant |
| LinkerModel.Linker.MarkLinked | linker/linker.c:2939 | linking stamps the image later than everything it points to; it is the one library without a reference yet |
| LinkerModel.Linker.MarkFailed | linker/linker.c:2989-2992 | a failed image stays live with its recorded pointers counted and is never pointed to |
| LinkerModel.Linker.AllocInfo | linker/linker.c:319-353 | fails exactly for a name of 128 or more characters or when all 128 pool slots are live; otherwise a cleared slot is the new tail of the live list, and the list invariant holds |
| LinkerModel.Linker.TakeFreshSlot | linker/linker.c:331-338 | an unused pool slot becomes the free list |
| LinkerModel.Linker.MoveToLive | linker/linker.c:340-349 | the head of the free list becomes the tail of the live list |
| LinkerModel.Linker.FreeInfo | linker/linker.c:355-380 | removes exactly that slot from the live list, keeps the order of the others and pushes it on the free list; a slot that is not live changes nothing |
| LinkerModel.Linker.FindPrevious | linker/linker.c:361-365 | finds the slot and its predecessor, or shows that the slot is not live |
| LinkerModel.Linker.CallArray | linker/linker.c:2353-2373 | calls the entries other than 0 and -1, in order or backwards |
| LinkerModel.Linker.CallInits | linker/linker.c:2413-2425 | DT_INIT, then the init array |
| LinkerModel.Linker.CallFinis | linker/linker.c:2428-2443 | the fini array backwards, then DT_FINI |
| LinkerModel.Linker.RunPreinit | linker/linker.c:2391-2397 | marks the library before anything is called; the preinit block is what is appended to the trace, ahead of everything the library needs, and the trace stays ordered |
| LinkerModel.Linker.RunInit | linker/linker.c:2413-2425 | the library's own initialisers come after those of all it points to; its block is the only one added |
| LinkerModel.Linker.CallConstructors | linker/linker.c:2375-2426 | terminates, never meets a library that is still under construction, leaves the library constructed, newly constructs only libraries that it leads to, starts with its preinit block, and keeps the trace ordered; what each newly constructed library needs is initialised in the order of its entries |
| LinkerModel.Linker.ConstructNeeded | linker/linker.c:2399-2411 | afterwards every library pointed to is completely constructed, and only libraries led to were; of two entries the library of the first is initialised first, unless the second was constructed before or an entry up to the first leads to it |
| LinkerModel.Linker.RunFini | linker/linker.c:1497-1499 | appends exactly the finaliser block; destructors of a library down to its last reference keep the trace ordered: everything that needed it has been finalised |
| LinkerModel.Linker.Unload | linker/linker.c:1495-1543 | drops one reference; the library goes exactly when it was the last; the whole invariant holds for the remaining references at every depth of the recursion; whatever library is finalised meanwhile lets go of what it needs in the order of its entries |
| LinkerModel.Linker.Dismantle | linker/linker.c:1497-1536 | destructors, then dependencies, then the slot |
| LinkerModel.Linker.DropNeeded | linker/linker.c:1514-1531 | afterwards the library points to nothing, and the payloads of all others that stay are unchanged; a library that only entries before the j-th refer to is finalised, and before that of the j-th entry |
| LinkerModel.Linker.DropOne | linker/linker.c:1515-1530 | clears one payload and drops the reference it stood for |
| LinkerModel.Linker.DropPointer | linker/linker.c:1516-1529 | the library referred to loses that reference, and what it needs goes with it at the last one |
| LinkerModel.Linker.ClearNeeded | linker/linker.c:1516-1521 | the cleared pointer becomes a reference in hand to a live, constructed library linked earlier |
| LinkerModel.Linker.Release | linker/linker.c:1533-1536 | the slot leaves the live list with no pointer or handle left on it |
| Bookkeeping.CountsAtRest | linker/linker.c:1495-1543 | between calls a count is open handles plus recorded entries (plus one for libdl), a library is successfully linked exactly when that sum is positive, and no live library names a freed slot |
| Bookkeeping.LivesAtRest | linker/linker.c:2375-2443 | between calls every incarnation is live or finalised, nothing ran twice, initialisers ran after those of everything needed, finalisers only after initialisers and before those of anything needed |
| Bookkeeping.InitialisedAtRest | linker/linker.c:2375-2426 | between calls a library marked constructed has run its initialisers and so has everything it points to; every open handle is such a library |
| Bookkeeping.InitialAtRest | linker/dlfcn.c:271-282 | the initial state satisfies the invariant |
| Bookkeeping.NamesAreUnique | linker/linker.c:1461-1478 | no two live libraries share a name |
| Bookkeeping.SoundNew | linker/linker.c:1366-1401 | adding a loaded image keeps the invariant |
| Bookkeeping.SoundNeeded | linker/linker.c:2901-2902 | recording one pointer keeps the invariant, and gives a just linked library its first reference |
| Bookkeeping.SoundLinked | linker/linker.c:2939 | setting FLAG_LINKED keeps the invariant |
| Bookkeeping.SoundFailed | linker/linker.c:2989-2992 | setting FLAG_ERROR on an image without references keeps the invariant |
| Bookkeeping.SoundOpened | linker/dlfcn.c:74-76 | counting a handle keeps the invariant |
| Bookkeeping.SoundPreinit | linker/linker.c:2391-2397 | entering construction keeps the invariant |
| Bookkeeping.SoundInit | linker/linker.c:2413-2425 | initialising after all pointees keeps the invariant |
| Bookkeeping.FiniAdmissible | linker/linker.c:1497-1499 | at the last reference nothing points to the library, no handle is open on it, and every dependent it ever had is finalised |
| Bookkeeping.SoundFini | linker/linker.c:1497-1499 | finalising at the last reference keeps the invariant |
| Bookkeeping.SoundClear | linker/linker.c:1516-1521 | clearing a pointer keeps the invariant with one more reference in hand |
| Bookkeeping.SoundDrop | linker/linker.c:1537-1541 | dropping one of several references keeps the invariant |
| Bookkeeping.SoundFreed | linker/linker.c:1533-1536 | freeing the slot keeps the invariant |
| Bookkeeping.SoundHandedBack | linker/dlfcn.c:215-226 | a returned handle is a reference in hand to a live, constructed library |
| Bookkeeping.PointeesInitialised | linker/linker.c:2399-2411 | whatever a constructed library points to is constructed |
| Bookkeeping.SatisfiesStays | linker/linker.c:2894-2901 | a satisfied DT_NEEDED entry stays satisfied while more libraries are loaded and linked |
| Bookkeeping.GrowsThrough | linker/linker.c:1478-1487 | loading and linking an image leaves every earlier library alone |
| Bookkeeping.ShrinksTwice | linker/linker.c:1514-1531 | successive unloads together remove only linked libraries and change no survivor's pointers |
| Bookkeeping.ExtendsTwice | linker/linker.c:1495-1543 | what two stretches of a run keep of the history, both together keep |
| Lifetimes.ListsFreshSlot | linker/linker.c:331-338 | extending the pool keeps the list invariant: both lists acyclic and disjoint, live from libdl to the tail pointer, together exactly libdl and the first socount slots |
| Lifetimes.ListsTake | linker/linker.c:340-349 | the pointer assignments of allocation keep the list invariant |
| Lifetimes.ListsGive | linker/linker.c:375-379 | the pointer assignments of freeing keep the list invariant |
| RefGraph.RecordedGraphIsAcyclic | linker/linker.c:2873-2904 | whatever cycles the files contain, no path of recorded pointers returns to its start, and all it reaches is live and linked |
| RefGraph.PathsDescend | linker/linker.c:2873-2939 | along recorded pointers the moment of linking decreases |
| RefGraph.LinkageNewEdge | linker/linker.c:2901 | an image being linked may point to any linked library |
| RefGraph.LinkageLinked | linker/linker.c:2939 | finishing the link orders the image after everything it points to |
| RefGraph.CountedNewEdge | linker/linker.c:2901-2902 | a new pointer with a raised count keeps counts exact for every library |
| RefGraph.CountedClearEdge | linker/linker.c:1516-1521 | a cleared pointer with a reference in hand keeps counts exact |
| RefGraph.CountedNew | linker/linker.c:340-349 | a fresh slot keeps counts exact |
| RefGraph.CountedRemove | linker/linker.c:1533-1536 | a library without pointers can leave and counts stay exact |
| RefGraph.NoPointersTo | linker/linker.c:1497 | a count with no room for a pointer or handle rules them out |
| Traces.OrderedTrace | linker/README.TXT:97-101 | an ordered trace, at any two moments: no block twice, initialisers after those needed, finalisers after initialisers and before those of anything needed |
| Traces.OrderedNewDep | linker/linker.c:2901 | a dependency recorded before initialisation does not disturb the past |
| Traces.RunnableReversed | linker/linker.c:2357-2360 | calling a reversed array calls the same functions in reverse |
| Traces.RunnableKeeps | linker/linker.c:2368-2371 | exactly the entries other than 0 and -1 are called, each as often as listed |
| Traces.ExpandAppend | linker/linker.c:2375-2443 | one more block appends exactly its calls to the trace |
| Traces.ExpandExtends | linker/linker.c:2375-2443 | more blocks and more incarnations expand to a trace that begins with the earlier one |
| Guard.RunRefines | libstdc++_standalone/__cxa_guard.cpp:70-128 | every run of any number of threads refines Idle / Running(owner) / Done |
| Guard.StepRefines | libstdc++_standalone/__cxa_guard.cpp:81-128 | every enabled step of every thread keeps the invariant and is a step or stutter of the abstract machine |
| Guard.InitHolds | libstdc++_standalone/__cxa_guard.cpp:70-71 | the zeroed guard is Idle |
| Guard.NextOwners | libstdc++_standalone/__cxa_guard.cpp:81-128 | a thread becomes owner only by being told to construct, and ceases to be by releasing or aborting |
| Guard.OneConstructorAtATime | libstdc++_standalone/__cxa_guard.cpp:81-128 | between two moments at which acquire returns 1 the first of the two threads has aborted |
| Guard.ReacquiredOnlyAfterAbort | libstdc++_standalone/__cxa_guard.cpp:90-97 | while a thread constructs, nobody is told to construct before it aborts |
| Guard.DoneIsPermanent | libstdc++_standalone/__cxa_guard.cpp:112-119 | after a release no run leaves COMPLETE or hands out construction again |
| Guard.PassedOnlyAfterRelease | libstdc++_standalone/__cxa_guard.cpp:87-89 | acquire returns 0 only after somebody released |
| Guard.LowByteMeansDone | libstdc++_standalone/__cxa_guard.cpp:70-79 | in every reachable state the word is 0, 1, 0x100 or 0x200; the low byte is non-zero exactly in Done, bit 0 is then set and the two low bits are clear otherwise |
| Guard.OnlyReleaseChangesLowByte | libstdc++_standalone/__cxa_guard.cpp:70-79 | in every reachable state a step changes the low byte exactly if it is a release |
| Guard.StepKeepsSleepersCovered | libstdc++_standalone/__cxa_guard.cpp:98-109 | every step leaves each sleeper with the word at 0x200 or a wake-all owed |
| Guard.NoLostWakeup | libstdc++_standalone/__cxa_guard.cpp:98-128 | in every reachable state a sleeper means the word is 0x200 or a wake is owed; with no owner and no owed wake nobody sleeps |
| Guard.SettledStep | libstdc++_standalone/__cxa_guard.cpp:87-109 | once complete with no wake owed, each own step brings a thread nearer to returning, and other threads do not set it back |
| Guard.DoneDrains | libstdc++_standalone/__cxa_guard.cpp:87-109 | once complete with no wake owed, a thread inside acquire returns 0 within four own steps, from any stale value |
| Guard.AwakeThreadsCanStep | libstdc++_standalone/__cxa_guard.cpp:87-109 | a thread inside acquire that is not asleep always has a step |
| Guard.AcquireSucceeds | libstdc++_standalone/__cxa_guard.cpp:81-97 | from every reachable Idle state any thread that is outside, or awake inside acquire with whatever stale value, takes construction by at most four of its own steps, of which the last alone returns 1; then the word is 0x100 and the thread is owner |
| Guard.WaiterSleeps | libstdc++_standalone/__cxa_guard.cpp:87-108 | while somebody constructs, any such thread is asleep after at most five of its own steps, with the word at 0x200 |
| Guard.OwnerFinishes | libstdc++_standalone/__cxa_guard.cpp:112-128 | an owner can release and abort; the word becomes 1 or 0, and it owes a wake exactly if the word was 0x200 |
| Guard.WakeUpsAreGiven | libstdc++_standalone/__cxa_guard.cpp:116-127 | a thread that owes a wake can give it, returns, and every sleeper goes on to load the word again |
| Guard.ChanceMayFail | libstdc++_standalone/__cxa_guard.cpp:90-108 | weak compare-and-swaps may fail and sleeps may end at any time; the thread then tests the present word |
| Guard.DoneIsReachable | libstdc++_standalone/__cxa_guard.cpp:81-128 | from every reachable state of at least one thread at most six steps lead to COMPLETE |
| Sha1.HashChunks | libc/libc-sha1.c:191-277 | init, updates and final give the FIPS 180-4 digest of the concatenation, for every message under 2^61 bytes and every cutting in which no 32-bit sum of buffered and new bytes wraps |
| KnownAnswer.DigestOfAbc | libc/libc-sha1.c:36-277 | the published digest of "abc" |
| Sha1.MacrosAreStandard | libc/libc-sha1.c:34-62 | the rotations and constants written in the macros are those of the standard |
| Sha1.SmallChunksFit | libc/libc-sha1.c:218-219 | chunks of at most 2^32 - 64 bytes never make it wrap |
| Sha1.Hash | libc/libc-sha1.c:279-292 | the digest of the string and a terminating NUL |
| Sha1.Context.constructor | libc/libc-sha1.c:191-201 | the context of the empty message |
| Sha1.Context.Update | libc/libc-sha1.c:205-229 | afterwards state, buffer and counters stand for the longer message: hash of its whole blocks, trailing bytes, bit length modulo 2^64 |
| Sha1.Context.AppendPadding | libc/libc-sha1.c:264-269 | the byte-wise loop ends and appends exactly the padding of section 5.1.1 before the length |
| Sha1.Context.Final | libc/libc-sha1.c:233-277 | the digest of everything fed in, and a wiped context |
| Sha1.Context.Wipe | libc/libc-sha1.c:274-276 | all of the context is zero |
| Sha1.AbsorbAcross | libc/libc-sha1.c:219-228 | filling up the buffer, hashing whole blocks and keeping the tail stand for the longer message |
| Sha1.AbsorbWholeBlocks | libc/libc-sha1.c:222-224 | the loop hashes every further whole block and leaves less than one |
| Sha1.KeepTail | libc/libc-sha1.c:226-228 | bytes that complete no block extend the buffered tail of the message |
| Sha1.IndexDoesNotWrap | libc/libc-sha1.c:222 | at every block boundary the 32-bit loop test is exact |
| Sha1.AbsorbBlock | libc/libc-sha1.c:220-221 | a completed buffer is the next block of the message |
| Sha1.TailAbsorbed | libc/libc-sha1.c:228 | a copied tail is the trailing part of the message |
| Sha1.CopyIn | libc/libc-sha1.c:220-228 | exactly the addressed bytes of the buffer are replaced |
| Sha1.BranchIsExact | libc/libc-sha1.c:218-219 | the 32-bit comparison takes the branch the true sum calls for exactly when the sum is below 2^32 |
| Sha1.AddLength | libc/libc-sha1.c:214-217 | the two counters stay the bit length modulo 2^64 |
| Sha1.CarryIsExact | libc/libc-sha1.c:214-217 | carry detection by comparison is addition modulo 2^64 |
| Sha1.CountGivesOffset | libc/libc-sha1.c:218 | the low counter gives the number of buffered bytes |
| Sha1.CountBytes | libc/libc-sha1.c:260-262 | the big-endian 64-bit length |
| Sha1.StateBytes | libc/libc-sha1.c:271-273 | the big-endian digest bytes of the five words |
| Sha1.Transform | libc/libc-sha1.c:66-187 | one block: the state becomes the section 6.1.2 compression of state and block |
| Sha1.LoadBlock | libc/libc-sha1.c:71-88 | the copied block holds the first sixteen schedule words, byte-swapped |
| Sha1.EightyRounds | libc/libc-sha1.c:89-175 | eighty rounds with rotating roles equal eighty steps with shifting a..e over a full schedule |
| Sha1.FiveRounds | libc/libc-sha1.c:95-175 | five rounds equal five steps and bring the roles back |
| Sha1.Round | libc/libc-sha1.c:47-62 | with the macro's own constants and rotations one round equals one step up to the renaming of roles, and advances the circular schedule |
| Sha1.NextScheduleWord | libc/libc-sha1.c:36-45 | the word stored in place is word i of the full schedule, and the sixteen words kept are the last sixteen |
| Sha1.ByteSwapLoadsBigEndian | libc/libc-sha1.c:38-39 | the swapped little-endian load is the big-endian word |
| Sha1.ChooseRewritten | libc/libc-sha1.c:48-53 | the rewritten formula is Ch |
| Sha1.MajorityRewritten | libc/libc-sha1.c:57-59 | the rewritten formula is Maj |
| Sha1.RoundMixIsF | libc/libc-sha1.c:47-62 | the formula of each round is the function of section 4.1.1 |
| Sha1.RoundSumIsTemp | libc/libc-sha1.c:47-62 | what a round adds is the temporary word of section 6.1.2 |
| Fips180.Schedule | libc/libc-sha1.c:45 | eighty words satisfying the recurrence of section 6.1.2 |
| Fips180.PadLength | libc/libc-sha1.c:264-270 | padding fills whole blocks and leaves eight bytes for the length |
| Fips180.PadZerosSmallest | libc/libc-sha1.c:266-269 | the number of zero bytes is the least that reaches 56 modulo 64 |
| Fips180.HashBlocksPrefix | libc/libc-sha1.c:219-224 | completed blocks do not depend on what follows |
| Fips180.RotationsRotate | libc/libc-sha1.c:34 | rotating by n is multiplying by 2^n modulo 2^32 and adding the top n bits as a number |
| Fips180.ConstantsAreRoots | libc/libc-sha1.c:47-62 | the four constants are 2^30 times the square roots of 2, 3, 5 and 10, rounded down |
| Fips180.BlocksChain | libc/libc-sha1.c:219-224 | two blocks are hashed one after the other |
| Fips180.WordBytesInverse | libc/libc-sha1.c:271-273 | the digest bytes determine the words |
| SymbolIndex.LookupGnu | linker/linker.c:501-537 | on every well-formed table the answer is that of a scan of the hashed symbols: the lowest one of that name that is global or weak and defined, or none |
| SymbolIndex.Scan | linker/linker.c:465-476 | the reference: the lowest defining index, and nothing before it or none at all |
| SymbolIndex.BloomTest | linker/linker.c:505-515 | true exactly when both filter bits of the hash are set, with the mask being the remainder |
| SymbolIndex.WalkChain | linker/linker.c:518-536 | the walk stays in its bucket, misses no definition and stops |
| SymbolIndex.BucketEnds | linker/linker.c:531 | after an end mark nothing of that bucket follows |
| SymbolIndex.ComputeGnuHash | linker/linker.c:450-463 | the shift-and-add loop with 32-bit wrap-around is h * 33 + c modulo 2^32 |
| SymbolIndex.GnuHashOfExit | linker/linker.c:450-463 | the published hash of "exit" |
| SymbolIndex.GnuHashOfPrintf | linker/linker.c:450-463 | the published hash of "printf" |
| SymbolIndex.BloomMeans | linker/linker.c:505-515 | the two filter bits as digits of the filter word |
| SymbolIndex.ComputeSysvHash | linker/linker.c:431-448 | the loop computes the hash function as the System V ABI writes it |
| SymbolIndex.SysvHashOfExit | linker/linker.c:431-448 | the published hash of "exit" |
| SymbolIndex.SysvHashOfPrintf | linker/linker.c:431-448 | the published hash of "printf" |
| SymbolIndex.FoldIsAbiFold | linker/linker.c:439-441 | clearing the top bits first and without a test is what the ABI does with a test and a mask |
| SymbolIndex.SysvHashIs28Bits | linker/linker.c:439-441 | the hash never has its top four bits set |
| SymbolIndex.LookupSysv | linker/linker.c:478-499 | on an acyclic table the walk ends and gives the first definition in the name's bucket |
| SymbolIndex.FirstIn | linker/linker.c:486-493 | a definition in the list, or none is there |
| SymbolIndex.SysvAgreesWithScan | linker/linker.c:478-499 | with unique exported names it is what a scan of the whole symbol table finds |
| SymbolIndex.SysvAgreesWithGnu | linker/linker.c:539-542 | both kinds of table over the same symbols give the same answer |
| SymbolIndex.LibdlTableIsWellFormed | linker/dlfcn.c:247-282 | the static one-bucket table reaches every symbol from its bucket |
| SymbolIndex.Lookup | linker/linker.c:539-542 | the definition in that library, by whichever table it has |
| SymbolIndex.DefinitionIn | linker/linker.c:539-542 | an indexed symbol of that name with binding 1 or 2 and a section other than 0, or no indexed symbol defines it |
| SymbolIndex.SameFirst | linker/linker.c:486-493 | the answer of a System V table does not depend on how its chains are listed |
| SymbolIndex.DoLookup | linker/linker.c:546-617 | the first definition over self, preloads, direct dependencies in order, then the main program, with that library's base; an invalid dependency stops the search |
| SymbolIndex.ScopeMeans | linker/linker.c:546-617 | by position: the library itself, the preloads, what it needs, and the main program last |
| SymbolIndex.ScopeOrder | linker/linker.c:546-617 | the found library is in the scope and nothing before it defines the name; nothing is found exactly when no library up to the first invalid entry defines it |
| SymbolIndex.ChainsPartition | linker/linker.c:699-712 | a chain visits exactly the symbols of its bucket, each once |
| SymbolIndex.EveryHashedSymbolInOneChain | linker/linker.c:699-712 | every hashed symbol is in the chain of exactly one bucket |
| SymbolIndex.ContainingGnu | linker/linker.c:695-715 | finds a hashed symbol that contains the address, if and only if there is one |
| SymbolIndex.ContainingInBucket | linker/linker.c:706-711 | the same within one bucket |
| SymbolIndex.ContainingSysv | linker/linker.c:678-693 | the lowest symbol that contains the address, or none does |
| SymbolIndex.ContainingAgrees | linker/linker.c:717-720 | both agree when every defined symbol is hashed and none overlap at the address |
| Bits.MaskIsMod | linker/linker.c:2722-2726 | masking with one less than a power of two is the remainder |
| Bits.XorAboveBitZero | linker/linker.c:524 | the shifted exclusive or vanishes exactly when the words agree above bit 0 |
| Bits.LowBits | linker/linker.c:514 | masking with 1 tests both low bits |
| Bits.ShrIsDiv | linker/linker.c:2321-2329 | shifting right by k is dividing by 2^k, and bit k is the digit of that weight |
| Bits.AndIsBitwise | linker/linker.c:513-514 | every bit of the conjunction is set exactly if it is set in both words |
| Bits.XorIsBitwise | linker/linker.c:524 | every bit of the exclusive or is set exactly if the two words differ there |
| Relr.RelocateRelr | linker/linker.c:2303-2335 | the image becomes what the decoded list of RELATIVE relocations makes of it |
| Relr.RelocateRelative | linker/linker.c:2240-2253 | the plain loop over RELATIVE entries has that same effect |
| Relr.AddBase | linker/linker.c:2298-2301 | exactly one word gains the base, with wrap-around |
| Relr.ApplyBitmap | linker/linker.c:2321-2329 | a bitmap relocates exactly the words it selects |
| Relr.ApplyEntry | linker/linker.c:2311-2332 | an entry relocates the offsets it encodes and moves the cursor |
| Relr.RunMeans | linker/linker.c:2311-2332 | an even word a and then odd words bs: an offset is decoded if and only if it is a, or a + size * (1 + j * (8 * size - 1) + i) with bit i + 1 of bs[j] set and i < 8 * size - 1 |
| Relr.BitmapsMean | linker/linker.c:2320-2332 | the same for bitmaps from any cursor |
| Relr.AddressRestarts | linker/linker.c:2313-2319 | what an address word and the words after it decode to does not depend on what came before |
| Relr.TwoBitmapsInARow | linker/linker.c:2320-2332 | with 8-byte words the stream 16, 3, 3 decodes to the offsets 16, 24 and 528 |
| Relr.EncodedFits | linker/linker.c:2298-2335 | the reference encoder writes words of that width |
| Relr.EachWordGains | linker/linker.c:2298-2335 | for every list whatever, each word gains the base as many times as it is listed |
| Relr.OnceIffListedOnce | linker/linker.c:2298-2335 | a word gains the base exactly once, for every image and base, if and only if it is listed once modulo the word size; for lists not longer than the modulus, if and only if it is listed once |
| Relr.TwoAddresses | linker/linker.c:2313-2319 | two address entries in either order relocate each word once; the same address twice is accepted and relocates its word twice |
| Relr.EachWordOnce | linker/linker.c:2298-2335 | for a list in any order without repeats, each listed word gains the base exactly once and every other word is unchanged |
| Relr.IncreasingHasNoRepeats | linker/linker.c:2313-2332 | an increasing list lists every word once |
| Relr.ForwardIsIncreasing | linker/linker.c:2313-2332 | a stream that never goes back decodes to a strictly increasing list |
| Relr.SelectedRange | linker/linker.c:2321-2332 | a bitmap of n bits selects increasing offsets within n words |
| Relr.RelocatedInTwo | linker/linker.c:2310-2333 | relocating a list in two parts is relocating it at once |
| Relr.RoundTrip | linker/linker.c:2298-2335 | decoding inverts a reference encoder on every strictly increasing list of word-aligned offsets |
| Relr.EncodedWordsOnce | linker/linker.c:2298-2335 | relocating from the encoding of such a list adds the base once to exactly the listed words |
| Relr.RoundTripContinue | linker/linker.c:2321-2332 | the same in the middle of a run of bitmaps |
| Relr.BitmapSelects | linker/linker.c:2321-2329 | a bitmap of the encoder selects exactly the offsets it took in |
| Segments.GetLibExtents | linker/linker.c:965-988 | fails without loadable segments; otherwise the size from the first page of the lowest to the last page of the highest segment |
| Segments.RelroInside | linker/linker.c:1214-1221 | apart from the overflow test, a GNU_RELRO range is accepted exactly when it starts inside the library and every address of it is inside |
| Segments.InsideIffStartsAtZero | linker/linker.c:981-988 | every segment lies in the reserved range if and only if the lowest segment page is 0 |
| Segments.AddressSpace.LoadSegments | linker/linker.c:1076-1259 | success leaves every segment's image in place; a refused load unmaps the reserved range and leaves, outside it, the images of the segments mapped before; however it ends, nothing outside the range and the pages of the segments reached changes; with the computed size the sanity check never rejects; if every mapping is granted and nothing asks for an empty one or a RELRO range outside, it succeeds |
| Segments.LoadReserved | linker/linker.c:1375-1391 | into the range that the extent computation reserves: with lowest page 0 nothing outside the range ever changes, however the load ends; in general a refused load leaves, beyond the range, the image of every segment before the one at which it was refused and nothing of later ones, and with a higher lowest page that includes the last page of the highest segment |
| Segments.RefusedLoadLeavesPages | linker/linker.c:1250-1258 | one segment at page 1 under a GNU_RELRO range: the load is refused, the range is unmapped, and the segment stays |
| Segments.TouchedIsReserved | linker/linker.c:1101-1103 | with lowest page 0 every touched address is reserved |
| Segments.LastPageBeyond | linker/linker.c:981-988 | with a higher lowest page the last page of the highest segment is beyond the range |
| Segments.AddressSpace.Abandon | linker/linker.c:1250-1258 | the exit of a refused load: the range is unmapped and the rest is as the loop left it |
| Segments.OnlySegmentChanged | linker/linker.c:1098-1184 | a segment whose loading was granted or refused changed only its own pages |
| Segments.AddressSpace.LoadSegment | linker/linker.c:1098-1195 | one segment's pages hold its image, everything else is unchanged, and the counted length is that of its pages; when a mapping is refused, only file-backed pages of the segment may have changed |
| Segments.AddressSpace.LoadFilePart | linker/linker.c:1101-1123 | the file-backed pages hold file bytes with the tail of a writable segment zeroed; a refused mapping changes nothing |
| Segments.SegmentContents | linker/linker.c:1097-1184 | file bytes are at base plus address; from filesz to memsz a writable segment is zero, a read-only one goes on with the file to the end of its last file page and is zero after it |
| Segments.MapEndIsLast | linker/linker.c:1152-1184 | the mapped pages are exactly the segment's pages |
| Segments.OthersPlaced | linker/linker.c:1097-1234 | loading a segment, completely or not, disturbs none of the earlier ones |
| Segments.TotalFitsExtent | linker/linker.c:1236-1242 | the lengths of page-disjoint segments never add up to more than the extent |
| Segments.CoverSize | linker/linker.c:1195 | the summed lengths count each covered byte once |
| Environ.EnvMatch | linker/linker_environ.c:105-117 | the value exactly when the string is the name, an equal sign and the value |
| Environ.IsValidDefinition | linker/linker_environ.c:38-68 | shorter than 32 pages with an equal sign that is not first |
| Environ.InitKeepsOrder | linker/linker_environ.c:84-98 | init keeps the definitions shorter than 131072 characters whose first equal sign is not the first character, and no others, in their old order |
| Environ.FirstDefinitionWins | linker/linker_environ.c:121-139 | a name has the value v exactly if its first definition is the name, an equal sign and v, and v is not empty |
| Environ.Environment.constructor | linker/linker_environ.c:70-99 | the block keeps, as InitKeepsOrder says, exactly its valid definitions, in order and terminated |
| Environ.Environment.Get | linker/linker_environ.c:121-139 | the first definition's value, none for an empty value or an empty name |
| Environ.Environment.Unset | linker/linker_environ.c:141-157 | in place, the definitions without those of the name |
| Environ.Environment.Secure | linker/linker_environ.c:161-199 | the definitions without those of any listed name |
| Environ.UnsetRemoves | linker/linker_environ.c:149-156 | no definition of the name is left and it has no value |
| Environ.UnsetKeepsOrder | linker/linker_environ.c:149-156 | every other definition is kept, at the place its rank among the kept ones gives it |
| Environ.UnsetKeepsOthers | linker/linker_environ.c:149-156 | every other name without an equal sign keeps its value |
| Environ.HarmlessUnset | linker/linker_environ.c:141-157 | the same for every name with no equal sign after its first place |
| Environ.HarmfulUnset | linker/linker_environ.c:141-157 | for any other name there is an environment in which another variable is lost |
| Environ.OneName | linker/linker_environ.c:105-117 | a definition belongs to one plain name only |
| Environ.SecureAll | linker/linker_environ.c:195-198 | over any list of plain names: listed ones have no value, others keep theirs |
| Environ.SecureMeans | linker/linker_environ.c:161-199 | the same for the list the code has |
| LibraryPath.Strlcpy | linker/strlcpy.c:26-50 | copies what fits, terminates, touches nothing beyond the terminator and returns the source length |
| LibraryPath.SkipToEnd | linker/strlcpy.c:45-46 | ends one past the terminator |
| LibraryPath.SearchPath.Parse | linker/linker.c:2995-3016 | the retained paths are the first components of the full input, whole, in order, at most eight and NULL-terminated, also when the copy truncates; when it fits they are exactly the first eight; truncation loses at most one of the components of the copy |
| LibraryPath.SearchPath.NextToken | linker/linker.c:3003-3006 | a turn of the loop keeps the next component unless it is empty |
| LibraryPath.SearchPath.CutToken | linker/linker.c:3003 | cutting at the next delimiter leaves earlier tokens whole |
| LibraryPath.Strsep | linker/linker.c:3003 | strsep's contract on the buffer: the token ends at the first delimiter, which becomes a NUL |
| LibraryPath.ComponentsStep | linker/linker.c:3003-3005 | the components are the first token, if not empty, and those after the delimiter |
| LibraryPath.ComponentsAreStretches | linker/linker.c:3003-3005 | by position: the components are the stretches without delimiters that cannot be made longer, from left to right, and every other character is a delimiter |
| LibraryPath.ComponentsOfPrefix | linker/linker.c:3008-3015 | a truncated path has the components of the whole, except possibly its last; none is spoiled if the cut is after a delimiter |
| LibraryPath.ParsedStep | linker/linker.c:3003-3006 | what was found and what is to come together stay all components |
| LibraryPath.Retained | linker/linker.c:3008-3015 | the test for truncation forgets the last path whenever it could be spoiled |

## Left out

- LinkerModel.Linker.constructor: libdl starts with one outside reference, so its count is one more than in the source, where the static count is zero; LibdlLastReference says exactly which closes would then unload libdl, which walks a null dynamic section, and UnpinnedLibdlFails gives two calls that do.
- LinkerModel.Linker.LinkImage: the `return false` exits of apkenv_link_image (linker/linker.c:2724, 2775, 2778, 2788) are not modelled: they return 0 without marking the image linked, so images are taken to have dynamic sections that avoid them.
- LinkerModel.Linker.Dlopen: a null name always fails, because apkenv_somain is never assigned; a constructor that calls dlopen again would block on the plain mutex and is not modelled; the error text is not modelled.
- LinkerModel.Linker.Dlclose: only handles that dlopen returned and that are still open; glibc handles and foreign pointers are not modelled.
- Sha1.Context.Update: requires that the buffered bytes and the new ones together are below 2^32, the exact condition of BranchIsExact; beyond it the code writes past its buffer.
- Sha1.ByteSwapLoadsBigEndian: the little-endian build; the big-endian macro is the identity.
- Segments.AddressSpace.LoadSegments: the base plus address overflow test of GNU_RELRO, page protections and the wrprotect range are not modelled, and pages of a mapping past the end of the file read as zero.
- Soinfo records are one sequence per field, indexed by slot, rather than objects; the lists run through a `next` field of slot numbers, so aliasing of slots is by number.
- The program images themselves are the outside world: opening, reading, mapping and relocating a file is one answer of a function of the path and the number of earlier questions, and mapping requests are granted by another such function.
- Addresses, sizes, counts and link stamps are unbounded except where a wrap-around is part of the code (SHA-1, the hash functions, RELR words).
- The eighty SHA-1 rounds, written out one by one in the source, are a loop over five rounds each.
- FLAG_EXE and FLAG_LINKER images, preloading at start-up and the hash cache flags, none of which the source ever sets.
- The gdb link map, per-architecture relocations other than RELATIVE, containing-library lookup, the all-libraries symbol lookup, dlsym, dladdr and dlerror.
- Weak memory ordering in the guard: steps are sequentially consistent.
- The aux vector address that apkenv_linker_env_init returns, and the parsing of the override map.
- Copyable-function stubs, the libc and pthread wrappers, `wrapper/`, `src/*.zig` and the build files.
