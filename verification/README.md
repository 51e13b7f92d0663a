# LBPM wide-halo communicator and mixed-gradient kernel, in Dafny

This project models two pieces of LBPM, a lattice-Boltzmann solver for porous media.

The first is `ScaLBLWideHalo_Communicator`, the halo exchange for subdomains whose ghost layer is wider than one cell (`common/WideHalo.cpp`). The model covers:

- The constructor pads the local Nx x Ny x Nz block by `width - 1` on each side. It reads the 26 neighbour ranks out of the 3 x 3 x 3 rank table.
- It builds one send list and one receive list per neighbour direction with `getHaloBlock`. It also fills the `Map` from the halo-width-1 layout to the padded one.
- `Send` takes the lock, packs the 26 send buffers and posts 26 Isend/Irecv pairs with tag 1.
- `Recv` waits, unpacks the 26 receive buffers into the array and releases the lock.

The second is `ScaLBL_D3Q19_MixedGradient` (`cpu/MixedGradient.cpp`). For every site that `Map` lists, this kernel does the following:

- It decodes the site's flat index with C integer division.
- It reads the field one step forward, two steps forward and one step back along each of the 18 D3Q19 velocities.
- It writes the weighted sum `0.25 (or 0.125) * (5 vp - vp2 - 3 v - vm)` to `Gradient`.

The model is organised as follows:

- **Addressing.** Arrays are flat sequences addressed with x fastest (`Grid.Flat`, `Grid.Coords`). The 26 directions are the non-zero offsets in {-1,0,1}^3 (`Directions`). Their source names such as `xYz` are given in `Suffixes`, where lower case is the negative side.
- **Boxes and lists.** Each `getHaloBlock` call is an axis-aligned box (`Boxes`). The calls are transcribed one by one, as written, in `HaloTables`.
- **Counts.** The count variables the constructor leaves behind are in `HaloCounts`.
- **Exchange and Map.** The exchange, lock included, is in `Exchange`. The `Map` is in `HaloMap`.
- **Delivery.** `Delivery` matches one process's sends with its neighbour's receives in MPI's order and derives that each halo arrives in the right receive buffer.
- **Kernel.** The kernel is in `MixedGradient`. Read and write errors become `Err` rather than undefined behaviour.
- **Why the halo is two wide.** `WideStencil` runs the kernel over the communicator's Map, on the assumption that its caller passes that Map with the padded extents (see "## Left out"). With width 2 every mapped site is far enough from the faces for the stencil. With width 1 the two-step read leaves the row and lands on another site.

MPI, the device and the rank table are parameters:

- A `Send` result is the locked communicator, the packed buffers and the 52 requests, as values.
- `Recv` takes the arrived buffers as its input.
- The rank table is a 3 x 3 x 3 array of integers.

The `Map` loop fills only the entries at width-1 coordinates 1 .. N-2 on every axis. For a 4 x 4 x 4 block with width 2 that is 8 entries, not all 64 (`HaloMap.FilledCount`, `HaloMap.MapScenario`). The other entries keep whatever `Map.resize` left there. The model follows the code and takes that initial content as a parameter.

## Model

| member | source | states |
|---|---|---|
| Grid.Coords | common/WideHalo.cpp:188 | decoding a flat index gives x and y in range, and re-encoding gives the index back |
| Grid.CoordsOfFlat | common/WideHalo.cpp:188 | decoding the index of a cell with in-range x and y gives the cell back |
| Grid.FlatInjective | common/WideHalo.cpp:188 | two such cells share a flat index if and only if they are equal |
| Grid.FlatInRange | common/WideHalo.cpp:188 | a cell inside an Nx x Ny x Nz array has an index in [0, Nx*Ny*Nz) |
| Grid.CoordsInArray | common/WideHalo.cpp:188 | an index in [0, Nx*Ny*Nz) decodes to a cell inside the array |
| Grid.FlatPlus | cpu/MixedGradient.cpp:29-31 | translating a cell adds the translation's flat index to the cell's index |
| Directions.Opposite | common/WideHalo.cpp:239-291 | the opposite direction has the negated offset vector |
| Directions.OppositeInvolutive | common/WideHalo.cpp:239-291 | taking the opposite twice gives the direction back, and no direction is its own opposite |
| Directions.Code | common/WideHalo.cpp:34-60 | the row-major position of an offset in the rank table is below 27, and it is 13 exactly for the centre |
| Directions.CodeInjective | common/WideHalo.cpp:34-60 | two offsets share a rank-table position if and only if they are equal |
| Directions.AllComplete | common/WideHalo.cpp:34-60 | every direction sits at its own index in the list of all directions |
| Directions.AllEnumerates | common/WideHalo.cpp:34-60 | the list of all directions holds each of the 26 neighbour directions exactly once |
| Suffixes.SuffixesFollowNaming | common/WideHalo.cpp:34-60 | each of the 26 rank-variable suffixes denotes its direction: lower case is -1 on that axis, upper case +1, and an absent letter 0 |
| HaloTables.RankReadsFollowRule | common/WideHalo.cpp:34-60 | there are 27 rank reads; each reads slot 1 + component of its offset on every axis; the first is the centre; the other 26 cover every direction once |
| HaloTables.RankReadSlots | common/WideHalo.cpp:34-60 | read n takes slot 1 + component of its offset on each axis |
| HaloTables.RankReadsEnumerate | common/WideHalo.cpp:35-60 | the 26 reads after the first name each neighbour direction exactly once |
| HaloTables.RankReadAt | common/WideHalo.cpp:34-60 | read n of the constructor as written: the direction whose rank variable it assigns and the three rank-table slots it reads; `HaloTables.RankReadsFollowRule` states their rule |
| HaloTables.SendCallsFollowSlabRule | common/WideHalo.cpp:66-95 | every send call's box is the send box of the list it fills: a width-thick inner slab at the low or high end of each non-zero axis, the owned range elsewhere |
| HaloTables.SendCallBox | common/WideHalo.cpp:66-95 | the same, for the n-th send call |
| HaloTables.SendListsEnumerate | common/WideHalo.cpp:66-95 | the 26 send calls fill each direction's list exactly once |
| HaloTables.SendCallAt | common/WideHalo.cpp:66-95 | send call n as written: the count variable it assigns, the list it fills and its six bounds; `HaloTables.SendCallsFollowSlabRule` states their rule |
| HaloTables.RecvCallsFollowSlabRule | common/WideHalo.cpp:98-127 | every receive call assigns the count of the list it fills, in the send calls' order, with the width-thick outer ghost slab on each non-zero axis |
| HaloTables.RecvCallBox | common/WideHalo.cpp:98-127 | the same box rule, for the n-th receive call |
| HaloTables.RecvListsEnumerate | common/WideHalo.cpp:98-127 | the 26 receive calls fill each direction's list exactly once |
| HaloTables.RecvCallAt | common/WideHalo.cpp:98-127 | receive call n as written, in the same form; `HaloTables.RecvCallsFollowSlabRule` states their rule |
| HaloTables.ExchangePairsOpposite | common/WideHalo.cpp:239-291 | the n-th Irecv is posted for the opposite of the n-th Isend's direction, and both schedules cover all 26 directions once |
| HaloTables.SendScheduleEnumerates | common/WideHalo.cpp:239-291 | the Isend schedule sends every direction's buffer exactly once |
| HaloTables.PackUnpackOrdersEnumerate | common/WideHalo.cpp:208-328 | Send packs, and Recv unpacks, each of the 26 directions exactly once |
| HaloTables.PackAt | common/WideHalo.cpp:208-234 | the direction of the n-th pack call as written |
| HaloTables.ExchangePairAt | common/WideHalo.cpp:239-291 | the buffers of the n-th Isend and the n-th Irecv as written; `HaloTables.ExchangePairsOpposite` states that they are opposite |
| HaloTables.UnpackAt | common/WideHalo.cpp:302-328 | the direction of the n-th unpack call as written |
| Boxes.Pad | common/WideHalo.cpp:19-22 | the padded extent on each axis, less two halo widths, equals the local extent less 2 |
| Boxes.SendSlab | common/WideHalo.cpp:66-95 | the bounds one axis gives a send call: [w, 2w) for -1, [w, N-w) for 0, [N-2w, N-w) for +1; `Boxes.SendBoxInOwned` and `Boxes.SlabShift` state what they cover |
| Boxes.GhostSlab | common/WideHalo.cpp:98-127 | the bounds one axis gives a receive call: [0, w), [w, N-w) or [N-w, N); `Boxes.GhostSlabClassify` states that the three split [0, N) |
| Boxes.SendBox | common/WideHalo.cpp:66-95 | the box of the send call for d, one send slab per axis |
| Boxes.RecvBox | common/WideHalo.cpp:98-127 | the box of the receive call for d, one ghost slab per axis |
| Boxes.OwnedBox | common/WideHalo.cpp:185-187 | the Map loop's range [w, N-w) on every axis; `Boxes.GhostBoxPartition` states that no receive box meets it |
| Boxes.CellsExact | common/WideHalo.cpp:66-127 | the enumeration of a box lists only cells of the box, and lists every cell of the box at its position |
| Boxes.CellsMembership | common/WideHalo.cpp:66-127 | a cell is listed if and only if the box contains it |
| Boxes.CellsDistinct | common/WideHalo.cpp:66-127 | no cell is listed twice |
| Boxes.CellsShift | common/WideHalo.cpp:66-127 | translating a box translates its enumeration entry by entry |
| Boxes.HaloBlock | common/WideHalo.cpp:66-127 | the index list getHaloBlock fills for a box has one entry per cell of the box, the count it returns |
| Boxes.HaloBlockInArray | common/WideHalo.cpp:66-127 | the index list of a box inside the padded array holds distinct indices in [0, Nh) |
| Boxes.GhostSlabClassify | common/WideHalo.cpp:98-127 | along one axis, a coordinate is in the low ghost slab, the owned range or the high ghost slab exactly as its classification says |
| Boxes.GhostBoxPartition | common/WideHalo.cpp:98-127 | every padded cell lies in exactly one of the 26 receive boxes and the owned box |
| Boxes.GhostBoxInArray | common/WideHalo.cpp:98-127 | every receive box and the owned box lie inside the padded array |
| Boxes.SendBoxInOwned | common/WideHalo.cpp:66-95 | every send box lies in the owned region, within [w, 2w) or [N-2w, N-w) on each axis where its direction is non-zero |
| Boxes.ThinBlockSendsGhost | common/WideHalo.cpp:66-67 | for local extent 3 and halo width 2 the block is valid but not roomy, and the -x send box takes in cell (3,2,2), which is outside the owned region and inside the +x receive box |
| Boxes.SlabShift | common/WideHalo.cpp:66-127 | along one axis, an inner send slab shifted into the neighbour's coordinates is the neighbour's opposite ghost slab |
| Boxes.SendBoxMatchesPeerRecvBox | common/WideHalo.cpp:66-127 | the send box of d, seen from the neighbour across d, is that neighbour's receive box of -d |
| Boxes.SendRecvOrderAgree | common/WideHalo.cpp:66-127 | the n-th cell packed for d, translated to the neighbour, is the n-th cell that neighbour unpacks for -d |
| Boxes.GhostSlabsSum | common/WideHalo.cpp:98-127 | along one axis, the two ghost slabs and the owned range add up to the extent, and the owned range is N - 2w |
| Boxes.RecvCountsAlongZSum | common/WideHalo.cpp:98-127 | the receive counts of the directions (a, b, *) add up to the a-slab in x times the b-slab in y times the full z extent, less the owned cells when a = b = 0 |
| Boxes.RecvCountsAlongYZSum | common/WideHalo.cpp:98-127 | the receive counts of the directions (a, *, *) add up to the a-slab in x times the full y and z extents, less the owned cells when a = 0 |
| Boxes.RecvCountsSum | common/WideHalo.cpp:98-127 | the 26 receive counts add up to Nh minus the owned cells: the ghost region is covered exactly once |
| HaloCounts.LastWriter | common/WideHalo.cpp:66-95 | the last writer of a count variable among the first n calls, when there is one, is one of those calls |
| HaloCounts.LastWriterSpec | common/WideHalo.cpp:66-95 | the last writer assigns the variable and no later call does; there is none if and only if no call assigns the variable |
| HaloCounts.AsWrittenCount | common/WideHalo.cpp:66-95 | a count variable is unset if and only if no send call assigns it |
| HaloCounts.SendCount | common/WideHalo.cpp:66-95 | the intended send count of d is the length of d's send list |
| HaloCounts.SendCountMatchesPeerRecvCount | common/WideHalo.cpp:66-127 | the intended send count of d equals the receive count of -d that the neighbour expects |
| HaloCounts.CountsFollowLists | common/WideHalo.cpp:66-95 | every send call except those at lines 71 and 91 assigns the count with the suffix of the list it fills |
| HaloCounts.CountWriters | common/WideHalo.cpp:66-95 | sendCount_X is last written by line 71 and sendCount_xYz by line 91; sendCount_Z and sendCount_xYZ are never written |
| HaloCounts.AsWrittenCountsDefects | common/WideHalo.cpp:71-91 | as written, sendCount_Z and sendCount_xYZ are unset, sendCount_X holds the size of the +z list and sendCount_xYz the size of the (-x,+y,+z) list |
| HaloCounts.OverwrittenCount | common/WideHalo.cpp:66-95 | a count variable holds the size of the list filled by its last writer |
| HaloCounts.CallCount | common/WideHalo.cpp:66-95 | the size a send call returns is the length of the list it fills |
| HaloCounts.AsWrittenCountsElsewhere | common/WideHalo.cpp:66-95 | the 22 count variables other than X, Z, xYz and xYZ hold the length of their own send list |
| HaloCounts.LastWriterIsOwnCall | common/WideHalo.cpp:66-95 | for those 22, the call filling the list is the last to assign its count |
| HaloCounts.OtherCallsWriteOtherCounts | common/WideHalo.cpp:66-95 | for those 22, no other call assigns the count |
| HaloCounts.AsWrittenXCountWrong | common/WideHalo.cpp:71 | whenever the padded x and z extents differ and the padded y extent exceeds twice the width, the as-written sendCount_X differs from the +x list length, which is the receive count the -x neighbour expects |
| HaloCounts.FaceSizesDiffer | common/WideHalo.cpp:67-71 | when the padded x and z extents differ and the padded y extent exceeds twice the width, the +x and +z send lists have different lengths |
| HaloCounts.AsWrittenCountCounterexample | common/WideHalo.cpp:71 | for a 4 x 4 x 6 padded block of width 1, sendCount_X as written is 4, while the +x list and the neighbour's receive count are 8 |
| HaloCounts.ExampleSizes | common/WideHalo.cpp:67-71 | in that block the +z list holds 4 cells and the +x list 8 |
| PackUnpack.Pack | common/WideHalo.cpp:208-234 | a packed buffer has one entry per list index |
| PackUnpack.Unpack | common/WideHalo.cpp:302-328 | unpacking keeps the array's size |
| PackUnpack.UnpackFrame | common/WideHalo.cpp:302-328 | unpacking leaves every index outside the list unchanged |
| PackUnpack.UnpackWrites | common/WideHalo.cpp:302-328 | on a list without repeats, unpacking stores buffer entry i at list index i |
| PackUnpack.PackAfterUnpack | common/WideHalo.cpp:208-328 | packing after unpacking the same repeat-free list returns the buffer |
| PackUnpack.UnpackAfterPack | common/WideHalo.cpp:208-328 | unpacking what was packed from the same array leaves the array unchanged |
| PackUnpack.UnpackEach | common/WideHalo.cpp:302-328 | a sequence of unpacks keeps the array's size |
| PackUnpack.UnpackEachFrame | common/WideHalo.cpp:302-328 | an index on none of the lists keeps its value through a sequence of unpacks |
| PackUnpack.UnpackEachWrites | common/WideHalo.cpp:302-328 | for repeat-free lists that share no index, entry i of list n ends up holding entry i of buffer n |
| Exchange.Create | common/WideHalo.cpp:9-22 | a new communicator is unlocked and its padded array has (Nx+2(w-1))(Ny+2(w-1))(Nz+2(w-1)) cells |
| Exchange.RankLookup | common/WideHalo.cpp:34-60 | each of the 27 rank reads yields the rank of the neighbour at its offset, and the first yields the process's own rank |
| Exchange.Neighbour | common/WideHalo.cpp:34-60 | the rank of the subdomain at an offset: the rank-table entry at slot 1 + component on every axis; `Exchange.RankLookup` states that each rank variable holds it |
| Exchange.SendList | common/WideHalo.cpp:66-95 | the send list of d: getHaloBlock of d's send box; `Exchange.ListsFit` states its properties |
| Exchange.RecvList | common/WideHalo.cpp:98-127 | the receive list of d: getHaloBlock of d's receive box; `Exchange.ListsFit` and `Exchange.RecvListOwner` state its properties |
| Exchange.ListsFit | common/WideHalo.cpp:66-127 | both lists of every direction hold distinct indices of the padded array, and the receive list has the receive count |
| Exchange.RecvListOwner | common/WideHalo.cpp:98-127 | an index on the receive list of d is a padded cell whose region is d |
| Exchange.RecvListCover | common/WideHalo.cpp:98-127 | every padded cell outside the owned region is on the receive list of its region |
| Exchange.SendBuffer | common/WideHalo.cpp:208-234 | the buffer packed for d has the length of d's send list |
| Exchange.SendBuffers | common/WideHalo.cpp:208-234 | Send packs 26 buffers |
| Exchange.SendBufferOf | common/WideHalo.cpp:208-234 | the buffer of d sits at d's position |
| Exchange.SendListMatchesPeer | common/WideHalo.cpp:66-127 | the send list of d is as long as the receive list of -d |
| Exchange.RequestAt | common/WideHalo.cpp:206-291 | every request carries tag 1 and is addressed to the rank of its buffer's direction |
| Exchange.Requests | common/WideHalo.cpp:239-291 | Send posts 52 requests |
| Exchange.RequestPair | common/WideHalo.cpp:239-291 | requests 2n and 2n+1 are the n-th pair: the send of one direction's buffer and the receive into the opposite direction's, each to its direction's rank with tag 1 |
| Exchange.RequestsFollowSchedule | common/WideHalo.cpp:206-291 | all 52 requests carry the one tag; request 2n is the n-th Isend and request 2n+1 the Irecv for the opposite direction, each to its direction's rank; each direction is sent once and received once |
| Exchange.MatchedInOrder | common/WideHalo.cpp:239-291 | between two processes that see each other consistently, a posts as many sends to b as b posts receives from a, and the j-th receive is for the opposite of the j-th send's direction, however many directions lead to the same rank |
| Exchange.MatchedPrefix | common/WideHalo.cpp:239-291 | the same pairing holds for the first n Isend/Irecv pairs |
| Exchange.Send | common/WideHalo.cpp:196-203 | Send succeeds if and only if the communicator is unlocked, and a successful Send leaves it locked |
| Exchange.SendPacks | common/WideHalo.cpp:208-291 | the buffer of d is the array's values on d's send list, its length is the receive count of the neighbour's -d list, and the requests are the schedule's |
| Exchange.UnpackInOrder | common/WideHalo.cpp:302-328 | unpacking the arrived buffers keeps the array's size |
| Exchange.Recv | common/WideHalo.cpp:294-330 | Recv releases the lock and keeps the geometry and the array's size |
| Exchange.LockProtocol | common/WideHalo.cpp:196-203 | a new communicator accepts a Send; a second Send before Recv is an error; after Recv a Send is accepted again |
| Exchange.RecvListsDisjoint | common/WideHalo.cpp:98-127 | receive lists of distinct directions share no index, and none repeats an index |
| Exchange.UnpackInOrderSpec | common/WideHalo.cpp:302-328 | unpacking in any order that lists each direction once puts the buffer of d on d's receive list and leaves every owned cell unchanged |
| Exchange.OwnedNotReceived | common/WideHalo.cpp:98-127 | no receive list names an owned cell |
| Exchange.UnpackOrderIrrelevant | common/WideHalo.cpp:302-328 | any two unpack orders that each list every direction once give the same array |
| Exchange.UnpackedValue | common/WideHalo.cpp:302-328 | after unpacking, an owned cell keeps its value and any other cell holds the entry of its region's buffer at its position in that region's box |
| Exchange.RecvSpec | common/WideHalo.cpp:294-330 | Recv puts each buffer on its receive list, leaves the owned region alone, and agrees with every other complete unpack order |
| Exchange.HaloRoundTrip | common/WideHalo.cpp:208-328 | when the -d buffer holds what the neighbour across -d packed for d, Recv leaves on the -d receive list exactly the neighbour's send-list values, cell n matching the neighbour's send cell n |
| Delivery.Deliver | common/WideHalo.cpp:239-291 | the j-th message a sends b lands in the buffer of b's j-th receive from a; the inbox keeps its 26 buffers, and `Delivery.DeliverHalo` and `Delivery.DeliverFrame` state which of them change |
| Delivery.Transfer | common/WideHalo.cpp:239-291 | delivery between the results of two Sends keeps b's 26 receive buffers |
| Delivery.SendsToContents | common/WideHalo.cpp:239-291 | over the first n Isend/Irecv pairs, the sends to a peer are exactly the scheduled directions whose neighbour is that peer, each once |
| Delivery.RecvsFromNeighbours | common/WideHalo.cpp:239-291 | every receive posted for a peer goes into the buffer of a direction whose neighbour is that peer |
| Delivery.DeliverHalo | common/WideHalo.cpp:239-291 | between processes that see each other consistently, the buffer b keeps for -d receives the buffer a packed for d whenever b is a's neighbour across d |
| Delivery.DeliverFrame | common/WideHalo.cpp:239-291 | a receive buffer of b whose direction does not lead to a is left as it was |
| Delivery.DeliverKeepsArrived | common/WideHalo.cpp:239-291 | delivery keeps every receive buffer at its direction's receive count |
| Delivery.DeliveredRoundTrip | common/WideHalo.cpp:196-330 | after both processes Send and a's messages are delivered, the Recv on b's communicator as its Send left it leaves on its -d receive list exactly a's values on its d send list |
| HaloMap.MapSlots | common/WideHalo.cpp:185-192 | the loop writes one Map slot per owned cell |
| HaloMap.Back | common/WideHalo.cpp:189 | the shift (w-1, w-1, w-1) from a padded coordinate to the Map coordinate i-width+1 |
| HaloMap.OwnedMovesToFilled | common/WideHalo.cpp:185-189 | a padded cell is owned if and only if, moved back by w-1 on every axis, it lies in [1, N-1) on every axis |
| HaloMap.MapSlotsFit | common/WideHalo.cpp:185-189 | the slots are distinct positions of the Nx x Ny x Nz Map |
| HaloMap.BuildMap | common/WideHalo.cpp:24-192 | the Map keeps the Nx*Ny*Nz size it was resized to |
| HaloMap.MapEntry | common/WideHalo.cpp:185-192 | an entry at coordinates in [1, N-1) holds the padded index of the owned cell w-1 further along every axis; any other entry keeps its initial value |
| HaloMap.MapEntriesDistinct | common/WideHalo.cpp:185-192 | filled entries are indices of the padded array, and two filled entries are equal if and only if they are the same entry |
| HaloMap.FilledCount | common/WideHalo.cpp:185-192 | the loop fills (Nx-2)(Ny-2)(Nz-2) entries |
| HaloMap.MapScenario | common/WideHalo.cpp:185-192 | for a 4 x 4 x 4 block with width 2 the padding is 6 x 6 x 6; entry (1,1,1) names padded cell (2,2,2), entry (2,2,2) names (3,3,3), and entry (3,1,1) is not written |
| MixedGradient.VelocityPairs | cpu/MixedGradient.cpp:7-11 | rows 2m and 2m+1 of the D3Q19 table are opposite velocities |
| MixedGradient.Velocity | cpu/MixedGradient.cpp:7-11 | row q of the D3Q19 table as written; `MixedGradient.VelocityPairs`, `MixedGradient.VelocityShape` and `MixedGradient.VelocitiesDistinct` state its shape |
| MixedGradient.VelocityShape | cpu/MixedGradient.cpp:7-11 | every row has components in {-1,0,1}; the first six have one non-zero component and the other twelve have two |
| MixedGradient.VelocityIndex | cpu/MixedGradient.cpp:7-11 | every such velocity with one or two non-zero components appears in some row |
| MixedGradient.VelocitiesDistinct | cpu/MixedGradient.cpp:7-11 | two rows hold the same velocity if and only if they are the same row |
| MixedGradient.VelocityRow | cpu/MixedGradient.cpp:7-11 | looking up a row's velocity gives the row back |
| MixedGradient.CDiv | cpu/MixedGradient.cpp:20-22 | C division truncates toward zero: the remainder has the dividend's sign and is smaller than the divisor in magnitude |
| MixedGradient.Decompose | cpu/MixedGradient.cpp:20-22 | the decoded (i, j, k) re-encodes to n, and for n >= 0 it is the Euclidean decoding |
| MixedGradient.DecomposeSpec | cpu/MixedGradient.cpp:20-22 | the three statements compute a cell whose flat index is n, and for n >= 0 it is the Euclidean decoding |
| MixedGradient.DecomposeInRange | cpu/MixedGradient.cpp:20-22 | for n >= 0 the decoded i lies in [0, Nx) and j in [0, Ny) |
| MixedGradient.DecomposeFlat | cpu/MixedGradient.cpp:20-22 | decoding the index of a cell with i, j in range and k >= 0 gives the cell back |
| MixedGradient.NegativeIndexDecodesOutside | cpu/MixedGradient.cpp:20-22 | an index just below zero decodes to i = n, outside the row, rather than to the last cell of the plane below |
| MixedGradient.NeighbourIndices | cpu/MixedGradient.cpp:29-31 | np, np2 and nm are the flat indices of c + e, c + 2e and c - e |
| MixedGradient.Forward | cpu/MixedGradient.cpp:29 | np; `MixedGradient.NeighbourIndices` states that it is the flat index of c + e |
| MixedGradient.Forward2 | cpu/MixedGradient.cpp:30 | np2; the flat index of c + 2e |
| MixedGradient.Backward | cpu/MixedGradient.cpp:31 | nm; the flat index of c - e |
| MixedGradient.InteriorReach | cpu/MixedGradient.cpp:29-34 | from a site at least two cells from every face, every cell the stencil reads is inside the array |
| MixedGradient.InteriorReadsInBounds | cpu/MixedGradient.cpp:29-46 | from such a site, np, np2 and nm lie in [0, Nx*Ny*Nz) and decode to the intended neighbours |
| MixedGradient.RowWrap | cpu/MixedGradient.cpp:29 | at the end of a row, the +x neighbour index is the first cell of the next row, not a cell beyond the row |
| MixedGradient.Read | cpu/MixedGradient.cpp:23-34 | a read succeeds if and only if the index is in range, and then yields the array's value |
| MixedGradient.Weight | cpu/MixedGradient.cpp:35-47 | the weight is 0.25 exactly for the face velocities (one non-zero component) and 0.125 exactly for the edge velocities (two) |
| MixedGradient.Term | cpu/MixedGradient.cpp:29-47 | a velocity's term succeeds if and only if np, np2 and nm all index Phi |
| MixedGradient.Accumulate | cpu/MixedGradient.cpp:24-48 | grad += term for the remaining velocities in turn; `MixedGradient.AccumulateOk` and `MixedGradient.AccumulateSum` state its result |
| MixedGradient.GradientAt | cpu/MixedGradient.cpp:18-48 | the kernel succeeds at site n if and only if Phi[n] exists and every one of the 18 terms reads inside Phi |
| MixedGradient.Terms | cpu/MixedGradient.cpp:25-48 | a site has 18 terms, one per velocity |
| MixedGradient.AccumulateOk | cpu/MixedGradient.cpp:25-48 | the running sum succeeds if and only if every remaining term succeeds |
| MixedGradient.AccumulateSum | cpu/MixedGradient.cpp:25-48 | when every remaining term succeeds, the running sum ends at its start plus the sum of the terms |
| MixedGradient.AccumulateZeros | cpu/MixedGradient.cpp:25-48 | when every successful term is zero, a successful sum ends where it started |
| MixedGradient.StencilTerms | cpu/MixedGradient.cpp:25-48 | the stencil has one term per velocity |
| MixedGradient.TermIsStencilTerm | cpu/MixedGradient.cpp:29-47 | at an interior site the kernel's term for velocity q is the weighted stencil 5 phi(c+e) - phi(c+2e) - 3 phi(c) - phi(c-e) |
| MixedGradient.InteriorGradient | cpu/MixedGradient.cpp:23-48 | at an interior site the kernel succeeds and computes the sum of the 18 weighted stencil terms |
| MixedGradient.ConstantTerms | cpu/MixedGradient.cpp:35-47 | on a constant field every term that reads inside the array is zero |
| MixedGradient.ConstantFieldGivesZero | cpu/MixedGradient.cpp:23-48 | on a constant field the kernel's value is 0 wherever it succeeds |
| MixedGradient.Sweep | cpu/MixedGradient.cpp:17-49 | a successful loop keeps the Gradient array's size |
| MixedGradient.Expected | cpu/MixedGradient.cpp:17-49 | the reference result, defined by the set of visited sites alone, keeps the array's size |
| MixedGradient.SweepOk | cpu/MixedGradient.cpp:17-49 | the loop succeeds if and only if every idx in [start, finish) indexes Map, its site indexes Gradient, and the kernel succeeds at that site |
| MixedGradient.ExpectedInsert | cpu/MixedGradient.cpp:49 | writing one visited site's value first does not change the reference result |
| MixedGradient.SitesSplit | cpu/MixedGradient.cpp:17-18 | the sites from start on are Map[start] together with the sites after it |
| MixedGradient.SweepMatchesExpected | cpu/MixedGradient.cpp:17-49 | a successful loop leaves exactly the reference result: each visited site holds its gradient and every other entry is unchanged |
| MixedGradient.SweepOrderIrrelevant | cpu/MixedGradient.cpp:17-49 | two successful loops over the same set of sites leave the same array |
| MixedGradient.InteriorSweepOk | cpu/MixedGradient.cpp:17-49 | when every listed site decodes to an interior cell of an Nx*Ny*Nz array, the loop succeeds |
| WideStencil.MapSiteInterior | common/WideHalo.cpp:185-189 | with width 2, a filled Map entry decodes to the padded cell one step further along every axis, and that cell is two or more cells from every face |
| WideStencil.MapSiteGradient | cpu/MixedGradient.cpp:17-49 | with width 2, the kernel succeeds at every filled Map site and computes the stencil around the matching padded cell |
| WideStencil.MapSweepOk | cpu/MixedGradient.cpp:17-49 | with width 2, a kernel loop over filled Map positions succeeds |
| WideStencil.NarrowHaloMisreads | cpu/MixedGradient.cpp:30-33 | with width 1, Map sends cell (1,1,1) to itself, and the two-step -x read from there lands on cell (Nx-1, 0, 1) in the row below, not on (-1, 1, 1) |

## Left out

- MPI itself is not modelled: `MPI_Comm_dup`, `MPI_Barrier`, the request handles and the blocking of `MPI_Waitall`. Send returns its requests as values, and Recv starts from the buffers that arrived. Message matching is stated over the posted request lists (`Exchange.MatchedInOrder`), and delivery between one pair of processes is `Delivery.Deliver`. Completion, buffering and transport failures are not modelled.
- Device calls are not modelled: `ScaLBL_AllocateZeroCopy`, `ScaLBL_DeviceBarrier` and the copies between host and device. Allocation shows up only through the buffer lengths.
- `RankInfoStruct` is not part of this model. The 3 x 3 x 3 rank table is an input.
- The body of `getHaloBlock` is not part of this model. It is assumed to list the box's cells with i fastest, then j, then k, and to return their number. An empty box, with hi <= lo, lists nothing.
- The bodies of `ScaLBL_Scalar_Pack` and `ScaLBL_Scalar_Unpack` are not part of this model. They are taken to gather and scatter along the list, entry 0 first.
- `ERROR` on a locked Send aborts the program. Here it is an `Err` result.
- The index arithmetic uses unbounded integers. Neither file's 32-bit `int` overflow, which would need more than 2^31 cells, is modelled.
- Field values are reals. IEEE rounding, and therefore the order in which the 18 terms are added, is not modelled.
- `Phi` and `Gradient` are separate sequences. Calling the kernel with the two pointing at the same storage is not modelled.
- The kernel's `Np` and `Nz` parameters are unused by its body and do not appear. Nz enters the lemmas only as the array bound.
- Out-of-range reads and writes in the kernel are `Err` results. The source does not check for them.
- The initial contents of `Map` after `Map.resize` are a parameter (`init`). The code writes no sentinel.
- Exchange.SendBuffer: sizes and packs every send buffer by its own list's length, the corrected count `HaloCounts.SendCount`. As written, the +x buffer is allocated, packed and sent with `sendCount_X`, which holds the +z list's length (lines 130, 211, 241). The +z and (-x,+y,+z) buffers use `sendCount_Z` and `sendCount_xYZ`, which are never assigned (lines 135, 213, 249 and 153, 230, 286). The as-written counts are `HaloCounts.AsWrittenCount`, and `HaloCounts.AsWrittenXCountWrong` proves that the +x one differs from the list length when the padded x and z extents differ and the padded y extent exceeds twice the width. When the y extent leaves no interior both lists are empty and the wrong count is 0 by coincidence.
- Exchange.SendPacks: states that each buffer has the length the neighbour expects, which holds of the corrected counts. For the three directions above the code as written does not keep this promise (see Findings).
- Exchange.HaloRoundTrip: takes the arrived -d buffer as a requirement. `Delivery.DeliverHalo` derives it from the posted requests and in-order matching, and `Delivery.DeliveredRoundTrip` states the round trip without it.
- Delivery.DeliverHalo: both processes have the same padded shape, one geometry for both. The code presumes that neighbouring subdomains have equal local extents and the same width, and does not check it.
- Delivery.DeliveredRoundTrip: the same equal-shape assumption. Delivery is stated for one pair of processes; the inbox of b collects the deliveries of all its neighbours, and `Delivery.DeliverFrame` states that a delivery from one neighbour leaves the buffers of the others alone.
- Boxes.SendBoxInOwned: requires every padded extent to be at least three halo widths, that is, the local extent less 2 is at least the width. The code does not check this, and `Boxes.ThinBlockSendsGhost` shows that on a thinner block the -x send box takes in ghost cells.
- HaloMap.MapEntriesDistinct: requires a halo width of at least 1, the smallest width the communicator is used with. It is not stated for width 0.
- WideStencil.MapSweepOk: no call of `ScaLBL_D3Q19_MixedGradient` is part of this model. The lemma assumes the caller passes the communicator's `Map` as `Map`, lets `idx` run over width-1 flat positions, and passes the padded extents `Nxh` and `Nyh` as `Nx` and `Ny`. For any other list of sites that are all filled Map entries, `WideStencil.MapSiteInterior` gives the interior hypothesis of `MixedGradient.InteriorSweepOk`.
- WideStencil.MapSiteGradient: the same assumption about the caller, for one site.
- WideStencil.MapSiteInterior: stated for width 2, the width the mixed-gradient kernel needs. `WideStencil.NarrowHaloMisreads` covers width 1.
- The test drivers under `tests/` are not modelled.

## Findings

| source | as written | input that shows it | evidently intended | confidence | as-written member | corrected member |
|---|---|---|---|---|---|---|
| common/WideHalo.cpp:71 | The +z send call stores its list length in `sendCount_X`, overwriting the +x count from line 67. `sendCount_Z` is never assigned, but it sizes the +z buffer, pack and Isend (lines 135, 213, 249). | A 4 x 4 x 6 padded block of width 1 (local 4 x 4 x 6): `sendCount_X` becomes 4, but the +x list, and the -x neighbour's receive count, hold 8. | The call assigns `sendCount_Z`, so every send count is the length of its own list and equals the neighbour's receive count. | not executed | HaloCounts.AsWrittenCountCounterexample | HaloCounts.SendCount |
| common/WideHalo.cpp:91 | The (-x,+y,+z) corner call stores its list length in `sendCount_xYz`, overwriting line 90. `sendCount_xYZ` is never assigned, but it sizes that corner's buffer, pack and Isend (lines 153, 230, 286). | Any shape, for example the same 4 x 4 x 6 block: `sendCount_xYZ` has no value when the (-x,+y,+z) buffer is allocated. | The call assigns `sendCount_xYZ`. | not executed | HaloCounts.AsWrittenCountsDefects | HaloCounts.SendCount |

The corrected counts are `HaloCounts.SendCount`: the length of each direction's own send list. `HaloCounts.SendCountMatchesPeerRecvCount` proves that each equals the receive count the neighbour posts. The exchange model sizes every send buffer by its list (`Exchange.SendPacks`).

Both corner lists hold width^3 cells, so the value in `sendCount_xYz` is right by coincidence. The defect at line 91 is only the unassigned `sendCount_xYZ`.
