# Verified models of the Mahjong game and of selected network code

This project models two parts of the repository in Dafny and proves what they are for:

* the Mahjong game of `UIED_Mahjong_server.c` and `UIED_Mahjong_client.c`, the
  repository's own code, and
* nine programs and library functions of `unpv13e` whose correctness is not visible in one
  function body: the IPv6 text forms, three interleaved I/O designs, the Internet
  checksum, the address list of `getaddrinfo`, and buffered line reading.

`dafny verify dfyconfig.toml` checks everything; each file holds one module of the same
name.

## How the models are built

Code that the repository writes as updates of arrays and globals is written as methods on
arrays and classes with the same fields (`Seats.Player` is `struct player`,
`Table.Server` holds the server's globals, `Replica.Seat` the client's, `SigioRing.Echo`
the ring, `Prefork.Server` the table of children, `NonblockCopier.Client` the two
buffers, `AddrList.AddrInfo` the list node, `LineReader.Reader` the statics of
`readline`). Every such method is proved to compute a function, or to satisfy a relation,
on values; the theorems are then about those values, over all inputs and whole runs.

What the environment decides is a parameter: the priorities from `rand()`, what players
answer, when a signal arrives, what `select`, `read` and `write` return, which child runs
next, what `getservbyname` finds. A run is a sequence of such choices, and the theorems
hold for every sequence.

**Mahjong.** `Tiles`, `QuickSort`, `Wall`, `Winning`, `Melds` and `Seats` are the pieces;
`Snapshots` is the table as a value with the law that no tile is lost; `Dealing` is the
deal; `Play` is a round as a state machine (draw, discard, reaction, win) with the
invariant that all its steps keep and the measure that they all lower. The methods of
`Table` carry a ghost `history` and are proved to extend it only by steps of `Play`, so
that every theorem about runs of `Play` is one about the server. `Messages` says which
typed messages and answers pass between the server and the client of each seat in every
step; `DiscardText` is the one message whose text carries the information. The methods of
`Table` write messages at the places where the source writes them, and are proved to write
to each seat exactly those of the step. `Replica` is the client: a dispatch on messages
that knows where its program reads next. `Game` puts a round of the server and the client
of any seat together: the client can take every message without leaving its buffers, and
its copy of its seat equals the server's in every state of the round. `Answering` says
which step the players' answers lead to, and `Determined` that rand(), the seat that begins
and the answers leave the server no choice: they determine the whole round.

**Addresses.** `InetText` defines what `inet_ntop` prints and what `inet_pton` reads as
functions and proves the round trip; `InetForm` says the same without the programs'
variables, by words, pieces between separators and digits, and proves it equal;
`InetNtop` and `InetPton` prove the loops, buffers and the in-place shift.

**Interleavings.** `SigioRing`, `Prefork` and `NonblockCopier` are state machines whose
steps are the statements between which something else can happen, each with an invariant
and theorems over all schedules.

**Exact algorithms.** `Checksum`, `AddrList` and `LineReader`.

## Where the code does not do what is said of it

The models follow the code. In these places a property that one would expect, or that the
code's comments claim, holds only under a condition; the condition is proved to be exact,
and a concrete failing input is given.

* Eating with two cells: the two fixed swaps of the eat branch leave a hole in the hand and
  a tile behind its end exactly if the second cell named is the last one and the first is
  not one of the last two (`Melds.EatClosesHand`; input `Melds.EatMisplacesATile`). The win
  test that follows then counts the empty cell outside its 34 counters
  (`Melds.MisplacedEatHasNoCounter`, `Play.MisplacedBreaksHand`), so a modelled round ends
  there. Naming the same cells in the other order is always right
  (`Play.OtherOrderIsSound`).
* The server discards whatever cell an answer names. It is a tile that the next question
  can count exactly if the number is one of the hand (`Play.BadDiscardHasNoCounter`; input
  `Play.BadDiscardExample`). The client sends no other: it lets the player choose again
  until the cell is in the hand (`Replica.Seat.ChooseDiscard`).
* A quiet gang can be accepted exactly if three tiles of the hand equal the one just drawn
  (`Play.DrawnToSorted`; input `Seats.GangExample`). It always leaves the drawn tile in its
  cell as well as on the door, so that the table has five copies of it
  (`Snapshots.QuietGangBreaksTheSet`). And it always stops the game: the server goes on to
  wait for a discard, while the client waits for a tile and every other client for a
  message (`Game.PlayWithClient`, `Replica.NothingIsChosen`).
* `inet_pton` says that `::` in a full address is silently ignored. It is not: every word
  behind it is read as zero (`InetText.FullAddressIsCut`; input
  `InetText.FullAddressExample`).
* `inet_ntop4` does not count the terminator when it tests the size. What it stores stays
  within the size for every address exactly if the size is below 7 or above 15
  (`InetNtop.TerminatorWithinSize`; input `InetNtop.SevenIsTooFew`); for every size between
  there is an address whose terminator is written one character behind the size given.
* `in_cksum` accumulates in 32 bits. The result is right exactly as long as the sum of the
  words stays below 2^32, which is certain up to 131074 bytes and fails for 131075
  (`Checksum.RightUnlessWrapped`, `Checksum.ShortIsRight`; input `Checksum.LongIsWrong`).
  Behind that hosts of different byte order need not agree either
  (`Checksum.HostOrderDoesNotMatter`; input `Checksum.LongDependsOnHost`). Even a wrong
  checksum verifies to zero, for data of every length (`Checksum.VerifiesToZero`).
* The ring of `dgecho01.c` has eight slots, but the handler tests for a full queue before
  it asks whether the socket is empty, so the program quits as soon as eight datagrams are
  queued; seven is the most it can hold (`SigioRing.StepKeepsInv`; input
  `SigioRing.EightOverflow`).
* `str_cli` returns at the end of the socket even if stdout or the socket has not taken
  everything. The replies are complete exactly if the second buffer was empty before the
  turn that finds the end, and the requests exactly if the first one was
  (`NonblockCopier.RepliesComplete`, `NonblockCopier.RequestsComplete`; inputs
  `NonblockCopier.ReplyDropped`, `NonblockCopier.RequestDropped`); both are with a stdout,
  or a socket, that takes what it is offered (`NonblockCopier.WillingStdoutGetsAll`,
  `NonblockCopier.WillingSocketGetsAll`).
* The two forms of `readline` deliver the same lines but not the same counts. They agree
  exactly if the stream is empty, the line ends in a newline, or the stream fills the
  buffer (`LineReader.CountsAgree`), and each is the length of the line exactly in the
  cases of `LineReader.CountsAreLengths`; for the stream "ab" they return 3 and 2
  (`LineReader.CountsDiffer`).

## Model

The first rows, down to `QuickSort.Sort`, are the main theorems; the operations and lemmas
they rest on follow in the order of the program.

| member | source | states |
|---|---|---|
| Winning.HuRecursiveCheck | UIED_Mahjong_server.c:700-738 | for every array of natural counts with sum n the answer is yes exactly if the counts divide into triplets and runs within a numbered suit; on no the array is as it was |
| Winning.HuCheck | UIED_Mahjong_server.c:740-780 | yes exactly if the nc+1 tiles are a pair plus melds; the hand itself is not in the frame |
| Winning.IsAddHuPossible | UIED_Mahjong_server.c:1058-1085 | yes exactly if the hand with the discard is a pair plus melds |
| Winning.WinningMeans | UIED_Mahjong_server.c:740-780 | a hand wins, as these decide it, if and only if it is a pair of equal tiles plus groups of three equal tiles or of three consecutive ones of a numbered suit |
| Melds.EatClosesHand | UIED_Mahjong_server.c:1496-1502 | the swaps leave a hand of nc-2 tiles if and only if not (second cell last and first cell before the last two) |
| Play.StepKeepsInv | UIED_Mahjong_server.c:1087-1540 | every draw, discard, win, pong, gang, well-placed eat and sink keeps the invariant: full set of tiles, sorted waiting hands, one seat with a tile too many when it is its turn |
| Play.RunKeepsInv | UIED_Mahjong_server.c:1653-1668 | the invariant holds in every state of every run from a dealt table |
| Play.RunIsSafe | UIED_Mahjong_server.c:60-65 | in every state of every run all 144 tiles lie on the table, capacity is 1 mod 3 within 1..16, doors have at most 20 tiles, flowers at most 8, and a declared winner has a winning hand |
| Play.RunIsShort | UIED_Mahjong_server.c:1653-1668 | a round has at most as many steps as its first state has energy, a measure made of the wall, the capacities and the phase, whatever is answered |
| Table.Server.Deal | UIED_Mahjong_server.c:440-489 | from any shuffled wall: four sorted hands of sixteen, every tile accounted for, `take_index` at most 72, and the hands, flowers and wall are those that the wall and the first seat lead to |
| Dealing.DealIsDetermined | UIED_Mahjong_server.c:440-474 | the wall and the first seat determine the deal: every hand cell by cell, every flower row in its order, and what is left of the wall |
| Table.Server.OthersReaction | UIED_Mahjong_server.c:1087-1540 | terminates by the measure; ends with the next player to draw, or with a winner after which nothing moves although nested results are dropped, or where the play stops, with the reason and the table it leaves |
| Table.Server.PlayRound | UIED_Mahjong_server.c:1648-1672 | a round follows the rules and the given answers from the deal that rand() and the first seat lead to, to a win or to the last tile of the wall; where it stops otherwise, the last state of the rules and the table are those that the reason given stands for: only flowers left on the wall, a discard outside the hand, an eat answer outside the cells or misplaced, a quiet gang, a player who leaves |
| Determined.RoundIsDetermined | UIED_Mahjong_server.c:1648-1672 | two rounds from the same wall and first seat with the same answers go through the same states, end for the same reason, and leave the same table |
| Game.PlayWithClient | UIED_Mahjong_server.c:1648-1672 | a round as the server plays it and a client of any seat fed with what the server wrote to it: whatever is answered and wherever the round ends, the client's decks, door, flowers, sea, capacity and open discard are the server's in every state of the round; behind a quiet gang too, where both sides wait for each other |
| Replica.StaysInSync | UIED_Mahjong_client.c:757-1155 | for every step, seat and exchange of messages in it: a synchronised client can take every message where it reads and within its buffers, and is synchronised again |
| Replica.ClientSimulatesSeat | UIED_Mahjong_client.c:757-1155 | in every state of every run the decks, door, flowers, sea and capacity of a client that follows its messages are the server's for that seat, and it knows the open discard |
| Replica.Seat.FollowRun | UIED_Mahjong_client.c:746-1155 | the client over a whole run, with a record of its states that agree with the server's at every step |
| DiscardText.ParseReadsBroadcast | UIED_Mahjong_client.c:811-862 | for every player and tile the client's fixed columns recover the tile from the broadcast |
| InetText.RoundTrip | unpv13e/libfree/inet_pton.c:140-224 | for every 16-byte address, every run compressed and both IPv4-embedded forms: parsing the printed text gives the address back |
| InetForm.AddressesRead | unpv13e/libfree/inet_pton.c:140-224 | for every text: what is read is the address of its pieces between colons, which are words below 2^16, at most one of them empty, and last perhaps a dotted quad or nothing; a first colon needs a second |
| InetForm.QuadsRead | unpv13e/libfree/inet_pton.c:86-125 | a text is read as a dotted quad if and only if it is four decimal numbers below 256 with dots between them, and as these numbers |
| InetForm.PrintedText | unpv13e/libfree/inet_ntop.c:157-185 | the text is the words in hexadecimal with colons between them, `::` in place of the run, and the last four bytes as a dotted quad behind `::` or `::ffff:` in the two embedded forms |
| InetForm.CaseDoesNotMatter | unpv13e/libfree/inet_pton.c:145-166 | capital digits read as small ones, in every text |
| InetText.FullAddressIsCut | unpv13e/libfree/inet_pton.c:134 | eight words with `::` before word k are read with all words from k on zero, so the address is kept if and only if they were |
| InetText.ShiftExpands | unpv13e/libfree/inet_pton.c:205-218 | the shift inserts the zeros of `::` if and only if there is a gap or nothing but zeros behind the colon |
| InetNtop.FindRun | unpv13e/libfree/inet_ntop.c:135-156 | the loop finds the leftmost longest run of at least two zero words, or -1 if there is none |
| InetNtop.Ntop6 | unpv13e/libfree/inet_ntop.c:109-198 | the text with exactly the best run compressed goes to the destination if it and its terminator fit in size; otherwise the destination is untouched |
| InetPton.Pton6To | unpv13e/libfree/inet_pton.c:140-224 | the one-pass parser accepts and stores exactly what the specification reads; on failure the destination is untouched |
| InetPton.MoveBehind | unpv13e/libfree/inet_pton.c:205-218 | the overlapping in-place shift leaves the expanded bytes, for every overlap |
| SigioRing.RunIsFifo | unpv13e/sigio/dgecho01.c:57-108 | for every schedule the replies are a prefix of the receipts, at most seven are outstanding, what has not been received waits at the socket with SIGIO pending, (iget + nqueue) mod 8 tracks iput, one ahead only between bump and decrement, and the histogram sums to the receipts |
| SigioRing.NoLostWakeup | unpv13e/sigio/dgecho01.c:56-62 | a datagram that arrives between the test of nqueue and sigsuspend wakes the loop, and all that arrived is answered |
| SigioRing.ArrivalsAreAnswered | unpv13e/sigio/dgecho01.c:57-108 | from every state with queue and socket together below eight, wherever the main loop stands, there is a schedule of at most 45 steps without arrivals after which everything that has arrived is sent |
| SigioRing.StepKeepsInv | unpv13e/sigio/dgecho01.c:80-108 | every step of every interleaving keeps the invariant; "receive overflow" happens if and only if a delivered signal finds queue, socket and arrivals to reach eight |
| SigioRing.SendingSlotIsKept | unpv13e/sigio/dgecho01.c:64-65 | a signal during sendto leaves the slot being sent alone |
| Prefork.RunIsSafe | unpv13e/server/serv05.c:43-81 | in every interleaving navail is the number of children with status 0, and "no available children" is unreachable |
| Prefork.OneChildEach | unpv13e/server/serv05.c:50-65 | each accepted connection is given to exactly one child, once |
| Prefork.NoStall | unpv13e/server/serv05.c:44-47 | if no child can go on and no reply waits, every child is available, so the parent listens |
| Prefork.AcceptedIsServed | unpv13e/server/child05.c:40-50 | from any state, under every schedule in which each child has two turns, every connection accepted so far is served at its end by the child it was given to |
| Prefork.EveryoneIsFreed | unpv13e/server/serv05.c:43-81 | from every state there is a schedule of at most five steps a child, and three, after which every reply is read, every child is available and the parent is at select |
| NonblockCopier.RunIsSafe | unpv13e/nonblock/strclinonb.c:27-123 | over all runs both directions are prefixes of their inputs, at most one FIN is sent, and exactly once stdin has ended with every byte written |
| NonblockCopier.NothingAfterFin | unpv13e/nonblock/strclinonb.c:52-53 | no byte follows the FIN |
| NonblockCopier.RepliesComplete | unpv13e/nonblock/strclinonb.c:64-76 | in the turn that returns stdin has ended, and all replies are at stdout if and only if the second buffer was empty when the turn began |
| NonblockCopier.RequestsComplete | unpv13e/nonblock/strclinonb.c:64-76 | in the turn that returns all of stdin is at the socket and the FIN is sent if and only if the first buffer was empty when the turn began |
| NonblockCopier.WillingSocketGetsAll | unpv13e/nonblock/strclinonb.c:105-122 | over all runs with a socket that takes what it is offered, whenever str_cli goes on or returns the socket has every byte read from stdin, and the FIN exactly once stdin has ended |
| Checksum.RightUnlessWrapped | unpv13e/libfree/in_cksum.c:16-31 | for every int length the result is the complement of the ones'-complement sum if and only if the plain sum is below 2^32 |
| Checksum.VerifiesToZero | unpv13e/ping/send_v4.c:17-19 | for data of every length: stored in a field that was zero, the checksum makes the checksum of the whole 0, as udpread.c expects |
| Checksum.OneWordIsNoticed | unpv13e/udpcksum/udpread.c:76 | for data of every length: a change of one word leaves the checksum the same exactly if it exchanges 0 and 0xffff, with the accumulator not zero before and after and wrapping as often |
| Checksum.HostOrderDoesNotMatter | unpv13e/libfree/in_cksum.c:16-31 | for data of every length: hosts of either byte order compute the same two bytes if and only if the numbers of times that their accumulators wrap are swapped sums too, and both or neither end at zero |
| AddrList.GaPort | unpv13e/libgai/ga_port.c:31-65 | the walk ends although it inserts nodes, leaves a well-linked list from the same head with no node or address shared, and its entries and count are those of the specification |
| AddrList.EachAddressTwice | unpv13e/libgai/ga_serv.c:19-47 | with no socket type asked for, n cloneable entries become 2n in order, each address with type 1 and the TCP port and then with type 2 and the UDP port; a port number is both |
| AddrList.OneTypeAsked | unpv13e/libgai/ga_serv.c:21-46 | with a type asked for, every entry gets the number, or the TCP port for type 1, or the UDP port for type 2; in all other cases nothing changes and nothing is hit |
| LineReader.LinesJoin | unpv13e/lib/readline.c:28-49 | the lines delivered are, joined, a prefix of the stream, and with room for a byte all of it after enough calls |
| LineReader.CountsAgree | unpv13e/server/readline.c:11-26 | the two forms return the same if and only if the stream is empty, the line ends in a newline, or the stream fills the buffer |
| LineReader.SimpleLines | unpv13e/server/readline.c:5-27 | the lines of any number of calls are a function of the stream and the buffer size |
| LineReader.Reader.BufferedLines | unpv13e/lib/readline.c:28-49 | the same function, for every way read cuts the stream and every interruption |
| QuickSort.Sort | UIED_Mahjong_server.c:404-437 | terminates and leaves the range sorted, a permutation, and everything outside it as it was; for either key |
| Tiles.KeyOrdersAsCompare | UIED_Mahjong_server.c:670-684 | for numbers 0 to 9 the single key type*10+number that the sorts use orders tiles exactly as `mj_compare` does, and equal keys mean equal tiles |
| QuickSort.Swap | UIED_Mahjong_server.c:276-281 | two cells change places, all others stay, duplicates included |
| QuickSort.Divide | UIED_Mahjong_server.c:291-311 | the two scans end with no cell on the wrong side of the pivot, nothing outside the range moved, no element lost |
| QuickSort.Partition | UIED_Mahjong_server.c:284-314 | the pivot stands between cells at most and at least it; only the range is rearranged |
| QuickSort.SidesSorted | UIED_Mahjong_server.c:317-319 | sorting the two sides of a parted range sorts the range and still only rearranges it |
| QuickSort.SortedUnique | UIED_Mahjong_server.c:404-437 | two sorted arrangements of the same elements are equal if the key tells them apart, so the sort's result does not depend on its pivots |
| Wall.StackAll | UIED_Mahjong_server.c:323-382 | the five loops stack the set in its order, each tile stamped with what its call of rand() returned |
| Wall.AllStackedIsTheSet | UIED_Mahjong_server.c:323-382 | that is exactly four of each of the 34 kinds and one of each of eight flowers, 144 tiles |
| Wall.StackedInOrder | UIED_Mahjong_server.c:327-382 | which tile stands at which place of it |
| Wall.Stack | UIED_Mahjong_server.c:327-382 | one loop stacks its suit, each tile stamped with what its call of rand() returned |
| Wall.StackedAdds | UIED_Mahjong_server.c:327-382 | that adds exactly the given number of copies of each number of its suit |
| Wall.StackCopies | UIED_Mahjong_server.c:330-336 | the inner loop stacks that many copies of one tile |
| Wall.Shuffle | UIED_Mahjong_server.c:323-386 | the wall is the stacked set in the order of the priorities, and so exactly that set of tiles |
| Wall.ShuffledUnique | UIED_Mahjong_server.c:323-386 | different priorities leave one wall |
| Wall.AtMostEightFlowers | UIED_Mahjong_server.c:375-382 | no collection of flowers taken from the full set has more than eight |
| Wall.FifthCopy | UIED_Mahjong_server.c:323-382 | with one more of a playable kind the bag has five of it and is not the set |
| Winning.TryMeld | UIED_Mahjong_server.c:709-734 | one meld is taken out, the rest decided, and the counts restored exactly if that fails |
| Winning.SplitShrinks | UIED_Mahjong_server.c:700-738 | completeness of the search: a nonempty division contains a meld whose removal leaves a division |
| Winning.SplitGrows | UIED_Mahjong_server.c:700-738 | soundness of the search: putting a meld back on a division gives a division |
| Winning.WinningByCounts | UIED_Mahjong_server.c:761-779 | a bag of tiles is one pair plus melds exactly if its counts less some pair divide into melds |
| Winning.GroupIsMeld | UIED_Mahjong_server.c:708-731 | every group of the game is a legal meld by counters, of the same tiles |
| Winning.MeldIsGroup | UIED_Mahjong_server.c:708-731 | and every legal meld is a group |
| Winning.PairSearch | UIED_Mahjong_server.c:766-779 | the loop over pairs answers yes exactly if some pair leaves counts that divide |
| Winning.CountCells | UIED_Mahjong_server.c:761-765 | the counters hold how often each kind occurs among the first n cells |
| Winning.Insert | UIED_Mahjong_server.c:746-759 | the insertion into the sorted copy only changes the order of its tiles |
| Winning.AddHuAgreesWithHuCheck | UIED_Mahjong_server.c:1058-1085 | the answer for a discard is that of `hu_check` on the hand with the discard at index nc |
| Winning.IsSetPossible | UIED_Mahjong_server.c:980-1012 | gang and pong are offered exactly if the hand has three, or two, copies of the discard |
| Winning.IsEatPossible | UIED_Mahjong_server.c:1014-1056 | eat is offered exactly if two tiles of the hand complete the discard to three consecutive ones of a numbered suit |
| Winning.HasNeighbour | UIED_Mahjong_server.c:1029-1054 | the counter test with its division by 9 says exactly whether the neighbouring number of the same suit is held |
| Melds.SortedHandUnique | UIED_Mahjong_server.c:404-437 | a sorted hand is determined cell by cell by its bag of tiles |
| Melds.SortHand | UIED_Mahjong_server.c:404-437 | sorting the live cells keeps the bag and gives a sorted hand |
| Melds.ThrowAway | UIED_Mahjong_server.c:882-886 | one tile leaves the hand and the other nc are sorted, with empty cells behind them |
| Melds.CopiesStandTogether | UIED_Mahjong_server.c:1134-1146 | in a sorted hand the first c copies of a tile are neighbours, which the compaction depends on |
| Melds.EmptyCopies | UIED_Mahjong_client.c:897-910 | the first scan empties exactly the first c copies of the discard |
| Melds.Compact | UIED_Mahjong_server.c:1147-1159 | wherever the neighbouring holes lie, the swap scan leaves the remaining tiles in the first nc-c cells with no hole, and a drawn tile in cell nc where it is |
| Melds.CloseHoles | UIED_Mahjong_server.c:1319-1333 | after the sort that follows the hand is sorted again and no tile is lost |
| Melds.SortThree | UIED_Mahjong_server.c:1481-1485 | the three tiles in the order of their keys |
| Melds.EatTest | UIED_Mahjong_server.c:1481-1489 | the three sorted tiles are in a row exactly if the two complete the discard, in whatever order they were named |
| Melds.EatSwaps | UIED_Mahjong_server.c:1496-1502 | what the two assignments and the two swaps leave in every cell |
| Melds.EatMisplacesATile | UIED_Mahjong_server.c:1496-1502 | a sorted hand and an eatable answer for which a hole stays inside |
| Melds.MisplacedEatHasNoCounter | UIED_Mahjong_server.c:1511-1522 | behind a misplaced eat the first cell that the win test counts is empty, and its counter is none of the 34 |
| Melds.EatKeepsTiles | UIED_Mahjong_server.c:1496-1502 | even then exactly the two eaten tiles leave the twenty cells |
| Melds.EatCells | UIED_Mahjong_server.c:1496-1513 | swaps and sort: the front is sorted, the two tiles are gone, and outside the misplaced case the hand is a sorted hand of nc-2 |
| Seats.Player.constructor | UIED_Mahjong_server.c:85-97 | a seat starts empty with capacity 16 and four separate buffers |
| Seats.Player.Reset | UIED_Mahjong_server.c:71-83 | every buffer and index is as at the start, whatever was there |
| Seats.Player.MoveCopies | UIED_Mahjong_server.c:1133-1146 | the first scan empties exactly the first c copies and puts as many on the door |
| Seats.Player.LayMeld | UIED_Mahjong_server.c:1131-1146 | discard and copies are on the door, the copies gone from the hand |
| Seats.Player.Meld | UIED_Mahjong_server.c:1131-1161 | a pong or gang as a relation on the whole seat: c copies leave, c+1 tiles join the door, capacity drops by 3, the hand is sorted |
| Seats.MeldedSeat | UIED_Mahjong_server.c:1303-1333 | a meld moves the discard and nothing else into the seat; a pong leaves nc+1 tiles to discard from, a gang nc tiles |
| Seats.Player.Throw | UIED_Mahjong_server.c:878-886 | the tile thrown is the one at the index, and the rest of the seat is unchanged and sorted |
| Seats.Player.Eat | UIED_Mahjong_server.c:1493-1513 | an eat as a relation on the whole seat: two cells leave, three sorted tiles join the door, capacity drops by 3 |
| Seats.Player.QuietGang | UIED_Mahjong_server.c:907-949 | the accepted branch as a relation on the whole seat: three copies leave the hand, four join the door, the rest is sorted, and the drawn tile stays in its cell |
| Seats.GangedCopies | UIED_Mahjong_server.c:909-937 | a hand that may gang quietly has its three copies as neighbours, capacity for the swaps and room on the door |
| Seats.GangDoubles | UIED_Mahjong_server.c:907-949 | the seat then holds one copy of the drawn tile more than before |
| Seats.GangExample | UIED_Mahjong_server.c:893-907 | 1, 1, 1, 2 TONG and the fourth 1 drawn is such a hand |
| Seats.AteSeat | UIED_Mahjong_server.c:1493-1513 | an eat moves the discard and nothing else into the seat, and leaves a hand to discard from if and only if the answer is not misplaced |
| Seats.MeldRoom | UIED_Mahjong_server.c:60-65 | a waiting seat that holds two copies of a discard has capacity at least 4 and at most 16 tiles on its door |
| Snapshots.ExchangeConserves | UIED_Mahjong_server.c:686-698 | what one seat, the wall and the pending discard exchange stays on the table |
| Snapshots.DrewConserves | UIED_Mahjong_server.c:686-698 | a draw with all its flower replacements loses no tile |
| Snapshots.RoomForFlower | UIED_Mahjong_server.c:690-693 | while all tiles are accounted for, `flowers[8]` has room for the next flower |
| Snapshots.DiscardedConserves | UIED_Mahjong_server.c:874-886 | a discard is the pending tile and no longer in the hand |
| Snapshots.ClaimedConserves | UIED_Mahjong_server.c:1131-1170 | pong and gang lose no tile |
| Snapshots.ClaimedSettles | UIED_Mahjong_server.c:1131-1177 | a pong makes it that seat's turn to discard, a gang leaves all seats waiting, and total capacity drops by 3 |
| Snapshots.EatenConserves | UIED_Mahjong_server.c:1493-1520 | an eat loses no tile |
| Snapshots.EatenSettles | UIED_Mahjong_server.c:1493-1526 | after an eat it is that seat's turn if and only if the answer was not misplaced |
| Snapshots.SunkConserves | UIED_Mahjong_server.c:1532-1537 | an unclaimed discard is in the sea |
| Snapshots.QuietGangBreaksTheSet | UIED_Mahjong_server.c:907-949 | every quiet gang adds one copy of the drawn tile to the table: five of it, and the set is broken |
| Snapshots.SeaHasRoom | UIED_Mahjong_server.c:1534 | no sea can hold more than 144 of its 150 cells |
| Dealing.DealIndexInjective | UIED_Mahjong_server.c:441-450 | no two cells of the four hands get the same place of the wall |
| Dealing.DealWithoutFlowers | UIED_Mahjong_server.c:441-450 | without a flower among the first 64 tiles, the k-th seat from the first on holds exactly tiles 16t+4k+g of the wall, and the wall goes on with the 65th |
| Dealing.FlowersInTurn | UIED_Mahjong_server.c:388-468 | of two flowers the one with the seat nearer to the first is replaced by the 65th tile and the other by the 66th; a flower drawn for the first waits for its next visit, and the 67th tile |
| Dealing.NothingToReplace | UIED_Mahjong_server.c:456-468 | looks that meet no flower change nothing |
| Dealing.CleanStays | UIED_Mahjong_server.c:456-468 | once no flower is left further looks change nothing |
| Dealing.DealStep | UIED_Mahjong_server.c:441-450 | each taken tile lands in the cell that the formula for that place names, empty before |
| Dealing.FlowersLeft | UIED_Mahjong_server.c:389-401 | while a hand still holds a flower fewer than eight lie aside, so `flowers[8]` is not overrun and the wall has tiles left |
| Dealing.FlowerReplaced | UIED_Mahjong_server.c:396-397 | a replacement keeps every tile and puts one more flower aside |
| Dealing.AllVisited | UIED_Mahjong_server.c:456-468 | four consecutive clean visits cover the four seats |
| Dealing.SortedDealWaits | UIED_Mahjong_server.c:471-474 | the four sorts turn the clean deal into four sorted hands of sixteen with nothing lost |
| Messages.StepsTalk | UIED_Mahjong_server.c:958-978 | for every step and every seat there are messages and answers that pass in it |
| Messages.OffersReachTheirSeat | UIED_Mahjong_server.c:1093-1467 | the offers made to a seat are exactly those that the rules make to it, in rising order |
| Messages.OthersRefuse | UIED_Mahjong_server.c:1093-1467 | a seat that does not claim has said no to everything it was asked |
| Messages.ClaimantAccepts | UIED_Mahjong_server.c:1093-1467 | the claimant says no until it is offered its claim, and is then asked no more |
| Messages.OneMoreOffer | UIED_Mahjong_server.c:1092-1128 | one more possible offer adds one refused question to what its seat has heard, or the accepted one that ends the asking; an impossible one adds nothing to any seat |
| Messages.RefusedNext | UIED_Mahjong_server.c:1092-1467 | the refusals of a seat grow by exactly the next offer in the order of asking |
| Messages.ClaimIsAsked | UIED_Mahjong_server.c:1092-1467 | what a seat is asked until a claim is settled is its refusals of the offers before it, and the claim if it is its own |
| Messages.EveryoneIsTold | UIED_Mahjong_server.c:807-872 | the others hear the broadcast of the discard, the announcement of a claim that is no win, and the discarder that no one wants the tile |
| DiscardText.BroadcastNamesPlayer | UIED_Mahjong_server.c:807-872 | the line names the player by digit, in its place |
| DiscardText.TileNames | UIED_Mahjong_server.c:808-869 | the words for all 34 kinds |
| Messages.DrawWritten | UIED_Mahjong_server.c:686-698 | the tiles sent one by one are those of the draw |
| Messages.DiscardWritten | UIED_Mahjong_server.c:807-872 | the verdicts, the chosen cell and the three lines are what the four seats hear of a discard |
| Messages.HuWritten | UIED_Mahjong_server.c:1093-1101 | a claimed win needs no message behind the questions |
| Messages.SinkWritten | UIED_Mahjong_server.c:1532-1534 | the discarder alone is told that no one wants the tile |
| Messages.GangWritten | UIED_Mahjong_server.c:939-941 | verdicts and announcement are what the four seats hear of a quiet gang |
| Messages.GangStalls | UIED_Mahjong_server.c:907-948 | a quiet gang in a conserved turn leaves the stopped turn: five copies, and these messages |
| Messages.EndsOffTheWall | UIED_Mahjong_server.c:686-696 | a failed draw means that the wall held flowers alone, and holds nothing now |
| Messages.EndsBadDiscard | UIED_Mahjong_server.c:874-880 | an index outside 0..nc names no tile with a counter in the turn in which it is received |
| Messages.EndsDialogue | UIED_Mahjong_server.c:1472-1530 | an eat dialogue that ends behind wrong answers has moved no tile |
| Answering.ClaimUnique | UIED_Mahjong_server.c:1092-1467 | one offer at most is the first accepted |
| Answering.ObeyedGrows | UIED_Mahjong_server.c:1653-1668 | a step that the answers lead to extends a run that they lead to |
| Answering.DialogueStops | UIED_Mahjong_server.c:1472-1524 | at each answer of the eat dialogue: it goes on, or the answer decides |
| Answering.AnswerDecides | UIED_Mahjong_server.c:1472-1502 | the first decisive answer decides the dialogue |
| Determined.StepIsDetermined | UIED_Mahjong_server.c:1087-1540 | from every reachable state the answers lead to one next state at most |
| Determined.RunsAgree | UIED_Mahjong_server.c:1653-1668 | two runs from one table with the same answers go through the same states |
| Determined.EndIsEnd | UIED_Mahjong_server.c:1653-1668 | no step leads on from where a round has ended or stopped |
| Determined.EndsAlike | UIED_Mahjong_server.c:1653-1668 | in one state a round ends for one reason, and leaves one table |
| Messages.MeldWritten | UIED_Mahjong_server.c:1160-1163 | the announcement to the three other seats completes a pong or gang |
| Messages.EatWritten | UIED_Mahjong_server.c:1472-1516 | the dialogue with the eater, however many wrong answers it has, and the announcement complete an eat |
| Play.DrawKeeps | UIED_Mahjong_server.c:686-698 | a draw from a waiting table keeps all tiles and makes it the seat's turn |
| Play.DiscardKeeps | UIED_Mahjong_server.c:874-891 | a discard keeps all tiles and leaves all hands sorted and waiting |
| Play.BadDiscardHasNoCounter | UIED_Mahjong_server.c:874-886 | for every integer: the cell it names exists and has one of the 34 counters if and only if it is in 0..nc; behind the hand the cells are empty |
| Play.BadDiscardExample | UIED_Mahjong_server.c:874-886 | with two tiles left, index 2 names no tile |
| Play.DrawnToSorted | UIED_Mahjong_server.c:893-905 | behind every draw of a conserved waiting table the question of quiet_gang is answered yes exactly if the seat has all that its accepted branch needs |
| Play.MisplacedBreaksHand | UIED_Mahjong_server.c:1496-1522 | a misplaced eat loses no tile, and leaves a first cell without a counter |
| Play.ClaimKeeps | UIED_Mahjong_server.c:1128-1180 | pong and gang keep all tiles and leave the right seat to go on |
| Play.EatKeeps | UIED_Mahjong_server.c:1467-1526 | a well-placed eat keeps all tiles and makes it the eater's turn |
| Play.SinkKeeps | UIED_Mahjong_server.c:1532-1537 | an unclaimed discard keeps all tiles and leaves all seats waiting |
| Play.WhatIsPossible | UIED_Mahjong_server.c:980-1085 | what each offer asks of the seat k places further |
| Play.ClaimsInOrder | UIED_Mahjong_server.c:1092-1467 | the claim carried out is the first accepted of hu, gang and pong, each by distance, and eat |
| Play.WhoseTurn | UIED_Mahjong_server.c:1128-1539 | who draws, discards or has won after each step, by places around the table |
| Seats.AroundTheTable | UIED_Mahjong_server.c:1653 | seat 0 follows seat 3 |
| Play.StepSpends | UIED_Mahjong_server.c:1087-1540 | every step lowers the measure made of the wall, the capacities and the phase |
| Play.OtherOrderIsSound | UIED_Mahjong_server.c:1473-1502 | a misplaced eat answer named in the other order is eatable and well placed |
| Table.Server.Draw | UIED_Mahjong_server.c:686-698 | succeeds exactly if a tile other than a flower is left, takes the first such tile and all flowers before it, and makes it the seat's turn |
| Table.Server.ReplaceFlower | UIED_Mahjong_server.c:690-696 | one turn of the loop in draw extends the draw by one flower |
| Table.Server.Meld | UIED_Mahjong_server.c:1131-1170 | a meld changes one seat and the pending discard only |
| Table.Server.Throw | UIED_Mahjong_server.c:878-886 | a discard changes one seat and the pending discard only |
| Table.Server.EatWith | UIED_Mahjong_server.c:1493-1520 | an eat changes one seat and the pending discard only |
| Table.Server.DealTiles | UIED_Mahjong_server.c:441-450 | after the first loop every cell holds the tile of its place on the wall |
| Table.Server.DealFour | UIED_Mahjong_server.c:441-450 | one grab of four tiles |
| Table.Server.HasFlower | UIED_Mahjong_server.c:389-401 | the cells are looked at in order, each flower met is put aside and replaced by the next tile of the wall; the count returned is the number put aside; 0 means the hand is clean and nothing changed |
| Table.Server.VisitSeat | UIED_Mahjong_server.c:456-468 | the number of clean visits in a row is counted up, or a flower is put aside |
| Table.Server.ReplaceFlowers | UIED_Mahjong_server.c:456-468 | the loop ends, at most eight replacements are made, in the order of visits from the first seat on, and then no seat holds a flower |
| Table.Server.SortHands | UIED_Mahjong_server.c:471-474 | every hand is sorted, its tiles kept, nothing else moved |
| Table.Server.ReadHand | UIED_Mahjong_server.c:478-485 | the messages to one seat are its sixteen tiles and the numbers of its flowers |
| Table.Server.SendHands | UIED_Mahjong_server.c:476-487 | behind the deal every client is sent its hand |
| Table.Server.Advance | UIED_Mahjong_server.c:1653-1668 | a finished step joins the history, and what was written in it the record, which stays one of exactly the messages of each step |
| Table.Server.TellDraw | UIED_Mahjong_server.c:688-695 | the messages of a draw, "your turn" first unless a claim led to it |
| Table.Server.TellDiscard | UIED_Mahjong_server.c:807-872 | the three others are told of the discard |
| Table.Server.Announce | UIED_Mahjong_server.c:1160-1162 | the three others are told of a claim |
| Table.Server.CanQuietGang | UIED_Mahjong_server.c:893-907 | whether three of the first nc tiles equal the drawn one |
| Table.Server.CanOffer | UIED_Mahjong_server.c:980-1085 | each test asks exactly what the rules demand of the offer, and changes nothing |
| Table.Server.HearAnswer | UIED_Mahjong_server.c:1472-1523 | one answer and its verdict join the dialogue; the table stays |
| Table.Server.IsHu | UIED_Mahjong_server.c:782-805 | a win is declared if and only if the hand wins and the player says so, and then `winner` is set and the round is over |
| Table.Server.DrawTurn | UIED_Mahjong_server.c:958-963 | a successful draw is a step of the rules and uses the wall; it fails only with nothing but flowers left, and then takes them all |
| Table.Server.CanHu | UIED_Mahjong_server.c:782-787 | the question asks exactly whether the nc+1 tiles win, and changes nothing |
| Table.Server.Discard | UIED_Mahjong_server.c:874-891 | for any integer received: carried out as a step of the rules if and only if it is in 0..nc, with the tile of that cell; any other is reported, names no tile with a counter, and nothing has moved |
| Table.Server.AskQuietGang | UIED_Mahjong_server.c:893-907 | accepted if and only if three of the first nc tiles equal the drawn one and the player says so; nothing changes |
| Table.Server.GangQuietly | UIED_Mahjong_server.c:907-948 | the accepted branch changes one seat, and the three others are told |
| Table.Server.QuietGangTurn | UIED_Mahjong_server.c:907-948 | behind it five copies of a tile are on the table, and each seat has heard exactly its messages of this turn |
| Table.Server.DrawNDiscard | UIED_Mahjong_server.c:958-978 | a turn of one's own: draw, win test, quiet gang and discard are steps of the rules, up to a win, a discard, or where the turn stops, with the reason and the table it leaves |
| Table.Server.FindClaim | UIED_Mahjong_server.c:1092-1467 | the offer found is possible, accepted, and the first such in the order hu, gang, pong by distance, then eat; none is found exactly if none is accepted |
| Table.Server.Ask | UIED_Mahjong_server.c:1092-1128 | one question: taken exactly if the claim is possible and the player accepts it |
| Table.Server.ClaimHu | UIED_Mahjong_server.c:1097-1101 | an accepted win is a step of the rules, ends the round and names the winner |
| Table.Server.Sink | UIED_Mahjong_server.c:1532-1539 | without a claim the discard sinks, and the next player is to draw |
| Table.Server.ClaimSet | UIED_Mahjong_server.c:1128-1170 | an accepted pong or gang is a step of the rules with that seat to go on |
| Table.Server.ClaimGang | UIED_Mahjong_server.c:1128-1171 | an accepted gang with the draw behind it |
| Table.Server.MisplaceEat | UIED_Mahjong_server.c:1493-1522 | an eat of the misplaced kind is carried out: no tile is lost, and the hand that the win test is about to count is broken |
| Table.Server.TakeAnswer | UIED_Mahjong_server.c:1473-1524 | one answer with two cells: it ends the dialogue if and only if they complete a run |
| Table.Server.EatDialogue | UIED_Mahjong_server.c:1467-1530 | the first answer that names a cell outside decks or completes a run decides: the round stops there, or the eat is carried out with exactly those cells, as a step of the rules or, if it is of the misplaced kind, with the broken hand that it leaves; without such an answer the player has left and no tile has moved |
| Table.Server.TestAnswer | UIED_Mahjong_server.c:1474-1489 | an answer is eatable exactly if the two cells complete the discard |
| Table.Server.AcceptEat | UIED_Mahjong_server.c:1493-1526 | a well-placed eat is a step of the rules with the eater to discard |
| Table.Server.PlayOn | UIED_Mahjong_server.c:1172-1180 | the win test, discard and nested reaction behind a claim, with the same account of where the play stops |
| Table.Server.GameInit | UIED_Mahjong_server.c:1629-1639 | all four seats empty, no winner, no discard, nothing taken |
| Table.Server.constructor | UIED_Mahjong_server.c:1692-1700 | four seats with separate buffers |
| Table.Server.ShuffleWall | UIED_Mahjong_server.c:664-668 | behind the shuffle all 144 tiles lie on the wall, in the order of the priorities, and none is dealt |
| Table.Server.StartRound | UIED_Mahjong_server.c:1650-1652 | a fresh round: the deal that rand() and the first seat lead to, nothing melded, at most 72 tiles taken |
| Table.Server.PlayOut | UIED_Mahjong_server.c:1653-1668 | the loop over the turns, from a dealt table to its end |
| Table.Server.RoundEnds | UIED_Mahjong_server.c:1653-1668 | where the loop ends the round is complete |
| Replica.MeldedUnique | UIED_Mahjong_client.c:888-931 | what server and client do in a pong or gang determines the seat completely, so both have the same cells |
| Replica.ThrewUnique | UIED_Mahjong_client.c:484-557 | what server and client do in a discard determines the seat completely, so both have the same cells |
| Replica.AteUnique | UIED_Mahjong_client.c:1094-1133 | what server and client do in an eat, a misplaced one included, determines the seat completely |
| Replica.QuietlyGangedUnique | UIED_Mahjong_client.c:583-623 | what server and client do in a quiet gang determines the seat completely |
| Replica.GangingStandsStill | UIED_Mahjong_client.c:583-623 | the client that accepted a quiet gang has the server's cells and waits for a tile |
| Replica.NothingIsChosen | UIED_Mahjong_client.c:792-800 | behind a quiet gang no client is where it would send the cell number that the server waits for |
| Replica.DrawFitsClient | UIED_Mahjong_client.c:404-420 | the flower row has room for every flower of a draw, and the drawn cell exists |
| Replica.DrawKeepsSync | UIED_Mahjong_client.c:779-785 | a turn or a gang's draw: every tile message is read where it is sent, and the copies agree |
| Replica.DiscardKeepsSync | UIED_Mahjong_client.c:786-800 | win test, quiet-gang question and discard in the order in which each side speaks |
| Replica.HeardKeepsSync | UIED_Mahjong_client.c:802-864 | another player's discard: its text tells the tile |
| Replica.MeldKeepsSync | UIED_Mahjong_client.c:888-931 | an accepted pong or gang finds its copies, a sorted hand and room on the door, and leaves the server's cells |
| Replica.ClaimantKeepsSync | UIED_Mahjong_client.c:873-1149 | the claimant refuses what it is offered first, accepts its claim, and in the eat dialogue names cells until two are right |
| Replica.BystanderKeepsSync | UIED_Mahjong_client.c:865-1155 | the others refuse, hear the announcement or sink their discard, and keep their copy |
| Replica.DealStartsInSync | UIED_Mahjong_client.c:161-186 | what `get_decks` makes of the messages that the server sends behind the deal is the server's seat |
| Game.RecordedIsTalk | UIED_Mahjong_server.c:1653-1668 | what the server records for a seat are the messages of the steps it makes |
| Replica.Seat.GetDecks | UIED_Mahjong_client.c:161-186 | sixteen tiles and the flowers are stored as sent |
| Replica.Seat.constructor | UIED_Mahjong_client.c:732-743 | the client starts with empty buffers and capacity 16 |
| Replica.Seat.Draw | UIED_Mahjong_client.c:404-420 | reading tiles until one is not a flower leaves the relation that the server's draw leaves |
| Replica.Seat.ChooseDiscard | UIED_Mahjong_client.c:474-494 | the cell sent is the first number typed that names a tile of the hand; none is sent exactly if none does |
| Replica.Seat.Throw | UIED_Mahjong_client.c:484-557 | the client's discard leaves the relation that the server's leaves |
| Replica.Seat.Hear | UIED_Mahjong_client.c:802-864 | from the broadcast of any tile by any player the client learns exactly that tile, and nothing else changes |
| Replica.Seat.Sink | UIED_Mahjong_client.c:1150-1155 | an unclaimed discard of its own joins the sea |
| Replica.Seat.Meld | UIED_Mahjong_client.c:888-942 | the client's pong and gang, done in another order, leave the server's relation |
| Replica.Seat.QuietGang | UIED_Mahjong_client.c:583-623 | the client's quiet gang leaves the server's relation |
| Replica.Seat.Eat | UIED_Mahjong_client.c:1094-1133 | the client's eat leaves the server's relation |
| Replica.Seat.Receive | UIED_Mahjong_client.c:777-1155 | the dispatch: each message does to the globals what the protocol says of it |
| Replica.Seat.Follow | UIED_Mahjong_client.c:754-1155 | taking the messages of one server step one by one leads from synchronised to synchronised |
| Replica.Seat.FollowGang | UIED_Mahjong_client.c:786-800 | the client in a turn that stops in a quiet gang ends with the server's cells, waiting |
| Game.PlayClient | UIED_Mahjong_client.c:746-1155 | a client given its hand and the messages of each step of a run has the server's seat in every state of it |
| InetText.BestRunUnique | unpv13e/libfree/inet_ntop.c:132-156 | leftmost longest run of at least two zero words (RFC 5952, section 4.2) determines at most one run |
| InetText.DottedReadsBack | unpv13e/libfree/inet_pton.c:86-125 | every dotted quad is read back |
| InetText.HexReads | unpv13e/libfree/inet_pton.c:165-174 | reading the digits of any 16-bit word leaves that word as the value |
| InetText.DecReads | unpv13e/libfree/inet_pton.c:98-111 | reading the digits of any byte leaves that byte as the current number |
| InetForm.DigitsByPlace | unpv13e/libfree/inet_pton.c:145-166 | the sixteen digits by their place in both cases, and the ten |
| InetForm.NoLeadingZeros | unpv13e/libfree/inet_ntop.c:183 | no number is printed with leading zeros |
| InetForm.QuadExactly | unpv13e/libfree/inet_ntop.c:172-182 | a dotted quad is printed exactly for addresses that start with 96 zero bits, and not with another zero word, or with 80 and 0xffff |
| InetForm.QuadIsJoined | unpv13e/libfree/inet_ntop.c:86-103 | it is the four numbers with dots between them |
| InetForm.SplitJoins | unpv13e/libfree/inet_pton.c:98-119 | the pieces of a text are what stands between its separators |
| InetForm.Read4Amounts | unpv13e/libfree/inet_pton.c:98-124 | from every state of the loop the rest of a dotted quad is read by its pieces |
| InetForm.Read6Addresses | unpv13e/libfree/inet_pton.c:160-199 | from every state of the loop the rest of an address is read by its pieces |
| InetForm.OctetIsSmall | unpv13e/libfree/inet_pton.c:167-173 | the digits of a number below 256, taken for hexadecimal ones, never overflow a word |
| InetText.DottedReads | unpv13e/libfree/inet_pton.c:191-196 | the dotted quad behind :: or ::ffff: is handed to the IPv4 reader and completes the address |
| InetText.ExpandGivesBack | unpv13e/libfree/inet_pton.c:205-218 | putting the zeros of the compressed run back gives the address |
| InetText.TextReads | unpv13e/libfree/inet_pton.c:162-204 | with the words before i read, the printed text from word i on reads as the rest of the address |
| InetText.TextIsInjective | unpv13e/libfree/inet_ntop.c:161-187 | no two addresses are printed alike |
| InetText.TextLength | unpv13e/libfree/inet_ntop.c:122 | text and terminator fit the 46 bytes of `tmp` |
| InetText.FullAddressExample | unpv13e/libfree/inet_pton.c:134 | 1:2:3:4::5:6:7:8 is read as 1:2:3:4:0:0:0:0 |
| InetText.TrailingColonIsRead | unpv13e/libfree/inet_pton.c:175-190 | a single colon behind any full address is accepted and changes nothing |
| InetNtop.Words | unpv13e/libfree/inet_ntop.c:132-134 | the words are the byte pairs in network order |
| InetNtop.PutText | unpv13e/libfree/inet_ntop.c:181-182 | the characters follow what is there, and the cells behind are kept |
| InetNtop.Put | unpv13e/libfree/inet_ntop.c:181-182 | text and terminator follow what is there, and the cells behind are kept |
| InetNtop.RunCloses | unpv13e/libfree/inet_ntop.c:144-148 | closing a run keeps the best run so far, the earlier one on a tie |
| InetNtop.Print | unpv13e/libfree/inet_ntop.c:161-187 | `tmp` holds the text of the address, compressed or with embedded IPv4, and is not overrun |
| InetNtop.Ntop4 | unpv13e/libfree/inet_ntop.c:85-101 | refused exactly if the text is longer than size, with nothing written; the terminator has no cell exactly if the text fills a destination of that size; otherwise text and terminator are stored |
| InetNtop.TerminatorWithinSize | unpv13e/libfree/inet_ntop.c:95-100 | for every address the call is refused or text and terminator stay within the size, if and only if the size is below 7 or above 15 |
| InetNtop.SevenIsTooFew | unpv13e/libfree/inet_ntop.c:95-100 | 1.2.3.4 is accepted with size 7 and needs 8 |
| InetNtop.PrintedReadsBack | unpv13e/libfree/inet_ntop.c:109-198 | what is printed parses to the address |
| InetPton.Pton4At | unpv13e/libfree/inet_pton.c:86-125 | the loop reads exactly the dotted quads that the specification reads, and writes only then |
| InetPton.PutWord | unpv13e/libfree/inet_pton.c:185-186 | the word joins the bytes in network order, and the cells behind are kept |
| InetPton.Complete | unpv13e/libfree/inet_pton.c:199-223 | what follows the loop stores exactly the finished address, or leaves the destination untouched |
| SigioRing.MainKeepsInv | unpv13e/sigio/dgecho01.c:57-73 | every step of the main loop keeps the invariant on slots, indexes and histories |
| SigioRing.ReceiveKeepsRing | unpv13e/sigio/dgecho01.c:89-104 | a datagram read by the handler joins the queue and no queued slot is overwritten |
| SigioRing.ArrivedKeepsInv | unpv13e/sigio/dgecho01.c:45-49 | a datagram may arrive at any moment |
| SigioRing.HandleKeepsInv | unpv13e/sigio/dgecho01.c:80-108 | one signal reads all that waits, in order, and counts it in the histogram; it ends in overflow if and only if queue and socket together reach eight |
| SigioRing.EightOverflow | unpv13e/sigio/dgecho01.c:85-87 | eight datagrams end the program although the socket is empty |
| SigioRing.QueueDrains | unpv13e/sigio/dgecho01.c:57-73 | left alone the main loop answers everything that was received |
| SigioRing.AllSentIsAnswered | unpv13e/sigio/dgecho01.c:57-73 | everything that has arrived is sent exactly if the socket is empty and no datagram is queued but one already sent |
| SigioRing.Waits | unpv13e/sigio/dgecho01.c:56-62 | the suspended loop sleeps until the handler has run, and at the test and at the decrement a signal waits |
| SigioRing.NextSignal | unpv13e/sigio/dgecho01.c:80-108 | a signal that may be delivered brings the loop nearer to that |
| SigioRing.NextMain | unpv13e/sigio/dgecho01.c:57-73 | where none may be, a step of the main loop does |
| SigioRing.Echo.Read | unpv13e/sigio/dgecho01.c:89-104 | one datagram is stored at iput, which moves on around the ring |
| SigioRing.Echo.Deposit | unpv13e/sigio/dgecho01.c:45-49 | an arrival waits at the socket and raises SIGIO |
| SigioRing.Echo.SigIo | unpv13e/sigio/dgecho01.c:79-108 | the handler's loop computes that specification on the shared variables |
| SigioRing.Echo.Leave | unpv13e/sigio/dgecho01.c:93-107 | at an empty socket the handler counts its reads and returns, or fails |
| SigioRing.Echo.GoOn | unpv13e/sigio/dgecho01.c:57-73 | so does each step of the main loop |
| SigioRing.Echo.Serve | unpv13e/sigio/dgecho01.c:57-108 | the program under any schedule is the run of the specification: its replies are a prefix of its receipts, and every other arrival waits with SIGIO pending |
| Prefork.SomeAvailable | unpv13e/server/serv05.c:54-59 | the search of the table finds a child exactly while some child has status 0 |
| Prefork.RepliesAreRead | unpv13e/server/serv05.c:71-80 | a round of the parent with replies alone reads one of every child that is ready, makes exactly those available, and is back at select |
| Prefork.ConnectionIsGiven | unpv13e/server/serv05.c:50-68 | a round with a connection alone gives it to the first child with status 0 |
| Prefork.ScanCollects | unpv13e/server/serv05.c:71-80 | from any child on, the loop reads the replies of all that are left |
| Prefork.KidsFinish | unpv13e/server/child05.c:40-50 | three turns of each child leave none with work |
| Prefork.AcceptKeepsInv | unpv13e/server/serv05.c:50-68 | accepting keeps the invariant and never reaches "no available children" |
| Prefork.ScanKeepsInv | unpv13e/server/serv05.c:71-80 | collecting a reply keeps the invariant; the loop never runs past the last child |
| Prefork.KidKeepsInv | unpv13e/server/child05.c:40-50 | every step of a child keeps the invariant, at any moment of the parent's loop |
| Prefork.GivingIsSound | unpv13e/server/serv05.c:60-64 | a child with status 0 can be given a connection |
| Prefork.KidMoves | unpv13e/server/child05.c:40-50 | a child moves its one token from the pipe through its work to the reply, losing none |
| Prefork.ReplyFreesChild | unpv13e/server/serv05.c:73-76 | a child whose reply is read was busy and has finished |
| Prefork.KidOwesLess | unpv13e/server/child05.c:40-50 | every step of a child brings it nearer to having served what it was given, two steps at most |
| Prefork.OthersOweNoMore | unpv13e/server/serv05.c:43-81 | no step of the parent or of another child takes it back |
| Prefork.TurnsServe | unpv13e/server/child05.c:40-50 | a child with as many turns in the schedule as it owes has served the first n connections given to it |
| Prefork.OneTokenEach | unpv13e/server/child05.c:40-50 | a child holds at most one connection, and one with status 0 has finished all it was given |
| Prefork.CountsAddUp | unpv13e/server/serv05.c:101-102 | the counts add up to the connections accepted |
| Prefork.Server.Find | unpv13e/server/serv05.c:54-56 | the first child with status 0, or the number of children |
| Prefork.Server.Accept | unpv13e/server/serv05.c:50-68 | the parent's step on the table, never failing |
| Prefork.Server.Scan | unpv13e/server/serv05.c:71-80 | one turn of the loop over the replies |
| Prefork.Server.Work | unpv13e/server/child05.c:40-50 | one step of one child |
| Prefork.Server.Serve | unpv13e/server/serv05.c:43-81 | parent and children under any schedule follow the specification |
| NonblockCopier.TurnKeepsInv | unpv13e/nonblock/strclinonb.c:42-122 | one turn with any results of its calls keeps: stdin read = socket written + first buffer, socket read = stdout written + second buffer, FIN sent iff stdin has ended and all of it is written |
| NonblockCopier.ReadsCount | unpv13e/nonblock/strclinonb.c:42-86 | the reads of a turn: exactly the first bytes found, as many as there is room for, and which results end the program and how |
| NonblockCopier.WritesCount | unpv13e/nonblock/strclinonb.c:89-122 | the writes of a turn: when each is tried, exactly the first bytes waiting, as many as are accepted, and which results end the program |
| NonblockCopier.WhatIsWatched | unpv13e/nonblock/strclinonb.c:28-39 | what select is asked, by the room and the bytes in the two buffers |
| NonblockCopier.RunFollows | unpv13e/nonblock/strclinonb.c:27-123 | all four ends only grow, and behind the end of stdin nothing more is taken from it |
| NonblockCopier.SomethingIsWatched | unpv13e/nonblock/strclinonb.c:28-39 | select is never asked to wait for nothing |
| NonblockCopier.WillingStdoutGetsAll | unpv13e/nonblock/strclinonb.c:84-103 | over all runs with a stdout that takes what it is offered, stdout has every byte that came from the socket |
| NonblockCopier.ReplyDropped | unpv13e/nonblock/strclinonb.c:69-76 | a run in which a reply is dropped |
| NonblockCopier.RequestDropped | unpv13e/nonblock/strclinonb.c:69-76 | a run in which a request is dropped and no FIN is sent |
| NonblockCopier.Client.ReadStdin | unpv13e/nonblock/strclinonb.c:42-62 | the read from stdin on the buffer and its pointers |
| NonblockCopier.Client.ReadSocket | unpv13e/nonblock/strclinonb.c:64-86 | the read from the socket |
| NonblockCopier.Client.WriteStdout | unpv13e/nonblock/strclinonb.c:89-103 | the write to stdout, with both pointers back at the start once all is written |
| NonblockCopier.Client.WriteSocket | unpv13e/nonblock/strclinonb.c:105-122 | the write to the socket, with the FIN that may follow |
| NonblockCopier.Client.Once | unpv13e/nonblock/strclinonb.c:42-122 | the body of the loop is one turn of the specification |
| NonblockCopier.Read | unpv13e/nonblock/strclinonb.c:43 | read stores as many bytes as there is room for and touches nothing else |
| NonblockCopier.Client.StrCli | unpv13e/nonblock/strclinonb.c:4-124 | the whole loop is the run of the specification, with its prefix and FIN properties |
| Checksum.InCksum | unpv13e/libfree/in_cksum.c:4-32 | the loop, the odd byte and the folds compute the complement of the representative of the 32-bit sum, for every length and byte order |
| Checksum.FoldIsCanonical | unpv13e/libfree/in_cksum.c:28-29 | two folds bring any 32-bit sum to its representative modulo 65535, zero only for zero |
| Checksum.Fold | unpv13e/libfree/in_cksum.c:28-31 | the two folds and the complement give 0xffff less that representative |
| Checksum.OnesSumIsCanonical | unpv13e/libfree/in_cksum.c:11-15 | the ones'-complement sum with end-around carry (RFC 1071, section 1) is that representative of the plain sum |
| Checksum.ShortIsRight | unpv13e/libfree/in_cksum.c:16-31 | up to 131074 bytes the accumulator cannot wrap |
| Checksum.LongIsWrong | unpv13e/libfree/in_cksum.c:16-31 | 131075 bytes 255 give 0x0100 or 0xff01, by byte order, instead of 0x00ff or 0xff00 |
| Checksum.FilledUp | unpv13e/libfree/in_cksum.c:28-31 | any 32-bit sum with its checksum added stays below 2^32 |
| Checksum.ChangeShows | unpv13e/libfree/in_cksum.c:16-29 | a change that makes the accumulator wrap once more or less always shows |
| Checksum.OneWordOfShortIsNoticed | unpv13e/udpcksum/udpread.c:76 | up to 131074 bytes: the same exactly if it exchanges 0 and 0xffff beside other words not all zero |
| Checksum.HostsAgreeUnlessWrapped | unpv13e/libfree/in_cksum.c:16-31 | hosts of either byte order agree as long as neither sum wraps, and so up to 131074 bytes |
| Checksum.LongDependsOnHost | unpv13e/libfree/in_cksum.c:16-31 | for 131075 bytes 255 they do not |
| Checksum.OrderDoesNotMatter | unpv13e/libfree/in_cksum.c:16-19 | the sum does not depend on the order of the words |
| Checksum.SwappedSum | unpv13e/libfree/in_cksum.c:16-19 | swapping the bytes of every word swaps the bytes of the sum (RFC 1071, section 2) |
| Checksum.SameBytesStored | unpv13e/ping/send_v4.c:17-19 | hosts of either byte order store the same packet exactly under the condition of `Checksum.HostOrderDoesNotMatter` |
| AddrList.GaClone | unpv13e/libgai/ga_clone.c:9-30 | a copy with an address of its own is linked in behind the node, AI_CLONE off and no canonical name |
| AddrList.Visit | unpv13e/libgai/ga_port.c:38-62 | what the loop body does to one entry, with the copy linked in behind it if one is made |
| AddrList.Advance | unpv13e/libgai/ga_port.c:37-63 | one turn extends what is done and leaves the rest of the list as it was |
| AddrList.GaServ | unpv13e/libgai/ga_serv.c:8-56 | the passes for a number or a name, and the return code |
| AddrList.HitsExist | unpv13e/libgai/ga_port.c:37-65 | a pass counts a hit if and only if some IP entry is cloneable or has the type |
| AddrList.PlainListKept | unpv13e/libgai/ga_port.c:44-45 | without cloneable entries the list keeps its length, matching entries get the port, others nothing |
| AddrList.EachAddressOnce | unpv13e/libgai/ga_serv.c:33-46 | a name known for one protocol alone gives every address once, with its type and port |
| AddrList.LocalsKeepPorts | unpv13e/libgai/ga_port.c:47-61 | an address that is not an IP address keeps its port and is no hit |
| LineReader.LineIsUnique | unpv13e/server/readline.c:11-26 | exactly one prefix of the stream is a line: no earlier newline, and it ends with a newline, a full buffer or the stream |
| LineReader.CountsAreLengths | unpv13e/lib/readline.c:35-48 | each form returns the length of the line exactly in the stated cases |
| LineReader.CountsDiffer | unpv13e/server/readline.c:16-20 | for the stream "ab" they return 3 and 2 |
| LineReader.SimpleReadline | unpv13e/server/readline.c:5-27 | one call stores the line and its terminator, leaves the rest of the stream and of the buffer, and returns the stated count; -1 if and only if a call of read failed, and then exactly the bytes read are stored and gone from the stream |
| LineReader.Reader.MyRead | unpv13e/lib/readline.c:8-26 | one byte of what is left, whatever is buffered and however often read is interrupted |
| LineReader.Reader.Refill | unpv13e/lib/readline.c:12-20 | the loop around read ends with a byte buffered or the end of the stream, or at the first error other than EINTR and only there, and loses nothing |
| LineReader.Descriptor.Read | unpv13e/lib/readline.c:14 | read returns a piece of the stream of any size up to the request, nothing only at its end, or an error |
| LineReader.Reader.Readline | unpv13e/lib/readline.c:28-49 | one call stores the line of what is left, whatever pieces read returned, and returns the stated count; -1 if and only if a call of read failed other than by EINTR, and then exactly the bytes taken are stored and gone |

## Left out

- Play.StepKeepsInv: a misplaced eat is not a step of the rules, since the statement behind it leaves the behaviour that the source defines; `Table.Server.MisplaceEat` carries it out and `Play.MisplacedBreaksHand` says what it leaves.
- Table.Server.Draw: running past the 144th tile has no meaning in the source; the method then reports failure, and `Table.Server.PlayRound` ends as OffTheWall.
- Table.Server.Discard: an index outside 0..nc ends the modelled round as BadDiscard; what the source then reads is not one of the cells or is counted outside the counters.
- Table.Server.EatDialogue: answers outside the twenty cells (OutOfCells), the win test behind a misplaced eat (MisplacedEat) and a dialogue without an eatable answer (Disconnected) end the modelled round.
- Table.Server.OthersReaction: ends early in those cases; `Messages.Ending` says what each of them means.
- Table.Server.PlayRound: stops as QuietGang behind an accepted quiet gang. The server returns 0 after that branch (UIED_Mahjong_server.c:948), leaves the loop on 1 (line 967) and reads a discard, while the client returns 1 and reads a tile (UIED_Mahjong_client.c:623, 794); neither is ever sent.
- Game.PlayWithClient: messages are typed values in the order in which one seat gets them; line framing, acknowledgements, the order of writes to different seats within a step and the messages between rounds are not modelled. What is written in a step that a round breaks off in is followed for a quiet gang alone.
- Winning.HuRecursiveCheck: `int` counts are unbounded here; the real ones never exceed 17.
- The field `priority` exists only where the shuffle reads it (`Wall.Stamped`); in every other place the program copies it along unread.
- The continuation dialogue between rounds, connection set-up and all terminal input and output of the game; the randomness of `rand()`.
- The language that `inet_pton6` accepts, as `InetForm.AddressesRead` states it, is not compared with the grammar of RFC 4291, from which it differs, for instance, as in `InetText.TrailingColonIsRead`.
- InetNtop.Ntop6: `errno` is not modelled; failure is the result `false`.
- SigioRing.Echo.SigIo: the contents of a datagram are one value; lengths, address lengths and truncation at 4096 bytes are not modelled.
- Prefork.Server.Accept: a child that terminates, and failing system calls, end the real program and are not modelled.
- NonblockCopier.Client.StrCli: errors of `select` and of `fcntl` are not modelled.
- AddrList.GaPort: allocation failure, and with it EAI_MEMORY, is not modelled; of `ai_flags` only AI_CLONE is.
- AddrList.GaServ: the digits of a port number and the lookup of a name are parameters.
- LineReader.Reader.Readline: the statics belong to one descriptor; sharing them between descriptors is not modelled.
- point_count.c, the rest of unpv13e and the smaller rings, counters and estimators in it.
