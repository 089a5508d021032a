# Verified cores of the Dart embedder

A Dafny model of the parts of the Dart virtual machine's embedder (`dart/runtime/bin`)
and of its browser client (`dart/client/dart.js`) that carry real state: the pausable
recursive directory listing and the recursive delete, the event handler's flow control
and its registration with the kernel, the timers, the life of a listening socket, the
debugger's message queue, the serializer of object graphs, and the hexadecimal
big-integer codec.

Code that updates objects is modelled by classes with the same pointers and counters and
proved against functions over plain values; what the system promises is then proved about
those functions, for all inputs, all reachable states or all interleavings.

| core | value level | as it runs |
|---|---|---|
| directory listing | `FileSystem`, `ListingSpec`, `ListingState`, `ListingFacts`, `ListingReports`, `ListingReader` | `PathBuffer`, `DirectoryListing`, `AsyncListing`, `ListingClient` |
| recursive delete | `DeletionSpec` | `Deletion` |
| listeners and tokens | `Ports`, `PortHistory` | `CircularList`, `DescriptorInfo` |
| registration with the kernel | `EpollSpec`, `EpollFacts`, `EpollEffects`, `EpollTokens` | `Descriptor`, `EventHandler` |
| timers | `TimeoutSpec`, `TimeoutOrder` | `TimeoutQueue` |
| listening sockets | `AcceptProtocol` | `ListenSocket` |
| debugger queue | `DebuggerProtocol` | `DebuggerQueue` |
| message serializer | `SerializerSpec`, `SerializerFacts`, `Deserializer` | `Serializer` |
| big integers | `BigintSpec` | `BigintCodec` |

`dafny verify dfyconfig.toml` checks the project.

Some facts are kept folded behind the always-true predicate `Look` of module `Folding`, a
level of its own for each: a proof that needs the details says `assert Look(LEVEL)`, all
others carry the fact around as one.

Where the outside world decides, it is a parameter: the file system, the paths that cannot
be looked at, where a readdir fails, which removals are refused, the clock, the order of
the port table, the events and messages of a turn, whether the system takes on an accept,
the ids of open receive ports.

Nine promises turned out not to hold of the code as it stands. For each the model keeps
the code's behaviour, shows a failing case and proves exactly when the promise holds:

- a path that the buffer accepts is read back whole if and only if it is not exactly
  PATH_MAX long (`PathBuffer.Add`, `ExactFitIsCut`);
- a listing, flat or recursive, with or without links, is complete if and only if no
  directory it goes into has, up to its last visible entry, a special file, a link to one,
  an entry that cannot be looked at or a path of PATH_MAX characters or more
  (`ListingCompleteIff`, `ListedIff`, `ReportedIff`, `SpecialFileHidesTheRest`);
- what a listing reports is true if and only if the cut path of every entry whose path
  fills the buffer, and whose type is taken from the directory, names something of that type
  (`ListingTrueIff`, `CutPathNamesNothing`);
- a tree that the system lets go is deleted if and only if it has no special file, no path
  of PATH_MAX characters or more, and nothing that cannot be looked at or read
  (`DeletesIff`, `SpecialFileStopsDeletion`);
- deletion removes an entry and not another if and only if no path is cut to that of an
  entry that can be unlinked (`RemovesAnotherIff`, `WrongFileGoes`);
- an error event keeps the kernel registration right if and only if it is not passed on or
  a token is left (`ErrorKeepsOkIff`, `ErrorThenAddFails`);
- a copied message is equal to the original if and only if its local ports are open and
  it has no own property called `__proto__` (`RoundTrip`, `ProtoPropertyIsLost`);
- giving up the start of a listening socket is safe if and only if no accept is in flight
  and the event handler thread is handling neither a completion nor a command
  (`GivingUpIsSafeIff`, `GivingUpTooEarly`);
- a number that passes the check on its digits can be printed if and only if it has less
  than 2^28 digits, or as many with a small one on top; where pointers have 32 bits all such
  numbers do (`BigintToHexValue`, `LengthFitsIff`, `LengthFits`, `LengthOverflows`).

## Model

| member | source | states |
|---|---|---|
| `AsyncListings.ListDirectory` | dart/runtime/bin/directory.cc:228-290 | a whole listing, from start to stop: it starts unless the given path is too long for the buffer; for every file system, with failing lstat, opendir and readdir calls, every pair of options and every even page size, whoever reads the joined pages by the codes of the Dart library reads the plain recursive listing and then, in the last two slots, that it is done; every page but the last is full, and no link node stays alive |
| `AsyncListings.RequestAll` | dart/runtime/bin/directory.cc:259-278 | asking for pages until one comes back empty terminates and yields exactly the results that were left when it began |
| `AsyncListings.AsyncDirectoryListing.NextPage` | dart/runtime/bin/directory.cc:259-278 | wherever the listing was paused, the next page holds the next results, as many as fit; once the listing is over the page is empty |
| `AsyncListings.AsyncDirectoryListing.List` | dart/runtime/bin/directory.cc:420-427 | the loop stops exactly when the page is full or the listing is over; the page starts with the encoded results and nothing is written past its length |
| `AsyncListings.AsyncDirectoryListing.ListNext` | dart/runtime/bin/directory.cc:388-418 | one turn either writes the first result that is left or takes a finished entry off the stack, and what is left afterwards is exactly the rest |
| `AsyncListings.AsyncDirectoryListing.AddToResponse` | dart/runtime/bin/directory.cc:307-316 | two slots per result, never past the page, true as long as there is room |
| `AsyncListings.AsyncDirectoryListing.Handle` | dart/runtime/bin/directory.cc:319-347 | the five handlers: the two slots written are read, by the codes of the Dart library, as the item of that type with the path that is in the buffer |
| `AsyncListings.AsyncDirectoryListing.SetArray` | dart/runtime/bin/directory.h:191-196 | a new page starts empty |
| `AsyncListings.EncodedIsDecoded` | dart/runtime/bin/directory.cc:307-347 | whatever pair of slots the embedder writes for an item, the Dart library reads it as that item: the codes of the two sides agree |
| `ListingReaders.DecodeSplit` | dart/sdk/lib/io/directory_impl.dart:331-349 | pages can be read one after the other: nothing depends on where they are cut, and nothing behind the end is looked at |
| `ListingReaders.DecodeTakes` | dart/sdk/lib/io/directory_impl.dart:329-349 | reading takes two slots for each item and two for the end |
| `ListingClients.AsyncDirectoryLister.Take` | dart/sdk/lib/io/directory_impl.dart:333-349 | the switch over the code hands on the file, directory, link or error that the pair of slots says, or notes the end |
| `ListingClients.AsyncDirectoryLister.Receive` | dart/sdk/lib/io/directory_impl.dart:324-349 | the loop over a response hands on what is in it, in order, up to its end or the end of the listing |
| `ListingClients.ListToStream` | dart/sdk/lib/io/directory_impl.dart:287-349 | from the file system to the stream: a listing adds exactly the items of the plain recursion, in order, and ends; a path that is too long gives one error with that path |
| `ListingSpec.DescendDecreases` | dart/runtime/bin/directory_linux.cc:142-169 | why listing ends even when links form cycles: entering a directory uses up a link that is not on the chain, or goes down in the directory tree |
| `ListingSpec.ReadReportsNext` | dart/runtime/bin/directory_linux.cc:100-194 | one reading step reports the head of what the recursive listing still has to say about a directory and leaves the tail |
| `ListingSpec.AdvanceReportsNext` | dart/runtime/bin/directory_linux.cc:78-194 | the same for every kind of stack entry: finished, not yet opened, being read |
| `ListingSpec.StepStackEmits` | dart/runtime/bin/directory.cc:388-418 | one step of the explicit stack moves the head of the recursive listing to the output, so the stack machine refines the recursion |
| `ListingFacts.ClearEntriesAreListed` | dart/runtime/bin/directory_linux.cc:104-194 | every entry at every depth, behind followed links too, that nothing hides has its item in the listing, under as much of its joined path as can be read back |
| `ListingFacts.ListedEntriesAreClear` | dart/runtime/bin/directory_linux.cc:104-194 | the converse: every item but an error is that of an entry that nothing hides |
| `ListingFacts.ListedIff` | dart/runtime/bin/directory_linux.cc:104-194 | the two together, for all options: errors apart, the items of a listing are exactly those of the entries that nothing hides |
| `ListingFacts.ReportedIff` | dart/runtime/bin/directory_linux.cc:104-194 | the path of an entry is reported if and only if nothing hides the entry, it can be looked at and its path does not fill the buffer, or the path of another entry is cut down to it |
| `ListingFacts.ErrorsAreTrue` | dart/runtime/bin/directory_linux.cc:89-133 | every error is due to a path that does not fit, cannot be looked at, or is that of a directory that cannot be read to its end |
| `ListingReports.ErrorIff` | dart/runtime/bin/directory_linux.cc:89-194 | an error is reported under a path if and only if, along directories that are gone into with nothing in the way, a path does not fit, an entry cannot be looked at, a directory cannot be gone into, or one cannot be read to its end |
| `ListingReports.TrailIff` | dart/runtime/bin/directory_linux.cc:142-169 | said of the file system alone: a listing can go a way down if and only if it is told to follow the links on it and none of them occurs twice |
| `ListingReports.ShownByKind` | dart/runtime/bin/directory_linux.cc:117-184 | an entry is shown as what it is; a link as a link if links are not followed, if it has been on the way or if it is broken, and else as the file or directory it leads to |
| `ListingFacts.ListingTrueIff` | dart/runtime/bin/directory_linux.cc:117-184 | every item is true of the file system if and only if, for each entry that is reached, whose path fills the buffer and whose type is taken from the directory, the cut path names something of that type |
| `ListingFacts.CutPathNamesNothing` | dart/runtime/bin/directory_linux.cc:45-61 | the failing input: a file whose path has PATH_MAX characters is reported under a path that names nothing |
| `ListingFacts.ListingCompleteIff` | dart/runtime/bin/directory_linux.cc:104-194 | for all options a listing never names more than it is meant to, and names exactly that, path by path and in order, if and only if no directory it goes into has, up to its last visible entry, a special file, a link to one, an entry that cannot be looked at, or a path that does not fit whole |
| `ListingFacts.FlatListingCompleteIff` | dart/runtime/bin/directory_linux.cc:104-194 | the flat case: the visible entries are named, in order, if and only if each entry up to the last of them is told or is a dot that can be passed over |
| `ListingFacts.SpecialFileHidesTheRest` | dart/runtime/bin/directory_linux.cc:182-193 | the failing input: a named pipe read first hides the regular file next to it |
| `ListingState.ChainIsLive` | dart/runtime/bin/directory_linux.cc:147-155 | every link node that the loop check can walk over has not been deleted |
| `ListingState.OwnedOnce` | dart/runtime/bin/directory_linux.cc:205-213 | no two stacked entries own the same link node, so none is deleted twice |
| `ListingState.SpelledGrown` | dart/runtime/bin/directory_linux.cc:113-113 | appending to the shared buffer leaves the path of every open directory on the stack in place |
| `ListingState.SpelledCut` | dart/runtime/bin/directory_linux.cc:101-101 | rewinding to an entry's saved length leaves the paths below it in place |
| `ListingState.PoppedOk` | dart/runtime/bin/directory.h:125-130 | taking an entry off the stack keeps the ownership of link nodes, the saved lengths and the chains consistent |
| `DirectoryListings.Entry.ResetLink` | dart/runtime/bin/directory_linux.cc:205-213 | deletes the entry's own node, which must be live, and no other, and falls back to its parent's chain |
| `DirectoryListings.DirectoryListing.constructor` | dart/runtime/bin/directory.h:98-107 | the first entry waits for the given path; the error flag says that the path did not fit |
| `DirectoryListings.DirectoryListing.OpenTop` | dart/runtime/bin/directory_linux.cc:83-99 | opens by the path in the buffer; the saved length then spells the directory's path with its separator |
| `DirectoryListings.DirectoryListing.RewindPath` | dart/runtime/bin/directory_linux.cc:101-101 | the buffer is back at the path of the top entry's directory, across pauses too |
| `DirectoryListings.DirectoryListing.RewindLink` | dart/runtime/bin/directory_linux.cc:102-102 | the chain is back at that directory's chain, and a node of an earlier step is deleted |
| `DirectoryListings.DirectoryListing.OnChain` | dart/runtime/bin/directory_linux.cc:147-155 | the loop check finds a link if and only if it is on the chain |
| `DirectoryListings.DirectoryListing.FollowLink` | dart/runtime/bin/directory_linux.cc:162-165 | a followed link is put in front of the chain in a node that is live from then on |
| `DirectoryListings.DirectoryListing.InspectByStat` | dart/runtime/bin/directory_linux.cc:130-180 | entries of unknown type and links are classified by what lstat answers for the path in the buffer, a failing lstat included |
| `DirectoryListings.DirectoryListing.Inspect` | dart/runtime/bin/directory_linux.cc:117-184 | the switch over the entry type agrees with that classification in every branch |
| `DirectoryListings.DirectoryListing.NextEntry` | dart/runtime/bin/directory_linux.cc:100-194 | reading on takes the specified step: type reported, path in the buffer, rest of the directory and chain for the directory inside; a failing readdir ends the directory with an error |
| `DirectoryListings.DirectoryListing.Next` | dart/runtime/bin/directory_linux.cc:78-194 | the same for an entry in any state, including a failed opendir |
| `DirectoryListings.DirectoryListing.Push` | dart/runtime/bin/directory.h:121-123 | a new entry on top, everything below untouched |
| `DirectoryListings.DirectoryListing.Pop` | dart/runtime/bin/directory.h:125-130 | the top entry leaves and takes the node it owns with it |
| `DirectoryListings.DirectoryListing.Destroy` | dart/runtime/bin/directory.h:109-113 | stopping in any state empties the stack and leaves no link node alive |
| `PathBuffers.ExactFitIsCut` | dart/runtime/bin/directory_linux.cc:45-61 | the failing input: an empty buffer accepts a path of PATH_MAX characters and reads it back without its last one |
| `PathBuffers.PathBuffer.Print` | dart/runtime/bin/directory_linux.cc:47-50 | bounded printing: as much as fits, a NUL behind it, nothing before it touched |
| `PathBuffers.PathBuffer.Add` | dart/runtime/bin/directory_linux.cc:45-61 | refused exactly when the name does not fit in PATH_MAX characters; what can be read afterwards is the joined path, cut at PATH_MAX - 1; so an accepted name is read back cut if and only if it fills the buffer exactly |
| `PathBuffers.PathBuffer.Reset` | dart/runtime/bin/directory_linux.cc:63-66 | the contents are the first characters and what can be read ends there |
| `PathBuffers.PathBuffer.AsString` | dart/runtime/bin/directory_linux.cc:36-38 | the C string is what stands before the first NUL |
| `DeletionSpec.RemovedIsInTree` | dart/runtime/bin/directory_linux.cc:234-314 | every path removed, even by a deletion that fails half-way and even where paths are cut, is that of an entry of the tree below the given directory or that directory: nothing behind a link is touched |
| `DeletionSpec.DirectoriesGoLast` | dart/runtime/bin/directory_linux.cc:257-307 | no directory is removed before anything that is removed inside it |
| `DeletionSpec.DeletesIff` | dart/runtime/bin/directory_linux.cc:234-314 | deletion goes through if and only if the system refuses nothing and no entry of the tree, at any depth, is a special file, has a path that does not fit whole or cannot be looked at, or is a directory that cannot be read to its end |
| `DeletionSpec.RemovesAnotherIff` | dart/runtime/bin/directory_linux.cc:219-231 | deleting an entry removes another one if and only if its path fills the buffer and what is left of it is the path of an entry that can be unlinked |
| `DeletionSpec.WrongFileGoes` | dart/runtime/bin/directory_linux.cc:219-223 | the failing input: of two files whose paths differ by a last character, with PATH_MAX characters the one and one less the other, the shorter goes in place of the longer, and the deletion fails |
| `DeletionSpec.RemovesNothingTwice` | dart/runtime/bin/directory_linux.cc:234-314 | no path is removed twice, whether deletion goes through or not |
| `DeletionSpec.SpecialFileStopsDeletion` | dart/runtime/bin/directory_linux.cc:300-305 | the failing input: a named pipe, which the system would have removed, ends the deletion |
| `DeletionSpec.RemovesTheTree` | dart/runtime/bin/directory_linux.cc:234-314 | a deletion that goes through removes every entry of the tree |
| `DeletionSpec.RemovesAsMany` | dart/runtime/bin/directory_linux.cc:234-314 | and as many paths as a listing is meant to name, and the directory itself |
| `DeletionSpec.ListingAnnouncesDeletion` | dart/runtime/bin/directory_linux.cc:78-314 | the recursive listing without links names exactly what a deletion that goes through removes, each path once, the directory itself apart |
| `Deletions.DeleteFile` | dart/runtime/bin/directory_linux.cc:219-223 | unlinks what can be read back of the joined path; the part of the buffer before it is untouched |
| `Deletions.DeleteDir` | dart/runtime/bin/directory_linux.cc:226-231 | leaves dots alone and deletes anything else by its joined path, as far as that can be read back |
| `Deletions.TypeOfEntry` | dart/runtime/bin/directory_linux.cc:278-289 | an unknown type is looked up by the path, and the buffer cut back; a path that does not fit or cannot be looked at has none |
| `Deletions.HandleEntry` | dart/runtime/bin/directory_linux.cc:266-302 | the switch over the entry type deletes the entry as the plain recursion does |
| `Deletions.DeleteOpened` | dart/runtime/bin/directory_linux.cc:256-313 | the loop with the shared buffer removes what the plain recursion removes, in that order; whatever happens, the buffer still starts with the path of the directory |
| `Deletions.DeleteRecursively` | dart/runtime/bin/directory_linux.cc:234-314 | the same from a path: links are unlinked, directories emptied first |
| `Deletions.Delete` | dart/runtime/bin/directory_linux.cc:426-431 | the same for a path given from outside, refused if it is too long |
| `CircularLists.CircularLinkedList.Add` | dart/runtime/bin/eventhandler.h:134-150 | the element goes to the end of the ring; the links of all nodes stay consistent both ways |
| `CircularLists.CircularLinkedList.RemoveHead` | dart/runtime/bin/eventhandler.h:152-164 | the ring without its head, in the same order |
| `CircularLists.CircularLinkedList.Remove` | dart/runtime/bin/eventhandler.h:166-194 | the ring without the first occurrence of the element, in the same order, or unchanged if there is none |
| `CircularLists.CircularLinkedList.RemoveAll` | dart/runtime/bin/eventhandler.h:196-200 | terminates with an empty ring |
| `CircularLists.CircularLinkedList.Rotate` | dart/runtime/bin/eventhandler.h:208-213 | the head goes to the back |
| `CircularLists.BypassedIsRing` | dart/runtime/bin/eventhandler.h:152-194 | bypassing any node of a ring of at least two leaves a ring in the same order |
| `DescriptorInfos.DescriptorInfoMultiple.SetPortAndMask` | dart/runtime/bin/eventhandler.h:411-464 | table and ring follow the abstract operation, and the ring stays the list of exactly the ready ports |
| `DescriptorInfos.DescriptorInfoMultiple.RemovePort` | dart/runtime/bin/eventhandler.h:466-488 | a port is forgotten and leaves the ring if it was ready; unknown ports change nothing |
| `DescriptorInfos.DescriptorInfoMultiple.RemoveAllPorts` | dart/runtime/bin/eventhandler.h:490-499 | no ports and an empty ring |
| `DescriptorInfos.DescriptorInfoMultiple.NextNotifyDartPort` | dart/runtime/bin/eventhandler.h:501-523 | the port at the head of the ring, which pays a token and goes to the back or, out of tokens, leaves |
| `DescriptorInfos.DescriptorInfoMultiple.NotifyAllDartPorts` | dart/runtime/bin/eventhandler.h:525-548 | every registered port is told exactly once, pays, and leaves the ring if that was its last token, whatever the order of the table |
| `DescriptorInfos.DescriptorInfoMultiple.ReturnTokens` | dart/runtime/bin/eventhandler.h:550-565 | tokens come back and a port that becomes ready joins the ring |
| `DescriptorInfos.DescriptorInfoMultiple.Mask` | dart/runtime/bin/eventhandler.h:567-572 | read events are asked for if and only if some registered port is ready |
| `Ports.SetPortOk` | dart/runtime/bin/eventhandler.h:411-464 | the ring stays exactly the ready ports, each once |
| `Ports.RemovePortOk` | dart/runtime/bin/eventhandler.h:466-488 | the ring stays exactly the ready ports, each once |
| `Ports.NextNotifyOk` | dart/runtime/bin/eventhandler.h:501-523 | the ring stays exactly the ready ports, and a notified port had a token to pay with |
| `Ports.NotifyAllOk` | dart/runtime/bin/eventhandler.h:525-548 | the ring stays exactly the ready ports |
| `Ports.ReturnTokensOk` | dart/runtime/bin/eventhandler.h:550-565 | the ring stays exactly the ready ports |
| `PortHistory.SetPortSets` | dart/runtime/bin/eventhandler.h:411-435 | after a mask has been set the port is registered and reads exactly if that was asked for; it keeps its tokens, or has all of them if it is new; every other port and their order in the ring are unchanged |
| `PortHistory.RemovePortRemoves` | dart/runtime/bin/eventhandler.h:466-488 | the port is gone from table and ring; every other port and their order are unchanged |
| `PortHistory.ReturnTokensReturns` | dart/runtime/bin/eventhandler.h:550-565 | the tokens are added, the port is in the ring exactly if it reads and has some, keeping its place or joining at the end; every other port is unchanged |
| `PortHistory.NextNotifyNotifies` | dart/runtime/bin/eventhandler.h:501-523 | the head of the ring pays one token and goes to the back while it has more; every other port is unchanged |
| `PortHistory.NotifyAllNotifies` | dart/runtime/bin/eventhandler.h:525-548 | every port pays one token and keeps what it asked for; the ring keeps, in order, those with tokens left |
| `PortHistory.TableIsAsked` | dart/runtime/bin/eventhandler.h:411-499 | in every run a port is registered and reads if and only if that is what it asked for last, said of the operations alone |
| `PortHistory.RingIsByWaiting` | dart/runtime/bin/eventhandler.h:411-565 | in every run, whatever operations come in between, the ring stands in the order in which its ports began to wait |
| `PortHistory.LongestWaitingIsNext` | dart/runtime/bin/eventhandler.h:501-523 | so the port that is told next has waited longer than any other that is ready |
| `Ports.WantsInIffSomeReady` | dart/runtime/bin/eventhandler.h:567-572 | the ring is not empty if and only if some port is ready |
| `Ports.RoundRobin` | dart/runtime/bin/eventhandler.h:501-523 | the next k notifications reach the k ready ports once each, in ring order |
| `Ports.TurnsRing` | dart/runtime/bin/eventhandler.h:501-523 | without tokens a full round leaves the ring as it was |
| `Ports.SupplyRunsOut` | dart/runtime/bin/eventhandler.h:501-523 | exactly as many notifications as the ready ports have tokens find a port before the mask becomes empty |
| `Ports.EveryTokenNotifies` | dart/runtime/bin/eventhandler.h:501-523 | by then each port has been notified as often as it had tokens |
| `Ports.PerformBalances` | dart/runtime/bin/eventhandler.h:411-565 | every operation keeps tokens = initial - notified + returned for each port; a notification never takes a ready port below zero |
| `Ports.RunBalances` | dart/runtime/bin/eventhandler.h:411-565 | in every run in which clients return only what they received, the books balance and no port exceeds its tokens |
| `EpollFacts.ChangeOk` | dart/runtime/bin/eventhandler_linux.cc:138-150 | whatever the mask was, the registration follows the new one, no other record changes, and no EPOLL_CTL_ADD fails |
| `EpollFacts.MessageKeepsOk` | dart/runtime/bin/eventhandler_linux.cc:198-283 | every command keeps each live descriptor registered with its mask exactly when the mask is not empty |
| `EpollFacts.EventKeepsOk` | dart/runtime/bin/eventhandler_linux.cc:337-352 | every event but a broadcast of the last tokens keeps the registration in step, changes no other descriptor, and makes one post, to a real port, or none |
| `EpollFacts.BatchKeepsOk` | dart/runtime/bin/eventhandler_linux.cc:322-360 | when the k-th event of a batch is handled its record has not been deleted and is still registered with its mask |
| `EpollFacts.EveryEventIsTold` | dart/runtime/bin/eventhandler_linux.cc:302-352 | a batch makes one post per event that has something to read or, without an error, something to write or a hang-up; none goes to port 0 or to nobody |
| `EpollFacts.PollRunKeepsOk` | dart/runtime/bin/eventhandler_linux.cc:363-384 | in every state of every run of the poll loop the kernel's interest list agrees with the masks |
| `EpollEffects.PollRunWatches` | dart/runtime/bin/eventhandler_linux.cc:59-79 | in every state of every run the kernel watches a socket with one port for exactly what the port asked for, edge-triggered, while it has tokens; a listening socket for connections while some reading port has tokens; and nothing else |
| `EpollEffects.EventIsTold` | dart/runtime/bin/eventhandler_linux.cc:302-352 | condition by condition: without an error exactly one post is made if there is something to read, to write or a hang-up, to the single port or the head of the ring, with exactly these three flags; an error makes one post, to all ports, if and only if there is something to read |
| `EpollEffects.EventIsPaid` | dart/runtime/bin/eventhandler_linux.cc:337-352 | exactly the ports that are told pay, one token each; nothing else changes but the registration, and without a post nothing at all |
| `EpollEffects.RefusedAddIsPaid` | dart/runtime/bin/eventhandler_linux.cc:59-79 | where the kernel refuses a registration it keeps the old one, and every port pays for being told so |
| `EpollEffects.BatchIsAnnounced` | dart/runtime/bin/eventhandler_linux.cc:322-352 | a batch posts, in order, what each of its events posts by itself: no event changes what another one tells, or to whom |
| `EpollEffects.MaskIsSet` | dart/runtime/bin/eventhandler_linux.cc:271-277 | a set-mask command sets it: the port has asked for exactly that, its tokens and every other port are as before, the kernel watches accordingly, and no other descriptor is touched |
| `EpollEffects.TokensComeBack` | dart/runtime/bin/eventhandler_linux.cc:265-270 | returned tokens are added to those of the port and nothing else changes; the kernel watches accordingly |
| `EpollEffects.PortIsTakenOff` | dart/runtime/bin/eventhandler_linux.cc:230-264 | closing a listening socket that others have open takes off one port, leaves the others in order, and tells the port |
| `EpollEffects.SocketIsClosed` | dart/runtime/bin/eventhandler_linux.cc:230-264 | any other closed socket is forgotten by the kernel and by the handler, and its port is told |
| `EpollEffects.ShutdownChangesNothing` | dart/runtime/bin/eventhandler_linux.cc:222-229 | shutting down one direction changes no descriptor and no registration, and tells nobody |
| `EpollEffects.CommandsWait` | dart/runtime/bin/eventhandler_linux.cc:322-360 | without an interrupt in the batch no descriptor comes or goes, and the posts are those of the events |
| `EpollFacts.CommandsFirstWouldDangle` | dart/runtime/bin/eventhandler_linux.cc:354-358 | why commands wait for the batch: handled first, a close would delete a record that the batch still names |
| `EpollFacts.BroadcastMask` | dart/runtime/bin/eventhandler.h:525-548 | a broadcast empties the mask unless some reading port has a token to spare |
| `EpollFacts.ErrorKeepsOkIff` | dart/runtime/bin/eventhandler_linux.cc:340-344 | after an error event of any shape the registration is still right if and only if it is not passed on or some reading port has a token to spare: the broadcast does not look at it |
| `EpollFacts.LastTokenGoes` | dart/runtime/bin/eventhandler_linux.cc:340-344 | in every state in which a socket is down to its last token, an error event and then a returned token make EPOLL_CTL_ADD hit a registered descriptor |
| `EpollFacts.ErrorThenAddFails` | dart/runtime/bin/eventhandler_linux.cc:340-344 | the failing input: a run of the loop from its start that gets there |
| `EpollTokens.EventBalances` | dart/runtime/bin/eventhandler_linux.cc:337-352 | each port that is told something pays one token, whether it is told alone or with others |
| `EpollTokens.MessageBalances` | dart/runtime/bin/eventhandler_linux.cc:198-283 | every command of a client that returns only what it was told keeps the books of every port in balance |
| `EpollTokens.FaithfulIsOk` | dart/runtime/bin/eventhandler_linux.cc:265-270 | such a command never breaks the bound on tokens that the handler asserts, for sockets with one port and with many |
| `EpollTokens.FaithfulRunBalances` | dart/runtime/bin/eventhandler_linux.cc:363-384 | in every state of every run with such clients each port has its initial tokens less those it owes |
| `EpollTokens.FaithfulRunIsPollRun` | dart/runtime/bin/eventhandler_linux.cc:363-384 | so in every such run the interest list agrees with the masks, nothing assumed about tokens |
| `Descriptors.DescriptorInfo.SetPortAndMask` | dart/runtime/bin/eventhandler.h:292-296 | a descriptor object with one port, or with a ring of ports behind it, follows the operation on values; the objects it is made of stay its own |
| `Descriptors.DescriptorInfo.RemovePort` | dart/runtime/bin/eventhandler.h:298-304 | the same for taking a port off: one port leaves an empty mask |
| `Descriptors.DescriptorInfo.NextNotifyDartPort` | dart/runtime/bin/eventhandler.h:311-318 | the port whose turn it is pays a token |
| `Descriptors.DescriptorInfo.NotifyAllDartPorts` | dart/runtime/bin/eventhandler.h:320-333 | every port of the descriptor is told exactly once and pays a token; a single port only if it is set |
| `Descriptors.DescriptorInfo.ReturnTokens` | dart/runtime/bin/eventhandler.h:335-341 | the given tokens come back to the port |
| `Descriptors.DescriptorInfo.Mask` | dart/runtime/bin/eventhandler.h:343-348 | what the kernel should watch for |
| `EventHandlers.EventHandlerImplementation.AddToEpollInstance` | dart/runtime/bin/eventhandler_linux.cc:59-79 | the descriptor is registered with its mask; if and only if the kernel refuses, all its ports are told, in one post, and pay |
| `EventHandlers.EventHandlerImplementation.UpdateEpollInstance` | dart/runtime/bin/eventhandler_linux.cc:138-150 | the registration follows the mask that the descriptor object has now; what the objects amount to otherwise stays, and nothing is posted unless an add is refused |
| `EventHandlers.EventHandlerImplementation.FindDescriptorInfo` | dart/runtime/bin/eventhandler_linux.cc:153-173 | finds or makes the one live record of a descriptor |
| `EventHandlers.EventHandlerImplementation.HandleSocketMessage` | dart/runtime/bin/eventhandler_linux.cc:210-280 | each command has its effect on descriptor, registration and posts, and keeps the invariant |
| `EventHandlers.EventHandlerImplementation.CloseDescriptor` | dart/runtime/bin/eventhandler_linux.cc:221-263 | deregisters before deleting the object, and deletes only when nobody else has the socket open; all other descriptor objects are as before |
| `EventHandlers.EventHandlerImplementation.HandleInterruptFd` | dart/runtime/bin/eventhandler_linux.cc:198-283 | messages are handled in order; shutdown is noticed if and only if it was asked for |
| `EventHandlers.EventHandlerImplementation.HandleReady` | dart/runtime/bin/eventhandler_linux.cc:337-352 | errors are broadcast to the ring, everything else goes to the port whose turn it is, with the right event flags, and the kernel then watches for what the objects ask |
| `EventHandlers.EventHandlerImplementation.HandleEvents` | dart/runtime/bin/eventhandler_linux.cc:322-360 | the whole batch first, then the commands; state and posts are those of the specified turn, and the invariant holds afterwards |
| `TimeoutSpec.UpdateRefinesMap` | dart/runtime/bin/eventhandler.cc:18-56 | the list is a map from port to deadline: an update sets or cancels the given port's deadline and no other |
| `TimeoutSpec.WaitIsShort` | dart/runtime/bin/eventhandler_android.cc:331-338 | no wait while a deadline has passed, an endless one if and only if none is set, never past a deadline still to come, and, unless it is capped, exactly up to one |
| `TimeoutSpec.DueIffOverdue` | dart/runtime/bin/eventhandler_android.cc:341-350 | a wake-up tells a port if and only if some deadline has passed |
| `TimeoutSpec.QueueIsPending` | dart/runtime/bin/eventhandler.cc:18-56 | in every run the queue holds exactly the deadlines that the history leaves pending: last set, not cancelled, not told since |
| `TimeoutSpec.ToldInTime` | dart/runtime/bin/eventhandler_android.cc:341-350 | in every run a port is told only once its pending deadline has passed and none is earlier; nobody is told only if none has passed |
| `TimeoutSpec.ToldInOrder` | dart/runtime/bin/eventhandler_android.cc:341-350 | between messages ports are told in the order of their deadlines |
| `TimeoutSpec.EveryDeadlineIsTold` | dart/runtime/bin/eventhandler_android.cc:353-378 | as many wake-ups as there are deadlines up to a time tell every port with such a deadline |
| `TimeoutOrder.NewestIsToldFirst` | dart/runtime/bin/eventhandler.cc:18-56 | in every run, of the ports whose deadlines fall together the one whose deadline was set last is told first |
| `TimeoutQueues.EveryWaitIsShort` | dart/runtime/bin/eventhandler_android.cc:361-366 | every wait of every run of the loop is short in that sense, cap included |
| `TimeoutQueues.TimeoutQueue.UpdateTimeout` | dart/runtime/bin/eventhandler.cc:18-56 | the linked list follows the update, and the next-timeout pointer is at a live node with the earliest deadline, the first such in the list |
| `TimeoutQueues.TimeoutQueue.FindNext` | dart/runtime/bin/eventhandler.cc:46-55 | the rescan finds the first entry with the earliest deadline |
| `TimeoutQueues.TimeoutQueue.Remove` | dart/runtime/bin/eventhandler.cc:25-32 | unlinking keeps the order of the others, and the node is deleted |
| `TimeoutQueues.TimeoutQueue.RemoveCurrent` | dart/runtime/bin/eventhandler.h:102-104 | the entry with the earliest deadline is gone, the rest is as it was |
| `TimeoutQueues.TimeoutQueue.Destroy` | dart/runtime/bin/eventhandler.h:86-88 | terminates, and every node has been deleted |
| `TimeoutQueues.TimerHandler.GetTimeout` | dart/runtime/bin/eventhandler_android.cc:331-338 | endless without a deadline, else the time to the earliest one, and none once it has passed; capped, the specified wait |
| `TimeoutQueues.TimerHandler.HandleTimeout` | dart/runtime/bin/eventhandler_android.cc:341-350 | queue and posts stay those of the event history, a wake-up added |
| `TimeoutQueues.TimerHandler.Poll` | dart/runtime/bin/eventhandler_android.cc:353-378 | a run of the loop: it takes the turns up to the first in which it is shut down and no more; queue, posts and waits are those of its history |
| `AcceptProtocol.NextKeepsInvariant` | dart/runtime/bin/eventhandler_win.cc:445-590 | every lock-protected step keeps: pending count = accepts in flight; connections queued = taken, then dropped, then waiting, in order; a closing socket holds none; deleted exactly when closed and let go |
| `AcceptProtocol.EveryRun` | dart/runtime/bin/eventhandler_win.cc:445-590 | the same in every state of every interleaving of Dart threads and event handler thread |
| `AcceptProtocol.RunFollowsHistory` | dart/runtime/bin/eventhandler_win.cc:445-590 | in every run, said of the actions alone: the accepts in flight are those taken on, one for each successful start and each successful request for a connection, less those completed; the socket is closing if and only if every port has closed it; the connections handed out, waiting and dropped are those that arrived, in order |
| `AcceptProtocol.DeletedIsOutOfReach` | dart/runtime/bin/eventhandler_win.cc:521-527 | no command, no accept and no completion ever reaches a deleted socket |
| `AcceptProtocol.GivingUpIsSafeIff` | dart/runtime/bin/socket_win.cc:535-553 | a start that gives up half-way tests the socket again after closing it; some run then touches a deleted socket if and only if, when it gave up, an accept was in flight or the event handler thread was handling a completion or a command |
| `AcceptProtocol.GivingUpTooEarly` | dart/runtime/bin/socket_win.cc:535-553 | the failing run: an accept in flight completes after the start gave up, and the test meets a deleted socket |
| `AcceptProtocol.FinishingDeletes` | dart/runtime/bin/eventhandler_win.cc:1109-1119 | left alone, the event handler thread finishes the accepts in flight and deletes a closing socket |
| `ListenSockets.ListenSocket.IssueAccept` | dart/runtime/bin/eventhandler_win.cc:445-481 | one more pending accept, unless the system refused it |
| `ListenSockets.ListenSocket.AcceptComplete` | dart/runtime/bin/eventhandler_win.cc:484-518 | the connection joins the end of the list unless the socket is closing or the connection unusable; one accept less is pending |
| `ListenSockets.ListenSocket.Accept` | dart/runtime/bin/eventhandler_win.cc:552-572 | the oldest connection, unlinked, with head, tail and count consistent; an open socket asks for another |
| `ListenSockets.ListenSocket.DoClose` | dart/runtime/bin/eventhandler_win.cc:530-543 | terminates with an empty list, and every connection that was on it is closed |
| `ListenSockets.ListenSocket.Close` | dart/runtime/bin/eventhandler_win.cc:156-166 | closing happens once and drops every waiting connection |
| `ListenSockets.ListenSocket.IsClosed` | dart/runtime/bin/eventhandler_win.cc:588-590 | closing with no accept pending |
| `DebuggerProtocol.NextKeepsInvariant` | dart/runtime/bin/dbg_message.cc:1044-1131 | every atomic step of connection thread, VM threads and isolate keeps the queue protocol's invariant |
| `DebuggerProtocol.RunKeepsInvariant` | dart/runtime/bin/dbg_message.cc:1044-1131 | it holds in every state of every interleaving; in particular commands added = handled followed by queued, in order |
| `DebuggerProtocol.CommandsFollowHistory` | dart/runtime/bin/dbg_message.cc:1044-1085 | in every run the commands handled and then those queued are, in order, exactly the commands of acceptable length that were sent |
| `DebuggerProtocol.ServiceFollowsHistory` | dart/runtime/bin/dbg_message.cc:1099-1107 | in every run service messages are handled in the order in which they were posted, none left out |
| `DebuggerProtocol.PostersFollowHistory` | dart/runtime/bin/dbg_message.cc:1088-1121 | in every run the actions alone say whose poster has still to look at the callback, and whose, having looked while the isolate was in the loop, has still to call |
| `DebuggerProtocol.LeavesIff` | dart/runtime/bin/dbg_message.cc:1088-1121 | the isolate enters the loop when it asks to and leaves it exactly when a service message or the next command sent is a request to resume |
| `DebuggerProtocol.WaitsIff` | dart/runtime/bin/dbg_message.cc:1109-1117 | the isolate starts to wait exactly when it has handled every command sent, and is notified exactly when a command is accepted or a poster calls |
| `DebuggerProtocol.NoLostWakeup` | dart/runtime/bin/dbg_message.cc:1088-1121 | an isolate that waits un-notified has handled every command, and every unserved service message still has its notification outstanding |
| `DebuggerProtocol.OutstandingCallWakes` | dart/runtime/bin/dbg_message.cc:1258-1265 | that notification can be made at once and wakes the isolate |
| `DebuggerProtocol.InterruptsAreSparse` | dart/runtime/bin/dbg_message.cc:1124-1131 | in every run a request issues exactly one interrupt if and only if the isolate is outside the loop and none was requested since it last left it; so there is at most one between two exits, and none from inside |
| `DebuggerProtocol.DrainStopsAtResume` | dart/runtime/bin/dbg_message.cc:1071-1085 | a drain handles exactly the commands up to and including the first that resumes, in order, and leaves the loop there |
| `DebuggerQueues.DbgMsgQueue.AddMessage` | dart/runtime/bin/dbg_message.cc:1044-1062 | a command of acceptable length goes to the end; the isolate is notified if and only if the queue was empty |
| `DebuggerQueues.DbgMsgQueue.HandlePendingMessages` | dart/runtime/bin/dbg_message.cc:1071-1085 | the linked queue is drained as the protocol says; the rest stays queued |
| `DebuggerQueues.DbgMsgQueue.Destroy` | dart/runtime/bin/dbg_message.h:142-152 | every queued message is deleted, once |
| `SerializerSpec.SerIsNumbered` | dart/client/dart.js:59-104 | on every graph, cycles included, objects are numbered 0, 1, 2, ... in the order they are first met, and references only look back |
| `SerializerFacts.SerDepicts` | dart/client/dart.js:59-104 | every list, map and reference of the wire form stands for the object it was made from |
| `SerializerFacts.SerDistinct` | dart/client/dart.js:61-71 | no object is given two numbers |
| `SerializerFacts.IdsDiffer` | dart/client/dart.js:59-104 | no number is written out in full at two positions |
| `SerializerFacts.PositionOf` | dart/client/dart.js:59-104 | every number given out is written out in full somewhere |
| `SerializerFacts.VisitedIffReachable` | dart/client/dart.js:59-104 | exactly the reachable lists and maps are visited |
| `SerializerFacts.NoRefsIffTree` | dart/client/dart.js:59-104 | the wire form has a reference if and only if some object is reached along two different paths |
| `Deserializers.DecodesIffNoRefs` | dart/client/dart.js:106-161 | the decoder succeeds if and only if there are no references |
| `Deserializers.SurvivesIffPortable` | dart/client/dart.js:106-161 | what decoding can lose, said of the wire form and of the graph, is the same |
| `SerializerFacts.ThrowsIffDetached` | dart/client/dart.js:87-88 | serializing fails if and only if a local port without a receive port can be reached |
| `Deserializers.RoundTrip` | dart/client/dart.js:226-230 | a copy is made if and only if nothing in the message is shared and no local port in it has lost its receive port; it is then structurally equal if and only if every local port is open and no object has an own property called __proto__ |
| `Deserializers.ProtoPropertyIsLost` | dart/client/dart.js:125-136 | the failing input: an object whose one property is called __proto__ comes back empty |
| `Serializers.Serializer.FindVisited` | dart/client/dart.js:66-67 | the first position of an object among those visited, or -1 |
| `Serializers.Serializer.SerializeParts` | dart/client/dart.js:82-98 | the loop that fills in the parts, in order, each seeing what the earlier ones visited |
| `Serializers.Serializer.CheckedSerialization` | dart/client/dart.js:61-71 | first visits are numbered and expanded, later ones become references; terminates on cyclic graphs |
| `Serializers.Serialize` | dart/client/dart.js:59-104 | the imperative serializer computes the specified wire form, or throws exactly on a port without a receive port |
| `Serializers.DeserializeHelper` | dart/client/dart.js:106-161 | the decoder computes the specified tree or the exception of the first part that has one |
| `Serializers.CopyMessage` | dart/client/dart.js:226-230 | a message copied within a page arrives if and only if it is a tree without such ports, and arrives equal if and only if it is portable |
| `BigintSpec.NormalizedUnique` | dart/runtime/bin/dartutils.cc:1024-1031 | a normalized number is determined by its sign and value |
| `BigintSpec.DenotesUnique` | dart/runtime/bin/dartutils.cc:980-1033 | a literal denotes one number |
| `BigintSpec.HexDigitIs` | dart/runtime/bin/dartutils.cc:966-977 | a character is a digit if and only if it stands in 0123456789ABCDEF or 0123456789abcdef, and is worth its place there |
| `BigintSpec.PrintedDigitIs` | dart/runtime/bin/dartutils.cc:1036-1040 | the character printed for a number below sixteen is the one in that place of 0123456789ABCDEF |
| `BigintSpec.DenotesIff` | dart/runtime/bin/dartutils.cc:980-1033 | digit by digit: a literal denotes a number if and only if it is normalized, its 32-bit digits, lowest first, amount to the digits of the literal in their places to the base sixteen, and its sign is that of the literal unless it is zero |
| `BigintSpec.PrintedDenotes` | dart/runtime/bin/dartutils.cc:1043-1094 | what is printed for a normalized number is a literal that denotes it |
| `BigintSpec.PrintedSpells` | dart/runtime/bin/dartutils.cc:1043-1094 | what is printed is the sign, 0x and the digits of the number to the base sixteen from 0123456789ABCDEF, with no zero in front but zero itself |
| `BigintSpec.PrintedIsCanonical` | dart/runtime/bin/dartutils.cc:1043-1094 | printing what a literal denotes gives the literal in upper case, without leading zeros, and without a sign if it is zero |
| `BigintSpec.PrintedBodyLength` | dart/runtime/bin/dartutils.cc:1052-1072 | the printed digits are as long as the digit count says, within one digit |
| `BigintCodecs.NewBigint` | dart/runtime/bin/dartutils.cc:980-1033 | accepts exactly -?0[xX] followed by hexadecimal digits, and yields the normalized number that the literal denotes |
| `BigintCodecs.ReadDigits` | dart/runtime/bin/dartutils.cc:998-1023 | stays inside the digit array and collects the value of the literal, or stops at a bad character |
| `BigintCodecs.Trim` | dart/runtime/bin/dartutils.cc:1024-1026 | drops leading zero digits without changing the value |
| `BigintCodecs.PrintDigits` | dart/runtime/bin/dartutils.cc:1059-1092 | the buffer is filled exactly, the write position ending at 0, unless its length does not fit in 32 bits |
| `BigintSpec.LengthFitsIff` | dart/runtime/bin/dartutils.cc:1071-1072 | the length fits in the 32-bit variable that holds it if and only if the number has less than 2^28 digits, or just as many with a topmost one below 16^4, or 16^3 if negative |
| `BigintSpec.LengthFits` | dart/runtime/bin/dartutils.cc:1055-1072 | where pointers have 32 bits, the length of every number that passes the check fits in the 32-bit variable that holds it |
| `BigintSpec.LengthOverflows` | dart/runtime/bin/dartutils.cc:1055-1072 | the failing input where they have 64 bits: a number that passes the check and whose length does not fit |
| `BigintCodecs.BigintToHexValue` | dart/runtime/bin/dartutils.cc:1043-1094 | prints a normalized number as a literal that denotes it; refuses it if and only if it has too many digits, and cannot hold its length if and only if it passes that check and is not short in the sense of LengthFitsIff |
| `BigintCodecs.PrintThenParse` | dart/runtime/bin/dartutils.cc:980-1094 | parsing what was printed gives the number back, exactly when printing is possible |
| `BigintCodecs.ParseThenPrint` | dart/runtime/bin/dartutils.cc:980-1094 | printing what was parsed gives the canonical form of the literal, exactly when that is possible |

## Left out

- ListDirectory: requires that no directory is entered by a path of exactly PATH_MAX characters. There is no room for its separator then, and the listing goes on from a saved length that has not been set (`dart/runtime/bin/directory.h:65-66`, `dart/runtime/bin/directory_linux.cc:94-101`), so there is no behaviour to describe. All other paths, those of PATH_MAX characters included, are modelled.
- ListDirectory: requires the given path to end in a separator, which `dart/sdk/lib/io/directory_impl.dart` (lines 216-233) makes sure of.
- OpenTop: requires room for the separator of a directory that can be opened, for the same reason.
- Next: the separator is always added, for the same reason.
- NextPage: page sizes are even and at least 2; the source always asks for 128 slots.
- ListToStream: nobody pauses or cancels the stream, and the details of a system error are not part of an error item.
- The synchronous listing, which calls the same `ListNext` with other handlers, and entries that come and go during a listing, other than by no longer answering to lstat or opendir.
- Delete: nobody else changes the tree while it is being deleted; which removals the system refuses is a parameter. The branch for deletion that is not recursive is two system calls and is left out.
- HandleEvents: excludes error events that take the last spare token, of which `ErrorKeepsOkIff` says what they do; assumes that EPOLL_CTL_ADD fails only for a registered descriptor and that a batch names a descriptor once. A hang-up of a listening socket is told to the next port, as a release build does; a debug build stops at the assertion in `dart/runtime/bin/eventhandler.h:504-505`.
- HandleSocketMessage: commands that break the handler's own assertions, which `MessageOk` excludes; `FaithfulIsOk` shows that clients that return only what they were told never send one that breaks the bound on tokens.
- PollRunKeepsOk: the loop around `HandleEvents` is a run over values; there is no method for it.
- How command, tokens and event flags share one word of a message, and the port registry that decides whether closing a listening socket is safe.
- The Linux timer descriptor, which is not armed again after a timeout has been told; the timers are modelled as the Android poll loop serves them.
- The dispatch of waiting accepts to ports, the client and datagram sockets and the completion port of the Windows event handler. `AcceptProtocol` assumes that every accept the system takes on is completed once, and that a port does not use a socket after closing it.
- DoClose: the dropped connections are closed; that their objects are deleted when their own last operation completes belongs to the client sockets.
- GivingUpIsSafeIff: the test after giving up is one step; what a second deletion would do is not modelled.
- The list of all debugger queues, the commands themselves and their replies. Command handlers do not enter the message loop again, and posting a service message and looking at the notify callback are two separate steps.
- The JSON text, the DOM events and the port registry of the serializer's surroundings; NaN, and what a changed prototype does to later lookups.
- BigintToHexValue: NULL arguments and a failing malloc are not modelled, and shifts are multiplications and divisions by powers of sixteen. What is written after the length has overflowed is not described.
- DeserializeMap: property order is not kept in the decoded map.
