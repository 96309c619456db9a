# Home Tunnel client: verified core

A Dafny model of the parts of the Home Tunnel client whose correctness rests on
an argument over all inputs or all runs, with proofs of what they promise. Each
module follows one component; code that updates state in place is a class or a
method with loops, proved equal to a function, and the laws are lemmas about
that function. `dafny verify dfyconfig.toml` checks everything.

What is modelled, and the main result of each part:

- `AudioJitterBuffer`: the PCM ring with its occupancy histogram. Whatever the
  histogram recorded, a drop is even, under a third of the ring and within two
  thirds of every recorded occupancy. In every run the ring is the tail of the
  fed stream, and with whole stereo frames it starts at an even place of it, so
  channels never swap. How much is dropped, and when, is settled exactly.
- `ConsoleReporter`: the heartbeat and session reporter as a step machine over
  its awaits, and the nested loops that refine it. In every run events are
  conserved and in order, gated by heartbeats, with exact backoff and a bound on
  the next heartbeat; a cancelled worker does nothing more, and from every state
  of a running one all accepted events can still be resolved.
- `StrictBase64`: the decoder returns `Some(d)` for exactly the non-empty `d`
  whose canonical encoding (section 4 of RFC 4648) is the input.
- `BuildConfigText`, `BuildConfigParser`, `BuildConfigDocument`,
  `ConfigBindings`, `ConfigComments`: every text whatever is the rendering of a document, and the
  reader gives exactly what that document means: its bindings when no line is at
  fault, else the first faulty line and its fault. Every configuration can be
  written and read back, with any comments, which are cut at exactly the first
  `#` outside quotes.
- `PrivateCidr`: testing the two ends of a CIDR block is testing every address.
- `LoginProvenance`: over every run of handlers, tokens, disk and address book,
  no shared password is ever stored or synchronised if and only if peer info
  never meets an unrecognised one. It never does while the peer keeps one salt,
  peer info waits for the hash message, and no sides are switched with a shared
  password in use; three runs show that each of the three is needed. Which
  password is used after each step is stated case by case.
- `DependencyForest`, `Ordering`: printed lines are cut greedily, the stack walk
  accepts exactly preorder listings and yields exactly the edges and nodes of the
  one forest behind the listing, and the graph has one sorted record.
- `ClipboardSync`, `ClipboardListener`: no message ever carries content that was
  installed from the other side, the exchange dies out after the last local
  copy, and at most one listener thread runs.
- `TemplateDiff`: the reported field is the one first differing position, and
  below a named path the answer is empty exactly for deeply equal values.
- `ManagedDomains`, `ArchiveTree`, `NoticeInventory`: the loops accept exactly
  what a global description says, and what follows from it.
- `SecureHandshake`: in every run of attempts without forged signatures, each
  session rests on two statements really signed and its stream key went to the
  proven key only; with honest signers nobody can stand in between.

Inputs and outcomes of the clock, the network, the file system, the system
clipboard and the audio device are parameters. Digests, signature checks,
compression, case mapping and the host's tables are arbitrary functions. Counters
are unbounded except where the source saturates them; times are whole seconds in
the reporter and milliseconds in the audio buffer.

Where code and comments differ, the code is followed: the audio comment says
nothing is dropped below 600 ms of buffered data, while the code only asks that
the most frequent bucket be at least 600 ms (`DropsBelow600` gives a run,
`RunDropsBelow600Iff` the exact condition and a floor near 300 ms); clipboard items
of special formats are sent as their name when compression does not shrink them
(`SpreadsheetArrivesAsName`, `ArrivesIff`).

## Model

| member | source | states |
|---|---|---|
| AudioJitterBuffer.DropIsSafe | client/src/client.rs:1291-1328 | for every histogram, even across resizes: the drop is even, three drops are less than the ring holds, and three drops stay within twice any recorded occupancy scaled to the present rate, plus rounding |
| AudioJitterBuffer.DropBelowSmallestOccupancy | client/src/client.rs:1291-1328 | with one rate since the clear, three drops are at most twice the smallest recorded occupancy plus three |
| AudioJitterBuffer.RunDropIsSafe | client/src/client.rs:1268-1328 | the same three bounds for any shrink step after any run without a resize, and the ring loses exactly that many of its oldest samples |
| AudioJitterBuffer.PlannedExactly | client/src/client.rs:1291-1327 | for every histogram, capacity and occupancy a decision drops exactly the even share of the capacity that the lesser of the peak and four times two thirds of the leading empty buckets allows, if the peak is at least 6 and more than three shares are held, and otherwise nothing |
| AudioJitterBuffer.RunDropsExactly | client/src/client.rs:1268-1328 | after any run a shrink step decides exactly when the clock was started and 12000 ms have passed; it then removes exactly that share from the front, clears the histogram and restarts the clock, and otherwise only adds its reading |
| AudioJitterBuffer.DropsWhenFull | client/src/client.rs:1291-1327 | a buffer at least as full as it mostly was drops samples if and only if that was 600 ms or more and it was never seen below 200 ms |
| AudioJitterBuffer.BucketIsTenth | client/src/client.rs:1272-1276 | a bucket is a tenth of a second, and the last one everything beyond |
| AudioJitterBuffer.ResizeExactly | client/src/client.rs:1258-1266 | a resize to another size empties the ring and sets three seconds of it, to the same size it changes nothing, and the histogram stays |
| AudioJitterBuffer.AppendKeepsNewest | client/src/client.rs:1333-1347 | an append keeps everything that fits, else exactly the newest three seconds |
| AudioJitterBuffer.WaitsIff | client/src/client.rs:1530-1553 | the callback waits exactly when samples are missing and playback is between 6 and 3000 ms off |
| AudioJitterBuffer.StereoNeverSwaps | client/src/client.rs:1258-1355 | for all sample values, every run of resize, append, play and shrink with whole stereo frames keeps the ring equal to the fed stream from an even place on |
| AudioJitterBuffer.RingIsTailOfFed | client/src/client.rs:1258-1355 | in every run, with any channels, the ring is a suffix of everything fed to it |
| AudioJitterBuffer.PlaysInOrder | client/src/client.rs:1551-1567 | in every run a play hands out the next samples of the fed stream and moves on just past them |
| AudioJitterBuffer.DropsBelow600 | client/src/client.rs:1307-1327 | from any state just after a decision with 590 ms buffered, a run of 10 ms packets and callbacks after which 14400 samples are dropped from 56640, which are 590 ms |
| AudioJitterBuffer.DropsBelow600Iff | client/src/client.rs:1307-1327 | samples are dropped below 600 ms exactly for low marks: two empty buckets and over 300 ms buffered, or more empty buckets, a peak of 600 or 700 ms and over 450 or 525 ms buffered; at higher peaks rounding leaves room for at most two samples |
| AudioJitterBuffer.RunDropsBelow600Iff | client/src/client.rs:1268-1328 | the same condition for the shrink step after any run, and no step drops unless more than three tenths of a second, rounded down, are buffered |
| AudioJitterBuffer.DecisionsTwelveSecondsApart | client/src/client.rs:1278-1289 | in every run with positive clock readings, the readings at which drops are decided rise by at least 12000 ms each, even when the wall clock jumps back in between |
| AudioJitterBuffer.AudioBuffer.constructor | client/src/client.rs:1244-1253 | starts empty with 96000 samples per second, three seconds of capacity and an empty histogram |
| AudioJitterBuffer.AudioBuffer.DoResize | client/src/client.rs:1258-1266 | replaces the ring only when the capacity changes, keeps capacity at three seconds and leaves the histogram alone |
| AudioJitterBuffer.AudioBuffer.AppendPcm2 | client/src/client.rs:1333-1347 | the ring becomes the newest samples of old ring and input that fit, and the count returned is its length |
| AudioJitterBuffer.AudioBuffer.Record | client/src/client.rs:1272-1276 | the counters stay the tally of all readings since the clear |
| AudioJitterBuffer.AudioBuffer.ScanAndClear | client/src/client.rs:1291-1313 | one pass finds the number of leading empty buckets and the first most frequent bucket among 1..29, and leaves every counter zero |
| AudioJitterBuffer.AudioBuffer.DropOldest | client/src/client.rs:1307-1327 | removes exactly the planned number of oldest samples |
| AudioJitterBuffer.AudioBuffer.TryShrink | client/src/client.rs:1268-1328 | performs the shrink step: records, decides at most every 12 s on the process-wide clock, drops and clears |
| AudioJitterBuffer.AudioBuffer.AppendPcm | client/src/client.rs:1352-1355 | an append followed by a shrink with the occupancy the append saw |
| AudioJitterBuffer.AudioBuffer.Output | client/src/client.rs:1528-1569 | a callback that finds too few samples waits once within its limits while the receiving side goes on, then gets the oldest samples in order, padded with silence, and the ring loses exactly those |
| AudioJitterBuffer.AudioBuffer.Pop | client/src/client.rs:1555-1567 | the data is the front of the ring and silence beyond it |
| AudioJitterBuffer.AudioBuffer.Sleep | client/src/client.rs:1543-1546 | what the receiving side does without the lock is the run of its operations |
| ConsoleReporter.EventsConserved | client/src/homedesk_report.rs:46-142 | in every run, accepted events are the resolved ones, the one in hand and the queue, in order; after return the resolved ones are still a prefix; the queue holds at most 256 |
| ConsoleReporter.EveryActionLawful | client/src/homedesk_report.rs:18-142 | every post is of the first unresolved event, after this round's heartbeat and once per heartbeat; resolutions are 2xx or final 4xx; waits are the backoff of the failures since the last success; a round starts within 365 s of the last delivered heartbeat |
| ConsoleReporter.ReplyResolvesIff | client/src/homedesk_report.rs:113-136 | in every run a reply to a session post resolves its event if and only if its code is 200 to 299, or 400 to 499 and none of 401, 409 and 429; every other reply leaves it in hand and the worker waiting |
| ConsoleReporter.HeartbeatDeliveredIff | client/src/homedesk_report.rs:63-86 | in every run a heartbeat opens the round if and only if its reply has a code of 200 to 299 |
| ConsoleReporter.WaitsInNumbers | client/src/homedesk_report.rs:18-139 | in every run a wait lasts 30, 60 or 300 s by the failures since the last success, a new round follows exactly when it is over, a round without a wait lasts 60 to 65 s, and none lasts longer than 365 |
| ConsoleReporter.PayloadPosts | client/src/homedesk_report.rs:56-79 | a heartbeat is posted exactly when there is a payload |
| ConsoleReporter.ReceivesFirst | client/src/homedesk_report.rs:91-100 | an event that waits is taken even after the deadline or a close; else a closed channel ends the worker and the deadline ends the round |
| ConsoleReporter.ReturnsIff | client/src/homedesk_report.rs:52-101 | the worker returns exactly when it is cancelled at an await, or its channel is closed and empty |
| ConsoleReporter.SendTakenIff | client/src/homedesk_report.rs:46 | an event is taken exactly while the worker runs, the channel is open and fewer than 256 wait |
| ConsoleReporter.PostFollowsHeartbeat | client/src/homedesk_report.rs:53-112 | before every session post lies a delivered heartbeat with no new round in between |
| ConsoleReporter.RepostFollowsHeartbeat | client/src/homedesk_report.rs:89-136 | between two posts with nothing resolved in between lies another delivered heartbeat |
| ConsoleReporter.CancelledWorkerIsSilent | client/src/homedesk_report.rs:12-16 | once cancellation is visible nothing is posted, waited or started again |
| ConsoleReporter.EveryEventCanBeResolved | client/src/homedesk_report.rs:48-142 | progress: from every reachable state in which the worker still runs, some script of passing time and delivered replies resolves every accepted event |
| ConsoleReporter.RunKeepsInv | client/src/homedesk_report.rs:48-142 | conservation, order, gating, counters and timing hold in every reachable state |
| ConsoleReporter.ReporterWorker.Await | client/src/homedesk_report.rs:57-132 | one await: the environment acts until the await completes or the inputs end, and running on gives the machine's next state |
| ConsoleReporter.ReporterWorker.Spawned | client/src/homedesk_report.rs:48-142 | the outer loop, over any script of inputs, ends in the machine's state, at the end of the script or earlier when the worker returned |
| ConsoleReporter.ReporterWorker.Round | client/src/homedesk_report.rs:52-141 | one round, heartbeat and events, follows the machine to the next round or the end |
| ConsoleReporter.ReporterWorker.Heartbeat | client/src/homedesk_report.rs:54-86 | the heartbeat of a round and its backoff follow the machine |
| ConsoleReporter.ReporterWorker.DrainEvents | client/src/homedesk_report.rs:89-140 | the inner loop follows the machine until the worker ends or a new round is due |
| ConsoleReporter.ReporterWorker.PostSession | client/src/homedesk_report.rs:102-136 | posting one event follows the machine until its reply is handled |
| ConsoleReporter.ReporterWorker.HandleReply | client/src/homedesk_report.rs:113-136 | a reply resolves the event, skips it as invalid or keeps it pending, as the machine does |
| StrictBase64.DecodeBase64 | client/homedesk_build.rs:317-360 | the result is `Some(d)` exactly for the non-empty `d` whose canonical encoding is the input |
| StrictBase64.DecodeChunk | client/homedesk_build.rs:322-357 | a chunk is accepted exactly when padding, alphabet and unused bits are right, and gives the regrouped bytes |
| StrictBase64.DecodeSymbols | client/homedesk_build.rs:332-343 | the four characters decode one by one exactly when each is in the alphabet or is padding in its place |
| StrictBase64.GroupRoundTrip | client/homedesk_build.rs:344-357 | every encoded group of one to three bytes passes the chunk tests and decodes to itself |
| StrictBase64.ChunkBytesEncode | client/homedesk_build.rs:344-357 | encoding what an accepted chunk decodes to gives the chunk back |
| StrictBase64.EncodeInjective | client/homedesk_build.rs:317-360 | no two byte strings share an encoding |
| StrictBase64.ServerKeySpelling | client/homedesk_build.rs:372-374 | a 32-byte key has one spelling, of 44 characters ending in padding |
| BuildConfigText.StripComment | client/homedesk_build.rs:211-228 | the text kept is the line up to exactly the first `#` outside quotes, where a quote counts unless it stands inside quotes after an odd run of backslashes |
| BuildConfigText.CutAtFirstComment | client/homedesk_build.rs:211-228 | the cut is at the first comment sign, counted by quotes and backslashes and not by the scanner's flags |
| BuildConfigText.CommentIsCut | client/homedesk_build.rs:211-228 | a comment after a line that leaves no quote open is cut off again, whatever it says |
| BuildConfigText.ParseBasicString | client/homedesk_build.rs:230-254 | decodes a quoted string or names the first fault |
| BuildConfigText.BasicStringQuote | client/homedesk_build.rs:230-254 | every string survives quoting and parsing |
| BuildConfigText.ScanOverQuote | client/homedesk_build.rs:211-228 | the comment scanner passes over every quoted value whole and ends outside quotes |
| BuildConfigText.LinesUnlines | client/homedesk_build.rs:110 | splitting joined lines gives the lines back |
| BuildConfigText.LinesOfEitherEnd | client/homedesk_build.rs:110 | lines ending in LF or in CR LF are split alike, and the last one needs no end |
| BuildConfigText.EscapeTable | client/homedesk_build.rs:243-250 | the five escapes, what they stand for, and that there is no other |
| BuildConfigParser.ParseConfig | client/homedesk_build.rs:107-159 | the line loop computes the reader's result, including the number of the refused line |
| BuildConfigParser.ParseLine | client/homedesk_build.rs:111-158 | one line: comment, trim, blank, header, unknown section, entry |
| BuildConfigParser.ParseKeyValue | client/homedesk_build.rs:122-158 | one entry: split, typed value, allowed key, duplicate |
| BuildConfigDocument.EveryTextIsRead | client/homedesk_build.rs:107-159 | every text is the rendering of some document, and reading it gives an outcome if and only if the document means that outcome |
| BuildConfigDocument.ReadsDocument | client/homedesk_build.rs:107-159 | for any document with the lines of the text, the outcome is exactly its meaning: values, or the first faulty line with its fault |
| BuildConfigDocument.ItemOfLine | client/homedesk_build.rs:111-121 | every line is a blank, header, entry or stray line with some spacing, spelling and comment |
| BuildConfigDocument.ReadRendered | client/homedesk_build.rs:111-158 | reading the text of a line does what the line means in its section |
| BuildConfigDocument.BasicStringLiteral | client/homedesk_build.rs:230-254 | every spelling of a value, with any escapes, is decoded to its text or refused with its own fault |
| BuildConfigDocument.SectionOfLastHeader | client/homedesk_build.rs:115-118 | a line stands in the section of the last header before it |
| BuildConfigDocument.KnownKeys | client/homedesk_build.rs:119-153 | the allowed and the boolean keys of each of the four sections, by name |
| BuildConfigDocument.EntryFaults | client/homedesk_build.rs:127-155 | which fault an entry of a known section has, for every kind of value and every key |
| BuildConfigDocument.IgnoredIff | client/homedesk_build.rs:112-124 | outside the four sections nothing does anything; inside, all but blanks and headers do |
| ConfigBindings.PerformMeans | client/homedesk_build.rs:108-158 | reading on from any point computes the meaning of the whole list of lines |
| ConfigBindings.MeansOneThing | client/homedesk_build.rs:108-158 | a list of lines means one outcome only |
| ConfigBindings.FaultlessIff | client/homedesk_build.rs:136-158 | no line is at fault exactly when no line is wrong by itself and no two lines bind one key |
| BuildConfigDocument.EveryMapIsWritten | client/homedesk_build.rs:136-158 | every map over the allowed keys, with booleans for the three boolean keys, is the meaning of some document |
| BuildConfigDocument.ConfigRoundTrip | client/homedesk_build.rs:107-159 | every such map can be written in lines without comments or open quotes and read back |
| ConfigComments.CommentedRoundTrip | client/homedesk_build.rs:107-159 | for every such map and any one-line comments, the text with a comment after every line and a comment line before it reads back to the map |
| ConfigComments.CommentChangesNothing | client/homedesk_build.rs:111-112 | in any section a comment after a line without one, with any space before it, changes nothing about what the line does |
| ConfigComments.CommentLineDoesNothing | client/homedesk_build.rs:111-114 | a line that is only a comment does nothing |
| PrivateCidr.WhitelistOkIffAllInside | client/homedesk_build.rs:386-398 | for every address and prefix the test passes exactly when one private range holds every address of the block |
| PrivateCidr.MaskGrows | client/homedesk_build.rs:389-393 | the mask is the leading bits: it is empty for prefix 0 and each longer prefix adds the next bit |
| PrivateCidr.BlocksAreIntervals | client/homedesk_build.rs:303-315 | the three private ranges are exactly the intervals of section 3 of RFC 1918 |
| LoginProvenance.SharedPasswordsStayUnsaved | client/src/client.rs:2592-2643 | over every run, with new handlers, tokens and edits of disk and address book, in which all hash messages carry one salt, peer info with a shared password in use waits for the hash message and no sides are switched with one in use: the recorded source is the true one, and nothing shared is stored or pushed |
| LoginProvenance.SharedKeptIff | client/src/client.rs:2592-2643 | over every run at all: nothing shared is ever stored or pushed if and only if no peer info meets a shared password that is to be remembered, is not the one on disk, and is no longer reproduced by source and salt |
| LoginProvenance.SharedStoredIff | client/src/client.rs:2596-2643 | after any run, also one that already stored a shared password: exactly when the next peer info stores one, and exactly when it pushes one |
| LoginProvenance.HashChoosesPassword | client/src/client.rs:3528-3600 | after a hash message: a trusted switch keeps the password without its source; otherwise a shared card, the last password, the preset, the saved one, the address-book entry of a signed-in user, the built-in default or nothing is in use, in this order and each with its source |
| LoginProvenance.UiLoginChoosesPassword | client/src/client.rs:3705-3723 | a typed password is in use with no source and its remember choice; without one the last stays or the saved one comes in |
| LoginProvenance.LoginErrorForgets | client/src/client.rs:3442-3449 | an empty or wrong password is thrown away, and any other error changes nothing |
| LoginProvenance.PeerInfoKeeps | client/src/client.rs:2592-2643 | what peer info leaves on disk and pushes for a password of each source, and without one |
| LoginProvenance.TypedPasswordIsRemembered | client/src/client.rs:1878-1924 | a typed password is what the next handler starts from if it was to be remembered, and gone otherwise |
| LoginProvenance.TokenBringsPassword | client/src/client.rs:2859-2869 | a token brings a non-empty password and its source to the next handler |
| LoginProvenance.ChangedSaltLeaks | client/src/client.rs:1742-1759 | for any other password on disk, two hash messages with different salts get a shared password stored and pushed |
| LoginProvenance.SwitchSidesLeaks | client/src/client.rs:3535-3546 | a new handler with a token and a switch request forgets the source at its first hash message, and the shared password is stored and pushed |
| LoginProvenance.UngreetedLeaks | client/src/client/io_loop.rs:1385-1401 | a new handler with a token that gets peer info without a hash message stores and pushes the shared password |
| LoginProvenance.LoginConfigHandler.HandleHash | client/src/client.rs:3528-3600 | a waiting trusted switch request is used up and only clears the source; otherwise last, preset, shared, saved, personal and default password are tried in this order with the right source |
| LoginProvenance.LoginConfigHandler.TryPersonalPassword | client/src/client.rs:3651-3658 | a non-empty address-book password is taken with its own bytes as source |
| LoginProvenance.LoginConfigHandler.HandleLoginFromUi | client/src/client.rs:3705-3723 | a typed password replaces source and password; an empty one falls back to the last or the saved one |
| LoginProvenance.LoginConfigHandler.HandleLoginError | client/src/client.rs:3442-3449 | only an empty or wrong password clears the password |
| LoginProvenance.LoginConfigHandler.HandlePeerInfo | client/src/client.rs:2592-2643 | what is saved and what is pushed to the personal address book |
| LoginProvenance.LoginConfigHandler.DoInitialize | client/src/client.rs:1878-1924 | a new connection loads the configuration, takes over a token's password and source, and sets the switch request |
| LoginProvenance.LoginConfigHandler.GetConnToken | client/src/client.rs:2859-2869 | a token carries a non-empty password with its source |
| DependencyForest.Collect | scripts/collect-native-materials.py:38-55 | accepts exactly lists in which every line matches and the matches are a preorder of named packages; edges are the forest's parent/child pairs; each package has one node with its name, version and the union of its features |
| DependencyForest.CollectBy | scripts/collect-native-materials.py:38-55 | the loop, for any way of matching a line |
| DependencyForest.CutIsGreedy | scripts/collect-native-materials.py:39 | among all readings of a line as digits, text, bar and rest the cut has most digits and then the longest text, and there is none exactly when there is no reading |
| DependencyForest.MatchPrinted | scripts/collect-native-materials.py:39-42 | matching a printed line gives back its depth, package and features |
| DependencyForest.PrintedForestMatches | scripts/collect-native-materials.py:38-55 | the printed listing of a forest matches line by line and is accepted as that listing |
| DependencyForest.WriteRecord | scripts/collect-native-materials.py:49-61 | the record lists every node by identifier, every edge and every node's features once and ascending |
| DependencyForest.RecordedOnce | scripts/collect-native-materials.py:49-61 | a graph has one such record only |
| DependencyForest.FreshFields | scripts/collect-native-materials.py:44-48 | the node of `name vVERSION` with nothing or a blank and more after it has that name and that version |
| DependencyForest.NamedIffPackage | scripts/collect-native-materials.py:44 | the packages that can be read are exactly such texts |
| DependencyForest.FeaturesOfList | scripts/collect-native-materials.py:43-49 | the features of a comma-joined list, with or without the mark of a repeated package, are exactly its non-empty names |
| DependencyForest.NodeFields | scripts/collect-native-materials.py:44-49 | in the collected graph a package has its own name and version, and a feature exactly when one of its lines lists it |
| Ordering.LessIff | scripts/collect-native-materials.py:49 | strings are ordered by their first difference, and after their own beginnings |
| Ordering.PairLessIff | scripts/collect-native-materials.py:60 | edges are ordered by parent and then by child |
| DependencyForest.AcceptedIffForest | scripts/collect-native-materials.py:50-55 | accepted exactly when some forest has this listing, which is exactly when depths start at 0 and rise by at most one |
| DependencyForest.EdgesOfForest | scripts/collect-native-materials.py:50-55 | the edges are those of the forest, and the forest is the only one with the listing |
| DependencyForest.ParseInvertsListing | scripts/collect-native-materials.py:50-55 | reading a forest's listing gives the forest back |
| DependencyForest.WalkListing | scripts/collect-native-materials.py:50-55 | walking a subforest adds exactly its edges and leaves the ancestors on the stack alone |
| DependencyForest.WalkNodes | scripts/collect-native-materials.py:45-49 | a node's features are those it had and those of all its later lines |
| DependencyForest.NodesIgnoreOrder | scripts/collect-native-materials.py:45-49 | walking the same lines in another accepted order gives the same nodes |
| ClipboardSync.NoEcho | client/src/clipboard.rs:239-269 | in every run each sent message is exactly what the local user copied, with nothing installed since, and carries no owner marker |
| ClipboardSync.NoEndlessExchange | client/src/clipboard.rs:379-408 | after the last local copy the messages still sent are at most the unread change notices |
| ClipboardSync.CopyArrives | client/src/clipboard.rs:53-269 | from any state, a copy, a handled notice and an installation leave exactly the copied items and that side's marker on the other clipboard |
| ClipboardSync.KeepAround | client/src/clipboard.rs:398-407 | a message leaves out owner markers and empty texts and nothing else, and keeps the order |
| ClipboardSync.ContentIs | client/src/clipboard.rs:366-408 | nothing is read of content with either side's marker unless forced, nothing of copied files where the file clipboard is built in, and otherwise all that is kept |
| ClipboardSync.ArrivesIff | client/src/clipboard.rs:613-741 | an item arrives unchanged exactly unless it is a special item that compression cannot shrink and whose data is not its name |
| ClipboardSync.SpreadsheetArrivesAsName | client/src/clipboard.rs:672-688 | a spreadsheet item of one byte that compression does not shrink arrives as the name of its format |
| ClipboardSync.GetFormatsFilter | client/src/clipboard.rs:387-407 | nothing of owned content, otherwise everything but markers and empty texts |
| ClipboardSync.ClipboardState.CheckClipboard | client/src/clipboard.rs:54-98 | a message exactly when there is content to send, and only then the cache changes |
| ClipboardSync.ClipboardState.UpdateClipboard | client/src/clipboard.rs:230-260 | received content is installed with the owner marker, or the clipboard is left alone |
| ClipboardListener.SingleListener | client/src/clipboard.rs:871-943 | in every run at most one listener thread is live, a kept handle has a subscriber, and without subscribers nothing runs |
| ClipboardListener.SubscribeStartsListener | client/src/clipboard.rs:880-903 | after a subscription a live listener is on record exactly when one was running or one could be started |
| ClipboardListener.SubscribersAreExact | client/src/clipboard.rs:871-943 | in every run the subscribers are exactly those who subscribed and have not left since |
| ClipboardListener.LeavingStopsOnlyLast | client/src/clipboard.rs:924-943 | while another subscriber remains leaving changes nothing about the listener, and the last one to leave stops it |
| ClipboardListener.Listener.CleanupStaleListener | client/src/clipboard.rs:906-922 | drops the handle exactly when its thread is finished |
| ClipboardListener.Listener.DoSubscribe | client/src/clipboard.rs:871-904 | the whole new listener state and whether success is reported |
| ClipboardListener.Listener.DoUnsubscribe | client/src/clipboard.rs:924-943 | the last subscriber stops and joins the thread |
| TemplateDiff.ComputeDiffPath | agent/main.go:390-427 | the recursive descent with its field loop computes the path the laws below are about |
| TemplateDiff.EmptyIffDeepEqual | agent/main.go:390-427 | from a non-empty path the answer is empty exactly for deeply equal values |
| TemplateDiff.NamesFirstDifference | agent/main.go:403-420 | unequal values are reported at the name of the first differing position in depth-first order |
| TemplateDiff.NameIsDotted | agent/main.go:403-412 | the reported name is the path and the field names on the way with dots between them |
| TemplateDiff.FirstAtUnique | agent/main.go:403-420 | there is only one such position |
| TemplateDiff.RootDiff | agent/main.go:380-385 | from the root, equal values give the empty answer, and unequal ones do so exactly when the root itself is the first differing position |
| TemplateDiff.DeepEqualIsEquality | agent/main.go:417-424 | deep equality of typed value trees is equality |
| ManagedDomains.ManagedIffOneLabel | agent/main.go:609-616 | a domain is managed exactly when it is one valid label, a dot and the tunnel domain |
| ManagedDomains.NormalOf | agent/main.go:237 | white space and then dots around a name are taken off, and every character is lower-cased where it stands |
| ManagedDomains.LabelIff | agent/main.go:46 | a label is 1 to 63 small letters, digits and hyphens with no hyphen first or last |
| ManagedDomains.TunnelDomainIff | agent/main.go:215-225 | the valid domains are exactly two or more labels with dots between them, of 253 characters at most |
| ManagedDomains.ParseAllowedCustomDomains | agent/main.go:227-247 | the allow set is exactly the listed domains: at most 100, all valid, no repeats, or the list is refused |
| ManagedDomains.CollectAllowed | agent/main.go:236-245 | the loop accepts exactly distinct valid names and collects them all |
| ManagedDomains.ValidateDomains | agent/main.go:467-490 | accepts exactly 1 to 101 distinct domains, one of them managed and the others allowed |
| ManagedDomains.CheckDomains | agent/main.go:469-490 | the counting loop meets its global description |
| ManagedDomains.LimitFollows | agent/main.go:469-471 | one domain is managed and the rest distinct allowed ones, so the upper limit follows from the other checks |
| ArchiveTree.VerifyArchive | scripts/package-native-linux.py:150-171 | accepts exactly archives of at most 10000 files and directories with safe names under the prefix, unique ignoring case, without special mode bits or test programs, of at most 512 MiB together, and with no entry below a regular file |
| ArchiveTree.EntryOkIff | scripts/package-native-linux.py:153-163 | which parts, characters, place, kind, mode bits and last part make one entry fit |
| ArchiveTree.CheckEntries | scripts/package-native-linux.py:151-166 | the running checks amount to the global ones |
| ArchiveTree.CheckEntry | scripts/package-native-linux.py:152-166 | one entry is refused only when the whole archive must be, and otherwise the running checks go on |
| ArchiveTree.WalkAncestors | scripts/package-native-linux.py:168-171 | the walk succeeds exactly when no proper ancestor is a regular file, and it ends |
| ArchiveTree.ParentIsLastSlash | scripts/package-native-linux.py:168-171 | the parent is the text before the last slash, and empty without one |
| NoticeInventory.VerifyNoticeRecord | scripts/build-remote-android-webrtc.py:224-265 | accepts exactly sound records: pinned providers, headers attributed once and to their owner, and included files exactly the listed ones |
| NoticeInventory.HeadersArePartitioned | scripts/build-remote-android-webrtc.py:237-244 | every included header but the project's is listed once, by the deepest pinned git source above it |
| NoticeInventory.OwnerIsDeepest | scripts/build-remote-android-webrtc.py:240-241 | the owner found is the deepest pinned directory above the file |
| NoticeInventory.FilesAreExplained | scripts/build-remote-android-webrtc.py:262-265 | every included file is a listed header or notice |
| NoticeInventory.ProvidersAreLicensed | scripts/build-remote-android-webrtc.py:231-261 | every provider is pinned and brings a non-empty licence file |
| NoticeInventory.HeaderOkIff | scripts/build-remote-android-webrtc.py:236-243 | a header fits exactly when it is shipped, lies below its source and no deeper pinned source owns it |
| NoticeInventory.HeaderIff | scripts/build-remote-android-webrtc.py:238 | a file is a header exactly when its extension is `h`, `hpp` or `inc` |
| NoticeInventory.SourceOfHeader | scripts/build-remote-android-webrtc.py:240 | the header `include/a/b.h` comes from `src/a/b.h` |
| NoticeInventory.GitSourceIff | scripts/build-remote-android-webrtc.py:226 | git sources are the plain entries fetched over https |
| NoticeInventory.EntryPinnedIff | scripts/build-remote-android-webrtc.py:231-235 | which entries count as pinned |
| NoticeInventory.NoticeOkIff | scripts/build-remote-android-webrtc.py:245-258 | a notice fits exactly when it is shipped, is a notice by name, and is the source's own or one it may inherit |
| NoticeInventory.NoticeIff | scripts/build-remote-android-webrtc.py:140-143 | which names are notices |
| NoticeInventory.LicenceIff | scripts/build-remote-android-webrtc.py:259 | which names are licences |
| NoticeInventory.MirrorsAreLicensed | scripts/build-remote-android-webrtc.py:246-254 | a mirrored source of an accepted record is at the reviewed revision and ships its original licence with the pinned digest, and no other source claims one |
| NoticeInventory.LicenceShipped | scripts/build-remote-android-webrtc.py:259-261 | every provider of an accepted record brings a licence whose file is not empty |
| NoticeInventory.ProviderOkIff | scripts/build-remote-android-webrtc.py:231-261 | a provider passes exactly when its entry, its original licence, each notice and some licence pass |
| NoticeInventory.CollectProviders | scripts/build-remote-android-webrtc.py:229-261 | the provider loop accepts exactly attributed records and ends with exactly the listed names |
| SecureHandshake.SecureConnection | client/src/client.rs:783-860 | the handshake succeeds exactly when its send works and, with a vouched key, an answer came; the stream gets the key made for this attempt exactly when the server vouches for this peer's key and the peer signs under it in its own name as well; a key is sealed to the proven key only, also when its send is reported as failed; the key returned is the vouched one |
| SecureHandshake.StartSession | client/src/client.rs:226-234 | a session is handed out exactly when it is direct, the whole chain holds and the vouched key is the permitted one |
| SecureHandshake.EstablishedIff | client/src/client.rs:226-234 | an attempt ends in a session exactly when it is direct, its send works, both blobs verify for this peer under the server's and then the vouched key, and that key is the permitted one |
| SecureHandshake.SealedIff | client/src/client.rs:783-860 | a key is sealed away exactly when both links hold and the message goes out at all |
| SecureHandshake.SessionsAreChained | client/src/client.rs:783-860 | in every run of attempts without forged signatures and with new stream keys, each session rests on two statements really signed and the permitted key, and its stream key was sealed to the proven key, to nobody else, and serves no other session |
| SecureHandshake.NobodyInBetween | client/src/client.rs:783-860 | with an honest server and an honest peer, every stream key ever sealed for that peer, in a session or in a failed attempt, rests on the registered key and went to a key the peer holds and to no other |

## Left out

- AudioJitterBuffer.AudioBuffer.TryShrink: does not model overflow of the counters and of the millisecond clock, because they are unbounded here.
- ConsoleReporter.EveryActionLawful: scheduling delay; the worker is taken to run as soon as an await completes.
- AudioJitterBuffer.StereoNeverSwaps: samples are real numbers; resampling, channel conversion and the device are not modelled.
- LoginProvenance.HashChoosesPassword: digests are taken to be non-empty, as those of SHA-256 are.
- LoginProvenance.SharedKeptIff: one handler at a time; whatever others store on disk or in the address book counts as not shared, and what is sent to the peer is not modelled.
- ClipboardListener.SingleListener: a thread that could not create its listener is taken to have ended.
- TemplateDiff.DeepEqualIsEquality: values are finite trees without NaN, functions or cycles.
- StrictBase64.Unpack: writes the shifts and ors on disjoint bits as multiplication and addition.
- ClipboardSync.NoEcho: the system clipboard is taken to return what was installed, marker included; forced reads, which ignore the marker by design, and the separate file clipboard are not modelled.
- ManagedDomains.ManagedIffOneLabel: counts lengths in characters rather than bytes, and lower-cases character by character.
- DependencyForest.WriteRecord: the JSON text; the record's lists and their order are modelled.
- SecureHandshake.SecureConnection: a message goes out whole or not at all, and sealing is ideal.
- NoticeInventory.VerifyNoticeRecord: reading the record from JSON; a missing list is an empty one.
- ArchiveTree.VerifyArchive: the required members and payload checks after the member loops; the dictionary is filled in a loop of its own.
- The rest of `parse_config` after its line loop, `valid_endpoint` and `validate_brand`: conjunctions of field checks.
- Sockets, relays, codecs, protobuf, device access and the user interface of client/src/client.rs.
- The library's default filling and validation in agent/main.go, and the comparison of whole proxies.
- The other release and packaging scripts: field checks around external tools.
- client/src/homedesk_async.rs and client/src/clipboard_file.rs: they would only add easy members.
