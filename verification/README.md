# A verified model of the WallaBMC firmware core

This project models, in Dafny 4.11, the parts of the firmware whose correctness
depends on state, concurrency or failure, and proves what they keep over every
run. `dafny verify dfyconfig.toml` checks all of it.

| file | what it models |
|---|---|
| `ConsoleRing.dfy` | the host console log: an unbounded UART stream kept in a circular buffer filled by DMA, as a step machine with the UART driver's contract written out in `Enabled` |
| `ConsoleLogger.dfy` | the same log as the program runs it: counters and memory updated in place, a read whose copies race with the DMA engine byte by byte |
| `ConsoleReaders.dfy` | any number of readers with their own cursors, in every interleaving |
| `ConsoleBridges.dfy` | the websocket and telnet send threads |
| `Wakeup.dfy` | the event on which send threads sleep |
| `ConsoleTx.dfy` | concurrent writers sharing one DMA buffer behind a binary semaphore |
| `Redfish.dfy`, `RedfishServer.dfy` | the Redfish handler as a machine, and the per-resource records and shared heap that refine it |
| `Storage.dfy` | the key/value store with a failure oracle, and bounded retry |
| `Config.dfy`, `ConfigStore.dfy` | the configuration as functions and theorems, and the fields in memory that refine them |
| `Jtag.dfy` | the bit-bang server with cached pins against a reference without a cache |
| `Cyclic.dfy`, `Bytes.dfy`, `Errno.dfy` | remainders by repeated subtraction (equal to `/` and `%`), octets, error numbers |

The imperative classes follow the program's own form. Nondeterministic methods
(`DmaBurst`, `RunUart`, `Others`) stand for everything that may happen between
two of the program's statements; what sockets and drivers answer is an input.

## Findings

Several properties one would expect hold only under a condition. Each is proved
as an if-and-only-if, or with the exact extent of the loss.

- Chunks handed to the UART all lie inside the log if and only if the chunk size
  (`size / 16`) divides the log size. The configured range 64 to 65536 also
  admits sizes where it does not (`ConsoleRing.ChunksFitIff`), such as 100
  (`ConsoleRing.ChunkPastTheEnd`).
- After the UART stops and is restarted, the new bytes land where readers look
  for them if and only if everything granted had been reported
  (`ConsoleRing.RestartKeepsPositionIff`). A run reaches the other case, and
  readers then get stale memory (`ConsoleRing.RestartLosesPlace`).
- A chunk the driver already holds overlaps what readers may copy if and only if
  `received < size < granted`. That window is still safe, because the DMA engine
  cannot enter the chunk after the end of the log before the log has filled
  (`ConsoleRing.OutstandingOverlapsIff`, `ConsoleRing.DmaAvoidsWindow`).
- Both send threads wait for the same event bit and clear it. No thread is ever
  left asleep on data if and only if at most one thread uses the bit
  (`Wakeup.NoLostWakeupIff`); with two, the witness run is `Wakeup.StolenWakeup`.
- The telnet bridge does not look at how much `send` accepted. A client holds
  everything read for it if and only if every send accepted its read whole
  (`ConsoleBridges.TelnetBridge.Run`); `ConsoleBridges.ShortSendLoses` is a
  history in which a connected client misses output.
- Setting a string to the empty string deletes its key, so a string setting is
  durable if and only if the string is not empty (`Config.StringDurableIff`).
- A flag setter whose write failed returns success when it is repeated, without
  writing (`Config.RepeatedFlagIsUnsaved`). A success is durable if and only if
  the flag was different or the value is the last one that earlier calls
  reported as saved (`Config.FlagSuccessIsDurableIff`).
- An unreadable version is logged as "creating new", but the code only stamps
  the version and keeps old fields that still fit; only a readable, different
  version erases them (`Config.VersionStageResult`, `Config.BootFromAnything`).

## Model

| member | source | states |
|---|---|---|
| ConsoleRing.ChunksFitIff | src/console_logger.c:36-43 | every chunk lies inside the log exactly when 1/16 of the log size divides it |
| ConsoleRing.ChunkPastTheEnd | src/console_logger.c:36-43 | for the admitted log size 100 the chunk number 16 runs past the end of the log |
| ConsoleRing.DmaSlotIsPosition | src/console_logger.c:80-94 | the address inside the granted chunk that DMA writes next is the ring slot of the stream position it writes, for every number of wraps |
| ConsoleRing.WindowCovers | src/console_logger.c:156-160 | the window start never underflows nor passes received, and DMA cannot reach the slot of the oldest readable position before the next report, including while received < size < granted |
| ConsoleRing.NextKeepsInv | src/console_logger.c:112-139 | every callback and every single DMA write keeps the ring invariant |
| ConsoleRing.RunAccounts | src/console_logger.c:69-78 | over any run, received is the sum of the reported lengths and the window start only moves forward |
| ConsoleRing.RingRefinesStream | src/console_logger.c:69-110 | after any run from a fresh log, every position in [start, received) holds exactly the byte the UART delivered there, and received, the DMA position and granted stay within two chunks of each other |
| ConsoleRing.Retention | src/console_logger.c:36-43 | all output is readable until the log has filled once, afterwards at least size - 2 chunks of it, 7/8 when 16 divides the size |
| ConsoleRing.WindowIsWidest | src/console_logger.c:156-163 | the window is the widest safe one: the position just before it has been given to the DMA engine again |
| ConsoleRing.ReadIsMaximal | src/console_logger.c:150-181 | a read refuses exactly a cursor past received; otherwise it starts at the later of cursor and window and delivers the whole request unless it reaches the end |
| ConsoleRing.OutstandingChunks | src/console_logger.c:80-110 | every chunk handed over lies inside the buffer and no two unreported positions share a slot |
| ConsoleRing.DmaAvoidsWindow | src/console_logger.c:141-182 | no slot DMA may write before the next report is one the read path may copy from |
| ConsoleRing.OutstandingOverlapsIff | src/console_logger.c:156-160 | a granted chunk shares slots with the readable window exactly when received < size < granted |
| ConsoleRing.RestartKeepsPositionIff | src/console_logger.c:96-110 | the chunk given at a restart starts at the slot of received exactly when everything granted had been reported |
| ConsoleRing.RestartLosesPlace | src/console_logger.c:96-110 | for every log size a run reaches a stop in the middle of a chunk, after whose restart the next byte is stored where no reader looks for it, and the reader gets stale memory |
| ConsoleLoggers.ConsoleLogger.constructor | src/console_logger.c:241-297 | a new log is the fresh machine with its first chunk granted |
| ConsoleLoggers.ConsoleLogger.UartRxReady | src/console_logger.c:69-78 | advances received as the machine's report step and keeps the invariant |
| ConsoleLoggers.ConsoleLogger.UartRxAllocate | src/console_logger.c:80-94 | grants the chunk at granted % size as the machine's buffer request |
| ConsoleLoggers.ConsoleLogger.UartRxStart | src/console_logger.c:96-110 | grants the next chunk as the machine's start step, leaving received alone |
| ConsoleLoggers.ConsoleLogger.UartCallback | src/console_logger.c:112-139 | each event is the machine step it stands for: a report advances received by its length, a request or restart grants one sixteenth of the log, stop and unknown events change nothing |
| ConsoleLoggers.ConsoleLogger.UartRuns | src/console_logger.c:69-139 | over any sequence of events and DMA writes, received grows by what the events report and granted by one chunk for each request or restart |
| ConsoleLoggers.ConsoleLogger.LoadByte | src/console_logger.c:171-171 | a byte copied out of the ring is the stream's byte at its position even if DMA writes first |
| ConsoleLoggers.ConsoleLogger.CopyRun | src/console_logger.c:165-174 | one turn copies up to the end of the data, the ring or the request, in 32-bit lengths that do not overflow |
| ConsoleLoggers.ConsoleLogger.CopyLoop | src/console_logger.c:165-174 | the loop delivers min(requested, received - pos) stream bytes in at most two copies |
| ConsoleLoggers.ConsoleLogger.ConsoleLogRead | src/console_logger.c:141-182 | the read returns S[p..p+n] for p = max(pos, start) and n = min(size, received - p) as of its start, while DMA writes between any two copied bytes; -EINVAL exactly past received, then touching nothing |
| ConsoleLoggers.ConsoleLogger.HostConsoleSeekEnd | src/console_logger.c:214-224 | from the cursor it yields every read, of whatever size, returns nothing and stays put until the next report |
| ConsoleReaders.RingReadIsStream | src/console_logger.c:150-174 | a read computed on the ring's memory equals the read stated on the unbounded stream |
| ConsoleReaders.EmptyReadIff | src/console_logger.c:165-181 | a nonempty request returns 0 exactly at the end of the received data |
| ConsoleReaders.ReadKeepsAccount | src/console_logger.c:162-179 | one read keeps the reader's account and skips exactly the positions below the window start |
| ConsoleReaders.HappenKeepsInv | src/console_logger.c:141-224 | UART steps, reads, seeks and rewinds by any reader keep every reader's account |
| ConsoleReaders.EveryReaderConserves | src/console_bridge.c:52-58 | in every interleaving each reader's bytes are wire bytes at strictly increasing positions, distance = delivered + skipped, cursor <= received, and no read fails with -EINVAL |
| ConsoleReaders.KeepingUpSkipsNothing | src/console_logger.c:156-163 | a reader whose lag at each of its reads is at most size - 2 chunks skips nothing |
| ConsoleReaders.KeepingUpReadsTheStream | src/console_logger.c:141-182 | such a reader has received exactly the contiguous piece of the stream it travelled over |
| ConsoleReaders.SeekEndReadsNewOutput | src/console_bridge.c:47-56 | a reader that seeks to the end and keeps up is given all output from then on and no earlier byte |
| Wakeup.OneThreadLosesNoWakeup | src/console_bridge_ws.c:139-148 | with one thread, over every run: asleep only if everything is read or the event is about to be posted |
| Wakeup.StolenWakeupLoses | src/console_bridge.c:56-65 | with two threads on the same bit there is a run that leaves one asleep on data |
| Wakeup.NoLostWakeupIff | src/console_bridge.c:56-65 | no wakeup is ever lost exactly when at most one thread uses the event |
| ConsoleTx.HolderIsAlone | src/console_logger.c:192-195 | whoever has taken the semaphore and not started a transfer is alone with the buffer and nothing is in flight |
| ConsoleTx.NextKeepsInv | src/console_logger.c:184-206 | each statement of any writer, each byte sent and each TX_DONE keeps the transmit invariant |
| ConsoleTx.WireIsShuffleOfCalls | src/console_logger.c:184-206 | for any number of writers and any interleaving: semaphore + holders + transfers in flight is 1; the wire is the chunks of at most 32 bytes in hand-over order; each writer's recorded calls are, in order, the ones the run had it make; and its chunks are, in order, the prefixes its return values count |
| ConsoleTx.BufferStableInFlight | src/console_logger.c:132-134 | the transmit buffer is not overwritten before its TX_DONE and no second transfer is started |
| ConsoleTx.Transmitter.constructor | src/console_logger.c:256-258 | the semaphore starts at 1 with nothing in flight |
| ConsoleTx.Transmitter.SendChunk | src/console_logger.c:192-202 | one loop turn sends min(rest, 32) bytes or records the driver's refusal |
| ConsoleTx.CallsAreWholeUnlessRefused | src/console_logger.c:188-205 | in every run a writer's short calls match the driver's refusals one to one, returning what was sent or the driver's error; a writer never refused has every argument sent whole |
| ConsoleTx.ChunksAreFull | src/console_logger.c:189-195 | each chunk handed over is the next 32 bytes of the argument or ends it |
| ConsoleTx.Transmitter.ConsoleLogWrite | src/console_logger.c:184-206 | against arbitrary other writers the call returns the whole length if the driver refuses none of its chunks, else the bytes before the first refused one, or its error if there are none; or it is blocked, and then the semaphore is taken |
| ConsoleBridges.TakenIsPiece | src/console_bridge_ws.c:134-150 | a connection whose reads each lagged by at most size - 2 chunks, the first one excepted, was given exactly S[first read .. cursor] |
| ConsoleBridges.AcceptedAllIff | src/console_bridge.c:70-75 | what the socket accepted equals what was read exactly when every single read was accepted whole |
| ConsoleBridges.ReadAtDelivers | src/console_bridge_ws.c:139-139 | a turn's read starts at the later of cursor and window and delivers 64 bytes unless it reaches the end of what was received |
| ConsoleBridges.ReadLog | src/console_bridge_ws.c:139-150 | the read never fails, so its retry is dead code, and fills the buffer with the stream bytes of the read recorded |
| ConsoleBridges.WebsocketBridge.ClientConnect | src/console_bridge_ws.c:210-254 | replaces any previous client, starts an empty account that the next turn begins at position 0, and is undone if registering fails |
| ConsoleBridges.WebsocketBridge.WsSend | src/console_bridge_ws.c:55-88 | the socket accepts exactly the counted prefix; the connection ends exactly on an error other than a full socket in non-blocking mode; a count short of the request means an error |
| ConsoleBridges.WebsocketBridge.ReadForClient | src/console_bridge_ws.c:134-150 | adds to the account exactly the read that the log determines at the cursor: where it asked, how far it lagged, where it began and ended |
| ConsoleBridges.WebsocketBridge.SendLoop | src/console_bridge_ws.c:150-168 | partial sends are resumed until the read is accepted whole; the connection ends exactly if a message failed or the client was found gone |
| ConsoleBridges.WebsocketBridge.SendAll | src/console_bridge_ws.c:150-168 | afterwards the account says how much of the read was accepted, and all of it was if the client is still connected |
| ConsoleBridges.WebsocketBridge.SendThreadTurn | src/console_bridge_ws.c:125-169 | one turn while connected adds exactly one read, from position 0 for a new client; it keeps: accepted is a prefix of what was read, all of it while connected; and it ends the connection exactly if a message failed or the client was found gone |
| ConsoleBridges.WebsocketBridge.Run | src/console_bridge_ws.c:119-170 | over any history, a client that lagged by at most size - 2 chunks at each read after its first has accepted a prefix of S[first read .. pos], and while connected all of it; a client that connected and did not leave is still connected unless a message failed or a call found it gone |
| ConsoleBridges.TelnetBridge.ClientConnect | src/console_bridge.c:92-95 | a new client starts with an empty account and a pending seek to the end |
| ConsoleBridges.TelnetBridge.ReadForClient | src/console_bridge.c:52-58 | adds to the account exactly the read that the log determines at the cursor, with nothing of it sent |
| ConsoleBridges.TelnetBridge.SendOnce | src/console_bridge.c:70-75 | the socket has accepted exactly the first bytes of the read that send counted, the rest is lost, and an error drops the client |
| ConsoleBridges.TelnetBridge.SendThreadTurn | src/console_bridge.c:39-76 | one turn adds exactly one read, a new client's from the end of the log, with the count its one send accepted; accepted stays the concatenation of the counted parts |
| ConsoleBridges.TelnetBridge.Run | src/console_bridge.c:34-77 | over any history a client holds all that was read for it exactly when every send accepted its read whole; if it also kept up, it holds S[end of log at its first turn .. pos]; a client that did not leave is still connected unless a send failed or found it gone |
| ConsoleBridges.ShortSendLoses | src/console_bridge.c:70-75 | a history, for every log size, that ends with a connected client missing output after one short send |
| Redfish.AppendAllIff | src/redfish.c:212-233 | appending pieces until one does not fit succeeds exactly when their total fits, with their exact concatenation, never past the buffer |
| Redfish.HandleKeepsInv | src/redfish.c:235-339 | every callback keeps: no block means no size and no leftover length; data fits the block |
| Redfish.TransactionsEndIdle | src/redfish.c:248-263 | however callbacks arrive, after COMPLETE or ABORTED the resource holds nothing |
| Redfish.RequestRunsOnceIffFits | src/redfish.c:264-307 | a PATCH or POST received whole runs the resource's function exactly once on exactly the concatenated chunks if and only if the resource has one, the client is authorised and the chunks fit 512 bytes, and answers what it returns or 204; otherwise 405, 401 or 400; nothing stays allocated |
| Redfish.CutShortRunsNothing | src/redfish.c:296-297 | without a FINAL callback the function never runs |
| Redfish.GetAnswersIffFits | src/redfish.c:309-331 | a GET answers 200 with the exact concatenation if and only if it fits 1024 bytes, else 500, and the block stays live for the response |
| Redfish.GetNeedsFinal | src/redfish.c:309-320 | a GET in several parts is answered 400 and holds nothing |
| Redfish.RunsExactlyWhen | src/redfish.c:281-303 | from any resource state a function runs exactly at the last part of an allowed request that has one and fits, on all bytes so far |
| Redfish.TurnedAwayChangesNothing | src/redfish.c:95-178 | any number of requests for a method without handler or without credentials leave the resource as it was, run nothing and are answered 405 or 401 |
| Redfish.TurnedAwayHow | src/redfish.c:95-178 | 405 exactly names the methods there are in its Allow header when they are GET, POST or GET and PATCH; 401 asks for credentials exactly when the request is not the web page's; neither changes anything |
| RedfishServers.UserData.AllocUserData | src/redfish.c:193-198 | yields an empty block although the length is not reset, and adds it to the heap |
| RedfishServers.UserData.FreeUserData | src/redfish.c:200-210 | returns the record to idle and gives its live block back once; nothing for an idle record |
| RedfishServers.UserData.AppendUserData | src/redfish.c:212-224 | appends all bytes if they fit, otherwise nothing |
| RedfishServers.UserData.RunGet | src/redfish.c:226-233 | the encoder's appends stop at the first that does not fit |
| RedfishServers.AccumulateBody | src/redfish.c:281-294 | a body part is added to the block, allocated on the first part, or refused whole |
| RedfishServers.HandleGet | src/redfish.c:309-331 | the GET branch refines the machine and accounts for the heap |
| RedfishServers.HandleBody | src/redfish.c:281-307 | the PATCH/POST branch refines the machine and accounts for the heap |
| RedfishServers.RedfishHandler | src/redfish.c:235-339 | the handler's response, call and new record are the machine's, and the heap changes by exactly this record's block |
| RedfishServers.RedfishServer.Dispatch | src/redfish.c:350-374 | one callback keeps heap conservation: live blocks are those of started records, no two share one, bytes in use are the sum of their sizes; and no other record's data changes |
| RedfishServers.RedfishServer.Run | src/redfish.c:350-374 | any sequence of callbacks for any resources keeps heap conservation, and all resources and answers are those of the machine |
| RedfishServers.ResourcesAreIndependent | src/redfish.c:350-374 | over any interleaving, what a resource holds and answers depends on its own callbacks alone, so a response body stays as it is until a callback for its own resource |
| RedfishServers.RedfishServer.IdleMeansFree | src/redfish.c:187-210 | when every resource is idle the whole heap is free |
| Storage.AttemptsBounded | src/fs.c:137-162 | at most four attempts, each but the last having failed with EIO, and the last only if it was the fourth |
| Storage.WriteIsLastAttempt | src/fs.c:137-162 | a write stores its data exactly when its last attempt is answered, and otherwise returns that error with the store unchanged |
| Storage.ClearIsLastAttempt | src/fs.c:93-113 | a clear empties the store exactly when its last attempt is answered |
| Config.CStrBasics | src/config.c:111-118 | reading back a string gives exactly the characters before its first NUL |
| Config.DecodeEncoded | src/config.c:106-128 | a field written and read back is the same field |
| Config.WriteResult | src/config.c:99-104 | a configuration write changes one entry to the field in memory or nothing, whatever fails |
| Config.LoadFieldOk | src/config.c:797-850 | loading keeps an entry that fits and replaces any other by its default in memory and store, writing nothing in the first case |
| Config.LoadFieldWhateverFails | src/config.c:797-850 | under any failure a field is what is stored if that was read and fits, else its default, which replaces the entry exactly when its last write attempt is answered |
| Config.VersionStageResult | src/config.c:759-786 | if the version stage succeeds the current version is stamped, and the old entries are erased exactly on a readable mismatch |
| Config.VersionStageSucceedsIff | src/config.c:759-790 | the version stage succeeds exactly when the calls it needs are answered: the last attempt at stamping a missing or unreadable version, the last attempts at clearing and stamping on a mismatch, nothing more for a current version |
| Config.BootFromAnything | src/config.c:753-851 | from any store contents, if the calls the version stage needs are answered and no later call fails, all ten keys are present and agree with memory, and each field is the stored one if it fits and no mismatch occurred, else its default |
| Config.SecondBootIsQuiet | src/config.c:753-851 | booting again writes nothing and yields the same configuration |
| Config.BootWithoutStore | src/config.c:783-795 | if the store is missing or any call the version stage needs fails, every field is its default and the store is not touched again |
| Config.FactorySettings | src/config.c:797-850 | without a usable store: the built-in password and host name cut to 20, no addresses, DHCP and NTP on with pool.ntp.org, no auto power-on |
| Config.MismatchKeepsNothing | src/config.c:770-776 | after a mismatch that was erased no old field survives, whatever fails later |
| Config.FateDecides | src/config.c:191-207 | a setter changes only its field and its entry; which of the two is decided by refusal, network apply and write; a success that changed memory was stored |
| Config.SetterReturns | src/config.c:191-601 | the return code of every setter: the refusal's error with nothing changed, the network's, the write's last attempt's, -ENODEV without a store, the restart's, else 0 |
| Config.SetterSets | src/config.c:191-601 | the bytes every setter puts in memory unless it changes nothing |
| Config.StoreTracksMemory | src/config.c:267-294 | under arbitrary failures each entry is the value last successfully written, and memory differs from the store only at fields whose latest change failed or stored an empty string |
| Config.SettingsSurviveReboot | src/config.c:191-207 | after any sequence of setter calls without storage or network failure and without empty strings, memory agrees with the store and the next boot reproduces it without writing |
| Config.StringDurableIff | src/config.c:124-127 | a string setting that nothing fails is durable exactly when the string is not empty |
| Config.FlagChangeFailsIff | src/config.c:428-451 | changing a flag fails exactly when the last attempt at writing it fails |
| Config.RepeatedFlagIsUnsaved | src/config.c:428-451 | after a failed change, repeating the call returns success, writes nothing, and the flag is not durable |
| Config.FlagSuccessIsDurableIff | src/config.c:428-451 | after any run of setter calls, whatever failed, a flag setter's success is durable exactly when the flag was different or the value is the last one that earlier calls reported as saved |
| Config.StringLimits | src/config.c:532-601 | after a setting that nothing fails and a reboot, a password is whole, or was refused past 20 characters and is the old one; host and time server names are cut to 20 and 40 |
| ConfigStores.ConfigStore.FsClear | src/fs.c:93-113 | the retry loop computes the clear with bounded retry |
| ConfigStores.ConfigStore.FsKeyRead | src/fs.c:115-135 | an entry longer than its field is an error |
| ConfigStores.ConfigStore.FsKeyWrite | src/fs.c:137-162 | the retry loop computes the write with bounded retry, counting unchanged data as written |
| ConfigStores.ConfigStore.CheckVersion | src/config.c:757-790 | the version branch of boot is the version stage of the model, in memory and on the device |
| ConfigStores.ConfigStore.LoadOrDefault | src/config.c:797-801 | loads a field or gives it its default and writes that back |
| ConfigStores.ConfigStore.ConfigInit | src/config.c:753-851 | boot as run equals the boot the theorems are about |
| ConfigStores.ConfigStore.HostnameSet | src/config.c:191-207 | result and new state are those of the modelled request |
| ConfigStores.ConfigStore.AddressSet | src/config.c:267-348 | the same for address, netmask and gateway, including a change of memory whose apply or write failed |
| ConfigStores.ConfigStore.FlagSet | src/config.c:428-451 | the same for the three flags, including the unchanged shortcut |
| ConfigStores.ConfigStore.NtpServerSet | src/config.c:532-555 | the same for the time server, including a failed restart after a successful write |
| ConfigStores.ConfigStore.PasswordSet | src/config.c:584-601 | the same for the password, refusing one that is too long |
| Jtag.JtagPort.SetTck | src/jtag.c:39-46 | after the call the pin has the level and the cache agrees, whether or not the pin was written |
| Jtag.JtagPort.SetTms | src/jtag.c:48-55 | the same for TMS |
| Jtag.JtagPort.SetTdi | src/jtag.c:57-64 | the same for TDI |
| Jtag.JtagPort.JtagPinsEnable | src/jtag.c:82-96 | starting levels, with a cache that claims nothing |
| Jtag.JtagPort.Write | src/jtag.c:157-167 | one command drives the three levels of the uncached version, clock last |
| Jtag.JtagPort.HandleClient | src/jtag.c:112-214 | for every byte stream, target and socket behaviour, the waveform and the replies are those of the server that always writes all three pins |
| Jtag.UncachedExtends | src/jtag.c:142-211 | from any point on, the target's samples are those of the remaining commands |
| Jtag.TargetSamplesCommands | src/jtag.c:157-167 | at each rising TCK edge the target samples exactly the TMS and TDI bits of the command that caused it, a function of the bytes the connection consumed |
| Jtag.CommandCharacters | src/jtag.c:142-187 | the eight write characters and the levels each leaves, the read and quit characters, and the two replies |
| Jtag.WaveIsCommands | src/jtag.c:142-211 | the waveform is that of the write commands carried out; no other byte moves a pin |
| Jtag.ReadAnswersCurrentLevel | src/jtag.c:170-180 | a read answers with the level the target drives after exactly the commands before it |

## Left out

- The UART driver is its contract: a supplied buffer is never refused, reported lengths are contiguous, DMA enters a chunk only after the one before it is fully reported, and a restart comes only when everything granted was reported.
- Positions are unbounded; wrap-around of 64-bit positions is not modelled.
- Log sizes that their chunk does not divide, and the stream's contents after a stop in the middle of a chunk: `ChunksFitIff` and `RestartKeepsPositionIff` say when they matter.
- ConsoleTx.Transmitter.ConsoleLogWrite: a call still waiting for the semaphore when observation ends is reported as blocked, because nothing in the program bounds that wait.
- TX_ABORTED and other events that never give the semaphore back.
- ConsoleBridges.WebsocketBridge.Run: a client may disappear between turns, between a read and its send and between sends; within one `ws_send` that shows as a message that fails. It is replaced only between turns; replacement between a read and its send is not covered. A message of which the socket takes zero bytes without an error is not modelled.
- ConsoleBridges.TelnetBridge.Run: clients change between turns only; the race on the two plain variables shared with the connection thread is not modelled.
- Websocket and telnet input paths, except as writers in `ConsoleTx`.
- Sockets, TLS, HTTP parsing and service registration.
- RedfishServers.RedfishServer.Dispatch: the heap's 2048-byte capacity, blocking in its allocator and fragmentation; callbacks of different resources interleave whole.
- Response status and body length of a request that is still being accumulated; the statically allocated header arrays are names.
- Credential decoding, JSON decoding and the descriptors of each Redfish resource; a GET handler is the sequence of its encoder's appends, a PATCH or POST function is an arbitrary function of the body.
- NVS sectors, wear, garbage collection, and the remount some versions need after a clear; a failed call is answered by the oracle.
- ConfigStores.ConfigStore.FsKeyRead: what a failed read leaves in the destination, because every caller overwrites it with a default.
- Config.BootFromAnything: assumes the built-in default password and host name are not empty, which the program does not check.
- Applying a setting to the network or time service is a result the caller supplies; starting and stopping DHCP and NTP have no other effect here.
- Address text conversion: an address argument is absent, malformed or four bytes.
- Shell commands, configuration getters, and the clear-and-reboot command beyond the clear itself.
- JTAG pin direction, the input pin's timing, and the TAP controller of IEEE 1149.1-2013 itself; unsupported and unknown commands are the ones that do nothing.
- Calendar, time synchronisation, power, buttons, sensors, product data, DHCP, network setup, start-up order and the web page.
