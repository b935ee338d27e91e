# Verified models of the firmware's protocols and algorithms

The firmware runs on Zephyr. Six parts of it carry the hard promises, and this project models each of them
and proves what it promises, for all inputs, runs or interleavings:

* the nRF24L01+ radio driver, whose sending thread and interrupt thread share one mutex, two semaphores and the
  chip's STATUS register (`Nrf24Driver`, `Nrf24Threads`);
* the link cipher, which sends 8 bits of a 32-bit counter and infers the rest, with the retry loop above it
  (`Nrf24Crypt`, `CipherVector`, `LinkCipher`, `Rf24`);
* the FTP server's in-place path normaliser and the directory commands on top of it (`FtpPath`, `FtpServer`);
* firmware transfer: the host tool against the CAN library and the laser controller (`FlashImage`, `CanDevice`,
  `CanFirmware`, `CanUpgrade`), what the tool's success is worth (`CanVerdict`, `CanPacing`, `CanMisled`), the
  bootloader's erase loop and 64-byte writer (`Bootloader`, `BootloaderHost`), and the UDP variant with its checksum
  gate (`UdpUpgrade`);
* the serial link's framing and checksum (`Crc16`, `UartFrame`, `FwUart`);
* the history log's ring of files (`HistoryRing`, `HistoryFiles`).

Each part has a specification on values, in which runs and interleavings are easy to state, and the code
itself as methods over arrays and fields, proved to do what the specification says. The theorems about runs
are lemmas about the specification. `Words` holds bytes, 32-bit words and their
serialisation, `Octets` the same for machine words.

`dafny verify dfyconfig.toml` checks everything.

## Assumptions

* Radio: any number of completions may be raised for a payload, but only while that payload is in the TX FIFO.
  One call of `nrf24_send` at a time (the applications hold `rf24_tx_mutex` around it), no SPI errors, no mode or
  power change during a call. The interrupt thread wakes at least every 50 ms, so it may always start a pass.
* Cipher channel: frames are lost or repeated, not reordered. Tolerable losses: the first frame to arrive is
  among the first 256, and at most 31 in a row are lost after that.
* Flash: `flash_img` is a buffered append-only stream into a slot; a failing operation leaves the flash as it
  was, and a slot that was not erased need not show what is programmed. Whether an operation succeeds is a parameter
  of every handler.
* CAN bus: both directions are lossless and in order. A frame's bytes beyond its length read as 0.
* History: all records are written by one thread, the system work queue, which may lock the mutex again while it
  holds it. Logging is enabled and disabled by that thread, in Modbus register writes
  (`applications/data_collect/src/modbus/function.c:95-96`), and by others (`modbus/udp.c:143`).
* File system: calls succeed, time stamps are positive, and the clock is ahead of all files whenever one is
  created. The directory may be listed in any order and may hold other entries.

## Where the code and its documentation differ

The model follows the code.

* `drivers/nrf24l01p/nrf24_crypt.c:11` speaks of a window of plus or minus 32; the code accepts only forward
  steps of 1 to 32 (`Nrf24Crypt.InferExact`).
* `drivers/nrf24l01p/nrf24_crypt.c:9`, `:57-58` and `:136` say that no keystream is used twice. The frame counter
  advances by one per frame, the keystream by one per eight bytes, so frames of more than eight bytes share blocks
  with their neighbours (`Nrf24Crypt.BlocksSharedExact`, `Nrf24Crypt.NextFrameSharesBlock`).
* `nrf24_crypt_rx_reset` only clears the flag; it does not set an expected counter.
* CWD changes the current directory before it finds out whether the directory can be opened
  (`applications/data_collect/src/ftp_server/ftp_cmds.c:588-604`).
* A path that climbs past "/" is not refused: it may lose its leading slash, give a null pointer or make the
  normaliser look before its buffer (`FtpPath.ClimbingPathsFail`; the exact condition is
  `FtpPath.NormalizeAbsolute`).
* The slash put behind a directory of 255 characters, and its terminator, go past the end of `currentdir`
  (`ftp_cmds.c:574`), and the length left is then negative. Such a directory is reached without climbing, and CDUP
  is then enough (`FtpPath.CwdIsWalk` states exactly when, `FtpPath.OverrunReachable` how to get there). The model
  stops before that write and reports it.
* The host tool takes an answer to START for a refusal only if its value is not 0 (`tools/can_upgrade.py:41`), and
  the devices (`CanUpgrade.RefusalUnnoticed`) and the bootloader (`BootloaderHost.FailedEraseUnnoticed`) refuse with
  value 0. `CanVerdict.SuccessExact` says when its success can still be trusted, `CanMisled.RefusedUploadSucceeds`
  what happens when it cannot.
* Flow control by answers at multiples of 64 can fail only where a START meets a running transfer whose count is not
  such a multiple (`CanPacing.QueueHolds`). There a frame can be lost and the upload succeed with the wrong contents
  (`CanMisled.LostFrameSucceeds`).
* The CAN and the UDP library ignore the result of `flash_area_erase` (`libs/can_fw_upgrade/can_fw_upgrade.c:163`,
  `libs/udp_fw_upgrade/udp_fw_upgrade.c:238`), so an accepted START need not have an erased slot
  (`CanDevice.StartErases`, `UdpUpgrade.HostKnowsTransfer`). The CAN library then confirms whatever the slot shows;
  the UDP library reads it back (`UdpUpgrade.BootGate`).
* The CAN library's CONFIRM ignores its flush (`CanDevice.LibraryConfirmExact`); the laser controller's does not
  get away with it (`CanDevice.LaserConfirmExact`).
* A START while the CAN library is in the middle of a transfer is answered as if it began a new one, but the
  bytes and their count stay (`CanDevice.LibraryRestartExact`).
* The key comments in `libs/can_fw_upgrade/can_fw_upgrade.c` speak of four chunks of eight bytes; the code uses
  five of seven.
* The bootloader gives no answer at multiples of 4096 bytes, so the host tool stops there
  (`BootloaderHost.HostUpgradesExact`).
* The bootloader reports a failed write but does not take its buffer index back (`Bootloader.OverrunExact`), and
  CONFIRM ignores the result of its flush while the address moves on, so a later success or jump can come with a
  piece missing (`Bootloader.ImageExact` states exactly when, `Bootloader.LostPieceReported` how).
* An announced size larger than the application's part of the flash is erased only up to its end but written in
  full (`Bootloader.OversizeExact`).
* The 1 MiB limit of a history file is not checked against the real size of a file opened for the first time
  after boot (`HistoryRing.LimitExact`, `HistoryRing.FirstRecordOverflows`).
* `write_history_data` returns without unlocking when logging is disabled. Calls of `history_enable_write` from
  other threads then never get through (`HistoryRing.OthersBlocked`); only one from the writing thread brings logging
  back (`HistoryRing.RevivedExact`), and the mutex stays locked even so.
* The function `crc16_ccitt` in `applications/stm32_bootloader/src/fw_uart.c` is not the CCITT checksum: it uses
  the reflected polynomial 0xA001 and starts from 0xFFFF.

## Model

| member | source | states |
|---|---|---|
| `Nrf24Driver.StepKeepsInv` | drivers/nrf24l01p/nrf24l01p.c:291-370 | Every single step of the sending thread (717-795), the interrupt thread or the radio keeps: mutual exclusion, only the payload written last in the FIFO, STATUS and a waiting completion speaking of that payload, every verdict so far backed by the chip and by the status recorded with it, transmitting during a call and receiving between calls, no completion lost |
| `Nrf24Driver.SendAnswersForItsPayload` | drivers/nrf24l01p/nrf24l01p.c:717-795 | In every interleaving, the i-th call of `nrf24_send` that returned 0 had its own payload acknowledged, and one that returned -EIO its own payload given up on; double posts, late posts and earlier completions are never taken for it |
| `Nrf24Driver.CompletionNeverLost` | drivers/nrf24l01p/nrf24l01p.c:306-368 | In every interleaving, while a call waits the radio is transmitting with its payload in the FIFO until it is acknowledged, and once that is finished its completion is in STATUS, in the semaphore, or in the interrupt thread between clearing and posting; between calls the radio is back in receive mode with an empty FIFO |
| `Nrf24Driver.PassWakesSender` | drivers/nrf24l01p/nrf24l01p.c:310-328 | From any reachable state with a call waiting on a finished payload, one more pass of the interrupt thread raises the semaphore whatever the chip does meanwhile, even if every edge was lost |
| `Nrf24Driver.WakesWithin` | drivers/nrf24l01p/nrf24l01p.c:315-328 | The number of steps of that pass still needed never exceeds its distance to the post |
| `Nrf24Driver.TimesOutExact` | drivers/nrf24l01p/nrf24l01p.c:756-773 | In every interleaving, a call that ends its wait returns -EAGAIN if and only if the semaphore was down at that point |
| `Nrf24Driver.AnswerFollowsStatus` | drivers/nrf24l01p/nrf24l01p.c:775-782 | In every interleaving, a call that did not time out returns -EIO if and only if the status recorded last has MAX_RT set |
| `Nrf24Driver.FinishedCallAnswers` | drivers/nrf24l01p/nrf24l01p.c:717-795 | End to end: if the chip has finished the payload of a waiting call and a pass of the interrupt thread runs before the timeout, the call returns 0 if MAX_RT was never raised for that payload and -EIO if it was never acknowledged |
| `Nrf24Driver.PassReceives` | drivers/nrf24l01p/nrf24l01p.c:330-355 | A frame that comes in is fetched and handed on by the next pass of the interrupt thread, which clears RX_DR, posts a completion if there is one and gives the mutex back; one of width 0 is not handed on |
| `Nrf24Threads.Driver.Nrf24Send` | drivers/nrf24l01p/nrf24l01p.c:717-795 | The call as written, with its drain loop, lock sections and wait, disturbed in any way between any two statements: 0 is returned only if the chip acknowledged the payload of this very call, -EIO only if it gave up on it; -EAGAIN if and only if the semaphore was found down at every look up to the timeout, and otherwise -EIO if and only if the recorded status has MAX_RT; the radio is left receiving with an empty FIFO, -EINVAL exactly for an illegal length and with nothing changed; it fails to return only if the mutex stays with the interrupt thread for good |
| `Nrf24Threads.Driver.IrqPass` | drivers/nrf24l01p/nrf24l01p.c:310-368 | One pass of the bottom half as written, with its receive loop that drops the mutex, disturbed in any way between any two statements: it goes on receiving until STATUS shows no frame; if a call waits on a finished payload and only the chip interferes, it finishes with the semaphore up; it fails to finish only if the mutex stays with the sender for good |
| `Nrf24Crypt.RoundInverse` | drivers/nrf24l01p/nrf24_crypt.c:34-47 | One XXTEA round can be undone, and an undone round redone, for any mixing function |
| `Nrf24Crypt.EncryptIsPermutation` | drivers/nrf24l01p/nrf24_crypt.c:26-48 | For every key the block function is a permutation of 64-bit blocks: a two-sided inverse over all rounds |
| `Nrf24Crypt.MixKeyMatters` | drivers/nrf24l01p/nrf24_crypt.c:39-40 | For fixed neighbours and sum, different key words make different contributions |
| `Nrf24Crypt.RoundKeysMatter` | drivers/nrf24l01p/nrf24_crypt.c:36-46 | One round gives the same block under two keys if and only if both key words that it selects are the same |
| `CipherVector.KnownKeystream` | drivers/nrf24l01p/nrf24_crypt.c:26-48 | A known answer: the eight keystream bytes for one key and one counter value, the 32 rounds of XXTEA worked out by hand |
| `CipherVector.KnownFrame` | drivers/nrf24l01p/nrf24_crypt.c:69-141 | The frame in which a message is sealed under the key derived from one address |
| `Nrf24Crypt.KeystreamBlocksDiffer` | drivers/nrf24l01p/nrf24_crypt.c:94-113 | Under one key, different 32-bit counters never give the same eight keystream bytes |
| `Nrf24Crypt.XorStreamInvolution` | drivers/nrf24l01p/nrf24_crypt.c:94-113 | Enciphering twice under the same counter gives the text back, at any length |
| `Nrf24Crypt.InferExact` | drivers/nrf24l01p/nrf24_crypt.c:170-189 | With receiver counter r, a frame sealed at r+d (any integer d) gets its true counter if and only if d mod 2^32 is in 1..32, and is accepted at all if and only if d mod 256 is in 1..32 |
| `Nrf24Crypt.FirstFrameExact` | drivers/nrf24l01p/nrf24_crypt.c:170-172 | The first frame after a reset gets its true counter if and only if that is below 256 |
| `Nrf24Crypt.OpensExact` | drivers/nrf24l01p/nrf24_crypt.c:161-201 | A frame is opened if and only if it has 3 to 32 bytes and, unless it is the first, a counter byte 1 to 32 ahead; a rejected one leaves the receiver as it was |
| `Nrf24Crypt.RepeatsRejected` | drivers/nrf24l01p/nrf24_crypt.c:174-180 | Any number of copies of the frame just accepted yield nothing and leave the receiver's state alone |
| `Nrf24Crypt.DeliveredOnce` | drivers/nrf24l01p/nrf24_crypt.c:161-201 | However many copies of a frame arrive, its plaintext comes out once and the counter is the one it was sealed with |
| `Nrf24Crypt.LinkDeliversFrom` | drivers/nrf24l01p/nrf24_crypt.c:124-201 | The same over a whole run from any pair of counters in step, across wraps of 2^8 and 2^32 |
| `Nrf24Crypt.LinkDelivers` | drivers/nrf24l01p/nrf24_crypt.c:124-201 | From a fresh key on both ends, over a channel that loses and repeats frames within the tolerable limits, exactly the delivered plaintexts come out, in sending order, each once |
| `Nrf24Crypt.DeriveKeyInjective` | drivers/nrf24l01p/nrf24_crypt.c:69-78 | Different five-byte addresses give different keys |
| `Nrf24Crypt.FrameUsesBlock` | drivers/nrf24l01p/nrf24_crypt.c:94-113 | The k-th eight bytes of a frame are enciphered with the keystream block k counters past the frame's |
| `Nrf24Crypt.BlocksSharedExact` | drivers/nrf24l01p/nrf24_crypt.c:130-137 | Two frames have a keystream block in common if and only if the counter of one lies fewer steps past the other's than that one has blocks, modulo 2^32 |
| `Nrf24Crypt.NextFrameSharesBlock` | drivers/nrf24l01p/nrf24_crypt.c:130-137 | A frame of more than eight bytes shares a block with the very next frame, and both are enciphered with it at the places stated |
| `LinkCipher.MemMove` | drivers/nrf24l01p/nrf24_crypt.c:134 | Overlapping ranges are moved as if copied first |
| `LinkCipher.RoundInPlace` | drivers/nrf24l01p/nrf24_crypt.c:35-46 | The loop body over `v[2]` with its carried `z` computes one round |
| `LinkCipher.XxteaEncryptBlock` | drivers/nrf24l01p/nrf24_crypt.c:26-48 | The in-place do/while loop computes the block permutation |
| `LinkCipher.XorChunk` | drivers/nrf24l01p/nrf24_crypt.c:107-110 | One chunk of the buffer is XORed with its keystream block, the rest untouched |
| `LinkCipher.XorOneBlock` | drivers/nrf24l01p/nrf24_crypt.c:99-110 | A counter block is enciphered and XORed over up to eight bytes |
| `LinkCipher.CtrXor` | drivers/nrf24l01p/nrf24_crypt.c:94-114 | The whole loop is the stream cipher on that range of the buffer, the rest untouched |
| `LinkCipher.EncipherShifted` | drivers/nrf24l01p/nrf24_crypt.c:133-139 | Shift up, encipher, prepend: the counter byte and the enciphered text, nothing behind it touched |
| `LinkCipher.DecipherShifted` | drivers/nrf24l01p/nrf24_crypt.c:191-195 | Decipher and shift down: the plaintext at the start of the buffer |
| `LinkCipher.Cipher.SetKey` | drivers/nrf24l01p/nrf24_crypt.c:69-83 | The derived key, sending counter 0, receiver uninitialised |
| `LinkCipher.Cipher.RxReset` | drivers/nrf24l01p/nrf24_crypt.c:85-88 | The next frame counts as the first one; the receiver's counter is not touched |
| `LinkCipher.Cipher.Seal` | drivers/nrf24l01p/nrf24_crypt.c:124-141 | In place: the sealed frame and the counter advanced by one, or 0 with buffer and counter unchanged exactly when the length is outside 2..31 |
| `LinkCipher.Cipher.Open` | drivers/nrf24l01p/nrf24_crypt.c:161-201 | In place: the plaintext and new receiver state of the specification; a rejected frame leaves buffer and state unchanged |
| `Rf24.FillMessage` | applications/mod_handler/src/rf24.c:188-191 | The message is the big-endian identifier and the payload |
| `Rf24.Radio.DataSend` | applications/mod_handler/src/rf24.c:167-238 | A message of up to 29 bytes is sealed once, behind its big-endian identifier, and that one frame handed to the radio up to the first success, six times at most; true exactly when the last attempt succeeded; an oversized payload changes nothing |
| `Rf24.DeliveredIsArrived` | applications/mod_handler/src/rf24.c:203-224 | What the channel delivers of all attempts is what reached the peer at least once |
| `Rf24.SucceededArrives` | applications/mod_handler/src/rf24.c:226-237 | A message whose call returned true has reached the peer |
| `Rf24.CallsArriveOnce` | applications/mod_handler/src/rf24.c:167-238 | End to end over retries: while losses are tolerable the peer hands out exactly the messages that reached it, in calling order, each once, among them every one whose call returned true |
| `FtpPath.ComponentsConcat` | applications/data_collect/src/ftp_server/ftp_cmds.c:101-108 | The names of two texts joined at a slash are the names of both |
| `FtpPath.RootedIffNeverClimbs` | applications/data_collect/src/ftp_server/ftp_cmds.c:115-122 | A walk from the root ends below the root exactly when no prefix climbs past it |
| `FtpPath.RenderNames` | applications/data_collect/src/ftp_server/ftp_cmds.c:125-131 | Writing a stack of names as text and taking the names of that text gives the stack back |
| `FtpPath.NormalizeAbsolute` | applications/data_collect/src/ftp_server/ftp_cmds.c:66-134 | For every absolute path: the result is "/" joined with the folded component stack, a canonical directory, if and only if no prefix climbs above "/" |
| `FtpPath.NormalizeIdempotent` | applications/data_collect/src/ftp_server/ftp_cmds.c:66-134 | Normalising a normalised path changes nothing |
| `FtpPath.ClimbingPathsFail` | applications/data_collect/src/ftp_server/ftp_cmds.c:115-131 | Concrete climbing paths lose the leading slash, give a null pointer, or look before the buffer |
| `FtpPath.NormalizeShortens` | applications/data_collect/src/ftp_server/ftp_cmds.c:66-134 | Normalising a never-climbing absolute path never makes it longer |
| `FtpPath.CwdIsWalk` | applications/data_collect/src/ftp_server/ftp_cmds.c:569-584 | One CWD from any directory with any argument: the buffer's end is overrun if and only if the argument is relative and the directory leaves no room for a slash; otherwise the new directory is canonical if and only if the names that fit never climb past the root, and then it is where they lead |
| `FtpPath.OverrunReachable` | applications/data_collect/src/ftp_server/ftp_cmds.c:573-576 | Without ever climbing, two CWDs to plain names that fill the buffer lead to a canonical directory from which every relative argument overruns it |
| `FtpPath.RunStaysCanonical` | applications/data_collect/src/ftp_server/ftp_cmds.c:586-650 | Over every run of CWD and CDUP that keeps its room and never climbs, the current directory stays canonical and is the stack machine's |
| `FtpPath.CwdTwice` | applications/data_collect/src/ftp_server/ftp_cmds.c:586-617 | CWD a then CWD b leads where CWD a/b leads, whenever a/b fits |
| `FtpPath.CdupUndoesCwd` | applications/data_collect/src/ftp_server/ftp_cmds.c:619-650 | CDUP after CWD of a plain name restores the old directory if and only if the lower one leaves room for "/.."; with less it stays where it is, or overruns the buffer |
| `FtpServer.SkipRun` | applications/data_collect/src/ftp_server/ftp_cmds.c:84 | The pointer stops behind the whole run of slashes |
| `FtpServer.CopyName` | applications/data_collect/src/ftp_server/ftp_cmds.c:102 | One name is copied down, never past what has been read |
| `FtpServer.NextName` | applications/data_collect/src/ftp_server/ftp_cmds.c:101-111 | One name with its slash is appended to what is written; unread input is untouched |
| `FtpServer.BackUp` | applications/data_collect/src/ftp_server/ftp_cmds.c:116-122 | The write pointer drops exactly the last name and its slash |
| `FtpServer.ReadSpecial` | applications/data_collect/src/ftp_server/ftp_cmds.c:77-99 | "." and ".." are recognised exactly as whole components, also at the end of the text |
| `FtpServer.StripSlash` | applications/data_collect/src/ftp_server/ftp_cmds.c:127-131 | One trailing slash goes, unless it is the whole text |
| `FtpServer.Terminate` | applications/data_collect/src/ftp_server/ftp_cmds.c:125-133 | The text written is terminated and stripped as the verdict says |
| `FtpServer.NormalizePath` | applications/data_collect/src/ftp_server/ftp_cmds.c:66-134 | For every NUL-terminated buffer, climbing or not, the two-pointer loop terminates, never overwrites unread input or anything behind the terminator, and yields the specification's verdict and text |
| `FtpServer.Assemble` | applications/data_collect/src/ftp_server/ftp_cmds.c:571-577 | Absolute arguments replace the directory, relative ones are put behind it, cut to the buffer; the only failure is the write past the end |
| `FtpServer.BuildFullPath` | applications/data_collect/src/ftp_server/ftp_cmds.c:569-584 | For every directory text and argument: the verdict of the specification, its text in the buffer, and the buffer still terminated |
| `FtpServer.Session.Cwd` | applications/data_collect/src/ftp_server/ftp_cmds.c:586-617 | For every directory the session can be in and every argument: the new directory, whether or not it can be opened, and exactly when the command is refused or overruns the buffer |
| `FtpServer.Session.Cdup` | applications/data_collect/src/ftp_server/ftp_cmds.c:619-650 | CDUP likewise, with ".." |
| `FtpServer.RunSession` | applications/data_collect/src/ftp_server/ftp_cmds.c:586-650 | A whole session from any directory: as long as the text machine has a directory the session is in it, canonical where the stack machine gets to |
| `FlashImage.WriteAppends` | libs/can_fw_upgrade/can_fw_upgrade.c:265 | The buffered stream is append-only: a write extends its contents by the data, keeps less than a block back, and a flush keeps nothing back |
| `CanDevice.CommandWords` | tools/can_upgrade.py:36 | The two packed words of a command come out of the received frame as they went in |
| `CanDevice.KnownCommand` | tools/can_upgrade.py:36 | Two commands as they stand on the bus, byte by byte |
| `CanDevice.KeyFramesExact` | libs/can_fw_upgrade/can_fw_upgrade.c:233-246 | A key of 32 bytes travels in four frames of seven bytes and one of four |
| `CanDevice.LoadedChunksHeld` | libs/can_fw_upgrade/can_fw_upgrade.c:233-249 | Any key chunks in any order, repeated or not, end up in the buffer at their places with their bits set, and touch nothing else |
| `CanDevice.KeyDecidesStart` | libs/can_fw_upgrade/can_fw_upgrade.c:144-152 | Once all chunks have arrived, in any order, a START is accepted if and only if the key is the device's own; a refused one leaves slot and transfer alone; either way the key is used up and the next START is accepted |
| `CanDevice.IncompleteKeyPasses` | libs/can_fw_upgrade/can_fw_upgrade.c:142-144 | As long as a chunk is missing a START is accepted, whatever the others were |
| `CanDevice.StartAccepted` | libs/can_fw_upgrade/can_fw_upgrade.c:132-177 | A ready device of either kind, its hardware not failing, answers START with OFFSET 0 and has an empty image of the announced size in an erased slot |
| `CanDevice.StartErases` | libs/can_fw_upgrade/can_fw_upgrade.c:155-177 | After a START that the library accepts its slot is erased if and only if the erase succeeded or, in the middle of a transfer, it was erased before; what the laser controller accepts is erased |
| `CanDevice.LibraryRestartExact` | libs/can_fw_upgrade/can_fw_upgrade.c:155-177 | A START the library accepts begins a clean transfer if and only if none was under way, or it had brought no byte into an erased slot |
| `CanDevice.DataAccepted` | libs/can_fw_upgrade/can_fw_upgrade.c:255-278 | A receiving device of either kind appends the data and answers exactly at multiples of 64 and at the end |
| `CanDevice.ConfirmAccepted` | libs/can_fw_upgrade/can_fw_upgrade.c:179-210 | With all bytes in, CONFIRM flushes, requests the boot asked for and answers with the magic word |
| `CanDevice.ConfirmEnds` | libs/can_fw_upgrade/can_fw_upgrade.c:179-210 | A CONFIRM ends the transfer in whatever state, with any hardware and whatever it answers: data or a CONFIRM behind it is answered TRANSFER_ERROR and requests no boot |
| `CanDevice.LibraryConfirmExact` | libs/can_fw_upgrade/can_fw_upgrade.c:189-210 | With all bytes in, the library confirms if and only if the boot request is accepted, and the slot shows the image if and only if it had been erased and the ignored flush succeeded or nothing was left to flush |
| `CanDevice.LaserConfirmExact` | applications/laser_ctrl/src/firmware.c:62-72 | With all bytes in, the laser confirms, and requests the boot, if and only if the flush succeeded or nothing was left to flush, which in an erased slot is so if and only if it shows the image |
| `CanDevice.LibraryRefuses` | libs/can_fw_upgrade/can_fw_upgrade.c:128-278 | The library's answers to a START of the wrong length or without flash, to version and unknown commands, to data it cannot take, to key frames and to foreign identifiers, and that none of them moves a transfer on |
| `CanDevice.LaserRefuses` | applications/laser_ctrl/src/firmware.c:30-99 | The same of the laser controller, and when its upgrade flag is set and cleared |
| `CanFirmware.MarkOne` | libs/can_fw_upgrade/can_fw_upgrade.c:246 | Setting a chunk's bit adds exactly that chunk to the received ones |
| `CanFirmware.AllMarked` | libs/can_fw_upgrade/can_fw_upgrade.c:144 | The full mask is reached exactly when all five chunks are marked |
| `CanFirmware.Firmware.CheckKeyhash` | libs/can_fw_upgrade/can_fw_upgrade.c:144-152 | Complete foreign key: refused with one answer; the mask is cleared whenever it was complete |
| `CanFirmware.Firmware.StartUpdate` | libs/can_fw_upgrade/can_fw_upgrade.c:132-177 | The statement-by-statement START, bad lengths, failures to open the slot and its stream and the ignored result of the erase included, has the specified new state and answer |
| `CanFirmware.Firmware.ConfirmUpdate` | libs/can_fw_upgrade/can_fw_upgrade.c:179-210 | Likewise CONFIRM, with its ignored flush result and failing boot request |
| `CanFirmware.Firmware.HandlePlatformRx` | libs/can_fw_upgrade/can_fw_upgrade.c:128-226 | Likewise the dispatch on the command word |
| `CanFirmware.Firmware.HandleKeyhashFrame` | libs/can_fw_upgrade/can_fw_upgrade.c:233-249 | Likewise the copy into the key buffer, with the length computed in eight bits |
| `CanFirmware.Firmware.HandleFwData` | libs/can_fw_upgrade/can_fw_upgrade.c:255-278 | Likewise a data frame |
| `CanFirmware.Firmware.Receive` | libs/can_fw_upgrade/can_fw_upgrade.c:292-299 | Likewise the dispatch on the identifier |
| `CanFirmware.Firmware.RxThread` | libs/can_fw_upgrade/can_fw_upgrade.c:283-317 | Working through a queue of frames gives the state and the answers of handling them one after the other |
| `CanFirmware.LaserFirmware.FwUpdate` | applications/laser_ctrl/src/firmware.c:30-99 | The laser controller's handler has the specified new state and answers, and returns 0 exactly when it reports no error |
| `CanUpgrade.FlowControlled` | libs/can_fw_upgrade/can_fw_upgrade.c:88 | In every state satisfying the invariant at most eight frames are unprocessed and at most one answer unread, and an answer finds the host waiting with no frame outstanding |
| `CanUpgrade.TakesChunk` | libs/can_fw_upgrade/can_fw_upgrade.c:255-278 | Taking one frame off the queue brings the device one chunk of the file further and produces exactly the answer due |
| `CanUpgrade.StepKeepsInv` | tools/can_upgrade.py:33-67 | Every move of host or device keeps: device contents and frames in flight make up what the host has read, and answers match waits |
| `CanUpgrade.RepliesMatchWaits` | tools/can_upgrade.py:43-57 | In every interleaving with either device: the queue never overruns and has room for every frame sent, every answer finds its wait, none is left over |
| `CanUpgrade.NoDeadlock` | tools/can_upgrade.py:43-57 | As long as the host is not done, host or device can move |
| `CanUpgrade.MovesDecrease` | tools/can_upgrade.py:43-57 | Every move that is made uses up a bounded measure |
| `CanUpgrade.FairRoundsFinish` | tools/can_upgrade.py:33-67 | From any state satisfying the invariant, enough fair rounds bring the host to its end |
| `CanUpgrade.UpgradeCompletes` | tools/can_upgrade.py:33-67 | For any file that fits, any ready device and any fair interleaving, the tool ends with CONFIRM 0x55AA55AA and reports success, the slot, erased, shows exactly the file's bytes, the boot asked for has been requested, once, and the device is ready again |
| `CanUpgrade.EveryUploadCompletes` | tools/can_upgrade.py:33-67 | Any number of uploads one after the other to a device that is ready before the first: each succeeds with its own file in the slot and one more boot request |
| `CanUpgrade.KnownUpload` | tools/can_upgrade.py:33-67 | The three frames of a three-byte upload, byte by byte, and what the tool reports for each last answer |
| `CanUpgrade.RefusalUnnoticed` | tools/can_upgrade.py:40-42 | Whatever either device answers to a START, refusals included, the tool goes on to send the file |
| `CanUpgrade.FirmwareUpgrade` | tools/can_upgrade.py:33-67 | The tool's loop, for any answers and timeouts, sends the frames and reaches the outcome of the host machine |
| `CanVerdict.StepKeepsTracked` | tools/can_upgrade.py:33-67 | From any state of the device, every move keeps, until a frame finds the queue full: either the tool is never going to report success, or what the device has taken in behind what it had, the frames in flight, the answers not yet read and the place where the tool stopped fit together |
| `CanVerdict.SuccessExact` | tools/can_upgrade.py:33-67 | Whatever state the device is in, ready or not, and in every interleaving in which no frame finds the queue full: when the tool reports success the boot asked for has been requested, once, and the slot shows the file if and only if it was not a refused START that left a misleading transfer running (no byte brought and ending at a smaller non-zero multiple of 64, or, for an empty file, just complete) and a transfer already running had an erased slot |
| `CanPacing.QueueHolds` | libs/can_fw_upgrade/can_fw_upgrade.c:88 | For every file, too large ones included, every state of the device and every interleaving the eight-deep queue never overruns, unless a transfer is running whose count is not a multiple of 64 |
| `CanPacing.DataStaysPaced` | libs/can_fw_upgrade/can_fw_upgrade.c:255-278 | A data frame taken by a device that counts from a multiple of 64 is answered at the tool's next stop, or with an answer that ends the upload there |
| `CanMisled.RefusedUploadSucceeds` | tools/can_upgrade.py:40-42 | With a misleading transfer running in an erased slot, every fair interleaving ends in success and a boot request with only the first part of the file in the slot |
| `CanMisled.LostFrameSucceeds` | tools/can_upgrade.py:43-57 | With eight bytes taken in by a running transfer there is an interleaving in which a START is accepted, one of the sixteen frames of a 128-byte file is lost to a full queue, and the upload succeeds with those eight bytes and the first 120 of the file in the slot |
| `Bootloader.PageAt` | applications/stm32_bootloader/src/fw_upgrade.c:61 | A page boundary starts a page, which ends at the next boundary |
| `Bootloader.ErasesWholePages` | applications/stm32_bootloader/src/fw_upgrade.c:51-77 | For any tiling the erase loop terminates and erases whole consecutive pages up to the first boundary that covers the size, and nothing else, nothing past the application's end |
| `Bootloader.FlushProgresses` | applications/stm32_bootloader/src/fw_upgrade.c:112-119 | Programming the buffer keeps address, counters and flash in step with the bytes offered; the cells were erased and inside the application exactly while the image fits |
| `Bootloader.TakeBytesKeepsInv` | applications/stm32_bootloader/src/fw_upgrade.c:102-131 | A data frame of any length keeps the writer's invariant: address + index = start + received, index below 64, flash followed by buffer = the first bytes offered |
| `Bootloader.StartEstablishesInv` | applications/stm32_bootloader/src/fw_upgrade.c:40-79 | Whatever went wrong before, a START whose erasures succeed begins a sound transfer and erases pages covering the image |
| `Bootloader.StartAnswerExact` | applications/stm32_bootloader/src/fw_upgrade.c:46-79 | A START begins a transfer in any case and is answered OFFSET 0 if and only if the erasures of all pages that the image needs succeed, FLASH_ERROR 0 otherwise |
| `Bootloader.ConfirmKeepsInv` | applications/stm32_bootloader/src/fw_upgrade.c:80-94 | CONFIRM empties the buffer into the flash, also early, and jumps if and only if the whole image has been offered |
| `Bootloader.UpdateKeepsInv` | applications/stm32_bootloader/src/fw_upgrade.c:35-133 | Every frame keeps the invariant and never overruns the buffer, the flash not failing |
| `Bootloader.SuccessMeansWhole` | applications/stm32_bootloader/src/fw_upgrade.c:86-94 | UPDATE_SUCCESS and the jump happen only when the flash holds the first `total` bytes offered since START; the jump exactly on such a CONFIRM |
| `Bootloader.SoundTransfers` | applications/stm32_bootloader/src/fw_upgrade.c:35-133 | Any run from reset, flash failures included: whenever none has happened since the last accepted START, the writer's invariant holds and no data frame overruns the buffer |
| `Bootloader.RunIsSound` | applications/stm32_bootloader/src/fw_upgrade.c:35-133 | Over any run of frames and transfers whose announced sizes fit and whose flash operations succeed: no buffer overrun, no cell programmed without having been erased since, nothing outside the application touched |
| `Bootloader.OversizeExact` | applications/stm32_bootloader/src/fw_upgrade.c:51-54 | One transfer begun in any state: flash is misused if and only if the announced size exceeds the application's part; otherwise the image is in flash |
| `Bootloader.OverrunExact` | applications/stm32_bootloader/src/fw_upgrade.c:112-117 | A data frame leaves the buffer full, so that the next one writes past it, if and only if it fills the buffer before the end and the write of the full buffer fails |
| `Bootloader.WriteErrorReported` | applications/stm32_bootloader/src/fw_upgrade.c:112-117 | A failed write ends its frame and is reported, with the count at that point, and nothing else is reported so |
| `Bootloader.OtherAnswers` | applications/stm32_bootloader/src/fw_upgrade.c:39-101 | The answers to a START of the wrong length, to version and unknown commands and to foreign identifiers; none changes anything |
| `Bootloader.DataKeepsSound` | applications/stm32_bootloader/src/fw_upgrade.c:102-131 | A data frame, its writes failing as they may, keeps: nothing beyond the address is programmed, and the cells below it hold what was taken in, or one of them is unprogrammed for good once a CONFIRM has lost a piece |
| `Bootloader.ImageExact` | applications/stm32_bootloader/src/fw_upgrade.c:80-131 | One transfer begun in any state by an accepted START that fits, with any flash failures after it, until the buffer overruns: UPDATE_SUCCESS or the jump comes with the whole image taken in and standing in the flash if and only if no CONFIRM since the START found bytes in the buffer and failed to program them; every CONFIRM that finds all bytes taken in jumps |
| `Bootloader.TakenIsOffered` | applications/stm32_bootloader/src/fw_upgrade.c:102-131 | What is taken in is what the data frames have offered, cut at the announced size, as long as no write of a data frame fails |
| `Bootloader.LostPieceReported` | applications/stm32_bootloader/src/fw_upgrade.c:81-94 | An image of two bytes with a CONFIRM between them whose write fails: the second byte is answered with success and the next CONFIRM jumps, with an empty buffer and the first byte missing |
| `Bootloader.Receiver.StartUpdate` | applications/stm32_bootloader/src/fw_upgrade.c:40-79 | The erase loop and the resets, with its failures, have the specified new state and answer |
| `Bootloader.Receiver.ConfirmUpdate` | applications/stm32_bootloader/src/fw_upgrade.c:80-94 | Likewise CONFIRM |
| `Bootloader.Receiver.FlushBuffer` | applications/stm32_bootloader/src/fw_upgrade.c:112-128 | Likewise programming the buffer and the progress answer; after a failure the index stays |
| `Bootloader.Receiver.TakeData` | applications/stm32_bootloader/src/fw_upgrade.c:102-131 | The byte loop over the 64-byte array has the specified new state and answers, and reports exactly the frames that make the code write past the array |
| `Bootloader.Receiver.FwUpdate` | applications/stm32_bootloader/src/fw_upgrade.c:35-133 | Likewise the dispatch, for every frame in every state |
| `BootloaderHost.DataReplies` | applications/stm32_bootloader/src/fw_upgrade.c:121-128 | The answer to a data frame is the one the host expects except at multiples of 4096 short of the end, where there is none |
| `BootloaderHost.LinkStepKeepsInv` | tools/can_upgrade.py:33-67 | Every move of the tool or the bootloader keeps: what the bootloader has received and the frames in its queue make up what the tool has read, and answers match waits |
| `BootloaderHost.HostUpgradesExact` | tools/can_upgrade.py:33-67 | Whatever the bootloader did before and however the two are interleaved fairly over the eight-deep queue, the tool completes the upgrade if and only if the file has at most 4096 bytes; with a larger one that fits the flash it ends up waiting at 4096, and the queue never overruns |
| `BootloaderHost.UpdateIgnoresFlash` | applications/stm32_bootloader/src/fw_upgrade.c:35-133 | No answer of the bootloader, nor its jump, depends on what the flash holds |
| `BootloaderHost.FailedEraseUnnoticed` | applications/stm32_bootloader/src/fw_upgrade.c:59-72 | A START whose erase fails is answered with value 0, which lets the tool go on; whatever the flash held, every fair interleaving ends as after an erase that worked: with the tool's success and the jump up to 4096 bytes, waiting at 4096 above |
| `Crc16.BitStepInverse` | applications/stm32_bootloader/src/fw_uart.c:47-51 | Each bit step of the checksum is undone by an explicit inverse |
| `Crc16.BitUnstepInverse` | applications/stm32_bootloader/src/fw_uart.c:47-51 | That inverse is two-sided, so a bit step is a bijection on 16-bit states |
| `Crc16.BitStepsLinear` | applications/stm32_bootloader/src/fw_uart.c:46-52 | Any number of bit steps is linear over exclusive or |
| `Crc16.CrcFromInjective` | applications/stm32_bootloader/src/fw_uart.c:44-53 | Different states stay different over any common data |
| `Crc16.AdjacentDamageShows` | applications/stm32_bootloader/src/fw_uart.c:40-55 | Two messages of any equal length that differ only within two adjacent bytes never have the same checksum |
| `Crc16.KnownCrc` | applications/stm32_bootloader/src/fw_uart.c:40-55 | The checksum of the nine digits 1 to 9 is 0x4B37 |
| `Crc16.Crc16Ccitt` | applications/stm32_bootloader/src/fw_uart.c:40-55 | The nested loops compute the checksum |
| `UartFrame.StepStaysReachable` | applications/stm32_bootloader/src/fw_uart.c:92-143 | In every reachable state DATA implies index < length <= 8, and only well-formed frames are delivered |
| `UartFrame.HighLengthByteLost` | applications/stm32_bootloader/src/fw_uart.c:107-110 | The high length byte shifted into eight bits is always 0 |
| `UartFrame.KnownPrints` | applications/stm32_bootloader/src/fw_uart.c:57-76 | Two frames as they stand on the wire, byte by byte, and which kinds and lengths there are |
| `UartFrame.KnownParse` | applications/stm32_bootloader/src/fw_uart.c:92-143 | One of them parsed |
| `UartFrame.FrameParsed` | applications/stm32_bootloader/src/fw_uart.c:92-139 | From IDLE a frame with any checksum and any high length byte is delivered if and only if the checksum fits its data, and the parser is in IDLE again |
| `UartFrame.PrintedFramesParsed` | applications/stm32_bootloader/src/fw_uart.c:57-76 | Round trip: the printed forms of any sequence of frames parse back to exactly that sequence |
| `UartFrame.DamagedFrameDropped` | applications/stm32_bootloader/src/fw_uart.c:129-138 | A frame whose data is damaged within two adjacent bytes is not delivered and the frames behind it are |
| `UartFrame.Resynchronises` | applications/stm32_bootloader/src/fw_uart.c:92-143 | After any bytes whatever, thirteen bytes other than 0xAA bring the parser to IDLE and the following frames are delivered |
| `UartFrame.TwelveAreTooFew` | applications/stm32_bootloader/src/fw_uart.c:92-143 | Twelve such bytes do not always suffice |
| `FwUart.PutAllTakesPrefix` | applications/stm32_bootloader/src/fw_uart.c:136 | The queue takes frames in order until it is full and loses the rest |
| `FwUart.DeliveryExact` | applications/stm32_bootloader/src/fw_uart.c:38 | Any sequence of printed frames arrives in the queue complete and in order if and only if it has room for all of them |
| `FwUart.Uart.RxHeader` | applications/stm32_bootloader/src/fw_uart.c:92-128 | The switch over the state, except the last byte and the data, updates the static variables as specified |
| `FwUart.Uart.StoreByte` | applications/stm32_bootloader/src/fw_uart.c:119-124 | Likewise a data byte |
| `FwUart.Uart.FinishFrame` | applications/stm32_bootloader/src/fw_uart.c:129-139 | Likewise the last byte: the frame is queued exactly when its checksum fits |
| `FwUart.Uart.UartIsr` | applications/stm32_bootloader/src/fw_uart.c:86-145 | Draining the FIFO gives the parser's state and the queue with all frames found |
| `FwUart.Uart.UartSendFrame` | applications/stm32_bootloader/src/fw_uart.c:57-76 | The bytes put on the wire are the printed frame |
| `HistoryRing.DropOldest` | applications/data_collect/src/modbus/history.c:111-114 | What is on file is the oldest file followed by the rest |
| `HistoryRing.RecordAppends` | applications/data_collect/src/modbus/history.c:131-169 | A record is appended to what is on file; only a whole oldest file is ever lost, and only when one is created beside ten; the open file is the latest again |
| `HistoryRing.SameFilesExact` | applications/data_collect/src/modbus/history.c:140-148 | A record goes to the latest file and the set of files stays the same if and only if it fits there by the file's real size (and the file is open or there are at most ten); the first since boot if and only if there are between one and ten; otherwise it begins a new file |
| `HistoryRing.OthersNearlyFull` | applications/data_collect/src/modbus/history.c:140-148 | With records of at most m bytes every file of the run except the latest has less than m bytes of room, unless logging is disabled in between among more than ten files |
| `HistoryRing.KeepsNineFiles` | applications/data_collect/src/modbus/history.c:101-169 | From an empty directory the log keeps everything, or more than nine times 1 MiB less m |
| `HistoryRing.LimitExact` | applications/data_collect/src/modbus/history.c:140-153 | A file stays within 1 MiB if and only if it is not one found at the first opening with too little room for the record |
| `HistoryRing.FirstRecordOverflows` | applications/data_collect/src/modbus/history.c:106-110 | A full file from an earlier run grows past its limit with the first record after boot |
| `HistoryRing.RingKeepsSuffix` | applications/data_collect/src/modbus/history.c:101-182 | Over any steady run from any files, enabled or not: the files in order of time are a suffix of everything recorded, the open one is the latest, files created in the run keep their limit, and there are at most ten or as many as before |
| `HistoryRing.LockedOut` | applications/data_collect/src/modbus/history.c:136-139 | After a record that arrived while logging was disabled the mutex is never free again, and until the writing thread enables logging no file changes |
| `HistoryRing.RevivedExact` | applications/data_collect/src/modbus/history.c:171-182 | After such a record logging comes back at some point if and only if the writing thread itself, as a Modbus register write does, later makes a call that enables it |
| `HistoryRing.OthersBlocked` | applications/data_collect/src/modbus/history.c:173 | After such a record a call of any other thread, whatever happens before it, never gets through |
| `HistoryRing.EnabledRecordsUnlock` | applications/data_collect/src/modbus/history.c:136-139 | The mutex is free after a run if and only if every record arrived while logging was enabled |
| `HistoryRing.HeldCountsMissed` | applications/data_collect/src/modbus/history.c:136-139 | The mutex is left locked once for every record that arrives while logging is disabled |
| `HistoryRing.ClosedWhileDisabled` | applications/data_collect/src/modbus/history.c:171-182 | No file is open while logging is disabled, as it is from boot until it is enabled |
| `HistoryFiles.History.GetFile` | applications/data_collect/src/modbus/history.c:27-99 | The scan over entries in any order finds the latest or oldest stamp, its size and the number of files |
| `HistoryFiles.History.OpenLatestFile` | applications/data_collect/src/modbus/history.c:101-129 | Opens the latest, or drops the oldest and creates, as specified |
| `HistoryFiles.History.WriteHistoryData` | applications/data_collect/src/modbus/history.c:131-169 | One record, with closing, opening and the offset, as specified; while disabled it returns -1 with the mutex locked |
| `HistoryFiles.History.HistoryEnableWrite` | applications/data_collect/src/modbus/history.c:171-182 | Disabling closes the file and keeps the offset; the call gets through if and only if the mutex is free or the writing thread, which may lock it again, makes it |
| `UdpUpgrade.FoldConcat` | libs/udp_fw_upgrade/udp_fw_upgrade.c:181-190 | A checksum carried on from piece to piece is the checksum of the whole |
| `UdpUpgrade.HostKnowsTransfer` | libs/udp_fw_upgrade/udp_fw_upgrade.c:211-300 | In every conversation, failures included, what the host must conclude from its commands and the answers is what the device holds, and the slot of the transfer is erased if and only if the erase of its START succeeded |
| `UdpUpgrade.BootGate` | libs/udp_fw_upgrade/udp_fw_upgrade.c:272-300 | After any conversation and with any failure a boot is requested if and only if an END closes a running transfer, the read-back works and the announced checksum is that of what the slot shows of the data accepted since its START (all of it, or its whole blocks where END's own flush failed; something else of that length where the slot had not been erased); permanently unless the test flag is set |
| `UdpUpgrade.AnswersExact` | libs/udp_fw_upgrade/udp_fw_upgrade.c:211-323 | Every answer after any conversation and with any failure: START is accepted if and only if no transfer runs, the size is there, slot and stream open and no whole hash differs from the configured one, is refused as foreign exactly for that difference, and a refused one leaves the transfer as it was; DATA gives the number of bytes accepted since the START, or 0; END says whether it requested the boot |
| `UdpUpgrade.NoBootWithoutStart` | libs/udp_fw_upgrade/udp_fw_upgrade.c:254-270 | After a failed write, or any end of a transfer, no command list requests a boot until a START is accepted |
| `UdpUpgrade.FailedWriteStops` | libs/udp_fw_upgrade/udp_fw_upgrade.c:257-264 | A write that fails or does not fit ends the transfer and is answered with offset 0 |
| `UdpUpgrade.Server.FwVerifyCrc` | libs/udp_fw_upgrade/udp_fw_upgrade.c:168-198 | The 64-byte read-back loop accepts if and only if every chunk reads and the one-shot checksum over all that the slot shows fits |
| `UdpUpgrade.Server.StartCommand` | libs/udp_fw_upgrade/udp_fw_upgrade.c:214-252 | START, with key check, failures and the ignored result of the erase, has the specified new state and answer |
| `UdpUpgrade.Server.DataCommand` | libs/udp_fw_upgrade/udp_fw_upgrade.c:254-270 | Likewise DATA |
| `UdpUpgrade.Server.EndCommand` | libs/udp_fw_upgrade/udp_fw_upgrade.c:272-300 | Likewise END |
| `UdpUpgrade.Server.HandleFwCmd` | libs/udp_fw_upgrade/udp_fw_upgrade.c:211-323 | Likewise the dispatch, and whether the command was the library's |

## Left out

- Nrf24Driver.SendAnswersForItsPayload: does not model SPI errors, changes of mode or power during a call, or two calls at once.
- Nrf24Driver.CompletionNeverLost: does not claim that every received frame is delivered, because the code flushes the receive FIFO after each single read.
- Rf24.Radio.DataSend: the back-off times, the log and the signal-quality average are not part of the model.
- FtpServer.Session.Cwd: says nothing about the directory's text after a refusal, when the buffer holds a partly rewritten path, or about memory after the buffer has been overrun; the reply's text is reduced to its kind.
- CanDevice.ConfirmAccepted: is about hardware that does not fail (LibraryConfirmExact and LaserConfirmExact are about any); the frames that carry the version string, the reboot command and the FPGA version are not modelled.
- CanUpgrade.RepliesMatchWaits: frames of other nodes on the bus are not modelled, so the receive queue holds the tool's frames only.
- CanUpgrade.UpgradeCompletes: the tool's timeouts are left out of the interleaved system (they are in FirmwareUpgrade), and the device is taken not to fail, as in CanVerdict.SuccessExact.
- BootloaderHost.HostUpgradesExact: the flash is taken not to fail (FailedEraseUnnoticed is about a START that could not erase), and frames of other nodes on the bus are not modelled.
- Bootloader.RunIsSound: the contents of a page after a failed erase or write, the flash driver's alignment rules and its own bounds checks are not modelled; only one transport calls the receiver at a time.
- Bootloader.SuccessMeansWhole: what the jump does, the check of the vector table at boot and the upgrade flag are left out.
- UdpUpgrade.BootGate: the checksum is any byte-wise one, as Zephyr's is not part of this repository.
- FwUart.DeliveryExact: the thread that empties the queue and hands the frames to the bootloader is not modelled, so the queue only fills.
- HistoryRing.RingKeepsSuffix: the queue of pointers in front of the writer is left out, as is the thread priority the mutex inherits and everything about a clock that stands still or goes back.
- Sockets, SPI, GPIO, CAN and UART hardware access, Zephyr's kernel and its scheduling: only the contracts of mutex, semaphore, queue and flash are kept.
- The rest of the FTP server, the HTTP upload, Modbus, display, LEDs, shell, USB, CANopen dictionary, settings and scripts: input and output, or easy members.
