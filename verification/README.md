# Verified models of the USB, parallel-port and capture code

This project states in Dafny what the protocol code of this repository does and
proves what it is for. `dafny verify dfyconfig.toml` checks it.

* **V-USB device driver** (`usbdrv.c`). `UsbModel` is the state that C code and
  interrupt routine share and the effect of each call or bus event on it; `UsbRuns`
  proves what holds over every sequence of events; `UsbHost` reads through a whole
  control transfer, up to the strings that PyUSB returns; `InterruptEndpoint` treats
  `usbSetInterrupt`, with atomic calls and with preemption at any statement, and
  `UsbInterrupt` that endpoint within runs of the whole driver; `UsbDriver` is the
  imperative code with the interrupt routine running between any two statements, proved
  to be explained by a run of `UsbRuns`.
  Shipped configuration: data of control-out requests goes to `usbFunctionWrite`,
  control-in data comes from memory, lengths are one byte, no endpoint halt.
* **PyUSB resource manager** (`core.py`, `util.py`). `Descriptors` is the descriptor
  tree and the search through it, `BackendProtocol` what an orderly sequence of backend
  calls is, `ResourceManager` the manager with its handle, claims and two caches
  against a backend in which any call may fail.
* **parapin** (`parapin.c`). `PinModel` says what the functions do pin by pin,
  `Parapin` is the register code with its inversion masks, on masks as sets of bits.
* **FTDI baud rates** (`vcp_terminal.py`). `Ftdi`.
* **Isochronous transfers** (`libusb1.py`, `libusb0.py`). `IsoPackets` and
  `PartialTransfer`.
* **802.15.4 sniffer** (`zena-0.4.3.c`). `ZenaModel` and `Zena`.

Where code and expectation part, the code is kept and the exact condition is proved:

* a SET_INTERFACE processed while an interrupt packet waits sends it with the wrong
  PID (`UsbInterrupt.SetInterfaceBreaksIff`, on the input of
  `SetInterfaceWhileWaiting`), and so does a poll between two statements of
  `usbGenericSetInterrupt` (`InterruptEndpoint.AlternationBreaksIff`, `TwiceData0`);
* SET_CONFIGURATION resets no data toggle, which section 9.1.1.5 of USB 2.0 asks for:
  the next packet has the right PID exactly after an even number of packets
  (`UsbInterrupt.SetConfigurationResetsIff`, `ConfiguredAfterOnePacket`);
* an error return of `usbFunctionWrite` is not seen by the host while a reply is
  pending (`UsbRuns.StallSticksIff`, `StallIsLost`);
* a descriptor whose length is 255 modulo 256, or that is longer than 255 bytes, is not
  served but for short requests (`UsbRuns.DescriptorServedIff`, `HidReportMisread`);
* strings and LANGID tables survive up to 126 units (`UsbHost.VendorNameRoundTrip`,
  `LangidsRoundTrip`);
* a failing descriptor read makes PyUSB's search skip alternate settings silently
  (`Descriptors.SearchUnderFaults`, `FaultHidesFirst`);
* a switchable parallel-port pin in neither mode can capture a low level from outside
  (`PinModel.UnaddressedPinCaptured`), and setting the direction bit by hand breaks
  the mode invariant (`SetPinKeepsModesIff`, `ClearPinKeepsModesIff`);
* the FTDI rounding bound starts at 184 baud (`Ftdi.RoundingBoundIff`), and the
  branches for fast rates are inexact (`AccurateIff`);
* reports of a frame that arrive after a failed transfer, or belong to one too long for
  the structure, can be recorded as a frame or swallow the next ones
  (`ZenaModel.StraysUnnoticedIff`, `LateReportsIff`, `LateReportMistaken`).

## Model

| member | source | states |
|---|---|---|
| UsbRuns.BytesConserved | doc/USB_Parallel/DLO_DeluxeUSB/DeluxeUSB/firmware/usbdrv/usbdrv.c:422-590 | in every run, aborted transfers, bus resets, tokens between the halves of usbPoll and further SETUPs that are refused or still wait included, as long as usbFunctionWrite was given no data of the request: bytes delivered since its SETUP, plus the payload waiting in the buffer, plus what is left at usbMsgPtr, are exactly the first wLength bytes of the reply (for a control-in request answered USB_NO_MSG, the low byte of wLength many); the endpoint is not stalled and the buffer holds a complete packet or a handshake token |
| UsbRuns.PacketsInOrder | doc/USB_Parallel/DLO_DeluxeUSB/DeluxeUSB/firmware/usbdrv/usbdrv.c:439-546 | the packets delivered for a request are the first packets of its reply, with PIDs DATA1, DATA0, DATA1, ... restarting at each SETUP and the CRC of their own payload |
| UsbRuns.RunKeepsInv | doc/USB_Parallel/DLO_DeluxeUSB/DeluxeUSB/firmware/usbdrv/usbdrv.c:422-590 | the history invariant behind these results is kept by every sequence of packets, tokens, halves of usbPoll, interrupt data and resets |
| UsbRuns.SetupOwesReply | doc/USB_Parallel/DLO_DeluxeUSB/DeluxeUSB/firmware/usbdrv/usbdrv.c:311-485 | right after a SETUP the bytes at usbMsgPtr are the whole reply cut to wLength, although the length is cut only if the high byte of wLength is 0 |
| UsbRuns.AddressIsLast | doc/USB_Parallel/DLO_DeluxeUSB/DeluxeUSB/firmware/usbdrv/usbdrv.c:388-391 | in every run the address to be taken is the low wValue byte of the last SET_ADDRESS processed since the last bus reset, 0 if there was none |
| UsbRuns.RamIsLast | doc/USB_Parallel/DLO_DeluxeUSB/DeluxeUSB/firmware/usbdrv/usbdrv.c:422-482 | in every run the application's RAM is what its last callback left |
| UsbRuns.SilentBeforeSetup | doc/USB_Parallel/DLO_DeluxeUSB/DeluxeUSB/firmware/usbdrv/usbdrv.c:24-50 | until the first SETUP is processed every IN token gets NAK and nothing is given to usbFunctionWrite |
| UsbRuns.DescriptorServedIff | doc/USB_Parallel/DLO_DeluxeUSB/DeluxeUSB/firmware/usbdrv/usbdrv.c:311-452 | what a GET_DESCRIPTOR leaves to be sent is the stored descriptor, cut to wLength, exactly if wLength is 0, or the length modulo 256 is not the sentinel 255 and wLength does not go beyond it where 256 bytes or more are stored |
| UsbRuns.SentinelDescriptor | doc/USB_Parallel/DLO_DeluxeUSB/DeluxeUSB/firmware/usbdrv/usbdrv.c:430-517 | with the sentinel as length, data memory is read at a flash address exactly unless the low byte of wLength is 0, which sends an empty packet, or 255, which sends nothing |
| UsbRuns.HidReportMisread | doc/USB_Parallel/DLO_DeluxeUSB/DeluxeUSB/firmware/usbdrv/usbdrv.c:430-517 | a HID report descriptor of 255 bytes, asked for with wLength 64, for which it is |
| UsbRuns.BuildMoves | doc/USB_Parallel/DLO_DeluxeUSB/DeluxeUSB/firmware/usbdrv/usbdrv.c:524-546 | building a packet moves it unchanged from the message to the buffer, toggles the PID and completes the CRC |
| UsbRuns.ShortReplyIsNext | doc/USB_Parallel/DLO_DeluxeUSB/DeluxeUSB/firmware/usbdrv/usbdrv.c:524-590 | a reply below 8 bytes is delivered to the next IN token after usbPoll, wherever it was staged |
| UsbRuns.GetConfigurationAnswer | doc/USB_Parallel/DLO_DeluxeUSB/DeluxeUSB/firmware/usbdrv/usbdrv.c:362-414 | GET_CONFIGURATION delivers the low wValue byte of the last SET_CONFIGURATION, 0 if there was none |
| UsbRuns.ZeroAnswers | doc/USB_Parallel/DLO_DeluxeUSB/DeluxeUSB/firmware/usbdrv/usbdrv.c:362-414 | GET_STATUS and GET_INTERFACE deliver zeros, two and one, cut to wLength, although they are staged in bytes 9 and 10 of the buffer that packet and CRC are built in |
| UsbRuns.StatusHeldBack | doc/USB_Parallel/DLO_DeluxeUSB/DeluxeUSB/firmware/usbdrv/usbdrv.c:453-482 | while usbFunctionWrite returns 0 endpoint 0 answers NAK and sends nothing; while stalled by a handler that keeps returning 0xff it stays so |
| UsbRuns.FinalWriteArmsEmptyPacket | doc/USB_Parallel/DLO_DeluxeUSB/DeluxeUSB/firmware/usbdrv/usbdrv.c:453-482 | a final return arms exactly one empty packet, after which endpoint 0 answers NAK |
| UsbRuns.ControlOutStatus | doc/USB_Parallel/DLO_DeluxeUSB/DeluxeUSB/firmware/usbdrv/usbdrv.c:422-546 | a whole control-out transfer sends nothing before the final return and then one empty DATA1 packet |
| UsbRuns.ControlOutError | doc/USB_Parallel/DLO_DeluxeUSB/DeluxeUSB/firmware/usbdrv/usbdrv.c:422-546 | a whole control-out transfer that ends with 0xff: from that return on endpoint 0 answers STALL (NAK while a packet is unprocessed) until the next SETUP, while the handler keeps returning 0xff |
| UsbRuns.StallSticksIff | doc/USB_Parallel/DLO_DeluxeUSB/DeluxeUSB/firmware/usbdrv/usbdrv.c:453-590 | an error return leaves endpoint 0 stalled exactly if no reply is pending; otherwise the next IN token gets a packet |
| UsbRuns.StallIsLost | doc/USB_Parallel/DLO_DeluxeUSB/DeluxeUSB/firmware/usbdrv/usbdrv.c:453-590 | a run from power-on that reaches the second case |
| UsbRuns.OwedKept | doc/USB_Parallel/DLO_DeluxeUSB/DeluxeUSB/firmware/usbdrv/usbdrv.c:422-485 | only a SETUP of 8 bytes changes which reply is owed |
| UsbModel.RequestBits | doc/USB_Parallel/DLO_DeluxeUSB/DeluxeUSB/firmware/usbdrv/usbdrv.c:430-452 | type, direction and length of a request are the masks and bytes the source tests |
| UsbModel.TokenBits | doc/USB_Parallel/DLO_DeluxeUSB/DeluxeUSB/firmware/usbdrv/usbdrv.c:575-579 | the test for a free buffer is bit 4, and toggling exchanges the two data PIDs |
| UsbModel.ProcessSetupGood | doc/USB_Parallel/DLO_DeluxeUSB/DeluxeUSB/firmware/usbdrv/usbdrv.c:311-485 | after a SETUP the flag names the memory usbMsgPtr points into, only replies of at most 2 bytes are staged in the transmit buffer, and a packet waiting on the interrupt endpoint stays complete |
| UsbModel.BuildGood | doc/USB_Parallel/DLO_DeluxeUSB/DeluxeUSB/firmware/usbdrv/usbdrv.c:524-546 | a packet built is complete, what is left of its message is not in the buffer, and no message is left unbuilt while the buffer is free |
| UsbModel.PollGood | doc/USB_Parallel/DLO_DeluxeUSB/DeluxeUSB/firmware/usbdrv/usbdrv.c:524-590 | usbPoll keeps: transmit lengths NAK, STALL or 4 to 12, armed packets complete with CRC, no message pointer into a buffer that is in use |
| UsbHost.SplitShape | doc/USB_Parallel/DLO_DeluxeUSB/DeluxeUSB/firmware/usbdrv/usbdrv.c:524-546 | n bytes travel in n/8 + 1 packets, all of 8 bytes but the last, which is shorter and empty if 8 divides n |
| UsbHost.SplitUnique | doc/USB_Parallel/DLO_DeluxeUSB/DeluxeUSB/firmware/usbdrv/usbdrv.c:524-546 | there is no other such cut of the same bytes |
| UsbHost.DeviceIsLawful | doc/USB_Parallel/DLO_DeluxeUSB/DeluxeUSB/firmware/usbdrv/usbdrv.c:492-590 | for every order of IN tokens and halves of usbPoll, the tokens get the owed packets in order, none skipped, and one whenever usbPoll could build since the token before |
| UsbHost.Progress | doc/USB_Parallel/DLO_DeluxeUSB/DeluxeUSB/firmware/usbdrv/usbdrv.c:524-590 | every such token moves the transfer on by a packet until all that is owed has been delivered |
| UsbHost.CollectGetsRest | doc/USB_Parallel/DLO_DeluxeUSB/DeluxeUSB/firmware/usbdrv/usbdrv.c:439-546 | a host that takes no notice of handshakes and stops at wLength bytes or a short packet holds a part of the bytes still owed, and exactly those after as many chances as there are packets |
| UsbHost.ControlReadCorrect | doc/USB_Parallel/DLO_DeluxeUSB/DeluxeUSB/firmware/usbdrv/usbdrv.c:422-590 | a control-in transfer after any history and with any order of tokens and halves of usbPoll: the host holds nothing but the reply, and after enough chances exactly its first wLength bytes |
| UsbHost.VendorNameRoundTrip | doc/walac-pyusb-7a1ce1e/usb/util.py:285-330 | the vendor name stored in the firmware comes out of get_string, through descriptor, packets and host, exactly if it has at most 126 units |
| UsbHost.LangidsRoundTrip | doc/walac-pyusb-7a1ce1e/usb/util.py:235-283 | likewise the LANGID table through get_langids, exactly up to 126 entries |
| UsbHost.ZipEveryOther | doc/walac-pyusb-7a1ce1e/usb/util.py:283-283 | the strided slices of get_langids decode the same words as reading pairs of bytes |
| UsbHost.LangidsOfAnyAnswer | doc/walac-pyusb-7a1ce1e/usb/util.py:263-283 | get_langids on any answer: nothing exactly for a short or odd one, else every whole word behind the header |
| UsbHost.StringCases | doc/walac-pyusb-7a1ce1e/usb/util.py:308-330 | get_string on any answer: exactly when it gives nothing or which error, and else the words of the descriptor; the LANGID used is the one given, or the first |
| InterruptEndpoint.EndpointIsMailbox | doc/USB_Parallel/DLO_DeluxeUSB/DeluxeUSB/firmware/usbdrv/usbdrv.c:197-243 | with atomic calls and no toggle reset while a packet waits, the endpoint is a mailbox of one place: delivered packets are what was taken from it, strictly alternating from DATA0 on; replaced data is never delivered; an empty mailbox answers NAK |
| InterruptEndpoint.SetIsTwoSteps | doc/USB_Parallel/DLO_DeluxeUSB/DeluxeUSB/firmware/usbdrv/usbdrv.c:221-243 | an atomic call is the withdrawal of a waiting packet and the arming of the new one with nothing in between |
| InterruptEndpoint.ResetBreaksIff | doc/USB_Parallel/DLO_DeluxeUSB/DeluxeUSB/firmware/usbdrv/usbdrv.c:197-205 | a toggle reset breaks the sequence exactly if a packet waits |
| InterruptEndpoint.NothingTorn | doc/USB_Parallel/DLO_DeluxeUSB/DeluxeUSB/firmware/usbdrv/usbdrv.c:221-243 | over every run of calls, each preempted between any of its statements, tokens and toggle resets: every packet sent is the complete image of one finished call, each of a later call than the one before; what waits is the image of the last call |
| InterruptEndpoint.AlternationBreaksIff | doc/USB_Parallel/DLO_DeluxeUSB/DeluxeUSB/firmware/usbdrv/usbdrv.c:221-243 | such preemption breaks the alternation exactly if the waiting packet is fetched between the test of the length and the assignment of NAK |
| InterruptEndpoint.UnbrokenAlternates | doc/USB_Parallel/DLO_DeluxeUSB/DeluxeUSB/firmware/usbdrv/usbdrv.c:221-243 | in every run without that and without a reset, the packets alternate |
| InterruptEndpoint.TwiceData0 | doc/USB_Parallel/DLO_DeluxeUSB/DeluxeUSB/firmware/usbdrv/usbdrv.c:221-243 | two calls from power-on after which DATA0 has been sent twice |
| InterruptEndpoint.TxStatus.SetInterrupt | doc/USB_Parallel/DLO_DeluxeUSB/DeluxeUSB/firmware/usbdrv/usbdrv.c:221-243 | the statements of usbGenericSetInterrupt, preempted by any schedule of polls, make the step of these runs and keep: every packet sent and the one waiting are images of finished calls |
| InterruptEndpoint.TxStatus.CopyData | doc/USB_Parallel/DLO_DeluxeUSB/DeluxeUSB/firmware/usbdrv/usbdrv.c:234-239 | the copy loop, tested at its end, changes only payload bytes (one even if the length is 0) and sends nothing |
| UsbInterrupt.StepIsEffect | doc/USB_Parallel/DLO_DeluxeUSB/DeluxeUSB/firmware/usbdrv/usbdrv.c:197-248 | each step of the driver changes the interrupt endpoint by the event its request or token is for it, and nothing else does |
| UsbInterrupt.DriverEndpointIsMailbox | doc/USB_Parallel/DLO_DeluxeUSB/DeluxeUSB/firmware/usbdrv/usbdrv.c:197-248 | in every run of the driver with atomic calls in which no SET_INTERFACE is processed while a packet waits, a token gets what waits in the mailbox with the next PID, or NAK |
| UsbInterrupt.DriverSendsWhole | doc/USB_Parallel/DLO_DeluxeUSB/DeluxeUSB/firmware/usbdrv/usbdrv.c:197-248 | in every run of the driver, interrupted calls and toggle resets included, a token gets the complete image of what waits in the mailbox, or NAK: nothing torn, withdrawn or replaced is sent |
| UsbInterrupt.SetInterfaceBreaksIff | doc/USB_Parallel/DLO_DeluxeUSB/DeluxeUSB/firmware/usbdrv/usbdrv.c:404-406 | SET_INTERFACE breaks the sequence exactly if a packet waits when it is processed |
| UsbInterrupt.SetInterfaceWhileWaiting | doc/USB_Parallel/DLO_DeluxeUSB/DeluxeUSB/firmware/usbdrv/usbdrv.c:404-406 | a run from power-on in which it does |
| UsbInterrupt.SetConfigurationResetsIff | doc/USB_Parallel/DLO_DeluxeUSB/DeluxeUSB/firmware/usbdrv/usbdrv.c:398-400 | SET_CONFIGURATION leaves the endpoint alone; the next packet, already waiting or set later, is DATA0 exactly if an even number has been delivered since the last reset |
| UsbInterrupt.ConfiguredAfterOnePacket | doc/USB_Parallel/DLO_DeluxeUSB/DeluxeUSB/firmware/usbdrv/usbdrv.c:398-400 | a run from power-on after which it is DATA1 |
| UsbDriver.Driver.constructor | doc/USB_Parallel/DLO_DeluxeUSB/DeluxeUSB/firmware/usbdrv/usbdrv.c:607-623 | usbInit leaves the state all runs start from |
| UsbDriver.ReactionIsStep | doc/USB_Parallel/DLO_DeluxeUSB/DeluxeUSB/firmware/usbdrv/asmcommon.inc:115-187 | whenever it runs, the interrupt routine does and answers what the atomic step does, and leaves the main program what it relies on |
| UsbDriver.Bus.Refuse | doc/USB_Parallel/DLO_DeluxeUSB/DeluxeUSB/firmware/usbdrv/asmcommon.inc:115-150 | while a received packet is unprocessed every token gets NAK, every data packet is refused and nothing else changes |
| UsbDriver.Driver.ProcessRx | doc/USB_Parallel/DLO_DeluxeUSB/DeluxeUSB/firmware/usbdrv/usbdrv.c:311-485 | usbProcessRx and all it calls, with interrupts between any two statements, change the globals as the atomic step does |
| UsbDriver.Driver.DeviceRead | doc/USB_Parallel/DLO_DeluxeUSB/DeluxeUSB/firmware/usbdrv/usbdrv.c:492-517 | the copy loop puts exactly the next bytes of the message behind the PID, even those staged in the buffer itself, and advances the pointer, whatever the interrupt routine does meanwhile |
| UsbDriver.Driver.BuildTxBlock | doc/USB_Parallel/DLO_DeluxeUSB/DeluxeUSB/firmware/usbdrv/usbdrv.c:524-546 | the packet takes effect as a whole when its length is stored |
| UsbDriver.Driver.Poll | doc/USB_Parallel/DLO_DeluxeUSB/DeluxeUSB/firmware/usbdrv/usbdrv.c:565-603 | with the interrupt routine between any two statements, usbPoll has the effect of its atomic steps in order, somewhere among what happened on the bus |
| UsbDriver.Driver.SetInterrupt | doc/USB_Parallel/DLO_DeluxeUSB/DeluxeUSB/firmware/usbdrv/usbdrv.c:221-248 | with the interrupt routine between any two statements, usbSetInterrupt has the effect of its two atomic steps, the first only if a packet was waiting when it began, somewhere among what happened on the bus |
| UsbDriver.Driver.Explained | doc/USB_Parallel/DLO_DeluxeUSB/DeluxeUSB/firmware/usbdrv/usbdrv.c:221-603 | after any calls of usbPoll and usbSetInterrupt the globals are those a run of atomic steps reaches, this run consists of the main program's steps and of everything that happened on the bus, and it explains every answer given; all run results above therefore hold of the driver |
| Descriptors.FirstMatchIsFirst | doc/walac-pyusb-7a1ce1e/usb/core.py:622-632 | the search through Configuration.__iter__ finds a place exactly if it matches and nothing before it does |
| Descriptors.SearchUnderFaults | doc/walac-pyusb-7a1ce1e/usb/core.py:622-632 | with failing descriptor reads, which the iteration takes for the end of the alternate settings, it still finds the first match exactly if the settings of its interface are readable up to it |
| Descriptors.FaultHidesFirst | doc/walac-pyusb-7a1ce1e/usb/core.py:622-632 | a device for which a failing read makes the search answer with another endpoint |
| Descriptors.EndpointFound | doc/walac-pyusb-7a1ce1e/usb/core.py:220-231 | the search returns the first endpoint with the address in the place found, and finds none only if no setting has the address, if all could be read |
| Descriptors.InterfaceFound | doc/walac-pyusb-7a1ce1e/usb/core.py:186-204 | the interface found has the number and, if given, the setting asked for, and none is missed if all could be read |
| Descriptors.FindConfiguration | doc/walac-pyusb-7a1ce1e/usb/util.py:164-190 | the first configuration with the given bConfigurationValue, or none if there is none |
| ResourceManager.Drive | doc/walac-pyusb-7a1ce1e/usb/core.py:107-264 | over every sequence of operations with any failing backend calls and descriptor reads: every call used the open handle in order, recorded claims are claims of the backend (all of them if nothing failed), a cached index names the configuration in force, and each cached endpoint is what a fresh search finds first exactly if the entries were made while the descriptors up to the right answer could be read |
| ResourceManager.Manager.ManagedOpen | doc/walac-pyusb-7a1ce1e/usb/core.py:117-121 | opens only if no handle is open; a failure changes nothing |
| ResourceManager.Manager.ManagedClose | doc/walac-pyusb-7a1ce1e/usb/core.py:123-127 | closes an open handle, and a failure leaves it open; the record stays right exactly if no interface is on it, as is the case where dispose calls it |
| ResourceManager.Manager.AgreesIff | doc/walac-pyusb-7a1ce1e/usb/core.py:220-231 | the endpoint cache agrees with a fresh search exactly if each entry was made while the descriptors up to the first match could be read |
| ResourceManager.Manager.ManagedSetConfiguration | doc/walac-pyusb-7a1ce1e/usb/core.py:129-155 | sets index and device together and empties the endpoint cache; value 0 clears the index; every error leaves index, cache and device as they were |
| ResourceManager.Manager.ManagedClaimInterface | doc/walac-pyusb-7a1ce1e/usb/core.py:157-168 | claims once, records exactly the successful claims |
| ResourceManager.Manager.ManagedReleaseInterface | doc/walac-pyusb-7a1ce1e/usb/core.py:170-184 | the record loses exactly this interface, even if the release fails |
| ResourceManager.Manager.ManagedSetInterface | doc/walac-pyusb-7a1ce1e/usb/core.py:186-204 | the setting selected is that of the object passed, or of the first interface the search finds, and its interface is claimed |
| ResourceManager.Manager.SetupRequest | doc/walac-pyusb-7a1ce1e/usb/core.py:206-218 | success means an endpoint of the active configuration with this address, the first one if descriptors are readable, and its interface claimed |
| ResourceManager.Manager.GetInterfaceAndEndpoint | doc/walac-pyusb-7a1ce1e/usb/core.py:220-231 | a cached pair is returned unchanged; otherwise the search result is cached, and the cache stays right exactly if the settings up to the first match were readable |
| ResourceManager.Manager.GetActiveConfiguration | doc/walac-pyusb-7a1ce1e/usb/core.py:233-245 | the index returned names the configuration the device is in |
| ResourceManager.Manager.ReleaseAllInterfaces | doc/walac-pyusb-7a1ce1e/usb/core.py:247-256 | nothing is on record afterwards even if every release raises |
| ResourceManager.Manager.Dispose | doc/walac-pyusb-7a1ce1e/usb/core.py:258-264 | claims are always emptied; caches are cleared unless closing fails |
| ResourceManager.Manager.Reset | doc/walac-pyusb-7a1ce1e/usb/core.py:911-918 | after a reset no claim, handle or cache of the time before is left |
| BackendProtocol.HandleOpen | doc/walac-pyusb-7a1ce1e/usb/core.py:117-127 | what an orderly log means: a handle is open exactly if it was opened and not closed since |
| BackendProtocol.HandleInUse | doc/walac-pyusb-7a1ce1e/usb/core.py:117-264 | every call but an open uses a handle opened before and not closed since |
| BackendProtocol.ClaimsAlternate | doc/walac-pyusb-7a1ce1e/usb/core.py:157-184 | between two claims of an interface there is a release |
| BackendProtocol.OpensAlternate | doc/walac-pyusb-7a1ce1e/usb/core.py:117-127 | between two successful opens the handle is closed |
| BackendProtocol.ClosedUnclaimed | doc/walac-pyusb-7a1ce1e/usb/core.py:123-127 | a handle is closed only after everything claimed has been released |
| BackendProtocol.ReleaseAfterClaim | doc/walac-pyusb-7a1ce1e/usb/core.py:157-184 | only interfaces claimed and not released since are released |
| PinModel.RunKeepsModes | doc/USB_Parallel/parapin-1.5.1-beta1/parapin.c:127-365 | in every run that leaves the direction bit to the mode functions the masks and latches stay consistent: data pins all in one direction, always-input pins never outputs, direction bit in agreement, latches of switchable inputs high |
| PinModel.SetPinKeepsModesIff | doc/USB_Parallel/parapin-1.5.1-beta1/parapin.c:218-230 | set_pin keeps this consistency exactly if it does not turn the direction bit against output data pins |
| PinModel.ClearPinKeepsModesIff | doc/USB_Parallel/parapin-1.5.1-beta1/parapin.c:237-249 | clear_pin keeps it exactly if it does not turn the direction bit against input data pins |
| PinModel.StatusPinsThroughout | doc/USB_Parallel/parapin-1.5.1-beta1/parapin.c:127-145 | in every run that leaves the direction bit alone, bits 11 to 15 can be read and not driven |
| PinModel.StatusPinReads | doc/USB_Parallel/parapin-1.5.1-beta1/parapin.c:270-290 | they read as the outside drives them |
| PinModel.InitiallyUnconfigured | doc/USB_Parallel/parapin-1.5.1-beta1/parapin.c:127-145 | bits 0 to 7 and 16 to 19 are neither inputs nor outputs at first |
| PinModel.PseudoPins | doc/USB_Parallel/parapin-1.5.1-beta1/parapin.c:127-145 | bits 20 and 21 can be set, cleared and read at any time |
| PinModel.InputPinReads | doc/USB_Parallel/parapin-1.5.1-beta1/parapin.c:341-347 | after pin_input_mode a named bit of 16 to 19, and all of 0 to 7 if one is named, reads as the outside drives it |
| PinModel.OutputPinDrives | doc/USB_Parallel/parapin-1.5.1-beta1/parapin.c:350-356 | after pin_output_mode such a bit goes high with set_pin and low with clear_pin |
| PinModel.DrivesWhatIsWanted | doc/USB_Parallel/parapin-1.5.1-beta1/parapin.c:154-356 | over every run, a pin that stays an output and is itself not overdriven drives the level of the last set_pin or clear_pin that named it, whatever happens to other pins and whatever modes are set again |
| PinModel.SetPinPerPin | doc/USB_Parallel/parapin-1.5.1-beta1/parapin.c:218-230 | set_pin raises exactly the requested output pins |
| PinModel.ClearPinPerPin | doc/USB_Parallel/parapin-1.5.1-beta1/parapin.c:237-249 | clear_pin lowers exactly the requested output pins |
| PinModel.DataLatchClosed | doc/USB_Parallel/parapin-1.5.1-beta1/parapin.c:154-164 | although the data register is read before it is written, its latch takes no level from outside |
| PinModel.UnaddressedPinCaptured | doc/USB_Parallel/parapin-1.5.1-beta1/parapin.c:167-207 | the control latch of a pin that is no input takes a level from outside exactly if it is high and pulled low |
| PinModel.InputModeKeepsModes | doc/USB_Parallel/parapin-1.5.1-beta1/parapin.c:297-347 | pin_input_mode turns exactly the named switchable pins, and all data pins if any is named, and keeps the data latch |
| PinModel.OutputModeKeepsModes | doc/USB_Parallel/parapin-1.5.1-beta1/parapin.c:308-356 | pin_output_mode likewise |
| PinModel.OutputModeKeepsLevel | doc/USB_Parallel/parapin-1.5.1-beta1/parapin.c:329-337 | an input turned into an output drives the level it had |
| PinModel.InputModeLeavesOutputs | doc/USB_Parallel/parapin-1.5.1-beta1/parapin.c:341-347 | other outputs do not notice pin_input_mode |
| PinModel.OutputModeLeavesOutputs | doc/USB_Parallel/parapin-1.5.1-beta1/parapin.c:350-356 | other outputs do not notice pin_output_mode |
| PinModel.OutputLevels | doc/USB_Parallel/parapin-1.5.1-beta1/parapin.c:57-60 | the electrical level of an output pin is what the library last wrote for it, as its register variables assume |
| Parapin.Library.constructor | doc/USB_Parallel/parapin-1.5.1-beta1/parapin.c:127-145 | after pin_init_internal the registers are untouched and masks and latches consistent |
| Parapin.Library.ReadRegister | doc/USB_Parallel/parapin-1.5.1-beta1/parapin.c:94-107 | reading undoes the register's inversion: the result is the electrical levels of its pins |
| Parapin.Library.WriteRegister | doc/USB_Parallel/parapin-1.5.1-beta1/parapin.c:113-120 | writing undoes the inversion likewise and touches no other register |
| Parapin.Library.SetPin | doc/USB_Parallel/parapin-1.5.1-beta1/parapin.c:218-230 | the register code changes the latches as the per-pin model says |
| Parapin.Library.ClearPin | doc/USB_Parallel/parapin-1.5.1-beta1/parapin.c:237-249 | likewise for clearing |
| Parapin.Library.PinIsSet | doc/USB_Parallel/parapin-1.5.1-beta1/parapin.c:270-290 | exactly the electrically high pins among those requested and readable |
| Parapin.Library.PinInputMode | doc/USB_Parallel/parapin-1.5.1-beta1/parapin.c:341-347 | the register code changes masks and latches as the per-pin model says |
| Parapin.Library.PinOutputMode | doc/USB_Parallel/parapin-1.5.1-beta1/parapin.c:350-356 | likewise for output mode |
| Ftdi.NearestDivisor | doc/walac-pyusb-7a1ce1e/tools/vcp_terminal.py:601-604 | the nested floors give the integer nearest to 24000000/baud, for every baud but 0 |
| Ftdi.RoundingBoundIff | doc/walac-pyusb-7a1ce1e/tools/vcp_terminal.py:601-606 | the chosen divisor meets the rounding bound exactly from 184 baud on |
| Ftdi.LimitNeverMet | doc/walac-pyusb-7a1ce1e/tools/vcp_terminal.py:605-606 | no integer rate meets the one divisor the limit lets through and the encoding cannot hold; every divisor chosen is at least 16 |
| Ftdi.AccurateIff | doc/walac-pyusb-7a1ce1e/tools/vcp_terminal.py:591-611 | for which positive rates, exactly, the reported rate is within baud/32 + 1/2 of the request |
| Ftdi.ClkbitsRoundTrip | doc/walac-pyusb-7a1ce1e/tools/vcp_terminal.py:591-617 | for every positive rate value is below 65536, index 0 or 1, and both decode to the chosen divisor |
| Ftdi.DecodedEncodedIff | doc/walac-pyusb-7a1ce1e/tools/vcp_terminal.py:610-617 | decoding undoes the permuted encoding exactly for the divisors other than 0, 8 and the limit |
| Ftdi.NearestEncodable | doc/walac-pyusb-7a1ce1e/tools/vcp_terminal.py:601-617 | below the fast rates the divisor in the control words is the nearest to the request that the encoding can hold, the limit included |
| Ftdi.FastRates | doc/walac-pyusb-7a1ce1e/tools/vcp_terminal.py:591-600 | from 1500000 on the rate is the fastest of 1500000, 2000000 and 3000000 that is not above the request, and its code decodes to exactly that rate |
| Ftdi.DocumentedSettings | doc/walac-pyusb-7a1ce1e/tools/vcp_terminal.py:577-590 | the rates documented with their control bytes get these |
| Ftdi.SpecialCodesIff | doc/walac-pyusb-7a1ce1e/tools/vcp_terminal.py:591-600 | codes 0 and 1 come exactly from the first two branches |
| Ftdi.ReportedRateIsDecodedRate | doc/walac-pyusb-7a1ce1e/tools/vcp_terminal.py:591-617 | the reported rate is the one nearest to what the two control words tell the hardware |
| Ftdi.DivisorNeverGrows | doc/walac-pyusb-7a1ce1e/tools/vcp_terminal.py:591-617 | across all branches a faster request never decodes to a larger divisor |
| Ftdi.FailsIff | doc/walac-pyusb-7a1ce1e/tools/vcp_terminal.py:601-609 | division by zero exactly for 0 and for rates of -48000000 and below |
| IsoPackets.TilingCovers | doc/walac-pyusb-7a1ce1e/usb/backend/libusb1.py:645-696 | the packet lengths are positive, at most the packet size, sum to the buffer length, and only the last may be short |
| IsoPackets.TilingShape | doc/walac-pyusb-7a1ce1e/usb/backend/libusb1.py:688-696 | the overwriting loop's result is this tiling: full packets, the last one the remainder if there is one |
| IsoPackets.PacketCountIs | doc/walac-pyusb-7a1ce1e/usb/backend/libusb1.py:646-649 | the ceiling of the quotient is the number of packets of the tiling |
| IsoPackets.IsoTransferHandler.constructor | doc/walac-pyusb-7a1ce1e/usb/backend/libusb1.py:646-665 | a new transfer's descriptors are the tiling of its buffer |
| IsoPackets.IsoTransferHandler.SetPacketsLength | doc/walac-pyusb-7a1ce1e/usb/backend/libusb1.py:688-696 | all lengths full, the last the remainder; nothing on an empty list |
| IsoPackets.TransferredAtMost | doc/walac-pyusb-7a1ce1e/usb/backend/libusb1.py:684-686 | the reported total is at most the buffer, and equal exactly if every packet was full |
| PartialTransfer.LibUsb.IsoTransfer | doc/walac-pyusb-7a1ce1e/usb/backend/libusb0.py:631-662 | terminates; one setup, rounds, one attempt to free; the result is the sum of the reaped counts, at most the length; an error of submit or reap is raised only if nothing was transferred; an error of free hides everything else |
| PartialTransfer.LibUsb.TransferRounds | doc/walac-pyusb-7a1ce1e/usb/backend/libusb0.py:642-655 | the loop submits what is left at the offset reached, and ends complete, at an empty reap or at the first error |
| PartialTransfer.RoundsAreConsecutive | doc/walac-pyusb-7a1ce1e/usb/backend/libusb0.py:643-655 | round k starts at the sum of the counts before it and asks for all that is left |
| PartialTransfer.TransferredOnce | doc/walac-pyusb-7a1ce1e/usb/backend/libusb0.py:643-655 | every transferred item lies in exactly one round |
| ZenaModel.GetFragment | doc/zena-0.4.3.c:350-407 | reassembly undoes fragmentation for every frame up to 129 bytes and takes no report of the next one |
| ZenaModel.GetQuiet | doc/zena-0.4.3.c:326-336 | a first transfer that fails is reported as a timeout or as -2 |
| ZenaModel.AcceptedIs | doc/zena-0.4.3.c:714-727 | accepted are the lengths 2 to 127 whose last byte meets the mask 80 |
| ZenaModel.FileHeaderFields | doc/zena-0.4.3.c:592-601 | magic, version, snapshot length 128 and link type 195 are where a reader looks for them |
| ZenaModel.ReadsAsIff | doc/zena-0.4.3.c:729-748 | a file reads as a sequence of records exactly if it is what writing them gives |
| ZenaModel.ReaderSeesAcceptedFrames | doc/zena-0.4.3.c:315-748 | from fragments through reassembly, filter and file, a reader recovers exactly the accepted frames in order, with their times |
| ZenaModel.CaptureIsGood | doc/zena-0.4.3.c:703-748 | over every run of frames, failing transfers between them, and frames cut off by a failing transfer, the records are those of the whole frames with length 2 to 127 and a good checksum mark |
| ZenaModel.StraysUnnoticedIff | doc/zena-0.4.3.c:315-410 | stray reports, in any number, go unnoticed whatever follows on the air exactly if they come out even when read as frames and none of these is accepted |
| ZenaModel.OneStray | doc/zena-0.4.3.c:344-362 | a single one is harmless exactly if it announces more than 129 bytes, or holds all of a frame that is not accepted; between 59 and 129 it swallows reports of the next frames |
| ZenaModel.LateReportsIff | doc/zena-0.4.3.c:361-400 | a frame of which a transfer fails, its other reports arriving late, costs no more than itself exactly if those are harmless |
| ZenaModel.LateReportMistaken | doc/zena-0.4.3.c:361-400 | every frame of 70 bytes with two certain bytes in its second report, from which a frame never sent is then recorded |
| ZenaModel.RecordsFitSnapshot | doc/zena-0.4.3.c:715-746 | every record respects the snapshot length of the file header |
| Zena.MaskedLength | doc/zena-0.4.3.c:714-721 | mask and bound accept exactly data lengths 2 to 127 |
| Zena.Sniffer.GetPacket | doc/zena-0.4.3.c:315-410 | the copies rebuild the frame in the structure for every length up to 129 without leaving it; status bytes and length describe the frame |
| Zena.Sniffer.DescribesMeans | doc/zena-0.4.3.c:404-407 | the structure holds the frame, its length without the status bytes, the signal strength, the link quality in seven bits and the checksum mark |
| Zena.Sniffer.CapturePacket | doc/zena-0.4.3.c:703-748 | one turn of the loop appends exactly the record of an accepted frame, else nothing |
| Zena.Sniffer.CaptureAll | doc/zena-0.4.3.c:703-748 | the loop writes exactly the records of the whole run |

## Left out

- UsbRuns.BytesConserved: assumes that no descriptor has a length of 255 modulo 256, the sentinel in one byte; such a one would be read from RAM at its flash address (SentinelDescriptor). While a reply from RAM is being sent, the application must not change that RAM outside its callbacks; this is its obligation and not the driver's.
- UsbHost.ControlReadCorrect: packets are not lost or damaged on the bus, as the driver itself assumes.
- UsbDriver.Driver.Poll: the branch that stalls after an overlong read cannot be reached without usbFunctionRead.
- PinModel.DrivesWhatIsWanted: levels outside stay the same during one call of the library.
- IsoPackets.PacketCountIs: float division and ceiling are exact, as they are for lengths a buffer can have.
- ZenaModel.ReaderSeesAcceptedFrames: after a transfer fails within a frame its other reports are lost, and frames have at most 129 bytes; StraysUnnoticedIff says what the reports of other frames do.
- V-USB: the assembler routine is a set of environment steps (a packet is refused while one is unprocessed, empty ones are dropped, a sent buffer is freed), the CRC a function parameter; device address, reset hooks, line sampling, port setup and debug macros are absent.
- V-USB: application callbacks point usbMsgPtr into their RAM, never into the transmit buffer.
- V-USB: endpoint halt, usbFunctionRead, flow control, long transfers and endpoint 3 are switched off in the shipped configuration.
- PyUSB: locks, finalizers, logging, ctypes structures, library loading, the other backends and the legacy interface; a failing call is taken to have had no effect on the device.
- PyUSB: decoding of UTF-16 surrogates; strings are sequences of 16 bit units.
- PyUSB: reading configuration descriptors never fails, only interface descriptors may; passing on an interface that was not found is a type error.
- libusb1: a length counts items of one byte, and a failed query of the packet size is not modelled.
- parapin: platform code, interrupts, ioperm, the kernel module, change_pin, pin_mode and the language bindings.
- vcp_terminal: everything but the divisor.
- zena: USB calls, options, channel control, the hex format, short reports, the branch that writes frames with a bad checksum, and the meaning of the mask 80 (copied as it is).
- The raw HID example, the DLO plugins, parashell and the Factor files are plumbing or unfinished.
