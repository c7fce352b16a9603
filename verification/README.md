# A verified model of the ESP32 Wi-Fi manager

The library joins saved Wi-Fi networks, serves a provisioning portal over a
SoftAP, speaks the Improv protocol over serial and BLE, runs Espressif's BLE
provisioning, and keeps its network list in flash. This project models its state
machines, codecs and in-place algorithms and proves what they are for.

Code that changes fields or arrays step by step is a class or a method with loops,
proved against a function; what the program promises is then proved about that
function, over every run of events where the promise is about runs.

| module | what is modelled |
|---|---|
| `JsonWriter`, `Decimal` | the streaming JSON writer: bounded buffer, sink, latched error, depth |
| `JsonPrinter` | the unbuffered printer it must agree with |
| `JsonText`, `JsonRoundTrip` | a parser for RFC 8259 and the print/parse round trip |
| `JsonResponse` | answering with a tree, end to end |
| `JsonDepth`, `JsonAccepted` | the nesting scanner for request bodies, against that parser and the writer |
| `UriDecode` | percent-decoding of path segments |
| `ImprovSerial` | serial framing: sender, checksum, byte-at-a-time receiver |
| `ImprovRpc` | packing scan results for BLE and serial |
| `ImprovSettings` | the settings command and its deferred answer |
| `NetworkSort`, `NetworkStore` | the sorted network list and its flash copy across reboots |
| `ScanDedupe` | merging scan results by name, in place |
| `Backoff` | the backoff delay and its deadline in 32-bit arithmetic |
| `ConnectSequence` | which networks are tried, in which order, how often |
| `Station` | connection state, suppression, scheduled reconnects, reconnect limit |
| `SoftAp` | the access-point flag, the driver's mode, re-assertion |
| `ProvBle` | the lifecycle of BLE provisioning: durable credentials, queued restarts |
| `Srp6a` | the Python SRP-6a client against the server side of RFC 5054 |

## Assumptions

- Every driver report, API call, and iteration of the manager task is one atomic
  step. A connect sequence runs inside the iteration that starts it; the driver
  reports that arrive meanwhile are part of it.
- The message queue keeps order and loses nothing. The real one holds ten messages
  and drops the rest.
- Flash writes and allocations succeed. Handles are open and the context exists.
- Characters of the JSON and URI code are C bytes. C strings hold no NUL.
- The BLE provisioning manager's events may come in any order, a START without an
  initialised manager included.
- The ESP-IDF build of the BLE code is meant, not the Arduino one.
- Clock values and tick rates, random numbers, what the driver answers and how foreign calls turn
  out are parameters, and nothing is assumed about them except where a contract
  says so.
- The manager's access-point half (`SoftAp`) and station half (`Station`) are two
  machines, each seeing the other's messages as messages it ignores.
- The hash of SRP-6a is an arbitrary function with non-empty digests; the modulus
  is any number above the generator, prime or not.

## Where code and comments disagree

The code is followed; each of these is stated as a lemma.

- `wifi_cfg_start_provisioning` re-asserts the AP before it marks provisioning as
  active, and re-asserting does nothing while it is not, so that call never acts
  (`ReassertAtStartIsIdle`). The AP is brought back by the queued AP_STOPPED
  message, if its mode can be read then (`ApComesBack`).
- A stop of BLE provisioning is meant to be final. It is exactly when no restart is
  queued or pending once it returns and none can become pending (`StopIsFinalIff`).
  A message already queued survives it (`QueuedAtStopIsReachable`), and a stop that
  comes when the session is over is not even recorded (`IgnoredStopIsReachable`,
  `PendingAtStopIsReachable`).
- A set flag when AP_STOPPED is handled is taken to mean that the teardown came from
  outside. It is also set when an AP_STARTED older than the library's own stop was
  still queued, and then that stop is undone (`StopUndoneIff`, `QuickStopIsUndone`).
- A session key is meant to be available only after the server has proved itself, but
  answering another challenge replaces the key without clearing the flag. The new key
  is handed out although the server has not proved itself for it, unless it confirmed
  a challenge with the same secret before (`AnswerProvenIff`, `KeyAcceptedIff`,
  `UnprovenKeyIsHandedOut`).
- The serial header matcher consumes the byte that breaks a match, so a frame whose
  `I` follows a stray `I` is lost (`DeliveredIffAtStart`, `StrayByteLosesFrame`).
- `connected_ssid` keeps 31 characters, and the driver event handler compares it
  with the full name, so for a 32-character name the connected bit is cleared only
  when the task handles the message (`LongNameBitLags`).
- The wrap check of the backoff misses a wrap that lands between the base interval
  and the cap (`DelayExactIff`, `UnseenWrap`). The retry counter is not bounded
  either, and a shift of 32 or more has no defined value in C; the bounds of
  `DelayWithinBounds` hold whatever it yields.
- The stored element count is one byte, so 256 networks or more would not be loaded
  back (`LoadAfterSave`).

## Model

| member | source | states |
|---|---|---|
| JsonPrinter.EscapedConcat | src/esp_wifi_config_json.c:44-92 | escaping a string piece by piece, wherever it is cut, equals escaping it whole |
| JsonPrinter.EscapedPlain | src/esp_wifi_config_json.c:44-92 | a run of ordinary characters is its own escaped form, so writing it in one piece is right |
| JsonPrinter.EscapesExactly | src/esp_wifi_config_json.c:44-92 | exactly quote, backslash and control characters are escaped, seven of them by two characters and the others by six |
| JsonPrinter.NullIsEmpty | src/esp_wifi_config_json.c:188-194 | a null string is written as an empty one |
| JsonPrinter.PrintConcat | src/esp_wifi_config_json.c:125-210 | printing calls in two batches equals printing them in one |
| JsonPrinter.BrokenIffDepthLeft | src/esp_wifi_config_json.c:138-166 | a call is refused if and only if the nesting leaves 0 to 8 at some point; otherwise the final depth is opens minus closes |
| JsonWriter.Writer.constructor | src/esp_wifi_config_json.c:170-181 | a fresh writer agrees with the printer on no calls; an empty buffer is an error |
| JsonWriter.Writer.Raw | src/esp_wifi_config_json.c:7-34 | the text advances by exactly the bytes given, through any number of flushes; a failed writer takes nothing more |
| JsonWriter.Writer.Flush | src/esp_wifi_config_json.c:19-26 | the whole buffer goes to the sink as one chunk; a refusal is latched and no text is lost or repeated |
| JsonWriter.Writer.Copy | src/esp_wifi_config_json.c:27-32 | the buffer is filled with the next bytes of the string, as many as there is room for |
| JsonWriter.Writer.EscapedText | src/esp_wifi_config_json.c:44-92 | run-based escaping writes exactly the per-byte escaping; a null string writes nothing |
| JsonWriter.SignedDigits | src/esp_wifi_config_json.c:99-122 | the digit loop gives the decimal text of every int64, the least one included |
| JsonWriter.LowDigitsFirst | src/esp_wifi_config_json.c:110-116 | the digits of the magnitude come out reversed, and at most twenty |
| JsonWriter.Writer.IntegerText | src/esp_wifi_config_json.c:99-122 | the decimal text of the number is appended |
| JsonWriter.Writer.Pre | src/esp_wifi_config_json.c:125-136 | a comma exactly when one is owed, then the escaped key and a colon if there is one |
| JsonWriter.Writer.Open | src/esp_wifi_config_json.c:138-151 | the writer stays in agreement with the printer over the calls so far, with the opening refused at depth 8 |
| JsonWriter.Writer.Close | src/esp_wifi_config_json.c:153-166 | as above for closing, refused at depth 0; the bracket is the one asked for, matching or not |
| JsonWriter.Writer.Str | src/esp_wifi_config_json.c:188-194 | as above for a string value |
| JsonWriter.Writer.Int | src/esp_wifi_config_json.c:196-200 | as above for an integer value |
| JsonWriter.Writer.Bool | src/esp_wifi_config_json.c:202-210 | as above for a boolean value |
| JsonWriter.Writer.Finish | src/esp_wifi_config_json.c:212-235 | for every buffer size and sink: no chunk is empty, the chunks are a prefix of the printed text and all of it on success; success in buffer mode if and only if the containers balance within the depth limit and text plus NUL fit |
| JsonWriter.BodyIsAllChunks | src/esp_wifi_config_http.c:91-114 | non-empty chunks and a final empty one are reassembled as the whole text (section 7.1 of RFC 9112) |
| JsonWriter.ResponseEnd | src/esp_wifi_config_http.c:104-114 | the client reassembles a body if and only if the server takes the closing chunk; it is a prefix of the printed text, and all of it when the call succeeds; the call succeeds if and only if there is a buffer, the containers balance and the server takes every chunk |
| Decimal.DecReadsBack | src/esp_wifi_config_json.c:99-122 | decimal text is digits only, has no leading zero, and reads back as the number |
| Decimal.DecInjective | src/esp_wifi_config_nvs.c:80-82 | different indices have different decimal texts |
| JsonRoundTrip.DrivePrints | src/esp_wifi_config_json.c:125-210 | driving the writer over a tree appends exactly its text, with commas right in every position, and restores the depth |
| JsonRoundTrip.ValueReadsBack | src/esp_wifi_config_json.c:44-210 | the text of a value, anywhere in a document, parses to the value and ends where it ends |
| JsonRoundTrip.RoundTrip | src/esp_wifi_config_json.c:138-210 | every tree of objects, arrays, NUL-free strings, int64 and booleans nested at most 8 deep prints to a text that parses back to the same tree, and the writer ends balanced |
| JsonRoundTrip.TooDeepIsRefused | src/esp_wifi_config_json.c:141-144 | a tree that would pass depth 8 is refused, so the bound of the round trip is exact |
| JsonRoundTrip.WrittenIffShallow | src/esp_wifi_config_json.c:138-151 | a tree is written in full if and only if it nests at most 8 deep |
| JsonResponse.Write | src/esp_wifi_config_json.c:138-210 | driving a writer over a tree makes exactly the calls of the round trip |
| JsonResponse.Respond | src/esp_wifi_config_http.c:94-114 | for every tree at most 8 deep, every buffer and every server: success if and only if there is a buffer and every chunk is taken, and then the client's body parses to the tree |
| JsonResponse.Store | src/esp_wifi_config_json.c:212-235 | into a buffer: success if and only if the compact text and its NUL fit, and then the buffer holds a text that parses to the tree |
| JsonDepth.WithinLimit | src/esp_wifi_config_http.c:256-300 | the loop with its skipped escapes decides what the per-character scanner decides, on any bytes |
| JsonDepth.ScanValue | src/esp_wifi_config_http.c:256-300 | over a well-formed value the scanner returns to its depth, or rejects exactly when depth plus nesting passes 16 |
| JsonDepth.ScanExact | src/esp_wifi_config_http.c:256-300 | a well-formed JSON text, whatever its strings contain, is accepted if and only if it nests at most 16 deep |
| JsonAccepted.ScanCall | src/esp_wifi_config_http.c:256-300 | one accepted writer call moves the scanner's depth exactly as the writer's |
| JsonAccepted.WriterTextAccepted | src/esp_wifi_config_json.c:138-166 | whatever calls are made, matched or not, the scanner accepts the text and agrees with the writer's depth |
| UriDecode.EncodesIffDecodes | src/esp_wifi_config_uri.h:55-87 | a segment decodes completely to a name if and only if it is an encoding of it, with any choice of escaped bytes and hex case |
| UriDecode.NamesStayDistinct | src/esp_wifi_config_uri.h:48-50 | no segment encodes two names |
| UriDecode.NoNul | src/esp_wifi_config_uri.h:65-75 | no decoding contains a NUL |
| UriDecode.ComponentEncodes | frontend/src/api/client.ts:38-39 | what the Web UI's encodeURIComponent makes of a name is an encoding of it |
| UriDecode.Decode | src/esp_wifi_config_uri.h:55-87 | OK if and only if the segment decodes completely to a non-empty name that fits, which is then in the buffer with its NUL; the exact condition of each other result; never a truncated name |
| ImprovSerial.Checksum | src/esp_wifi_config_improv.h:117-124 | the loop computes the sum of the bytes modulo 256 |
| ImprovSerial.SumOne | src/esp_wifi_config_improv.h:117-124 | the checksum of one byte is that byte |
| ImprovSerial.SumIsAdditive | src/esp_wifi_config_improv.h:117-124 | the checksum of a whole is the sum, modulo 256, of those of its parts, wherever it is cut |
| ImprovSerial.FrameLayout | src/esp_wifi_config_improv_serial.c:56-112 | the printed frame byte by byte |
| ImprovSerial.SendPacket | src/esp_wifi_config_improv_serial.c:56-112 | a packet becomes header, version, type, length, data, checksum, or nothing when it is too long or the port is not up |
| ImprovSerial.StepCases | src/esp_wifi_config_improv_serial.c:169-270 | each byte either extends the pending frame, completes one with a correct checksum, or drops it |
| ImprovSerial.DeliveriesAreFrames | src/esp_wifi_config_improv_serial.c:160-270 | soundness: in any byte stream the packets dispatched are complete, correctly summed, contiguous, non-overlapping frames of it, in order |
| ImprovSerial.FrameIsDelivered | src/esp_wifi_config_improv_serial.c:160-270 | a frame read from header index 0 is dispatched when its last byte arrives and leaves the automaton at index 0 |
| ImprovSerial.AllFramesDelivered | src/esp_wifi_config_improv_serial.c:56-270 | completeness: any frames separated by noise without the byte I are dispatched exactly once each, in order, and nothing else is |
| ImprovSerial.HeaderFoundIffFromZero | src/esp_wifi_config_improv_serial.c:183-196 | six header bytes are recognised if and only if matching started at index 0 |
| ImprovSerial.DeliveredIffAtStart | src/esp_wifi_config_improv_serial.c:160-270 | from every state a run can be in, a printed frame that comes next is dispatched if and only if the automaton is at header index 0 |
| ImprovSerial.StrayByteLosesFrame | src/esp_wifi_config_improv_serial.c:183-196 | for every packet and every byte before a first frame: the frame is lost if and only if the byte is I |
| ImprovSerial.Receiver.OnByte | src/esp_wifi_config_improv_serial.c:160-270 | the task's variables and buffer follow the automaton, byte by byte, and the packet handed on is the automaton's |
| ImprovRpc.StringsReadBack | src/esp_wifi_config_improv.c:45-56 | any list of strings shorter than 256 bytes survives length-prefixed packing |
| ImprovRpc.AppendTlv | src/esp_wifi_config_improv.c:45-56 | the string is appended whole if and only if it fits; otherwise nothing changes |
| ImprovRpc.EncodedReadsBack | src/esp_wifi_config_improv.c:289-388 | a client reads name, strength and security of every packed network, in order |
| ImprovRpc.TripleSays | src/esp_wifi_config_improv.c:273-343 | the three strings are the name, a decimal number that reads back as the strength, and a text that tells all security modes apart but unknown ones from WPA2 |
| ImprovRpc.PackSingle | src/esp_wifi_config_improv.c:332-370 | the payload is exactly the encoding of the longest leading part of the list that fits the budget |
| ImprovRpc.LongestFitIsLongest | src/esp_wifi_config_improv.c:364 | a leading part fits the budget if and only if it is no longer than the one sent |
| ImprovRpc.SingleReadsBack | src/esp_wifi_config_improv.c:364-385 | nothing is cut mid-string: a client reads the triples of the networks sent and nothing else |
| ImprovRpc.PackChunked | src/esp_wifi_config_improv.c:345-385 | one response per network with exactly the strings that fit in turn, then one with no strings |
| ImprovRpc.KeptAllIff | src/esp_wifi_config_improv.c:45-56 | the strings that fit in turn never exceed the room, and are all of them if and only if all fit together |
| ImprovRpc.ChunkReadsBack | src/esp_wifi_config_improv.c:345-357 | a client reads exactly those strings, whole, and all three if and only if the network fits the budget |
| ImprovRpc.GetWifiNetworks | src/esp_wifi_config_improv.c:289-388 | the two response styles; a single response leaves a network out only when 255 bytes or the transport's limit cannot hold it |
| ImprovRpc.BleFrameValid | src/esp_wifi_config_improv_ble.c:701-724 | accepts exactly the complete frames whose last byte is the sum of the others |
| ImprovRpc.AnswerScanOverBle | src/esp_wifi_config_improv_ble.c:643-757 | for every scan and MTU the result is a valid frame, at most MTU-3 bytes, that reads back as the networks sent, and one more would exceed the format or the link |
| ImprovRpc.SendAll | src/esp_wifi_config_improv_serial.c:126-133 | a receiver gets every response sent over serial, once and in order |
| ImprovRpc.AnswerScanOverSerial | src/esp_wifi_config_improv.c:345-385 | for every scan each network arrives in a response of its own, then the empty one, and none exceeds a frame |
| ImprovSettings.SettingsReadBack | src/esp_wifi_config_improv.c:161-200 | what a client encodes is what is stored, whatever bytes follow, cut to 32 and 63 bytes |
| ImprovSettings.RefusedIffMalformed | src/esp_wifi_config_improv.c:161-190 | the command is refused if and only if its data does not begin with two length-prefixed strings |
| ImprovSettings.Core.SendWifiSettings | src/esp_wifi_config_improv.c:161-215 | a malformed command only sets the error; a good one is handed on and its sender waits |
| ImprovSettings.Core.OnGotIp | src/esp_wifi_config_improv.c:444-466 | a client is answered if and only if its command is the last thing that happened, so never twice and never after a failure |
| ImprovSettings.Core.OnDisconnected | src/esp_wifi_config_improv.c:468-477 | a waiting client is dropped and the failure reported; otherwise nothing changes |
| ImprovSettings.Core.Start | src/esp_wifi_config_improv.c:528-534 | state and error are reset; the waiting client no longer counts |
| NetworkSort.BubblePass | src/esp_wifi_config_network.c:21-30 | one pass settles one more slot and keeps every class of equal priority in order |
| NetworkSort.SortByPriority | src/esp_wifi_config_network.c:16-31 | the array prefix becomes its stable descending sort; the rest is untouched |
| NetworkSort.SwapKeepsClasses | src/esp_wifi_config_network.c:22-28 | exchanging neighbours of different priority disturbs no class |
| NetworkSort.StableSortSorts | src/esp_wifi_config_network.c:16-31 | the reference is descending and a permutation |
| NetworkSort.StableSortIsStable | src/esp_wifi_config_network.c:16-31 | networks of equal priority keep their order |
| NetworkSort.StableSortUnique | src/esp_wifi_config_network.c:16-31 | there is only one stable descending order |
| NetworkStore.BlobKeysDistinct | src/esp_wifi_config_nvs.c:80-82 | prefix plus decimal index names different elements differently |
| NetworkStore.BlobKeyIsNoOther | src/esp_wifi_config_nvs.c:97-125 | no element key is the count key or a key of another store |
| NetworkStore.BlobKeyFits | src/esp_wifi_config_nvs.c:113-115 | every element key fits the flash's key length |
| NetworkStore.SaveBlobs | src/esp_wifi_config_nvs.c:97-125 | the loop leaves the count and every element in flash, older blobs beyond them included |
| NetworkStore.LoadBlobs | src/esp_wifi_config_nvs.c:57-95 | the loop loads the readable blobs below the stored count, up to the array's size |
| NetworkStore.LoadAfterSave | src/esp_wifi_config_nvs.c:57-125 | what was saved last is what loads, despite stale blobs, if and only if there are fewer than 256 elements |
| NetworkStore.SaveTouchesOnlyNetworks | src/esp_wifi_config_nvs.c:97-125 | saving networks changes no other entry |
| NetworkStore.Lookup | src/esp_wifi_config_network.c:228-244 | the list read as a map: an SSID is bound exactly to the one entry that carries it |
| NetworkStore.SameElementsSameMap | src/esp_wifi_config_network.c:16-31 | duplicate-free lists that are permutations of each other are the same map |
| NetworkStore.DoRefinesMap | src/esp_wifi_config_network.c:151-226 | each operation has the result and effect it has on a bounded map, and memory stays a permutation of what flash would load |
| NetworkStore.RunRefinesMap | src/esp_wifi_config_network.c:151-226 | any run of add, update, remove, sort, factory reset and reboot behaves as the bounded map, as long as the defaults have distinct names where a reboot falls back on them |
| NetworkStore.RebootKeepsIff | src/esp_wifi_config.c:328-341 | a reboot keeps the contents if and only if there are some or there are no defaults |
| NetworkStore.BootDistinctIff | src/esp_wifi_config.c:328-341 | names are distinct after boot if and only if flash held networks or the defaults that fit are distinct |
| NetworkStore.DefaultsAreFound | src/esp_wifi_config.c:328-341 | booting on an empty flash, every default that fits is found under its name, and survives the next boot |
| NetworkStore.FactoryResetErases | src/esp_wifi_config_nvs.c:257-273 | a factory reset leaves no entry of any store |
| NetworkStore.Store.constructor | src/esp_wifi_config.c:328-341 | on any flash and any defaults: the list after boot is what flash holds, or else the defaults, saved at once; it is a map if and only if its names differ |
| NetworkStore.Store.Boot | src/esp_wifi_config.c:328-341 | loading, and copying in as many defaults as fit when nothing was loaded |
| NetworkStore.Store.Add | src/esp_wifi_config_network.c:151-181 | the array and flash change as the specification says, errors included |
| NetworkStore.Store.Update | src/esp_wifi_config_network.c:183-202 | as above |
| NetworkStore.Store.Remove | src/esp_wifi_config_network.c:204-226 | as above, by shifting the later entries down |
| NetworkStore.ShiftDown | src/esp_wifi_config_network.c:210-217 | the slot's entry is gone and all others keep their order |
| NetworkStore.Store.Sort | src/esp_wifi_config_network.c:16-31 | memory is sorted, flash is not rewritten |
| NetworkStore.Store.FactoryReset | src/esp_wifi_config.c:1187-1208 | memory and flash end up empty |
| NetworkStore.Store.Reboot | src/esp_wifi_config.c:328-341 | memory is reloaded from flash, falling back on any defaults; the list stays a map if and only if its names differ |
| NetworkStore.Store.Get | src/esp_wifi_config_network.c:228-244 | a record is returned if and only if the map has the name, and it is the map's |
| NetworkStore.Store.List | src/esp_wifi_config_network.c:246-260 | the leading networks, as many as there are or the caller has room for |
| ScanDedupe.AbsorbDuplicates | src/esp_wifi_config_network.c:387-399 | one outer step: the entry takes the strongest reading of its name and every later duplicate is shifted out, the others keeping their order |
| ScanDedupe.Dedupe | src/esp_wifi_config_network.c:379-402 | the nested in-place loops end and leave exactly the reference result |
| ScanDedupe.StrongestIsFirstMax | src/esp_wifi_config_network.c:389-395 | the entry kept carries the maximum strength of its name and the security of the first scan entry that reaches it |
| ScanDedupe.EntriesAreFirstMax | src/esp_wifi_config_network.c:379-402 | the same for every entry of the result, over the whole input |
| ScanDedupe.NamesInOrder | src/esp_wifi_config_network.c:379-402 | names come out in order of first occurrence |
| ScanDedupe.NamesKeptOnce | src/esp_wifi_config_network.c:379-402 | the same set of names, pairwise distinct |
| ScanDedupe.OrderKept | src/esp_wifi_config_network.c:379-402 | a list ordered strongest first stays so |
| Backoff.DelayWithinBounds | src/esp_wifi_config_network.c:38-52 | whatever the shift yields, the delay lies between min(base, max) and max |
| Backoff.DelayExactIff | src/esp_wifi_config_network.c:38-52 | the delay is min(base times 2^retry, max) if and only if the shift does not wrap into [base, max) |
| Backoff.DelayExact | src/esp_wifi_config_network.c:38-52 | it is, for every retry below 32, when base times max fits 32 bits |
| Backoff.WrappedIsMultiple | src/esp_wifi_config_network.c:43-46 | a wrapped shift is zero or at least 2^retry |
| Backoff.UnseenWrap | src/esp_wifi_config_network.c:43-48 | an input whose wrap the check misses |
| Backoff.DueIff | src/esp_wifi_config.c:1083-1084 | the signed tick comparison is right across wrap-around, and the queue timeout is the time left |
| Backoff.FiresAtFirstCheckAfter | src/esp_wifi_config.c:782-1084 | over any series of checks less than 2^31 ticks apart, the retry fires at the first one at or after its deadline and at none before |
| ConnectSequence.ScheduleAt | src/esp_wifi_config_network.c:83-98 | attempt number i times m plus j of the plan goes to network i |
| ConnectSequence.OutcomeMeaning | src/esp_wifi_config_network.c:97-131 | giving up if and only if every planned attempt is made in vain; success if and only if the last attempt made joined; a stop only when one was asked for there; no attempt after any of these |
| ConnectSequence.NothingAfterStop | src/esp_wifi_config_network.c:97-131 | in terms of what happens alone: no attempt follows one that joined or around which a stop was asked for, and giving up means all were made in vain |
| ConnectSequence.Sequencer.TryNetwork | src/esp_wifi_config_network.c:97-131 | the retry loop of one network takes the flat plan forward to its outcome, at most m attempts |
| ConnectSequence.Sequencer.TryAll | src/esp_wifi_config_network.c:83-132 | the nested loops issue exactly as much of the plan as its outcome says |
| ConnectSequence.Sequencer.Start | src/esp_wifi_config_network.c:54-145 | attempts follow the stable priority order; flags, pending reconnect and provisioning after each ending, in particular provisioning active when all failed in ON_FAILURE mode |
| Station.Manager.OnDriverEvent | src/esp_wifi_config.c:659-762 | for this call and those below marked so: the fields are, afterwards, what the events so far and this one lead to, so the results over runs hold of them |
| Station.Manager.Handle | src/esp_wifi_config.c:659-762 | the handlers set the bits at once and queue the message, with disconnects of other networks leaving the connected bit |
| Station.Manager.StartConnectSequence | src/esp_wifi_config_network.c:54-145 | a pending reconnect is cancelled; with a network saved every attempt clears both bits and calls connect once, and the ending sets state and flags |
| Station.Manager.HandleConnected | src/esp_wifi_config.c:836-864 | the name is recorded, at most 31 characters, and the pending reconnect dropped |
| Station.Manager.HandleGotIp | src/esp_wifi_config.c:961-984 | connected, bits set, counter cleared, pending reconnect dropped |
| Station.Manager.HandleDisconnected | src/esp_wifi_config.c:866-959 | a stale disconnect changes nothing; a current one is posted, counted when reconnecting is allowed, and restarts or schedules after the delay given |
| Station.Manager.ScheduleReconnect | src/esp_wifi_config.c:905-956 | the counter is incremented in 16 bits, and at the limit the device restarts or the count starts over |
| Station.Manager.CheckDeadline | src/esp_wifi_config.c:1083-1094 | a due reconnect is cleared and, unless suppressed or disabled, taken up |
| Station.Manager.Iterate | src/esp_wifi_config.c:768-1095 | marked as above: one iteration of the loop, a message and then the deadline; a start with no saved network leaves a pending reconnect alone |
| Station.Manager.Connect | src/esp_wifi_config_network.c:266-279 | marked as above: lifts the suppression and queues a start |
| Station.Manager.ConnectTo | src/esp_wifi_config_network.c:281-316 | marked as above: by name, one connect call unless already there or unknown |
| Station.Manager.Disconnect | src/esp_wifi_config_network.c:318-328 | marked as above: sets the suppression |
| Station.Manager.Scan | src/esp_wifi_config_network.c:336-342 | marked as above: a scan ends an attempt in progress |
| Station.DisconnectIsRespected | src/esp_wifi_config_network.c:318-328 | after a disconnect with no start queued, no run without a new request makes another connect call, armed backoffs and further disconnects included |
| Station.DisconnectMakesQuiet | src/esp_wifi_config_network.c:318-328 | a disconnect gives up an attempt under way, and establishes that condition if and only if no start is queued |
| Station.SuppressedConnectsIffStart | src/esp_wifi_config.c:795-833 | while suppressed, the task calls connect if and only if the message it takes is a start with something to try |
| Station.StaleDisconnectsHarmless | src/esp_wifi_config.c:866-892 | with a connection recorded and its name unknown, drain any number of queued disconnects, then the association and the address: no connect call is made if and only if no reconnect armed earlier comes due, with something to try, among the disconnects; then the end is connected to the clipped name with no event posted and no reconnect pending |
| Station.LongNameBitLags | src/esp_wifi_config.c:691-706 | the handler clears the connected bit for the current network if and only if its name has at most 31 characters; the task always recognises it |
| Station.CounterStep | src/esp_wifi_config.c:902-984 | only counted disconnects and addresses move the counter, and only a counted disconnect at the limit in RESTART mode restarts |
| Station.CounterIsCount | src/esp_wifi_config.c:903-984 | in RESTART mode the counter is, in every reachable state, the counted disconnects since the last address, and below the limit |
| Station.RestartsAtTheLimit | src/esp_wifi_config.c:905-916 | the device restarts on exactly the counted disconnect that reaches the limit |
| Station.ProvisionNeverRestarts | src/esp_wifi_config.c:918-932 | in PROVISION mode it never restarts and the counter stays below the limit |
| Station.NoLimitNeverRestarts | src/esp_wifi_config.c:908-910 | with limit 0 it never restarts |
| Station.ReconnectFiresOnTime | src/esp_wifi_config.c:955-1093 | a scheduled reconnect is taken up by the first check at or after its deadline and none before, across tick wrap-around |
| Station.LossIsScheduled | src/esp_wifi_config.c:894-957 | a counted loss that does not restart the device ends the connection, posts it, and arms the reconnect for the backoff delay from now |
| Station.LossIsTakenUp | src/esp_wifi_config.c:903-1093 | from such a loss: no turn before the deadline does anything, and the first at or after it makes the attempts of its sequence, across tick wrap-around |
| Station.CountIsLossesInARow | src/esp_wifi_config.c:836-957 | in every reachable state the exponent of the backoff is the number of counted losses since an association or a successful sequence |
| Station.BackoffDoubles | src/esp_wifi_config_network.c:38-52 | so the n-th loss in a row is retried after min(base times 2^n, max), for base times max below 2^32 and n below 32 |
| Station.RequestIsServed | src/esp_wifi_config_network.c:266-279 | a request to connect lifts the suppression, and once the task has handled what was queued before, its start has made its attempts; likewise the driver's start |
| Station.StartIsServed | src/esp_wifi_config.c:793-833 | a start anywhere in the queue makes its attempts once the task gets to it, unless the device restarts first |
| Station.ConnectToCallsIff | src/esp_wifi_config_network.c:281-316 | by name: one call exactly for a saved network that is not the one connected to |
| Station.JoinEndsConnected | src/esp_wifi_config.c:681-984 | an association and an address reported by the driver end, once handled, in CONNECTED under the clipped name |
| Station.LeavingIsCounted | src/esp_wifi_config.c:689-716 | the report that the current network was left becomes a counted loss if and only if reconnecting is on, not suppressed and no attempt runs |
| Station.NeverStuckConnecting | src/esp_wifi_config_network.c:54-145 | with sequences that run to their end, `connecting` is clear in every reachable state between messages |
| Station.RoundBits | src/esp_wifi_config_network.c:101-118 | what a waiting attempt finds in the bits is told by the reports made during it alone: the fail bit by a disconnect no address followed, the connected bit by an address no disconnect followed |
| Station.ScanFrees | src/esp_wifi_config_network.c:336-342 | a scan gives up an attempt under way and changes nothing else |
| SoftAp.AlwaysCoherent | src/esp_wifi_config.c:1024-1043 | in every reachable state the last queued AP message tells the driver's AP state, and with none queued the flag does |
| SoftAp.StepCoherent | src/esp_wifi_config_ap.c:58-171 | every call, forced mode change and message keeps that |
| SoftAp.QuiescentFlagIsTrue | src/esp_wifi_config.c:1024-1043 | with an empty queue the flag equals the driver's state |
| SoftAp.RestartsAreCharged | src/esp_wifi_config_ap.c:137-171 | handling a message puts the AP up only while provisioning, with budget left, and uses one unit for it |
| SoftAp.RestartsBounded | src/esp_wifi_config_ap.c:137-171 | at most three times a session in every run, none outside one |
| SoftAp.DrainOutcome | src/esp_wifi_config.c:1024-1043 | from every state, handling the queued messages leaves the AP on if and only if it was on, or the session has budget and some AP_STOPPED is met while the flag is set and the mode can be read |
| SoftAp.ComesBackIff | src/esp_wifi_config.c:1024-1043 | with the AP off in a reachable state and the mode readable, it comes back if and only if the session has budget and the flag is set or an AP_STARTED is queued |
| SoftAp.ForcedDownComesBack | src/esp_wifi_config_ap.c:137-171 | within the budget an AP forced down from outside is up again once the queue is handled, whatever was queued before |
| SoftAp.StopUndoneIff | src/esp_wifi_config.c:1031-1043 | the library's own stop is undone by handling the queue if and only if the session has budget and an AP_STARTED was still queued |
| SoftAp.QuickStopUndoneIff | src/esp_wifi_config.c:1031-1043 | from every reachable state, a stop right after the start of provisioning is undone if and only if that start brought the AP up or bounced it, or an AP_STARTED was already queued |
| SoftAp.QuickStopIsUndone | src/esp_wifi_config.c:1031-1043 | a stop right after the first start of provisioning is undone, whatever the start does to the mode or the interface |
| SoftAp.ReassertAtStartIsIdle | src/esp_wifi_config.c:115-148 | the re-assertion inside the start of provisioning never brings the AP back |
| SoftAp.ApComesBack | src/esp_wifi_config.c:99-150 | from every reachable state, whatever is queued and whatever the BLE manager does to the mode: once the task has handled the messages queued when provisioning has started, the AP is up |
| SoftAp.StartBringsUp | src/esp_wifi_config_ap.c:58-118 | starting the AP brings it up with its flag, and new settings do so exactly when the flag is set |
| SoftAp.StationKeepsRunning | src/esp_wifi_config_ap.c:58-135 | the station mode stays selected beside the AP and after it |
| SoftAp.StopTakesDown | src/esp_wifi_config.c:152-211 | stopping provisioning takes the AP down for good: no run in which nobody asks for an AP brings it back, whatever is queued |
| SoftAp.StopDrainedIff | src/esp_wifi_config.c:152-211 | with the queue handled, the AP is on after the stop if and only if it was on with the flag unset |
| SoftAp.QuietStopIsClean | src/esp_wifi_config.c:152-211 | from a reachable state with nothing queued the stop always takes it down |
| SoftAp.NextSessionStartsBle | src/esp_wifi_config.c:110-148 | after a stop the next session starts its BLE manager again, with a fresh budget |
| SoftAp.Portal.StartAp | src/esp_wifi_config_ap.c:58-118 | flag, mode and queued events of bringing the AP up |
| SoftAp.Portal.StopAp | src/esp_wifi_config_ap.c:120-135 | the flag is cleared before the driver is told |
| SoftAp.Portal.Reassert | src/esp_wifi_config_ap.c:137-171 | acts only when enabled, provisioning, readably down, and within budget |
| SoftAp.Portal.StartProvisioning | src/esp_wifi_config.c:99-150 | the state is the one its history of events leads to, so the invariants above hold of the real fields |
| SoftAp.Portal.StopProvisioning | src/esp_wifi_config.c:152-211 | as above |
| SoftAp.Portal.TakeMessage | src/esp_wifi_config.c:1024-1043 | as above, telling foreign teardown from the library's own by the flag alone |
| ProvBle.HeldIsCandidate | src/esp_wifi_config_prov_ble.c:803-910 | the credentials held are the last received ones unless a start, failure, acceptance or end came after them |
| ProvBle.StoresOnlyTheCandidate | src/esp_wifi_config_prov_ble.c:678-765 | over all event orders a step stores nothing or exactly that candidate, and only an acceptance or the step that reboots stores |
| ProvBle.AcceptedIsStored | src/esp_wifi_config_prov_ble.c:803-910 | accepted credentials do reach the store |
| ProvBle.StoredAtMostOncePerReceipt | src/esp_wifi_config_prov_ble.c:678-693 | over all event orders, the networks stored and then the one held are received credentials at strictly increasing receipts: none twice for one receipt, none out of order, none not received |
| ProvBle.FlagsCoherent | src/esp_wifi_config_prov_ble.c:792-950 | in every reachable state an explicit stop leaves no restart pending, and with resets enabled the failure count is below its limit |
| ProvBle.LogTellsFlags | src/esp_wifi_config_prov_ble.c:678-1265 | in every reachable state each flag, the messages queued, the sessions begun and the failure count, refusals modulo the limit, are what the event log alone says |
| ProvBle.OwedIffEarned | src/esp_wifi_config_prov_ble.c:709-790 | a restart is owed if and only if some drop of the link earned it and nothing has settled it since |
| ProvBle.QueuedOnlyAtEnd | src/esp_wifi_config_prov_ble.c:709-790 | over all event orders, a restart message is queued if and only if a session ends and the log holds a drop of its link, without credentials or a stop before it, that no end and no stop of the session has come after |
| ProvBle.RebootsIff | src/esp_wifi_config_prov_ble.c:702-737 | over all event orders the device reboots if and only if the timer armed by accepted credentials fires, or the link drops in a session that received credentials and reboots on success |
| ProvBle.RebootKeepsCandidate | src/esp_wifi_config_prov_ble.c:722-737 | a reboot on a dropped link stores the candidate in the same step, so none is lost |
| ProvBle.OnlyStartRevives | src/esp_wifi_config_prov_ble.c:1245-1265 | from a state with no restart queued or pending and none that can become pending, no run without a start call initialises the manager, calls of deinit included |
| ProvBle.StopIsFinalIff | src/esp_wifi_config_prov_ble.c:1245-1265 | from every state: no run without a start call initialises the manager after a stop if and only if, when the stop returns, no restart is queued or pending and none can become pending; before the call, with a session up or initialised: if and only if none is queued |
| ProvBle.QueuedAtStopIsReachable | src/esp_wifi_config_prov_ble.c:782-790 | a run whose stop takes effect with a restart message in the queue, which then revives the session |
| ProvBle.IgnoredStopIsReachable | src/esp_wifi_config_prov_ble.c:1245-1249 | a run whose stop, coming after the end of the session, changes nothing, with a restart queued that revives it |
| ProvBle.PendingAtStopIsReachable | src/esp_wifi_config_prov_ble.c:1245-1249 | a run whose stop leaves a pending restart standing with nothing queued, to be queued by the end that follows |
| ProvBle.Lifecycle.PersistPendingNetwork | src/esp_wifi_config_prov_ble.c:678-693 | the candidate is stored and forgotten, or nothing happens |
| ProvBle.Lifecycle.QueuePendingRestart | src/esp_wifi_config_prov_ble.c:782-790 | a pending restart becomes one queued message |
| ProvBle.Lifecycle.OnStarted | src/esp_wifi_config_prov_ble.c:803-810 | for this handler and each below: the fields are, afterwards, what the events so far and this one lead to, so the results over runs hold of them |
| ProvBle.Lifecycle.OnCredRecv | src/esp_wifi_config_prov_ble.c:811-847 | as above, for received credentials |
| ProvBle.Lifecycle.OnCredFail | src/esp_wifi_config_prov_ble.c:848-872 | as above, for refused credentials |
| ProvBle.Lifecycle.OnCredSuccess | src/esp_wifi_config_prov_ble.c:873-904 | as above, for accepted credentials |
| ProvBle.Lifecycle.AcceptCredentials | src/esp_wifi_config_prov_ble.c:873-904 | the candidate is stored, the failures forgotten, and the reboot timer armed if configured |
| ProvBle.Lifecycle.OnEnded | src/esp_wifi_config_prov_ble.c:905-934 | as above, for the end of the session |
| ProvBle.Lifecycle.EndSession | src/esp_wifi_config_prov_ble.c:905-934 | the session is over, coexistence restored, a pending restart queued, the candidate dropped |
| ProvBle.Lifecycle.OnLinkDropped | src/esp_wifi_config_prov_ble.c:709-765 | as above, for a dropped link |
| ProvBle.Lifecycle.Start | src/esp_wifi_config_prov_ble.c:1045-1243 | as above, for the start call; it succeeds if and only if a session is up or both foreign calls work |
| ProvBle.Lifecycle.Begin | src/esp_wifi_config_prov_ble.c:1045-1243 | flags after a start and after each way it can fail; nothing if a session is up |
| ProvBle.Lifecycle.Stop | src/esp_wifi_config_prov_ble.c:1245-1265 | as above, for the stop call |
| ProvBle.Lifecycle.Halt | src/esp_wifi_config_prov_ble.c:1245-1265 | explicit stop set, pending restart cleared, inactive; nothing if there is no session |
| ProvBle.Lifecycle.Deinit | src/esp_wifi_config_prov_ble.c:988-1043 | as above, for deinit |
| ProvBle.Lifecycle.TearDown | src/esp_wifi_config_prov_ble.c:988-1043 | every flag off save a pending restart of a session already gone |
| ProvBle.Lifecycle.OnRestartMessage | src/esp_wifi_config.c:1054-1068 | as above, for one restart message taken off the queue |
| Srp6a.LongReadsBack | tools/wifi_ble_cli/esp_prov/utils/convenience.py:7-14 | every number survives conversion to bytes and back |
| Srp6a.BytesReadBack | tools/wifi_ble_cli/esp_prov/utils/convenience.py:7-14 | bytes survive conversion to a number and back if and only if they have no superfluous leading zero |
| Srp6a.SaltFormIrrelevant | tools/wifi_ble_cli/esp_prov/security/srp6a.py:185-199 | x computed from the integer salt is x computed from the salt bytes |
| Srp6a.XDependsOnAll | tools/wifi_ble_cli/esp_prov/security/srp6a.py:185-189 | x tells passwords, user names and salts apart whenever the hash does |
| Srp6a.TwoDependOnBoth | tools/wifi_ble_cli/esp_prov/security/srp6a.py:158-170 | two numbers hashed at a width are told apart, each in its place, whenever the hash does so |
| Srp6a.ScramblerDependsOnBoth | tools/wifi_ble_cli/esp_prov/security/srp6a.py:223-293 | a client's u tells both public values apart, and its k the generator |
| Srp6a.ProofDependsOnAll | tools/wifi_ble_cli/esp_prov/security/srp6a.py:202-211 | the proof tells apart the group and user, the salt, both public values and the key |
| Srp6a.ConfirmationDependsOnAll | tools/wifi_ble_cli/esp_prov/security/srp6a.py:214-219 | the confirmation tells apart the public value, the proof and the key |
| Srp6a.EnrolKeepsSalt | tools/wifi_ble_cli/esp_prov/security/srp6a.py:192-199 | the salt is the random number, and the verifier g^x mod N for the x of that salt |
| Srp6a.TwoFit | tools/wifi_ble_cli/esp_prov/security/srp6a.py:158-170 | two numbers hash at a width if and only if both fit it |
| Srp6a.KeyAgreement | tools/wifi_ble_cli/esp_prov/security/srp6a.py:261-293 | for every modulus, generator and exponents the client's secret and the server's are both g^(b(a+ux)) mod N (section 2.6 of RFC 5054) |
| Srp6a.HonestChallenge | tools/wifi_ble_cli/esp_prov/security/srp6a.py:192-293 | for what enrolment stored, the login recomputes x and reaches the server's secret |
| Srp6a.Client.ProcessChallenge | tools/wifi_ble_cli/esp_prov/security/srp6a.py:261-293 | exactly when it refuses, raises, or answers; the key, proof and expected confirmation it then holds; and, read before the call, whether the key is then a proven one |
| Srp6a.Client.VerifySession | tools/wifi_ble_cli/esp_prov/security/srp6a.py:295-298 | authenticated if and only if it was before or the confirmation is the expected one |
| Srp6a.UnchangedIsProven | tools/wifi_ble_cli/esp_prov/security/srp6a.py:245-298 | over every history of answers and confirmations: with one accepted and no challenge answered since, the current key is one the server has proved itself for |
| Srp6a.AnswerProvenIff | tools/wifi_ble_cli/esp_prov/security/srp6a.py:245-298 | over every history: answering a challenge leaves such a key if and only if the server has proved itself for the new key before |
| Srp6a.Client.KeyAcceptedIff | tools/wifi_ble_cli/esp_prov/security/srp6a.py:261-298 | for every challenge: the server has proved itself for its key if it confirmed these integers or another challenge with the same secret, and under an injective hash only then |
| Srp6a.Client.ProvenIffSecretConfirmed | tools/wifi_ble_cli/esp_prov/security/srp6a.py:254-298 | the same for the key a client holds: proven if its secret is that of a confirmed challenge, and under an injective hash only then |
| Srp6a.UnprovenKeyIsHandedOut | tools/wifi_ble_cli/esp_prov/security/srp6a.py:245-298 | a run of a concrete client, two challenges with the first confirmed, that hands out a key never proven |
| Srp6a.Client.SessionKey | tools/wifi_ble_cli/esp_prov/security/srp6a.py:254-255 | a key is handed out if and only if some confirmation was ever accepted; it is the key of the last challenge answered; it is proven if no challenge was answered since, and under an injective hash if and only if its secret is that of a confirmed challenge |
| Srp6a.HonestLogin | tools/wifi_ble_cli/esp_prov/security/srp6a.py:192-298 | a whole login with an honest server: refused only by a safety check, and otherwise both sides hold the same key, accept each other's proof, and the key handed out is proven |

## Left out

- The variable store, HTTP routing, authentication, CORS, captive-portal redirects and Web UI: thin wrappers over lists and library calls.
- The DNS responder, the command line and examples.
- GATT tables, advertising, UART setup, and the radio coexistence settings beyond their flag.
- Shutdown of the manager (the stopping bit) outside the connect sequence, and the teardown timer: provisioning stops in `SoftAp` by an explicit call.
- Template expansion, status queries, and events posted to subscribers other than DISCONNECTED.
- Queue overflow, failing flash writes, failing allocations, and torn reads of `connected_ssid`.
- The Improv commands for identification and device information: fixed strings through the packing modelled in `ImprovRpc`.
- Station.BackoffDoubles: says nothing from the 32nd loss in a row on, where C leaves the shift open; the delay then lies between min(base, max) and max.
- Station.Manager.StartConnectSequence: takes its attempts and ending as inputs; which networks they go to, and when it ends, is `ConnectSequence`.
- Srp6a.Client.constructor: takes the group, the hashed group prefix of the proof and the random exponent as parameters; the hash stays uninterpreted.
- Backoff.DelayExact: says nothing for shifts of 32 or more, which C leaves undefined.
- NetworkStore.RunRefinesMap: names, passwords and priorities are copied whole; the fixed field widths of the C record are not part of the list's model. Where a reboot falls back on default networks that repeat a name, the list is no map (`BootDistinctIff`), and nothing is said of the operations on it.
