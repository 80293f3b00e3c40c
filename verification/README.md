# Kent control interface: bridge relay and browser controller

This project models the two halves of the kent control interface that hold
sequential logic.

- **The bridge** (`ws-kent.go`). It keeps a list of websocket clients,
  each with an identity minted for it. It fans every report a dispenser sends
  to the Kent server out to all of those clients, as a JSON envelope
  `{ID, Binary}` whose `Binary` is the standard base64 of the marshalled
  protocol-buffer message. It routes every envelope a browser sends to the
  dispenser the envelope names.
- **The browser controller** (`wasm.go`). This is the WebAssembly program
  behind the operator page. It connects to the bridge and sends requests
  built from the page's fields, guarded (for most buttons) by its `wsConn`
  flag. It shows incoming reports for the selected dispenser: PID debug rows
  in the PID log, and EEPROM reports in the page's fields.

Both sides share one abstract envelope, `Wire.Envelope(id, binary)`. The
bridge's JSON keys are `ID`/`Binary` and the browser's are `id`/`binary`.
Go's JSON decoder matches keys case-insensitively, so the two describe the
same frame. JSON syntax is not modelled: a frame either decodes to an
envelope (`Wire.Json`) or it does not (`Wire.Malformed`). On the bridge, an
`ID` that does not parse as a UUID also makes the frame `Malformed`.

Modules, leaves first:

| module | models |
|---|---|
| `Wrappers` | `Option`, usable with `:-` |
| `Numeric` | bytes, Go's `uint32(…)`/`int32(…)` truncation, `strconv.ParseUint(…, 10, 32)` and `ParseInt(…, 10, 32)` (whose digit scan is the same 32-bit `ParseUint`, so a range error stops it) with the error discarded, `strconv.Itoa` |
| `Base64` | `base64.StdEncoding`: section 4 of RFC 4648, padded per section 3.2, with Go's decoder behaviour |
| `Wire` | the shared envelope and the JSON frame |
| `Registry` | `ClientList`, `addClient`, `removeClient` as written and as intended |
| `Relay` | `kentMsgHandler`, `kentSubscribe`, `wsMsgHandler`, the `websocketHandler` read loop, and an event-interleaving run |
| `Dom` | the page as a map from element id to value |
| `Mac` | the `%02X:…` address format and its `fmt.Sscanf` scan |
| `Eeprom` | `parseEepromRead` and its index clamps |
| `Requests` | the `SrvToCli` requests the controller sends |
| `Controller` | `Ctx`: `wsConn`, the sockets, `sendToWs`, `receiveFromWs`, `Connect`/`Disconnect`, the socket listeners |
| `Commands` | every button callback, the guards, `EepromWrite`, `DispenseMass`, `StopAllSteppers` |

Parameters stand in for what the model cannot see:
- UUID generation is the `id` argument of `Relay.ServeConnection` and of the `Relay.Connected` event.
- A connection is an opaque `Registry.ConnHandle`.
- A read's outcome is a `Relay.ReadResult`.
- The answer to a `confirm` dialog is `confirmed`.
- Whether the browser's `WebSocket` constructor accepts an address is the `urlOk` predicate.
- `proto.Unmarshal` on the browser is the `decodeReport` function.
- On the bridge, payloads are the marshalled bytes themselves.

In two places the bridge does less than a reader might expect, and the
model follows the code:
- **Bad base64 is still forwarded.** An envelope whose payload is not valid
  base64 is not dropped. `wsMsgHandler` discards the base64 error and calls
  `SendData` anyway, with the bytes of every quantum decoded before the bad
  one (`Relay.BadBase64StillSent`).
- **The client list has no lock.** Only the broadcast takes the mutex;
  `addClient` and `removeClient` do not (see Left out).

A Go panic ends the WebAssembly program, so later clicks and socket events
reach no Go code. The model writes this as `halted`. It happens in these
cases:
- `close` or `send` is called on the `undefined` socket before the first `Connect`;
- `send` is called on a socket that is still connecting (the browser throws `InvalidStateError`);
- `new WebSocket` rejects the address `Connect` builds from the page (the browser throws `SyntaxError`);
- an EEPROM section's index runs past the end of its slice.

## Model

| member | source | states |
|---|---|---|
| `Base64.Decode` | ws-kent.go:248 | `DecodeString` yields at most three bytes per four input characters; its value is characterised by `DecodeEncode` and `DecodeOkIffWellFormed` |
| `Base64.CharOf` | ws-kent.go:59 | each 6-bit value maps to a character of the standard alphabet that decodes back to it |
| `Base64.Encode` | ws-kent.go:59 | the encoding of n bytes has length 4·⌈n/3⌉ and uses only alphabet characters and `=` |
| `Base64.DecodeEncode` | ws-kent.go:248 | round trip: decoding the encoding of any byte sequence, the empty one included, returns exactly those bytes with no error |
| `Base64.QuantaEncode` | ws-kent.go:248 | the quantum loop undoes the encoder group by group, padded last groups included |
| `Base64.DecodeOkIffWellFormed` | ws-kent.go:248 | the decoder reports no error exactly when the input, with CR/LF removed, is whole quanta of alphabet characters with padding only at the end (both directions) |
| `Base64.DecodeRejectsLeadingJunk` | ws-kent.go:248 | input whose first character is neither a line break nor in the alphabet decodes to no bytes and an error |
| `Base64.DecodeQuanta` | ws-kent.go:248 | the decoder never produces more than three bytes per four input characters |
| `Base64.StripLineBreaks` | ws-kent.go:248 | the text the decoder reads holds no CR or LF and is no longer than the input |
| `Base64.QuantaOkIffWellFormed` | ws-kent.go:248 | the quantum loop reports no error exactly when its input is whole quanta with padding only at the end (both directions) |
| `Base64.TripleQuantum` | ws-kent.go:248 | a full encoded group decodes to its three bytes, followed by whatever the rest decodes to |
| `Base64.DecodeTail` | ws-kent.go:248 | a last group of one or two bytes, padded, decodes back to those bytes |
| `Base64.CharOfValueOf` | ws-kent.go:59 | every alphabet character is the encoding of its own value |
| `Registry.AddClient` | ws-kent.go:170-176 | the new client is appended at the end, and every existing client stays in the same order |
| `Registry.CountId` | ws-kent.go:185 | the number of entries with an identity is at most the list length, and 0 exactly when none has it |
| `Registry.RangeRemove` | ws-kent.go:183-189 | the range loop keeps the backing array's length and never lengthens the slice |
| `Registry.RemoveAppend` | ws-kent.go:181-192 | the corrected removal works piecewise over a concatenation |
| `Registry.RemoveClientAsWritten` | ws-kent.go:181-192 | `removeClient` with Go's range-over-a-slice and in-place `append`: when it does not panic, the list never grows |
| `Registry.RemoveAsWrittenAbsent` | ws-kent.go:181-192 | `removeClient` with an identity not in the list leaves the list unchanged |
| `Registry.RemoveAsWrittenOnce` | ws-kent.go:183-189 | with the identity present exactly once, at k, the result is the list without entry k, others in their original order |
| `Registry.RemoveAsWrittenPanics` | ws-kent.go:183-189 | two adjacent clients with the same identity make the loop slice past the length and panic |
| `Registry.RemoveAsWrittenLeavesCopy` | ws-kent.go:183-189 | a duplicated identity followed by another client leaves one copy of the identity behind |
| `Registry.RemoveClient` | ws-kent.go:181-192 | corrected removal: a client remains exactly when it was listed with another identity; the length drops by the number of entries with the identity; none of them remains |
| `Registry.RemoveAsWrittenAgrees` | ws-kent.go:181-192 | while identities are unique, the as-written loop never panics and equals the corrected removal |
| `Registry.RemoveOnce` | ws-kent.go:183-189 | the corrected removal of an identity present only at k cuts out exactly entry k |
| `Registry.RemoveAbsent` | ws-kent.go:181-192 | the corrected removal of an absent identity is the identity function |
| `Registry.AddThenRemove` | ws-kent.go:211-226 | registering a client with a fresh identity and then removing it restores the original list |
| `Registry.AddKeepsUnique` | ws-kent.go:211-216 | adding a client with a fresh identity keeps identities unique |
| `Registry.RemoveKeepsUnique` | ws-kent.go:223 | removal keeps identities unique |
| `Relay.ReportEnvelope` | ws-kent.go:57-61 | the broadcast envelope carries the dispenser's identity, and its `Binary` decodes back, without error, to the marshalled report |
| `Relay.WriteAll` | ws-kent.go:64-66 | one write per client, in list order, each of the same envelope to that client's connection |
| `Relay.Broadcast` | ws-kent.go:50-68 | `kentMsgHandler` appends exactly one write of the same envelope per client, in list order, after the earlier writes; the client list and the device sends are untouched |
| `Relay.BroadcastDelivers` | ws-kent.go:57-67 | client i's write goes to its connection, carries the dispenser identity, and decodes to the marshalled report |
| `Relay.OnDeviceData` | ws-kent.go:78-146 | with one dispatch per report, a report of any of the twelve named kinds is written once to every client, in list order, as the envelope of the dispenser's identity and the report's base64; the list and device sends are untouched; a report of any other kind changes nothing |
| `Relay.SubscribedKinds` | ws-kent.go:82-129 | the registered kinds are exactly the twelve named report kinds |
| `Relay.DuplicateRegistrations` | ws-kent.go:130-145 | the last four of the sixteen registrations repeat the four fryer response kinds |
| `Relay.HandleInbound` | ws-kent.go:239-259 | a frame that fails JSON decoding sends nothing; any other frame produces exactly one send, addressed to the envelope's ID; the client list and writes are untouched |
| `Relay.RouteRoundTrip` | ws-kent.go:248-256 | an envelope built from marshalled bytes reaches its dispenser with exactly those bytes |
| `Relay.BadBase64StillSent` | ws-kent.go:248-256 | a payload that is not base64 makes the decoder report an error, and the envelope is still sent, with no bytes |
| `Relay.ReadLoop` | ws-kent.go:219-230 | the read loop never writes to a websocket |
| `Relay.ServeConnection` | ws-kent.go:199-232 | a failed upgrade changes nothing, and a connection's handler never writes to a websocket |
| `Relay.ReadLoopSpec` | ws-kent.go:219-230 | the loop forwards exactly the envelopes read before the first read error, in order; on a read error the client is removed, otherwise the list is kept; while identities are unique, the as-written `removeClient` at the read error does not panic and gives that same list |
| `Relay.Lifecycle` | ws-kent.go:211-226 | with a fresh identity, the dispenser receives exactly the envelopes read before the first error; after a read error the list is as before and holds no entry with that identity, otherwise the client stays registered at the end |
| `Relay.Step` | ws-kent.go:170-192 | after a disconnect no entry carries that identity; after a connect the new client is in the list; no step takes back a device send or a websocket write |
| `Relay.Run` | ws-kent.go:50-259 | a run of handler steps, one at a time, never takes back a device send or a websocket write |
| `Relay.RunKeepsUnique` | ws-kent.go:211-226 | under any interleaving of handler steps with fresh identities, identities stay unique |
| `Relay.StepKeepsUnique` | ws-kent.go:211-226 | one handler step keeps identities unique when a connecting identity is fresh |
| `Relay.StepAsWritten` | ws-kent.go:181-192 | a disconnect through `removeClient` as written, when it does not panic, never lengthens the list; a step that does not panic takes back no send or write |
| `Relay.RunAsWritten` | ws-kent.go:181-226 | a run with `removeClient` as written, stopping at the first panic, takes back no send or write while it runs |
| `Relay.RunAsWrittenAgrees` | ws-kent.go:181-226 | under any interleaving with fresh identities, the bridge with `removeClient` as written never panics and ends in exactly the state of the run with the corrected removal |
| `Numeric.ToUint32` | wasm.go:1186 | `uint32(x)` keeps x modulo 2^32 and is the identity in range |
| `Numeric.ToInt32` | wasm.go:1187 | `int32(x)` is the two's-complement value congruent to x modulo 2^32 and is the identity in range |
| `Numeric.ParseUint` | wasm.go:1168-1173 | `ParseUint` with a bit-size cap and its error discarded never exceeds the cap |
| `Numeric.ParseUint32` | wasm.go:1168-1173 | `ParseUint(…, 10, 32)` with its error discarded never exceeds 2^32-1 |
| `Numeric.ParseUintNumeral` | wasm.go:1168-1173 | on a numeral it is the numeral's value, capped at the maximum |
| `Numeric.ParseUintSyntaxError` | wasm.go:1168-1173 | a non-digit met before overflow gives 0 |
| `Numeric.ScanDecimalDigits` | wasm.go:1168-1173 | the digit loop computes the accumulated value of the digits, capped at the maximum once it overflows |
| `Numeric.ParseInt32` | wasm.go:1213 | `ParseInt(…, 10, 32)` with its error discarded stays in the int32 range |
| `Numeric.Saturate32` | wasm.go:1213 | a value is clamped to the int32 range: kept when inside it, 2^31-1 above it and -2^31 below it |
| `Numeric.ParseInt32Numeral` | wasm.go:1213 | an optional sign and a numeral parse to the signed value clamped to the int32 range, however many digits the numeral has |
| `Numeric.ParseInt32SyntaxError` | wasm.go:1213 | a non-digit met before the digits exceed 2^32-1 gives 0 |
| `Numeric.ParseUintOverflow` | wasm.go:1168-1173 | the first digit that takes the value past the maximum gives the maximum, whatever follows it |
| `Numeric.ParseInt32Overflow` | wasm.go:1213 | a digit that takes the value past 2^32-1 saturates the result at the int32 bound of the sign, whatever follows it |
| `Numeric.ParseFormatInt` | wasm.go:1213 | parsing the decimal text of any int32 value gives that value back |
| `Numeric.ParseInt32OverflowBeforeJunk` | wasm.go:1213 | "5000000000x" parses to 2^31-1: the range error stops the scan before the `x` |
| `Numeric.ParseInt32NegativeOverflowBeforeJunk` | wasm.go:1213 | "-12345678901 " parses to -2^31: the range error stops the scan before the blank |
| `Numeric.FormatDecimal` | wasm.go:174-185 | `strconv.Itoa` of a natural number is a non-empty numeral with that value |
| `Numeric.ParseFormatDecimal` | wasm.go:1168-1173 | parsing what `Itoa` printed gives the number back |
| `Dom.Write` | wasm.go:188 | setting an element's value changes that element only |
| `Dom.ReadUint32` | wasm.go:1168 | a field read through `ParseUint(…, 10, 32)` is below 2^32 |
| `Dom.ReadInt32` | wasm.go:1213 | a field read through `ParseInt(…, 10, 32)` is in the int32 range |
| `Mac.HexDigit` | wasm.go:199 | `%X` of a value below 16 is an upper-case hex digit of that value |
| `Mac.FormatByte` | wasm.go:199 | `%02X` of a byte is two hex digits whose value is the byte |
| `Mac.FormatMac` | wasm.go:199 | the address text is 17 characters with a colon at exactly every third place |
| `Mac.ScanByte` | wasm.go:665 | a successful `%02X` scan consumes input |
| `Mac.SkipSpace` | wasm.go:665 | skipping blanks leaves a suffix of the input that starts with neither a blank nor a newline |
| `Mac.TokenLength` | wasm.go:665 | the `%02X` width takes at most two characters, all valid token characters, and stops early only at a non-token character |
| `Mac.ScanFrom` | wasm.go:665 | whatever the input, the byte array keeps six entries |
| `Mac.ScanFormattedByte` | wasm.go:665 | `%02X` scanning reads back the byte that `%02X` printed at line 199 and leaves the rest of the input |
| `Mac.ScanFormatFrom` | wasm.go:665 | scanning the address text printed at line 199, from byte k on, fills bytes k to 5 and keeps the ones before |
| `Mac.ScanMac` | wasm.go:664-665 | the scan always yields six bytes |
| `Mac.ScanFormatMac` | wasm.go:665 | round trip: scanning the address text shown at line 199 gives back the address's six bytes |
| `Mac.ScanMacGarbage` | wasm.go:664-665 | text that does not start with a hex digit leaves all six bytes 0 instead of failing |
| `Mac.ScanMacStopsAtSeparator` | wasm.go:664-665 | scanning stops at the first separator that is not a colon and keeps the bytes read so far |
| `Eeprom.SelectIndex` | wasm.go:209-211 | the clamp: with a table size N the index is below N; it is the typed index exactly when that is below N, and otherwise N-1; without a table size it is the typed index |
| `Eeprom.Parts` | wasm.go:191-310 | the report is shown in nine sections, and every table size a section clamps to is positive |
| `Eeprom.WriteFields` | wasm.go:213-272 | every field of the selected entry is shown in its element, and no other element changes |
| `Eeprom.WritePositions` | wasm.go:294-306 | showing the ten positions completes exactly when the entry has at least ten; only position elements change |
| `Eeprom.ShowPart` | wasm.go:191-308 | a section is shown without panic exactly when it fits the page, and it writes only its own elements |
| `Eeprom.Show` | wasm.go:191-310 | reference definition of `parseEepromRead`: the report text goes to the export box, then the nine sections are shown in turn; `ShowComplete` and `FullReportShown` state its outcome |
| `Eeprom.ShowParts` | wasm.go:191-310 | elements no section touches keep their value |
| `Eeprom.ClampedSectionFits` | wasm.go:205-272 | a clamped section with a complete table never panics and shows entry min(typed, N-1) |
| `Eeprom.TemperatureOverrun` | wasm.go:276-282 | the temperature index is not clamped: with two controllers, an index of 2 or more panics before the section writes anything |
| `Eeprom.ShortPositionsPanic` | wasm.go:289-307 | a transport entry with 1 to 9 positions panics before its tolerance is shown |
| `Eeprom.ShowPartsComplete` | wasm.go:191-310 | a report none of whose sections panics is shown to the end |
| `Eeprom.FitsFrame` | wasm.go:191-310 | whether a section fits depends on the page only through its index element |
| `Eeprom.PartsIndependent` | wasm.go:191-310 | no section writes an element that a later section reads its index from |
| `Eeprom.ExportUntouched` | wasm.go:193 | no section writes the export box |
| `Eeprom.ShowComplete` | wasm.go:191-310 | a report whose sections all fit is shown to the end, and the export box keeps the report text |
| `Eeprom.FullReportShown` | wasm.go:191-310 | with complete tables in the clamped sections, a six-byte address and no temperature or transport section, the report is shown whatever indices are typed |
| `Controller.Init` | wasm.go:1806-1818 | the program starts disconnected, with no socket, nothing sent and not halted |
| `Controller.LogNote` | wasm.go:162-167 | a log note appends one entry and sends nothing |
| `Controller.SendToWs` | wasm.go:110-125 | on a usable socket, one record is appended: the current socket, the page's dispenser id and the request; with no usable socket the program halts and sends nothing; the flag, sockets and page are unchanged |
| `Controller.DispenserId` | wasm.go:104-108 | reference definition: the dispenser every request is addressed to is the text of `txtDispenserId` |
| `Controller.BrokerUrl` | wasm.go:510-512 | reference definition: the broker address is `ws://` + the IP field + `:` + the port field + `/ws` |
| `Controller.Connect` | wasm.go:502-542 | when already connected, it only logs "Already connected!"; when the browser rejects the broker address, it logs "Connecting.." and the program ends; otherwise it opens one new connecting socket to the broker address and sets `wsConn` at once |
| `Controller.Disconnect` | wasm.go:544-552 | it closes the current socket, clears `wsConn` and logs "Disconnected!"; with no socket yet, the program halts |
| `Controller.PidColumns` | wasm.go:172-185 | a PID row has twelve columns; the run is shown counting from 1 |
| `Controller.JoinRow` | wasm.go:172-185 | a joined row ends with a line feed |
| `Controller.FormatIntPlain` | wasm.go:174-185 | a formatted number contains no tab and no line feed |
| `Controller.JoinRowShape` | wasm.go:172-185 | a joined row has one tab between each pair of columns and one line feed |
| `Controller.PidRowText` | wasm.go:170-189 | reference definition: the PID log line is the twelve columns joined; `PidRowShape` and `PidRowFields` state its form |
| `Controller.PidRowShape` | wasm.go:170-189 | the PID log line has twelve tab-separated columns and ends the line |
| `Controller.JoinRowFields` | wasm.go:172-185 | a joined row, without its line feed, split at tabs gives back exactly the decimal text of each column |
| `Controller.PidRowFields` | wasm.go:172-185 | the PID log line split at tabs has twelve fields, field i being the decimal text of column i: run+1, counter, time, sp, cv, error, integral, derivative, p, i, d, pv |
| `Controller.ReceiveFromWs` | wasm.go:127-160 | a malformed frame, an undecodable report, or a report for another dispenser leaves the state unchanged; nothing is ever sent |
| `Controller.ReceivePidRow` | wasm.go:150-155 | a PID debug report for the shown dispenser is logged and adds its row at the end of the PID log |
| `Controller.ReceiveEeprom` | wasm.go:150-158 | an EEPROM report for the shown dispenser is logged and shown; the program halts exactly when the display panics |
| `Controller.OnSocket` | wasm.go:518-540 | a close or error event on any socket not yet closed clears `wsConn` and closes that socket; events never send |
| `Controller.ConnectWhenConnected` | wasm.go:504-507 | `Connect` while connected opens no socket, keeps `wsConn` set and logs "Already connected!" |
| `Controller.ConnectSetsFlagEarly` | wasm.go:512-516 | right after `Connect` from a disconnected, running program, either the browser accepted the address and `wsConn` is set while the new socket is still connecting and cannot send, or it rejected it and the program has ended with `wsConn` clear and no socket opened |
| `Controller.DisconnectBeforeConnect` | wasm.go:544-547 | `Disconnect` before any `Connect` ends the program |
| `Controller.StaleCloseClearsFlag` | wasm.go:523-526 | a close event from a socket left from an earlier connection clears `wsConn` while the current socket is open |
| `Commands.MassMg` | wasm.go:1186 | the milligram mass is below 2^32, is congruent to grams·1000 modulo 2^32, and equals grams·1000 exactly when grams ≤ 4294967 |
| `Commands.CorrectionMg` | wasm.go:1187 | the correction is in the int32 range, is congruent to grams·1000 modulo 2^32, and equals grams·1000 exactly when grams ≤ 2147483 |
| `Commands.MassWraps` | wasm.go:1186-1187 | 4294968 g goes out as 704 mg; a correction of 2147484 g goes out negative |
| `Commands.ReadPositions` | wasm.go:1426-1435 | the transport request reads ten positions, position i being `txtPosition<i>Micro` read through `ParseInt(…, 10, 32)` |
| `Commands.SimpleRequest` | wasm.go:576-1718 | reference definition: the one request each single-request callback builds from the page, with the field reads of its callback |
| `Commands.ParamsRequest` | wasm.go:796-1689 | reference definition: the request of each `…SetParams` callback |
| `Commands.ScaleParams` | wasm.go:796-830 | reference definition: the seven `ParseUint` fields of `ScaleSetParams` |
| `Commands.MassParams` | wasm.go:1201-1227 | reference definition: the fields of `MassSetParams`, the timeout through `ParseInt` |
| `Commands.PidParams` | wasm.go:1460-1500 | reference definition: the fields of `PidSetParams`, `DeltaT` fixed at 1 |
| `Commands.StepperParams` | wasm.go:968-1027 | reference definition: the fields of `StepperSetParams`, the float fields kept as text |
| `Commands.DcMotorParams` | wasm.go:1123-1156 | reference definition: the five `ParseUint` fields of `DcMotorSetParams` |
| `Commands.TemperatureParams` | wasm.go:1612-1636 | reference definition: the fields of `TemperatureControlSetParams` |
| `Commands.TransportParams` | wasm.go:1419-1455 | reference definition: the index, the ten positions and the tolerance of `TransportPosSetParams` |
| `Commands.FactoryRequest` | wasm.go:652-684 | reference definition: the scanned address, the id, the type and the revision `FactoryChange` sends |
| `Commands.DispenseRequest` | wasm.go:1180-1194 | reference definition: the dispense request, the mass and correction through `MassMg` and `CorrectionMg` |
| `Commands.CookRequest` | wasm.go:1232-1271 | reference definition: the fryer process request of `CookToRate` |
| `Commands.ParamsRequests` | wasm.go:602-609 | the parameter requests follow the given groups one for one |
| `Commands.StopRequests` | wasm.go:1727-1736 | `StopAllSteppers` builds stop requests for steppers 0 to 5, in ascending order |
| `Commands.Guard` | wasm.go:558-561 | with `wsConn` clear, only "Not Connected to Broker!" is logged; with it set, the callback's body runs |
| `Commands.ResetPidLog` | wasm.go:490-497 | `ClearPidLog` empties the PID log under its title, and nothing else on the page changes |
| `Commands.SendAll` | wasm.go:1727-1736 | sending in turn never drops an earlier send and leaves the flag, sockets and page alone |
| `Commands.SendParams` | wasm.go:796-830 | a `…SetParams` callback never drops an earlier send and leaves the flag, sockets and page alone |
| `Commands.SendAllParams` | wasm.go:602-609 | the parameter callbacks in turn never drop an earlier send and leave the flag, sockets and page alone |
| `Commands.WriteEeprom` | wasm.go:602-616 | the confirmed body of `EepromWrite` never drops an earlier send |
| `Commands.DispenseBody` | wasm.go:1168-1194 | the body of `DispenseMass` never drops an earlier send |
| `Commands.SendSimple` | wasm.go:689-712 | a single-request callback never drops an earlier send |
| `Commands.ExecuteCompound` | wasm.go:482-1736 | a multi-step callback never drops an earlier send |
| `Commands.Execute` | wasm.go:1740-1803 | a button press on a halted program changes nothing, and no press drops an earlier send |
| `Commands.SendAllSends` | wasm.go:1727-1736 | on a usable socket every request goes out, in order, on that socket, to the page's dispenser |
| `Commands.ExecuteEepromWrite` | wasm.go:594-620 | `EepromWrite` is its guard around the confirmed write body, and does nothing when unconfirmed |
| `Commands.ExecuteStopAll` | wasm.go:1720-1738 | `StopAllSteppers` is its guard around the six stop requests |
| `Commands.ExecuteCookToRate` | wasm.go:1232-1272 | `CookToRate` is its guard around clearing the PID log and then sending the cook request |
| `Commands.ExecuteDispenseMass` | wasm.go:1161-1197 | `DispenseMass` is its guard around the dispense body |
| `Commands.ExecuteScaleTare` | wasm.go:715-738 | `ScaleTare` sends the scale parameters and then guards the tare request |
| `Commands.Stamp` | wasm.go:110-125 | one record per request |
| `Commands.SendAllRequests` | wasm.go:1727-1736 | on a usable socket, request i of the batch is record i of what is added |
| `Commands.SendAllParamsSends` | wasm.go:602-609 | with `wsConn` set, each parameter callback amounts to sending its request |
| `Commands.GuardedRefused` | wasm.go:558-561 | every guarded callback with `wsConn` clear sends nothing and only logs "Not Connected to Broker!" |
| `Commands.UnguardedSends` | wasm.go:796-830 | an unguarded single-request callback sends even with `wsConn` clear (scale, PID, temperature, agitator, ingredient) |
| `Commands.UnguardedBeforeConnect` | wasm.go:1575-1686 | an unguarded send before the first `Connect` ends the program |
| `Commands.GuardedWhileConnecting` | wasm.go:512-516 | a guarded callback (`EepromRead`) right after `Connect`, while the socket is still connecting, passes the guard and ends the program on its send |
| `Commands.ScaleTareSendsParamsFirst` | wasm.go:715-738 | `ScaleTare` sends the scale parameters before its guard, so they go out even with `wsConn` clear; when set, the tare request follows |
| `Commands.DispenseMassNeedsCookTime` | wasm.go:1175-1178 | with cook time 0, `DispenseMass` logs "Cook time cannot be 0!" and sends and clears nothing |
| `Commands.DispenseMassSends` | wasm.go:1180-1194 | otherwise it clears the PID log and sends exactly the dispense request |
| `Commands.CookToRateSendsZero` | wasm.go:1232-1272 | `CookToRate` has no such check: a cook time of 0 is sent |
| `Commands.EepromWriteOrderLemma` | wasm.go:602-616 | confirmed and connected, `EepromWrite` sends the eight parameter sets in the order scale, mass, pid, stepper, dc, temp, ingredient, transport, and then the write request |
| `Commands.ParamsThenWrite` | wasm.go:602-616 | the parameter callbacks, then the write request, go out in exactly that order |
| `Commands.StampSnoc` | wasm.go:612-615 | the write request's record comes after the parameter records |
| `Commands.Unconfirmed` | wasm.go:563-569 | unconfirmed, `EepromWrite`, `DispenserReboot` and `FactoryChange` change nothing |
| `Commands.StopAllSteppersSendsSix` | wasm.go:1727-1736 | `StopAllSteppers` sends exactly six stop requests, for indices 0 to 5 in order, fewer than the twelve steppers |
| `Commands.DrawerDoesNothing` | wasm.go:1526-1573 | the drawer buttons pass the guard and do nothing |
| `Commands.ReadShown` | wasm.go:197-201 | a number shown on the page reads back through `ParseUint` as itself |
| `Commands.FactoryRoundTrip` | wasm.go:195-201 | the factory data shown from an EEPROM report is what `FactoryChange` sends back: the address, the id and, in range, the type and revision |
| `Commands.DcMotorRoundTrip` | wasm.go:257-264 | the DC motor entry shown is what `DcMotorSetParams` sends back field for field, but to the index as typed |
| `Commands.FieldReadBack` | wasm.go:260-263 | a DC motor field shown from an entry reads back as its value |
| `Commands.DcMotorIndexNotField` | wasm.go:257-264 | showing a DC motor entry leaves the index element alone |
| `Commands.Step` | wasm.go:1740-1803 | any click or socket event on a halted program changes nothing and never drops an earlier send |
| `Commands.RunInputs` | wasm.go:1740-1803 | reference definition: the clicks and socket events handled one at a time; `RunInputsMonotone` states what it keeps |
| `Commands.RunInputsMonotone` | wasm.go:1740-1803 | across any sequence of inputs, sent requests stay sent, and a halted program stays as it was |

## Left out

- `server.go`: a one-line static file server with no logic.
- Concurrency. `kentMsgHandler` holds `ctx.mutex` for the whole broadcast,
  but `addClient` and `removeClient` take no lock. A registration can
  therefore race with a broadcast or with another registration. The model
  runs handler steps one at a time (`Relay.Run`) and cannot express that race.
- gorilla/websocket, `net/http`, the upgrader and `CheckOrigin`. Connections
  are opaque handles, and writes and device sends are trace entries.
  Per-write errors are ignored by the source and are not modelled.
- JSON encoding and decoding: a frame either is an envelope or is malformed.
  The bridge's `uuid.UUID` parsing of `ID` is part of "malformed".
- Relay.HandleInbound: the device send is addressed to the `ID` text as the
  browser typed it. The bridge addresses the parsed `uuid.UUID`
  (ws-kent.go:32, 242, 256), which folds letter case, surrounding braces and
  a `urn:uuid:` prefix, so texts that differ only in those reach the same
  dispenser. That folding is not modelled. Reports always come back with the
  canonical lower-case text (ws-kent.go:57-61), and the browser compares it
  exactly with `txtDispenserId` (wasm.go:150), so a page with the id typed in
  upper case can command its dispenser but never shows that dispenser's
  reports.
- Protocol-buffer marshalling and the kentpb schema. The bridge handles
  payloads as opaque bytes. The browser's decoder is the `decodeReport`
  parameter, and a report's body is reduced to PID debug, EEPROM read or
  other. These are cases of one oneof, so the precedence of the PID debug
  check over the EEPROM check cannot be observed.
- The `kent` library's callback registry. A report's kind is a tag, and the
  four repeated registrations are only recorded.
- Relay.OnDeviceData: it assumes each report is dispatched to
  `kentMsgHandler` once. ws-kent.go:130-145 registers the handler a second
  time for `FryerUnlockFreezerResponse`, `FryerCookModeResponse`,
  `FryerHotHoldResponse` and `FryerFreezerResp`. Whether a second
  `RegisterOnDataCb` replaces the first handler or adds another is up to the
  `kent` library, which is not part of this model. If it adds one, reports of
  these four kinds are broadcast twice, which the model does not promise.
- `syscall/js`: the page is a map from element id to value. `confirm` is a
  boolean argument. The log area `txtLogArea`, which `appendToLog` rewrites
  (wasm.go:162-167), is the browser's `log` field and not an element of the
  map; that is why `Controller.SendToWs` can promise the page is unchanged.
  Log entries have no timestamps, and the log is kept oldest first; the page
  shows it newest first. The JS global `output` that `getDispenserID` sets
  (wasm.go:106) is not modelled.
- Floating point. The stepper index, stepper speeds and accelerations, and
  PID gains are parsed with `ParseFloat` and scaled by 1000. They are kept
  as the text typed. The float-scaled fields of an EEPROM report, shown by the
  program as `float64(…)/1000` (for instance wasm.go:213-217), are not written
  by the model.
- Eeprom.WriteFields: its "no other element changes" holds for the elements it
  writes; the float-scaled elements the program also writes are left out of
  the model, so the frame says nothing about them.
- `EepromImport`: a JSON file import that replays the parameter callbacks
  with `time.Sleep` pauses in between. Its JSON parsing and pacing are not
  part of this model.
- `time.Sleep` pacing on the bridge and the browser, flag parsing, logging,
  `main`'s listener start-up and its `os.Exit` on failure.
- Eeprom.ShowPart: an element's value is the number's decimal text, as `strconv.Itoa` writes it; JavaScript's own number formatting is not modelled.
- Relay.ReadLoop: on a read error it removes the client with the corrected
  `removeClient`. It agrees with the as-written loop while identities are
  unique (`Relay.ReadLoopSpec`); with a duplicated identity the as-written
  loop panics or leaves a copy behind (`Registry.RemoveAsWrittenPanics`,
  `Registry.RemoveAsWrittenLeavesCopy`), which this member does not model.
- Relay.ReadLoopSpec: its client-list clause is about the corrected removal;
  the as-written removal is promised to agree only while identities are unique.
- Relay.RunAsWritten: it stops at the first panic in `removeClient`. The bridge
  keeps serving: net/http recovers that connection handler's panic, and the
  client list has already been shortened by the first `append`. Runs past
  such a panic are not modelled.
- Controller.PidColumns: the run is shown as `run + 1` over unbounded
  integers. The program adds 1 in the report field's fixed-width protobuf
  type before `int(…)` (wasm.go:174), so at that type's maximum the sum wraps
  (to 0 for a `uint32` field, to -2^31 for an `int32` one). The kentpb schema
  is not part of this model, so the width is not known and the wrap is not
  modelled; `Controller.PidRowFields` inherits this.
- Relay.Step: a disconnect uses the corrected removal; the as-written one is
  `Relay.StepAsWritten`, and the two runs agree under fresh identities
  (`Relay.RunAsWrittenAgrees`).
- Requests.StepperIndex: the stepper index goes through `uint32(ParseFloat(…))`; the model keeps the text, because floating point is out of scope.

## Findings

| source | as written | input that shows it | evidently intended | confidence | as-written member | corrected member |
|---|---|---|---|---|---|---|
| ws-kent.go:183-189 | `removeClient` ranges over `ctx.cl.Clients` while shrinking it in place with `append(s[:index], s[index+1:]...)`; the loop keeps reading the shifted backing array | clients `[c, c]` with the same ID panic (`s[2:]` past length 1); `[c, c, x]` leaves one `c` behind | remove every entry with that ID and keep the rest in order | low: unreachable while IDs are fresh UUIDs (`Relay.RunKeepsUnique`); not executed | `Registry.RemoveAsWrittenPanics` | `Registry.RemoveClient` |
