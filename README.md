# BOT-Tag advertising core in Dafny

The BOT Tag is a Bluetooth LE beacon that runs on a Raspberry Pi. It
broadcasts non-connectable advertisements. Each one carries an 8-octet
location identifier taken from the hex digits of a 32-character UUID string.
This project models the core of `src/Tag.c` and proves properties about it:

- **Identifier codec** (`HexCodec`). `uuid_str_to_data` turns pairs of hex
  digits into values by upper-casing each digit and looking it up in
  `"0123456789ABCDEF"`. The model is a loop over a fresh array, specified by
  `DecodeHex`. `DecodeHex` is proved against an independent encoder: both
  round trips are proved, along with case-insensitivity and append.
- **Line trimming** (`TrimTail`). `trim_string_tail` overwrites trailing `\n`,
  `\r` and spaces of a NUL-terminated buffer with NUL, in place. The loop as
  written is modelled next to a guarded version (see Findings).
- **Advertising payload** (`AdPayload`). This is the 31-octet `data` buffer of
  LE Set Advertising Data. It holds a Flags structure `[2, 0x01, 0x04]`, then
  a Manufacturer Specific Data structure: length 12, type 0xFF, company
  0x000F low octet first, the 8 identifier octets, and a button octet. The
  model follows the C offset arithmetic step by step on an array. It is
  proved equal to an independent AD-structure encoder, and that encoding is
  proved to parse back to the same structures.
- **HCI control sequences** (`Hci`, `Advertising`). The BlueZ calls
  (`hci_open_dev`, `hci_send_req`, `hci_close_dev`) become a scripted
  controller class. It returns scripted handles and replies and records every
  call in a trace.
  - `enable_advertising` and `disable_advertising` are methods over that
    class. Each is proved equal to a function of the scripts (`EnableRun`,
    `DisableRun`).
  - Lemmas state the protocol properties: at most 5 open attempts; request
    order; one close of the opened handle as the last call; which reply
    decides which result code; and that status octets of the first two
    enable requests are ignored.
- **Constants** (`TagConstants`): the values and the result-code enumeration
  of `src/Tag.h`.

## Model

| member | source | states |
|---|---|---|
| TagConstants.ErrorCode.Value | src/Tag.h:127-139 | The enumeration values are 0..6, and only `WORK_SUCCESSFULLY` is 0. |
| CStrings.StrLen | src/Tag.c:194 | `strlen`: the index of the first NUL. Every character before it is non-NUL. |
| CStrings.CString | src/Tag.c:224-226 | The string a buffer holds: the NUL-free prefix up to the first NUL. |
| CStrings.CStringOfTerminated | src/Tag.c:432-441 | A NUL-free string followed by a NUL reads back as exactly that string. |
| HexCodec.UpperCase | src/Tag.c:211-212 | `toupper` applied to every character; the length is kept. |
| HexCodec.IndexIn | src/Tag.c:211-212 | `strchr(table, c) - table`: the first position where `c` occurs in the table. |
| HexCodec.HexValue | src/Tag.c:193 | The value of a hex digit of either case is below 16. |
| HexCodec.TableLookup | src/Tag.c:193-212 | The upper-cased character is in the conversion table exactly when it is a hex digit. Its table position is its digit value. |
| HexCodec.PairValue | src/Tag.c:210-212 | A pair of digits gives high*16 + low, always below 256. |
| HexCodec.DecodeHex | src/Tag.c:207-214 | One value per pair of digits, `|s|/2` values in all, each below 256. |
| HexCodec.HexDigitChar | src/Tag.c:193 | Encoder digit for a value: a hex digit whose value is that value. |
| HexCodec.EncodeHex | src/Tag.c:192-217 | Inverse partner of the decoder: two hex digits per byte, high digit first. |
| HexCodec.DecodeHexAt | src/Tag.c:207-214 | Value `i` is made from characters `2i` and `2i+1`. |
| HexCodec.DecodeHexAppend | src/Tag.c:433-441 | Decoding two digit strings placed one after the other gives the two decodings concatenated. |
| HexCodec.DecodeHexIgnoresCase | src/Tag.c:211-212 | Upper-casing the text does not change the decoded values. |
| HexCodec.DecodeEncode | src/Tag.c:192-217 | Decoding the hex text of any byte sequence, in either case, gives the bytes back. |
| HexCodec.UpperDigitOfValue | src/Tag.c:193 | The upper-case digit for a digit's value is that digit upper-cased. |
| HexCodec.PairValueSplits | src/Tag.c:210-212 | The pair value divides back into the high and low digit values. |
| HexCodec.EncodeDecode | src/Tag.c:192-217 | Re-encoding the decoding of well-formed text gives the text upper-cased. |
| HexCodec.LookUpDigit | src/Tag.c:211-212 | The table lookup returns the digit's value. |
| HexCodec.UuidStrToData | src/Tag.c:192-217 | Returns a fresh array with one slot per character whose first half holds exactly `DecodeHex(uuid)`. |
| TrimTail.KeptLength | src/Tag.c:224-233 | The downward scan stops after the last non-discarded character. Everything it passed is `\n`, `\r` or a space. |
| TrimTail.TrimEnd | src/Tag.c:219-235 | A prefix of the string. Everything it drops is `\n`, `\r` or a space, and its last character is not one of them. |
| TrimTail.TrimEndUnique | src/Tag.c:219-235 | These three properties determine the trimmed string. |
| TrimTail.TrimEndIdempotent | src/Tag.c:219-235 | Trimming a trimmed string changes nothing. |
| TrimTail.TrimEndKeepsLastOther | src/Tag.c:227-233 | Every character up to the last non-discarded one is kept. |
| TrimTail.ScanAsWritten | src/Tag.c:226-233 | The loop as written, without an `idx >= 0` guard: it stops at a non-discarded character or reads before the string. |
| TrimTail.ScanAsWrittenReadsBeforeStart | src/Tag.c:226-233 | On a string made only of discarded characters, the loop as written reads `message[-1]`. |
| TrimTail.NewlineReadsBeforeStart | src/Tag.c:226-233 | Concrete witness: the string `"\n"` makes the loop read before the string. |
| TrimTail.ScanAsWrittenAgrees | src/Tag.c:226-233 | When the string holds any other character, the loop as written stops exactly where the trimmed string ends. |
| TrimTail.NulFill | src/Tag.c:231 | NUL over positions `from..to`, every other byte kept. |
| TrimTail.TrimmedBuffer | src/Tag.c:219-235 | The buffer `trim_string_tail` leaves, the same length as before: NUL from the trimmed length up to `strlen`, every other byte kept. `TrimmedBufferHoldsTrimmed` states the string it then holds. |
| TrimTail.TrimmedBufferIdempotent | src/Tag.c:219-235 | Trimming an already trimmed buffer leaves the buffer unchanged, and it is still NUL-terminated. |
| TrimTail.NulFillCuts | src/Tag.c:219-235 | Filling the end of the string with NUL from position `k` leaves a buffer whose string is the first `k` characters. |
| TrimTail.TrimmedBufferHoldsTrimmed | src/Tag.c:219-235 | After trimming, the buffer holds `TrimEnd` of the string it held before. |
| TrimTail.ScanStopsAtTrimmedEnd | src/Tag.c:226-233 | The guarded loop leaves its index one before the length of the trimmed string. |
| TrimTail.TrimStringTail | src/Tag.c:219-235 | In place: the buffer becomes `TrimmedBuffer` of the old buffer. The trailing run becomes NUL and every other byte is unchanged. |
| AdPayload.Zeros | src/Tag.c:363 | `memset` to zero: `n` zero octets. |
| AdPayload.EncodeAd | src/Tag.c:365-371 | AD-structure encoding: length octet (type plus data), type octet, data. Its size is the structures' total size. |
| AdPayload.ParseEncode | src/Tag.c:365-371 | Parsing the encoding of any well-formed structures, padded with zeros, gives them back. |
| AdPayload.ManufacturerStructure | src/Tag.c:404-464 | The Manufacturer Specific Data value is company id, identifier and button octet: the identifier length plus 3. |
| AdPayload.AdvertisingData | src/Tag.c:362-466 | The payload buffer is 31 octets long. |
| AdPayload.AdvertisingDataLayout | src/Tag.c:362-466 | Octet by octet: `[2, 0x01, 0x04, 12, 0xFF, 0x0F, 0x00]`, the 8 identifier octets, the button octet 0, then 15 zero octets. That is 16 significant octets, within the 31-octet limit. |
| AdPayload.AdvertisingDataSplit | src/Tag.c:362-466 | The buffer is the Flags encoding, then the manufacturer encoding, then zeros. |
| AdPayload.AdvertisingDataParses | src/Tag.c:362-466 | A receiver parsing the buffer finds exactly the Flags and Manufacturer Specific Data structures. |
| AdPayload.IdentifierText | src/Tag.c:432-440 | The identifier text is characters 12..19 then 24..31 of the UUID string: 16 characters. |
| AdPayload.IdentifierBytes | src/Tag.c:441-452 | The 8 identifier octets are the decoding of the identifier text. |
| AdPayload.IdentifierBytesSplit | src/Tag.c:429-440 | The first 4 octets (X coordinate) come from characters 12..19 and the last 4 (Y) from characters 24..31. |
| AdPayload.ExtractIdentifier | src/Tag.c:432-440 | Returns a fresh 17-character buffer holding the identifier text and a terminating NUL. |
| AdPayload.IdentifierValues | src/Tag.c:441-445 | `uuid_str_to_data` on that buffer and `strlen/2`: 8 values, equal to the identifier octets. |
| AdPayload.ManufacturerEncoding | src/Tag.c:404-464 | The manufacturer structure encodes as `[12, 0xFF, 0x0F, 0x00]`, the identifier, then `[0]`. |
| AdPayload.ManufacturerWrittenAt | src/Tag.c:404-466 | Octets written at an offset as the code writes them splice the encoded manufacturer structure into the buffer. |
| AdPayload.FillFlags | src/Tag.c:373-402 | Writes the Flags structure encoding at `length` and advances `length` by its size (3). Nothing else in the buffer changes. |
| AdPayload.FillManufacturerData | src/Tag.c:404-466 | Writes the manufacturer structure encoding at `length` and advances `length` by 13. Nothing else in the buffer changes. |
| AdPayload.BuildAdvertisingData | src/Tag.c:362-466 | Returns a fresh buffer equal to `AdvertisingData` of the identifier octets, with `length` equal to the structures' total size. |
| Hci.Controller.Open | src/Tag.c:278 | `hci_open_dev` returns the next scripted handle and appends an open event. |
| Hci.Controller.Send | src/Tag.c:316-317 | `hci_send_req` returns the next scripted reply and appends a request event with that reply. |
| Hci.Controller.Close | src/Tag.c:479 | `hci_close_dev` appends a close event. The scripts are untouched. |
| Hci.Command.Ocf | src/Tag.c:310 | The command field of each request fits its 10 bits: 0x0006 parameters, 0x000A enable, 0x0008 data. |
| Hci.Command.Opcode | src/Tag.c:309-310 | The opcode packs `OGF_LE_CTL` (0x08) above the 10-bit command field, and it fits in 16 bits. |
| Advertising.ToUint16 | src/Tag.c:298-301 | The `int` interval stored in a `uint16_t` field: below 2^16, and unchanged when already in range. |
| Advertising.ParametersCommand | src/Tag.c:295-314 | Request 1 is LE Set Advertising Parameters (opcode 0x2006). Its minimum and maximum interval are the same 16-bit value, equal to the interval when it is in range. The type is non-connectable (3) and the channel map is 7. |
| Advertising.DataCommand | src/Tag.c:362-474 | Request 3 is LE Set Advertising Data (opcode 0x2008). Its significant length is 16, it carries 31 octets, and those octets parse as the Flags and manufacturer structures for the identifier. |
| Advertising.EnableCommands | src/Tag.c:295-474 | The requests of `enable_advertising` in sending order: opcodes 0x2006, 0x200A with enable 1, then 0x2008. |
| Advertising.RetryOpen | src/Tag.c:276-283 | The `while(retry_time--)` loop as a function of the open script: one open per turn, stopping after the first handle that is not negative or when the turns run out. It has no contract of its own; `RetryOpenAttempts` states its properties. |
| Advertising.RetryOpenTurn | src/Tag.c:277-283 | One turn of the loop: a failed open leaves the remaining turns to run, and a successful one ends the run with that handle. |
| Advertising.OpenDeviceRun | src/Tag.c:276-283 | The open phase: the retry loop with 5 turns. It has no contract of its own; `OpenDeviceAttempts` states that it makes 1 to 5 opens and ends without a handle only after 5 failures. |
| Advertising.EnableRun | src/Tag.c:266-507 | The result, calls and scripts of `enable_advertising`. The result is success, `E_OPEN_DEVICE`, `E_ADVERTISE_STATUS` or `E_SEND_REQUEST_TIMEOUT`. `E_OPEN_DEVICE` leaves the replies untouched. Success needs three replies. |
| Advertising.DisableRun | src/Tag.c:526-600 | The result, calls and scripts of `disable_advertising`. The result is success, `E_OPEN_DEVICE`, `E_ADVERTISE_STATUS` or `E_ADVERTISE_MODE`. `E_OPEN_DEVICE` leaves the replies untouched. Success needs one reply. |
| Advertising.EnableRejectsNegativeDevice | src/Tag.c:266-274 | A negative dongle id gives `E_OPEN_DEVICE` with no call made and both scripts untouched. |
| Advertising.DisableRejectsNegativeDevice | src/Tag.c:526-534 | A negative dongle id gives `E_OPEN_DEVICE` with no call made and both scripts untouched. |
| Advertising.RetryOpenAttempts | src/Tag.c:276-283 | The retry loop opens at most `retries` times and at least once. Every attempt but the last failed. It stops early only on success, and keeps the last handle returned. |
| Advertising.Requests | src/Tag.c:316-317 | The requests of a trace: only request events, no more than the trace holds. |
| Advertising.RequestsAppend | src/Tag.c:316-317 | The requests of two traces placed one after the other are the two request lists concatenated. |
| Advertising.CountClosedAppend | src/Tag.c:479 | Close counts add up over concatenated traces. |
| Advertising.CountOpenedAppend | src/Tag.c:278 | Open counts add up over concatenated traces. |
| Advertising.OpensOnly | src/Tag.c:276-283 | A trace of opens holds no request and no close. |
| Advertising.RequestsOnly | src/Tag.c:316-359 | A trace of requests is its own request list and holds no open and no close. |
| Advertising.OpenDeviceAttempts | src/Tag.c:276-293 | The open phase makes 1 to 5 opens of the dongle and nothing else. The handle is negative exactly when all 5 attempts failed. |
| Advertising.SessionTrace | src/Tag.c:276-479 | Opens, then requests, then one close: the requests are those sent, there is one close, and it comes last. |
| Advertising.SendUntilFailureShape | src/Tag.c:316-477 | Requests go out in order, each with the next reply. Only the last may fail in transport, and sending stops early exactly on such a failure. |
| Advertising.EnableSends | src/Tag.c:295-507 | With a handle, `enable_advertising` sends its requests until a transport failure, closes the handle, and takes its result from the last reply. |
| Advertising.EnableSession | src/Tag.c:240-508 | With a handle the trace is: opens, then 1 to 3 requests in the order parameters, enable(1), data, then one close of that handle. The result comes from the last reply. |
| Advertising.EnableOpenFailure | src/Tag.c:266-293 | `E_OPEN_DEVICE` means no request and no close, and the replies are untouched. For a valid dongle id it also means 5 failed opens; for a negative id, no call at all. |
| Advertising.EnableClosesOnce | src/Tag.c:240-508 | At most 5 opens. A close happens exactly when the result is not `E_OPEN_DEVICE`, and then it is the last call and closes the handle every request used. |
| Advertising.EnableResultCode | src/Tag.c:319-507 | Both directions of the mapping: no request gives `E_OPEN_DEVICE`; a failed last request gives `E_SEND_REQUEST_TIMEOUT`. Three requests with a non-zero final status give `E_ADVERTISE_STATUS`, with a zero final status success. `E_ADVERTISE_MODE` never occurs. |
| Advertising.EnableIgnoresEarlyStatus | src/Tag.c:319-360 | Status octets of the parameters and enable requests never affect the result. |
| Advertising.DisableSession | src/Tag.c:511-601 | With a handle: exactly one request, SetAdvertiseEnable(0) on that handle, then its close as the last call, whatever the reply. Without a handle: no request and no close. |
| Advertising.DisableResultCode | src/Tag.c:565-600 | Both directions: a transport failure gives `E_ADVERTISE_MODE`, a non-zero status `E_ADVERTISE_STATUS`, otherwise success. `E_SEND_REQUEST_TIMEOUT` never occurs. |
| Advertising.OpenDevice | src/Tag.c:276-283 | The retry loop, proved equal to `OpenDeviceRun`: the handle, the trace extension and the scripts it consumed. |
| Advertising.EnableAdvertising | src/Tag.c:240-508 | Result code, trace and scripts are exactly those of `EnableRun`. |
| Advertising.DisableAdvertising | src/Tag.c:511-601 | Result code, trace and scripts are exactly those of `DisableRun`. |

## Left out

- Logging (`zlog_*`, `perror`) is left out: it does not change any result.
- The `Debugging` build variant is left out.
- `get_config` is not part of this model. Only its use of `trim_string_tail` matters, and that function is modelled on its own.
- `single_running_instance`, `ctrlc_handler`, `main` and the `ready_to_work` loop are not part of this model. They deal with files, signals, threads and process control.
- The BlueZ library is replaced by the scripted `Hci.Controller`: socket handling, the 1000 ms timeout and the wire format of `struct hci_request` are not modelled.
- `htobs` is the identity on the octet values written: it is a no-op on little-endian hosts, and every value fits in an octet.
- `malloc` failure in `uuid_str_to_data` (NULL return) is not modelled: the model's arrays are always allocated. The buffer the enable path allocates is never freed; that leak is not modelled.
- The `major_number`, `minor_number` and `rssi_value` parameters of `enable_advertising` are accepted and unused, as in the code.
- HexCodec.UuidStrToData: an odd length or a non-hex character is a precondition, not an error result. The code checks neither. For a non-hex character `strchr` returns NULL, and the subtraction is then undefined. For an odd length the last low digit read is the terminating NUL: `toupper(0)` is 0, and `strchr` finds the table's own terminator at index 16, so the last value is `16*hi + 16`. That can reach 256, which is no octet.
- HexCodec.UuidStrToData: the enumeration in src/Tag.h has no result code for a malformed identifier, so none is invented.
- Advertising.EnableAdvertising requires a UUID string of at least 32 characters with hex digits at positions 12..19 and 24..31, because the code reads those characters without checking them.
- AdPayload.FLAGS_VALUE is 0x04 as the code writes it. The comment above that line describes 0x1A.
- Advertising.ToUint16 models the `int` to `uint16_t` conversion of the interval. The parameters command otherwise carries the interval unchanged.
- Advertising.EnableAdvertising: the octets of LE Set Advertising Parameters other than the intervals, type and channel map (own address type, peer address, filter policy) are zero in the code and are not modelled.
- An exhausted open or reply script answers with failure (-1). This stands for a missing dongle or a dead link; the scripts are otherwise unconstrained.

## Findings

| source | as written | input that shows it | evidently intended | confidence | as-written member | corrected member |
|---|---|---|---|---|---|---|
| src/Tag.c:226-233 | The scan `while(10 == message[idx] \|\| 13 == message[idx] \|\| 32 == message[idx])` has no lower bound. On a string made only of `\n`, `\r` and spaces, `idx` reaches -1 and the loop reads (and may overwrite) `message[-1]`. | `"\n"` (a one-character string holding a newline) | Stop at index 0: an all-blank string becomes the empty string. | not executed; harmless where `get_config` calls it, because the byte before the value is `=` | TrimTail.NewlineReadsBeforeStart | TrimTail.TrimStringTail |
