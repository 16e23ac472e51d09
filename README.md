# go-ble core, modelled in Dafny

This project models the sequential core of the Go library `go-ble` (module
`github.com/cybergarage/go-ble`). The library scans for Bluetooth Low Energy
advertisements on top of the tinygo `bluetooth` adapter. It keeps one device per
advertising address and connects to devices. It also offers a byte-stream
"transport" over GATT characteristics. The model covers:

- **Discovery merge** (`Scanner`, `Devices`, `DeviceBase`). The scanner maps
  address text to device. The scan callback folds each advertisement into that
  map:
  - a new address registers a device built from the scan result;
  - a known address gets a new `lastSeenAt` and RSSI, and every advertised
    service it lacks;
  - `modifiedAt` is bumped exactly when a service was added.

  Each device keeps its advertised services in a table keyed by UUID. It
  memoises its manufacturer and holds a connection session while connected.
- **Transport** (`Transport`). Three role-bound characteristics are set by
  option closures. A FIFO queue holds notification payloads. `Read` dispatches
  by priority: the notify queue, which is polled until the context is done;
  then one read of the read characteristic; then `ErrNotSet`.
- **UUID value type** (`Uuid`, `BleUuid`, `Hex`). A UUID is four 32-bit words.
  The model covers:
  - the big-endian 16-byte serialisation and its inverses;
  - the 16- and 32-bit short forms, which go in the last word of the package's
    word-reversed base UUID;
  - the three mutually exclusive classifiers;
  - the typed constructor `NewUUIDFrom`;
  - the 8-4-4-4-12 upper-case text, and the three vectors of the package's UUID
    test.
- **Address text** (`Address`). Bytes 10 to 15 of the 16-byte buffer, as
  lower-case hex octets joined by colons.
- **Metadata records** (`Db`, `CompanyDb`, `ExtDb`, `Characteristics`,
  `Manufacturers`, `Json`, `Errors`):
  - the total lookups with a not-found fallback record;
  - the map-building insert loops, where the last write wins and SDO service
    records win over standard ones;
  - the base characteristic, whose every operation fails with the
    not-connected error naming it;
  - the manufacturer and its hex projection.

Everything from outside the core becomes an input of the operation that uses it:

- the radio adapter: enable, scan, connect, disconnect, service discovery, the
  read and write of a bound characteristic;
- the clock: each callback gets one `now`;
- context cancellation: a flag, or the poll index at which the context is done;
- the UUID text parser of `github.com/google/uuid`: a function from text to 16
  bytes or nothing.

`Devices.ScanResult.address` is the address text the adapter gives, which the
scanner uses as its key.

A class models each object whose fields the source updates in place:
`Devices.TinyDevice`, `Scanner.TinyScanner` and `Transport.Transport`.
Map-building loops, the `Bytes` loops and the range loops over maps are methods
with loop invariants. Each method is proved against a specification function:
`Index.LastWins`, `Uuid.BytesOf`, `Scanner.Merged`, `Transport.Poll` or
`Transport.LastFor`.

Where the code and its own comments or signatures disagree, the model follows
the code:

- `ble/characteristic.go` passes a UUID to a metadata lookup keyed by 16-bit
  values. The model looks it up in the 128-bit-keyed database of
  `ble/db/ext/database.go`.
- `ble/scanner_tiny.go` takes scanner options, while the interface in
  `ble/scanner.go` takes a result callback. The model follows
  `ble/scanner_tiny.go`.

## Model

| member | source | states |
|---|---|---|
| Uuid.WordBytes | ble/types/uuid.go:180-183 | one word is written as four bytes |
| Uuid.WordRoundTrip | ble/types/uuid.go:37-40 | reassembling the four bytes of a word gives the word back |
| Uuid.BytesOfWord | ble/types/uuid.go:180-183 | splitting an assembled word gives its four bytes back in order |
| Uuid.BytesOfWordAt | ble/types/uuid.go:179-184 | bytes 4i to 4i+4 of the serialisation are word i, most significant byte first |
| Uuid.Bytes | ble/types/uuid.go:177-186 | the array loop fills exactly the big-endian serialisation of the four words |
| Uuid.FromUuid | ble/types/uuid.go:34-42 | the UUID built from 16 bytes serialises back to those bytes |
| Uuid.FromUuidBytes | ble/types/uuid.go:34-42 | reading back the serialisation of any UUID gives that UUID |
| Uuid.BytesInjective | ble/types/uuid.go:177-186 | two UUIDs with equal bytes are equal |
| Uuid.FromBytes | ble/types/uuid.go:63-70 | a length other than 16 gives the nil UUID and the byte-length error carrying that length; 16 bytes give no error and a UUID whose serialisation is those bytes |
| Uuid.FromBytesRoundTrip | ble/types/uuid.go:63-70 | `NewUUIDFromBytes(Bytes(u))` is `(u, no error)` for every u |
| Uuid.FromUuid16 | ble/types/uuid.go:73-80 | every 16-bit value gives a 16-bit UUID whose `UUID16()` is `(v, true)` |
| Uuid.Widen16 | ble/types/uuid.go:78 | widening a 16-bit value keeps it in the low half, and narrowing gives it back |
| Uuid.FromUuid32 | ble/types/uuid.go:83-90 | the UUID is 32-bit iff the value exceeds 0xFFFF and 16-bit otherwise; when 32-bit, `UUID32()` gives the value back |
| Uuid.Low16 | ble/types/uuid.go:147 | a word equals its low half exactly when it fits in 16 bits |
| Uuid.ExactlyOneClass | ble/types/uuid.go:146-158 | every UUID is exactly one of 16-bit, 32-bit and 128-bit |
| Uuid.Uuid16 | ble/types/uuid.go:161-166 | the flag is `IsUUID16`, the value is 0 when it fails, and on success the UUID is the base words with the value in the last word |
| Uuid.Uuid32 | ble/types/uuid.go:169-174 | the flag is `IsUUID32`, the value is 0 when it fails, and on success the value exceeds 0xFFFF and is the last word after the base words |
| Uuid.EqualIsWordwise | ble/types/uuid.go:136-138 | `Equal` holds iff all four words are equal, iff the serialisations are equal |
| Uuid.IsNilIsAllZero | ble/types/uuid.go:141-143 | `IsNil` holds iff all four words are zero, iff all 16 bytes are zero |
| Uuid.FromString | ble/types/uuid.go:45-51 | a parser failure gives the nil UUID and the error; a success gives the UUID of the parsed bytes and no error |
| Uuid.MustFromString | ble/types/uuid.go:54-60 | the nil UUID when `NewUUIDFromString` fails, otherwise its UUID |
| Uuid.FromInteger | ble/types/uuid.go:109-118 | an integer that fits in 16 bits gives the 16-bit UUID of that value; one that fits in 32 bits gives the base words with the value in the last word; anything else gives the nil UUID and the type error |
| Uuid.From | ble/types/uuid.go:93-119 | for each dynamic type, the result of its case: a UUID as is; a google UUID by its bytes; a `uint16` as a 16-bit UUID holding it; a `uint32` in the last word, 32-bit iff above 0xFFFF; a string as `NewUUIDFromString` gives it; a byte slice fails iff its length is not 16, and otherwise gives the UUID of those bytes; any error comes with the nil UUID |
| Uuid.MustFrom | ble/types/uuid.go:122-128 | the nil UUID whenever `NewUUIDFrom` errors, otherwise its UUID; a `uint16` always gives a 16-bit UUID |
| Uuid.String | ble/types/uuid.go:189-196 | 36 characters with dashes at positions 8, 13, 18 and 23 |
| Uuid.ParseString | ble/types/uuid.go:189-196 | the canonical parser recovers every UUID from its text, so the text loses nothing |
| Uuid.EncodeGroups | ble/types/uuid.go:192-193 | the five hex groups, run together, are the hex of all 16 bytes |
| Uuid.StringInjective | ble/types/uuid.go:189-196 | distinct UUIDs have distinct texts |
| Uuid.StringDigits | ble/types/uuid.go:191-194 | every character other than the four dashes is an upper-case hex digit |
| BleUuid.Bytes | ble/uuid.go:106-115 | the array loop gives a fresh 16-byte slice holding the big-endian serialisation |
| BleUuid.BytesRoundTrip | ble/uuid.go:30-38 | `NewUUIDFromUUID` of the slice `Bytes` returns is the same UUID |
| BleUuid.StringOfGroups | ble/uuid.go:118-125 | the text is the five group texts joined by dashes |
| BleUuid.Vector16Groups | bletest/uuid_test.go:30 | the five byte groups of the 16-bit vector's words have the test's hex texts |
| BleUuid.Vector16String | bletest/uuid_test.go:30 | `String` of the 16-bit vector's words is its dash-joined group texts |
| BleUuid.Vector16Join | bletest/uuid_test.go:30 | the test's text is those groups joined by dashes |
| BleUuid.Vector16Text | bletest/uuid_test.go:30 | the test's 16-bit text denotes words whose last word is 0xFD3D |
| BleUuid.Vector32Groups | bletest/uuid_test.go:31 | the five byte groups of the 32-bit vector's words have the test's hex texts |
| BleUuid.Vector32String | bletest/uuid_test.go:31 | `String` of the 32-bit vector's words is its dash-joined group texts |
| BleUuid.Vector32Join | bletest/uuid_test.go:31 | the test's text is those groups joined by dashes |
| BleUuid.Vector32Text | bletest/uuid_test.go:31 | the test's 32-bit text denotes words whose last word is 0x0001ABCD |
| BleUuid.Vector128Groups | bletest/uuid_test.go:32 | the five byte groups of the 128-bit vector's words have the test's hex texts |
| BleUuid.Vector128String | bletest/uuid_test.go:32 | `String` of the 128-bit vector's words is its dash-joined group texts |
| BleUuid.Vector128Join | bletest/uuid_test.go:32 | the test's text is those groups joined by dashes |
| BleUuid.Vector128Text | bletest/uuid_test.go:32 | the test's 128-bit text denotes words with a zero first word |
| BleUuid.TestVectors | bletest/uuid_test.go:30-49 | the first vector is 16-bit only with short value 0xFD3D, the second is 32-bit only with 0x0001ABCD, the third is 128-bit only |
| BleUuid.Uuid32FailsOnShort | ble/uuid.go:98-103 | `UUID32` is `(0, false)` whenever the last word fits in 16 bits |
| Hex.LowerByte | ble/address.go:27 | `%02x` of a byte is two characters |
| Hex.UpperByte | ble/types/uuid.go:192 | `%X` writes two characters per byte |
| Hex.EncodeLower | ble/manufacture.go:76 | the hex text has two characters per byte |
| Hex.EncodeUpper | ble/types/uuid.go:192-193 | the hex text has two characters per byte |
| Hex.DigitValue | ble/types/uuid.go:192 | reference reader for the hex digits written at that line, used by the round-trip lemmas: a digit's value is below 16 |
| Hex.Decode | ble/types/uuid.go:192 | reference decoder, the inverse of the hex written at that line, used by the round-trip lemmas: a decoded string has half as many bytes as the text has characters |
| Hex.DecodeLower | ble/manufacture.go:76 | lower-case hex decodes back to the bytes |
| Hex.DecodeUpper | ble/types/uuid.go:192-193 | upper-case hex decodes back to the bytes |
| Hex.LowerByteInjective | ble/address.go:27-28 | distinct bytes have distinct `%02x` texts |
| Hex.LowerDigitsOnly | ble/manufacture.go:76 | every character of lower-case hex is a lower-case digit |
| Hex.UpperDigitsOnly | ble/types/uuid.go:192-193 | every character of upper-case hex is an upper-case digit |
| Hex.EncodeUpperAppend | ble/types/uuid.go:192-193 | hex of a concatenation is the concatenation of the hex texts |
| Address.ToString | ble/address.go:25-29 | the text is exactly 17 characters |
| Address.Layout | ble/address.go:27-28 | octet k sits at positions 3k and 3k+1, and colons sit at 3k+2 |
| Address.DependsOnLastSix | ble/address.go:26-28 | buffers that agree on bytes 10 to 15 have the same text |
| Address.Injective | ble/address.go:26-28 | equal texts mean equal bytes 10 to 15, so buffers that differ there render differently |
| Address.Digits | ble/address.go:27-28 | every non-colon position holds a lower-case hex digit |
| Index.LastWinsKeys | ble/db/database.go:58-61 | every record's key is in the built map, and each key holds a record of the list with that key |
| Index.LastWinsAt | ble/db/database.go:58-61 | a key holds the last record in the list with that key |
| Index.LastWinsAppend | ble/db/database.go:70-82 | inserting one list and then another is the first map overridden by the second |
| Index.InsertAll | ble/db/database.go:91-94 | the insert loop, continuing from a map built from earlier records, builds the map of all the records together |
| Db.Build | ble/db/database.go:50-101 | every record in the built database sits under its own key |
| Db.Init | ble/db/database.go:53-100 | the three insert loops, the SDO list after the standard service list, build exactly `Build`'s maps |
| Db.LookupCompany | ble/db/database.go:115-124 | found iff the id is a key, then the stored record; on a miss the record `(id, "")`; the id always matches in a well-keyed database |
| Db.LookupService | ble/db/database.go:127-137 | found iff the UUID is a key, then the stored record; on a miss the queried UUID with empty name and id |
| Db.LookupCharacteristic | ble/db/database.go:140-150 | found iff the UUID is a key, then the stored record; on a miss the queried UUID with empty name and id |
| Db.CompanyFromList | ble/db/database.go:58-61 | a company record is found under its id when no later record has that id |
| Db.CompanyMissing | ble/db/database.go:120-123 | an id no record carries gives `(id, "")` and false |
| Db.SdoWins | ble/db/database.go:70-82 | an SDO record wins over any standard service record with the same UUID |
| Db.ServiceFromList | ble/db/database.go:70-73 | a standard service record is found when no later standard or SDO record has its UUID |
| Db.CharacteristicFromList | ble/db/database.go:91-94 | a characteristic record is found under its UUID when no later record has that UUID |
| CompanyDb.LookupCompany | ble/database.go:57-67 | found iff some record has the id, and then it is the first such record; on a miss `(id, "")`; the id matches on both paths |
| CompanyDb.AgreesWithMap | ble/database.go:57-67 | when no two records share an id, the first-match list search and the keyed map built from the same list give the same answer |
| ExtDb.ParseAll | ble/db/ext/database.go:43-49 | fails iff some record's text does not parse; otherwise it gives every record, in order, with its parsed UUID filled in |
| ExtDb.Build | ble/db/ext/database.go:34-55 | fails iff some text does not parse (the panic); otherwise each key holds a record whose parsed UUID is that key |
| ExtDb.Init | ble/db/ext/database.go:42-50 | the parse-and-insert loop builds exactly `Build`, returning nothing at the first text that does not parse |
| ExtDb.LookupCharacteristic | ble/db/ext/database.go:67-78 | found iff the UUID is a key, then the stored record; on a miss the queried UUID with empty text, name and id |
| ExtDb.LaterOverwrites | ble/db/ext/database.go:43-49 | a record is found under its parsed UUID when no later record parses to the same UUID |
| Json.EscapeChar | ble/characteristic.go:135 | a plain character is written as itself, any other as an escape starting with a backslash |
| Json.Escape | ble/characteristic.go:135 | escaping never shortens the text |
| Json.Quote | ble/characteristic.go:135 | the quoted text starts and ends with a double quote |
| Json.QuotePlain | ble/characteristic.go:135 | text made only of plain characters is quoted unchanged |
| Errors.Text | ble/characteristic.go:108 | the wrapped not-connected error reads "not connected: " followed by its detail |
| Characteristics.New | ble/characteristic.go:76-84 | service and UUID are stored unchanged; name and id come from the record stored under the UUID, and are empty on a miss |
| Characteristics.MarshalObject | ble/characteristic.go:121-131 | the uuid field is the 36-character text that parses back to the UUID; name and id are as stored |
| Characteristics.String | ble/characteristic.go:134-140 | the JSON text starts with the uuid key, followed by the UUID text |
| Characteristics.UuidTextPlain | ble/characteristic.go:127 | a UUID text needs no JSON escaping |
| Characteristics.Read | ble/characteristic.go:107-109 | no bytes, and the not-connected error carrying the characteristic's text |
| Characteristics.Write | ble/characteristic.go:112-114 | 0 bytes written whatever the data, and the not-connected error |
| Characteristics.Notify | ble/characteristic.go:117-119 | the not-connected error; the callback is never registered |
| Characteristics.GatingErrorNamesUuid | ble/characteristic.go:107-119 | the error text of each operation begins "not connected: " and holds the UUID text at a fixed place |
| Manufacturers.NilManufacturer | ble/manufacture.go:39-47 | company 0 named "Unknown", and no data |
| Manufacturers.New | ble/manufacture.go:49-55 | the company has the given id and the data is as given; an id not in the list gives an empty name, and a listed id gives a listed company |
| Manufacturers.MarshalObject | ble/manufacture.go:68-78 | id and name are the company's; data is lower-case hex, two digits per byte, that decodes back to the data |
| DeviceBase.NewBaseDevice | ble/device_base.go:29-36 | all three timestamps are the same instant |
| DeviceBase.LookupServiceFrom | ble/device_base.go:54-61 | found iff some service's UUID equals the query, and then it is the first such service; otherwise `(nil, false)` |
| DeviceBase.FoundIsUnique | ble/device_base.go:54-61 | among services with distinct UUIDs, the one found is the one with the queried UUID |
| Devices.ServiceOf | ble/device_tiny.go:138-146 | a service-data element gives a service with its UUID and data and no characteristics |
| Devices.ServicesOf | ble/device_tiny.go:44-46 | one service per element, in element order |
| Devices.DistinctCount | ble/device_tiny.go:153-163 | services with distinct UUIDs have as many UUIDs as entries |
| Devices.UuidsOfMember | ble/device_tiny.go:153-163 | a UUID is among a listing's UUIDs iff some listed service has it |
| Devices.EnumerateStep | ble/device_tiny.go:155-161 | one step of the range loop adds one unvisited key to the listing and keeps the UUIDs distinct |
| Devices.Enumerate | ble/device_tiny.go:153-163 | the range loop lists every stored service exactly once, each under its own key |
| Devices.ServiceTableShape | ble/device_tiny.go:35-48 | the table of a scan result has an entry for each element's UUID and no other, each entry under its own UUID and without characteristics |
| Devices.ServiceTableLastWins | ble/device_tiny.go:44-46 | a later element with the same UUID in the packet replaces an earlier one |
| Devices.ManufacturerOfEntries | ble/device_tiny.go:51-67 | no entries give the nil manufacturer; one entry gives that entry's manufacturer; with several, the last entry's company id and data |
| Devices.TinyDevice.FromScanResult | ble/device_tiny.go:35-48 | the device keeps the scan result and its RSSI, and has no manufacturer yet and no session; its timestamps are all `now`; its table is the scan result's service table |
| Devices.TinyDevice.AddServiceDataElement | ble/device_tiny.go:138-146 | the element's service is stored under its UUID; nothing else changes |
| Devices.TinyDevice.AddService | ble/device_tiny.go:148-150 | the service is stored under its UUID, replacing any entry with that key; every other entry and field is unchanged |
| Devices.TinyDevice.Services | ble/device_tiny.go:153-163 | every stored service exactly once, each equal to the table entry for its UUID |
| Devices.TinyDevice.LookupAdvertisedService | ble/device_tiny.go:85-92 | `(s, true)` iff a service with the UUID is stored, and then s is that service; otherwise `(nil, false)` |
| Devices.TinyDevice.LookupService | ble/device_tiny.go:95-99 | not connected: exactly the advertised lookup; connected: the adapter's discovery answer on this device's own session handle |
| Devices.TinyDevice.Manufacturer | ble/device_tiny.go:51-67 | the first call computes the manufacturer from the scan result's entries and stores it; later calls return the stored value; other fields are unchanged |
| Devices.TinyDevice.Connect | ble/device_tiny.go:166-179 | on success the session is the adapter's handle, so IsConnected holds; on failure that error is returned and the session is unchanged |
| Devices.TinyDevice.Disconnect | ble/device_tiny.go:182-192 | without a session, success and no change; with one, the adapter's result, and the session is dropped only on success |
| Scanner.ScanHandlersOf | ble/scanner_tiny.go:52-58 | a handler is collected iff it is among the options, and there are never more handlers than options |
| Scanner.ScanHandlersAppend | ble/scanner_tiny.go:52-58 | collecting is in option order: over two runs of options it is the two collections in sequence |
| Scanner.CollectScanHandlers | ble/scanner_tiny.go:52-58 | the option loop keeps exactly the `ScanHandler` options, in order |
| Scanner.MergeStep | ble/scanner_tiny.go:76-81 | visiting one more scanned service stores it iff it is absent from the device |
| Scanner.MergeNone | ble/scanner_tiny.go:76 | before any scanned service is visited, the table is as it was |
| Scanner.MergeAdditive | ble/scanner_tiny.go:76-81 | no service is removed; the table gains exactly the added scanned UUIDs; old entries are unchanged and added ones are the scanned services |
| Scanner.FirstWriteWins | ble/scanner_tiny.go:76-80 | when not connected, stored services are never replaced, and the table becomes the scanned table overridden by the old one |
| Scanner.MergeIdempotent | ble/scanner_tiny.go:70-81 | when not connected, the same advertisement a second time adds nothing and leaves the table unchanged |
| Scanner.MergeWellKeyed | ble/scanner_tiny.go:76-81 | merging keeps every service under its own UUID |
| Scanner.MergeServices | ble/scanner_tiny.go:76-81 | the service loop leaves the device's table merged; `modifiedAt` is `now` iff a service was added; all other fields are unchanged |
| Scanner.TinyScanner.constructor | ble/scanner_tiny.go:29-33 | a new scanner has no devices |
| Scanner.TinyScanner.Devices | ble/scanner_tiny.go:36-42 | every device of the map exactly once, and nothing else |
| Scanner.TinyScanner.OnScanResult | ble/scanner_tiny.go:63-91 | context done: the scan stops, with no change and no handler call. Otherwise: the keys gain exactly the address; a new address gets a fresh device built from the result; a known device gets the new `lastSeenAt` and RSSI, the merged table, and `now` as `modifiedAt` iff a service was added; other devices are untouched; each handler is called once with the device, in order |
| Scanner.TinyScanner.Scan | ble/scanner_tiny.go:45-93 | an enable error is returned with no change and no handler call. Otherwise the adapter's scan error is returned; the keys gain exactly the addresses of the advertisements before the first one that finds the context done; registered devices stay under their keys; the handler calls are, per such advertisement in order, every handler once with the device now under its address |
| Scanner.TinyScanner.Feed | ble/scanner_tiny.go:63-91 | delivering the advertisements stops at the first one that finds the context done; up to there the keys gain exactly their addresses, old devices stay under their keys, and the calls are each advertisement's handler calls in order |
| Scanner.TinyScanner.Deliver | ble/scanner_tiny.go:63-91 | one callback: a done context stops with no change; otherwise the delivered prefix grows by one advertisement, with its address among the keys and its handler calls appended |
| Scanner.Refresh | ble/scanner_tiny.go:73-81 | a known device gets the new `lastSeenAt` and RSSI and the merged table, `modifiedAt` is `now` iff a service was added, and the other fields are unchanged |
| Scanner.Stop | ble/scanner_tiny.go:64-67 | the index of the first advertisement that finds the context done (or the count of advertisements): none before it is done |
| Scanner.HandlerCalls | ble/scanner_tiny.go:87-89 | one call per handler, in handler order, each with the given device |
| Scanner.FeedTwice | ble/scanner_tiny.go:70-85 | the same advertisement fed twice gives one device with the advertisement's service table, first seen and last modified at the first event, and last seen at the second |
| Transport.LastFor | ble/transport.go:83-95 | no characteristic for a role iff no option names it; otherwise the one an option for that role gave |
| Transport.LastForAppend | ble/transport.go:91-93 | a later option for a role overrides an earlier one, and options for other roles leave it alone |
| Transport.Accessor | ble/transport.go:118-139 | the bound characteristic and no error, or `ErrNotSet` exactly when the role is unbound |
| Transport.PollDone | ble/transport.go:151-154 | a context done before the first poll leaves the queue untouched and returns no payload |
| Transport.PollFront | ble/transport.go:155-165 | with a live context and a non-empty queue, the front payload is returned and the rest remain in order |
| Transport.PollKeepsAll | ble/transport.go:149-170 | nothing is dropped: the returned payload, followed by the queue left, is the old queue followed by everything that arrived while polling |
| Transport.Transport.constructor | ble/transport.go:83-95 | the queue is empty, and each role is bound by the last option for it, if any |
| Transport.Transport.Apply | ble/transport.go:61-80 | an option binds its own role and changes nothing else |
| Transport.Transport.Open | ble/transport.go:98-110 | without a notify characteristic, success and no handler registered; with one, exactly its `Notify` error, and the handler is registered on success |
| Transport.Transport.Close | ble/transport.go:113-115 | always succeeds |
| Transport.Transport.OnNotification | ble/transport.go:100-104 | the payload is appended to the back of the queue; nothing else changes |
| Transport.Transport.WriteCharacteristic | ble/transport.go:118-123 | the write characteristic, or `ErrNotSet` when unbound |
| Transport.Transport.ReadCharacteristic | ble/transport.go:126-131 | the read characteristic, or `ErrNotSet` when unbound |
| Transport.Transport.NotifyCharacteristic | ble/transport.go:134-139 | the notify characteristic, or `ErrNotSet` when unbound |
| Transport.Transport.Read | ble/transport.go:142-176 | a notify characteristic takes priority: the poll loop's payload, removed from the queue, or the context error. Otherwise the one read of the read characteristic. Otherwise `ErrNotSet`. The role fields never change |
| Transport.Transport.Write | ble/transport.go:179-184 | `(0, ErrNotSet)` without a write characteristic; otherwise its answer for the data unchanged |
| Transport.Transport.WriteWithoutResponse | ble/transport.go:187-192 | `(0, ErrNotSet)` without a write characteristic; otherwise its unacknowledged write's answer for the data unchanged |
| Transport.PushThenDrain | ble/transport.go:100-165 | n pushes and then n reads under a live context return the payloads in push order |

## Left out

- Radio adapter:
  - `Enable`, the adapter's `Scan` and `StopScan`, `Connect`, `Disconnect`,
    `DiscoverServices` and `DiscoverCharacteristics` are inputs: an error
    value, a connect outcome, or the `discover` function.
  - The connected branch of `LookupService` (building a service from
    discovered characteristics) is the answer of `discover` for the
    device's session handle and the UUID, so each connection has its own
    answers.
  - The `bluetooth.ScanResult` accessors are the fields of `Devices.ScanResult`.
  - The scanner key is the address text the adapter's `Address.String` gives,
    held in the scan result.
- Concurrency and time:
  - `sync.Mutex` and `sync.Map` are sequential state.
  - The iteration order of a Go map, `sync.Map` included, is unspecified: the
    range loops pick keys nondeterministically.
  - The 100 ms sleep in the polling loop is modelled as follows: the context is
    done from a given poll on, and the payloads the handler receives during
    each sleep are an input of `Read`.
  - `time.Now` is a `now` parameter, one instant per callback.
- `Transport.Transport.Read` does not model `context.WithTimeout` with
  `DefaultTransportTimeout` when the context has no deadline; the caller's
  context stands for the result.
- `Scanner.TinyScanner.Scan` does not model `context.WithTimeout` with
  `DefaultScanTimeout` for the same reason. Handlers are recorded as
  (handler, device) calls rather than run.
- Transport's `Read` has a branch for a queue element that is not a byte slice.
  Only the notify handler pushes to the queue, and it pushes byte slices, so
  the queue holds byte sequences and the branch is not modelled.
- The `uuid.Parse` function of `github.com/google/uuid` is an input (a
  `Uuid.Parser`). `Uuid.ParseCanonical` is only the inverse of `String`.
- The `safecast` library in `NewUUIDFrom` is modelled by its range checks on a
  mathematical integer (`Uuid.Source.OfInteger`).
- `Uuid.FromInteger`: for a value in the 32-bit range, the contract states only
  the base words and the value in the last word, not `IsUUID32`. Classifying it
  needs `n as bv32 > 0xFFFF` for a symbolic integer `n`. With contradictory
  assumptions reported, that fact runs out of resource at the limit of 2000000,
  even alone. `Uuid.FromUuid32` states the classification for the word.
- Formatting and data:
  - `encoding/json` is modelled only as far as the characteristic's `String`
    needs: string quoting, and fields in declaration order.
  - The `json.Marshal` error path is not modelled, since it cannot fail on
    these string fields.
  - The manufacturer's `String` and the device's `MarshalObject` and `String`
    (JSON, RFC 3339 times) are not modelled.
  - YAML unmarshalling and the `go:embed` data of the `init` functions are
    replaced by given record lists. A YAML decoding panic is not modelled. A
    UUID parse panic in `ble/db/ext/database.go` is the `None` result.
- Nil and empty slices are both the empty sequence.
- Device pointers in Go are object references here. A characteristic refers to
  its service by UUID, not by pointer.
- `ble/uuid.go` repeats the definitions of `ble/types/uuid.go`. The model
  defines them once in `Uuid`, and `BleUuid` adds the slice-returning `Bytes`
  and the test vectors. `NewUUIDFromUUIDString` of `ble/uuid.go`, which
  returns the zero UUID on a parse error, is `Uuid.FromString`.
- `ble/address.go` converts an address, declared as a four-word UUID, to
  `[16]byte`. The model takes the 16-byte buffer directly.
- `Errors.Text` gives the messages of the error values without their number or
  type details.
- `ble/characteristic_tiny.go`, the CLI, the interface-only files and the
  example tests are not part of this model.
