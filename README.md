# Serial-port monitor and register table, modelled in Dafny

This project models two parts of a serial-debugging web client.

The **serial-port monitor** lives in the client's serial store. While monitoring is on, it keeps one
WebSocket open to the backend's port-list endpoint and asks for the port list each time the socket
opens. Every `ports_update` snapshot replaces the port drop-down and selects the first port. When a
socket closes while monitoring is on, the monitor schedules a reconnect three seconds later. It also
holds the operator's choice of port and baud rate.

The model is in `serial_monitor.dfy`. It has one pure step function per handler over a `Monitor`
value, and a class `PortMonitor` whose methods are those handlers and which is proved to compute them.
Sockets and timers are numbered in creation order. `live` holds the sockets whose close event is
still to come, and `pending` holds the timers that neither fired nor were cleared. A closed socket and
a cleared timer therefore can no longer deliver events.

The **register view** edits a table of 32-bit registers:

- `register_bits.dfy` covers the register text and the bit editors: how text such as `0x31325233`
  is read (`parseInt(value.replace('0x',''), 16) || 0`), how one bit is flipped and handed to
  `onChange` as `0x` plus eight upper-case hex digits, how the byte display splits a value into bytes,
  and which bit each on-screen button edits. Three editors share this arithmetic; the view renders
  only the compact one, so the rows cite it, and the byte display of the horizontal editor is
  modelled although no row renders it.
- `register_table.dfy` covers the table handlers: drag-reordering, editing, syncing the two value
  columns (a bit press ends there: the table stores the editor's text upper-cased, with a `0X`
  prefix), deleting one row or the selected rows, adding a row, select-all and its tri-state
  checkbox, and the validation `importConfig` applies to an imported JSON file. The table is a class
  whose `rows` field each handler reassigns.

`wrappers.dfy` holds the `Option` and `Result` types both parts use.

## Model

| member | source | states |
|---|---|---|
| SerialMonitor.ConnectStep | src/store/serial.ts:73-76 | a connect makes a fresh socket the current one and keeps the invariant; nothing else changes |
| SerialMonitor.Initial | src/store/serial.ts:11-49 | the store starts stopped, with no socket, timer, request, port or selection and 115200 in both rate fields; this state satisfies the handle invariant and the selection invariant |
| SerialMonitor.StartStep | src/store/serial.ts:52-57 | start does nothing while monitoring; otherwise it sets the flag and opens exactly one new socket, which joins the live sockets, and nothing else changes |
| SerialMonitor.StartIsIdempotent | src/store/serial.ts:52-57 | starting twice is starting once and opens no second socket; a first start adds exactly one live socket |
| SerialMonitor.StopStep | src/store/serial.ts:60-70 | stop clears the flag, forgets the socket and the stored timer, and cancels only that timer; the port list and selection stay |
| SerialMonitor.OpenStep | src/store/serial.ts:78-82 | an open event marks its socket open and sends one `get_ports` request on the current socket when that socket is open; with no current socket, or one still connecting, nothing is sent |
| SerialMonitor.Options | src/store/serial.ts:89-92 | one option per reported port, in order, with label and value equal to the port |
| SerialMonitor.MessageStep | src/store/serial.ts:84-111 | a snapshot replaces the options and selects the first port or nothing; the selection is then consistent; any other or malformed message changes nothing |
| SerialMonitor.CloseStep | src/store/serial.ts:113-122 | a close clears the current socket whichever socket closed, and stores a new timer exactly when monitoring |
| SerialMonitor.CloseSchedulesOneReconnect | src/store/serial.ts:117-121 | a close schedules exactly one new timer while monitoring and none otherwise |
| SerialMonitor.FireStep | src/store/serial.ts:118-120 | the timer callback as written opens a new socket whether or not monitoring is on |
| SerialMonitor.GuardedFireStep | src/store/serial.ts:118-120 | the corrected callback retires the timer; while monitoring it also opens exactly one new socket, which joins the live sockets, and nothing else changes |
| SerialMonitor.UpdatePortStep | src/store/serial.ts:134-136 | only the selected port changes |
| SerialMonitor.UpdateBaudRateStep | src/store/serial.ts:138-141 | the selected rate and the settings' rate both become the new rate; nothing else changes |
| SerialMonitor.RunKeepsValid | src/store/serial.ts:47-130 | every run of events, with the store's timer callback or the corrected one, keeps socket and timer handles referring to existing sockets and timers, and every request on a socket that had opened |
| SerialMonitor.SelectionStaysConsistent | src/store/serial.ts:93-103 | with either timer callback, if the operator only picks offered ports, the selected port is always empty or offered |
| SerialMonitor.NoReconnectWhileStopped | src/store/serial.ts:113-122 | with the corrected callback and monitoring off, no event but a start opens a socket or schedules a timer |
| SerialMonitor.StopPreventsReconnect | src/store/serial.ts:60-70 | with the corrected callback, after a stop no socket is opened until the next start |
| SerialMonitor.StaleCloseReconnectsAfterStop | src/store/serial.ts:113-122 | with the callback as written, a stale close after stop-start leaves a timer that reconnects after the next stop |
| SerialMonitor.StaleCloseRunReconnects | src/store/serial.ts:60-122 | the run start, stop, start, close 0, close 1, stop, fire 0 ends stopped with a third socket under the store's callback and without it under the corrected one |
| SerialMonitor.FireAfterStop | src/store/serial.ts:118-120 | a pending timer firing while monitoring is off leaves monitoring off, and opens one socket with the store's callback and none with the corrected one |
| SerialMonitor.OpenWhileConnectingSendsNothing | src/store/serial.ts:78-82 | an orphaned socket that opens while the current socket is still connecting sends nothing; the current socket's own open event then sends the request |
| SerialMonitor.PortMonitor.constructor | src/store/serial.ts:15-49 | the store starts stopped, with no socket, no timer, no ports and baud rate 115200 |
| SerialMonitor.PortMonitor.StartPortMonitoring | src/store/serial.ts:52-57 | the new state is the start step of the old one |
| SerialMonitor.PortMonitor.StopPortMonitoring | src/store/serial.ts:60-70 | the new state is the stop step of the old one |
| SerialMonitor.PortMonitor.ConnectWebSocket | src/store/serial.ts:73-76 | the new state is the connect step of the old one |
| SerialMonitor.PortMonitor.OnOpen | src/store/serial.ts:78-82 | the new state is the open step of the old one |
| SerialMonitor.PortMonitor.OnMessage | src/store/serial.ts:84-111 | the new state is the message step of the old one |
| SerialMonitor.PortMonitor.OnClose | src/store/serial.ts:113-122 | the new state is the close step of the old one |
| SerialMonitor.PortMonitor.OnReconnectTimer | src/store/serial.ts:118-120 | the new state is the fire step as written: the timer retires and a socket opens whether or not monitoring is on |
| SerialMonitor.PortMonitor.OnReconnectTimerCorrected | src/store/serial.ts:118-120 | the new state is the corrected fire step of the old one |
| SerialMonitor.PortMonitor.UpdatePort | src/store/serial.ts:134-136 | only the selected port changes |
| SerialMonitor.PortMonitor.UpdateBaudRate | src/store/serial.ts:138-141 | both baud-rate fields change, nothing else |
| RegisterBits.ToggleBit | src/views/register/RegisterRW.tsx:145 | XOR with `1 << i` gives a 32-bit word differing from the input in bit i only |
| RegisterBits.ToggleBitTwice | src/views/register/RegisterRW.tsx:144-147 | flipping the same bit twice restores the word |
| RegisterBits.ReplaceFirst0x | src/views/register/RegisterRW.tsx:142 | a leading "0x" is removed; a text without any "x" is left alone |
| RegisterBits.ParseIntHex | src/views/register/RegisterRW.tsx:142 | `parseInt(s, 16)` is NaN exactly when no hex digit follows the leading whitespace, sign and optional 0x; otherwise it is the signed value of the longest run of hex digits |
| RegisterBits.NumValue | src/views/register/RegisterRW.tsx:142 | a text with no hex digit after the sign and prefix reads as 0, the fallback for NaN, and a text without a minus sign reads as a non-negative number |
| RegisterBits.WordOf | src/views/register/RegisterRW.tsx:145 | the 32-bit pattern `^` and `&` see is a word; it is the number itself when that is a word, and the number plus 2^32 when that is a negative number above -2^32 |
| RegisterBits.ReadWellFormed | src/views/register/RegisterRW.tsx:142 | up to eight hex digits, with or without a "0x"/"0X" prefix, read as the value of the digits, a 32-bit word |
| RegisterBits.RenderHexIsFixedHex | src/views/register/RegisterRW.tsx:146 | upper-casing and zero-padding to w places gives the w-digit base-16 numeral of any value below 16^w |
| RegisterBits.ToHexLower | src/views/register/RegisterRW.tsx:146 | `toString(16)` gives at least one character, each a lower-case hex digit |
| RegisterBits.UpperCase | src/views/register/RegisterRW.tsx:146 | `toUpperCase` keeps the length and maps each character on its own |
| RegisterBits.PadStart | src/views/register/RegisterRW.tsx:146 | `padStart(w, '0')` gives max(w, length) characters: fill characters followed by the original text |
| RegisterBits.RenderHex | src/views/register/RegisterRW.tsx:146 | the rendered numeral is exactly w long when the digits fit, and as long as the digits otherwise |
| RegisterBits.UpperCaseIdempotent | src/views/register/RegisterRW.tsx:466 | upper-casing twice is upper-casing once |
| RegisterBits.FormatValue | src/views/register/RegisterRW.tsx:146 | the text written back is "0x" plus eight upper-case hex digits |
| RegisterBits.FormatReadsBack | src/views/register/RegisterRW.tsx:142-146 | the text written back is well formed and reads back as the word that was written |
| RegisterBits.FormatParseValue | src/views/register/RegisterRW.tsx:142-146 | reading a canonical text and writing it back gives the same text |
| RegisterBits.ToggleBitText | src/views/register/RegisterRW.tsx:142-147 | a bit press writes canonical text whose word differs from the read word in the pressed bit only |
| RegisterBits.ToggleBitTextTwice | src/views/register/RegisterRW.tsx:144-147 | within the editor alone, applying the press twice to the same text gives the canonical form of the value, and a canonical text itself; the table does not store that text (see `RegisterTable.BitPressTwice`) |
| RegisterBits.UpperCaseFormat | src/views/register/RegisterRW.tsx:466 | upper-casing the text a press writes turns the prefix into "0X" and keeps the digits, so the stored text is not canonical but reads as the same word |
| RegisterBits.PressFlipsOnlyItsButton | src/views/register/RegisterRW.tsx:168-184 | pressing a button flips what that button shows and what no other button shows |
| RegisterBits.IsBitSet | src/views/register/RegisterRW.tsx:170 | `(numValue & (1 << k)) !== 0` holds exactly when n / 2^k is odd |
| RegisterBits.BitShown | src/views/register/RegisterRW.tsx:168-170 | the button at place p of group g shows bit 31 - (8g + p) of the value |
| RegisterBits.ActualBitIndex | src/views/register/RegisterRW.tsx:169 | `(3 - byteIndex) * 8 + (7 - bitIndex)` is the bit 31 - (8 byteIndex + bitIndex), below 32 |
| RegisterBits.ByteText | src/views/register/RegisterRW.tsx:211-214 | each byte is shown as two upper-case hex digits denoting that byte |
| RegisterBits.ByteValue | src/views/register/RegisterRW.tsx:212 | `(numValue >>> (8k)) & 0xFF` is below 256; `BytesWeighToValue` shows the four bytes make up the word |
| RegisterBits.BytesSpellValue | src/views/register/RegisterRW.tsx:220-223 | the four byte fields, high byte first, spell the eight digits of the canonical text |
| RegisterBits.BytesWeighToValue | src/views/register/RegisterRW.tsx:211-214 | the four bytes weighted by 1, 2^8, 2^16, 2^24 add up to the word |
| RegisterBits.ActualBitIndexBijective | src/views/register/RegisterRW.tsx:169 | the button position to bit number mapping is a bijection between 4x8 positions and bits 0..31 |
| RegisterBits.DisplayOrderDescending | src/views/register/RegisterRW.tsx:156-163 | buttons run from bit 31 down to bit 0 and every bit is shown |
| RegisterTable.Merge | src/views/register/RegisterRW.tsx:442 | each field takes the update's value when given and keeps the row's otherwise |
| RegisterTable.Moved | src/views/register/RegisterRW.tsx:430-438 | a move is a permutation that puts the dragged row at the target and keeps the others in order |
| RegisterTable.MoveRowUndo | src/views/register/RegisterRW.tsx:430-438 | moving back from the target to the origin restores the table |
| RegisterTable.Updated | src/views/register/RegisterRW.tsx:440-444 | rows with the id are merged with the update; all other rows and the length are unchanged |
| RegisterTable.UpdateRowIdempotent | src/views/register/RegisterRW.tsx:440-444 | an update that keeps the id, applied twice, equals applying it once |
| RegisterTable.BitPress | src/views/register/RegisterRW.tsx:303-304 | a press of bit i in row k's editor leaves "0X" plus the eight digits of the toggled word in both value columns; that text reads as a word differing from the old one in bit i only; the row's other fields and the rows with another id are unchanged |
| RegisterTable.BitPressTwice | src/views/register/RegisterRW.tsx:396-399 | two presses of the same bit restore the row's word but store "0X" plus its eight digits; a canonical text such as the initial `0x31325233` comes back as `0X31325233`, not itself |
| RegisterTable.SyncDataKeepsFieldsEqual | src/views/register/RegisterRW.tsx:464-471 | after a sync both value columns of the row hold the same upper-cased text; nothing else changes |
| RegisterTable.SyncUpdate | src/views/register/RegisterRW.tsx:464-471 | the update names both value columns with the upper-cased text and no other field |
| RegisterTable.FilterMultiset | src/views/register/RegisterRW.tsx:447 | filtering keeps each accepted row as often as it occurs and drops the others |
| RegisterTable.FilterKeepsAll | src/views/register/RegisterRW.tsx:615 | nothing is filtered out if and only if every row is accepted |
| RegisterTable.FilterKeepsNone | src/views/register/RegisterRW.tsx:614 | everything is filtered out if and only if no row is accepted |
| RegisterTable.WithoutId | src/views/register/RegisterRW.tsx:447 | no row with the id remains, and every other row keeps its multiplicity |
| RegisterTable.DeleteRowProperties | src/views/register/RegisterRW.tsx:446-449 | deletion keeps order, is the identity when no row has the id, and is idempotent |
| RegisterTable.Unselected | src/views/register/RegisterRW.tsx:503 | no selected row remains, and every unselected row keeps its multiplicity |
| RegisterTable.DeleteSelectedProperties | src/views/register/RegisterRW.tsx:503 | deleting the selection keeps order and leaves nothing selected |
| RegisterTable.SelectedCount | src/views/register/RegisterRW.tsx:609 | the number of selected rows is at most the number of rows, and is 0 exactly when no row is selected |
| RegisterTable.SelectAllStateMeaning | src/views/register/RegisterRW.tsx:612-617 | checked if and only if a non-empty table is fully selected; unchecked if and only if nothing is selected; otherwise indeterminate |
| RegisterTable.SelectAll | src/views/register/RegisterRW.tsx:612-617 | the checkbox is checked only for a non-empty table whose rows are all counted as selected, and unchecked exactly when no row is selected |
| RegisterTable.WithSelection | src/views/register/RegisterRW.tsx:494 | every row gets the given selection, nothing else changes |
| RegisterTable.ToggleSelectAllProperties | src/views/register/RegisterRW.tsx:492-495 | toggling a checked header unchecks it, toggling any other non-empty state checks it, and two toggles from checked restore the rows |
| RegisterTable.ToggledSelection | src/views/register/RegisterRW.tsx:491-494 | every row keeps all fields but the flag, and every flag becomes the negation of "a non-empty table is fully selected" |
| RegisterTable.NewRowIsZero | src/views/register/RegisterRW.tsx:451-461 | a new row holds the same canonical text, reading as 0, in both value columns |
| RegisterTable.NewRow | src/views/register/RegisterRW.tsx:451-460 | the new row carries the supplied id, is unselected, has an empty description and the same text in address and both value columns |
| RegisterTable.TextField | src/views/register/RegisterRW.tsx:586-589 | a falsy field takes the default, a non-empty string is kept, and another truthy value is an error |
| RegisterTable.IsObject | src/views/register/RegisterRW.tsx:580 | `typeof item === 'object' && item` holds exactly for objects and arrays |
| RegisterTable.Field | src/views/register/RegisterRW.tsx:586-590 | a property is present only on an object that has the key, with the value stored there; an array has none of the row's keys |
| RegisterTable.Truthy | src/views/register/RegisterRW.tsx:586-590 | a truthy value is present and not null, and every object and array is truthy |
| RegisterTable.ImportItem | src/views/register/RegisterRW.tsx:579-591 | an item yields a row exactly when it is an object whose text columns are absent, falsy or strings; a non-object fails with its 1-based position; the row has id stamp+index and defaulted fields |
| RegisterTable.ImportFrom | src/views/register/RegisterRW.tsx:579-592 | on success, one row per remaining item, each the row that item yields |
| RegisterTable.ImportRows | src/views/register/RegisterRW.tsx:574-576 | a non-array is rejected; a success has one row per item |
| RegisterTable.ImportConfigSucceeds | src/views/register/RegisterRW.tsx:579-594 | an import succeeds if and only if every item is an object whose text columns are absent, falsy or strings, and then yields the items' rows in order |
| RegisterTable.ImportConfigReportsFirstBadItem | src/views/register/RegisterRW.tsx:580-582 | a rejected item is reported by its 1-based position and every item before it is an object |
| RegisterTable.ImportedIdsDistinct | src/views/register/RegisterRW.tsx:585 | imported rows have pairwise distinct ids |
| RegisterTable.DecimalString | src/views/register/RegisterRW.tsx:585 | the index text is one or more decimal digits, a single one exactly below 10, with a leading 0 only for 0 |
| RegisterTable.ImportDefaultsAgree | src/views/register/RegisterRW.tsx:587-588 | the two different default texts "0x0000" and "0x00000000" both read as 0 |
| RegisterTable.RegisterTable.constructor | src/views/register/RegisterRW.tsx:418-427 | the table starts with the one GPIO row |
| RegisterTable.InitialRow | src/views/register/RegisterRW.tsx:418-427 | the starting row is unselected, with equal value columns in canonical form |
| RegisterTable.RegisterTable.MoveRow | src/views/register/RegisterRW.tsx:430-438 | the rows become the moved rows: same multiset, dragged row at the target |
| RegisterTable.RegisterTable.UpdateRow | src/views/register/RegisterRW.tsx:440-444 | the rows become the updated rows |
| RegisterTable.RegisterTable.DeleteRow | src/views/register/RegisterRW.tsx:446-449 | the rows lose exactly the rows with the id |
| RegisterTable.RegisterTable.AddRow | src/views/register/RegisterRW.tsx:451-461 | one zero row is appended |
| RegisterTable.RegisterTable.PressBit | src/views/register/RegisterRW.tsx:396-399 | the rows become the rows after a bit press in row k's editor |
| RegisterTable.RegisterTable.SyncData | src/views/register/RegisterRW.tsx:464-471 | the rows become the rows with both value columns synced, whichever column was edited |
| RegisterTable.RegisterTable.ToggleSelectAll | src/views/register/RegisterRW.tsx:492-495 | the rows become the toggled rows |
| RegisterTable.RegisterTable.DeleteSelected | src/views/register/RegisterRW.tsx:497-505 | with nothing selected: an error and no change; otherwise the selected rows go and their count is reported |
| RegisterTable.RegisterTable.ImportConfig | src/views/register/RegisterRW.tsx:574-595 | a rejected file leaves the rows and reports the error; an accepted one replaces them and reports their number |

## Left out

- The WebSocket object, JSON parsing of inbound messages and `JSON.stringify` of the request are not modelled. An inbound message is already classified as a snapshot, another message, or one that fails to parse; a request is recorded by the socket it went out on.
- The three-second delay is not modelled: a pending timer may fire at any point.
- The endpoint address is constant, and the model assumes the `WebSocket` constructor succeeds, as it does for a page served over http. A browser that blocks mixed content throws a `SecurityError` for a `ws://` address from an https page; the `catch` then leaves `ws` unchanged with monitoring on. That path is not modelled.
- `onerror` and all console output only log, so they are not modelled.
- `isConnected`, `isConnecting`, the other serial settings and the baud-rate option list are never changed by the monitor, so they are not modelled.
- A `ports_update` whose `ports` array holds non-strings is not modelled; ports are strings.
- The monitor has no behaviour beyond the handlers above. Stopping does not empty the port list or the selection. A snapshot always selects the first port and does not keep an earlier selection that is still present. There is no fallback endpoint, no connect timeout, no added/removed diff of snapshots, no hotplug events and no epoch check on late callbacks.
- SerialMonitor.PortMonitor methods require the handle invariant `Valid()`. The constructor establishes it and every method keeps it.
- SerialMonitor.Enabled: does not record on which sockets `close()` was called, so it lets a socket closed while still connecting open or receive messages, which a browser never delivers. This only adds runs, so the invariants proved for all runs still hold.
- SerialMonitor.NoReconnectWhileStopped, SerialMonitor.StopPreventsReconnect: hold only for the corrected timer callback (see Findings). The store's callback is `SerialMonitor.PortMonitor.OnReconnectTimer` and `SerialMonitor.FireStep`; the corrected one is `OnReconnectTimerCorrected` and `SerialMonitor.GuardedFireStep`.
- RegisterBits.ParseIntHex, RegisterBits.NumValue: exact only for texts whose digits denote less than 2^53. The source reads longer texts as a rounded double.
- RegisterBits.UpperCase: maps only ASCII letters. The source's `toUpperCase` also maps other Unicode letters, some to several characters.
- RegisterTable.ImportItem, RegisterTable.TextField: reject an item whose text column holds a truthy value that is not a string. The source stores such a value as it is, and a row then holds a non-string.
- RegisterTable.ImportItem: `isSelected` becomes the field's truthiness. The source stores a truthy non-boolean value as it is.
- RegisterTable.Json: numbers are integers. Fractional numbers and their truthiness are not modelled.
- RegisterTable.RegisterTable.MoveRow: requires both indices to be rows of the table. Drag-and-drop only ever passes such indices.
- RegisterTable.RegisterTable.ToggleSelectAll: the source decides "all selected" from the rows of the last render but maps the current rows, and `deleteSelected` likewise counts the rendered rows. The model uses one list for both; they differ only when two updates are queued before a render.
- The ids from `Date.now()` are a parameter of `AddRow` and `ImportConfig`.
- RegisterTable.ImportItem: every item's id uses one shared stamp. The source reads `Date.now()` once per item, so the stamps of one import can differ.
- Toasts, the file picker, file reading, JSON export, the read and write handlers, react-dnd and all rendering are not modelled.

## Findings

| source | as written | input that shows it | evidently intended | confidence | as-written member | corrected member |
|---|---|---|---|---|---|---|
| src/store/serial.ts:113-122 | the reconnect callback calls `connectWebSocket()` without checking `isMonitoring`, and each close overwrites the stored timer handle, so a stop can cancel only the newest timer | start, stop, start (socket 0's close is still to come), socket 0 closes (timer 0), socket 1 closes (timer 1 overwrites the handle), stop (clears timer 1 only), timer 0 fires: socket 2 opens with monitoring off | after a stop, nothing reconnects until the next start (`SerialMonitor.StopPreventsReconnect`) | not executed | SerialMonitor.StaleCloseReconnectsAfterStop | SerialMonitor.GuardedFireStep |
