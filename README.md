# VE.Direct text-protocol driver, modelled in Dafny

This project models the core of `python-vedirect`. That is a small driver which reads
the VE.Direct text protocol that Victron solar chargers send over a serial line. A
device repeats one *cycle* of `KEY<TAB>VALUE` lines without end. Each cycle opens
with a `PID` line and closes with a `Checksum` line. The `Checksum` line carries one
byte, chosen so that all bytes of the cycle add up to 0 modulo 256. The driver:

- waits for a `PID` line and collects the lines up to the next one (`_get_data`);
- rejects the cycle unless its bytes sum to 0 modulo 256 (`check_frame_checksum`);
- strips each line, decodes it as UTF-8, splits it on the tab, and writes
  `key -> value` into the dictionary `_data` (`parse_pdu` / `refresh`);
- offers read properties over `_data`, one of which converts field `MPPT`
  into the `MPPTState` enumeration.

The repository ships two versions of the driver, and both are modelled:

- `vedirect.py` is the packaged module (`setup.py` lists `py_modules=['vedirect']`).
  It is modelled in `vedirect.dfy`.
- `VEDirect.py` is an older copy. It frames a cycle differently, decodes the
  `Checksum` line as well, and its `battery_amps` reads the wrong field. It is
  modelled in `vedirect_legacy.dfy`.

Layout:

| file | module | contents |
|---|---|---|
| `wrappers.dfy` | `Wrappers` | `Option`, `Result` |
| `protocol.dfy` | `Protocol` | bytes, lines, the field dictionary, the exceptions, the `PID`/`Checksum` markers |
| `checksum.dfy` | `Checksum` | reference definition of the cycle checksum and what is proved about it |
| `framing.dfy` | `Framing` | the serial line as a sequence of lines plus a cursor; the shared wait-for-`PID` loop |
| `text.dfy` | `Text` | `bytes.strip()`, `decode('utf-8')` on ASCII, `str.split('\t')`, decoding one line |
| `decoder.dfy` | `Decoder` | the decoding loop as a fold over the collected lines, and its properties |
| `accessors.dfy` | `Accessors` | dictionary lookup, `int()`, `MPPTState` |
| `vedirect.dfy` | `VeDirect` | the packaged driver: checksum loop, `_get_data`, class `Device` |
| `vedirect_legacy.dfy` | `VeDirectLegacy` | the older driver, and how it differs from the packaged one |

Modelling choices:

- **Serial port.** The port is the finite `seq<Line>` it will deliver, plus a read
  cursor. Reading a line means taking `stream[cursor]` and advancing the cursor.
  The read methods take the cursor and return the `next` one.
- **Reading a cycle.** The port is opened with a 4-second timeout, and a timed-out
  `readline` returns an empty or short line. Both loops test it with
  `startswith(b'PID')` like any other line. An empty read never starts with `PID`,
  so the wait loop reads on and the collecting loop keeps it. A read cut off inside
  a `PID` line, such as `PID\t0x`, does start with `PID`, so it ends the wait or the
  collection. In the model such a read is just another element of the stream
  (`[]` for an empty read), tested with `IsPid` like every other line. The read loops return only once
  a `PID` line and a later one arrive, and precondition `CycleAhead` says exactly
  that.
- **Decoding loop.** Both versions run the same loop, modelled once as
  `Decoder.ParseFrames`. Its flag `skipChecksum` is `true` for the packaged driver,
  which passes over `Checksum` lines, and `false` for the older one.
- **Driver objects.** Each class `Device` keeps `_data` as a field that its methods
  update. Those methods are proved against `ParseFrames`.
- **Checksum loops.** Both drivers' accumulator loops are proved against one
  reference sum, `Checksum.FrameSum`.

What the code does, and the model with it:

- `_data` is created empty once (vedirect.py:29) and never cleared. Each refresh
  writes over the old dictionary, so keys a cycle does not send keep their old
  values. A line that fails to decode ends the loop, and the writes made by the
  lines before it stay (vedirect.py:39-44).
- The packaged driver passes over a line when its raw bytes start with `Checksum`
  (vedirect.py:40), before stripping or decoding it.
- Each line is split on every tab and unpacked into exactly two names
  (vedirect.py:43). A line with no tab or with two tabs raises, and so does a
  blank line.
- No transport error is handled. A timed-out read is treated as a line, as above.
  Opening the port may raise, and that exception passes through unchanged.
- The two versions frame a cycle differently:
  - the packaged driver drops the `PID` line that ends the wait, and collects the
    lines after it through the next `PID` line inclusive (vedirect.py:52-61);
  - the older driver keeps the `PID` line that ends the wait, and collects up to
    the next `PID` line, which it reads but does not keep (VEDirect.py:76-85).

  Both sums cover one `PID` line and the lines between the two `PID` lines, so the
  two verdicts agree whenever the `PID` line repeats unchanged.

## Model

| member | source | states |
|---|---|---|
| Checksum.CompletingByte | vedirect.py:72-74 | the byte a device appends makes the running total 0 modulo 256, for every total |
| Checksum.ByteSumAppend | vedirect.py:76-78 | the sum of a concatenation of byte strings is the sum of their sums |
| Checksum.FrameSumAppend | vedirect.py:76-78 | the total of a concatenation of line lists is the sum of their totals |
| Checksum.JoinSum | VEDirect.py:95-96 | summing `b''.join(frames)` gives the same total as summing line by line, so the two drivers' checksum functions agree on every input |
| Checksum.ZeroBytesAccepted | vedirect.py:75-79 | a cycle with no lines, or with only zero bytes, has total 0 and passes |
| Checksum.ByteSumSplit | vedirect.py:77-78 | removing one byte from a line takes exactly its value off the sum |
| Checksum.ByteSumPermutation | vedirect.py:77-78 | byte strings with the same multiset of bytes have the same sum |
| Checksum.ChecksumDependsOnlyOnBytes | vedirect.py:72-79 | two cycles whose joined bytes are permutations of each other have equal totals and the same verdict |
| Checksum.FrameSumSplit | vedirect.py:76-78 | removing one line from a cycle takes exactly its sum off the total |
| Checksum.FrameSumPermutation | vedirect.py:76-78 | reordering whole lines keeps the total |
| Checksum.FrameSumUpdate | vedirect.py:76-78 | replacing one line changes the total by the difference of the two line sums |
| Checksum.SingleByteCorruptionDetected | vedirect.py:64-66 | changing any single byte of a cycle that passes makes it fail, so a one-byte corruption always raises InvalidChecksumException |
| Checksum.CompletingByteValidates | vedirect.py:72-74 | a cycle whose last line ends in the completing byte passes the check, whatever its other bytes |
| Framing.NextPid | vedirect.py:52-55 | the index found is the first line at or after the cursor starting with `PID`; no result means no such line |
| Framing.FrameStart | vedirect.py:52-55 | the line that ends the wait is a `PID` line at or after the cursor |
| Framing.FrameEnd | vedirect.py:59-61 | the line that ends the collection is the next `PID` line, with no `PID` line in between |
| Framing.WaitForStartOfFrame | vedirect.py:52-55 | the loop reads up to and including the first `PID` line, returns it, and leaves the cursor just past it, having passed no other `PID` line |
| Text.TrimLeftSpec | vedirect.py:43 | the left part of `strip()` removes exactly a whitespace prefix and stops at the first other byte |
| Text.TrimRightSpec | vedirect.py:43 | the right part of `strip()` removes exactly a whitespace suffix and stops at the last other byte |
| Text.StripSpec | vedirect.py:43 | a stripped line starts and ends with non-whitespace, and is empty exactly when the line held only whitespace |
| Text.StripKeepsInner | vedirect.py:43 | stripping a line removes its surrounding whitespace and nothing else |
| Text.AsciiText | vedirect.py:43 | decoding ASCII bytes gives one character per byte, with the same code |
| Text.AsciiBytes | vedirect.py:43 | encoding ASCII text gives one byte per character, with the same code |
| Text.DecodeSpec | vedirect.py:43 | `decode('utf-8')` succeeds exactly on ASCII bytes, and encoding the result gives the bytes back |
| Text.DecodeAsciiBytes | vedirect.py:43 | decoding the bytes of ASCII text gives the text back |
| Text.SplitOn | vedirect.py:43 | `split('\t')` always returns at least one part |
| Text.SplitOnSpec | vedirect.py:43 | the split has one more part than there are tabs, no part holds a tab, and rejoining the parts with tabs gives the text back |
| Text.ParseLineSpec | vedirect.py:43 | a line decodes exactly when its stripped text is ASCII with exactly one tab; non-ASCII text is a decode error, and ASCII text with `t` tabs other than one is an unpack error for `t + 1` parts; key and value are the tab-free text on either side of the tab |
| Text.ParseEncodedField | vedirect.py:43 | the wire form `KEY<TAB>VALUE\r\n` of a well-formed field decodes back to that field |
| Decoder.ParseFrames | vedirect.py:38-44 | the loop never removes a key, and it raises exactly when some line it does not pass over fails to decode |
| Decoder.FailureKeepsEarlierWrites | vedirect.py:39-44 | when the loop raises, it is at the first rejected line with that line's exception, and the dictionary keeps what every earlier line wrote |
| Decoder.ParseFramesAppend | vedirect.py:39-44 | decoding a concatenation is decoding the second part starting from the dictionary the first part left |
| Decoder.LastWriteWins | vedirect.py:44 | after a loop that raised nothing, a key is present exactly when some line wrote it or it was present before, and it holds the value of the last line that wrote it (reference: `LatestValue`) |
| Decoder.UntouchedKeysKept | vedirect.py:29 | a key that no line of the cycle writes keeps its old value or stays absent, because `_data` is never cleared |
| Decoder.ChecksumLineIgnored | vedirect.py:40-42 | a `Checksum` line anywhere in the cycle has no effect on the packaged driver's decoding |
| Decoder.SkipIrrelevantWithoutChecksumLines | VEDirect.py:37-39 | on a cycle without `Checksum` lines, the two drivers' decoding loops give the same result |
| Decoder.DecodeEncodedFields | vedirect.py:39-44 | the wire form of a list of well-formed fields decodes, with no error, to the dictionary with those fields written in order |
| Decoder.EncodedCycleRoundTrip | vedirect.py:38-44 | encoded fields followed by a `Checksum` line decode, with no error, to exactly those fields written in order over the old dictionary |
| Accessors.MpptStateOf | vedirect.py:12-15 | `MPPTState(n)` succeeds exactly for 0, 1 and 2, returns the member with that value, and otherwise raises with `n` |
| Accessors.Lookup | vedirect.py:86 | `self._data[key]` returns the stored text when the key is present, and raises KeyError for that key otherwise |
| Accessors.ShowNat | vedirect.py:111 | a natural number prints as a non-empty string of decimal digits |
| Accessors.ParseShowInt | vedirect.py:111 | `int(str(n)) == n` for every integer `n` |
| Accessors.MpptField | vedirect.py:111 | a missing `MPPT` field raises KeyError; text `int()` rejects raises NotAnInteger with that text; text parsing to `n` gives `MPPTState(n)`, which is the state with code `n` for 0, 1 and 2 and NotAnMpptState(n) otherwise |
| Accessors.MpptFieldOfCode | vedirect.py:111 | a field whose text `int()` reads as `n` (such as `2`, `02` or `+2`) reads back as a state exactly when `n` is 0, 1 or 2, as the state with that code; any other `n` raises with `n` |
| Accessors.MpptFieldOfShownCode | vedirect.py:111 | the text a device writes for state code `n` reads back as a state exactly when `n` is 0, 1 or 2, as the state with code `n` |
| Accessors.ParseIntSpellings | vedirect.py:111 | `int()` reads `02` as 2, `+1` as 1 and `-0` as 0, and rejects the empty text, a lone sign and `1.5` |
| Accessors.ParseIntPaddedAndSigned | vedirect.py:111 | `int()` reads the digits of any natural `n` after any number of leading zeros, or after a `+`, as `n` |
| VeDirect.CheckFrameChecksum | vedirect.py:70-79 | the nested accumulator loop returns true exactly when the cycle's byte total is 0 modulo 256 |
| VeDirect.CycleShape | vedirect.py:57-61 | the collected lines start right after the `PID` line that ended the wait, end with the next `PID` line, and hold no other `PID` line |
| VeDirect.GetData | vedirect.py:47-68 | reads exactly through the next `PID` line; returns the collected lines when they pass the checksum, and raises InvalidChecksumException exactly when they do not |
| VeDirect.Device.constructor | vedirect.py:26-29 | keeps the port settings and starts with an empty dictionary |
| VeDirect.Device.ParsePdu | vedirect.py:38-44 | the loop's final dictionary and exception are those of `ParseFrames` with `Checksum` lines passed over |
| VeDirect.Device.Refresh | vedirect.py:34-36 | a cycle failing the checksum raises InvalidChecksumException and leaves `_data` unchanged; otherwise `_data` is the decoding of the collected lines over its old contents |
| VeDirect.Device.BatteryVolts | vedirect.py:84-86 | the text of field `V`, or KeyError when it is absent |
| VeDirect.Device.BatteryAmps | vedirect.py:89-91 | the text of field `A`, or KeyError when it is absent |
| VeDirect.Device.SolarVolts | vedirect.py:94-96 | the text of field `VPV`, or KeyError when it is absent |
| VeDirect.Device.SolarPower | vedirect.py:99-101 | the text of field `PPV`, or KeyError when it is absent |
| VeDirect.Device.DeviceSerial | vedirect.py:104-106 | the text of field `SER#`, or KeyError when it is absent |
| VeDirect.Device.DeviceMpptState | vedirect.py:109-111 | KeyError when `MPPT` is absent; NotAnInteger when `int()` rejects its text; otherwise `MPPTState` of the parsed integer, so a result is the state whose code the text parses to and any other integer raises with it |
| VeDirectLegacy.CheckFrameChecksum | VEDirect.py:92-97 | the loop over the joined bytes returns true exactly when their sum is 0 modulo 256, which is the packaged driver's verdict |
| VeDirectLegacy.CycleShape | VEDirect.py:81-85 | the collected lines start with the `PID` line that ended the wait and hold no other `PID` line; the next `PID` line exists but is not among them |
| VeDirectLegacy.GetData | VEDirect.py:72-90 | reads exactly through the next `PID` line but returns the lines before it; returns them when they pass the checksum, and raises InvalidChecksumException exactly when they do not |
| VeDirectLegacy.FramingsAgreeWhenPidRepeats | VEDirect.py:81-85 | when the next `PID` line repeats the first, the two drivers' collections have the same total and the same verdict |
| VeDirectLegacy.HighChecksumByteRejected | VEDirect.py:37-39 | a `Checksum` line whose byte is 0x80 or above makes the older decoding raise, while the packaged decoding treats the line as absent |
| VeDirectLegacy.Device.constructor | VEDirect.py:26-29 | keeps the port settings and starts with an empty dictionary |
| VeDirectLegacy.Device.Refresh | VEDirect.py:34-39 | a cycle failing the checksum raises and leaves `_data` unchanged; otherwise `_data` is the decoding of every collected line, the `Checksum` line included, over its old contents |
| VeDirectLegacy.Device.BatteryVolts | VEDirect.py:43-45 | the text of field `V`, or KeyError when it is absent |
| VeDirectLegacy.Device.BatteryAmps | VEDirect.py:48-50 | the text of field `V` (not `A`), or KeyError when it is absent |
| VeDirectLegacy.Device.SolarVolts | VEDirect.py:53-55 | the text of field `VPV`, or KeyError when it is absent |
| VeDirectLegacy.Device.SolarPower | VEDirect.py:58-60 | the text of field `PPV`, or KeyError when it is absent |
| VeDirectLegacy.Device.DeviceSerial | VEDirect.py:63-65 | the text of field `SER#`, or KeyError when it is absent |
| VeDirectLegacy.Device.DeviceMpptState | VEDirect.py:68-70 | KeyError when `MPPT` is absent; NotAnInteger when `int()` rejects its text; otherwise `MPPTState` of the parsed integer, so a result is the state whose code the text parses to and any other integer raises with it |
| VeDirectLegacy.AmpsReadsVolts | VEDirect.py:48-50 | `battery_amps` always returns whatever `battery_volts` returns |

## Left out

- Serial I/O is not modelled: opening and closing the port (`serial.Serial(...)` as a context manager) and the exceptions opening it may raise. The port is the sequence of lines it will deliver, and a timed-out read is one of those lines.
- A port that never delivers a second `PID` line makes the drivers loop forever, reading empty lines. The model does not cover that case: `CycleAhead` excludes it.
- The default device path `/dev/ttyUSB0` and speed 19200 only matter when opening the port, so the constructors take both as plain parameters.
- The constructors do not model the initial `self.refresh()` (vedirect.py:31, VEDirect.py:31). Reading a first cycle is `Device.Refresh`, called after construction.
- `mA`, `mV` and `float()` are not modelled: the model has no floating point. The volt, amp and power accessors return the raw field text that those conversions would read.
- `decode('utf-8')` is modelled on ASCII only. Any byte of 0x80 or above is a decode error, so valid multi-byte UTF-8 is rejected by the model where Python would accept it.
- `int()` is modelled as an optional `+` or `-` followed by ASCII decimal digits. Surrounding whitespace, `_` separators and non-ASCII digits, which Python also accepts, are not modelled.
- Accessors.ParseShowInt: states the round trip only for the decimal text a device writes, not for every text `int()` accepts.
- The `__main__` block of vedirect.py (lines 114-116) is not modelled. Neither is VEDirect.py's module-level instance and print (lines 101-102), which opens the port on import.
- The exception class hierarchy (`VEDirectException`, vedirect.py:6-10) becomes the single `Error` datatype. InvalidChecksumException is `Error.InvalidChecksum`.
- `setup.py` is packaging metadata and is not part of this model.

## Findings

| source | as written | input that shows it | evidently intended | confidence | as-written member | corrected member |
|---|---|---|---|---|---|---|
| VEDirect.py:48-50 | `battery_amps` returns `mA(self._data['V'])`, the battery voltage | any cycle where fields `V` and `A` differ, e.g. `V` = `12800`, `A` = `-250`: the property reads 12.8 A | read field `A`, as the packaged driver does | high, not executed | VeDirectLegacy.AmpsReadsVolts | VeDirect.Device.BatteryAmps |
| VEDirect.py:37-39 | `refresh` decodes every collected line, the `Checksum` line included | a valid cycle whose checksum byte is 0x80 or above: `decode('utf-8')` raises on the `Checksum` line | pass over the `Checksum` line, as vedirect.py:40-42 does | high, not executed | VeDirectLegacy.HighChecksumByteRejected | Decoder.ChecksumLineIgnored |
