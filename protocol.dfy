/**
 * Vocabulary of the VE.Direct text protocol shared by both drivers:
 * raw bytes and lines as the serial port delivers them, the decoded
 * field dictionary, the line markers the drivers look for, and the
 * exceptions they raise.
 */
module Protocol {

  /** One octet read from the serial port. */
  type Byte = b: int | 0 <= b < 256

  /** One line as `readline` returns it: raw bytes, terminator included. */
  type Line = seq<Byte>

  /** The driver's `_data` dictionary: field name to field text. */
  type Fields = map<string, string>

  /** One decoded `KEY<TAB>VALUE` line. */
  datatype Field = Field(key: string, value: string)

  /** The exceptions the drivers let escape, one variant per cause. */
  datatype Error =
    | InvalidChecksum             // InvalidChecksumException from _get_data
    | DecodeError                 // UnicodeDecodeError from decode('utf-8')
    | UnpackError(parts: nat)     // ValueError: the tab split did not give two parts
    | KeyMissing(key: string)     // KeyError from an accessor's dictionary lookup
    | NotAnInteger(text: string)  // ValueError from int()
    | NotAnMpptState(code: int)   // ValueError from MPPTState(...)

  /** The bytes b'PID'. */
  const PidMarker: Line := [0x50, 0x49, 0x44]

  /** The bytes b'Checksum'. */
  const ChecksumMarker: Line := [0x43, 0x68, 0x65, 0x63, 0x6B, 0x73, 0x75, 0x6D]

  /** `bytes.startswith`. */
  predicate StartsWith(l: Line, prefix: Line) {
    |prefix| <= |l| && l[..|prefix|] == prefix
  }

  /** The synchronisation line that opens every VE.Direct cycle. */
  predicate IsPid(l: Line) {
    StartsWith(l, PidMarker)
  }

  /** The line carrying the checksum byte of a cycle. */
  predicate IsChecksumLine(l: Line) {
    StartsWith(l, ChecksumMarker)
  }
}
