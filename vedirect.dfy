/**
 * The packaged driver (vedirect.py). `_get_data` waits for a `PID` line,
 * drops it, collects every following line up to and including the next
 * `PID` line, and raises InvalidChecksumException unless the collected
 * bytes add up to 0 modulo 256. `parse_pdu` writes `key -> value` into
 * `_data` for every collected line not starting with `Checksum`.
 */
module VeDirect {
  import opened Wrappers
  import opened Protocol
  import opened Checksum
  import opened Framing
  import opened Text
  import opened Decoder
  import opened Accessors

  /** `check_frame_checksum`: a running sum reduced modulo 256 after every byte. */
  method CheckFrameChecksum(frames: seq<Line>) returns (ok: bool)
    ensures ok <==> ChecksumOk(frames)
  {
    var chksum: int := 0;
    for i := 0 to |frames|
      invariant chksum == FrameSum(frames[..i]) % 256
    {
      var frame := frames[i];
      for j := 0 to |frame|
        invariant chksum == (FrameSum(frames[..i]) + ByteSum(frame[..j])) % 256
      {
        assert frame[..j + 1][..j] == frame[..j];
        AddReduced(chksum, FrameSum(frames[..i]) + ByteSum(frame[..j]), frame[j]);
        chksum := (chksum + frame[j]) % 256;
      }
      assert frame[..|frame|] == frame;
      assert frames[..i + 1][..i] == frames[..i];
    }
    assert frames[..|frames|] == frames;
    ok := chksum == 0;
  }

  /** The lines `_get_data` collects: those after the first `PID` line, through the next one. */
  function Cycle(stream: seq<Line>, cursor: nat): seq<Line>
    requires CycleAhead(stream, cursor)
  {
    stream[FrameStart(stream, cursor) + 1..FrameEnd(stream, cursor) + 1]
  }

  /**
   * What is collected: it opens with the line right after the `PID` line
   * that ended the wait, ends with the next `PID` line, and no earlier
   * element starts with `PID`.
   */
  lemma CycleShape(stream: seq<Line>, cursor: nat)
    requires CycleAhead(stream, cursor)
    ensures var c := Cycle(stream, cursor);
      && |c| >= 1
      && c[0] == stream[FrameStart(stream, cursor) + 1]
      && IsPid(c[|c| - 1])
      && (forall k :: 0 <= k < |c| - 1 ==> !IsPid(c[k]))
  {
    var c := Cycle(stream, cursor);
    var i, j := FrameStart(stream, cursor), FrameEnd(stream, cursor);
    forall k | 0 <= k < |c| - 1 ensures !IsPid(c[k]) {
      assert c[k] == stream[i + 1 + k];
    }
  }

  /**
   * `_get_data`: the two read loops over the port, then the checksum gate.
   * Returns the collected lines unchanged, or InvalidChecksum exactly when
   * they fail the check; either way the lines have been read.
   */
  method GetData(stream: seq<Line>, cursor: nat) returns (r: Result<seq<Line>, Error>, next: nat)
    requires CycleAhead(stream, cursor)
    ensures next == FrameEnd(stream, cursor) + 1
    ensures r.Success? <==> ChecksumOk(Cycle(stream, cursor))
    ensures r.Success? ==> r.value == Cycle(stream, cursor)
    ensures r.Failure? ==> r.error == InvalidChecksum
  {
    ghost var i, j := FrameStart(stream, cursor), FrameEnd(stream, cursor);
    var frame;
    // read until a line starts with PID, and drop that line
    frame, next := WaitForStartOfFrame(stream, cursor);
    // collect every following line, through the next PID line
    var data: seq<Line> := [];
    frame := [];
    while !IsPid(frame)
      invariant i + 1 <= next <= j + 1
      invariant data == stream[i + 1..next]
      invariant next == i + 1 ==> frame == []
      invariant next > i + 1 ==> frame == stream[next - 1]
      decreases j + 1 - next
    {
      frame := stream[next];
      next := next + 1;
      data := data + [frame];
    }
    var ok := CheckFrameChecksum(data);
    if !ok {
      return Failure(InvalidChecksum), next;
    }
    return Success(data), next;
  }

  /** A driver instance: the port settings and the dictionary `_data`. */
  class Device {
    const device: string
    const speed: int
    var data: Fields

    /** `__init__` without its initial refresh. */
    constructor (device: string, speed: int)
      ensures this.device == device && this.speed == speed
      ensures data == map[]
    {
      this.device := device;
      this.speed := speed;
      data := map[];
    }

    /**
     * `parse_pdu`: decodes the lines in order into `data`. A raised
     * exception ends the loop and leaves what earlier lines wrote.
     */
    method ParsePdu(frames: seq<Line>) returns (failure: Option<Error>)
      modifies this
      ensures Parsed(data, failure) == ParseFrames(old(data), frames, true)
    {
      for i := 0 to |frames|
        invariant ParseFrames(old(data), frames, true) == ParseFrames(data, frames[i..], true)
      {
        assert frames[i..][1..] == frames[i + 1..];
        var frame := frames[i];
        if IsChecksumLine(frame) {
          // the checksum line carries no field
          continue;
        }
        match ParseLine(frame)
        case Failure(e) =>
          return Some(e);
        case Success(f) =>
          data := data[f.key := f.value];
      }
      return None;
    }

    /**
     * `refresh`: reads one cycle and decodes it. A cycle failing the
     * checksum raises before `data` is touched.
     */
    method Refresh(stream: seq<Line>, cursor: nat) returns (failure: Option<Error>, next: nat)
      requires CycleAhead(stream, cursor)
      modifies this
      ensures next == FrameEnd(stream, cursor) + 1
      ensures !ChecksumOk(Cycle(stream, cursor)) ==> failure == Some(InvalidChecksum) && data == old(data)
      ensures ChecksumOk(Cycle(stream, cursor)) ==>
        Parsed(data, failure) == ParseFrames(old(data), Cycle(stream, cursor), true)
    {
      var frames;
      frames, next := GetData(stream, cursor);
      if frames.Failure? {
        return Some(frames.error), next;
      }
      failure := ParsePdu(frames.value);
    }

    /** `battery_volts`: the text of field `V` (millivolts). */
    function BatteryVolts(): (r: Result<string, Error>)
      reads this
      ensures r.Success? <==> "V" in data
      ensures r.Success? ==> r.value == data["V"]
      ensures r.Failure? ==> r.error == KeyMissing("V")
    {
      Lookup(data, "V")
    }

    /** `battery_amps`: the text of field `A` (milliamps). */
    function BatteryAmps(): (r: Result<string, Error>)
      reads this
      ensures r.Success? <==> "A" in data
      ensures r.Success? ==> r.value == data["A"]
      ensures r.Failure? ==> r.error == KeyMissing("A")
    {
      Lookup(data, "A")
    }

    /** `solar_volts`: the text of field `VPV` (millivolts). */
    function SolarVolts(): (r: Result<string, Error>)
      reads this
      ensures r.Success? <==> "VPV" in data
      ensures r.Success? ==> r.value == data["VPV"]
      ensures r.Failure? ==> r.error == KeyMissing("VPV")
    {
      Lookup(data, "VPV")
    }

    /** `solar_power`: the text of field `PPV` (watts). */
    function SolarPower(): (r: Result<string, Error>)
      reads this
      ensures r.Success? <==> "PPV" in data
      ensures r.Success? ==> r.value == data["PPV"]
      ensures r.Failure? ==> r.error == KeyMissing("PPV")
    {
      Lookup(data, "PPV")
    }

    /** `device_serial`: field `SER#` verbatim. */
    function DeviceSerial(): (r: Result<string, Error>)
      reads this
      ensures r.Success? <==> "SER#" in data
      ensures r.Success? ==> r.value == data["SER#"]
      ensures r.Failure? ==> r.error == KeyMissing("SER#")
    {
      Lookup(data, "SER#")
    }

    /** `device_MPPT_state`: field `MPPT` as an MPPTState. */
    function DeviceMpptState(): (r: Result<MpptState, Error>)
      reads this
      ensures "MPPT" !in data ==> r == Failure(KeyMissing("MPPT"))
      ensures r.Success? ==> "MPPT" in data && ParseInt(data["MPPT"]) == Some(MpptCode(r.value))
      ensures "MPPT" in data && ParseInt(data["MPPT"]).None? ==> r == Failure(NotAnInteger(data["MPPT"]))
      ensures "MPPT" in data && ParseInt(data["MPPT"]).Some? ==> r == MpptStateOf(ParseInt(data["MPPT"]).value)
    {
      MpptField(data)
    }
  }
}
