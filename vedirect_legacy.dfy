/**
 * The older driver (VEDirect.py). Its `_get_data` keeps the `PID` line that
 * ended the wait, collects the following lines, and stops at the next `PID`
 * line, reading it but not keeping it. Its checksum sums `b''.join(frames)`,
 * its `refresh` decodes every collected line, the `Checksum` line included,
 * and its `battery_amps` reads field `V`.
 */
module VeDirectLegacy {
  import opened Wrappers
  import opened Protocol
  import opened Checksum
  import opened Framing
  import opened Text
  import opened Decoder
  import opened Accessors
  import VeDirect

  /** `check_frame_checksum`: a running sum, reduced modulo 256, over the joined bytes. */
  method CheckFrameChecksum(frames: seq<Line>) returns (ok: bool)
    ensures ok <==> ByteSum(Join(frames)) % 256 == 0
    ensures ok <==> ChecksumOk(frames)
  {
    var joined := Join(frames);
    var chksum: int := 0;
    for k := 0 to |joined|
      invariant chksum == ByteSum(joined[..k]) % 256
    {
      assert joined[..k + 1][..k] == joined[..k];
      assert ByteSum(joined[..k + 1]) == ByteSum(joined[..k]) + joined[k];
      AddReduced(chksum, ByteSum(joined[..k]), joined[k]);
      chksum := (chksum + joined[k]) % 256;
    }
    assert joined[..|joined|] == joined;
    ok := chksum == 0;
    JoinSum(frames);
  }

  /** The lines `_get_data` collects: the `PID` line that ended the wait, up to the next one. */
  function Cycle(stream: seq<Line>, cursor: nat): seq<Line>
    requires CycleAhead(stream, cursor)
  {
    stream[FrameStart(stream, cursor)..FrameEnd(stream, cursor)]
  }

  /** What is collected: exactly one element starts with `PID`, and it is the first. */
  lemma CycleShape(stream: seq<Line>, cursor: nat)
    requires CycleAhead(stream, cursor)
    ensures var c := Cycle(stream, cursor);
      && |c| >= 1
      && IsPid(c[0])
      && (forall k :: 1 <= k < |c| ==> !IsPid(c[k]))
      && FrameEnd(stream, cursor) < |stream| && IsPid(stream[FrameEnd(stream, cursor)])
  {
    var c := Cycle(stream, cursor);
    var i := FrameStart(stream, cursor);
    forall k | 1 <= k < |c| ensures !IsPid(c[k]) {
      assert c[k] == stream[i + k];
    }
  }

  /**
   * `_get_data`: the read loops over the port, then the checksum gate.
   * The `PID` line that ends the collection is read and not returned.
   */
  method GetData(stream: seq<Line>, cursor: nat) returns (r: Result<seq<Line>, Error>, next: nat)
    requires CycleAhead(stream, cursor)
    ensures next == FrameEnd(stream, cursor) + 1
    ensures r.Success? <==> ChecksumOk(Cycle(stream, cursor))
    ensures r.Success? ==> r.value == Cycle(stream, cursor)
    ensures r.Failure? ==> r.error == InvalidChecksum
  {
    ghost var i, j := FrameStart(stream, cursor), FrameEnd(stream, cursor);
    var frame;
    // read until a line starts with PID, and keep that line
    frame, next := WaitForStartOfFrame(stream, cursor);
    var data: seq<Line> := [frame];
    frame := stream[next];
    next := next + 1;
    while !IsPid(frame)
      invariant i + 2 <= next <= j + 1
      invariant frame == stream[next - 1]
      invariant data == stream[i..next - 1]
      decreases j + 1 - next
    {
      data := data + [frame];
      frame := stream[next];
      next := next + 1;
    }
    var ok := CheckFrameChecksum(data);
    if !ok {
      return Failure(InvalidChecksum), next;
    }
    return Success(data), next;
  }

  /**
   * When the `PID` line repeats unchanged, the two drivers' collections
   * carry the same byte total, so they reach the same checksum verdict.
   */
  lemma FramingsAgreeWhenPidRepeats(stream: seq<Line>, cursor: nat)
    requires CycleAhead(stream, cursor)
    requires stream[FrameStart(stream, cursor)] == stream[FrameEnd(stream, cursor)]
    ensures FrameSum(VeDirect.Cycle(stream, cursor)) == FrameSum(Cycle(stream, cursor))
    ensures ChecksumOk(VeDirect.Cycle(stream, cursor)) <==> ChecksumOk(Cycle(stream, cursor))
  {
    var i, j := FrameStart(stream, cursor), FrameEnd(stream, cursor);
    var body := stream[i + 1..j];
    assert VeDirect.Cycle(stream, cursor) == body + [stream[j]];
    assert Cycle(stream, cursor) == [stream[i]] + body;
    FrameSumAppend(body, [stream[j]]);
    FrameSumAppend([stream[i]], body);
    FrameSumSingleton(stream[i]);
  }

  /**
   * A `Checksum` line whose checksum byte is 0x80 or above makes the older
   * driver's decoding raise (the byte is not UTF-8), while the packaged
   * driver decodes the cycle as if that line were absent.
   */
  lemma HighChecksumByteRejected(m: Fields, frames: seq<Line>, k: nat, b: Byte)
    requires k < |frames| && b >= 0x80
    requires frames[k] == ChecksumMarker + [0x09, b, 0x0D, 0x0A]
    ensures ParseFrames(m, frames, false).failure.Some?
    ensures ParseFrames(m, frames, true) == ParseFrames(m, frames[..k] + frames[k + 1..], true)
  {
    var inner := ChecksumMarker + [0x09, b];
    assert frames[k] == inner + [0x0D, 0x0A];
    StripLineEnd(inner);
    assert !IsAscii(inner) by {
      assert inner[|inner| - 1] == b;
    }
    assert Rejected(frames[k], false);
    assert IsChecksumLine(frames[k]) by {
      assert frames[k][..|ChecksumMarker|] == ChecksumMarker;
    }
    assert frames == frames[..k] + [frames[k]] + frames[k + 1..];
    ChecksumLineIgnored(m, frames[..k], frames[k], frames[k + 1..]);
  }

  /** A driver instance: the port settings and the dictionary `_data`. */
  class Device {
    const device: string
    const speed: int
    var data: Fields

    /** `__init__` without its initial refresh. */
    constructor (device: string, speed: int)
      ensures this.device == device && this.speed == speed
      ensures data == map[]
    {
      this.device := device;
      this.speed := speed;
      data := map[];
    }

    /**
     * `refresh`: reads one cycle and decodes every line of it into `data`.
     * A cycle failing the checksum raises before `data` is touched; a line
     * failing to decode ends the loop, keeping what earlier lines wrote.
     */
    method Refresh(stream: seq<Line>, cursor: nat) returns (failure: Option<Error>, next: nat)
      requires CycleAhead(stream, cursor)
      modifies this
      ensures next == FrameEnd(stream, cursor) + 1
      ensures !ChecksumOk(Cycle(stream, cursor)) ==> failure == Some(InvalidChecksum) && data == old(data)
      ensures ChecksumOk(Cycle(stream, cursor)) ==>
        Parsed(data, failure) == ParseFrames(old(data), Cycle(stream, cursor), false)
    {
      var got;
      got, next := GetData(stream, cursor);
      if got.Failure? {
        return Some(got.error), next;
      }
      var frames := got.value;
      for i := 0 to |frames|
        invariant ParseFrames(old(data), frames, false) == ParseFrames(data, frames[i..], false)
      {
        assert frames[i..][1..] == frames[i + 1..];
        match ParseLine(frames[i])
        case Failure(e) =>
          return Some(e), next;
        case Success(f) =>
          data := data[f.key := f.value];
      }
      return None, next;
    }

    /** `battery_volts`: the text of field `V`. */
    function BatteryVolts(): (r: Result<string, Error>)
      reads this
      ensures r.Success? <==> "V" in data
      ensures r.Success? ==> r.value == data["V"]
      ensures r.Failure? ==> r.error == KeyMissing("V")
    {
      Lookup(data, "V")
    }

    /** `battery_amps`: also the text of field `V`. */
    function BatteryAmps(): (r: Result<string, Error>)
      reads this
      ensures r.Success? <==> "V" in data
      ensures r.Success? ==> r.value == data["V"]
      ensures r.Failure? ==> r.error == KeyMissing("V")
    {
      Lookup(data, "V")
    }

    /** `solar_volts`: the text of field `VPV`. */
    function SolarVolts(): (r: Result<string, Error>)
      reads this
      ensures r.Success? <==> "VPV" in data
      ensures r.Success? ==> r.value == data["VPV"]
      ensures r.Failure? ==> r.error == KeyMissing("VPV")
    {
      Lookup(data, "VPV")
    }

    /** `solar_power`: the text of field `PPV`. */
    function SolarPower(): (r: Result<string, Error>)
      reads this
      ensures r.Success? <==> "PPV" in data
      ensures r.Success? ==> r.value == data["PPV"]
      ensures r.Failure? ==> r.error == KeyMissing("PPV")
    {
      Lookup(data, "PPV")
    }

    /** `device_serial`: field `SER#` verbatim. */
    function DeviceSerial(): (r: Result<string, Error>)
      reads this
      ensures r.Success? <==> "SER#" in data
      ensures r.Success? ==> r.value == data["SER#"]
      ensures r.Failure? ==> r.error == KeyMissing("SER#")
    {
      Lookup(data, "SER#")
    }

    /** `device_MPPT_state`: field `MPPT` as an MPPTState. */
    function DeviceMpptState(): (r: Result<MpptState, Error>)
      reads this
      ensures "MPPT" !in data ==> r == Failure(KeyMissing("MPPT"))
      ensures r.Success? ==> "MPPT" in data && ParseInt(data["MPPT"]) == Some(MpptCode(r.value))
      ensures "MPPT" in data && ParseInt(data["MPPT"]).None? ==> r == Failure(NotAnInteger(data["MPPT"]))
      ensures "MPPT" in data && ParseInt(data["MPPT"]).Some? ==> r == MpptStateOf(ParseInt(data["MPPT"]).value)
    {
      MpptField(data)
    }
  }

  /** `battery_amps` and `battery_volts` always read the same stored value. */
  lemma AmpsReadsVolts(d: Device)
    ensures d.BatteryAmps() == d.BatteryVolts()
  {
  }
}
