/**
 * Decoding a cycle into the field dictionary. Both drivers run the same
 * loop over the collected lines, writing `key -> value` into `_data` one
 * line at a time, and stop at the first line that fails to decode; the
 * packaged driver first passes over lines whose raw bytes start with
 * `Checksum`, the older one does not. `skipChecksum` selects between the two.
 */
module Decoder {
  import opened Wrappers
  import opened Protocol
  import opened Text

  /** The dictionary after the loop, and the exception that ended it early, if any. */
  datatype Parsed = Parsed(fields: Fields, failure: Option<Error>)

  /** A line the loop passes over without decoding it. */
  predicate Skipped(l: Line, skipChecksum: bool) {
    skipChecksum && IsChecksumLine(l)
  }

  /** A line that makes the loop raise. */
  predicate Rejected(l: Line, skipChecksum: bool) {
    !Skipped(l, skipChecksum) && ParseLine(l).Failure?
  }

  /** A line that writes `key` into the dictionary. */
  predicate Writes(l: Line, key: string, skipChecksum: bool) {
    !Skipped(l, skipChecksum) && ParseLine(l).Success? && ParseLine(l).value.key == key
  }

  /**
   * The decoding loop, starting from dictionary `m`. Entries are only ever
   * added or overwritten, never removed, and the loop fails exactly when
   * some line it does not pass over fails to decode.
   */
  function ParseFrames(m: Fields, frames: seq<Line>, skipChecksum: bool): (r: Parsed)
    ensures m.Keys <= r.fields.Keys
    ensures r.failure.None? <==> forall i :: 0 <= i < |frames| ==> !Rejected(frames[i], skipChecksum)
    decreases |frames|
  {
    if frames == [] then Parsed(m, None)
    else if Skipped(frames[0], skipChecksum) then ParseFrames(m, frames[1..], skipChecksum)
    else match ParseLine(frames[0])
      case Failure(e) => Parsed(m, Some(e))
      case Success(f) => ParseFrames(m[f.key := f.value], frames[1..], skipChecksum)
  }

  /**
   * When the loop raises, it does so at the first rejected line, with that
   * line's exception, and the dictionary keeps everything the lines before
   * it wrote.
   */
  lemma {:induction false} FailureKeepsEarlierWrites(m: Fields, frames: seq<Line>, skipChecksum: bool)
    returns (i: nat)
    requires ParseFrames(m, frames, skipChecksum).failure.Some?
    ensures i < |frames| && Rejected(frames[i], skipChecksum)
    ensures forall j :: 0 <= j < i ==> !Rejected(frames[j], skipChecksum)
    ensures ParseFrames(m, frames, skipChecksum)
         == Parsed(ParseFrames(m, frames[..i], skipChecksum).fields, Some(ParseLine(frames[i]).error))
    decreases |frames|
  {
    if Rejected(frames[0], skipChecksum) {
      i := 0;
    } else {
      var m' := Apply(m, frames[0], skipChecksum);
      ParseFirstLine(m, frames, skipChecksum);
      var k := FailureKeepsEarlierWrites(m', frames[1..], skipChecksum);
      i := k + 1;
      var prefix := frames[..i];
      assert prefix[0] == frames[0] && prefix[1..] == frames[1..][..k];
      ParseFirstLine(m, prefix, skipChecksum);
    }
  }

  /** The dictionary after one line the loop does not reject. */
  function Apply(m: Fields, l: Line, skipChecksum: bool): Fields
    requires !Rejected(l, skipChecksum)
  {
    if Skipped(l, skipChecksum) then m else m[ParseLine(l).value.key := ParseLine(l).value.value]
  }

  /** One step of the loop over a line it does not reject. */
  lemma ParseFirstLine(m: Fields, frames: seq<Line>, skipChecksum: bool)
    requires frames != [] && !Rejected(frames[0], skipChecksum)
    ensures ParseFrames(m, frames, skipChecksum)
         == ParseFrames(Apply(m, frames[0], skipChecksum), frames[1..], skipChecksum)
  {
  }

  /** Decoding a concatenation is decoding the second part from where the first left off. */
  lemma {:induction false} ParseFramesAppend(m: Fields, a: seq<Line>, b: seq<Line>, skipChecksum: bool)
    requires ParseFrames(m, a, skipChecksum).failure.None?
    ensures ParseFrames(m, a + b, skipChecksum)
         == ParseFrames(ParseFrames(m, a, skipChecksum).fields, b, skipChecksum)
    decreases |a|
  {
    if a == [] {
      assert a + b == b;
    } else {
      var ab := a + b;
      assert ab[0] == a[0] && ab[1..] == a[1..] + b;
      assert !Rejected(a[0], skipChecksum);
      ParseFirstLine(m, a, skipChecksum);
      ParseFirstLine(m, ab, skipChecksum);
      ParseFramesAppend(Apply(m, a[0], skipChecksum), a[1..], b, skipChecksum);
    }
  }

  /**
   * Reference reading of the dictionary after a successful pass: the value
   * of the last line that writes `key`, or the value `key` had before.
   */
  function LatestValue(m: Fields, frames: seq<Line>, key: string, skipChecksum: bool): Option<string>
  {
    if frames == [] then (if key in m then Some(m[key]) else None)
    else if Writes(frames[|frames| - 1], key, skipChecksum) then Some(ParseLine(frames[|frames| - 1]).value.value)
    else LatestValue(m, frames[..|frames| - 1], key, skipChecksum)
  }

  /**
   * Last write wins: after a pass that raised nothing, every key holds the
   * value of the last line that wrote it, keys no line wrote keep their old
   * value, and nothing else is in the dictionary.
   */
  lemma {:induction false} LastWriteWins(m: Fields, frames: seq<Line>, key: string, skipChecksum: bool)
    requires ParseFrames(m, frames, skipChecksum).failure.None?
    ensures var r := ParseFrames(m, frames, skipChecksum).fields;
      && (key in r <==> LatestValue(m, frames, key, skipChecksum).Some?)
      && (key in r ==> r[key] == LatestValue(m, frames, key, skipChecksum).value)
    decreases |frames|
  {
    if frames != [] {
      var init, last := frames[..|frames| - 1], frames[|frames| - 1];
      assert frames == init + [last];
      ParsePrefixSucceeds(m, init, [last], skipChecksum);
      ParseFramesAppend(m, init, [last], skipChecksum);
      LastWriteWins(m, init, key, skipChecksum);
      var mid := ParseFrames(m, init, skipChecksum).fields;
      ParseOneLine(mid, last, skipChecksum);
    }
  }

  /** A pass that raises nothing raises nothing on any prefix either. */
  lemma ParsePrefixSucceeds(m: Fields, a: seq<Line>, b: seq<Line>, skipChecksum: bool)
    requires ParseFrames(m, a + b, skipChecksum).failure.None?
    ensures ParseFrames(m, a, skipChecksum).failure.None?
  {
    assert forall i :: 0 <= i < |a| ==> (a + b)[i] == a[i];
  }

  /** The loop over a single line it does not reject. */
  lemma ParseOneLine(m: Fields, l: Line, skipChecksum: bool)
    requires !Rejected(l, skipChecksum)
    ensures ParseFrames(m, [l], skipChecksum) == Parsed(Apply(m, l, skipChecksum), None)
  {
    var one: seq<Line> := [l];
    assert one[0] == l && one[1..] == [];
    ParseFirstLine(m, one, skipChecksum);
  }

  /** Keys that no line of the cycle writes keep their previous value, or stay absent. */
  lemma UntouchedKeysKept(m: Fields, frames: seq<Line>, key: string, skipChecksum: bool)
    requires ParseFrames(m, frames, skipChecksum).failure.None?
    requires forall i :: 0 <= i < |frames| ==> !Writes(frames[i], key, skipChecksum)
    ensures var r := ParseFrames(m, frames, skipChecksum).fields;
      && (key in r <==> key in m)
      && (key in m ==> r[key] == m[key])
  {
    LastWriteWins(m, frames, key, skipChecksum);
    LatestValueUntouched(m, frames, key, skipChecksum);
  }

  lemma {:induction false} LatestValueUntouched(m: Fields, frames: seq<Line>, key: string, skipChecksum: bool)
    requires forall i :: 0 <= i < |frames| ==> !Writes(frames[i], key, skipChecksum)
    ensures LatestValue(m, frames, key, skipChecksum) == if key in m then Some(m[key]) else None
    decreases |frames|
  {
    if frames != [] {
      LatestValueUntouched(m, frames[..|frames| - 1], key, skipChecksum);
    }
  }

  /** A `Checksum` line anywhere in the cycle has no effect on the packaged driver's decoding. */
  lemma {:induction false} ChecksumLineIgnored(m: Fields, a: seq<Line>, c: Line, b: seq<Line>)
    requires IsChecksumLine(c)
    ensures ParseFrames(m, a + [c] + b, true) == ParseFrames(m, a + b, true)
    decreases |a|
  {
    if a == [] {
      assert a + [c] + b == [c] + b && ([c] + b)[1..] == b && a + b == b;
    } else {
      assert (a + [c] + b)[0] == a[0] && (a + [c] + b)[1..] == a[1..] + [c] + b;
      assert (a + b)[0] == a[0] && (a + b)[1..] == a[1..] + b;
      if !Skipped(a[0], true) && ParseLine(a[0]).Success? {
        var f := ParseLine(a[0]).value;
        ChecksumLineIgnored(m[f.key := f.value], a[1..], c, b);
      } else {
        ChecksumLineIgnored(m, a[1..], c, b);
      }
    }
  }

  /** On a cycle without `Checksum` lines the two drivers' decoding loops agree. */
  lemma {:induction false} SkipIrrelevantWithoutChecksumLines(m: Fields, frames: seq<Line>)
    requires forall i :: 0 <= i < |frames| ==> !IsChecksumLine(frames[i])
    ensures ParseFrames(m, frames, true) == ParseFrames(m, frames, false)
    decreases |frames|
  {
    if frames != [] {
      assert forall i :: 0 <= i < |frames| - 1 ==> frames[1..][i] == frames[i + 1];
      if ParseLine(frames[0]).Success? {
        var f := ParseLine(frames[0]).value;
        SkipIrrelevantWithoutChecksumLines(m[f.key := f.value], frames[1..]);
      }
    }
  }

  /** The dictionary after writing the fields in order, later ones overwriting earlier ones. */
  function Assign(m: Fields, fs: seq<Field>): Fields
    decreases |fs|
  {
    if fs == [] then m else Assign(m[fs[0].key := fs[0].value], fs[1..])
  }

  /** The lines a device sends for a list of fields, in order. */
  function EncodeFields(fs: seq<Field>): seq<Line>
    requires forall i :: 0 <= i < |fs| ==> WellFormedField(fs[i])
    decreases |fs|
  {
    if fs == [] then [] else [EncodeField(fs[0])] + EncodeFields(fs[1..])
  }

  lemma {:induction false} DecodeEncodedFields(m: Fields, fs: seq<Field>, skipChecksum: bool)
    requires forall i :: 0 <= i < |fs| ==> WellFormedField(fs[i])
    requires forall i :: 0 <= i < |fs| ==> !IsChecksumLine(EncodeField(fs[i]))
    ensures ParseFrames(m, EncodeFields(fs), skipChecksum) == Parsed(Assign(m, fs), None)
    decreases |fs|
  {
    if fs != [] {
      var lines := EncodeFields(fs);
      assert lines[0] == EncodeField(fs[0]) && lines[1..] == EncodeFields(fs[1..]);
      ParseEncodedField(fs[0]);
      DecodeEncodedFields(m[fs[0].key := fs[0].value], fs[1..], skipChecksum);
    }
  }

  /**
   * Round trip: encoding fields as tab-separated lines followed by a
   * `Checksum` line, then decoding with the packaged driver's loop, writes
   * exactly those fields, last one winning, and raises nothing.
   */
  lemma EncodedCycleRoundTrip(m: Fields, fs: seq<Field>, checksumLine: Line)
    requires forall i :: 0 <= i < |fs| ==> WellFormedField(fs[i])
    requires forall i :: 0 <= i < |fs| ==> !IsChecksumLine(EncodeField(fs[i]))
    requires IsChecksumLine(checksumLine)
    ensures ParseFrames(m, EncodeFields(fs) + [checksumLine], true) == Parsed(Assign(m, fs), None)
  {
    var lines := EncodeFields(fs);
    ChecksumLineIgnored(m, lines, checksumLine, []);
    assert lines + [checksumLine] + [] == lines + [checksumLine];
    assert lines + [] == lines;
    DecodeEncodedFields(m, fs, true);
  }
}
