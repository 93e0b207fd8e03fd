/**
 * The VE.Direct cycle checksum: the device appends a byte chosen so that
 * every byte of the cycle adds up to 0 modulo 256. This module holds the
 * reference definition (one unbounded total, reduced once) and what is
 * proved about it; the two drivers' accumulator loops are proved against it.
 */
module Checksum {
  import opened Protocol

  /** Sum of a byte string, as an unbounded integer. */
  function ByteSum(s: seq<Byte>): nat
  {
    if s == [] then 0 else ByteSum(s[..|s| - 1]) + s[|s| - 1]
  }

  /** Sum of every byte of every line. */
  function FrameSum(frames: seq<Line>): nat
  {
    if frames == [] then 0 else FrameSum(frames[..|frames| - 1]) + ByteSum(frames[|frames| - 1])
  }

  /** `b''.join(frames)`. */
  function Join(frames: seq<Line>): seq<Byte>
  {
    if frames == [] then [] else Join(frames[..|frames| - 1]) + frames[|frames| - 1]
  }

  /** The verdict both drivers compute: the total is 0 modulo 256. */
  predicate ChecksumOk(frames: seq<Line>) {
    FrameSum(frames) % 256 == 0
  }

  /** The byte a device appends so that a cycle of sum `s` becomes valid. */
  function CompletingByte(s: int): (b: Byte)
    ensures (s + b) % 256 == 0
  {
    (256 - s % 256) % 256
  }

  lemma {:induction false} ByteSumAppend(a: seq<Byte>, b: seq<Byte>)
    ensures ByteSum(a + b) == ByteSum(a) + ByteSum(b)
    decreases |b|
  {
    if b == [] {
      assert a + b == a;
    } else {
      assert (a + b)[..|a + b| - 1] == a + b[..|b| - 1];
      ByteSumAppend(a, b[..|b| - 1]);
    }
  }

  lemma {:induction false} FrameSumAppend(a: seq<Line>, b: seq<Line>)
    ensures FrameSum(a + b) == FrameSum(a) + FrameSum(b)
    decreases |b|
  {
    if b == [] {
      assert a + b == a;
    } else {
      assert (a + b)[..|a + b| - 1] == a + b[..|b| - 1];
      FrameSumAppend(a, b[..|b| - 1]);
    }
  }

  /**
   * Summing the joined byte string gives the per-line total: the two drivers'
   * checksum functions compute the same number for every list of lines.
   */
  lemma {:induction false} JoinSum(frames: seq<Line>)
    ensures ByteSum(Join(frames)) == FrameSum(frames)
    decreases |frames|
  {
    if frames != [] {
      JoinSum(frames[..|frames| - 1]);
      ByteSumAppend(Join(frames[..|frames| - 1]), frames[|frames| - 1]);
    }
  }

  /** An empty list of lines, or lines holding only zero bytes, pass the check. */
  lemma {:induction false} ZeroBytesAccepted(frames: seq<Line>)
    requires forall i, j :: 0 <= i < |frames| && 0 <= j < |frames[i]| ==> frames[i][j] == 0
    ensures FrameSum(frames) == 0 && ChecksumOk(frames)
    decreases |frames|
  {
    if frames != [] {
      ZeroBytesAccepted(frames[..|frames| - 1]);
      ZeroLineSum(frames[|frames| - 1]);
    }
  }

  lemma {:induction false} ZeroLineSum(s: seq<Byte>)
    requires forall j :: 0 <= j < |s| ==> s[j] == 0
    ensures ByteSum(s) == 0
    decreases |s|
  {
    if s != [] {
      ZeroLineSum(s[..|s| - 1]);
    }
  }

  /** Taking one element out of the middle of a byte string takes its value off the sum. */
  lemma {:induction false} ByteSumSplit(t: seq<Byte>, k: nat)
    requires k < |t|
    ensures ByteSum(t) == ByteSum(t[..k] + t[k + 1..]) + t[k]
    decreases |t|
  {
    var n := |t| - 1;
    if k == n {
      assert t[..k] + t[k + 1..] == t[..n];
    } else {
      var init := t[..n];
      ByteSumSplit(init, k);
      var rest := init[..k] + init[k + 1..];
      var whole := t[..k] + t[k + 1..];
      assert |whole| == |rest| + 1 && whole[|rest|] == t[n];
      forall i | 0 <= i < |rest| ensures whole[i] == rest[i] {
        if i < k {
          assert whole[i] == t[i] && rest[i] == init[i];
        } else {
          assert whole[i] == t[i + 1] && rest[i] == init[i + 1];
        }
      }
      assert whole[..|rest|] == rest;
      assert ByteSum(whole) == ByteSum(rest) + t[n];
      assert ByteSum(t) == ByteSum(init) + t[n];
    }
  }

  /** The sum of a byte string depends only on its multiset of bytes. */
  lemma {:induction false} ByteSumPermutation(s: seq<Byte>, t: seq<Byte>)
    requires multiset(s) == multiset(t)
    ensures ByteSum(s) == ByteSum(t)
    decreases |s|
  {
    if s == [] {
      assert |t| == |multiset(t)| == 0;
    } else {
      var x := s[|s| - 1];
      assert s == s[..|s| - 1] + [x];
      assert x in multiset(t);
      var k :| 0 <= k < |t| && t[k] == x;
      assert t == t[..k] + [x] + t[k + 1..];
      var t' := t[..k] + t[k + 1..];
      assert multiset(s) == multiset(s[..|s| - 1]) + multiset{x};
      assert multiset(t) == multiset(t[..k]) + multiset{x} + multiset(t[k + 1..]);
      assert multiset(s[..|s| - 1]) == multiset(s) - multiset{x};
      assert multiset(t') == multiset(t) - multiset{x};
      ByteSumPermutation(s[..|s| - 1], t');
      ByteSumSplit(t, k);
    }
  }

  /**
   * The checksum verdict depends only on the multiset of bytes: reordering
   * lines, re-splitting the same bytes into other lines, or reordering bytes
   * never changes it.
   */
  lemma ChecksumDependsOnlyOnBytes(a: seq<Line>, b: seq<Line>)
    requires multiset(Join(a)) == multiset(Join(b))
    ensures FrameSum(a) == FrameSum(b)
    ensures ChecksumOk(a) <==> ChecksumOk(b)
  {
    JoinSum(a);
    JoinSum(b);
    ByteSumPermutation(Join(a), Join(b));
  }

  /** Taking one line out of a list takes its sum off the total. */
  lemma {:induction false} FrameSumSplit(b: seq<Line>, k: nat)
    requires k < |b|
    ensures FrameSum(b) == FrameSum(b[..k] + b[k + 1..]) + ByteSum(b[k])
    decreases |b|
  {
    var n := |b| - 1;
    if k == n {
      assert b[..k] + b[k + 1..] == b[..n];
    } else {
      var init := b[..n];
      FrameSumSplit(init, k);
      var rest := init[..k] + init[k + 1..];
      var whole := b[..k] + b[k + 1..];
      assert |whole| == |rest| + 1 && whole[|rest|] == b[n];
      forall i | 0 <= i < |rest| ensures whole[i] == rest[i] {
        if i < k {
          assert whole[i] == b[i] && rest[i] == init[i];
        } else {
          assert whole[i] == b[i + 1] && rest[i] == init[i + 1];
        }
      }
      assert whole[..|rest|] == rest;
      assert FrameSum(whole) == FrameSum(rest) + ByteSum(b[n]);
      assert FrameSum(b) == FrameSum(init) + ByteSum(b[n]);
    }
  }

  /** Reordering whole lines keeps the total. */
  lemma {:induction false} FrameSumPermutation(a: seq<Line>, b: seq<Line>)
    requires multiset(a) == multiset(b)
    ensures FrameSum(a) == FrameSum(b)
    decreases |a|
  {
    if a == [] {
      assert |b| == |multiset(b)| == 0;
    } else {
      var x := a[|a| - 1];
      assert a == a[..|a| - 1] + [x];
      assert x in multiset(b);
      var k :| 0 <= k < |b| && b[k] == x;
      assert b == b[..k] + [x] + b[k + 1..];
      var b' := b[..k] + b[k + 1..];
      assert multiset(a) == multiset(a[..|a| - 1]) + multiset{x};
      assert multiset(b) == multiset(b[..k]) + multiset{x} + multiset(b[k + 1..]);
      assert multiset(a[..|a| - 1]) == multiset(a) - multiset{x};
      assert multiset(b') == multiset(b) - multiset{x};
      FrameSumPermutation(a[..|a| - 1], b');
      FrameSumSplit(b, k);
    }
  }

  /** Replacing one line changes the total by the difference of the two line sums. */
  lemma FrameSumUpdate(frames: seq<Line>, i: nat, l: Line)
    requires i < |frames|
    ensures FrameSum(frames[i := l]) == FrameSum(frames) - ByteSum(frames[i]) + ByteSum(l)
  {
    var updated := frames[i := l];
    assert updated[..i] == frames[..i] && updated[i + 1..] == frames[i + 1..];
    FrameSumSplit(frames, i);
    FrameSumSplit(updated, i);
  }

  /** Changing a single byte of a valid cycle always makes it invalid. */
  lemma SingleByteCorruptionDetected(frames: seq<Line>, i: nat, k: nat, b: Byte)
    requires ChecksumOk(frames)
    requires i < |frames| && k < |frames[i]| && b != frames[i][k]
    ensures var corrupted: Line := frames[i][k := b]; !ChecksumOk(frames[i := corrupted])
  {
    var l := frames[i];
    var corrupted: Line := l[k := b];
    ByteSumSplit(l, k);
    ByteSumSplit(corrupted, k);
    assert corrupted[..k] + corrupted[k + 1..] == l[..k] + l[k + 1..];
    FrameSumUpdate(frames, i, corrupted);
  }

  /**
   * A checksum line whose last byte is the completing byte for everything
   * before it turns any list of lines into a valid cycle.
   */
  lemma CompletingByteValidates(frames: seq<Line>, checksumLine: Line)
    requires |checksumLine| > 0
    requires checksumLine[|checksumLine| - 1]
          == CompletingByte(FrameSum(frames) + ByteSum(checksumLine[..|checksumLine| - 1]))
    ensures ChecksumOk(frames + [checksumLine])
  {
    var n := |checksumLine|;
    var sum := FrameSum(frames) + ByteSum(checksumLine[..n - 1]);
    var c := checksumLine[n - 1];
    CycleTotal(frames, checksumLine);
    CompletedSum(FrameSum(frames + [checksumLine]), sum, c);
  }

  /** Reducing the running sum before adding the next byte does not change the result. */
  lemma AddReduced(acc: int, total: int, x: int)
    requires acc == total % 256
    ensures (acc + x) % 256 == (total + x) % 256
  {
  }

  lemma CompletedSum(total: int, sum: int, c: Byte)
    requires total == sum + c && c == CompletingByte(sum)
    ensures total % 256 == 0
  {
  }

  /** The total of a cycle with one more line, split at that line's last byte. */
  lemma CycleTotal(frames: seq<Line>, l: Line)
    requires |l| > 0
    ensures FrameSum(frames + [l]) == FrameSum(frames) + ByteSum(l[..|l| - 1]) + l[|l| - 1]
  {
    assert (frames + [l])[..|frames|] == frames;
  }

  lemma FrameSumSingleton(x: Line)
    ensures FrameSum([x]) == ByteSum(x)
  {
    assert [x][..0] == [];
  }
}
