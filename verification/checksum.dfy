/**
 The Bebop bus integrity checksum: a running exclusive-or of a seed byte with
 every byte of a run, in order. Received telemetry is checked with seed 0;
 outbound ESC-speed records are sealed with the destination register address
 as the seed.
 */
module Checksums {
  import opened Bytes

  /** The left exclusive-or fold of `seed` over `data`: the seed is combined
      with `data[0]` first, then with each following byte in turn. */
  function Checksum(seed: byte, data: seq<byte>): byte
    decreases |data|
  {
    if |data| == 0 then seed else Checksum(seed ^ data[0], data[1..])
  }

  /** The driver's checksum loop, which walks the run front to back keeping
      one accumulator byte. It agrees with the fold for every seed and run;
      on an empty run it returns the seed unchanged. */
  method ComputeChecksum(initial: byte, data: seq<byte>) returns (checksum: byte)
    ensures checksum == Checksum(initial, data)
    ensures |data| == 0 ==> checksum == initial
  {
    checksum := initial;
    var i := 0;
    while i < |data|
      invariant 0 <= i <= |data|
      invariant Checksum(checksum, data[i..]) == Checksum(initial, data)
    {
      assert data[i..][1..] == data[i + 1..];
      checksum := checksum ^ data[i];
      i := i + 1;
    }
    assert data[i..] == [];
  }

  /** The checksum of a concatenation is the checksum of the second run
      seeded with the checksum of the first. */
  lemma {:induction false} ChecksumConcat(seed: byte, a: seq<byte>, b: seq<byte>)
    ensures Checksum(seed, a + b) == Checksum(Checksum(seed, a), b)
    decreases |a|
  {
    if |a| == 0 {
      assert a + b == b;
    } else {
      assert (a + b)[1..] == a[1..] + b;
      ChecksumConcat(seed ^ a[0], a[1..], b);
    }
  }

  /** The seed can be pulled out of the fold: seeding with `s` is the same as
      xoring `s` onto the zero-seeded checksum. */
  lemma {:induction false} ChecksumSeed(seed: byte, data: seq<byte>)
    ensures Checksum(seed, data) == seed ^ Checksum(0, data)
    decreases |data|
  {
    if |data| != 0 {
      ChecksumSeed(seed ^ data[0], data[1..]);
      ChecksumSeed(data[0], data[1..]);
    }
  }

  /** A record whose trailing byte is the checksum of the bytes before it is
      exactly a record whose checksum over every byte, the trailer included,
      is zero. */
  lemma TrailerMatches(seed: byte, frame: seq<byte>)
    requires |frame| >= 1
    ensures Checksum(seed, frame[..|frame| - 1]) == frame[|frame| - 1]
            <==> Checksum(seed, frame) == 0
  {
    var n := |frame| - 1;
    assert frame == frame[..n] + [frame[n]];
    ChecksumConcat(seed, frame[..n], [frame[n]]);
    assert Checksum(Checksum(seed, frame[..n]), [frame[n]])
        == Checksum(seed, frame[..n]) ^ frame[n];
  }

  /** The contribution of one byte in the middle of a run to its checksum. */
  lemma ChecksumAround(seed: byte, prefix: seq<byte>, x: byte, suffix: seq<byte>)
    ensures Checksum(seed, prefix + [x] + suffix)
            == Checksum(seed, prefix) ^ x ^ Checksum(0, suffix)
  {
    ChecksumConcat(seed, prefix + [x], suffix);
    ChecksumConcat(seed, prefix, [x]);
    ChecksumSeed(Checksum(seed, prefix + [x]), suffix);
  }

  /** Changing exactly one byte of a run always changes its checksum: the
      exclusive-or catches every single-byte error. */
  lemma SingleByteChangeDetected(seed: byte, f: seq<byte>, g: seq<byte>, i: nat)
    requires |f| == |g| && i < |f|
    requires f[i] != g[i]
    requires forall j :: 0 <= j < |f| && j != i ==> f[j] == g[j]
    ensures Checksum(seed, f) != Checksum(seed, g)
  {
    var prefix := f[..i];
    var suffix := f[i + 1..];
    assert f == prefix + [f[i]] + suffix;
    assert g == prefix + [g[i]] + suffix;
    ChecksumAround(seed, prefix, f[i], suffix);
    ChecksumAround(seed, prefix, g[i], suffix);
    var c := Checksum(seed, prefix);
    var t := Checksum(0, suffix);
    assert c ^ f[i] ^ t != c ^ g[i] ^ t;
  }
}
