/**
 Ones' complement checksums: the folded 16-bit sum, and the IPv4 and UDP checksums built on it. A
 stored checksum makes the sum over the whole come out as all ones, which is how a receiver verifies
 it; this holds for odd lengths too.
 */
module OnesComplement {
  import opened Arithmetic
  import opened Integers

  const WORD := 0x10000
  const ONES := 0xffff

  /** The sum of the big-endian 16-bit words, an odd trailing byte being a high byte. */
  function WordSum(bytes: Bytes): nat {
    if |bytes| == 0 then 0
    else if |bytes| == 1 then 256 * bytes[0]
    else 256 * bytes[0] + bytes[1] + WordSum(bytes[2..])
  }

  /** The representative of a sum in ones' complement arithmetic; only zero itself folds to zero. */
  function Folded(total: nat): (r: nat)
    ensures r < WORD
  {
    if total == 0 then 0 else (total - 1) % ONES + 1
  }

  lemma {:induction false} FoldStep(total: nat)
    requires total >= WORD
    ensures total % WORD + total / WORD < total
    ensures Folded(total % WORD + total / WORD) == Folded(total)
  {
    var high, low := total / WORD, total % WORD;
    assert total == high * ONES + (low + high);
    DropMultiple(low + high - 1, high, ONES);
  }

  /** The sum as the source computes it: accumulate, then fold the carries back in until none is left. */
  method OnesComplementSum(bytes: Bytes) returns (sum: nat)
    ensures sum == Folded(WordSum(bytes))
  {
    var total: nat, i: nat := 0, 0;
    while i + 1 < |bytes|
      invariant i <= |bytes|
      invariant total + WordSum(bytes[i..]) == WordSum(bytes)
    {
      assert bytes[i..][2..] == bytes[i + 2..];
      total := total + 256 * (bytes[i] as int) + bytes[i + 1];
      i := i + 2;
    }
    if i < |bytes| {
      total := total + 256 * (bytes[i] as int);
    }
    while total / WORD != 0
      invariant Folded(total) == Folded(WordSum(bytes))
      decreases total
    {
      FoldStep(total);
      total := total % WORD + total / WORD;
    }
    if total > 0 {
      Divides(total - 1, ONES, 0, total - 1);
    }
    sum := total;
  }

  /** The complemented sum of a header. */
  method Ipv4Checksum(header: Bytes) returns (checksum: nat)
    ensures checksum == ONES - Folded(WordSum(header)) < WORD
  {
    var sum := OnesComplementSum(header);
    checksum := ONES - sum;
  }

  // ----- storing the checksum makes the sum all ones -----

  /** The bytes with a 16-bit value stored big-endian at `at`. */
  function Store(bytes: Bytes, at: nat, value: nat): (r: Bytes)
    requires at + 1 < |bytes| && value < WORD
    ensures |r| == |bytes|
  {
    bytes[at := value / 256][at + 1 := value % 256]
  }

  /** Storing a value over a zero word at an even offset adds it to the sum. */
  lemma {:induction false} StoreAdds(bytes: Bytes, at: nat, value: nat)
    requires at + 1 < |bytes| && at % 2 == 0 && value < WORD
    requires bytes[at] == 0 && bytes[at + 1] == 0
    ensures WordSum(Store(bytes, at, value)) == WordSum(bytes) + value
    decreases |bytes|
  {
    var stored := Store(bytes, at, value);
    if at == 0 {
      assert stored[2..] == bytes[2..];
    } else {
      StoreAdds(bytes[2..], at - 2, value);
      assert stored[2..] == Store(bytes[2..], at - 2, value);
    }
  }

  /** A sum topped up by its complement folds to all ones. */
  lemma {:induction false} ComplementFolds(total: nat)
    ensures Folded(total + (ONES - Folded(total))) == ONES
  {
    var topped := total + (ONES - Folded(total));
    if total == 0 {
      Divides(topped - 1, ONES, 0, topped - 1);
    } else {
      var q := (total - 1) / ONES;
      assert total - 1 == q * ONES + (total - 1) % ONES;
      assert topped - 1 == q * ONES + (ONES - 1);
      Divides(topped - 1, ONES, q, ONES - 1);
    }
  }

  /** Adding all ones to a sum that already folds to all ones keeps it there. */
  lemma {:induction false} AllOnesAbsorbed(total: nat)
    requires Folded(total) == ONES
    ensures Folded(total + ONES) == ONES
  {
    DropMultiple(total - 1, 1, ONES);
  }

  /** A receiver that sums a header with its checksum stored in place gets all ones. */
  lemma {:induction false} Ipv4Verifies(header: Bytes, at: nat)
    requires at + 1 < |header| && at % 2 == 0 && header[at] == 0 && header[at + 1] == 0
    ensures Folded(WordSum(Store(header, at, ONES - Folded(WordSum(header))))) == ONES
  {
    StoreAdds(header, at, ONES - Folded(WordSum(header)));
    ComplementFolds(WordSum(header));
  }

  // ----- UDP -----

  /** Pseudo-header, then the datagram; the length field is the datagram length modulo 2^16. */
  function PseudoHeader(source: Bytes, destination: Bytes, length: nat): Bytes {
    source + destination + [0, 17, length / 256 % 256, length % 256]
  }

  function UdpBuffer(source: Bytes, destination: Bytes, datagram: Bytes): Bytes {
    PseudoHeader(source, destination, |datagram|) + datagram
  }

  lemma {:induction false} WordSumAppend(a: Bytes, b: Bytes)
    requires |a| % 2 == 0
    ensures WordSum(a + b) == WordSum(a) + WordSum(b)
    decreases |a|
  {
    if a == [] {
      assert a + b == b;
    } else {
      WordSumAppend(a[2..], b);
      assert (a + b)[2..] == a[2..] + b;
    }
  }

  /** The sum is over the addresses, the protocol number 17, the length and the datagram. */
  lemma {:induction false} UdpSum(source: Bytes, destination: Bytes, datagram: Bytes)
    requires |source| % 2 == 0 && |destination| % 2 == 0
    ensures WordSum(UdpBuffer(source, destination, datagram))
            == WordSum(source) + WordSum(destination) + 17 + |datagram| % WORD + WordSum(datagram)
  {
    var n := |datagram|;
    var tail: Bytes := [0, 17, n / 256 % 256, n % 256];
    assert tail[2..] == [n / 256 % 256, n % 256] && tail[2..][2..] == [];
    assert WordSum(tail[2..]) == 256 * (n / 256 % 256) + n % 256 + WordSum([]);
    assert WordSum(tail) == 17 + n % WORD;
    WordSumAppend(source, destination);
    WordSumAppend(source + destination, tail);
    WordSumAppend(PseudoHeader(source, destination, n), datagram);
  }

  /** The transmitted checksum: an all-zero result is sent as all ones. */
  function UdpValue(total: nat): (r: nat)
    ensures 0 < r < WORD
  {
    var complement := ONES - Folded(total);
    if complement == 0 then ONES else complement
  }

  lemma {:induction false} PaddingIsNeutral(bytes: Bytes)
    requires |bytes| % 2 == 1
    ensures WordSum(bytes + [0]) == WordSum(bytes)
    decreases |bytes|
  {
    if |bytes| == 1 {
      var padded := bytes + [0];
      assert padded[2..] == [];
      assert WordSum(padded) == 256 * padded[0] + padded[1] + WordSum([]);
    } else {
      PaddingIsNeutral(bytes[2..]);
      assert (bytes + [0])[2..] == bytes[2..] + [0];
    }
  }

  method UdpChecksum(source: Bytes, destination: Bytes, datagram: Bytes) returns (checksum: nat)
    ensures checksum == UdpValue(WordSum(UdpBuffer(source, destination, datagram)))
  {
    var buffer := source + destination + [0] + [17];
    var length := |datagram|;
    buffer := buffer + [length / 256 % 256] + [length % 256];
    buffer := buffer + datagram;
    assert buffer == UdpBuffer(source, destination, datagram);
    if |buffer| % 2 == 1 {
      PaddingIsNeutral(buffer);
      buffer := buffer + [0];
    }
    var total := OnesComplementSum(buffer);
    var complement := ONES - total;
    checksum := if complement == 0 then ONES else complement;
  }

  /**
   A receiver that sums pseudo-header and datagram with the transmitted checksum stored in place gets
   all ones, for any datagram length; the addresses together must have even length.
   */
  lemma {:induction false} UdpVerifies(source: Bytes, destination: Bytes, datagram: Bytes, at: nat)
    requires (|source| + |destination|) % 2 == 0
    requires at + 1 < |datagram| && at % 2 == 0 && datagram[at] == 0 && datagram[at + 1] == 0
    ensures var checksum := UdpValue(WordSum(UdpBuffer(source, destination, datagram)));
      Folded(WordSum(UdpBuffer(source, destination, Store(datagram, at, checksum)))) == ONES
  {
    var buffer := UdpBuffer(source, destination, datagram);
    var total := WordSum(buffer);
    var checksum, shift := UdpValue(total), |source| + |destination| + 4;
    assert |PseudoHeader(source, destination, |datagram|)| == shift;
    assert UdpBuffer(source, destination, Store(datagram, at, checksum)) == Store(buffer, shift + at, checksum);
    StoreAdds(buffer, shift + at, checksum);
    if Folded(total) == ONES {
      AllOnesAbsorbed(total);
    } else {
      ComplementFolds(total);
    }
  }
}
