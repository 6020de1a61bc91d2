// Octets and octet sums, shared by the frame, section and file checksums.
module Bytes {

  type byte = b: int | 0 <= b < 256

  /** A number from its low octet and the rest: w[0] + w[1] * 0x100 and so on. */
  function Word(low: int, high: int): int { low + high * 0x100 }

  /** The sum of all octets. */
  function Total(s: seq<byte>): nat {
    if s == [] then 0 else Total(s[..|s| - 1]) + s[|s| - 1]
  }

  /** What a uint8_t accumulator holds after adding every octet. */
  function Sum(s: seq<byte>): byte {
    Total(s) % 256
  }

  lemma {:induction false} TotalAppend(a: seq<byte>, b: seq<byte>)
    ensures Total(a + b) == Total(a) + Total(b)
  {
    if b == [] {
      assert a + b == a;
    } else {
      assert (a + b)[..|a + b| - 1] == a + b[..|b| - 1];
      TotalAppend(a, b[..|b| - 1]);
    }
  }

  /** Exchanging one octet moves the sum by the difference of the two octets. */
  lemma TotalUpdate(s: seq<byte>, i: nat, b: byte)
    requires i < |s|
    ensures Total(s[i := b]) == Total(s) - s[i] + b
  {
    var head, tail := s[..i], s[i + 1..];
    assert s == head + [s[i]] + tail && s[i := b] == head + [b] + tail;
    TotalAppend(head + [s[i]], tail);
    TotalAppend(head + [b], tail);
    assert (head + [s[i]])[..i] == head && (head + [b])[..i] == head;
  }

  /** The checksum notices every change of a single octet. */
  lemma SumDetectsOneOctet(s: seq<byte>, i: nat, b: byte)
    requires i < |s| && s[i] != b
    ensures Sum(s[i := b]) != Sum(s)
  {
    TotalUpdate(s, i, b);
  }

  lemma AddMod(a: nat, b: nat)
    ensures (a % 256 + b % 256) % 256 == (a + b) % 256
  {
    AddMultiple(a % 256 + b % 256, a / 256 + b / 256);
  }

  lemma AddMultiple(x: nat, q: nat)
    ensures (x + 256 * q) % 256 == x % 256
  {
  }

  /** The accumulating step of every checksum loop. */
  lemma SumStep(s: seq<byte>, n: nat)
    requires n < |s|
    ensures Sum(s[..n + 1]) == (Sum(s[..n]) + s[n]) % 256
  {
    assert s[..n + 1][..n] == s[..n];
    assert Total(s[..n + 1]) == Total(s[..n]) + s[n];
    hide Total;
    AddMod(Total(s[..n]), s[n]);
  }
}
