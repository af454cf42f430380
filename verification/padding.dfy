/** Message padding of the DNSCrypt v2 protocol: a 0x80 byte, then zeros to a block boundary. */
module Padding {
  import opened Basics
  import opened Dns

  const BLOCK: nat := 64

  function Pad(msg: Bytes): (padded: Bytes)
    ensures |padded| == BLOCK * (|msg| / BLOCK + 1)
    ensures IsPadded(padded, msg)
  {
    var marked := msg + [0x80];
    var rem := |marked| % BLOCK;
    var padded := if rem != 0 then marked + Zeros(BLOCK - rem) else marked;
    assert PaddedBy(padded, msg, |padded| - |msg| - 1);
    padded
  }

  ghost predicate PaddedBy(p: Bytes, msg: Bytes, n: nat) {
    p == msg + [0x80] + Zeros(n)
  }

  /** `p` is `msg`, the marker byte and any number of zeros. */
  ghost predicate IsPadded(p: Bytes, msg: Bytes) {
    exists n: nat :: PaddedBy(p, msg, n)
  }

  /** A padded string determines its message: the last non-zero byte is the marker. */
  lemma PaddingIsUnique(p: Bytes, a: Bytes, b: Bytes)
    requires IsPadded(p, a) && IsPadded(p, b)
    ensures a == b
  {
    var m: nat :| PaddedBy(p, a, m);
    var n: nat :| PaddedBy(p, b, n);
    assert p[|a|] == 0x80 && (forall i :: |a| < i < |p| ==> p[i] == 0);
    assert p[|b|] == 0x80 && (forall i :: |b| < i < |p| ==> p[i] == 0);
    assert |a| == |b|;
    assert a == p[..|a|] && b == p[..|b|];
  }

  /** What is left when the zeros at the end and the marker before them are taken off. */
  function Unpad(padded: Bytes): (r: Result<Bytes, Error>)
    ensures r.Err? ==> r.error.DnsCrypt?
  {
    if padded == [] then Err(DnsCrypt("invalid padding in response"))
    else
      var n := |padded| - 1;
      if padded[n] == 0 then Unpad(padded[..n])
      else if padded[n] == 0x80 then Ok(padded[..n])
      else Err(DnsCrypt("invalid padding in response"))
  }

  /** `Unpad` accepts exactly the padded strings and returns the message of each. */
  lemma {:induction false} UnpadAcceptsPadded(p: Bytes, msg: Bytes)
    ensures Unpad(p) == Ok(msg) <==> IsPadded(p, msg)
  {
    if p != [] {
      var n := |p| - 1;
      UnpadAcceptsPadded(p[..n], msg);
      if k: nat :| PaddedBy(p, msg, k) {
        assert p[n] == if k == 0 then 0x80 else 0;
        assert k > 0 ==> PaddedBy(p[..n], msg, k - 1);
        assert k == 0 ==> p[..n] == msg;
      }
      if p[n] == 0 {
        if k: nat :| PaddedBy(p[..n], msg, k) {
          assert PaddedBy(p, msg, k + 1);
        }
      } else if p[n] == 0x80 && p[..n] == msg {
        assert PaddedBy(p, msg, 0);
      }
    }
  }

  /** Unpadding undoes padding on every message. */
  lemma UnpadPad(msg: Bytes)
    ensures Unpad(Pad(msg)) == Ok(msg)
  {
    UnpadAcceptsPadded(Pad(msg), msg);
  }

  /** The search for the last non-zero byte, from the end. */
  method StripPadding(padded: Bytes) returns (r: Result<Bytes, Error>)
    ensures r == Unpad(padded)
  {
    var i := |padded|;
    assert padded[..i] == padded;
    while i > 0 && padded[i - 1] == 0
      invariant 0 <= i <= |padded|
      invariant Unpad(padded[..i]) == Unpad(padded)
    {
      i := i - 1;
      assert padded[..i + 1][..i] == padded[..i];
    }
    if i > 0 && padded[i - 1] == 0x80 {
      assert padded[..i][..i - 1] == padded[..i - 1];
      return Ok(padded[..i - 1]);
    }
    return Err(DnsCrypt("invalid padding in response"));
  }
}
