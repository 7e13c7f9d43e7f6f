/** The 16-byte IMAP checkpoint (src/envelope/imap/diff.rs). */
module ImapState {
  import opened Wrappers
  import opened Widths

  type Byte = b: int | 0 <= b < 256

  datatype Checkpoint = Checkpoint(uidValidity: nat, highestModSeq: nat, highestUid: nat)

  /** The values the `u32`/`u64`/`u32` fields can hold. */
  predicate Representable(c: Checkpoint) {
    c.uidValidity < U32_LIMIT && c.highestModSeq < U64_LIMIT && c.highestUid < U32_LIMIT
  }

  function LeBytes(n: nat, width: nat): (bs: seq<Byte>)
    ensures |bs| == width
    decreases width
  {
    if width == 0 then [] else [n % 256] + LeBytes(n / 256, width - 1)
  }

  function FromLe(bs: seq<Byte>): nat {
    if bs == [] then 0 else bs[0] + 256 * FromLe(bs[1..])
  }

  function Pow256(k: nat): nat {
    if k == 0 then 1 else 256 * Pow256(k - 1)
  }

  function Encode(c: Checkpoint): (bs: seq<Byte>)
    ensures |bs| == 16
  {
    LeBytes(c.uidValidity, 4) + LeBytes(c.highestModSeq, 8) + LeBytes(c.highestUid, 4)
  }

  function Decode(bs: seq<Byte>): Option<Checkpoint> {
    if |bs| != 16 then None
    else Some(Checkpoint(FromLe(bs[0..4]), FromLe(bs[4..12]), FromLe(bs[12..16])))
  }

  lemma {:induction false} FromLeOfLeBytes(n: nat, width: nat)
    requires n < Pow256(width)
    ensures FromLe(LeBytes(n, width)) == n
    decreases width
  {
    if width > 0 {
      FromLeOfLeBytes(n / 256, width - 1);
    }
  }

  lemma {:induction false} LeBytesOfFromLe(bs: seq<Byte>)
    ensures LeBytes(FromLe(bs), |bs|) == bs
    ensures FromLe(bs) < Pow256(|bs|)
  {
    if bs != [] {
      LeBytesOfFromLe(bs[1..]);
      assert FromLe(bs) % 256 == bs[0] && FromLe(bs) / 256 == FromLe(bs[1..]);
    }
  }

  lemma {:induction false} PowersAreLimits()
    ensures Pow256(4) == U32_LIMIT && Pow256(8) == U64_LIMIT
  {
    assert Pow256(2) == 0x1_0000;
    assert Pow256(4) == U32_LIMIT;
    assert Pow256(6) == 0x1_0000 * U32_LIMIT;
  }

  /** The layout: UIDVALIDITY, mod-sequence and UID one after the other, each least significant byte first. */
  lemma {:induction false} LayoutIs(c: Checkpoint)
    requires Representable(c)
    ensures var bs := Encode(c);
      && c.uidValidity == Word(bs[0], bs[1], bs[2], bs[3])
      && c.highestModSeq == Word(bs[4], bs[5], bs[6], bs[7]) + 0x1_0000_0000 * Word(bs[8], bs[9], bs[10], bs[11])
      && c.highestUid == Word(bs[12], bs[13], bs[14], bs[15])
  {
    var bs := Encode(c);
    DecodeEncode(c);
    FromLeIs(bs[0..4]);
    FromLeIs(bs[4..8]);
    FromLeIs(bs[8..12]);
    FromLeIs(bs[12..16]);
    FromLeJoins(bs[4..12]);
    assert bs[4..12][..4] == bs[4..8] && bs[4..12][4..] == bs[8..12];
  }

  /** Four bytes, least significant first. */
  function Word(b0: Byte, b1: Byte, b2: Byte, b3: Byte): nat {
    b0 + 0x100 * b1 + 0x1_0000 * b2 + 0x100_0000 * b3
  }

  lemma {:induction false} FromLeIs(bs: seq<Byte>)
    requires |bs| == 4
    ensures FromLe(bs) == Word(bs[0], bs[1], bs[2], bs[3])
  {
    assert FromLe(bs) == bs[0] + 256 * FromLe(bs[1..]);
    assert FromLe(bs[1..]) == bs[1] + 256 * FromLe(bs[1..][1..]);
    assert bs[1..][1..] == bs[2..] && bs[2..][1..] == bs[3..] && bs[3..][1..] == [];
    assert FromLe(bs[2..]) == bs[2] + 256 * FromLe(bs[3..]);
    assert FromLe(bs[3..]) == bs[3];
  }

  lemma {:induction false} FromLeJoins(bs: seq<Byte>)
    requires |bs| == 8
    ensures FromLe(bs) == FromLe(bs[..4]) + 0x1_0000_0000 * FromLe(bs[4..])
  {
    FromLeAppend(bs, 4);
    assert Pow256(4) == 0x1_0000_0000 by {
      PowersAreLimits();
    }
  }

  lemma {:induction false} FromLeAppend(bs: seq<Byte>, n: nat)
    requires n <= |bs|
    ensures FromLe(bs) == FromLe(bs[..n]) + Pow256(n) * FromLe(bs[n..])
  {
    if n == 0 {
      assert bs[0..] == bs;
    } else {
      FromLeAppend(bs[1..], n - 1);
      assert bs[1..][..n - 1] == bs[..n][1..] && bs[1..][n - 1..] == bs[n..];
      var p, f := Pow256(n - 1), FromLe(bs[n..]);
      assert Pow256(n) * f == 256 * (p * f);
    }
  }

  /** Decoding inverts encoding on every representable checkpoint. */
  lemma {:induction false} DecodeEncode(c: Checkpoint)
    requires Representable(c)
    ensures Decode(Encode(c)) == Some(c)
  {
    PowersAreLimits();
    FromLeOfLeBytes(c.uidValidity, 4);
    FromLeOfLeBytes(c.highestModSeq, 8);
    FromLeOfLeBytes(c.highestUid, 4);
    var bs := Encode(c);
    assert bs[0..4] == LeBytes(c.uidValidity, 4);
    assert bs[4..12] == LeBytes(c.highestModSeq, 8);
    assert bs[12..16] == LeBytes(c.highestUid, 4);
  }

  /** A blob decodes exactly when it has 16 bytes, and then encoding inverts decoding. */
  lemma {:induction false} EncodeDecode(bs: seq<Byte>)
    ensures Decode(bs).Some? <==> |bs| == 16
    ensures Decode(bs).Some? ==> Representable(Decode(bs).value) && Encode(Decode(bs).value) == bs
  {
    if |bs| == 16 {
      var a, b, c := bs[0..4], bs[4..12], bs[12..16];
      FieldsRoundTrip(a, b, c);
      assert Decode(bs) == Some(Checkpoint(FromLe(a), FromLe(b), FromLe(c)));
      ThreeParts(bs);
    }
  }

  lemma {:induction false} ThreeParts(bs: seq<Byte>)
    requires |bs| == 16
    ensures bs == bs[0..4] + bs[4..12] + bs[12..16]
  {
  }

  lemma {:induction false} FieldsRoundTrip(a: seq<Byte>, b: seq<Byte>, c: seq<Byte>)
    requires |a| == |c| == 4 && |b| == 8
    ensures var fields := Checkpoint(FromLe(a), FromLe(b), FromLe(c));
      Representable(fields) && Encode(fields) == a + b + c
  {
    PowersAreLimits();
    LeBytesOfFromLe(a);
    LeBytesOfFromLe(b);
    LeBytesOfFromLe(c);
  }
}
