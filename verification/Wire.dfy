/** Payloads of the stream-control frames: builders that fill a buffer, parsers, and their
    inverses. */
module Wire {
  import opened Bytes
  import opened Options
  import opened Streams

  type Seq64 = x: int | 0 <= x < 0x1_0000_0000_0000_0000
  type Uint32 = x: int | 0 <= x < 0x1_0000_0000

  type Proof = s: seq<byte> | |s| == 32 witness seq(32, _ => 0)

  // ---------------------------------------------------------------- shapes

  function FlatData(id: StreamId, data: seq<byte>): seq<byte> {
    BE(2, id) + data
  }

  function SeqData(id: StreamId, downSeq: Seq64, data: seq<byte>): seq<byte> {
    BE(2, id) + BE(8, downSeq) + data
  }

  function WindowUpdate(id: StreamId, delta: Uint32): seq<byte> {
    BE(2, id) + BE(4, delta)
  }

  function MigrateFrame(id: StreamId, proof: Proof): seq<byte> {
    BE(2, id) + proof
  }

  function StreamAck(id: StreamId, acked: Seq64): seq<byte> {
    BE(2, id) + BE(8, acked)
  }

  function MigrateOk(id: StreamId, resume: Seq64): seq<byte> {
    [1] + BE(2, id) + BE(8, resume)
  }

  function MigrateFail(id: StreamId, reason: byte): seq<byte> {
    [0] + BE(2, id) + [reason]
  }

  /** The length field holds only the low 16 bits of the address length. */
  function UdpData(id: StreamId, addr: seq<byte>, data: seq<byte>): seq<byte> {
    BE(2, id) + BE(2, |addr|) + addr + data
  }

  // ---------------------------------------------------------------- builders

  method BuildSeqData(id: StreamId, downSeq: Seq64, data: seq<byte>) returns (p: array<byte>)
    ensures fresh(p) && p[..] == SeqData(id, downSeq, data)
  {
    p := new byte[2 + 8 + |data|];
    PutBE(p, 0, 2, id);
    PutBE(p, 2, 8, downSeq);
    Copy(p, 10, data);
    assert p[..] == p[..2] + p[2..10] + p[10..10 + |data|];
    assert p[..2] == p[0..2] == BE(2, id) && p[2..10] == BE(8, downSeq) by {
      assert p[..10][0..2] == p[0..2] && p[..10][2..10] == p[2..10];
    }
  }

  method BuildMigrateFrame(id: StreamId, proof: Proof) returns (p: array<byte>)
    ensures fresh(p) && p[..] == MigrateFrame(id, proof)
  {
    p := new byte[2 + 32];
    PutBE(p, 0, 2, id);
    Copy(p, 2, proof);
    assert p[..] == p[..2] + p[2..34];
    assert p[..2] == p[0..2];
  }

  method BuildStreamAck(id: StreamId, acked: Seq64) returns (p: array<byte>)
    ensures fresh(p) && p[..] == StreamAck(id, acked)
  {
    p := new byte[2 + 8];
    PutBE(p, 0, 2, id);
    PutBE(p, 2, 8, acked);
    assert p[..] == p[..2] + p[2..10];
    assert p[..2] == p[0..2];
  }

  method BuildWindowUpdate(id: StreamId, delta: Uint32) returns (p: array<byte>)
    ensures fresh(p) && p[..] == WindowUpdate(id, delta)
  {
    p := new byte[6];
    PutBE(p, 0, 2, id);
    PutBE(p, 2, 4, delta);
    assert p[..] == p[..2] + p[2..6];
    assert p[..2] == p[0..2];
  }

  method BuildMigrateOk(id: StreamId, resume: Seq64) returns (p: array<byte>)
    ensures fresh(p) && p[..] == MigrateOk(id, resume)
  {
    p := new byte[1 + 2 + 8];
    p[0] := 1;
    PutBE(p, 1, 2, id);
    PutBE(p, 3, 8, resume);
    assert p[..] == p[..3] + p[3..11];
    assert p[..3] == [p[0]] + p[1..3];
    assert p[..3][0] == p[0];
  }

  method BuildMigrateFail(id: StreamId, reason: byte) returns (p: array<byte>)
    ensures fresh(p) && p[..] == MigrateFail(id, reason)
  {
    p := new byte[1 + 2 + 1];
    p[0] := 0;
    PutBE(p, 1, 2, id);
    p[3] := reason;
    assert p[..] == [p[0]] + p[1..3] + [p[3]];
  }

  method BuildUdp(id: StreamId, addr: seq<byte>, data: seq<byte>) returns (p: array<byte>)
    ensures fresh(p) && p[..] == UdpData(id, addr, data)
  {
    var n := |addr|;
    p := new byte[2 + 2 + n + |data|];
    PutBE(p, 0, 2, id);
    PutBE(p, 2, 2, n);
    ghost var head := p[..4];
    assert head == BE(2, id) + BE(2, n) by {
      assert head == p[..2] + p[2..4];
      assert p[..2] == p[0..2];
    }
    Copy(p, 4, addr);
    assert p[..4 + n] == head + addr by {
      assert p[..4 + n] == p[..4] + p[4..4 + n];
    }
    Copy(p, 4 + n, data);
    assert p[..] == p[..4 + n] + p[4 + n..4 + n + |data|];
  }

  // ---------------------------------------------------------------- parsers

  function ParseSeqData(p: seq<byte>): Option<(nat, nat, seq<byte>)> {
    if |p| < 10 then None else Some((Val(p[0..2]), Val(p[2..10]), p[10..]))
  }

  function ParseWindowUpdate(p: seq<byte>): Option<(nat, nat)> {
    if |p| < 6 then None else Some((Val(p[0..2]), Val(p[2..6])))
  }

  function ParseMigrateFrame(p: seq<byte>): Option<(nat, seq<byte>)> {
    if |p| < 34 then None else Some((Val(p[0..2]), p[2..34]))
  }

  function ParseStreamAck(p: seq<byte>): Option<(nat, nat)> {
    if |p| < 10 then None else Some((Val(p[0..2]), Val(p[2..10])))
  }

  function ParseStreamClose(p: seq<byte>): Option<nat> {
    if |p| < 2 then None else Some(Val(p[0..2]))
  }

  datatype MigrateReply = Accepted(id: nat, resume: nat) | Refused(id: nat, reason: byte) | Malformed

  function ParseMigrateReply(p: seq<byte>): MigrateReply {
    if |p| < 4 then Malformed
    else if p[0] == 1 then (if |p| < 11 then Malformed else Accepted(Val(p[1..3]), Val(p[3..11])))
    else if p[0] == 0 then Refused(Val(p[1..3]), p[3])
    else Malformed
  }

  datatype UdpParse = UdpOk(id: nat, addr: seq<byte>, data: seq<byte>) | UdpError | UdpPanic

  /** The end of the address is computed in 16 bits; when that wraps, the slice bounds cross. */
  function ParseUdp(p: seq<byte>): UdpParse {
    if |p| < 4 then UdpError
    else
      var end := (4 + Val(p[2..4])) % 0x1_0000;
      if |p| < end then UdpError
      else if end < 4 then UdpPanic
      else UdpOk(Val(p[0..2]), p[4..end], p[end..])
  }

  // ---------------------------------------------------------------- inverses

  lemma FieldsFit(id: StreamId, n: Seq64, w: Uint32)
    ensures Val(BE(2, id)) == id && Val(BE(8, n)) == n && Val(BE(4, w)) == w
  {
    Widths();
    ValOfBE(2, id);
    ValOfBE(8, n);
    ValOfBE(4, w);
  }

  /** Every frame reads back as what was put into it, for all values. */
  lemma SeqDataRoundTrip(id: StreamId, downSeq: Seq64, data: seq<byte>)
    ensures ParseSeqData(SeqData(id, downSeq, data)) == Some((id, downSeq, data))
  {
    FieldsFit(id, downSeq, 0);
    var p := SeqData(id, downSeq, data);
    assert p[0..2] == BE(2, id) && p[2..10] == BE(8, downSeq) && p[10..] == data;
  }

  lemma ControlRoundTrips(id: StreamId, n: Seq64, w: Uint32, proof: Proof, reason: byte)
    ensures ParseWindowUpdate(WindowUpdate(id, w)) == Some((id, w))
    ensures ParseMigrateFrame(MigrateFrame(id, proof)) == Some((id, proof))
    ensures ParseStreamAck(StreamAck(id, n)) == Some((id, n))
    ensures ParseStreamClose(BE(2, id)) == Some(id)
    ensures ParseMigrateReply(MigrateOk(id, n)) == Accepted(id, n)
    ensures ParseMigrateReply(MigrateFail(id, reason)) == Refused(id, reason)
  {
    FieldsFit(id, n, w);
    assert WindowUpdate(id, w)[0..2] == BE(2, id) && WindowUpdate(id, w)[2..6] == BE(4, w);
    assert MigrateFrame(id, proof)[0..2] == BE(2, id) && MigrateFrame(id, proof)[2..34] == proof;
    assert StreamAck(id, n)[0..2] == BE(2, id) && StreamAck(id, n)[2..10] == BE(8, n);
    assert BE(2, id)[0..2] == BE(2, id);
    assert MigrateOk(id, n)[1..3] == BE(2, id) && MigrateOk(id, n)[3..11] == BE(8, n);
    assert MigrateFail(id, reason)[1..3] == BE(2, id) && MigrateFail(id, reason)[3] == reason;
  }

  /** Where each field sits: identifiers in two bytes, sequence numbers in eight, deltas in four, high
      byte first. */
  lemma DataLayouts(id: StreamId, n: Seq64, w: Uint32, proof: Proof, data: seq<byte>)
    ensures var p := SeqData(id, n, data);
            |p| == 10 + |data| && p[0] as int * 0x100 + p[1] as int == id && Val(p[2..10]) == n && p[10..] == data
    ensures var p := FlatData(id, data);
            |p| == 2 + |data| && p[0] as int * 0x100 + p[1] as int == id && p[2..] == data
    ensures var p := WindowUpdate(id, w);
            |p| == 6 && p[0] as int * 0x100 + p[1] as int == id && Val(p[2..6]) == w
    ensures var p := MigrateFrame(id, proof);
            |p| == 34 && p[0] as int * 0x100 + p[1] as int == id && p[2..] == proof
  {
    FieldsFit(id, n, w);
    HighByteFirst(BE(2, id));
    assert SeqData(id, n, data)[2..10] == BE(8, n) && SeqData(id, n, data)[10..] == data;
    assert WindowUpdate(id, w)[2..6] == BE(4, w);
  }

  /** The same for answers; a MIGRATE reply starts with status 1 for OK and 0 for FAIL. */
  lemma ReplyLayouts(id: StreamId, n: Seq64, reason: byte)
    ensures var p := StreamAck(id, n);
            |p| == 10 && p[0] as int * 0x100 + p[1] as int == id && Val(p[2..10]) == n
    ensures var p := MigrateOk(id, n);
            |p| == 11 && p[0] == 1 && p[1] as int * 0x100 + p[2] as int == id && Val(p[3..11]) == n
    ensures var p := MigrateFail(id, reason);
            |p| == 4 && p[0] == 0 && p[1] as int * 0x100 + p[2] as int == id && p[3] == reason
  {
    FieldsFit(id, n, 0);
    HighByteFirst(BE(2, id));
    assert StreamAck(id, n)[2..10] == BE(8, n);
    assert MigrateOk(id, n)[3..11] == BE(8, n);
  }

  /** What each parser accepts, on any payload: a long enough one, whose front then is the frame of
      what was read; bytes beyond the frame are ignored. */
  lemma ControlParseExactly(p: seq<byte>)
    ensures ParseWindowUpdate(p).Some? <==> |p| >= 6
    ensures |p| >= 6 ==> var (id, w) := ParseWindowUpdate(p).value;
                         id < 0x1_0000 && w < 0x1_0000_0000 && WindowUpdate(id, w) == p[..6]
    ensures ParseStreamAck(p).Some? <==> |p| >= 10
    ensures |p| >= 10 ==> var (id, n) := ParseStreamAck(p).value;
                          id < 0x1_0000 && n < 0x1_0000_0000_0000_0000 && StreamAck(id, n) == p[..10]
    ensures ParseMigrateFrame(p).Some? <==> |p| >= 34
    ensures |p| >= 34 ==> var (id, proof) := ParseMigrateFrame(p).value;
                          id < 0x1_0000 && |proof| == 32 && MigrateFrame(id, proof) == p[..34]
    ensures ParseStreamClose(p).Some? <==> |p| >= 2
    ensures |p| >= 2 ==> ParseStreamClose(p).value < 0x1_0000 && BE(2, ParseStreamClose(p).value) == p[..2]
  {
    Widths();
    if |p| >= 2 {
      FieldInverse(p[0..2]);
    }
    if |p| >= 6 {
      FieldInverse(p[2..6]);
    }
    if |p| >= 10 {
      FieldInverse(p[2..10]);
    }
  }

  lemma FieldInverse(s: seq<byte>)
    ensures Val(s) < Pow256(|s|) && BE(|s|, Val(s)) == s
  {
    ValBound(s);
    BEOfVal(s);
  }

  /** The same for replies: status 1 with a resume number, status 0 with a reason, nothing else. */
  lemma ReplyParseExactly(p: seq<byte>)
    ensures var r := ParseMigrateReply(p);
            && (r.Accepted? <==> |p| >= 11 && p[0] == 1)
            && (r.Refused? <==> |p| >= 4 && p[0] == 0)
            && (r.Accepted? ==> && r.id < 0x1_0000 && r.resume < 0x1_0000_0000_0000_0000
                                && MigrateOk(r.id, r.resume) == p[..11])
            && (r.Refused? ==> r.id < 0x1_0000 && MigrateFail(r.id, r.reason) == p[..4])
  {
    Widths();
    if |p| >= 4 {
      FieldInverse(p[1..3]);
    }
    if |p| >= 11 {
      FieldInverse(p[3..11]);
    }
  }

  /** And every payload the seq parser accepts is the frame of what it read: nothing is lost. */
  lemma SeqDataParseInverse(p: seq<byte>)
    ensures ParseSeqData(p).Some? <==> |p| >= 10
    ensures |p| >= 10 ==> var (id, n, data) := ParseSeqData(p).value;
                          id < 0x1_0000 && n < 0x1_0000_0000_0000_0000 && SeqData(id, n, data) == p
  {
    if |p| >= 10 {
      Widths();
      FieldInverse(p[0..2]);
      FieldInverse(p[2..10]);
    }
  }

  lemma UdpFields(id: StreamId, addr: seq<byte>, data: seq<byte>)
    ensures var p := UdpData(id, addr, data);
            && |p| == 4 + |addr| + |data|
            && p[0] as int * 0x100 + p[1] as int == id
            && Val(p[0..2]) == id && Val(p[2..4]) == |addr| % 0x1_0000
            && p[4..4 + |addr|] == addr && p[4 + |addr|..] == data
  {
    var p := UdpData(id, addr, data);
    FieldsFit(id, 0, 0);
    HighByteFirst(BE(2, id));
    LowBytes(|addr|);
    assert p[0..2] == BE(2, id) && p[2..4] == BE(2, |addr|);
  }

  /** The parser panics on exactly the payloads whose length field is too large for the 16-bit end. */
  lemma UdpPanicExactly(p: seq<byte>)
    ensures ParseUdp(p).UdpPanic? <==> |p| >= 4 && Val(p[2..4]) >= 65532
  {
    if |p| >= 4 {
      Widths();
      ValBound(p[2..4]);
    }
  }

  lemma UdpOkShape(p: seq<byte>)
    ensures ParseUdp(p).UdpOk? <==> |p| >= 4 && Val(p[2..4]) <= 65531 && |p| >= 4 + Val(p[2..4])
    ensures ParseUdp(p).UdpOk? ==>
              ParseUdp(p) == UdpOk(Val(p[0..2]), p[4..4 + Val(p[2..4])], p[4 + Val(p[2..4])..])
  {
    UdpPanicExactly(p);
  }

  /** What the UDP parser accepts is the encoding of what it read. */
  lemma UdpParseInverse(p: seq<byte>)
    requires ParseUdp(p).UdpOk?
    ensures var r := ParseUdp(p); r.id < 0x1_0000 && UdpData(r.id, r.addr, r.data) == p
  {
    UdpOkShape(p);
    var n := Val(p[2..4]);
    Widths();
    ValBound(p[0..2]);
    BEOfVal(p[0..2]);
    BEOfVal(p[2..4]);
    assert p == p[0..2] + p[2..4] + p[4..4 + n] + p[4 + n..];
  }

  lemma UdpShortReadsBack(id: StreamId, addr: seq<byte>, data: seq<byte>)
    requires |addr| <= 65531
    ensures ParseUdp(UdpData(id, addr, data)) == UdpOk(id, addr, data)
  {
    UdpFields(id, addr, data);
  }

  /** A UDP frame reads back exactly when the address is at most 65531 bytes long. */
  lemma UdpRoundTripExactly(id: StreamId, addr: seq<byte>, data: seq<byte>)
    ensures ParseUdp(UdpData(id, addr, data)) == UdpOk(id, addr, data) <==> |addr| <= 65531
  {
    if |addr| <= 65531 {
      UdpShortReadsBack(id, addr, data);
    } else if ParseUdp(UdpData(id, addr, data)) == UdpOk(id, addr, data) {
      UdpOkShape(UdpData(id, addr, data));
    }
  }

  /** A two-byte field holds the number modulo 2^16. */
  lemma LowBytes(v: nat)
    ensures Val(BE(2, v)) == v % 0x1_0000
  {
    var a, b := v / 256, v % 256;
    var c, d := a / 256, a % 256;
    assert BE(1, a)[..0] == [] && BE(1, a)[0] == d;
    assert Val(BE(1, a)) == d;
    assert BE(2, v)[..1] == BE(1, a) && BE(2, v)[1] == b;
    assert v == 0x1_0000 * c + (256 * d + b);
  }
}
