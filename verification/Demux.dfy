/** Downlink data frames: two wire shapes on one flag, told apart by the slot's negotiation and by
    the control strings. */
module Demux {
  import opened Bytes
  import opened Options
  import opened Streams
  import opened Wire

  const CONNECT_OK: seq<byte> := [0x43, 0x4F, 0x4E, 0x4E, 0x45, 0x43, 0x54, 0x5F, 0x4F, 0x4B]
  const CONNECT_FAIL: seq<byte> := [0x43, 0x4F, 0x4E, 0x4E, 0x45, 0x43, 0x54, 0x5F, 0x46, 0x41, 0x49, 0x4C]

  /** "CONNECT_" read as a 64-bit sequence number. */
  const CONNECT_SEQ: Seq64 := 0x434F_4E4E_4543_545F

  function ParseConnectOkProof(body: seq<byte>): Option<seq<byte>> {
    if |body| != 42 || body[..10] != CONNECT_OK then None else Some(body[10..])
  }

  predicate IsControl(body: seq<byte>) {
    body == CONNECT_OK || body == CONNECT_FAIL || ParseConnectOkProof(body).Some?
  }

  datatype Routed =
    | ToFlat(id: nat, data: seq<byte>)
    | ToSeq(id: nat, downSeq: nat, data: seq<byte>)
    | Torn(id: nat)       // the stream is closed, the application sees an end of stream
    | Ignored             // no stream id: the slot reader skips the chunk

  /** The slot reader's routing of one decrypted data frame. */
  function Route(seqTagged: bool, p: seq<byte>): Routed {
    if |p| < 2 then Ignored
    else if !seqTagged then ToFlat(Val(p[0..2]), p[2..])
    else if IsControl(p[2..]) then ToSeq(Val(p[0..2]), 0, p[2..])
    else
      match ParseSeqData(p)
      case Some((id, downSeq, data)) => ToSeq(id, downSeq, data)
      case None => Torn(Val(p[0..2]))
  }

  /** Data whose frame reads as a control string once its sequence number is CONNECT_SEQ. */
  predicate ControlTail(data: seq<byte>) {
    || data == CONNECT_OK[8..]
    || data == CONNECT_FAIL[8..]
    || (|data| == 34 && data[..2] == CONNECT_OK[8..])
  }

  lemma ConnectSeqBytes()
    ensures BE(8, CONNECT_SEQ) == CONNECT_OK[..8] == CONNECT_FAIL[..8]
  {
    var s := CONNECT_OK[..8];
    BEOfVal(s);
    assert Val(s[..1]) == 0x43 by { assert s[..1][..0] == []; }
    assert Val(s[..2]) == 0x434F by { assert s[..2][..1] == s[..1]; }
    assert Val(s[..3]) == 0x434F4E by { assert s[..3][..2] == s[..2]; }
    assert Val(s[..4]) == 0x434F4E4E by { assert s[..4][..3] == s[..3]; }
    assert Val(s[..5]) == 0x434F4E4E45 by { assert s[..5][..4] == s[..4]; }
    assert Val(s[..6]) == 0x434F4E4E4543 by { assert s[..6][..5] == s[..5]; }
    assert Val(s[..7]) == 0x434F4E4E454354 by { assert s[..7][..6] == s[..6]; }
    assert s[..7] == s[..|s| - 1];
    assert Val(s) == CONNECT_SEQ;
  }

  lemma SameSeqBytes(a: Seq64, b: Seq64)
    ensures BE(8, a) == BE(8, b) <==> a == b
  {
    FieldsFit(0, a, 0);
    FieldsFit(0, b, 0);
  }

  /** A seq-tagged body is taken for control exactly in one case: its sequence number spells
      "CONNECT_" and its data completes one of the control strings. */
  lemma SeqBodyIsControlExactly(downSeq: Seq64, data: seq<byte>)
    ensures IsControl(BE(8, downSeq) + data) <==> downSeq == CONNECT_SEQ && ControlTail(data)
  {
    var body := BE(8, downSeq) + data;
    ConnectSeqBytes();
    SameSeqBytes(downSeq, CONNECT_SEQ);
    assert body[..8] == BE(8, downSeq) && body[8..] == data;
    assert CONNECT_OK == CONNECT_OK[..8] + CONNECT_OK[8..];
    assert CONNECT_FAIL == CONNECT_FAIL[..8] + CONNECT_FAIL[8..];
    if |body| == 42 {
      assert body[..10] == body[..8] + data[..2];
    }
  }

  /** On a seq slot a data frame is delivered with its exact stream, sequence number and data, if and
      only if it is not that one colliding shape. */
  lemma SeqFrameDeliveredExactly(id: StreamId, downSeq: Seq64, data: seq<byte>)
    ensures Route(true, SeqData(id, downSeq, data)) == ToSeq(id, downSeq, data)
            <==> !(downSeq == CONNECT_SEQ && ControlTail(data))
  {
    var p := SeqData(id, downSeq, data);
    SeqDataRoundTrip(id, downSeq, data);
    assert p[2..] == BE(8, downSeq) + data;
    SeqBodyIsControlExactly(downSeq, data);
  }

  /** In particular for every sequence number below 2^62. */
  lemma SeqFramesBelow62Bits(id: StreamId, downSeq: Seq64, data: seq<byte>)
    requires downSeq < 0x4000_0000_0000_0000
    ensures Route(true, SeqData(id, downSeq, data)) == ToSeq(id, downSeq, data)
  {
    SeqFrameDeliveredExactly(id, downSeq, data);
  }

  /** The server's flat control answers are routed as sequence number 0 on a seq slot, with the
      proof still extractable; a flat slot recovers flat data exactly, whatever it contains. */
  lemma FlatFramesDelivered(id: StreamId, proof: Proof, data: seq<byte>)
    ensures Route(true, FlatData(id, CONNECT_OK)) == ToSeq(id, 0, CONNECT_OK)
    ensures Route(true, FlatData(id, CONNECT_FAIL)) == ToSeq(id, 0, CONNECT_FAIL)
    ensures Route(true, FlatData(id, CONNECT_OK + proof)) == ToSeq(id, 0, CONNECT_OK + proof)
    ensures ParseConnectOkProof(CONNECT_OK + proof) == Some(proof)
    ensures Route(false, FlatData(id, data)) == ToFlat(id, data)
  {
    FieldsFit(id, 0, 0);
    var body := CONNECT_OK + proof;
    assert body[..10] == CONNECT_OK && body[10..] == proof;
  }

  /** Nothing with a stream id vanishes: on a seq slot a payload is delivered as control, delivered as
      the data frame it is, or tears its stream, and it tears exactly when it is too short for a
      data frame and no control string; on a flat slot it is delivered.  Only a payload without a
      stream id is ignored. */
  lemma NothingVanishes(p: seq<byte>)
    ensures |p| < 2 ==> Route(true, p) == Route(false, p) == Ignored
    ensures |p| >= 2 ==>
              var r := Route(true, p);
              && (r.Torn? <==> |p| < 10 && !IsControl(p[2..]))
              && (r.Torn? ==> r.id == Val(p[0..2]))
              && (!r.Torn? ==> r.ToSeq? && r.id == Val(p[0..2]))
              && (!r.Torn? ==> BE(2, r.id) + (if IsControl(p[2..]) then r.data else BE(8, r.downSeq) + r.data) == p)
              && (!r.Torn? && IsControl(p[2..]) ==> r.downSeq == 0)
    ensures |p| >= 2 ==> var r := Route(false, p);
                         r.ToFlat? && r.id < 0x1_0000 && FlatData(r.id, r.data) == p
  {
    if |p| >= 2 {
      FieldInverse(p[0..2]);
      Widths();
    }
    if |p| >= 10 {
      SeqDataParseInverse(p);
      var (id, n, data) := ParseSeqData(p).value;
      assert SeqData(id, n, data) == BE(2, id) + (BE(8, n) + data);
    }
  }

  /** A control string is CONNECT_OK, CONNECT_FAIL, or CONNECT_OK with a 32-byte proof behind it, in
      ASCII. */
  lemma ControlStrings(body: seq<byte>)
    ensures |CONNECT_OK| == 10 && forall i | 0 <= i < 10 :: CONNECT_OK[i] as int == "CONNECT_OK"[i] as int
    ensures |CONNECT_FAIL| == 12 && forall i | 0 <= i < 12 :: CONNECT_FAIL[i] as int == "CONNECT_FAIL"[i] as int
    ensures IsControl(body) <==>
            body == CONNECT_OK || body == CONNECT_FAIL || exists proof: Proof :: body == CONNECT_OK + proof
  {
    if |body| == 42 && body[..10] == CONNECT_OK {
      var proof: Proof := body[10..];
      assert body == CONNECT_OK + proof;
    }
    if proof: Proof :| body == CONNECT_OK + proof {
      assert body[..10] == CONNECT_OK;
    }
  }
}
