/** The in-band flow-control marker in its two versions. */
module FlowCtl {
  import opened Bytes
  import opened Options
  import opened Wire

  const MAGIC: seq<byte> := [0x46, 0x4C, 0x4F, 0x57, 0x43, 0x54, 0x4C]   // "FLOWCTL"

  function MarkerV1(window: Uint32): seq<byte> {
    MAGIC + BE(4, window)
  }

  function MarkerV2(window: Uint32, migrate: bool): seq<byte> {
    MAGIC + BE(4, window) + [if migrate then 1 else 0]
  }

  method BuildMarkerV1(window: Uint32) returns (p: array<byte>)
    ensures fresh(p) && p[..] == MarkerV1(window)
  {
    p := new byte[11];
    Copy(p, 0, MAGIC);
    PutBE(p, 7, 4, window);
    assert p[..] == p[..7] + p[7..11];
    assert p[..7] == p[0..7];
  }

  method BuildMarkerV2(window: Uint32, migrate: bool) returns (p: array<byte>)
    ensures fresh(p) && p[..] == MarkerV2(window, migrate)
  {
    p := new byte[12](_ => 0);
    assert p[7..][4] == 0;
    Copy(p, 0, MAGIC);
    assert p[11..][0] == p[7..][4] == 0;
    PutBE(p, 7, 4, window);
    assert p[11] == p[11..][0] == 0;
    if migrate {
      p[11] := 1;
    }
    assert p[..] == p[..7] + p[7..11] + [p[11]];
    assert p[..7] == p[0..7];
  }

  predicate IsMarker(p: seq<byte>) {
    |p| >= 11 && p[..7] == MAGIC
  }

  /** The byte-by-byte comparison both parsers share. */
  method HasMagic(p: seq<byte>) returns (ok: bool)
    ensures ok == IsMarker(p)
  {
    if |p| < 11 {
      return false;
    }
    for i := 0 to 7
      invariant p[..i] == MAGIC[..i]
    {
      if p[i] != MAGIC[i] {
        assert p[..7][i] == p[i];
        return false;
      }
    }
    return true;
  }

  method ParseMarkerV1(p: seq<byte>) returns (r: Option<nat>)
    ensures r == ReadV1(p)
  {
    var ok := HasMagic(p);
    return if ok then Some(Val(p[7..11])) else None;
  }

  /** A 12th byte, if there is one, carries the capability bits; bit 0 is migration. */
  method ParseMarkerV2(p: seq<byte>) returns (r: Option<(nat, bool)>)
    ensures r == ReadV2(p)
  {
    var ok := HasMagic(p);
    if !ok {
      return None;
    }
    var migrate := false;
    if |p| >= 12 {
      migrate := p[11] % 2 == 1;
    }
    return Some((Val(p[7..11]), migrate));
  }

  function ReadV1(p: seq<byte>): Option<nat> {
    if IsMarker(p) then Some(Val(p[7..11])) else None
  }

  function ReadV2(p: seq<byte>): Option<(nat, bool)> {
    if IsMarker(p) then Some((Val(p[7..11]), |p| >= 12 && p[11] % 2 == 1)) else None
  }

  /** On every payload the two readers agree on whether it is a marker and on the window. */
  lemma ReadersAgree(p: seq<byte>)
    ensures ReadV1(p).Some? <==> ReadV2(p).Some?
    ensures ReadV1(p).Some? ==> ReadV1(p).value == ReadV2(p).value.0
  {
  }

  /** Either marker reads back; the old one reads as not offering migration. */
  lemma MarkersRoundTrip(window: Uint32, migrate: bool)
    ensures ReadV1(MarkerV1(window)) == Some(window) && ReadV2(MarkerV1(window)) == Some((window, false))
    ensures ReadV1(MarkerV2(window, migrate)) == Some(window)
    ensures ReadV2(MarkerV2(window, migrate)) == Some((window, migrate))
  {
    Widths();
    ValOfBE(4, window);
    assert MarkerV1(window)[..7] == MAGIC && MarkerV1(window)[7..11] == BE(4, window);
    assert MarkerV2(window, migrate)[..7] == MAGIC && MarkerV2(window, migrate)[7..11] == BE(4, window);
  }

  /** The markers byte by byte: "FLOWCTL" in ASCII, the window in four bytes, and in the new one a byte
      whose lowest bit offers migration. */
  lemma MarkerLayouts(window: Uint32, migrate: bool)
    ensures var p := MarkerV1(window);
            |p| == 11 && (forall i | 0 <= i < 7 :: p[i] as int == "FLOWCTL"[i] as int) && Val(p[7..11]) == window
    ensures var p := MarkerV2(window, migrate);
            |p| == 12 && p[..11] == MarkerV1(window) && p[11] == if migrate then 1 else 0
  {
    Widths();
    ValOfBE(4, window);
    assert MarkerV1(window)[7..11] == BE(4, window);
  }

  /** A payload is a marker exactly if it starts with the seven letters and has room for a window; its
      first 11 bytes are then the old marker of the window read, and it offers migration exactly if
      it has a twelfth byte that is odd. */
  lemma MarkerReadExactly(p: seq<byte>)
    ensures ReadV2(p).Some? <==> |p| >= 11 && forall i | 0 <= i < 7 :: p[i] as int == "FLOWCTL"[i] as int
    ensures ReadV2(p).Some? ==> var (window, migrate) := ReadV2(p).value;
                                && window < 0x1_0000_0000 && MarkerV1(window) == p[..11]
                                && (migrate <==> |p| >= 12 && p[11] % 2 == 1)
  {
    if |p| >= 11 {
      Widths();
      FieldInverse(p[7..11]);
      assert forall i | 0 <= i < 7 :: p[i] == p[..7][i] && MAGIC[i] as int == "FLOWCTL"[i] as int;
    }
  }
}
