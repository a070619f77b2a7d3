/** Single-frame diagnostic messages: request on 0x3C, response on 0x3D. */
module Diagnostic {
  import opened Bytes
  import opened Lin

  const DIAG_DATA_LEN := 5
  const PADDING: byte := 0xFF

  datatype Request = Request(nad: byte, sid: byte, data: seq<byte>)

  datatype SlaveResponse = SlaveResponse(nad: byte, rsid: byte, data: seq<byte>)

  /** [NAD, PCI, SID/RSID, data..., padding]: the PCI counts the service byte and the data. */
  function Packed(nad: byte, service: byte, data: seq<byte>): (r: seq<byte>)
    requires |data| <= DIAG_DATA_LEN
    ensures |r| == MAX_DATA_LEN
  {
    [nad, FromNat(|data| + 1), service] + data + seq(DIAG_DATA_LEN - |data|, _ => PADDING)
  }

  method PackDiag(nad: byte, service: byte, data: seq<byte>) returns (out: array?<byte>)
    ensures out == null <==> |data| > DIAG_DATA_LEN
    ensures out != null ==> fresh(out) && out[..] == Packed(nad, service, data)
  {
    if |data| > DIAG_DATA_LEN {
      return null;
    }
    var buf := new byte[MAX_DATA_LEN];
    for i := 0 to buf.Length
      invariant forall j :: 0 <= j < i ==> buf[j] == PADDING
    {
      buf[i] := PADDING;
    }
    buf[0] := nad;
    buf[1] := FromNat(|data| + 1);
    buf[2] := service;
    forall i | 0 <= i < |data| {
      buf[3 + i] := data[i];
    }
    assert buf[3..3 + |data|] == data;
    assert buf[..] == Packed(nad, service, data);
    out := buf;
  }

  /** Length and PCI are checked; identifier, checksum and padding are not looked at. */
  function Unpacked(f: Frame): Result<(byte, byte, seq<byte>)> {
    if |f.data| != MAX_DATA_LEN then
      Err(InvalidFrame)
    else
      var pci := Val(f.data[1]);
      if pci == 0 || pci > DIAG_DATA_LEN + 1 then Err(InvalidFrame)
      else Ok((f.data[0], f.data[2], f.data[3..3 + (pci - 1)]))
  }

  function ToFrame(id: uint8, nad: byte, service: byte, data: seq<byte>): Result<Frame> {
    if |data| > DIAG_DATA_LEN then
      Err(InvalidFrame)
    else
      var bytes := Packed(nad, service, data);
      Ok(Frame(id, bytes, Checksum(Pid(id), bytes, CLASSIC), CLASSIC))
  }

  function RequestFrame(r: Request): Result<Frame> {
    ToFrame(DIAG_REQUEST_ID, r.nad, r.sid, r.data)
  }

  function ResponseFrame(r: SlaveResponse): Result<Frame> {
    ToFrame(DIAG_RESPONSE_ID, r.nad, r.rsid, r.data)
  }

  function ParseRequest(f: Frame): Result<Request> {
    match Unpacked(f)
    case Err(e) => Err(e)
    case Ok((nad, sid, data)) => Ok(Request(nad, sid, data))
  }

  function ParseResponse(f: Frame): Result<SlaveResponse> {
    match Unpacked(f)
    case Err(e) => Err(e)
    case Ok((nad, rsid, data)) => Ok(SlaveResponse(nad, rsid, data))
  }

  lemma UnpackInvertsPack(f: Frame, nad: byte, service: byte, data: seq<byte>)
    requires |data| <= DIAG_DATA_LEN && f.data == Packed(nad, service, data)
    ensures Unpacked(f) == Ok((nad, service, data))
  {
    ValOfFromNat(|data| + 1);
    assert f.data[3..3 + |data|] == data;
  }

  /** Byte by byte: node address, length with the service byte, service, data, and 0xFF up to eight bytes. */
  lemma PackedBytes(nad: byte, service: byte, data: seq<byte>)
    requires |data| <= 5
    ensures var r := Packed(nad, service, data);
            && |r| == 8 && r[0] == nad && Val(r[1]) == 1 + |data| && r[2] == service
            && (forall i :: 0 <= i < |data| ==> r[3 + i] == data[i])
            && (forall i :: 3 + |data| <= i < 8 ==> r[i] == 0xFF)
  {
    ValOfFromNat(|data| + 1);
  }

  /** Both messages go out classic, each under its own identifier, with the sum of the eight bytes as checksum. */
  lemma MessageFrames(q: Request, r: SlaveResponse)
    ensures RequestFrame(q).Ok? ==>
              var f := RequestFrame(q).value;
              && f.id == 0x3C && f.data == Packed(q.nad, q.sid, q.data) && f.checksumType == CLASSIC
              && Val(f.checksum) == 255 - EndAround(Sum(f.data))
    ensures ResponseFrame(r).Ok? ==>
              var f := ResponseFrame(r).value;
              && f.id == 0x3D && f.data == Packed(r.nad, r.rsid, r.data) && f.checksumType == CLASSIC
              && Val(f.checksum) == 255 - EndAround(Sum(f.data))
    ensures RequestFrame(q).Err? ==> RequestFrame(q) == Err(InvalidFrame)
    ensures ResponseFrame(r).Err? ==> ResponseFrame(r) == Err(InvalidFrame)
  {
    if RequestFrame(q).Ok? {
      ChecksumIs(Pid(0x3C), RequestFrame(q).value.data, CLASSIC);
    }
    if ResponseFrame(r).Ok? {
      ChecksumIs(Pid(0x3D), ResponseFrame(r).value.data, CLASSIC);
    }
  }

  /** Exactly the payloads of eight bytes with a length byte from 1 to 6 are read, whatever else the frame says. */
  lemma ReadableIsExact(f: Frame)
    ensures ParseResponse(f).Ok? <==> |f.data| == 8 && 1 <= Val(f.data[1]) <= 6
    ensures ParseRequest(f).Ok? <==> |f.data| == 8 && 1 <= Val(f.data[1]) <= 6
    ensures ParseResponse(f).Ok? ==>
              var r := ParseResponse(f).value;
              && r.nad == f.data[0] && r.rsid == f.data[2] && |r.data| == Val(f.data[1]) - 1
              && forall i :: 0 <= i < |r.data| ==> r.data[i] == f.data[3 + i]
    ensures ParseRequest(f).Ok? ==>
              var q := ParseRequest(f).value;
              && q.nad == f.data[0] && q.sid == f.data[2] && |q.data| == Val(f.data[1]) - 1
              && forall i :: 0 <= i < |q.data| ==> q.data[i] == f.data[3 + i]
    ensures ParseResponse(f).Err? ==> ParseResponse(f) == Err(InvalidFrame) && ParseRequest(f) == Err(InvalidFrame)
  {
  }

  /** Every message short enough to pack comes back unchanged, in a valid classic frame; longer ones are refused. */
  lemma MessagesRoundTrip(q: Request, r: SlaveResponse)
    ensures RequestFrame(q).Ok? <==> |q.data| <= DIAG_DATA_LEN
    ensures ResponseFrame(r).Ok? <==> |r.data| <= DIAG_DATA_LEN
    ensures RequestFrame(q).Ok? ==>
              && ParseRequest(RequestFrame(q).value) == Ok(q)
              && ValidateFrame(RequestFrame(q).value) == Ok(())
    ensures ResponseFrame(r).Ok? ==>
              && ParseResponse(ResponseFrame(r).value) == Ok(r)
              && ValidateFrame(ResponseFrame(r).value) == Ok(())
  {
    if RequestFrame(q).Ok? {
      UnpackInvertsPack(RequestFrame(q).value, q.nad, q.sid, q.data);
    }
    if ResponseFrame(r).Ok? {
      UnpackInvertsPack(ResponseFrame(r).value, r.nad, r.rsid, r.data);
    }
  }

  /** Packing what was unpacked restores the payload exactly when everything after the data is padding. */
  lemma PackInvertsUnpack(f: Frame)
    requires Unpacked(f).Ok?
    ensures var (nad, service, data) := Unpacked(f).value;
            && |data| <= DIAG_DATA_LEN
            && (Packed(nad, service, data) == f.data <==>
                forall i :: 3 + |data| <= i < MAX_DATA_LEN ==> f.data[i] == PADDING)
  {
    var (nad, service, data) := Unpacked(f).value;
    var p := Packed(nad, service, data);
    FromNatOfVal(f.data[1]);
    assert p[0] == f.data[0] && p[1] == f.data[1] && p[2] == f.data[2];
    assert forall i :: 3 <= i < 3 + |data| ==> p[i] == data[i - 3] == f.data[i];
    assert forall i :: 3 + |data| <= i < MAX_DATA_LEN ==> p[i] == PADDING;
    if forall i :: 3 + |data| <= i < MAX_DATA_LEN ==> f.data[i] == PADDING {
      assert p == f.data;
    }
  }
}
