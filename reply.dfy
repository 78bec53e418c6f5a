/** The configuration reply a server sends after a successful handshake,
    `struct.pack(f'4s4s{N}s', ip, mask, token)`, built by `VPNServer.pack_data`
    (N = 40) and `ConnectionManager.pack_data` (N = 44), and read back by
    `VPNClient.authenticate` (N = 40). */
module Reply {
  import opened Wrappers
  import opened Builtins
  import opened Authentication

  /** The packed reply: the dotted address and mask as bytes (`bytes(map(int, ...))`,
      which raises `ValueError` for a field that is not an octet), each cut or
      NUL-padded to four bytes, then the token cut or padded to `tokenLength`. */
  function PackConfiguration(ip: string, mask: string, token: seq<byte>, tokenLength: nat): (r: Result<seq<byte>, Raised>)
    ensures r.Ok? <==> DottedBytes(ip).Ok? && DottedBytes(mask).Ok?
    ensures r.Err? ==> r.error == ValueError
    ensures r.Ok? ==>
      && |r.value| == 8 + tokenLength
      && r.value[..4] == Field(DottedBytes(ip).value, 4)
      && r.value[4..8] == Field(DottedBytes(mask).value, 4)
      && r.value[8..] == Field(token, tokenLength)
  {
    var ipBytes :- DottedBytes(ip);
    var maskBytes :- DottedBytes(mask);
    var packet := Field(ipBytes, 4) + Field(maskBytes, 4) + Field(token, tokenLength);
    assert packet[..4] == Field(ipBytes, 4);
    assert packet[4..8] == Field(maskBytes, 4);
    assert packet[8..] == Field(token, tokenLength);
    Ok(packet)
  }

  /** What the client learns: address, mask and the raw key bytes. */
  datatype Configuration = Configuration(ip: string, mask: string, token: seq<byte>)

  /** `VPNClient.authenticate` after the reply arrives: a lone `0x03` or an empty reply
      is the "incorrect credentials" failure, a reply of any other size than the
      format is a `struct.error`, and otherwise both octet groups are printed back in
      dotted form. */
  function DecodeReply(reply: seq<byte>, tokenLength: nat): (r: Result<Configuration, Raised>)
    ensures reply == [Error] || reply == [] ==> r == Err(ConnectionFailed)
    ensures reply != [Error] && reply != [] && |reply| != 8 + tokenLength ==> r == Err(StructError)
    ensures reply != [Error] && reply != [] && |reply| == 8 + tokenLength ==> r.Ok? && r.value.token == reply[8..]
    ensures r.Ok? ==> |reply| == 8 + tokenLength && |r.value.token| == tokenLength
    ensures r.Ok? ==> DottedBytes(r.value.ip) == Ok(reply[..4]) && DottedBytes(r.value.mask) == Ok(reply[4..8])
  {
    if reply == [Error] || |reply| == 0 then Err(ConnectionFailed)
    else if |reply| != 8 + tokenLength then Err(StructError)
    else
      DottedBytesOfDotted(reply[..4]);
      DottedBytesOfDotted(reply[4..8]);
      Ok(Configuration(Dotted(reply[..4]), Dotted(reply[4..8]), reply[8..]))
  }

  /** The client's side of the handshake: the credential frame it sends, framed by
      `wrap_credentials` as written (character counts), and what it makes of the
      reply it gets back. A name or password of 256 characters or more raises
      `ValueError` before anything is sent. */
  function ClientHandshake(username: string, password: string, reply: seq<byte>, tokenLength: nat): (r: Result<(seq<byte>, Configuration), Raised>)
    ensures r.Ok? <==> |username| < 256 && |password| < 256 && DecodeReply(reply, tokenLength).Ok?
    ensures !(|username| < 256 && |password| < 256) ==> r == Err(ValueError)
    ensures |username| < 256 && |password| < 256 && DecodeReply(reply, tokenLength).Err? ==> r == Err(DecodeReply(reply, tokenLength).error)
    ensures r.Ok? ==> r.value == (WrapCredentialsAsWritten(username, password).value, DecodeReply(reply, tokenLength).value)
  {
    var frame :- WrapCredentialsAsWritten(username, password);
    var configuration :- DecodeReply(reply, tokenLength);
    Ok((frame, configuration))
  }

  /** Round trip: a reply packed from four-octet address and mask is read back as the
      same dotted address and mask, and the token as packed. */
  lemma ReplyRoundTrip(ip: seq<int>, mask: seq<int>, token: seq<byte>, tokenLength: nat)
    requires |ip| == 4 && AllOctets(ip) && |mask| == 4 && AllOctets(mask)
    ensures PackConfiguration(Dotted(ip), Dotted(mask), token, tokenLength).Ok?
    ensures DecodeReply(PackConfiguration(Dotted(ip), Dotted(mask), token, tokenLength).value, tokenLength)
      == Ok(Configuration(Dotted(ip), Dotted(mask), Field(token, tokenLength)))
  {
    DottedBytesOfDotted(ip);
    DottedBytesOfDotted(mask);
    var packet := PackConfiguration(Dotted(ip), Dotted(mask), token, tokenLength).value;
    assert packet[..4] == ip;
    assert packet[4..8] == mask;
  }

  /** A 40-character ASCII token, such as the hex key of a `vpn_service` session,
      arrives as its own 40 bytes. */
  lemma TokenArrivesIntact(token: string)
    requires IsAscii(token) && |token| == 40
    ensures Field(Encode(token), 40) == Encode(token)
  {
  }

  /** The network package packs a 44-byte token, so its 52-byte reply never has the
      48 bytes the client unpacks. */
  lemma PackageReplyUnreadable(ip: string, mask: string, token: seq<byte>)
    requires PackConfiguration(ip, mask, token, 44).Ok?
    ensures DecodeReply(PackConfiguration(ip, mask, token, 44).value, 40) == Err(StructError)
  {
  }
}
