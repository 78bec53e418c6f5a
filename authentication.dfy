/** `DefaultAuth` (connection/authentication.py): the credential frame a client sends,
    `0x01 | len(user) | user | len(pass) | pass`, how the server slices it apart, and
    the one-byte status it answers with. */
module Authentication {
  import opened Wrappers
  import opened Builtins

  /** The status bytes: a credential frame starts with `Pending`; the server answers
      `Success` or `Error`. */
  const Pending: byte := 0x01
  const Success: byte := 0x02
  const Error: byte := 0x03

  /** Where the fields of a frame `status | n | user | m | pass` sit. */
  lemma FrameSlices(status: byte, n: byte, user: seq<byte>, m: byte, pass: seq<byte>)
    ensures var frame := [status, n] + user + [m] + pass;
      && |frame| == 3 + |user| + |pass|
      && frame[0] == status && frame[1] == n
      && frame[2..2 + |user|] == user
      && frame[2 + |user|] == m
      && frame[3 + |user|..] == pass
  {
    var head := [status, n] + user;
    var frame := head + [m] + pass;
    assert frame == head + ([m] + pass);
    assert frame[..|head|] == head;
    assert head[2..] == user;
    assert frame[|head|..] == [m] + pass;
  }

  /** `wrap_credentials` as written: each length byte is `len()` of the string, i.e.
      its number of characters, while the field that follows is its UTF-8 encoding.
      `bytes([n])` raises `ValueError` for a length above 255. */
  function WrapCredentialsAsWritten(username: string, password: string): (r: Result<seq<byte>, Raised>)
    ensures r.Ok? <==> |username| < 256 && |password| < 256
    ensures r.Err? ==> r.error == ValueError
    ensures r.Ok? ==>
      var user, pass := Encode(username), Encode(password);
      && |r.value| == 3 + |user| + |pass|
      && r.value[0] == Pending
      && r.value[1] == |username|
      && r.value[2..2 + |user|] == user
      && r.value[2 + |user|] == |password|
      && r.value[3 + |user|..] == pass
  {
    if |username| >= 256 || |password| >= 256 then Err(ValueError)
    else
      var user, pass := Encode(username), Encode(password);
      var frame := [Pending, |username| as byte] + user + [|password| as byte] + pass;
      FrameSlices(Pending, |username| as byte, user, |password| as byte, pass);
      Ok(frame)
  }

  /** `wrap_credentials` with each length byte counting the bytes of its field. */
  function WrapCredentials(username: string, password: string): (r: Result<seq<byte>, Raised>)
    ensures r.Ok? <==> |Encode(username)| < 256 && |Encode(password)| < 256
    ensures r.Err? ==> r.error == ValueError
    ensures r.Ok? ==>
      var user, pass := Encode(username), Encode(password);
      && |r.value| == 3 + |user| + |pass|
      && r.value[0] == Pending
      && r.value[1] == |user|
      && r.value[2..2 + |user|] == user
      && r.value[2 + |user|] == |pass|
      && r.value[3 + |user|..] == pass
  {
    var user, pass := Encode(username), Encode(password);
    if |user| >= 256 || |pass| >= 256 then Err(ValueError)
    else
      var frame := [Pending, |user| as byte] + user + [|pass| as byte] + pass;
      FrameSlices(Pending, |user| as byte, user, |pass| as byte, pass);
      Ok(frame)
  }

  /** For ASCII credentials a character is a byte, so both framings coincide. */
  lemma WrapAsciiAgrees(username: string, password: string)
    requires IsAscii(username) && IsAscii(password)
    ensures WrapCredentialsAsWritten(username, password) == WrapCredentials(username, password)
  {
  }

  /** The slicing shared by `unpack_credentials` and `VPNServer.unpack`: byte 0 is
      ignored, the username is the `packet[1]` bytes after it, and the password is the
      next `packet[2 + packet[1]]` bytes, cut short by the end of the buffer. Reading
      either length byte past the end raises `IndexError`. */
  function CredentialFields(packet: seq<byte>): (r: Result<(seq<byte>, seq<byte>), Raised>)
    ensures r.Ok? <==> |packet| >= 2 && |packet| > 2 + packet[1] as int
    ensures r.Err? ==> r.error == IndexError
    ensures r.Ok? ==>
      var ulen: int := packet[1];
      var plen: int := packet[2 + ulen];
      && r.value.0 == packet[2..2 + ulen]
      && |r.value.1| == Min(plen, |packet| - 3 - ulen)
      && r.value.1 == packet[3 + ulen..3 + ulen + |r.value.1|]
  {
    if |packet| < 2 || |packet| <= 2 + packet[1] as int then Err(IndexError)
    else
      var ulen: int := packet[1];
      var passwordEnd := 3 + ulen + packet[2 + ulen];
      var pass := Slice(packet, 3 + ulen, passwordEnd);
      assert pass == packet[3 + ulen..3 + ulen + |pass|];
      Ok((packet[2..2 + ulen], pass))
  }

  /** `unpack_credentials`: the two fields, each decoded as text. */
  function UnpackCredentials(packet: seq<byte>): (r: Result<(string, string), Raised>)
    ensures CredentialFields(packet).Err? ==> r == Err(IndexError)
    ensures CredentialFields(packet).Ok? ==>
      var (user, pass) := CredentialFields(packet).value;
      && (r.Ok? <==> Decode(user).Some? && Decode(pass).Some?)
      && (r.Err? ==> r.error == UnicodeDecodeError)
      && (r.Ok? ==> Encode(r.value.0) == user && Encode(r.value.1) == pass)
  {
    var fields :- CredentialFields(packet);
    match (Decode(fields.0), Decode(fields.1))
    case (None, _) => Err(UnicodeDecodeError)
    case (_, None) => Err(UnicodeDecodeError)
    case (Some(username), Some(password)) => Ok((username, password))
  }

  /** `check_credentials`: `Success` exactly when the unpacked username and password
      (the configured `encrypt` is the identity) equal the expected pair. */
  function CheckCredentials(credentials: (string, string), packet: seq<byte>): (r: Result<byte, Raised>)
    ensures r.Ok? <==> UnpackCredentials(packet).Ok?
    ensures r.Err? ==> r.error == UnpackCredentials(packet).error
    ensures r.Ok? ==> (r.value == Success <==> UnpackCredentials(packet).value == credentials)
    ensures r.Ok? ==> (r.value == Error <==> UnpackCredentials(packet).value != credentials)
  {
    var (username, password) :- UnpackCredentials(packet);
    var check1 := credentials.0 == username;
    var check2 := credentials.1 == password;
    Ok(if check1 && check2 then Success else Error)
  }

  // ---------------------------------------------------------------------------
  // Round trips

  /** A frame whose length bytes count bytes splits back into the two encodings. */
  lemma FieldsOfFrame(user: seq<byte>, pass: seq<byte>)
    requires |user| < 256 && |pass| < 256
    ensures CredentialFields([Pending, |user|] + user + [|pass|] + pass) == Ok((user, pass))
  {
    var frame := [Pending, |user| as byte] + user + [|pass| as byte] + pass;
    assert frame[1] == |user| && frame[2 + |user|] == |pass|;
    assert frame[2..2 + |user|] == user;
    assert frame[3 + |user|..3 + |user| + |pass|] == pass;
  }

  /** Whatever the characters, the corrected frame gives back the UTF-8 bytes of both
      credentials. */
  lemma FieldsRoundTrip(username: string, password: string)
    requires |Encode(username)| < 256 && |Encode(password)| < 256
    ensures CredentialFields(WrapCredentials(username, password).value) == Ok((Encode(username), Encode(password)))
  {
    FieldsOfFrame(Encode(username), Encode(password));
  }

  /** ASCII credentials of at most 255 characters survive `wrap_credentials` followed
      by `unpack_credentials`, as written. */
  lemma UnpackRoundTrip(username: string, password: string)
    requires IsAscii(username) && IsAscii(password)
    requires |username| < 256 && |password| < 256
    ensures WrapCredentialsAsWritten(username, password).Ok?
    ensures UnpackCredentials(WrapCredentialsAsWritten(username, password).value) == Ok((username, password))
  {
    WrapAsciiAgrees(username, password);
    FieldsRoundTrip(username, password);
    DecodeEncode(username);
    DecodeEncode(password);
  }

  /** The server accepts a frame built from ASCII credentials exactly when they are the
      expected ones. */
  lemma CheckRoundTrip(credentials: (string, string), username: string, password: string)
    requires IsAscii(username) && IsAscii(password)
    requires |username| < 256 && |password| < 256
    ensures WrapCredentialsAsWritten(username, password).Ok?
    ensures CheckCredentials(credentials, WrapCredentialsAsWritten(username, password).value)
      == Ok(if credentials == (username, password) then Success else Error)
  {
    UnpackRoundTrip(username, password);
  }

  /** As written, a one-character non-ASCII username is announced as one byte long
      although it encodes to two, so the server slices the frame wrongly and fails to
      decode the username. */
  lemma AsWrittenMisframes()
    ensures Encode("é") == [0xC3, 0xA9]
    ensures WrapCredentialsAsWritten("é", "").Ok?
    ensures WrapCredentialsAsWritten("é", "").value == [0x01, 1, 0xC3, 0xA9, 0]
    ensures CredentialFields([0x01, 1, 0xC3, 0xA9, 0]).Ok?
    ensures CredentialFields([0x01, 1, 0xC3, 0xA9, 0]).value == ([0xC3], [0])
    ensures UnpackCredentials([0x01, 1, 0xC3, 0xA9, 0]) == Err(UnicodeDecodeError)
  {
    assert Encode("é") == EncodeChar('é') + Encode("");
    assert WrapCredentialsAsWritten("é", "").value == [Pending, 1] + [0xC3, 0xA9] + [0] + [];
    var frame: seq<byte> := [0x01, 1, 0xC3, 0xA9, 0];
    assert frame[2..3] == [0xC3];
    assert Slice(frame, 4, 4 + 0xA9) == [0];
  }

  /** With the byte-counting frame the same credentials come back intact. */
  lemma CorrectedFrameExample()
    ensures WrapCredentials("é", "").Ok?
    ensures WrapCredentials("é", "").value == [0x01, 2, 0xC3, 0xA9, 0]
    ensures CredentialFields([0x01, 2, 0xC3, 0xA9, 0]).Ok?
    ensures CredentialFields([0x01, 2, 0xC3, 0xA9, 0]).value == ([0xC3, 0xA9], [])
  {
    assert Encode("é") == EncodeChar('é') + Encode("");
    assert WrapCredentials("é", "").value == [Pending, 2] + [0xC3, 0xA9] + [0] + [];
    var frame: seq<byte> := [0x01, 2, 0xC3, 0xA9, 0];
    assert frame[2..4] == [0xC3, 0xA9];
    assert Slice(frame, 5, 5) == [];
  }
}
