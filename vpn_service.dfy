/** `connection/vpn_service.py`: the server variant over the `connection/database/mongodb`
    records, and the client's handshake. One call of `ServeDatagram` is one turn of
    `run_server`'s loop: a datagram from an endpoint without a session is a handshake,
    one from an endpoint with a session is relayed. Salsa20, bcrypt's `checkpw`,
    `os.urandom` and scapy's IP header fields come in as parameters. */
module VpnService {
  import opened Wrappers
  import opened Builtins
  import opened Store
  import opened Authentication
  import opened Reply
  import opened Mongo

  // ---------------------------------------------------------------------------
  // algorithm, unpack, pack_data

  /** `algorithm(token)` up to the cipher: the key is all but the last eight bytes, the
      nonce the last eight (Python slices, so a short token gives an empty key), and
      Salsa20 raises `ValueError` unless the key has 16 or 32 bytes and the nonce 8. */
  function KeyAndNonce(token: seq<byte>): (r: Result<(seq<byte>, seq<byte>), Raised>)
    ensures r.Ok? <==> |token| == 24 || |token| == 40
    ensures r.Err? ==> r.error == ValueError
    ensures r.Ok? ==> |r.value.1| == 8 && r.value.0 + r.value.1 == token
  {
    var cut := if |token| >= 8 then |token| - 8 else 0;
    var key := token[..cut];
    var nonce := token[cut..];
    assert key + nonce == token;
    if (|key| == 16 || |key| == 32) && |nonce| == 8 then Ok((key, nonce)) else Err(ValueError)
  }

  /** A session key, the hex text of 20 random bytes, gives a 32-byte Salsa20 key. */
  lemma SessionKeyUsable(entropy: seq<byte>)
    requires |entropy| == 20
    ensures KeyAndNonce(Encode(Hex(entropy))).Ok?
    ensures |KeyAndNonce(Encode(Hex(entropy))).value.0| == 32
  {
  }

  /** `unpack(packet)`: the frame layout of `unpack_credentials`, with the username
      decoded and the password left as bytes. */
  function Unpack(packet: seq<byte>): (r: Result<(string, seq<byte>), Raised>)
    ensures CredentialFields(packet).Err? ==> r == Err(IndexError)
    ensures CredentialFields(packet).Ok? ==>
      var (user, pass) := CredentialFields(packet).value;
      && (r.Ok? <==> Decode(user).Some?)
      && (r.Err? ==> r.error == UnicodeDecodeError)
      && (r.Ok? ==> Encode(r.value.0) == user && r.value.1 == pass)
  {
    var (user, pass) :- CredentialFields(packet);
    match Decode(user)
    case None => Err(UnicodeDecodeError)
    case Some(username) => Ok((username, pass))
  }

  /** Where `unpack_credentials` succeeds, `unpack` reads the same username and the
      password's UTF-8 bytes. */
  lemma UnpackAgrees(packet: seq<byte>)
    requires UnpackCredentials(packet).Ok?
    ensures Unpack(packet) == Ok((UnpackCredentials(packet).value.0, Encode(UnpackCredentials(packet).value.1)))
  {
  }

  /** Round trip: a frame of an ASCII username and any password, framed by byte
      counts, unpacks to the username and the password's UTF-8 bytes. */
  lemma UnpackRoundTrip(username: string, password: string)
    requires IsAscii(username) && |username| < 256 && |Encode(password)| < 256
    ensures WrapCredentials(username, password).Ok?
    ensures Unpack(WrapCredentials(username, password).value) == Ok((username, Encode(password)))
  {
    FieldsRoundTrip(username, password);
    DecodeEncode(username);
  }

  /** `pack_data(token, ip_address, subnet_mask)`, with a 40-byte token field. */
  function PackData(token: string, ipAddress: string, subnetMask: string): (r: Result<seq<byte>, Raised>)
    ensures r == PackConfiguration(ipAddress, subnetMask, Encode(token), 40)
    ensures r.Ok? ==> |r.value| == 48
  {
    PackConfiguration(ipAddress, subnetMask, Encode(token), 40)
  }

  /** Round trip: the client reads the server's reply as the same dotted address and
      mask, and the session key's 40 bytes. */
  lemma HandshakeRoundTrip(entropy: seq<byte>, ip: seq<int>, mask: seq<int>)
    requires |entropy| == 20
    requires |ip| == 4 && AllOctets(ip) && |mask| == 4 && AllOctets(mask)
    ensures PackData(Hex(entropy), Dotted(ip), Dotted(mask)).Ok?
    ensures DecodeReply(PackData(Hex(entropy), Dotted(ip), Dotted(mask)).value, 40)
      == Ok(Configuration(Dotted(ip), Dotted(mask), Encode(Hex(entropy))))
  {
    ReplyRoundTrip(ip, mask, Encode(Hex(entropy)), 40);
    TokenArrivesIntact(Hex(entropy));
  }

  /** The client's full view: credentials framed as written, reply of this server
      decoded. */
  lemma ClientReadsServerReply(username: string, password: string, entropy: seq<byte>, ip: seq<int>, mask: seq<int>)
    requires |username| < 256 && |password| < 256
    requires |entropy| == 20
    requires |ip| == 4 && AllOctets(ip) && |mask| == 4 && AllOctets(mask)
    ensures PackData(Hex(entropy), Dotted(ip), Dotted(mask)).Ok?
    ensures ClientHandshake(username, password, PackData(Hex(entropy), Dotted(ip), Dotted(mask)).value, 40)
      == Ok((WrapCredentialsAsWritten(username, password).value, Configuration(Dotted(ip), Dotted(mask), Encode(Hex(entropy)))))
  {
    HandshakeRoundTrip(entropy, ip, mask);
  }

  /** The frame the client sends for ASCII credentials is read by the server's
      `unpack` as the same username and the password's bytes. */
  lemma ClientFrameReadByServer(username: string, password: string)
    requires IsAscii(username) && IsAscii(password) && |username| < 256 && |password| < 256
    ensures WrapCredentialsAsWritten(username, password).Ok?
    ensures Unpack(WrapCredentialsAsWritten(username, password).value) == Ok((username, Encode(password)))
  {
    WrapAsciiAgrees(username, password);
    UnpackRoundTrip(username, password);
  }

  // ---------------------------------------------------------------------------
  // The server

  /** A datagram and the endpoint it comes from or goes to. */
  datatype Datagram = Datagram(payload: seq<byte>, endpoint: Endpoint)

  /** Salsa20 as functions of key, nonce and data. */
  datatype Salsa20 = Salsa20(encrypt: (seq<byte>, seq<byte>, seq<byte>) -> seq<byte>, decrypt: (seq<byte>, seq<byte>, seq<byte>) -> seq<byte>)

  /** The fields scapy reads from an IP packet: the destination address, and the
      destination port when the packet has one. */
  datatype IpHeader = IpHeader(dst: seq<byte> -> string, dport: seq<byte> -> Option<int>)

  /** `new_configuration`'s split of a session's endpoint key: the host is the text
      before the first `:` and the port the next field (`IndexError` without a `:`,
      `ValueError` when it is not a number). */
  function ConfigurationEndpoint(key: string): (r: Result<Endpoint, Raised>)
    ensures |Split(key, ':')| < 2 ==> r == Err(IndexError)
    ensures |Split(key, ':')| >= 2 ==>
      match ParseInt(Split(key, ':')[1])
      case None => r == Err(ValueError)
      case Some(port) => r == Ok(Endpoint(Split(key, ':')[0], port))
  {
    var client := Split(key, ':');
    if |client| < 2 then Err(IndexError)
    else match ParseInt(client[1])
      case None => Err(ValueError)
      case Some(port) => Ok(Endpoint(client[0], port))
  }

  /** Every endpoint whose host has no `:` is recovered from its session key. */
  lemma ConfigurationEndpointRoundTrip(e: Endpoint)
    requires ':' !in e.host
    ensures ConfigurationEndpoint(EndpointKey(e)) == Ok(e)
  {
    EndpointKeyRoundTrip(e);
  }

  /** What `run_server` makes of a handshake reply: the datagram to send, or the
      exception that ends the loop. */
  function Sent(reply: Result<Datagram, Raised>): (r: Result<Option<Datagram>, Raised>)
    ensures r.Ok? <==> reply.Ok?
    ensures r.Ok? ==> r.value == Some(reply.value)
    ensures r.Err? ==> r.error == reply.error
  {
    match reply
    case Ok(datagram) => Ok(Some(datagram))
    case Err(e) => Err(e)
  }

  class VPNServer {
    const db: MongoDatabase
    const connections: Connection
    const tokenLength: nat := 40

    /** The session records live in the server's database. */
    predicate Valid() {
      connections.db == db
    }

    constructor (db: MongoDatabase)
      ensures this.db == db && Valid()
    {
      this.db := db;
      connections := new Connection(db);
    }

    /** `authenticate(connection)`: the frame is unpacked (its errors propagate), an
        unknown username is a `TypeError` (`None['password']`), and a known account is
        returned exactly when `checkpw` accepts the raw password against its stored
        hash. */
    function Authenticate(packet: seq<byte>, checkpw: (seq<byte>, seq<byte>) -> bool): (r: Result<Option<AccountRecord>, Raised>)
      reads db
      ensures Unpack(packet).Err? ==> r == Err(Unpack(packet).error)
      ensures Unpack(packet).Ok? ==>
        var (username, password) := Unpack(packet).value;
        match FindRecordByName(db.accounts, username)
        case None => r == Err(TypeError)
        case Some(account) => r == (if checkpw(password, Encode(account.password)) then Ok(Some(account)) else Ok(None))
    {
      var (username, password) :- Unpack(packet);
      match FindRecordByName(db.accounts, username)
      case None => Err(TypeError)
      case Some(account) => if checkpw(password, Encode(account.password)) then Ok(Some(account)) else Ok(None)
    }

    /** `new_connection(connection)`: `None` when the password is refused; otherwise the
        account's first network (`IndexError` when it has none, `TypeError` when that
        network does not exist, `KeyError` when the network binds no address to the
        account, all before anything is written), then every session of the account
        is deleted and one created with the bound address and a fresh key. */
    method NewConnection(packet: seq<byte>, endpoint: Endpoint, checkpw: (seq<byte>, seq<byte>) -> bool, entropy: seq<byte>) returns (r: Result<Option<Session>, Raised>)
      requires Valid() && |entropy| == 20
      modifies db
      ensures var auth := old(Authenticate(packet, checkpw));
        && (auth.Err? ==> r == Err(auth.error) && unchanged(db))
        && (auth == Ok(None) ==> r == Ok(None) && unchanged(db))
      ensures var auth := old(Authenticate(packet, checkpw));
        auth.Ok? && auth.value.Some? ==>
          var account := auth.value.value;
          && (account.networks == [] ==> r == Err(IndexError) && unchanged(db))
          && (account.networks != [] && account.networks[0] !in old(db.networks) ==> r == Err(TypeError) && unchanged(db))
          && (account.networks != [] && account.networks[0] in old(db.networks) ==>
                var networkId := account.networks[0];
                var bindings := old(db.networks)[networkId].connections;
                && (account.id !in bindings ==> r == Err(KeyError) && unchanged(db))
                && (account.id in bindings ==>
                      var session := Session(EndpointKey(endpoint), account.id, networkId, bindings[account.id], Hex(entropy));
                      && r == Ok(Some(session))
                      && db.sessions == Supersede(old(db.sessions), session)
                      && db.accounts == old(db.accounts) && db.networks == old(db.networks) && db.nextId == old(db.nextId)))
    {
      var authenticated :- Authenticate(packet, checkpw);
      if authenticated.None? {
        return Ok(None);
      }
      var account := authenticated.value;
      if account.networks == [] {
        return Err(IndexError);
      }
      var networkId := account.networks[0];
      if networkId !in db.networks {
        return Err(TypeError);
      }
      var bindings := db.networks[networkId].connections;
      if account.id !in bindings {
        return Err(KeyError);
      }
      var ipAddress := bindings[account.id];
      db.sessions := WithoutAccount(db.sessions, account.id);
      var session := connections.Create(networkId, account.id, ipAddress, endpoint, entropy);
      return Ok(Some(session));
    }

    /** `new_configuration(connection)` up to `sendto`: `TypeError` for no session or a
        network that does not exist, `AttributeError` for a session without address,
        then the packed reply (40-byte key field) and the endpoint it goes to. */
    function NewConfiguration(session: Option<Session>): (r: Result<Datagram, Raised>)
      reads db
      ensures session.None? ==> r == Err(TypeError)
      ensures session.Some? && session.value.networkId !in db.networks ==> r == Err(TypeError)
      ensures session.Some? && session.value.networkId in db.networks && session.value.ipAddress.None? ==> r == Err(AttributeError)
      ensures session.Some? && session.value.networkId in db.networks && session.value.ipAddress.Some? ==>
        var packed := PackData(session.value.encrypt, session.value.ipAddress.value, db.networks[session.value.networkId].subnetMask);
        var client := ConfigurationEndpoint(session.value.connection);
        && (r.Ok? <==> packed.Ok? && client.Ok?)
        && (packed.Err? ==> r == Err(packed.error))
        && (packed.Ok? && client.Err? ==> r == Err(client.error))
      ensures r.Ok? ==>
        && session.Some? && session.value.ipAddress.Some? && session.value.networkId in db.networks
        && PackData(session.value.encrypt, session.value.ipAddress.value, db.networks[session.value.networkId].subnetMask) == Ok(r.value.payload)
        && ConfigurationEndpoint(session.value.connection) == Ok(r.value.endpoint)
    {
      if session.None? then Err(TypeError)
      else
        var s := session.value;
        if s.networkId !in db.networks then Err(TypeError)
        else if s.ipAddress.None? then Err(AttributeError)
        else
          var packet :- PackData(s.encrypt, s.ipAddress.value, db.networks[s.networkId].subnetMask);
          var client :- ConfigurationEndpoint(s.connection);
          Ok(Datagram(packet, client))
    }

    /** `get_destination((packet, source))`: `None` for a source without a session,
        otherwise the first session of the same network bound to the packet's
        destination address. */
    function Destination(packet: seq<byte>, source: Endpoint, header: IpHeader): (r: Option<Session>)
      reads db
      ensures FindSession(db.sessions, EndpointKey(source)).None? ==> r.None?
      ensures FindSession(db.sessions, EndpointKey(source)).Some? ==>
        r == FindPeer(db.sessions, FindSession(db.sessions, EndpointKey(source)).value.networkId, header.dst(packet))
      ensures r.Some? ==> r.value in db.sessions && r.value.ipAddress == Some(header.dst(packet))
    {
      match FindSession(db.sessions, EndpointKey(source))
      case None => None
      case Some(connection) => FindPeer(db.sessions, connection.networkId, header.dst(packet))
    }

    /** What `send_packet(token, tunnel, datagram)` sends:
        - the datagram is decrypted with the sender's key (`ValueError` for an unusable
          key);
        - with a destination session, the plaintext is encrypted with the
          destination's key and sent to the destination's endpoint (`IndexError`,
          `ValueError`, `TypeError` for an endpoint key that does not parse as a
          host/port pair, `ValueError` for an unusable key);
        - without one and with the tunnel on, the plaintext goes to the packet's
          destination address and port (port 0 when the packet has none);
        - otherwise the datagram goes back to its sender unchanged. */
    function Relayed(token: seq<byte>, tunnel: bool, datagram: Datagram, salsa: Salsa20, header: IpHeader): (r: Result<Datagram, Raised>)
      reads db
      ensures KeyAndNonce(token).Err? ==> r == Err(ValueError)
      ensures KeyAndNonce(token).Ok? ==>
        var (key, nonce) := KeyAndNonce(token).value;
        var packet := salsa.decrypt(key, nonce, datagram.payload);
        match Destination(packet, datagram.endpoint, header)
        case Some(client) =>
          && (r.Ok? <==> ParseEndpoint(client.connection).Ok? && KeyAndNonce(Encode(client.encrypt)).Ok?)
          && (r.Ok? ==> r.value == Datagram(salsa.encrypt(KeyAndNonce(Encode(client.encrypt)).value.0, KeyAndNonce(Encode(client.encrypt)).value.1, packet),
                                            ParseEndpoint(client.connection).value))
        case None =>
          if tunnel then r == Ok(Datagram(packet, Endpoint(header.dst(packet), header.dport(packet).GetOr(0))))
          else r == Ok(datagram)
    {
      var (key, nonce) :- KeyAndNonce(token);
      var packet := salsa.decrypt(key, nonce, datagram.payload);
      match Destination(packet, datagram.endpoint, header)
      case Some(client) =>
        var parts := Split(client.connection, ':');
        if |parts| < 2 then Err(IndexError)
        else if ParseInt(parts[1]).None? then Err(ValueError)
        else
          var (key', nonce') :- KeyAndNonce(Encode(client.encrypt));
          var target :- ParseEndpoint(client.connection);
          Ok(Datagram(salsa.encrypt(key', nonce', packet), target))
      case None =>
        if tunnel then Ok(Datagram(packet, Endpoint(header.dst(packet), header.dport(packet).GetOr(0))))
        else Ok(datagram)
    }

    /** `send_packet` step by step: `connection` and `packet` are reassigned along the
        way and the final pair is what `sendto` gets. It changes no record. */
    method SendPacket(token: seq<byte>, tunnel: bool, datagram: Datagram, salsa: Salsa20, header: IpHeader) returns (r: Result<Datagram, Raised>)
      ensures r == Relayed(token, tunnel, datagram, salsa, header)
    {
      var cipher :- KeyAndNonce(token);
      var packet := salsa.decrypt(cipher.0, cipher.1, datagram.payload);
      var connection := datagram;
      var client := Destination(packet, datagram.endpoint, header);
      if client.Some? {
        var parts := Split(client.value.connection, ':');
        if |parts| < 2 {
          return Err(IndexError);
        }
        var port := ParseInt(parts[1]);
        if port.None? {
          return Err(ValueError);
        }
        var peerCipher :- KeyAndNonce(Encode(client.value.encrypt));
        packet := salsa.encrypt(peerCipher.0, peerCipher.1, packet);
        if |parts| > 2 {
          return Err(TypeError);
        }
        connection := Datagram(packet, Endpoint(parts[0], port.value));
      } else if tunnel {
        connection := Datagram(packet, Endpoint(header.dst(packet), header.dport(packet).GetOr(0)));
      }
      return Ok(connection);
    }

    /** `new_configuration(new_connection(connection))` for a datagram `d` from an
        endpoint without a session: the errors of authentication propagate, a refused
        password is the `TypeError` of `new_configuration(None)`, and the
        `new_connection` errors leave every record as it was; otherwise the account's
        sessions are superseded by the new one, nothing else changes, and the reply is
        that session's configuration, to be sent back to `d`'s own endpoint. */
    method Handshake(d: Datagram, checkpw: (seq<byte>, seq<byte>) -> bool, entropy: seq<byte>) returns (r: Result<Datagram, Raised>)
      requires Valid() && |entropy| == 20
      modifies db
      ensures var auth := old(Authenticate(d.payload, checkpw));
        && (auth.Err? ==> r == Err(auth.error) && unchanged(db))
        && (auth == Ok(None) ==> r == Err(TypeError) && unchanged(db))
      ensures var auth := old(Authenticate(d.payload, checkpw));
        auth.Ok? && auth.value.Some? ==>
          var account := auth.value.value;
          && (account.networks == [] ==> r == Err(IndexError) && unchanged(db))
          && (account.networks != [] && account.networks[0] !in old(db.networks) ==> r == Err(TypeError) && unchanged(db))
          && (account.networks != [] && account.networks[0] in old(db.networks) ==>
                var networkId := account.networks[0];
                var network := old(db.networks)[networkId];
                && (account.id !in network.connections ==> r == Err(KeyError) && unchanged(db))
                && (account.id in network.connections ==>
                      var session := Session(EndpointKey(d.endpoint), account.id, networkId, network.connections[account.id], Hex(entropy));
                      && db.sessions == Supersede(old(db.sessions), session)
                      && db.accounts == old(db.accounts) && db.networks == old(db.networks) && db.nextId == old(db.nextId)
                      && r == NewConfiguration(Some(session))
                      && (session.ipAddress.None? ==> r == Err(AttributeError))
                      && (session.ipAddress.Some? && ':' !in d.endpoint.host ==>
                            var packed := PackData(Hex(entropy), session.ipAddress.value, network.subnetMask);
                            && (packed.Err? ==> r == Err(packed.error))
                            && (packed.Ok? ==> r == Ok(Datagram(packed.value, d.endpoint))))))
    {
      var session := NewConnection(d.payload, d.endpoint, checkpw, entropy);
      if session.Err? {
        return Err(session.error);
      }
      if ':' !in d.endpoint.host {
        ConfigurationEndpointRoundTrip(d.endpoint);
      }
      r := NewConfiguration(session.value);
    }

    /** One turn of `run_server`'s loop on datagram `d`:
        - from an endpoint without a session it is a handshake, and the configuration
          reply is sent; any error raised there ends the loop, which is the `Err`
          result, including the `TypeError` of a refused password;
        - from an endpoint with a session it is relayed with that session's key; an
          error raised by the relay thread is lost and nothing is sent, `Ok(None)`,
          and no record changes. */
    method ServeDatagram(d: Datagram, tunnel: bool, checkpw: (seq<byte>, seq<byte>) -> bool, entropy: seq<byte>, salsa: Salsa20, header: IpHeader)
      returns (r: Result<Option<Datagram>, Raised>)
      requires Valid() && |entropy| == 20
      modifies db
      ensures FindSession(old(db.sessions), EndpointKey(d.endpoint)).Some? ==>
        var data := FindSession(old(db.sessions), EndpointKey(d.endpoint)).value;
        var sent := Relayed(Encode(data.encrypt), tunnel, d, salsa, header);
        && unchanged(db)
        && r == (if sent.Ok? then Ok(Some(sent.value)) else Ok(None))
      ensures FindSession(old(db.sessions), EndpointKey(d.endpoint)).None? && old(Authenticate(d.payload, checkpw)).Err? ==>
        r == Err(old(Authenticate(d.payload, checkpw)).error) && unchanged(db)
      ensures FindSession(old(db.sessions), EndpointKey(d.endpoint)).None? && old(Authenticate(d.payload, checkpw)) == Ok(None) ==>
        r == Err(TypeError) && unchanged(db)
      ensures var auth := old(Authenticate(d.payload, checkpw));
        FindSession(old(db.sessions), EndpointKey(d.endpoint)).None? && auth.Ok? && auth.value.Some? ==>
          var account := auth.value.value;
          && (account.networks == [] ==> r == Err(IndexError) && unchanged(db))
          && (account.networks != [] && account.networks[0] !in old(db.networks) ==> r == Err(TypeError) && unchanged(db))
          && (account.networks != [] && account.networks[0] in old(db.networks) ==>
                var networkId := account.networks[0];
                var network := old(db.networks)[networkId];
                && (account.id !in network.connections ==> r == Err(KeyError) && unchanged(db))
                && (account.id in network.connections ==>
                      var session := Session(EndpointKey(d.endpoint), account.id, networkId, network.connections[account.id], Hex(entropy));
                      && db.sessions == Supersede(old(db.sessions), session)
                      && db.accounts == old(db.accounts) && db.networks == old(db.networks) && db.nextId == old(db.nextId)
                      && r == Sent(NewConfiguration(Some(session)))))
      ensures FindSession(old(db.sessions), EndpointKey(d.endpoint)).None? && r.Ok? ==>
        && r.value.Some?
        && |r.value.value.payload| == 48
        && exists s | s in db.sessions :: NewConfiguration(Some(s)) == Ok(r.value.value)
    {
      var data := FindSession(db.sessions, EndpointKey(d.endpoint));
      if data.None? {
        var reply := Handshake(d, checkpw, entropy);
        return Sent(reply);
      }
      var sent := SendPacket(Encode(data.value.encrypt), tunnel, d, salsa, header);
      if sent.Err? {
        return Ok(None);
      }
      return Ok(Some(sent.value));
    }
  }
}
