# vpn-service control plane in Dafny

AngeloHH/vpn-service is a small UDP VPN written in Python. Clients authenticate with a
framed username/password datagram. The server answers with a configuration reply: an
IPv4 address, a subnet mask and a per-session Salsa20 key. After that the server relays
encrypted datagrams between clients of the same network, or into a tunnel. This project
models the logic that decides who gets which address and which key, and proves
properties of it. The repository has two parallel server variants and both are modelled:

- the `connection/network/` package (`Manager`, `ConnectionManager`, `NetworkManager`,
  `AccountManager`) over its own account, network and session documents
  (`documents.dfy`, `connections.dfy`, `networks.dfy`, `accounts.dfy`, `manager.dfy`);
- `connection/vpn_service.py` (`VPNServer`, the reply decoding of `VPNClient`) over the
  records of `connection/database/mongodb/` (`mongodb.dfy`, `vpn_service.dfy`).

Shared pieces:

- `utils.dfy`: `network_properties`, which turns a CIDR text or an address pair into a
  base address, a mask built bit by bit, and a range.
- `authentication.dfy`: the credential frame `0x01 | len(user) | user | len(pass) | pass`
  and the status bytes `0x01`/`0x02`/`0x03`.
- `reply.dfy`: the `4s4s{N}s` configuration reply and the client's reading of it.
- `store.dfy`: the session table and its `"host:port"` keys.
- `monitor.dfy`: the client's `SpeedMonitor` counters.
- `builtins.dfy` and `wrappers.dfy`: the Python built-ins the code relies on (`str.split`,
  `int()`, `str()`, UTF-8 encode/decode, struct `s` fields, `bytes.hex`, `bit_length`, the
  exceptions) and Option/Result.

Modelling conventions:

- Every MongoDB collection is a field of a database class. Accounts and sessions are
  sequences, because `find_one` returns the first match in collection order. Networks
  are a map from object id to document.
- Object ids are naturals, and `nextId` stands for the next fresh id.
- A Python exception is an `Err(Raised)` result. Where `run_server`'s loop would die,
  the result is that `Err`.
- Code that updates state step by step is written as methods with loops. Each method
  is proved equal to a specification function, and the properties are proved about
  that function.
- The source often compares an `ObjectId` with its `str` form, which never matches in
  Python. Such values carry that distinction (`Store.IdValue`).

The three places where the code evidently misbehaves are modelled both as written and
corrected (see "## Findings").

Where the code and its documentation disagree, the model follows the code:

- `new_address` carries modulo 255, not 256. Address 256 of `192.168.1.0` is
  `192.168.2.1`.
- `struct.pack` pads the key field with NUL bytes, not spaces.
- The network package packs a 44-byte key field. Its 52-byte reply is refused by
  `VPNClient.authenticate`, which unpacks 48 bytes
  (`Reply.PackageReplyUnreadable`).
- In `vpn_service`, a refused password makes `new_connection` return `None`. The
  following `new_configuration(None)` raises `TypeError` instead of sending an error
  byte, and that ends `run_server`'s loop (`VpnService.VPNServer.ServeDatagram`).

Foreign code is passed in as parameters: bcrypt's `checkpw` and `hashpw` with its salt,
Fernet's fresh key, the random bytes of `os.urandom`, Salsa20's encrypt/decrypt, and the
destination address and port that scapy reads from an IP packet.

## Model

| member | source | states |
|---|---|---|
| Utils.SubnetMask | connection/utils.py:21-25 | the mask loop sets, for prefix p, exactly the octets `MaskOctets(p)`, and a prefix above 32 indexes past the four-element list (`IndexError`) |
| Utils.NetworkProperties | connection/utils.py:6-29 | `network_properties` returns exactly `PropertiesOf(spec)`: the pair is turned into a CIDR text, the default range is used when none is given, and the mask comes from the loop |
| Utils.MaskContiguous | connection/utils.py:21-25 | for 0 ≤ p ≤ 32, mask bit j (MSB of octet 0 first) is set iff j < p |
| Utils.MaskPopulation | connection/utils.py:21-25 | for 0 ≤ p ≤ 32 the mask has exactly p set bits |
| Utils.MaskOctetValue | connection/utils.py:24-25 | octet k is 255 when p ≥ 8(k+1), 0 when p ≤ 8k, and otherwise 256 − 2^(8−(p−8k)), its top p−8k bits |
| Utils.TopBitsStep | connection/utils.py:25 | OR-ing bit `1 << (7 - j)` into an octet with its top j bits set gives the top j+1 bits |
| Utils.MaskOctetsStep | connection/utils.py:24-25 | one turn of the loop, setting prefix bit i in octet i // 8, turns the mask of prefix i into the mask of prefix i + 1 |
| Utils.SpanPrefixBounds | connection/utils.py:11-17 | a pair has a prefix iff the last dotted fields of both addresses are numbers; with d their difference, the prefix p is at most 32, it is 32 iff d = 0, and otherwise 2^(31−p) ≤ abs(d) < 2^(32−p): the host part is the least number of bits that holds the span |
| Utils.DefaultProperties | connection/utils.py:20-29 | with no range: ("192.168.1.0", "255.255.255.0", "192.168.1.0/24") |
| Utils.CidrProperties | connection/utils.py:20-29 | for `ip/p` with an `ip` free of `/`: base `ip`, the mask of p, and the text unchanged |
| Utils.CidrKeepsText | connection/utils.py:27-29 | for any CIDR text that succeeds, the base is the text before the first `/` and the range is the input unchanged |
| Utils.SpanProperties | connection/utils.py:8-29 | a pair gives base `first`, the mask of its prefix, and `first/prefix` |
| Utils.SpanExample | connection/utils.py:8-29 | ("10.0.0.0", "10.0.0.7") gives ("10.0.0.0", "255.255.255.248", "10.0.0.0/29") |
| Authentication.WrapCredentialsAsWritten | connection/authentication.py:8-11 | the frame as written: `0x01`, the character count of the username, its UTF-8 bytes, the character count of the password, its bytes; `ValueError` for a count above 255 |
| Authentication.WrapCredentials | connection/authentication.py:8-11 | the corrected frame, whose length bytes count UTF-8 bytes, with total length 3 + both byte counts |
| Authentication.WrapAsciiAgrees | connection/authentication.py:8-11 | for ASCII credentials both framings are the same |
| Authentication.CredentialFields | connection/authentication.py:13-16 | byte 0 is ignored; the username is `packet[2:2+ulen]`; the password is `packet[3+ulen:3+ulen+plen]` clamped to the buffer; it fails (`IndexError`) iff a length byte lies past the end |
| Authentication.UnpackCredentials | connection/authentication.py:13-17 | both fields decoded; `UnicodeDecodeError` iff one of them is not text; the result re-encodes to the fields |
| Authentication.CheckCredentials | connection/authentication.py:19-23 | `0x02` iff both unpacked credentials equal the expected pair, `0x03` iff they differ; unpack errors propagate |
| Authentication.FieldsRoundTrip | connection/authentication.py:8-16 | the corrected frame of any credentials unpacks to their UTF-8 bytes |
| Authentication.UnpackRoundTrip | connection/authentication.py:8-17 | ASCII credentials of at most 255 characters come back from `unpack_credentials(wrap_credentials(u, p))` |
| Authentication.CheckRoundTrip | connection/authentication.py:8-23 | a frame of ASCII credentials is accepted exactly when they are the expected ones |
| Authentication.AsWrittenMisframes | connection/authentication.py:9-10 | the username "é" is announced as 1 byte but encodes to 2, so the server cuts it and fails to decode it |
| Authentication.CorrectedFrameExample | connection/authentication.py:9-10 | with byte counts the same frame splits back into the two UTF-8 bytes of "é" |
| Reply.PackConfiguration | connection/network/connections.py:79-84 | the reply is 8 + N bytes: the address octets, the mask octets, each cut or NUL-padded to 4, then the key cut or padded to N; `ValueError` iff a field is not an octet |
| Reply.DecodeReply | connection/vpn_service.py:173-184 | `b'\x03'` or an empty reply is the connection failure; any other size than 8 + N is a struct error; a reply of size 8 + N that is neither succeeds, with the last N bytes as the key and the two octet groups read back in dotted form |
| Reply.ClientHandshake | connection/vpn_service.py:171-184 | the client frames its credentials with `wrap_credentials` as written: `ValueError` when a name or password has 256 characters or more; otherwise the reply's decoding error, or both the frame and the configuration |
| Reply.ReplyRoundTrip | connection/vpn_service.py:36-40 | a reply packed from a four-octet address and mask reads back as the same dotted address and mask and the padded key |
| Reply.TokenArrivesIntact | connection/vpn_service.py:39 | a 40-character ASCII key fills the 40-byte field exactly |
| Reply.PackageReplyUnreadable | connection/network/connections.py:80 | every 52-byte reply of the network package is a struct error for the client, which expects 48 bytes |
| Store.ParseEndpoint | connection/vpn_service.py:118-133 | an endpoint key parses to a (host, port) pair iff it splits at `:` into exactly two parts and the port parses; the host then has no `:` |
| Store.EndpointKeyRoundTrip | connection/database/mongodb/networks.py:65 | the `"host:port"` key of an endpoint whose host has no `:` parses back to the endpoint |
| Store.EndpointKeyInjective | connection/database/mongodb/networks.py:65 | two such endpoints with the same key are equal |
| Store.WithoutAccount | connection/network/connections.py:58 | `delete_many({'account_id': a})` keeps exactly the sessions of other accounts |
| Store.SupersedeSessions | connection/network/connections.py:58-59 | after a new session the account has exactly that one session, and every other account has the sessions it had |
| Store.SupersedeOnePerAccount | connection/vpn_service.py:106-107 | deleting the account's sessions and inserting one keeps at most one session per account |
| Store.WithoutAccountSubsequence | connection/vpn_service.py:106 | the sessions `delete_many` keeps still have no account twice |
| Store.FindSession | connection/vpn_service.py:141-142 | `find_one({'connection': key})` is `None` iff no session has the key, else one with that key |
| Store.FindPeer | connection/vpn_service.py:64-65 | a session of the network bound to the address; `None` iff there is none |
| Store.FindPeerFirst | connection/vpn_service.py:64-65 | the session found is the first of the table with that network and address |
| Documents.FindAccount | connection/network/accounts.py:22 | `find_one({'_id': id})` finds an account with that id, and `None` iff there is none |
| Documents.FindUsername | connection/network/connections.py:37-38 | `find_one({'username': u})` finds an account with that username, and `None` iff there is none |
| Documents.ReplaceAccount | connection/network/accounts.py:35 | `update_object` replaces the first account with that id, leaving every other entry and the length unchanged |
| Connections.NewAddressOf | connection/network/connections.py:11-21 | `new_address` fails iff the base has a non-numeric field (`ValueError`) or fewer than four (`IndexError`) |
| Connections.NewAddress | connection/network/connections.py:11-21 | the carry loop over the octet list computes exactly `NewAddressOf` |
| Connections.WithLastOctet | connection/network/connections.py:14 | the base's last octet is replaced by the address id, and the others are kept |
| Connections.NormalisedIsBase255 | connection/network/connections.py:16-19 | after the loop every octet is in 0..254, and the four octets read in base 255 are the input's value modulo 255⁴ |
| Connections.NewAddressValue | connection/network/connections.py:11-21 | the printed address is the base-255 normalisation of the base with its last octet replaced by the id |
| Connections.CarryKeepsValue | connection/network/connections.py:17-19 | one inner carry step keeps the base-255 value and reduces its octet modulo 255 |
| Connections.InnerCarries | connection/network/connections.py:16-19 | indices 3..1 keep the value and leave octets 1..3 in 0..254 |
| Connections.OuterCarry | connection/network/connections.py:16-19 | index 0 drops its carry, so the value is taken modulo 255⁴ |
| Connections.NewAddressCarryExample | connection/network/connections.py:11-21 | address 255 of "10.0.0.0" is "10.0.1.0" |
| Connections.NormalisedInRange | connection/network/connections.py:16-19 | four octets already in 0..254 pass the carry loop unchanged |
| Connections.NewAddressModulo255Example | connection/network/connections.py:16-19 | address 256 of "192.168.1.0" is "192.168.2.1": the carry is modulo 255 |
| Connections.FirstFreeIndex | connection/network/connections.py:71-73 | the scan fails exactly on the first candidate whose address cannot be built; a found index is in range and its address is free |
| Connections.FirstFreeIndexIsFirst | connection/network/connections.py:71-73 | every candidate before the found one is held, and every candidate is held when nothing is found |
| Connections.FirstMembership | connection/network/connections.py:63 | `KeyError` without a networks field, `IndexError` for an empty list, else the first membership |
| Connections.AssignedAddress | connection/network/connections.py:62-73 | precedence: the membership's fixed address, else the account's existing binding, else the first free scanned candidate, else `None` |
| Connections.ScannedAddressIsFree | connection/network/connections.py:65-73 | an address the scan hands out is held by no account, and it is one of the first `max_address` candidates |
| Connections.AssignAddress | connection/network/connections.py:62-73 | the loop with early return computes exactly `AssignedAddress` |
| Connections.ConnectionManager.Authenticate | connection/network/connections.py:34-44 | unpack errors propagate; an unknown username yields only the error status; a known one gets success iff `checkpw` accepts the password against the stored hash; nothing is written |
| Connections.ConnectionManager.NewConnection | connection/network/connections.py:49-60 | membership errors and a missing network (`TypeError`) leave the store unchanged; otherwise all sessions of the account are replaced by one keyed `"host:port"` with the fresh key |
| Connections.ConnectionManager.PackData | connection/network/connections.py:75-84 | membership errors and a missing network (`TypeError`) leave the store unchanged; otherwise the session is written before the address is assigned, so an exhausted pool (`AttributeError`), a failed scan and an unpackable reply (`ValueError`) fail after the write; the reply is the 52-byte packing of the assigned address, mask and key |
| Networks.Kept | connection/network/networks.py:22-25 | the loop copies exactly the entries that hold another address and are not the account's |
| Networks.RebuildStep | connection/network/networks.py:22-25 | one iteration of the loop extends the partial update by exactly the rebuilt entry for its key |
| Networks.RebuiltBinding | connection/network/networks.py:18-27 | the account maps to the new address; no other account maps to it; the entries of other accounts with other addresses are kept; nothing else is in the map |
| Networks.RebuiltAddressesUnique | connection/network/networks.py:18-27 | if each address was held by at most one account, that is still so after the rebuild |
| Networks.RebuiltKeepsStaleBinding | connection/network/networks.py:23 | with the id passed as an `ObjectId`, an account's old binding to a different address survives the rebuild |
| Networks.RebuiltObjectIdBinding | connection/network/networks.py:18-27 | with the `ObjectId`, the rebuilt map is the one the `str` id gives, except that the account keeps an old binding that differs from the new address |
| Networks.StaleBindingExample | connection/network/networks.py:23 | account 7 bound to "10.0.0.1" and reconnecting with "10.0.0.2" keeps "10.0.0.1" as written, but gets "10.0.0.2" with the `str` id |
| Networks.NetworkManager.NewNetwork | connection/network/networks.py:12-16 | a new network stores `max_address` and the range and mask of `network_properties`, with no binding map, under a fresh id; errors leave the store unchanged |
| Documents.Database.InsertNetwork | connection/network/networks.py:16 | `insert_one` stores the document under a fresh id, keeps every stored id below the next one, and changes nothing else |
| Networks.NetworkManager.RebuildBindings | connection/network/networks.py:19-25 | the `update` loop computes exactly `Rebuilt` |
| Networks.NetworkManager.NewConnection | connection/network/networks.py:18-27 | `AttributeError` for a missing network; otherwise its binding map becomes the rebuilt map and nothing else changes; there is no capacity check |
| Accounts.NewMembership | connection/network/accounts.py:29-34 | the new membership records the id, `is_owner` and the address as given, and is temporal iff no address is given |
| Accounts.WithNetwork | connection/network/accounts.py:24-34 | a missing list counts as empty; the membership is appended at the end iff no membership has the id |
| Accounts.WithNetworkIdempotent | connection/network/accounts.py:28-34 | adding a network twice equals adding it once, whatever the second call's arguments |
| Accounts.WithNetworkKeepsExisting | connection/network/accounts.py:28-34 | the existing memberships stay unchanged, in order, at the front of the list |
| Accounts.Selected | connection/network/accounts.py:43-47 | an index is left alone; an id becomes the index of its first matching membership, and stays an id only when none matches |
| Accounts.PopPosition | connection/network/accounts.py:49 | `pop(i)` accepts −n ≤ i < n and counts a negative index from the end |
| Accounts.MoveToFront | connection/network/accounts.py:49 | `insert(0, pop(k))` puts element k first and keeps the others in order |
| Accounts.MoveToFrontPermutes | connection/network/accounts.py:49 | the result is a permutation of the list |
| Accounts.Switched | connection/network/accounts.py:43-49 | an unknown id gives `TypeError`, and a bad position gives `IndexError`; otherwise the selected membership is moved to the front |
| Accounts.SwitchedById | connection/network/accounts.py:43-49 | for a network the account belongs to, a membership of that network comes first, the others keep their order, and the list is a permutation of the original |
| Accounts.SwitchedByIndex | connection/network/accounts.py:44-45 | an integer is used as the list position directly |
| Accounts.AccountManager.NewAccount | connection/network/accounts.py:12-19 | the stored password is the decoded hash of the UTF-8 password, never the plaintext; the account is stored under a fresh id |
| Accounts.AccountManager.AddNetwork | connection/network/accounts.py:21-35 | `TypeError` for an unknown account; otherwise the account's list becomes `WithNetwork` of it and nothing else changes |
| Accounts.AccountManager.SwitchNetwork | connection/network/accounts.py:37-50 | `TypeError` for an unknown account or id; `KeyError` without a networks field; otherwise the list becomes `Switched` of it |
| NetworkPackage.Manager.NewConnection | connection/network/__init__.py:30-40 | unpack errors propagate and a status other than success is the whole reply, with nothing written; membership errors and a missing network leave the store unchanged; otherwise the sessions are superseded, accounts and ids are untouched, assignment and packing errors leave the networks untouched, and on success the reply is the packed configuration of the assigned address and the first network's map is rebuilt around that address with the account's `ObjectId` |
| NetworkPackage.Manager.NewConnectionCorrected | connection/network/__init__.py:30-40 | the same outcomes with `str(id)` passed to the rebuild; then the account is bound to exactly the address its reply carries, and no other account is bound to it |
| Mongo.FindRecord | connection/database/mongodb/accounts.py:11-12 | `find_one({'_id': id})` finds a record with that id, and `None` iff there is none |
| Mongo.FindRecordByName | connection/vpn_service.py:45 | `get(username=...)` finds a record with that username, and `None` iff there is none |
| Mongo.ReplaceRecord | connection/database/mongodb/accounts.py:25-27 | `update` replaces the record with that id and leaves the others unchanged |
| Mongo.WithKey | connection/database/mongodb/networks.py:38 | setting a dictionary key keeps the old keys and adds the new one last, only if it was absent |
| Mongo.HeldAddresses | connection/database/mongodb/networks.py:28 | an address is held iff some binding's value is that address |
| Mongo.MongoDatabase.InsertNetwork | connection/database/mongodb/accounts.py:14-17 | `insert_one` stores the record under a fresh id and changes nothing else |
| Mongo.AddressScan | connection/database/mongodb/networks.py:24-29 | the scan fails exactly on the first candidate whose address cannot be built |
| Mongo.AddressScanIsFirstFree | connection/database/mongodb/networks.py:20-30 | `_get_address` returns the same first free candidate as `assign_address`'s scan, and fails in the same way |
| Mongo.AddressScanExhausted | connection/database/mongodb/networks.py:20-30 | when every candidate is held, the last one tried is returned, and it is held; with `max_address = 0` the result is `None` |
| Mongo.ChosenAddress | connection/database/mongodb/networks.py:41-42 | `_get_address()` is evaluated first and its errors propagate; a `str` key that is bound returns its binding, and every other lookup returns `_get_address()` |
| Mongo.ChosenAddressIgnoresBinding | connection/database/mongodb/networks.py:41-42 | looked up by `ObjectId`, as written, an account that is already bound still gets `_get_address()`'s candidate |
| Mongo.ChosenAddressKeepsBinding | connection/database/mongodb/networks.py:41-42 | looked up by `str(id)`, an account that is already bound gets its own binding |
| Mongo.ToNetworkIgnoresBindingExample | connection/database/mongodb/networks.py:41-42 | in network "10.0.0.0/24" with account 1 bound to "10.0.0.0", account 1 is offered "10.0.0.1" as written and "10.0.0.0" with the `str` lookup |
| Mongo.BindingKeepsUnique | connection/database/mongodb/networks.py:45-50 | binding a new account to an address held by no one keeps set addresses unique |
| Mongo.Network.Create | connection/database/mongodb/networks.py:15-18 | the record stores an empty binding map, the given `max_address`, and the mask and range of `network_properties` under a fresh id |
| Mongo.Network.GetAddress | connection/database/mongodb/networks.py:20-30 | `TypeError` for a missing record; otherwise the loop with `break` computes exactly `NetworkAddress` |
| Mongo.Network.ToNetwork | connection/database/mongodb/networks.py:32-51 | `TypeError` for a missing network or account; the account's networks key is always set; an unbound account whose address is held by another gets `AddressConflict`, and its binding is not persisted; an unbound account gets the binding persisted; a bound account's map is left alone |
| Mongo.Network.Bind | connection/database/mongodb/networks.py:45-51 | an account missing from the binding map is bound to the address unless another account holds it (`AddressConflict`, the map unchanged); a bound account leaves the map alone; accounts and sessions never change |
| Mongo.Connection.Create | connection/database/mongodb/networks.py:59-66 | the session has the endpoint key, the account, the network, the address and a 40-character hex key of 20 random bytes, and is appended |
| VpnService.KeyAndNonce | connection/vpn_service.py:26-29 | the key is all but the last 8 bytes and the nonce the last 8; Salsa20 accepts iff the token has 24 or 40 bytes, otherwise `ValueError` |
| VpnService.SessionKeyUsable | connection/vpn_service.py:26-29 | a session key, the hex of 20 random bytes, gives a 32-byte key |
| VpnService.Unpack | connection/vpn_service.py:31-34 | the slicing of `unpack_credentials`, with the username decoded and the password left as raw bytes |
| VpnService.UnpackAgrees | connection/vpn_service.py:31-34 | where `unpack_credentials` succeeds, `unpack` gives the same username and the password's UTF-8 bytes |
| VpnService.UnpackRoundTrip | connection/vpn_service.py:31-34 | a byte-counted frame of an ASCII username and any password unpacks to the username and the password's bytes |
| VpnService.PackData | connection/vpn_service.py:36-40 | the 48-byte reply with a 40-byte key field |
| VpnService.HandshakeRoundTrip | connection/vpn_service.py:36-40 | `VPNClient.authenticate` reads the server's reply as the same dotted address and mask and the 40 key bytes |
| VpnService.ClientReadsServerReply | connection/vpn_service.py:171-184 | for credentials under 256 characters, the client's handshake against this server's reply yields its as-written frame and the server's configuration |
| VpnService.ClientFrameReadByServer | connection/vpn_service.py:31-34 | the frame the client sends for ASCII credentials is read by the server's `unpack` as the same username and the password's bytes |
| VpnService.ConfigurationEndpoint | connection/vpn_service.py:78-79 | the reply goes to the text before the first `:` and the parsed port; `IndexError` without `:`, `ValueError` for a bad port |
| VpnService.ConfigurationEndpointRoundTrip | connection/vpn_service.py:78-79 | a session's endpoint is recovered from its key |
| VpnService.VPNServer.Authenticate | connection/vpn_service.py:42-47 | unpack errors propagate; an unknown username is a `TypeError`; a known account is returned iff `checkpw` accepts the raw password against its hash |
| VpnService.VPNServer.NewConnection | connection/vpn_service.py:88-107 | `None` on a refused password; `IndexError`, `TypeError` or `KeyError` for a missing network or binding, before any write; otherwise the account's sessions are replaced by one with its bound address and a fresh key |
| VpnService.VPNServer.NewConfiguration | connection/vpn_service.py:67-79 | `TypeError` for no session or a missing network; `AttributeError` for a session without an address; otherwise it succeeds iff both the packing and the endpoint parse do, with the packed reply sent to the session's endpoint, and else fails with the first of their errors |
| VpnService.VPNServer.Handshake | connection/vpn_service.py:146 | `new_configuration(new_connection(...))`: authentication errors propagate; a refused password is a `TypeError`; the `new_connection` errors leave the store unchanged; otherwise the account's sessions are superseded by the new one, nothing else changes, and the reply is that session's configuration, sent back to the datagram's own endpoint |
| VpnService.VPNServer.Destination | connection/vpn_service.py:54-65 | `None` for an unknown source; otherwise the first session of the source's network whose address is the packet's destination |
| VpnService.VPNServer.Relayed | connection/vpn_service.py:109-133 | three outcomes: with a destination, re-encrypted with its key and sent to its endpoint; without one and with the tunnel on, the plaintext goes to (dst, dport or 0); otherwise the datagram goes back unchanged; plus the error cases |
| VpnService.VPNServer.SendPacket | connection/vpn_service.py:109-133 | the step-by-step `send_packet` computes exactly `Relayed` |
| VpnService.VPNServer.ServeDatagram | connection/vpn_service.py:138-152 | a datagram from an endpoint with a session is relayed and nothing is written; one without is a handshake: each `new_connection` error ends the loop with the store unchanged, otherwise the sessions are superseded and the loop sends the new session's configuration, a 48-byte reply, or ends with its error; a refused password ends the loop with `TypeError` |
| Monitor.Added | connection/monitor.py:27-30 | each counter grows by exactly its argument |
| Monitor.Difference | connection/monitor.py:19-20 | a sample is each counter's growth since the snapshot |
| Monitor.AddedNeverDecreases | connection/monitor.py:27-30 | with non-negative arguments no counter decreases |
| Monitor.SampleMeasuresTransfers | connection/monitor.py:13-20 | a sample around transfers reports exactly what they added |
| Monitor.AddedAccumulates | connection/monitor.py:27-30 | two transfers add up as one of their total size |
| Monitor.SpeedMonitor.constructor | connection/monitor.py:6-8 | both lists start at `[0, 0]` |
| Monitor.SpeedMonitor.UpdateTransfer | connection/monitor.py:27-30 | `transferred` becomes `Added` of its old value |
| Monitor.SpeedMonitor.Snapshot | connection/monitor.py:13 | the reading of both counters |
| Monitor.SpeedMonitor.Sample | connection/monitor.py:17-20 | `speed` becomes the difference from the snapshot |
| Monitor.SpeedMonitor.CheckSpeedStep | connection/monitor.py:11-20 | one turn of `check_speed` with the transfers made during the wait samples exactly those transfers |

## Left out

- Sockets, `select`, the TUN device, `VPNClient.connect` and `run_server`'s `bind`. A received datagram is an input, and a sent datagram is the returned payload and endpoint.
- Threads and the lock. `send_packet` and `update_transfer` run in threads in the source; here relay is sequential, and an error in the relay thread is modelled as nothing being sent.
- Salsa20, Fernet, bcrypt, `os.urandom` and scapy's packet parsing: they are parameters of the operations that use them.
- `VPNServer.update_transfer` and `VPNServer.new_account`. They are a read-modify-write of a `transfer_ratio` field no modelled operation reads, and bcrypt. Account creation is modelled by `AccountManager.NewAccount`.
- `set_routes`: it only runs route commands.
- The CLI (`__main__.py`, `tests/cli.py`), `connection/network/manager.py` and `connection/database/exceptions.py`. Collections are fields, and `AddressConflict` is an error value.
- `connection/database/mongodb/networks.py` imports its address helpers from a `.methods` module. That module is not part of this model; `new_address` and `network_properties` of the network package stand in for it.
- Mongo.Network.ToNetwork: the account's dictionary entry for the network is modelled as the key alone. The `ip_address: None` value it is set to is not kept.
- `SpeedMonitor.start_monitoring` and the endless `sleep` loop of `check_speed`: one turn is modelled, and the transfers during the wait are given as their totals.
- Monitor.SpeedMonitor.CheckSpeedStep: several transfers during the wait are modelled as one of their total size, which `Monitor.AddedAccumulates` justifies.
- Builtins.ParseInt: `int()` is narrowed to an optional sign and ASCII digits. Surrounding whitespace, underscores between digits and non-ASCII digits, which Python accepts, are rejected. A range or endpoint text with such characters therefore fails here where Python would accept it.
- Text decoding accepts ASCII only. A multi-byte UTF-8 sequence that Python would decode is modelled as a decode failure.
- Integers are unbounded. The source uses Python integers, which are unbounded too.

## Findings

| source | as written | input that shows it | evidently intended | confidence | as-written member | corrected member |
|---|---|---|---|---|---|---|
| connection/authentication.py:9-10 | each length byte is `len()` of the string, a character count, but the field after it is the UTF-8 encoding | username "é", password "": the frame announces 1 byte for 2, so `unpack_credentials` cuts the username to `0xC3` and fails to decode it | the length bytes count the encoded bytes (`Authentication.FieldsRoundTrip`, `VpnService.UnpackRoundTrip`) | not executed | Authentication.AsWrittenMisframes, Reply.ClientHandshake | Authentication.WrapCredentials |
| connection/network/networks.py:23 | `__init__.py:38` passes `account['_id']`, an `ObjectId`, and line 23 compares it with the `str` keys, so the account's own entry is never skipped and its old binding overwrites the new address | account 7 bound to "10.0.0.1" reconnects, and its first membership has the fixed `ip_address` "10.0.0.2" (connections.py:63-64), so it is assigned "10.0.0.2": the map keeps "10.0.0.1", while the reply carries "10.0.0.2". Such a membership beside an older binding needs two memberships of one network, which accounts.py:28 allows because it compares raw id values | the account's entry is replaced by the new address (`str(id)` passed: `Networks.RebuiltBinding`) | not executed | NetworkPackage.Manager.NewConnection, Networks.StaleBindingExample | NetworkPackage.Manager.NewConnectionCorrected |
| connection/database/mongodb/networks.py:41-42 | the binding is looked up with `account.id`, an `ObjectId`, while the keys are `str(account.id)`, so a bound account is never found | network "10.0.0.0/24", `max_address` 2, account 1 bound to "10.0.0.0": account 1 is offered "10.0.0.1" | a bound account keeps its address | not executed | Mongo.ToNetworkIgnoresBindingExample | Mongo.ChosenAddressKeepsBinding |
