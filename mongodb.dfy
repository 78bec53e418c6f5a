/** `connection/database/mongodb/networks.py`: the `vpn_service` variant's network and
    session records. `Network` picks an address by scanning candidates and binds an
    account to it, raising `AddressConflict` for an address already held; `Connection`
    inserts a session with a random hex key. The address helpers it imports are taken
    to be `new_address` and `network_properties` of the network package. */
module Mongo {
  import opened Wrappers
  import opened Builtins
  import opened Utils
  import opened Store
  import opened Connections

  /** An account of this variant: `networks` is a dictionary keyed by `str(network id)`,
      kept here as its keys in insertion order (the values are always
      `{'ip_address': None}`). */
  datatype AccountRecord = AccountRecord(id: Oid, username: string, password: string, networks: seq<Oid>)

  /** A network of this variant: `connections` maps `str(account id)` to the address
      bound to it, which may be `None`. */
  datatype NetworkRecord = NetworkRecord(maxAddress: int, networkRange: string, subnetMask: string, connections: map<Oid, Option<string>>)

  /** `find_one({'_id': id})` on this variant's accounts. */
  function FindRecord(accounts: seq<AccountRecord>, id: Oid): (r: Option<AccountRecord>)
    ensures r.None? <==> forall a | a in accounts :: a.id != id
    ensures r.Some? ==> r.value in accounts && r.value.id == id
  {
    if accounts == [] then None
    else if accounts[0].id == id then Some(accounts[0])
    else FindRecord(accounts[1..], id)
  }

  /** `find_one({'username': username})` on this variant's accounts. */
  function FindRecordByName(accounts: seq<AccountRecord>, username: string): (r: Option<AccountRecord>)
    ensures r.None? <==> forall a | a in accounts :: a.username != username
    ensures r.Some? ==> r.value in accounts && r.value.username == username
  {
    if accounts == [] then None
    else if accounts[0].username == username then Some(accounts[0])
    else FindRecordByName(accounts[1..], username)
  }

  /** `update_one({'_id': a.id}, {'$set': ...})` on this variant's accounts. */
  function ReplaceRecord(accounts: seq<AccountRecord>, a: AccountRecord): (r: seq<AccountRecord>)
    ensures |r| == |accounts|
    ensures FindRecord(accounts, a.id).Some? ==> FindRecord(r, a.id) == Some(a)
    ensures forall i | 0 <= i < |r| :: r[i] == accounts[i] || (accounts[i].id == a.id && r[i] == a)
  {
    if accounts == [] then []
    else if accounts[0].id == a.id then [a] + accounts[1..]
    else
      var rest := ReplaceRecord(accounts[1..], a);
      assert forall i | 1 <= i < |accounts| :: ([accounts[0]] + rest)[i] == rest[i - 1];
      [accounts[0]] + rest
  }

  /** `d[key] = ...` on a dictionary of keys in insertion order: a new key goes last, an
      existing one keeps its place. */
  function WithKey(keys: seq<Oid>, key: Oid): (r: seq<Oid>)
    ensures key in r && forall k | k in keys :: k in r
    ensures key in keys ==> r == keys
    ensures key !in keys ==> r == keys + [key]
  {
    if key in keys then keys else keys + [key]
  }

  /** The addresses a binding map holds. */
  function HeldAddresses(connections: map<Oid, Option<string>>): (r: set<string>)
    ensures forall a :: a in r <==> Some(a) in connections.Values
  {
    set k | k in connections && connections[k].Some? :: connections[k].value
  }

  /** The database of this variant, one field per collection. */
  class MongoDatabase {
    var accounts: seq<AccountRecord>
    var networks: map<Oid, NetworkRecord>
    var sessions: seq<Session>
    var nextId: Oid

    /** Every stored id was handed out before `nextId`. */
    predicate FreshIds()
      reads this
    {
      && (forall id | id in networks :: id < nextId)
      && (forall a | a in accounts :: a.id < nextId)
    }

    constructor ()
      ensures accounts == [] && networks == map[] && sessions == [] && nextId == 0
      ensures FreshIds()
    {
      accounts := [];
      networks := map[];
      sessions := [];
      nextId := 0;
    }

    /** `insert_one` on the networks collection: the record is stored under a fresh id. */
    method InsertNetwork(record: NetworkRecord) returns (newId: Oid)
      requires FreshIds()
      modifies this
      ensures FreshIds()
      ensures newId == old(nextId) && newId !in old(networks)
      ensures networks == old(networks)[newId := record] && nextId == old(nextId) + 1
      ensures accounts == old(accounts) && sessions == old(sessions)
    {
      newId := nextId;
      networks := networks[newId := record];
      nextId := newId + 1;
    }
  }

  // ---------------------------------------------------------------------------
  // Network._get_address

  /** The loop of lines 24-29 from `addressId` on, `last` being the address tried
      before: it stops at the first candidate no account holds, and otherwise ends with
      the last candidate tried. */
  function AddressScan(base: string, addressId: nat, max: int, held: set<string>, last: Option<string>): (r: Result<Option<string>, Raised>)
    ensures r.Err? <==> addressId < max && NewAddressOf(base, addressId).Err?
    ensures r.Err? ==> r.error == NewAddressOf(base, addressId).error
    decreases max - addressId
  {
    if addressId >= max then Ok(last)
    else match NewAddressOf(base, addressId)
      case Err(e) => Err(e)
      case Ok(address) =>
        if address !in held then Ok(Some(address))
        else
          var rest := AddressScan(base, addressId + 1, max, held, Some(address));
          assert NewAddressOf(base, addressId + 1).Err? ==> false;
          rest
  }

  /** `_get_address()` of a stored network. */
  function NetworkAddress(network: NetworkRecord): Result<Option<string>, Raised> {
    AddressScan(Split(network.networkRange, '/')[0], 0, network.maxAddress, HeldAddresses(network.connections), None)
  }

  /** `_get_address` agrees with `assign_address`'s first-free scan whenever that
      scan fails or finds a free candidate. */
  lemma {:induction false} AddressScanIsFirstFree(base: string, addressId: nat, max: int, held: set<string>, last: Option<string>)
    ensures var scan := FirstFreeIndex(base, addressId, max, held);
      var r := AddressScan(base, addressId, max, held, last);
      && (scan.Err? ==> r == Err(scan.error))
      && (scan.Ok? && scan.value.Some? ==> r == Ok(Some(NewAddressOf(base, scan.value.value).value)))
    decreases max - addressId
  {
    if addressId < max {
      var candidate := NewAddressOf(base, addressId);
      if candidate.Ok? && candidate.value in held {
        AddressScanIsFirstFree(base, addressId + 1, max, held, Some(candidate.value));
        assert FirstFreeIndex(base, addressId, max, held) == FirstFreeIndex(base, addressId + 1, max, held);
        assert AddressScan(base, addressId, max, held, last) == AddressScan(base, addressId + 1, max, held, Some(candidate.value));
      }
    }
  }

  /** When every candidate is held, `_get_address` returns the last one, which is
      held; with no candidate at all it returns the address it started with, `None`. */
  lemma {:induction false} AddressScanExhausted(base: string, addressId: nat, max: int, held: set<string>, last: Option<string>)
    requires FirstFreeIndex(base, addressId, max, held) == Ok(None)
    ensures addressId >= max ==> AddressScan(base, addressId, max, held, last) == Ok(last)
    ensures addressId < max ==>
      && NewAddressOf(base, max - 1).Ok? && NewAddressOf(base, max - 1).value in held
      && AddressScan(base, addressId, max, held, last) == Ok(Some(NewAddressOf(base, max - 1).value))
    decreases max - addressId
  {
    if addressId < max {
      var candidate := NewAddressOf(base, addressId);
      assert candidate.Ok? && candidate.value in held;
      assert FirstFreeIndex(base, addressId, max, held) == FirstFreeIndex(base, addressId + 1, max, held);
      AddressScanExhausted(base, addressId + 1, max, held, Some(candidate.value));
      assert AddressScan(base, addressId, max, held, last) == AddressScan(base, addressId + 1, max, held, Some(candidate.value));
      if addressId + 1 >= max {
        assert addressId == max - 1;
      }
    }
  }

  // ---------------------------------------------------------------------------
  // Network.to_network

  /** The address line 41-42 settle on: `_get_address()` is evaluated first (its errors
      propagate), and it is the result unless `lookup` finds a stored key. As written
      the lookup is the `ObjectId`, `AsObjectId`, which finds none. */
  function ChosenAddress(network: NetworkRecord, lookup: IdValue): (r: Result<Option<string>, Raised>)
    ensures NetworkAddress(network).Err? ==> r == Err(NetworkAddress(network).error)
    ensures NetworkAddress(network).Ok? && lookup.AsString? && lookup.oid in network.connections ==> r == Ok(network.connections[lookup.oid])
    ensures NetworkAddress(network).Ok? && !(lookup.AsString? && lookup.oid in network.connections) ==> r == NetworkAddress(network)
  {
    var fallback :- NetworkAddress(network);
    if KeyMatches(lookup.oid, lookup) && lookup.oid in network.connections then Ok(network.connections[lookup.oid]) else Ok(fallback)
  }

  /** As written, an account already bound in the network gets `_get_address()`'s
      candidate back, not its binding, and the map is not touched. */
  lemma ChosenAddressIgnoresBinding(network: NetworkRecord, account: Oid)
    requires account in network.connections && NetworkAddress(network).Ok?
    ensures ChosenAddress(network, AsObjectId(account)) == NetworkAddress(network)
  {
  }

  /** Looking the account up by `str(account id)`, as the keys are stored, returns its
      binding. */
  lemma ChosenAddressKeepsBinding(network: NetworkRecord, account: Oid)
    requires account in network.connections && NetworkAddress(network).Ok?
    ensures ChosenAddress(network, AsString(account)) == Ok(network.connections[account])
  {
  }

  /** No two accounts share an address that is set. */
  predicate BindingsUnique(connections: map<Oid, Option<string>>) {
    forall k, k' | k in connections && k' in connections && k != k' && connections[k].Some? :: connections[k] != connections[k']
  }

  /** The binding `to_network` persists keeps set addresses unique: it is only written
      when the address is not held already. */
  lemma BindingKeepsUnique(connections: map<Oid, Option<string>>, account: Oid, address: Option<string>)
    requires BindingsUnique(connections) && account !in connections && address !in connections.Values
    ensures BindingsUnique(connections[account := address])
  {
    var c := connections[account := address];
    forall k, k' | k in c && k' in c && k != k' && c[k].Some?
      ensures c[k] != c[k']
    {
      if k == account {
        assert c[k'] == connections[k'] && connections[k'] in connections.Values;
      } else if k' == account {
        assert c[k] == connections[k] && connections[k] in connections.Values;
      }
    }
  }

  /** A counterexample for the lookup of line 42: network "10.0.0.0/24" with two
      candidates binds account 1 to "10.0.0.0"; `to_network` for account 1 returns
      "10.0.0.1" although the account is bound to "10.0.0.0". */
  lemma ToNetworkIgnoresBindingExample()
    ensures var network := NetworkRecord(2, "10.0.0.0/24", "255.255.255.0", map[1 := Some("10.0.0.0")]);
      && NetworkAddress(network) == Ok(Some("10.0.0.1"))
      && ChosenAddress(network, AsObjectId(1)) == Ok(Some("10.0.0.1"))
      && ChosenAddress(network, AsString(1)) == Ok(Some("10.0.0.0"))
  {
    var network := NetworkRecord(2, "10.0.0.0/24", "255.255.255.0", map[1 := Some("10.0.0.0")]);
    ExampleRangeBase();
    ExampleHeld();
    ExampleCandidates();
    assert NetworkAddress(network) == AddressScan("10.0.0.0", 0, 2, {"10.0.0.0"}, None);
    assert AddressScan("10.0.0.0", 0, 2, {"10.0.0.0"}, None) == AddressScan("10.0.0.0", 1, 2, {"10.0.0.0"}, Some("10.0.0.0"));
  }

  lemma ExampleRangeBase()
    ensures Split("10.0.0.0/24", '/')[0] == "10.0.0.0"
  {
    assert "10.0.0.0/24" == "10.0.0.0" + ['/'] + "24";
    SplitPair("10.0.0.0", "24", '/');
  }

  lemma ExampleHeld()
    ensures HeldAddresses(map[1 := Some("10.0.0.0")]) == {"10.0.0.0"}
  {
    HeldSingle(1, "10.0.0.0");
  }

  lemma HeldSingle(k: Oid, address: string)
    ensures HeldAddresses(map[k := Some(address)]) == {address}
  {
    var m := map[k := Some(address)];
    assert m[k] == Some(address);
    assert forall a | a in HeldAddresses(m) :: a == address;
  }

  lemma ExampleCandidates()
    ensures NewAddressOf("10.0.0.0", 0) == Ok("10.0.0.0") && NewAddressOf("10.0.0.0", 1) == Ok("10.0.0.1")
    ensures "10.0.0.1" != "10.0.0.0"
  {
    ExampleCandidate0();
    ExampleCandidate1();
    assert "10.0.0.1"[7] != "10.0.0.0"[7];
  }

  lemma ExampleCandidate0()
    ensures NewAddressOf("10.0.0.0", 0) == Ok("10.0.0.0")
  {
    Text10000();
    NormalisedInRange([10, 0, 0, 0]);
    NewAddressOfDotted([10, 0, 0, 0], 0, [10, 0, 0, 0], "10.0.0.0");
  }

  lemma ExampleCandidate1()
    ensures NewAddressOf("10.0.0.0", 1) == Ok("10.0.0.1")
  {
    Text10000();
    Text10001();
    NormalisedInRange([10, 0, 0, 1]);
    NewAddressOfDotted([10, 0, 0, 0], 1, [10, 0, 0, 1], "10.0.0.1");
  }

  // ---------------------------------------------------------------------------
  // The record classes

  /** `Network(collection, id)`: a handle on one network record. */
  class Network {
    const db: MongoDatabase
    var id: Oid

    constructor (db: MongoDatabase, id: Oid)
      ensures this.db == db && this.id == id
    {
      this.db := db;
      this.id := id;
    }

    /** `create(network_range, max_address)`: `network_properties` describes the range
        (its errors propagate) and a record with an empty binding map is inserted under
        a fresh id, which the handle takes. */
    method Create(spec: RangeSpec, maxAddress: int) returns (r: Result<Oid, Raised>)
      requires db.FreshIds()
      modifies this, db
      ensures db.FreshIds()
      ensures PropertiesOf(spec).Err? ==> r == Err(PropertiesOf(spec).error) && unchanged(db) && id == old(id)
      ensures PropertiesOf(spec).Ok? ==>
        var properties := PropertiesOf(spec).value;
        && r == Ok(old(db.nextId)) && id == old(db.nextId)
        && old(db.nextId) !in old(db.networks)
        && db.networks == old(db.networks)[old(db.nextId) := NetworkRecord(maxAddress, properties.networkRange, properties.subnetMask, map[])]
        && db.nextId == old(db.nextId) + 1
        && db.accounts == old(db.accounts) && db.sessions == old(db.sessions)
    {
      var properties :- NetworkProperties(spec);
      var newId := db.InsertNetwork(NetworkRecord(maxAddress, properties.networkRange, properties.subnetMask, map[]));
      id := newId;
      return Ok(newId);
    }

    /** `_get_address()`: `TypeError` when the record does not exist, otherwise the scan
        of lines 24-29, stopping at the first free candidate. */
    method GetAddress() returns (r: Result<Option<string>, Raised>)
      ensures id !in db.networks ==> r == Err(TypeError)
      ensures id in db.networks ==> r == NetworkAddress(db.networks[id])
    {
      if id !in db.networks {
        return Err(TypeError);
      }
      var network := db.networks[id];
      var base := Split(network.networkRange, '/')[0];
      var held := HeldAddresses(network.connections);
      var address: Option<string> := None;
      var addressId: nat := 0;
      while addressId < network.maxAddress
        invariant AddressScan(base, 0, network.maxAddress, held, None) == AddressScan(base, addressId, network.maxAddress, held, address)
        decreases network.maxAddress - addressId
      {
        var candidate :- NewAddress(base, addressId);
        address := Some(candidate);
        if Some(candidate) !in network.connections.Values {
          break;
        }
        addressId := addressId + 1;
      }
      return Ok(address);
    }

    /** `to_network(account)`, as written:
        - `TypeError` when the network or the account does not exist;
        - the account's `networks` entry for this network is always (re)set and
          persisted, since the check of line 36 compares an `ObjectId` with `str` keys;
        - the address is `ChosenAddress` with the `ObjectId` lookup of line 42;
        - an account not yet bound is bound to it, unless another account holds it
          (`AddressConflict`, and the binding is not persisted); a bound account's
          map is left alone. */
    method ToNetwork(accountId: Oid) returns (r: Result<Option<string>, Raised>)
      modifies db
      ensures id !in old(db.networks) || FindRecord(old(db.accounts), accountId).None? ==> r == Err(TypeError) && unchanged(db)
      ensures id in old(db.networks) && FindRecord(old(db.accounts), accountId).Some? ==>
        var network := old(db.networks)[id];
        var account := FindRecord(old(db.accounts), accountId).value;
        var chosen := ChosenAddress(network, AsObjectId(accountId));
        && db.accounts == ReplaceRecord(old(db.accounts), account.(networks := WithKey(account.networks, id)))
        && db.sessions == old(db.sessions) && db.nextId == old(db.nextId)
        && (chosen.Err? ==> r == chosen && db.networks == old(db.networks))
        && (chosen.Ok? && accountId in network.connections ==> r == chosen && db.networks == old(db.networks))
        && (chosen.Ok? && accountId !in network.connections && chosen.value in network.connections.Values ==>
              r == Err(AddressConflict(chosen.value)) && db.networks == old(db.networks))
        && (chosen.Ok? && accountId !in network.connections && chosen.value !in network.connections.Values ==>
              && r == chosen
              && db.networks == old(db.networks)[id := network.(connections := network.connections[accountId := chosen.value])])
    {
      if id !in db.networks {
        return Err(TypeError);
      }
      var network := db.networks[id];
      var found := FindRecord(db.accounts, accountId);
      if found.None? {
        return Err(TypeError);
      }
      var account := found.value;
      db.accounts := ReplaceRecord(db.accounts, account.(networks := WithKey(account.networks, id)));
      var fallback :- GetAddress();
      // `connections.get(account.id, fallback)`: the `ObjectId` matches no `str` key.
      var ipAddress := fallback;
      r := Bind(network, accountId, ipAddress);
    }

    /** Lines 45-51: an account not yet in `network`'s binding map is bound to
        `ipAddress` unless another account holds it; the address is returned. */
    method Bind(network: NetworkRecord, accountId: Oid, ipAddress: Option<string>) returns (r: Result<Option<string>, Raised>)
      requires id in db.networks && db.networks[id] == network
      modifies db
      ensures db.accounts == old(db.accounts) && db.sessions == old(db.sessions) && db.nextId == old(db.nextId)
      ensures accountId in network.connections ==> r == Ok(ipAddress) && db.networks == old(db.networks)
      ensures accountId !in network.connections && ipAddress in network.connections.Values ==>
        r == Err(AddressConflict(ipAddress)) && db.networks == old(db.networks)
      ensures accountId !in network.connections && ipAddress !in network.connections.Values ==>
        && r == Ok(ipAddress)
        && db.networks == old(db.networks)[id := network.(connections := network.connections[accountId := ipAddress])]
    {
      if accountId !in network.connections {
        var connections := network.connections[accountId := ipAddress];
        if ipAddress in network.connections.Values {
          return Err(AddressConflict(ipAddress));
        }
        db.networks := db.networks[id := network.(connections := connections)];
      }
      return Ok(ipAddress);
    }
  }

  /** `Connection(collection)`: the sessions of this variant. */
  class Connection {
    const db: MongoDatabase
    const length: nat := 40

    constructor (db: MongoDatabase)
      ensures this.db == db
    {
      this.db := db;
    }

    /** `create(network, account, ip_address, socket)`: a session keyed by the
        endpoint, whose key is the hex text of `length / 2` random bytes (`entropy`,
        what `os.urandom` returns), is appended to the collection and returned. */
    method Create(networkId: Oid, accountId: Oid, ipAddress: Option<string>, endpoint: Endpoint, entropy: seq<byte>) returns (session: Session)
      requires |entropy| == length / 2
      modifies db
      ensures session == Session(EndpointKey(endpoint), accountId, networkId, ipAddress, Hex(entropy))
      ensures |session.encrypt| == length && IsAscii(session.encrypt)
      ensures db.sessions == old(db.sessions) + [session]
      ensures db.accounts == old(db.accounts) && db.networks == old(db.networks) && db.nextId == old(db.nextId)
    {
      session := Session(EndpointKey(endpoint), accountId, networkId, ipAddress, Hex(entropy));
      db.sessions := db.sessions + [session];
    }
  }
}
