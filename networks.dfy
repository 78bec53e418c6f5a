/** `connection/network/networks.py`: `NetworkManager`, which creates networks and
    rewrites a network's account-to-address binding map when an account connects. */
module Networks {
  import opened Wrappers
  import opened Builtins
  import opened Utils
  import opened Store
  import opened Documents

  /** The entries of `connections` among `keys` that the loop of lines 22-25 copies into
      the update: those whose address differs from the new one and whose key is not
      the connecting account. */
  function Kept(connections: map<Oid, string>, keys: set<Oid>, accountId: IdValue, address: string): map<Oid, string> {
    map k | k in keys && k in connections && connections[k] != address && !KeyMatches(k, accountId) :: connections[k]
  }

  /** The binding map after `new_connection(network, account, address)`: the account's
      key set to `address` (line 19) and then overwritten by every copied entry (lines
      22-25); the stored map is replaced by exactly this one (lines 26-27). */
  function Rebuilt(connections: map<Oid, string>, accountId: IdValue, address: string): map<Oid, string> {
    map[accountId.oid := address] + Kept(connections, connections.Keys, accountId, address)
  }

  /** The update after the loop of lines 22-25 has visited the keys `visited`. */
  function PartialUpdate(connections: map<Oid, string>, visited: set<Oid>, accountId: IdValue, address: string): map<Oid, string> {
    map[accountId.oid := address] + Kept(connections, visited, accountId, address)
  }

  /** Visiting key `k` adds its entry to the copied ones exactly when it is kept. */
  lemma KeptStep(connections: map<Oid, string>, visited: set<Oid>, k: Oid, accountId: IdValue, address: string)
    requires k in connections
    ensures Kept(connections, visited + {k}, accountId, address)
      == if connections[k] != address && !KeyMatches(k, accountId)
         then Kept(connections, visited, accountId, address)[k := connections[k]]
         else Kept(connections, visited, accountId, address)
  {
    var kept := Kept(connections, visited, accountId, address);
    var kept' := Kept(connections, visited + {k}, accountId, address);
    if connections[k] != address && !KeyMatches(k, accountId) {
      assert kept' == kept[k := connections[k]];
    } else {
      assert kept' == kept;
    }
  }

  /** One iteration of the loop of lines 22-25, visiting key `k`. */
  lemma RebuildStep(connections: map<Oid, string>, visited: set<Oid>, k: Oid, accountId: IdValue, address: string)
    requires k in connections
    ensures PartialUpdate(connections, visited + {k}, accountId, address)
      == if connections[k] != address && !KeyMatches(k, accountId)
         then PartialUpdate(connections, visited, accountId, address)[k := connections[k]]
         else PartialUpdate(connections, visited, accountId, address)
  {
    KeptStep(connections, visited, k, accountId, address);
    var start := map[accountId.oid := address];
    var kept := Kept(connections, visited, accountId, address);
    if connections[k] != address && !KeyMatches(k, accountId) {
      assert start + kept[k := connections[k]] == (start + kept)[k := connections[k]];
    }
  }

  /** No two accounts are bound to the same address. */
  predicate AddressesUnique(connections: map<Oid, string>) {
    forall k, k' | k in connections && k' in connections && k != k' :: connections[k] != connections[k']
  }

  /** With the account given as `str(ObjectId)`, the account is bound to the new address
      and nobody else is; every other account keeps its address unless it held the new
      one, in which case it loses its binding; no other key appears. */
  lemma RebuiltBinding(connections: map<Oid, string>, account: Oid, address: string)
    ensures var r := Rebuilt(connections, AsString(account), address);
      && account in r && r[account] == address
      && (forall k | k in r && k != account :: r[k] != address)
      && (forall k | k in connections && k != account && connections[k] != address :: k in r && r[k] == connections[k])
      && r.Keys == {account} + (set k | k in connections && connections[k] != address)
  {
    var r := Rebuilt(connections, AsString(account), address);
    var kept := Kept(connections, connections.Keys, AsString(account), address);
    assert account !in kept;
    forall k | k in r && k != account
      ensures r[k] != address
    {
      assert k in kept;
    }
  }

  /** The rebuilt map binds each address to at most one account, whatever the map held
      before. */
  lemma RebuiltAddressesUnique(connections: map<Oid, string>, account: Oid, address: string)
    requires AddressesUnique(connections)
    ensures AddressesUnique(Rebuilt(connections, AsString(account), address))
  {
    var r := Rebuilt(connections, AsString(account), address);
    RebuiltBinding(connections, account, address);
    forall k, k' | k in r && k' in r && k != k'
      ensures r[k] != r[k']
    {
      if k != account && k' != account {
        assert r[k] == connections[k] && r[k'] == connections[k'];
      }
    }
  }

  /** As written, `Manager.new_connection` passes the account id as an `ObjectId`,
      which never equals a stored `str` key (line 23), so an account already bound to
      another address is copied back over its new binding and keeps the old address. */
  lemma RebuiltKeepsStaleBinding(connections: map<Oid, string>, account: Oid, address: string)
    requires account in connections && connections[account] != address
    ensures account in Rebuilt(connections, AsObjectId(account), address)
    ensures Rebuilt(connections, AsObjectId(account), address)[account] == connections[account] != address
  {
    assert account in Kept(connections, connections.Keys, AsObjectId(account), address);
  }

  /** With the `ObjectId`, the rebuilt map is the one the `str` id gives except at the
      account itself, which keeps an old binding that differs from `address`. */
  lemma RebuiltObjectIdBinding(connections: map<Oid, string>, account: Oid, address: string)
    ensures Rebuilt(connections, AsObjectId(account), address)
      == Rebuilt(connections, AsString(account), address)[account :=
           if account in connections && connections[account] != address then connections[account] else address]
  {
    var asWritten := Rebuilt(connections, AsObjectId(account), address);
    var corrected := Rebuilt(connections, AsString(account), address)[account :=
      if account in connections && connections[account] != address then connections[account] else address];
    assert asWritten.Keys == corrected.Keys;
    forall k | k in asWritten
      ensures asWritten[k] == corrected[k]
    {
    }
  }

  /** A concrete instance: account 7 bound to "10.0.0.1", reconnecting with "10.0.0.2". */
  lemma StaleBindingExample()
    ensures Rebuilt(map[7 := "10.0.0.1"], AsObjectId(7), "10.0.0.2") == map[7 := "10.0.0.1"]
    ensures Rebuilt(map[7 := "10.0.0.1"], AsString(7), "10.0.0.2") == map[7 := "10.0.0.2"]
  {
    var m := map[7 := "10.0.0.1"];
    assert Kept(m, m.Keys, AsObjectId(7), "10.0.0.2") == m;
    assert Kept(m, m.Keys, AsString(7), "10.0.0.2") == map[];
  }

  /** `NetworkManager` over the package's database. */
  class NetworkManager {
    const db: Database

    constructor (db: Database)
      ensures this.db == db
    {
      this.db := db;
    }

    /** `new_network(network_range, max_address)`: the range is described by
        `network_properties` (whose errors propagate) and a network holding
        `max_address`, the canonical range and the mask, and no `connections` field,
        is inserted under a fresh id. */
    method NewNetwork(spec: RangeSpec, maxAddress: int) returns (r: Result<Oid, Raised>)
      requires db.FreshIds()
      modifies db
      ensures db.FreshIds()
      ensures PropertiesOf(spec).Err? ==> r == Err(PropertiesOf(spec).error) && unchanged(db)
      ensures PropertiesOf(spec).Ok? ==>
        var properties := PropertiesOf(spec).value;
        && r == Ok(old(db.nextId))
        && old(db.nextId) !in old(db.networks)
        && db.networks == old(db.networks)[old(db.nextId) := NetworkDoc(maxAddress, properties.networkRange, properties.subnetMask, None)]
        && db.nextId == old(db.nextId) + 1
        && db.accounts == old(db.accounts) && db.sessions == old(db.sessions)
    {
      var properties :- NetworkProperties(spec);
      var id := db.InsertNetwork(NetworkDoc(maxAddress, properties.networkRange, properties.subnetMask, None));
      return Ok(id);
    }

    /** The loop of lines 22-25: `update` starts with the account's new binding and
        receives every entry that is kept. */
    method RebuildBindings(connections: map<Oid, string>, accountId: IdValue, address: string) returns (update: map<Oid, string>)
      ensures update == Rebuilt(connections, accountId, address)
    {
      update := map[accountId.oid := address];
      var remaining := connections.Keys;
      ghost var visited: set<Oid> := {};
      assert Kept(connections, visited, accountId, address) == map[];
      while remaining != {}
        invariant remaining <= connections.Keys
        invariant visited == connections.Keys - remaining
        invariant update == PartialUpdate(connections, visited, accountId, address)
        decreases remaining
      {
        var account :| account in remaining;
        var ipAddress := connections[account];
        if !(ipAddress == address || KeyMatches(account, accountId)) {
          update := update[account := ipAddress];
        }
        assert update == PartialUpdate(connections, visited + {account}, accountId, address) by {
          RebuildStep(connections, visited, account, accountId, address);
        }
        remaining := remaining - {account};
        visited := visited + {account};
      }
      assert update == Rebuilt(connections, accountId, address) by {
        assert visited == connections.Keys;
      }
    }

    /** `new_connection(network_id, account_id, address)`: `AttributeError` for a network
        that does not exist; otherwise its binding map is replaced by the rebuilt one.
        Nothing checks the map against `max_address`. */
    method NewConnection(networkId: Oid, accountId: IdValue, address: string) returns (r: Result<(), Raised>)
      modifies db
      ensures networkId !in old(db.networks) ==> r == Err(AttributeError) && unchanged(db)
      ensures networkId in old(db.networks) ==>
        var network := old(db.networks)[networkId];
        && r.Ok?
        && db.networks == old(db.networks)[networkId := network.(connections := Some(Rebuilt(Bindings(network), accountId, address)))]
        && db.accounts == old(db.accounts) && db.sessions == old(db.sessions) && db.nextId == old(db.nextId)
    {
      if networkId !in db.networks {
        return Err(AttributeError);
      }
      var network := db.networks[networkId];
      var update := RebuildBindings(Bindings(network), accountId, address);
      db.networks := db.networks[networkId := network.(connections := Some(update))];
      return Ok(());
    }
  }
}
