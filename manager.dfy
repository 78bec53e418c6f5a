/** `connection/network/__init__.py`: `Manager`, which runs a handshake datagram
    through the package's three managers over one database. */
module NetworkPackage {
  import opened Wrappers
  import opened Builtins
  import opened Store
  import opened Documents
  import opened Authentication
  import opened Reply
  import opened Connections
  import opened Networks
  import opened Accounts

  class Manager {
    const db: Database
    const networks: NetworkManager
    const accounts: AccountManager
    const connections: ConnectionManager

    /** The three managers share the manager's database. */
    predicate Valid() {
      networks.db == db && accounts.db == db && connections.db == db
    }

    constructor (db: Database)
      ensures this.db == db && Valid()
    {
      this.db := db;
      networks := new NetworkManager(db);
      accounts := new AccountManager(db);
      connections := new ConnectionManager(db);
    }

    /** `new_connection(connection)` for a handshake datagram from `endpoint`:
        - a frame that cannot be unpacked raises, and nothing is written;
        - a status other than success is the whole reply, and nothing is written;
        - a missing or empty membership list (`KeyError`, `IndexError`) or a first
          network that does not exist (`TypeError`) raises before anything is written;
        - otherwise the account's sessions are superseded by a new one, and from then
          on the sessions stay written: an address that cannot be allotted raises
          (`AttributeError` when the range is exhausted) and a reply that cannot be
          packed raises `ValueError`, both with the networks untouched;
        - otherwise the first network's binding map is rebuilt around the allotted
          address, passing the account's `ObjectId`, and the packed configuration is
          the reply.
        No account is changed and no id is drawn. */
    method NewConnection(packet: seq<byte>, endpoint: Endpoint, checkpw: (seq<byte>, seq<byte>) -> bool, key: string) returns (r: Result<seq<byte>, Raised>)
      requires Valid()
      modifies db
      ensures var outcome := old(connections.Authenticate(packet, checkpw));
        && (outcome.Err? ==> r == Err(outcome.error) && unchanged(db))
        && (outcome.Ok? && outcome.value.status != Success ==> r == Ok([outcome.value.status]) && unchanged(db))
      ensures var outcome := old(connections.Authenticate(packet, checkpw));
        outcome.Ok? && outcome.value.status == Success ==>
          var account := outcome.value.account.value;
          && (FirstMembership(account).Err? ==> r == Err(FirstMembership(account).error) && unchanged(db))
          && (FirstMembership(account).Ok? && FirstMembership(account).value.id !in old(db.networks) ==>
                r == Err(TypeError) && unchanged(db))
          && (FirstMembership(account).Ok? && FirstMembership(account).value.id in old(db.networks) ==>
                var networkId := FirstMembership(account).value.id;
                var network := old(db.networks)[networkId];
                var allotted := AssignedAddress(network, account);
                && db.sessions == Supersede(old(db.sessions), NewSession(account, networkId, endpoint, key))
                && db.accounts == old(db.accounts) && db.nextId == old(db.nextId)
                && (allotted == Ok(None) ==> r == Err(AttributeError) && db.networks == old(db.networks))
                && (allotted.Err? ==> r == Err(allotted.error) && db.networks == old(db.networks))
                && (allotted.Ok? && allotted.value.Some? ==>
                      var packed := PackConfiguration(allotted.value.value, network.subnetMask, Encode(key), 44);
                      && (packed.Err? ==> r == Err(ValueError) && db.networks == old(db.networks))
                      && (packed.Ok? ==>
                            && r == Ok(packed.value)
                            && db.networks == old(db.networks)[networkId := network.(connections :=
                                 Some(Rebuilt(Bindings(network), AsObjectId(account.id), allotted.value.value)))])))
    {
      var outcome :- connections.Authenticate(packet, checkpw);
      if outcome.status != Success {
        return Ok([outcome.status]);
      }
      var account := outcome.account.value;
      var membership :- FirstMembership(account);
      var networkId := membership.id;
      var reply :- connections.PackData(account, endpoint, key);
      var (configuration, ipAddress) := reply;
      var bound := networks.NewConnection(networkId, AsObjectId(account.id), ipAddress);
      assert bound.Ok?;
      return Ok(configuration);
    }

    /** `NewConnection` with `str(account id)` passed to the binding rebuild, as the
        rebuild's own comparison expects: the account ends up bound to exactly the
        address its configuration packet carries, and no other key is bound to it. */
    method NewConnectionCorrected(packet: seq<byte>, endpoint: Endpoint, checkpw: (seq<byte>, seq<byte>) -> bool, key: string) returns (r: Result<seq<byte>, Raised>)
      requires Valid()
      modifies db
      ensures var outcome := old(connections.Authenticate(packet, checkpw));
        && (outcome.Err? ==> r == Err(outcome.error) && unchanged(db))
        && (outcome.Ok? && outcome.value.status != Success ==> r == Ok([outcome.value.status]) && unchanged(db))
      ensures var outcome := old(connections.Authenticate(packet, checkpw));
        outcome.Ok? && outcome.value.status == Success ==>
          var account := outcome.value.account.value;
          && (FirstMembership(account).Err? ==> r == Err(FirstMembership(account).error) && unchanged(db))
          && (FirstMembership(account).Ok? && FirstMembership(account).value.id !in old(db.networks) ==>
                r == Err(TypeError) && unchanged(db))
          && (FirstMembership(account).Ok? && FirstMembership(account).value.id in old(db.networks) ==>
                var networkId := FirstMembership(account).value.id;
                var network := old(db.networks)[networkId];
                var allotted := AssignedAddress(network, account);
                && db.sessions == Supersede(old(db.sessions), NewSession(account, networkId, endpoint, key))
                && db.accounts == old(db.accounts) && db.nextId == old(db.nextId)
                && (allotted == Ok(None) ==> r == Err(AttributeError) && db.networks == old(db.networks))
                && (allotted.Err? ==> r == Err(allotted.error) && db.networks == old(db.networks))
                && (allotted.Ok? && allotted.value.Some? ==>
                      var packed := PackConfiguration(allotted.value.value, network.subnetMask, Encode(key), 44);
                      && (packed.Err? ==> r == Err(ValueError) && db.networks == old(db.networks))
                      && (packed.Ok? ==>
                            && r == Ok(packed.value)
                            && db.networks == old(db.networks)[networkId := network.(connections :=
                                 Some(Rebuilt(Bindings(network), AsString(account.id), allotted.value.value)))])))
      ensures r.Ok? && |r.value| != 1 ==>
        && UnpackCredentials(packet).Ok?
        && var (username, password) := UnpackCredentials(packet).value;
        && FindUsername(old(db.accounts), username).Some?
        && var account := FindUsername(old(db.accounts), username).value;
        && checkpw(Encode(password), Encode(account.password))
        && account.networks.Some? && account.networks.value != []
        && var networkId := account.networks.value[0].id;
        && networkId in old(db.networks) && networkId in db.networks
        && account.id in Bindings(db.networks[networkId])
        && PackConfiguration(Bindings(db.networks[networkId])[account.id], old(db.networks)[networkId].subnetMask, Encode(key), 44) == Ok(r.value)
        && (forall k | k in Bindings(db.networks[networkId]) && k != account.id ::
              Bindings(db.networks[networkId])[k] != Bindings(db.networks[networkId])[account.id])
    {
      var outcome :- connections.Authenticate(packet, checkpw);
      if outcome.status != Success {
        return Ok([outcome.status]);
      }
      var account := outcome.account.value;
      var membership :- FirstMembership(account);
      var networkId := membership.id;
      var reply :- connections.PackData(account, endpoint, key);
      var (configuration, ipAddress) := reply;
      var bound := networks.NewConnection(networkId, AsString(account.id), ipAddress);
      assert bound.Ok?;
      RebuiltBinding(Bindings(old(db.networks)[networkId]), account.id, ipAddress);
      return Ok(configuration);
    }
  }
}
