/** The documents of the `connection/network` package's database: accounts with their
    list of network memberships, networks with their account-to-address binding
    map, and the shared sessions collection. */
module Documents {
  import opened Wrappers
  import opened Builtins
  import opened Store

  /** One entry of an account's `networks` list. */
  datatype Membership = Membership(id: Oid, isOwner: bool, ipAddress: Option<string>, isTemporal: bool)

  /** An account; `networks` is `None` until `add_network` first writes the field. */
  datatype AccountDoc = AccountDoc(id: Oid, username: string, password: string, networks: Option<seq<Membership>>)

  /** A network; `connections` maps `str(account id)` to the bound address and is
      `None` until the first binding is written. */
  datatype NetworkDoc = NetworkDoc(maxAddress: int, networkRange: string, subnetMask: string, connections: Option<map<Oid, string>>)

  /** The binding map, `network.get('connections', {})`. */
  function Bindings(network: NetworkDoc): map<Oid, string> {
    network.connections.GetOr(map[])
  }

  /** `find_one({'_id': id})` on the accounts collection. */
  function FindAccount(accounts: seq<AccountDoc>, id: Oid): (r: Option<AccountDoc>)
    ensures r.None? <==> forall a | a in accounts :: a.id != id
    ensures r.Some? ==> r.value in accounts && r.value.id == id
  {
    if accounts == [] then None
    else if accounts[0].id == id then Some(accounts[0])
    else FindAccount(accounts[1..], id)
  }

  /** `find_one({'username': username})`. */
  function FindUsername(accounts: seq<AccountDoc>, username: string): (r: Option<AccountDoc>)
    ensures r.None? <==> forall a | a in accounts :: a.username != username
    ensures r.Some? ==> r.value in accounts && r.value.username == username
  {
    if accounts == [] then None
    else if accounts[0].username == username then Some(accounts[0])
    else FindUsername(accounts[1..], username)
  }

  /** `update_one({'_id': a.id}, {'$set': ...every other field of a...})`: the first
      account with that id takes the new field values; nothing else changes. */
  function ReplaceAccount(accounts: seq<AccountDoc>, a: AccountDoc): (r: seq<AccountDoc>)
    ensures |r| == |accounts|
    ensures FindAccount(accounts, a.id).Some? ==> FindAccount(r, a.id) == Some(a)
    ensures FindAccount(accounts, a.id).None? ==> r == accounts
    ensures forall i | 0 <= i < |r| :: r[i] == accounts[i] || (accounts[i].id == a.id && r[i] == a)
  {
    if accounts == [] then []
    else if accounts[0].id == a.id then [a] + accounts[1..]
    else
      var rest := ReplaceAccount(accounts[1..], a);
      assert forall i | 1 <= i < |accounts| :: ([accounts[0]] + rest)[i] == rest[i - 1];
      assert accounts == [accounts[0]] + accounts[1..];
      [accounts[0]] + rest
  }

  /** The network package's database, one field per collection; `nextId` stands for
      the fresh `ObjectId` an insert generates. */
  class Database {
    var accounts: seq<AccountDoc>
    var networks: map<Oid, NetworkDoc>
    var sessions: seq<Session>
    var nextId: Oid

    /** Every stored id was handed out before `nextId`, so `nextId` is fresh. */
    predicate FreshIds()
      reads this
    {
      && (forall id | id in networks :: id < nextId)
      && (forall a | a in accounts :: a.id < nextId)
    }

    constructor ()
      ensures accounts == [] && networks == map[] && sessions == [] && nextId == 0
      ensures FreshIds()
    {
      accounts := [];
      networks := map[];
      sessions := [];
      nextId := 0;
    }

    /** `insert_one` on the networks collection: the document is stored under a fresh
        id. */
    method InsertNetwork(doc: NetworkDoc) returns (newId: Oid)
      requires FreshIds()
      modifies this
      ensures FreshIds()
      ensures newId == old(nextId) && newId !in old(networks)
      ensures networks == old(networks)[newId := doc] && nextId == old(nextId) + 1
      ensures accounts == old(accounts) && sessions == old(sessions)
    {
      newId := nextId;
      networks := networks[newId := doc];
      nextId := newId + 1;
    }
  }
}
