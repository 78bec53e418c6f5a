/** `connection/network/accounts.py`: `AccountManager`, which creates accounts with a
    hashed password and edits an account's ordered list of network memberships. */
module Accounts {
  import opened Wrappers
  import opened Builtins
  import opened Store
  import opened Documents

  // ---------------------------------------------------------------------------
  // add_network

  /** Some membership of the list is for network `networkId`. */
  predicate HasNetwork(memberships: seq<Membership>, networkId: Oid) {
    exists i | 0 <= i < |memberships| :: memberships[i].id == networkId
  }

  /** The membership `add_network` appends: temporal exactly when no address is given. */
  function NewMembership(networkId: Oid, isOwner: bool, address: Option<string>): (m: Membership)
    ensures m.id == networkId && m.isOwner == isOwner && m.ipAddress == address
    ensures m.isTemporal <==> address.None?
  {
    Membership(networkId, isOwner, address, address.None?)
  }

  /** Lines 24-35 on the membership list: a missing list becomes empty, and the new
      membership is appended unless one for the same network is already there. */
  function WithNetwork(networks: Option<seq<Membership>>, networkId: Oid, isOwner: bool, address: Option<string>): (r: seq<Membership>)
    ensures HasNetwork(networks.GetOr([]), networkId) ==> r == networks.GetOr([])
    ensures !HasNetwork(networks.GetOr([]), networkId) ==> r == networks.GetOr([]) + [NewMembership(networkId, isOwner, address)]
  {
    var memberships := networks.GetOr([]);
    if HasNetwork(memberships, networkId) then memberships else memberships + [NewMembership(networkId, isOwner, address)]
  }

  /** Adding a network twice is the same as adding it once, whatever the second call's
      owner flag and address. */
  lemma WithNetworkIdempotent(networks: Option<seq<Membership>>, networkId: Oid, isOwner: bool, address: Option<string>, isOwner': bool, address': Option<string>)
    ensures var once := WithNetwork(networks, networkId, isOwner, address);
      WithNetwork(Some(once), networkId, isOwner', address') == once
  {
    var memberships := networks.GetOr([]);
    if !HasNetwork(memberships, networkId) {
      var once := memberships + [NewMembership(networkId, isOwner, address)];
      assert once[|memberships|].id == networkId;
    }
  }

  /** The existing memberships stay as they were, in order, at the front of the list;
      afterwards the network is always among them. */
  lemma WithNetworkKeepsExisting(networks: Option<seq<Membership>>, networkId: Oid, isOwner: bool, address: Option<string>)
    ensures var r := WithNetwork(networks, networkId, isOwner, address);
      && |networks.GetOr([])| <= |r| <= |networks.GetOr([])| + 1
      && r[..|networks.GetOr([])|] == networks.GetOr([])
      && HasNetwork(r, networkId)
  {
    var memberships := networks.GetOr([]);
    if !HasNetwork(memberships, networkId) {
      var r := memberships + [NewMembership(networkId, isOwner, address)];
      assert r[|memberships|].id == networkId;
      assert r[..|memberships|] == memberships;
    }
  }

  // ---------------------------------------------------------------------------
  // switch_network

  /** The second argument of `switch_network`: a list index, or a network id to look
      for. */
  datatype NetworkRef = ByIndex(index: int) | ById(id: Oid)

  /** What `network_id` holds after the loop of lines 43-46: an index is left alone, an
      id becomes the index of its first membership, and an id with none stays an id. */
  function Selected(memberships: seq<Membership>, ref: NetworkRef): (r: NetworkRef)
    ensures ref.ByIndex? ==> r == ref
    ensures ref.ById? && r.ById? ==> r == ref && !HasNetwork(memberships, ref.id)
    ensures ref.ById? && r.ByIndex? ==>
      && 0 <= r.index < |memberships| && memberships[r.index].id == ref.id
      && forall j | 0 <= j < r.index :: memberships[j].id != ref.id
    decreases |memberships|
  {
    if ref.ByIndex? || memberships == [] then ref
    else if memberships[0].id == ref.id then ByIndex(0)
    else match Selected(memberships[1..], ref)
      case ByIndex(i) => ByIndex(i + 1)
      case ById(id) => ById(id)
  }

  /** `list.pop(i)`'s position: a negative index counts from the end; `None` is the
      `IndexError` of an index outside the list. */
  function PopPosition(length: nat, i: int): (r: Option<nat>)
    ensures r.Some? <==> -(length as int) <= i < length
    ensures r.Some? ==> r.value < length && (r.value == i || r.value == i + length)
  {
    if 0 <= i < length then Some(i) else if -(length as int) <= i < 0 then Some(i + length) else None
  }

  /** `insert(0, pop(k))`. */
  function MoveToFront<T>(s: seq<T>, k: nat): (r: seq<T>)
    requires k < |s|
    ensures |r| == |s| && r[0] == s[k]
    ensures r[1..] == s[..k] + s[k + 1..]
  {
    [s[k]] + s[..k] + s[k + 1..]
  }

  /** Moving an element to the front permutes the list. */
  lemma MoveToFrontPermutes<T>(s: seq<T>, k: nat)
    requires k < |s|
    ensures multiset(MoveToFront(s, k)) == multiset(s)
  {
    assert s == s[..k] + [s[k]] + s[k + 1..];
  }

  /** The list after lines 43-49: `TypeError` when no membership has the id, `IndexError`
      when the index is outside the list, otherwise the selected membership moved to
      the front. */
  function Switched(memberships: seq<Membership>, ref: NetworkRef): (r: Result<seq<Membership>, Raised>)
    ensures Selected(memberships, ref).ById? ==> r == Err(TypeError)
    ensures Selected(memberships, ref).ByIndex? ==>
      match PopPosition(|memberships|, Selected(memberships, ref).index)
      case None => r == Err(IndexError)
      case Some(k) => r == Ok(MoveToFront(memberships, k))
  {
    match Selected(memberships, ref)
    case ById(_) => Err(TypeError)
    case ByIndex(i) =>
      match PopPosition(|memberships|, i)
      case None => Err(IndexError)
      case Some(k) => Ok(MoveToFront(memberships, k))
  }

  /** Switching to a network the account belongs to puts its first membership for that
      network at the front; the list is a permutation of the old one, as long, and the
      other memberships keep their relative order. */
  lemma SwitchedById(memberships: seq<Membership>, networkId: Oid)
    requires HasNetwork(memberships, networkId)
    ensures Switched(memberships, ById(networkId)).Ok?
    ensures var r := Switched(memberships, ById(networkId)).value;
      && |r| == |memberships|
      && multiset(r) == multiset(memberships)
      && r[0].id == networkId
      && exists k | 0 <= k < |memberships| :: r[1..] == memberships[..k] + memberships[k + 1..]
  {
    var k := Selected(memberships, ById(networkId)).index;
    MoveToFrontPermutes(memberships, k);
  }

  /** An index is used as the position directly, counted from the end when negative. */
  lemma SwitchedByIndex(memberships: seq<Membership>, i: int)
    ensures -|memberships| <= i < |memberships| ==>
      Switched(memberships, ByIndex(i)) == Ok(MoveToFront(memberships, if i < 0 then i + |memberships| else i))
    ensures !(-|memberships| <= i < |memberships|) ==> Switched(memberships, ByIndex(i)) == Err(IndexError)
  {
  }

  /** `AccountManager` over the package's database. bcrypt's `hashpw` and the salt
      `gensalt` draws are parameters of `new_account`. */
  class AccountManager {
    const db: Database

    constructor (db: Database)
      ensures this.db == db
    {
      this.db := db;
    }

    /** `new_account(username, password)`: the UTF-8 password is hashed and the hash's
        text stored (`UnicodeDecodeError` when the hash is not ASCII); the account is
        inserted under a fresh id, without a `networks` field. */
    method NewAccount(username: string, password: string, hashpw: (seq<byte>, seq<byte>) -> seq<byte>, salt: seq<byte>) returns (r: Result<Oid, Raised>)
      requires db.FreshIds()
      modifies db
      ensures db.FreshIds()
      ensures Decode(hashpw(Encode(password), salt)).None? ==> r == Err(UnicodeDecodeError) && unchanged(db)
      ensures Decode(hashpw(Encode(password), salt)).Some? ==>
        && r == Ok(old(db.nextId))
        && FindAccount(old(db.accounts), old(db.nextId)).None?
        && db.accounts == old(db.accounts) + [AccountDoc(old(db.nextId), username, Decode(hashpw(Encode(password), salt)).value, None)]
        && db.nextId == old(db.nextId) + 1
        && db.networks == old(db.networks) && db.sessions == old(db.sessions)
    {
      var hashed := Decode(hashpw(Encode(password), salt));
      if hashed.None? {
        return Err(UnicodeDecodeError);
      }
      var id := db.nextId;
      db.accounts := db.accounts + [AccountDoc(id, username, hashed.value, None)];
      db.nextId := id + 1;
      return Ok(id);
    }

    /** `add_network(account_id, network_id, is_owner, address)`: `TypeError` for an
        account that does not exist; otherwise its memberships become `WithNetwork` of
        the old ones and the document is written back. */
    method AddNetwork(accountId: Oid, networkId: Oid, isOwner: bool, address: Option<string>) returns (r: Result<(), Raised>)
      modifies db
      ensures FindAccount(old(db.accounts), accountId).None? ==> r == Err(TypeError) && unchanged(db)
      ensures FindAccount(old(db.accounts), accountId).Some? ==>
        var account := FindAccount(old(db.accounts), accountId).value;
        && r.Ok?
        && db.accounts == ReplaceAccount(old(db.accounts), account.(networks := Some(WithNetwork(account.networks, networkId, isOwner, address))))
        && db.networks == old(db.networks) && db.sessions == old(db.sessions) && db.nextId == old(db.nextId)
    {
      var found := FindAccount(db.accounts, accountId);
      if found.None? {
        return Err(TypeError);
      }
      var account := found.value;
      var networks := account.networks.GetOr([]);
      if !HasNetwork(networks, networkId) {
        networks := networks + [NewMembership(networkId, isOwner, address)];
      }
      db.accounts := ReplaceAccount(db.accounts, account.(networks := Some(networks)));
      return Ok(());
    }

    /** `switch_network(account_id, network_id)`: `TypeError` for an account that does
        not exist, `KeyError` for one without memberships, then the loop of lines 43-46
        finds the index and lines 48-49 move that membership to the front. */
    method SwitchNetwork(accountId: Oid, ref: NetworkRef) returns (r: Result<(), Raised>)
      modifies db
      ensures FindAccount(old(db.accounts), accountId).None? ==> r == Err(TypeError) && unchanged(db)
      ensures FindAccount(old(db.accounts), accountId).Some? && FindAccount(old(db.accounts), accountId).value.networks.None? ==>
        r == Err(KeyError) && unchanged(db)
      ensures FindAccount(old(db.accounts), accountId).Some? && FindAccount(old(db.accounts), accountId).value.networks.Some? ==>
        var account := FindAccount(old(db.accounts), accountId).value;
        var switched := Switched(account.networks.value, ref);
        && (switched.Err? ==> r == Err(switched.error) && unchanged(db))
        && (switched.Ok? ==> r.Ok? && db.accounts == ReplaceAccount(old(db.accounts), account.(networks := Some(switched.value))))
        && db.networks == old(db.networks) && db.sessions == old(db.sessions) && db.nextId == old(db.nextId)
    {
      var found := FindAccount(db.accounts, accountId);
      if found.None? {
        return Err(TypeError);
      }
      var account := found.value;
      if account.networks.None? {
        return Err(KeyError);
      }
      var networks := account.networks.value;
      var selector := ref;
      var index := 0;
      while index < |networks|
        invariant 0 <= index <= |networks|
        invariant ref.ByIndex? ==> selector == ref
        invariant ref.ById? && selector.ById? ==> selector == ref && forall j | 0 <= j < index :: networks[j].id != ref.id
        invariant ref.ById? && selector.ByIndex? ==> selector == Selected(networks, ref)
      {
        if selector.ByIndex? {
          break;
        }
        if networks[index].id == selector.id {
          selector := ByIndex(index);
        }
        index := index + 1;
      }
      assert selector == Selected(networks, ref);
      if selector.ById? {
        return Err(TypeError);
      }
      var position := PopPosition(|networks|, selector.index);
      if position.None? {
        return Err(IndexError);
      }
      var k := position.value;
      var popped := networks[k];
      var rest := networks[..k] + networks[k + 1..];
      networks := [popped] + rest;
      assert networks == MoveToFront(account.networks.value, k);
      db.accounts := ReplaceAccount(db.accounts, account.(networks := Some(networks)));
      return Ok(());
    }
  }
}
