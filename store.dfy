/** What both server variants keep in MongoDB, reduced to values: object ids, UDP
    endpoints and their `"ip:port"` keys, and the `connections` collection of
    sessions, in which a new session first deletes every session of its account. */
module Store {
  import opened Wrappers
  import opened Builtins

  /** A MongoDB `ObjectId`. Documents keep foreign ids either as the `ObjectId` itself
      or, as keys of a binding map, as `str(ObjectId)`; one `Oid` stands for both. */
  type Oid = nat

  /** A value compared against a stored `str(ObjectId)` key: the id as a string
      matches the key of the same id, the id as an `ObjectId` matches no string. */
  datatype IdValue = AsObjectId(oid: Oid) | AsString(oid: Oid)

  predicate KeyMatches(key: Oid, v: IdValue) {
    v.AsString? && v.oid == key
  }

  /** A UDP endpoint, the `(host, port)` pair of `recvfrom`. */
  datatype Endpoint = Endpoint(host: string, port: int)

  /** `':'.join(map(str, endpoint))`, the key a session is filed under. */
  function EndpointKey(e: Endpoint): string {
    e.host + ":" + IntToString(e.port)
  }

  /** `key.split(':')` with `int()` on the port, followed by `sendto`, which wants
      exactly a pair: `IndexError` without a `:`, `ValueError` for a port that is not
      a number, `TypeError` when the host itself holds a `:`. */
  function ParseEndpoint(key: string): (r: Result<Endpoint, Raised>)
    ensures r.Ok? <==> |Split(key, ':')| == 2 && ParseInt(Split(key, ':')[1]).Some?
    ensures r.Ok? ==> r.value.host == Split(key, ':')[0] && ':' !in r.value.host
    ensures r.Ok? ==> Some(r.value.port) == ParseInt(Split(key, ':')[1])
  {
    var parts := Split(key, ':');
    if |parts| < 2 then Err(IndexError)
    else match ParseInt(parts[1])
      case None => Err(ValueError)
      case Some(port) =>
        if |parts| > 2 then Err(TypeError)
        else Ok(Endpoint(parts[0], port))
  }

  /** An endpoint whose host holds no `:` is recovered from its key. */
  lemma EndpointKeyRoundTrip(e: Endpoint)
    requires ':' !in e.host
    ensures ParseEndpoint(EndpointKey(e)) == Ok(e)
  {
    IntToStringChars(e.port);
    assert ':' !in IntToString(e.port);
    SplitPair(e.host, IntToString(e.port), ':');
    ParseIntToString(e.port);
  }

  /** Two endpoints with hosts free of `:` share a key only if they are the same. */
  lemma EndpointKeyInjective(e: Endpoint, e': Endpoint)
    requires ':' !in e.host && ':' !in e'.host
    requires EndpointKey(e) == EndpointKey(e')
    ensures e == e'
  {
    EndpointKeyRoundTrip(e);
    EndpointKeyRoundTrip(e');
  }

  // ---------------------------------------------------------------------------
  // The connections collection

  /** One session: the client endpoint key, the account and network it belongs to,
      the address bound to it (kept in the document by the `vpn_service` variant
      only) and the key the relay encrypts with. */
  datatype Session = Session(connection: string, accountId: Oid, networkId: Oid, ipAddress: Option<string>, encrypt: string)

  /** The sessions of `account`, in collection order. */
  function SessionsOf(table: seq<Session>, account: Oid): seq<Session> {
    if table == [] then []
    else (if table[0].accountId == account then [table[0]] else []) + SessionsOf(table[1..], account)
  }

  /** `delete_many({'account_id': account})`: every other session stays, in order. */
  function WithoutAccount(table: seq<Session>, account: Oid): (r: seq<Session>)
    ensures forall s | s in r :: s in table && s.accountId != account
    ensures forall s | s in table && s.accountId != account :: s in r
  {
    if table == [] then []
    else (if table[0].accountId == account then [] else [table[0]]) + WithoutAccount(table[1..], account)
  }

  /** Delete the account's sessions, then insert `s`. */
  function Supersede(table: seq<Session>, s: Session): seq<Session> {
    WithoutAccount(table, s.accountId) + [s]
  }

  lemma {:induction false} SessionsOfWithout(table: seq<Session>, account: Oid, other: Oid)
    ensures SessionsOf(WithoutAccount(table, account), other) == if other == account then [] else SessionsOf(table, other)
  {
    if table != [] {
      SessionsOfWithout(table[1..], account, other);
      var head := if table[0].accountId == account then [] else [table[0]];
      SessionsOfAppend(head, WithoutAccount(table[1..], account), other);
    }
  }

  lemma {:induction false} SessionsOfAppend(a: seq<Session>, b: seq<Session>, account: Oid)
    ensures SessionsOf(a + b, account) == SessionsOf(a, account) + SessionsOf(b, account)
  {
    if a != [] {
      assert (a + b)[0] == a[0] && (a + b)[1..] == a[1..] + b;
      SessionsOfAppend(a[1..], b, account);
      var head := if a[0].accountId == account then [a[0]] else [];
      var rest := SessionsOf(a[1..], account);
      var tail := SessionsOf(b, account);
      assert SessionsOf(a + b, account) == head + (rest + tail);
      assert SessionsOf(a, account) == head + rest;
      assert head + (rest + tail) == (head + rest) + tail;
      assert SessionsOf(a + b, account) == SessionsOf(a, account) + tail;
    } else {
      assert a + b == b;
      assert SessionsOf(a, account) == [];
    }
  }

  /** After a new session the account has exactly that one session, and every other
      account has exactly the sessions it had. */
  lemma SupersedeSessions(table: seq<Session>, s: Session, other: Oid)
    ensures SessionsOf(Supersede(table, s), s.accountId) == [s]
    ensures other != s.accountId ==> SessionsOf(Supersede(table, s), other) == SessionsOf(table, other)
  {
    SessionsOfAppend(WithoutAccount(table, s.accountId), [s], s.accountId);
    SessionsOfWithout(table, s.accountId, s.accountId);
    SessionsOfAppend(WithoutAccount(table, s.accountId), [s], other);
    SessionsOfWithout(table, s.accountId, other);
  }

  /** No account has two sessions. */
  predicate OnePerAccount(table: seq<Session>) {
    forall i, j | 0 <= i < j < |table| :: table[i].accountId != table[j].accountId
  }

  /** Superseding keeps at most one session per account, whatever the table held. */
  lemma {:induction false} SupersedeOnePerAccount(table: seq<Session>, s: Session)
    requires OnePerAccount(table)
    ensures OnePerAccount(Supersede(table, s))
  {
    var kept := WithoutAccount(table, s.accountId);
    WithoutAccountSubsequence(table, s.accountId);
    var r := kept + [s];
    forall i, j | 0 <= i < j < |r|
      ensures r[i].accountId != r[j].accountId
    {
      if j == |r| - 1 {
        assert r[i] in kept;
      }
    }
  }

  /** The sessions kept by `delete_many` keep their relative order, so a table without
      repeated accounts stays without them. */
  lemma {:induction false} WithoutAccountSubsequence(table: seq<Session>, account: Oid)
    requires OnePerAccount(table)
    ensures OnePerAccount(WithoutAccount(table, account))
  {
    if table != [] {
      var tail := table[1..];
      assert OnePerAccount(tail) by {
        forall i, j | 0 <= i < j < |tail|
          ensures tail[i].accountId != tail[j].accountId
        {
          assert tail[i] == table[i + 1] && tail[j] == table[j + 1];
        }
      }
      WithoutAccountSubsequence(tail, account);
      var rest := WithoutAccount(tail, account);
      if table[0].accountId != account {
        forall s | s in rest
          ensures s.accountId != table[0].accountId
        {
          var k :| 0 <= k < |tail| && tail[k] == s;
          assert table[k + 1] == s;
        }
        ConsOnePerAccount(table[0], rest);
      }
    }
  }

  /** A session whose account appears nowhere in a table without repeated accounts
      can be put in front of it. */
  lemma ConsOnePerAccount(s: Session, table: seq<Session>)
    requires OnePerAccount(table)
    requires forall t | t in table :: t.accountId != s.accountId
    ensures OnePerAccount([s] + table)
  {
    var r := [s] + table;
    forall i, j | 0 <= i < j < |r|
      ensures r[i].accountId != r[j].accountId
    {
      if i == 0 {
        assert r[j] in table;
      } else {
        assert r[i] == table[i - 1] && r[j] == table[j - 1];
      }
    }
  }

  /** `find_one({'connection': key})`: the first session filed under `key`. */
  function FindSession(table: seq<Session>, key: string): (r: Option<Session>)
    ensures r.None? <==> forall s | s in table :: s.connection != key
    ensures r.Some? ==> r.value in table && r.value.connection == key
  {
    if table == [] then None
    else if table[0].connection == key then Some(table[0])
    else FindSession(table[1..], key)
  }

  /** `find_one({'network_id': network, 'ip_address': address})`: the first session of
      the network bound to `address`. */
  function FindPeer(table: seq<Session>, network: Oid, address: string): (r: Option<Session>)
    ensures r.None? <==> forall s | s in table :: s.networkId != network || s.ipAddress != Some(address)
    ensures r.Some? ==> r.value in table && r.value.networkId == network && r.value.ipAddress == Some(address)
  {
    if table == [] then None
    else if table[0].networkId == network && table[0].ipAddress == Some(address) then Some(table[0])
    else FindPeer(table[1..], network, address)
  }

  /** The peer found is the first matching session of the table. */
  lemma {:induction false} FindPeerFirst(table: seq<Session>, network: Oid, address: string)
    ensures FindPeer(table, network, address).Some? ==> exists i | 0 <= i < |table| ::
      && table[i] == FindPeer(table, network, address).value
      && forall j | 0 <= j < i :: table[j].networkId != network || table[j].ipAddress != Some(address)
  {
    if table != [] && !(table[0].networkId == network && table[0].ipAddress == Some(address)) {
      FindPeerFirst(table[1..], network, address);
      if FindPeer(table, network, address).Some? {
        var i :| 0 <= i < |table[1..]| && table[1..][i] == FindPeer(table[1..], network, address).value
          && forall j | 0 <= j < i :: table[1..][j].networkId != network || table[1..][j].ipAddress != Some(address);
        assert table[i + 1] == FindPeer(table, network, address).value;
        assert forall j | 0 <= j < i + 1 :: table[j].networkId != network || table[j].ipAddress != Some(address) by {
          forall j | 0 < j < i + 1
            ensures table[j].networkId != network || table[j].ipAddress != Some(address)
          {
            assert table[j] == table[1..][j - 1];
          }
        }
      }
    } else if table != [] {
      assert table[0] == FindPeer(table, network, address).value;
    }
  }
}
