/** `connection/network/connections.py`: address arithmetic (`new_address`), the
    credential check against the accounts collection, session creation, address
    assignment for an account in a network, and the configuration reply. */
module Connections {
  import opened Wrappers
  import opened Builtins
  import opened Store
  import opened Documents
  import opened Authentication
  import opened Reply

  // ---------------------------------------------------------------------------
  // new_address

  /** `list(map(int, base.split('.')))`. */
  function BaseOctets(base: string): (r: Result<seq<int>, Raised>)
    ensures r.Ok? ==> |r.value| == |Split(base, '.')| >= 1
    ensures r.Err? ==> r.error == ValueError
  {
    match ParseDecimals(Split(base, '.'))
    case None => Err(ValueError)
    case Some(o) => Ok(o)
  }

  /** One pass of the carry loop at `index`: the octet is reduced modulo 255 and
      `value // 255` is added to the octet on its left; at index 0 it is dropped. */
  function CarryStep(l: seq<int>, index: nat): (r: seq<int>)
    requires index < |l|
    ensures |r| == |l|
  {
    var value := l[index];
    var reduced := l[index := value % 255];
    if index != 0 then reduced[index - 1 := reduced[index - 1] + value / 255] else reduced
  }

  /** The list after the loop has handled indices 3 down to `k`. */
  function Normalised(l: seq<int>, k: nat): (r: seq<int>)
    requires |l| >= 4 && k <= 4
    ensures |r| == |l|
    decreases 4 - k
  {
    if k == 4 then l else CarryStep(Normalised(l, k + 1), k)
  }

  /** The list `new_address` prints: the base's octets with the last one replaced by
      `addressId`. */
  function WithLastOctet(octets: seq<int>, addressId: int): (r: seq<int>)
    requires |octets| >= 1
    ensures |r| == |octets| && r[|r| - 1] == addressId && r[..|r| - 1] == octets[..|octets| - 1]
  {
    octets[..|octets| - 1] + [addressId]
  }

  /** `new_address(base, addressId)`: `ValueError` when the base has a field that is not
      a number, `IndexError` when it has fewer than four fields; which of the two,
      if any, depends on the base alone. */
  function NewAddressOf(base: string, addressId: int): (r: Result<string, Raised>)
    ensures r.Err? <==> BaseOctets(base).Err? || |BaseOctets(base).value| < 4
    ensures BaseOctets(base).Err? ==> r == Err(ValueError)
    ensures BaseOctets(base).Ok? && |BaseOctets(base).value| < 4 ==> r == Err(IndexError)
  {
    var octets :- BaseOctets(base);
    var ip := WithLastOctet(octets, addressId);
    if |ip| < 4 then Err(IndexError) else Ok(Dotted(Normalised(ip, 0)))
  }

  /** The loop of lines 16-19, run on an array copy of the list. */
  method NewAddress(base: string, addressId: int) returns (r: Result<string, Raised>)
    ensures r == NewAddressOf(base, addressId)
  {
    var octets :- BaseOctets(base);
    var ip := WithLastOctet(octets, addressId);
    if |ip| < 4 {
      return Err(IndexError);
    }
    var ipAddress := new int[|ip|](i requires 0 <= i < |ip| => ip[i]);
    assert ipAddress[..] == Normalised(ip, 4);
    var index := 3;
    while index >= 0
      invariant -1 <= index <= 3
      invariant ipAddress[..] == Normalised(ip, index + 1)
    {
      ghost var before := ipAddress[..];
      var value := ipAddress[index];
      Reduced255(value);
      ipAddress[index] := value - 255 * (value / 255);
      ghost var reduced := before[index := value % 255];
      assert ipAddress[..] == reduced;
      if index != 0 {
        ipAddress[index - 1] := ipAddress[index - 1] + value / 255;
        assert ipAddress[..] == reduced[index - 1 := reduced[index - 1] + value / 255];
      }
      assert ipAddress[..] == CarryStep(before, index);
      index := index - 1;
    }
    assert ipAddress[..] == Normalised(ip, 0);
    return Ok(Dotted(ipAddress[..]));
  }

  /** `value - 255 * (value // 255)` is the remainder of `value` by 255. */
  lemma Reduced255(value: int)
    ensures value - 255 * (value / 255) == value % 255
  {
  }

  /** The first four octets read as a base-255 number. */
  function Value255(l: seq<int>): int
    requires |l| >= 4
  {
    ((l[0] * 255 + l[1]) * 255 + l[2]) * 255 + l[3]
  }

  const Modulus255: int := 255 * 255 * 255 * 255

  lemma CarryKeepsValue(l: seq<int>, index: nat)
    requires |l| >= 4 && 1 <= index <= 3
    ensures Value255(CarryStep(l, index)) == Value255(l)
    ensures CarryStep(l, index)[index] == l[index] % 255
    ensures forall k | 0 <= k < |l| && k != index && k != index - 1 :: CarryStep(l, index)[k] == l[k]
  {
    var v := l[index];
    assert v == 255 * (v / 255) + v % 255;
  }

  lemma RemainderOf(x: int, q: int, rest: int)
    requires 0 <= rest < Modulus255 && x == q * Modulus255 + rest
    ensures x % Modulus255 == rest
  {
  }

  /** Indices 3, 2 and 1: the value is kept and octets 1..3 land in 0..254. */
  lemma InnerCarries(l: seq<int>)
    requires |l| >= 4
    ensures Value255(Normalised(l, 1)) == Value255(l)
    ensures forall k | 1 <= k < 4 :: 0 <= Normalised(l, 1)[k] < 255
    ensures Normalised(l, 1)[4..] == l[4..]
  {
    var n3 := CarryStep(l, 3);
    var n2 := CarryStep(n3, 2);
    var n1 := CarryStep(n2, 1);
    assert Normalised(l, 3) == n3;
    assert Normalised(l, 2) == n2;
    assert Normalised(l, 1) == n1;
    CarryKeepsValue(l, 3);
    CarryKeepsValue(n3, 2);
    CarryKeepsValue(n2, 1);
    assert n1[3] == n2[3] == n3[3] == l[3] % 255;
    assert n1[2] == n2[2] == n3[2] % 255;
    assert n1[1] == n2[1] % 255;
    forall k | 1 <= k < 4
      ensures 0 <= n1[k] < 255
    {
      assert k == 1 || k == 2 || k == 3;
    }
    assert n1[4..] == n2[4..] == n3[4..] == l[4..];
  }

  /** Index 0: the octet is reduced modulo 255 and its carry is lost. */
  lemma OuterCarry(n1: seq<int>)
    requires |n1| >= 4 && forall k | 1 <= k < 4 :: 0 <= n1[k] < 255
    ensures Value255(CarryStep(n1, 0)) == Value255(n1) % Modulus255
    ensures forall k | 0 <= k < 4 :: 0 <= CarryStep(n1, 0)[k] < 255
    ensures CarryStep(n1, 0)[1..] == n1[1..]
  {
    var n0 := CarryStep(n1, 0);
    var rest := (n1[1] * 255 + n1[2]) * 255 + n1[3];
    assert 0 <= rest < 255 * 255 * 255;
    var q := n1[0] / 255;
    var a := n1[0] % 255;
    assert n1[0] == q * 255 + a;
    assert Value255(n1) == n1[0] * (255 * 255 * 255) + rest;
    assert Value255(n1) == q * Modulus255 + (a * (255 * 255 * 255) + rest);
    assert Value255(n0) == a * (255 * 255 * 255) + rest;
    RemainderOf(Value255(n1), q, a * (255 * 255 * 255) + rest);
  }

  /** `new_address`'s normalisation writes the first four octets as the base-255
      representation of their value modulo 255^4: every octet ends in 0..254, the
      carry out of the first octet is lost, and octets after the fourth are left
      alone. */
  lemma NormalisedIsBase255(l: seq<int>)
    requires |l| >= 4
    ensures forall k | 0 <= k < 4 :: 0 <= Normalised(l, 0)[k] < 255
    ensures Value255(Normalised(l, 0)) == Value255(l) % Modulus255
    ensures Normalised(l, 0)[4..] == l[4..]
  {
    InnerCarries(l);
    OuterCarry(Normalised(l, 1));
    assert Normalised(l, 0) == CarryStep(Normalised(l, 1), 0);
  }

  /** `new_address` puts `addressId` in place of the base's last octet and then
      normalises, so the address is the base-255 value of the first three octets and
      `addressId`, modulo 255^4. */
  lemma NewAddressValue(base: string, addressId: int)
    requires BaseOctets(base).Ok? && |BaseOctets(base).value| == 4
    ensures var octets := BaseOctets(base).value;
      var l := [octets[0], octets[1], octets[2], addressId];
      && Normalised(l, 0) == Normalised(WithLastOctet(octets, addressId), 0)
      && NewAddressOf(base, addressId) == Ok(Dotted(Normalised(l, 0)))
      && Value255(Normalised(l, 0)) == Value255(l) % Modulus255
      && forall k | 0 <= k < 4 :: 0 <= Normalised(l, 0)[k] < 255
  {
    var octets := BaseOctets(base).value;
    assert WithLastOctet(octets, addressId) == [octets[0], octets[1], octets[2], addressId];
    NormalisedIsBase255([octets[0], octets[1], octets[2], addressId]);
  }

  /** An address built from a base written in dotted form: `text` is the dotted form
      of the normalised octets. */
  lemma NewAddressOfDotted(octets: seq<int>, addressId: int, normalised: seq<int>, text: string)
    requires |octets| == 4
    requires Normalised([octets[0], octets[1], octets[2], addressId], 0) == normalised
    requires Dotted(normalised) == text
    ensures NewAddressOf(Dotted(octets), addressId) == Ok(text)
  {
    ParseDotted(octets);
    assert WithLastOctet(octets, addressId) == [octets[0], octets[1], octets[2], addressId];
  }

  lemma DottedText(octets: seq<int>, text: string)
    requires |octets| == 4
    requires IntToString(octets[0]) + "." + IntToString(octets[1]) + "." + IntToString(octets[2]) + "." + IntToString(octets[3]) == text
    ensures Dotted(octets) == text
  {
    DottedFourOctets(octets[0], octets[1], octets[2], octets[3]);
    assert octets == [octets[0], octets[1], octets[2], octets[3]];
  }

  lemma SmallNumerals()
    ensures IntToString(0) == "0" && IntToString(1) == "1" && IntToString(2) == "2"
  {
  }

  lemma Numeral10()
    ensures IntToString(10) == "10"
  {
    assert NatToString(10) == NatToString(1) + "0";
  }

  lemma Numerals192And168()
    ensures IntToString(192) == "192" && IntToString(168) == "168"
  {
    assert NatToString(192) == NatToString(19) + "2";
    assert NatToString(19) == NatToString(1) + "9";
    assert NatToString(168) == NatToString(16) + "8";
    assert NatToString(16) == NatToString(1) + "6";
  }

  lemma NormalisedCarryExample()
    ensures Normalised([10, 0, 0, 255], 0) == [10, 0, 1, 0]
  {
    var l := [10, 0, 0, 255];
    assert Normalised(l, 3) == [10, 0, 1, 0];
    assert Normalised(l, 2) == [10, 0, 1, 0];
    assert Normalised(l, 1) == [10, 0, 1, 0];
  }

  lemma NormalisedModulo255Example()
    ensures Normalised([192, 168, 1, 256], 0) == [192, 168, 2, 1]
  {
    var l := [192, 168, 1, 256];
    assert Normalised(l, 3) == [192, 168, 2, 1];
    assert Normalised(l, 2) == [192, 168, 2, 1];
    assert Normalised(l, 1) == [192, 168, 2, 1];
  }

  lemma Text10000()
    ensures Dotted([10, 0, 0, 0]) == "10.0.0.0"
  {
    SmallNumerals();
    Numeral10();
    DottedText([10, 0, 0, 0], "10.0.0.0");
  }

  lemma Text10001()
    ensures Dotted([10, 0, 0, 1]) == "10.0.0.1"
  {
    SmallNumerals();
    Numeral10();
    DottedText([10, 0, 0, 1], "10.0.0.1");
  }

  lemma Text10010()
    ensures Dotted([10, 0, 1, 0]) == "10.0.1.0"
  {
    SmallNumerals();
    Numeral10();
    DottedText([10, 0, 1, 0], "10.0.1.0");
  }

  lemma Text19216810()
    ensures Dotted([192, 168, 1, 0]) == "192.168.1.0"
  {
    SmallNumerals();
    Numerals192And168();
    DottedText([192, 168, 1, 0], "192.168.1.0");
  }

  lemma Text19216821()
    ensures Dotted([192, 168, 2, 1]) == "192.168.2.1"
  {
    SmallNumerals();
    Numerals192And168();
    DottedText([192, 168, 2, 1], "192.168.2.1");
  }

  lemma SmallOctet(v: int)
    requires 0 <= v < 255
    ensures v % 255 == v && v / 255 == 0
  {
  }

  /** An octet already in 0..254 carries nothing. */
  lemma CarryStepInRange(l: seq<int>, index: nat)
    requires index < |l| && 0 <= l[index] < 255
    ensures CarryStep(l, index) == l
  {
    SmallOctet(l[index]);
    var reduced := l[index := l[index] % 255];
    assert forall k | 0 <= k < |l| :: reduced[k] == l[k];
    assert reduced == l;
    if index != 0 {
      assert reduced[index - 1 := reduced[index - 1] + l[index] / 255] == reduced;
    }
  }

  /** Octets already in 0..254 come back unchanged. */
  lemma NormalisedInRange(l: seq<int>)
    requires |l| == 4 && forall k | 0 <= k < 4 :: 0 <= l[k] < 255
    ensures Normalised(l, 0) == l
  {
    CarryStepInRange(l, 3);
    CarryStepInRange(l, 2);
    CarryStepInRange(l, 1);
    CarryStepInRange(l, 0);
    assert Normalised(l, 3) == l;
    assert Normalised(l, 2) == l;
    assert Normalised(l, 1) == l;
  }

  /** Address 255 of 10.0.0.0 carries into the third octet: "10.0.1.0". */
  lemma NewAddressCarryExample()
    ensures NewAddressOf("10.0.0.0", 255) == Ok("10.0.1.0")
  {
    Text10000();
    Text10010();
    NormalisedCarryExample();
    NewAddressOfDotted([10, 0, 0, 0], 255, [10, 0, 1, 0], "10.0.1.0");
  }

  /** Address 256 of 192.168.1.0 is "192.168.2.1", not "192.168.2.0": the carry is
      taken modulo 255. */
  lemma NewAddressModulo255Example()
    ensures NewAddressOf("192.168.1.0", 256) == Ok("192.168.2.1")
  {
    Text19216810();
    Text19216821();
    NormalisedModulo255Example();
    NewAddressOfDotted([192, 168, 1, 0], 256, [192, 168, 2, 1], "192.168.2.1");
  }

  // ---------------------------------------------------------------------------
  // assign_address

  /** Candidate `addressId` of `base` is an address some account already holds. */
  predicate Held(base: string, addressId: int, used: set<string>) {
    NewAddressOf(base, addressId).Ok? && NewAddressOf(base, addressId).value in used
  }

  /** The scan of lines 71-73 from `from` on: the first index below `max` whose address
      is not in `used`, `None` when every one is, and the error of `new_address` when
      the base is malformed and there is at least one index to try. */
  function FirstFreeIndex(base: string, from: nat, max: int, used: set<string>): (r: Result<Option<nat>, Raised>)
    ensures r.Err? <==> from < max && NewAddressOf(base, from).Err?
    ensures r.Err? ==> r.error == NewAddressOf(base, from).error
    ensures r.Ok? && r.value.Some? ==>
      && from <= r.value.value < max
      && NewAddressOf(base, r.value.value).Ok?
      && NewAddressOf(base, r.value.value).value !in used
    decreases max - from
  {
    if from >= max then Ok(None)
    else match NewAddressOf(base, from)
      case Err(e) => Err(e)
      case Ok(address) =>
        if address !in used then Ok(Some(from))
        else
          var rest := FirstFreeIndex(base, from + 1, max, used);
          assert NewAddressOf(base, from + 1).Err? ==> false;
          rest
  }

  /** The scan stops at the first free candidate: every candidate before the one it
      returns is held, and when it returns `None` all of them are. */
  lemma {:induction false} FirstFreeIndexIsFirst(base: string, from: nat, max: int, used: set<string>)
    ensures var r := FirstFreeIndex(base, from, max, used);
      && (r.Ok? && r.value.Some? ==> forall j | from <= j < r.value.value :: Held(base, j, used))
      && (r == Ok(None) ==> forall j | from <= j < max :: Held(base, j, used))
    decreases max - from
  {
    var r := FirstFreeIndex(base, from, max, used);
    if from < max && Held(base, from, used) {
      FirstFreeIndexIsFirst(base, from + 1, max, used);
      assert r == FirstFreeIndex(base, from + 1, max, used);
      if r.Ok? {
        var bound := if r.value.Some? then r.value.value else max;
        forall j | from <= j < bound
          ensures Held(base, j, used)
        {
          if j > from {
            assert from + 1 <= j < bound;
          }
        }
      }
    }
  }

  /** The account's first membership, `account['networks'][0]`: `KeyError` when the
      account has no `networks` field, `IndexError` when the list is empty. */
  function FirstMembership(account: AccountDoc): (r: Result<Membership, Raised>)
    ensures account.networks.None? ==> r == Err(KeyError)
    ensures account.networks == Some([]) ==> r == Err(IndexError)
    ensures account.networks.Some? && account.networks.value != [] ==> r == Ok(account.networks.value[0])
  {
    match account.networks
    case None => Err(KeyError)
    case Some(memberships) => if memberships == [] then Err(IndexError) else Ok(memberships[0])
  }

  /** The base address of a network, the text of its range before the first `/`. */
  function RangeBase(network: NetworkDoc): string {
    Split(network.networkRange, '/')[0]
  }

  /** `assign_address(network, account)`: the first membership's fixed address if it
      has one; otherwise the address the network already binds to the account;
      otherwise the first address of the scan that no account holds, or `None` when all
      `max_address` candidates are held. */
  function AssignedAddress(network: NetworkDoc, account: AccountDoc): (r: Result<Option<string>, Raised>)
    ensures FirstMembership(account).Err? ==> r == Err(FirstMembership(account).error)
    ensures FirstMembership(account).Ok? && FirstMembership(account).value.ipAddress.Some? ==>
      r == Ok(FirstMembership(account).value.ipAddress)
    ensures FirstMembership(account).Ok? && FirstMembership(account).value.ipAddress.None? && account.id in Bindings(network) ==>
      r == Ok(Some(Bindings(network)[account.id]))
    ensures FirstMembership(account).Ok? && FirstMembership(account).value.ipAddress.None? && account.id !in Bindings(network) ==>
      var scan := FirstFreeIndex(RangeBase(network), 0, network.maxAddress, Bindings(network).Values);
      && (scan.Err? ==> r == Err(scan.error))
      && (scan == Ok(None) ==> r == Ok(None))
      && (scan.Ok? && scan.value.Some? ==> r == Ok(Some(NewAddressOf(RangeBase(network), scan.value.value).value)))
  {
    var membership :- FirstMembership(account);
    if membership.ipAddress.Some? then Ok(membership.ipAddress)
    else if account.id in Bindings(network) then Ok(Some(Bindings(network)[account.id]))
    else
      var base := RangeBase(network);
      var index :- FirstFreeIndex(base, 0, network.maxAddress, Bindings(network).Values);
      match index
      case None => Ok(None)
      case Some(i) => Ok(Some(NewAddressOf(base, i).value))
  }

  /** An address the scan hands out is held by no account of the network, and every
      candidate before it is. */
  lemma ScannedAddressIsFree(network: NetworkDoc, account: AccountDoc, address: string)
    requires FirstMembership(account).Ok? && FirstMembership(account).value.ipAddress.None?
    requires account.id !in Bindings(network)
    requires AssignedAddress(network, account) == Ok(Some(address))
    ensures forall other | other in Bindings(network) :: Bindings(network)[other] != address
    ensures exists i | 0 <= i < network.maxAddress ::
      (NewAddressOf(RangeBase(network), i) == Ok(address) && forall j | 0 <= j < i :: Held(RangeBase(network), j, Bindings(network).Values))
  {
    var scan := FirstFreeIndex(RangeBase(network), 0, network.maxAddress, Bindings(network).Values);
    FirstFreeIndexIsFirst(RangeBase(network), 0, network.maxAddress, Bindings(network).Values);
    var i := scan.value.value;
    assert NewAddressOf(RangeBase(network), i) == Ok(address);
  }

  /** The loop of lines 71-73, calling `new_address` once per candidate. */
  method AssignAddress(network: NetworkDoc, account: AccountDoc) returns (r: Result<Option<string>, Raised>)
    ensures r == AssignedAddress(network, account)
  {
    var membership :- FirstMembership(account);
    if membership.ipAddress.Some? {
      return Ok(membership.ipAddress);
    }
    var addresses := Bindings(network).Values;
    var base := RangeBase(network);
    if account.id in Bindings(network) {
      return Ok(Some(Bindings(network)[account.id]));
    }
    var addressId: nat := 0;
    while addressId < network.maxAddress
      invariant FirstFreeIndex(base, 0, network.maxAddress, addresses) == FirstFreeIndex(base, addressId, network.maxAddress, addresses)
      decreases network.maxAddress - addressId
    {
      var ipAddress :- NewAddress(base, addressId);
      if ipAddress !in addresses {
        return Ok(Some(ipAddress));
      }
      addressId := addressId + 1;
    }
    return Ok(None);
  }

  // ---------------------------------------------------------------------------
  // ConnectionManager

  /** What `authenticate` hands back: the account document, when the username is
      known, and the status byte. */
  datatype AuthOutcome = AuthOutcome(account: Option<AccountDoc>, status: byte)

  /** The session document `new_connection` inserts for `account` in network `networkId`
      reached from `endpoint`, with encryption key `key`. */
  function NewSession(account: AccountDoc, networkId: Oid, endpoint: Endpoint, key: string): Session {
    Session(EndpointKey(endpoint), account.id, networkId, None, key)
  }

  /** `ConnectionManager` over the package's database. The Fernet key a new session
      gets is a parameter of the calls that create one; bcrypt's `checkpw` is a
      parameter of `authenticate`. */
  class ConnectionManager {
    const db: Database
    const tokenLength: nat := 44

    constructor (db: Database)
      ensures this.db == db
    {
      this.db := db;
    }

    /** `authenticate(connection)`: the credential frame is unpacked (its errors
        propagate), an unknown username yields only the error status, and a known one
        yields its document with status success exactly when `checkpw` accepts the
        UTF-8 password against the stored hash. It only reads the database. */
    function Authenticate(packet: seq<byte>, checkpw: (seq<byte>, seq<byte>) -> bool): (r: Result<AuthOutcome, Raised>)
      reads db
      ensures r.Err? <==> UnpackCredentials(packet).Err?
      ensures r.Err? ==> r.error == UnpackCredentials(packet).error
      ensures r.Ok? ==> r.value.status == Success || r.value.status == Error
      ensures r.Ok? && r.value.status == Success ==> r.value.account.Some?
      ensures r.Ok? ==> var username := UnpackCredentials(packet).value.0;
        && (FindUsername(db.accounts, username).None? ==> r.value == AuthOutcome(None, Error))
        && (FindUsername(db.accounts, username).Some? ==> r.value.account == FindUsername(db.accounts, username))
      ensures r.Ok? && r.value.account.Some? ==>
        (r.value.status == Success <==> checkpw(Encode(UnpackCredentials(packet).value.1), Encode(r.value.account.value.password)))
    {
      var credentials :- UnpackCredentials(packet);
      match FindUsername(db.accounts, credentials.0)
      case None => Ok(AuthOutcome(None, Error))
      case Some(account) =>
        var check := checkpw(Encode(credentials.1), Encode(account.password));
        Ok(AuthOutcome(Some(account), if check then Success else Error))
    }

    /** `new_connection(account, connection)`: the first membership's network is looked
        up (`KeyError`, `IndexError` for a missing or empty membership list, `TypeError`
        for a network that does not exist, all before anything is written), then every
        session of the account is deleted and one new session inserted. */
    method NewConnection(account: AccountDoc, endpoint: Endpoint, key: string) returns (r: Result<(string, Oid, NetworkDoc), Raised>)
      modifies db
      ensures FirstMembership(account).Err? ==> r == Err(FirstMembership(account).error) && unchanged(db)
      ensures FirstMembership(account).Ok? && FirstMembership(account).value.id !in old(db.networks) ==>
        r == Err(TypeError) && unchanged(db)
      ensures FirstMembership(account).Ok? && FirstMembership(account).value.id in old(db.networks) ==>
        var networkId := FirstMembership(account).value.id;
        && r == Ok((key, networkId, old(db.networks)[networkId]))
        && db.sessions == Supersede(old(db.sessions), NewSession(account, networkId, endpoint, key))
        && db.accounts == old(db.accounts) && db.networks == old(db.networks) && db.nextId == old(db.nextId)
    {
      var membership :- FirstMembership(account);
      if membership.id !in db.networks {
        return Err(TypeError);
      }
      var network := db.networks[membership.id];
      db.sessions := Supersede(db.sessions, NewSession(account, membership.id, endpoint, key));
      return Ok((key, membership.id, network));
    }

    /** `pack_data(account, connection)`: the session is written first; then the address
        is assigned (`AttributeError` when none is left, although the session stays), and
        the reply packed with the address, the network's mask and the UTF-8 key in a
        44-byte field. The result carries the address too. */
    method PackData(account: AccountDoc, endpoint: Endpoint, key: string) returns (r: Result<(seq<byte>, string), Raised>)
      modifies db
      ensures FirstMembership(account).Err? ==> r == Err(FirstMembership(account).error) && unchanged(db)
      ensures FirstMembership(account).Ok? && FirstMembership(account).value.id !in old(db.networks) ==>
        r == Err(TypeError) && unchanged(db)
      ensures FirstMembership(account).Ok? && FirstMembership(account).value.id in old(db.networks) ==>
        var networkId := FirstMembership(account).value.id;
        var network := old(db.networks)[networkId];
        && db.sessions == Supersede(old(db.sessions), NewSession(account, networkId, endpoint, key))
        && db.accounts == old(db.accounts) && db.networks == old(db.networks) && db.nextId == old(db.nextId)
        && (AssignedAddress(network, account) == Ok(None) ==> r == Err(AttributeError))
        && (AssignedAddress(network, account).Err? ==> r == Err(AssignedAddress(network, account).error))
        && (r.Ok? <==> AssignedAddress(network, account).Ok? && AssignedAddress(network, account).value.Some?
                       && PackConfiguration(AssignedAddress(network, account).value.value, network.subnetMask, Encode(key), 44).Ok?)
        && (AssignedAddress(network, account).Ok? && AssignedAddress(network, account).value.Some?
            && PackConfiguration(AssignedAddress(network, account).value.value, network.subnetMask, Encode(key), 44).Err? ==>
              r == Err(ValueError))
        && (r.Ok? ==> AssignedAddress(network, account) == Ok(Some(r.value.1))
                      && PackConfiguration(r.value.1, network.subnetMask, Encode(key), 44) == Ok(r.value.0))
    {
      var connection :- NewConnection(account, endpoint, key);
      var (token, _, network) := connection;
      var address :- AssignAddress(network, account);
      if address.None? {
        return Err(AttributeError);
      }
      var ipAddress := address.value;
      var packet :- PackConfiguration(ipAddress, network.subnetMask, Encode(token), tokenLength);
      return Ok((packet, ipAddress));
    }
  }
}
