/** `network_properties` (connection/utils.py): a network range given as CIDR text,
    as a (first, last) address pair, or not at all, becomes the server address, the
    dotted subnet mask and the canonical CIDR text. The mask is built one prefix bit
    at a time into a four-octet buffer. */
module Utils {
  import opened Wrappers
  import opened Builtins

  datatype RangeSpec =
    | NoRange                         // `network_range` is None
    | Cidr(text: string)              // "192.168.1.0/24"
    | Span(first: string, last: string)  // ("10.0.0.0", "10.0.0.7")

  datatype Properties = Properties(serverIp: string, subnetMask: string, networkRange: string)

  const DefaultRange: string := "192.168.1.0/24"

  /** `s.split('.')[-1]`. */
  function LastField(s: string): string {
    var fields := Split(s, '.');
    fields[|fields| - 1]
  }

  /** The CIDR text the mask is computed from: a pair becomes its first address
      followed by `/` and `32 - bit_length(last octet difference)`; no range, or an
      empty one, becomes the default. */
  function RangeText(spec: RangeSpec): Result<string, Raised> {
    match spec
    case NoRange => Ok(DefaultRange)
    case Cidr(text) => Ok(if text == "" then DefaultRange else text)
    case Span(first, last) =>
      match SpanPrefix(first, last)
      case None => Err(ValueError)
      case Some(p) => Ok(first + "/" + IntToString(p))
  }

  /** The prefix length of a (first, last) pair, from the last octets alone: `None`
      when either is not a number. */
  function SpanPrefix(first: string, last: string): Option<int> {
    FieldsPrefix(ParseInt(LastField(last)), ParseInt(LastField(first)))
  }

  /** `32 - bit_length(high - low)` for the parsed last octets. */
  function FieldsPrefix(high: Option<int>, low: Option<int>): Option<int> {
    if high.None? || low.None? then None
    else Some(32 - BitLength(high.value - low.value))
  }

  /** How many leading bits of mask octet `k` a prefix of length `p` covers. */
  function CoveredBits(p: int, k: nat): (n: nat)
    ensures n <= 8
  {
    if p >= 8 * (k + 1) then 8 else if p <= 8 * k then 0 else p - 8 * k
  }

  /** An octet whose top `n` bits are set and the rest clear. */
  function TopBits(n: nat): bv8
    requires n <= 8
  {
    if n == 0 then 0 else 0xFF << (8 - n)
  }

  /** The subnet mask of a prefix of length `p`, octet by octet. */
  function MaskOctets(p: int): (m: seq<bv8>)
    ensures |m| == 4
  {
    seq(4, k requires 0 <= k < 4 => TopBits(CoveredBits(p, k)))
  }

  function OctetValues(m: seq<bv8>): (r: seq<int>)
    ensures |r| == |m| && forall i | 0 <= i < |m| :: r[i] == m[i] as int
  {
    seq(|m|, i requires 0 <= i < |m| => m[i] as int)
  }

  /** What `network_properties` returns or raises: `IndexError` when the CIDR text has
      no `/` or its prefix is above 32 (the mask has only four octets), `ValueError`
      when the prefix or a pair's last octet is not a number. */
  function PropertiesOf(spec: RangeSpec): Result<Properties, Raised> {
    var text :- RangeText(spec);
    PropertiesOfText(text)
  }

  /** The properties of a CIDR text. */
  function PropertiesOfText(text: string): Result<Properties, Raised> {
    var pieces := Split(text, '/');
    if |pieces| < 2 then Err(IndexError)
    else match ParseInt(pieces[1])
      case None => Err(ValueError)
      case Some(p) =>
        if p > 32 then Err(IndexError)
        else Ok(Properties(pieces[0], Dotted(OctetValues(MaskOctets(p))), text))
  }

  /** `octet | 1 << (7 - j)`: sets bit `j` of the octet, counting from its most
      significant bit. */
  function SetBit(octet: bv8, j: nat): bv8
    requires j < 8
  {
    octet | (1 << (7 - j))
  }

  lemma TopBitsStep(j: nat)
    requires j < 8
    ensures SetBit(TopBits(j), j) == TopBits(j + 1)
  {
    if j == 0 {} else if j == 1 {} else if j == 2 {} else if j == 3 {}
    else if j == 4 {} else if j == 5 {} else if j == 6 {} else {}
  }

  /** Prefix bit `i` falls in octet `i / 8`, at position `i % 8`. */
  lemma CoveredBitsStep(i: nat, k: nat)
    requires i < 32 && k < 4
    ensures k == i / 8 ==> CoveredBits(i, k) == i % 8 && CoveredBits(i + 1, k) == i % 8 + 1
    ensures k != i / 8 ==> CoveredBits(i + 1, k) == CoveredBits(i, k)
  {
  }

  /** One turn of the loop: setting prefix bit `i` turns the mask of `i` into the mask
      of `i + 1`. */
  lemma MaskOctetsStep(i: nat)
    requires i < 32
    ensures MaskOctets(i)[i / 8 := SetBit(MaskOctets(i)[i / 8], i % 8)] == MaskOctets(i + 1)
  {
    TopBitsStep(i % 8);
    var stepped := MaskOctets(i)[i / 8 := SetBit(MaskOctets(i)[i / 8], i % 8)];
    forall k | 0 <= k < 4
      ensures stepped[k] == MaskOctets(i + 1)[k]
    {
      CoveredBitsStep(i, k);
    }
  }

  /** A negative prefix sets no bit, like a prefix of 0. */
  lemma MaskOctetsAtEnd(i: int, p: int)
    requires (p >= 0 ==> i == p) && (p < 0 ==> i == 0)
    ensures MaskOctets(i) == MaskOctets(p)
  {
    assert forall k | 0 <= k < 4 :: CoveredBits(i, k) == CoveredBits(p, k);
  }

  /** The loop of lines 21-25: bit `i` of the prefix is OR-ed into octet `i // 8`;
      a prefix above 32 runs off the end of the four-octet buffer. */
  method SubnetMask(p: int) returns (r: Result<seq<bv8>, Raised>)
    ensures r == if p > 32 then Err(IndexError) else Ok(MaskOctets(p))
  {
    var subnetMask := new bv8[4](_ => 0);
    var i := 0;
    assert subnetMask[..] == MaskOctets(0);
    while i < p
      invariant 0 <= i <= 32
      invariant p >= 0 ==> i <= p
      invariant p < 0 ==> i == 0
      invariant subnetMask[..] == MaskOctets(i)
    {
      if i / 8 >= subnetMask.Length {
        return Err(IndexError);
      }
      MaskOctetsStep(i);
      subnetMask[i / 8] := SetBit(subnetMask[i / 8], i % 8);
      assert subnetMask[..] == MaskOctets(i)[i / 8 := SetBit(MaskOctets(i)[i / 8], i % 8)];
      i := i + 1;
    }
    MaskOctetsAtEnd(i, p);
    return Ok(subnetMask[..]);
  }

  /** `network_properties` as a whole (lines 8-27). */
  method NetworkProperties(spec: RangeSpec) returns (r: Result<Properties, Raised>)
    ensures r == PropertiesOf(spec)
  {
    var text :- RangeText(spec);
    var pieces := Split(text, '/');
    if |pieces| < 2 {
      return Err(IndexError);
    }
    var prefix := ParseInt(pieces[1]);
    if prefix.None? {
      return Err(ValueError);
    }
    var mask :- SubnetMask(prefix.value);
    return Ok(Properties(pieces[0], Dotted(OctetValues(mask)), text));
  }

  // ---------------------------------------------------------------------------
  // What the mask is

  /** Bit `j` of the 32-bit mask, counting from the most significant bit of octet 0. */
  predicate MaskBit(m: seq<bv8>, j: nat)
    requires |m| == 4 && j < 32
  {
    (m[j / 8] >> (7 - j % 8)) & 1 == 1
  }

  lemma TopBitsBit(n: nat, b: nat)
    requires n <= 8 && b < 8
    ensures (TopBits(n) >> (7 - b)) & 1 == 1 <==> b < n
  {
    if n == 0 {} else if n == 1 {} else if n == 2 {} else if n == 3 {}
    else if n == 4 {} else if n == 5 {} else if n == 6 {} else if n == 7 {} else {}
  }

  /** The mask of a prefix `p` in 0..32 has its first `p` bits set and the others clear. */
  lemma MaskContiguous(p: int)
    requires 0 <= p <= 32
    ensures forall j | 0 <= j < 32 :: MaskBit(MaskOctets(p), j) <==> j < p
  {
    forall j | 0 <= j < 32
      ensures MaskBit(MaskOctets(p), j) <==> j < p
    {
      TopBitsBit(CoveredBits(p, j / 8), j % 8);
    }
  }

  /** The number of set bits among the first `n` bits of the mask. */
  function SetBits(m: seq<bv8>, n: nat): nat
    requires |m| == 4 && n <= 32
  {
    if n == 0 then 0 else SetBits(m, n - 1) + (if MaskBit(m, n - 1) then 1 else 0)
  }

  /** The mask of a prefix `p` in 0..32 has exactly `p` set bits. */
  lemma {:induction false} MaskPopulation(p: int)
    requires 0 <= p <= 32
    ensures SetBits(MaskOctets(p), 32) == p
  {
    MaskContiguous(p);
    var n := 0;
    while n < 32
      invariant 0 <= n <= 32
      invariant SetBits(MaskOctets(p), n) == if n < p then n else p
    {
      n := n + 1;
    }
  }

  lemma TopBitsTable(n: nat)
    requires 0 < n <= 8
    ensures TopBits(n) as int == [128, 192, 224, 240, 248, 252, 254, 255][n - 1]
  {
    if n == 1 {} else if n == 2 {} else if n == 3 {} else if n == 4 {}
    else if n == 5 {} else if n == 6 {} else if n == 7 {} else {}
  }

  lemma Pow2Table(n: nat)
    requires 0 < n <= 8
    ensures Pow2(8 - n) == [128, 64, 32, 16, 8, 4, 2, 1][n - 1]
  {
    assert Pow2(0) == 1 && Pow2(1) == 2 && Pow2(2) == 4 && Pow2(3) == 8;
    assert Pow2(4) == 16 && Pow2(5) == 32 && Pow2(6) == 64 && Pow2(7) == 128;
  }

  lemma TopBitsValue(n: nat)
    requires 0 < n <= 8
    ensures TopBits(n) as int == 256 - Pow2(8 - n)
  {
    TopBitsTable(n);
    Pow2Table(n);
  }

  /** Octet `k` of the mask is 255 once the prefix covers it, 0 before the prefix
      reaches it, and otherwise has exactly its top `p - 8k` bits set. */
  lemma MaskOctetValue(p: int, k: nat)
    requires k < 4
    ensures p >= 8 * (k + 1) ==> MaskOctets(p)[k] as int == 255
    ensures p <= 8 * k ==> MaskOctets(p)[k] as int == 0
    ensures 8 * k < p < 8 * (k + 1) ==> MaskOctets(p)[k] as int == 256 - Pow2(8 - (p - 8 * k))
  {
    if CoveredBits(p, k) > 0 {
      TopBitsValue(CoveredBits(p, k));
    }
  }

  // ---------------------------------------------------------------------------
  // What network_properties returns

  lemma NumeralsUsed()
    ensures IntToString(0) == "0" && IntToString(24) == "24" && IntToString(29) == "29"
    ensures IntToString(248) == "248" && IntToString(255) == "255"
  {
    assert NatToString(24) == NatToString(2) + "4";
    assert NatToString(29) == NatToString(2) + "9";
    assert NatToString(24) == NatToString(2) + "4";
    assert NatToString(248) == NatToString(24) + "8";
    assert NatToString(255) == NatToString(25) + "5";
    assert NatToString(25) == NatToString(2) + "5";
  }

  lemma DefaultRangePieces()
    ensures Split(DefaultRange, '/') == ["192.168.1.0", "24"]
    ensures ParseInt("24") == Some(24)
  {
    assert DefaultRange == "192.168.1.0" + ['/'] + "24";
    SplitPair("192.168.1.0", "24", '/');
    NumeralsUsed();
    ParseIntToString(24);
  }

  lemma MaskOctets24()
    ensures OctetValues(MaskOctets(24)) == [255, 255, 255, 0]
  {
    assert MaskOctets(24) == [0xFF, 0xFF, 0xFF, 0];
  }

  lemma DottedMask24()
    ensures Dotted([255, 255, 255, 0]) == "255.255.255.0"
  {
    NumeralsUsed();
    DottedFourOctets(255, 255, 255, 0);
  }

  lemma MaskText24()
    ensures Dotted(OctetValues(MaskOctets(24))) == "255.255.255.0"
  {
    MaskOctets24();
    DottedMask24();
  }

  /** With no range the default network "192.168.1.0/24" is described. */
  lemma DefaultProperties()
    ensures PropertiesOf(NoRange) == Ok(Properties("192.168.1.0", "255.255.255.0", "192.168.1.0/24"))
  {
    DefaultRangePieces();
    MaskText24();
    assert PropertiesOf(NoRange) == PropertiesOfText(DefaultRange);
  }

  /** CIDR text `ip/p`: the address is the text before the `/`, the range comes back
      unchanged, and the prefix must be at most 32. */
  lemma CidrProperties(ip: string, p: int)
    requires '/' !in ip
    ensures var text := ip + "/" + IntToString(p);
      PropertiesOf(Cidr(text)) == if p > 32 then Err(IndexError) else Ok(Properties(ip, Dotted(OctetValues(MaskOctets(p))), text))
  {
    IntToStringChars(p);
    SplitPair(ip, IntToString(p), '/');
    ParseIntToString(p);
  }

  /** Any CIDR text that is accepted keeps the text as the range and yields the text
      before the first `/` as the server address. */
  lemma CidrKeepsText(text: string)
    requires text != "" && PropertiesOf(Cidr(text)).Ok?
    ensures var props := PropertiesOf(Cidr(text)).value;
      && props.networkRange == text
      && '/' !in props.serverIp
      && |props.serverIp| < |text|
      && text[..|props.serverIp|] == props.serverIp
      && text[|props.serverIp|] == '/'
  {
    var pieces := Split(text, '/');
    assert text == Join(pieces, '/') == pieces[0] + "/" + Join(pieces[1..], '/');
  }

  /** A (first, last) pair: only the last octets are read, the prefix is
      `32 - bit_length(last - first)` (see `SpanPrefix`), and the first address is
      the server address. */
  lemma SpanProperties(first: string, last: string, p: int)
    requires '/' !in first
    requires SpanPrefix(first, last) == Some(p)
    ensures PropertiesOf(Span(first, last)) == Ok(Properties(first, Dotted(OctetValues(MaskOctets(p))), first + "/" + IntToString(p)))
  {
    var text := first + "/" + IntToString(p);
    assert RangeText(Span(first, last)) == Ok(text);
    assert PropertiesOf(Span(first, last)) == PropertiesOfText(text) == PropertiesOf(Cidr(text));
    CidrProperties(first, p);
  }

  lemma LastFieldOfLast()
    ensures LastField("10.0.0.7") == "7"
  {
    assert "10.0.0.7" == "10" + ['.'] + "0.0.7";
    assert "0.0.7" == "0" + ['.'] + "0.7";
    assert "0.7" == "0" + ['.'] + "7";
    SplitAfterPiece("10", "0.0.7", '.');
    SplitAfterPiece("0", "0.7", '.');
    SplitPair("0", "7", '.');
  }

  lemma LastFieldOfFirst()
    ensures LastField("10.0.0.0") == "0"
  {
    assert "10.0.0.0" == "10" + ['.'] + "0.0.0";
    assert "0.0.0" == "0" + ['.'] + "0.0";
    assert "0.0" == "0" + ['.'] + "0";
    SplitAfterPiece("10", "0.0.0", '.');
    SplitAfterPiece("0", "0.0", '.');
    SplitPair("0", "0", '.');
  }

  /** `p` is the prefix for a span `d` of last octets: a single address (`d == 0`) is
      a /32, and otherwise the host part of `32 - p` bits is the least that holds
      `|d|`. */
  predicate PrefixSpans(d: int, p: int) {
    && p <= 32
    && (p == 32 <==> d == 0)
    && (d != 0 ==> p <= 31 && Pow2(31 - p) <= (if d < 0 then -d else d) < Pow2(32 - p))
  }

  /** The prefix is defined exactly when both last fields are numbers, and then it
      spans their difference. */
  lemma SpanPrefixBounds(first: string, last: string)
    ensures SpanPrefix(first, last).Some? <==> ParseInt(LastField(first)).Some? && ParseInt(LastField(last)).Some?
    ensures SpanPrefix(first, last).Some? ==>
      PrefixSpans(ParseInt(LastField(last)).value - ParseInt(LastField(first)).value, SpanPrefix(first, last).value)
  {
    FieldsPrefixSpans(ParseInt(LastField(last)), ParseInt(LastField(first)));
  }

  lemma FieldsPrefixSpans(high: Option<int>, low: Option<int>)
    ensures FieldsPrefix(high, low).Some? <==> high.Some? && low.Some?
    ensures FieldsPrefix(high, low).Some? ==> PrefixSpans(high.value - low.value, FieldsPrefix(high, low).value)
  {
    if high.Some? && low.Some? {
      PrefixOfDifference(high.value - low.value);
    }
  }

  /** `32 - bit_length(d)` spans `d`. */
  lemma PrefixOfDifference(d: int)
    ensures PrefixSpans(d, 32 - BitLength(d))
  {
    BitLengthBounds(d);
  }

  lemma SmallNumbers()
    ensures ParseInt("7") == Some(7) && ParseInt("0") == Some(0) && BitLength(7) == 3
  {
  }

  /** Any pair whose last fields are "0" and "7" is a /29. */
  lemma PrefixOfFields07(first: string, last: string)
    requires LastField(first) == "0" && LastField(last) == "7"
    ensures SpanPrefix(first, last) == Some(29)
  {
    SmallNumbers();
    assert SpanPrefix(first, last) == FieldsPrefix(Some(7), Some(0));
  }

  lemma PrefixOfExample()
    ensures SpanPrefix("10.0.0.0", "10.0.0.7") == Some(29)
  {
    LastFieldOfLast();
    LastFieldOfFirst();
    PrefixOfFields07("10.0.0.0", "10.0.0.7");
  }

  lemma MaskOctets29()
    ensures OctetValues(MaskOctets(29)) == [255, 255, 255, 248]
  {
    assert MaskOctets(29) == [0xFF, 0xFF, 0xFF, 0xF8];
  }

  lemma DottedMask29()
    ensures Dotted([255, 255, 255, 248]) == "255.255.255.248"
  {
    NumeralsUsed();
    DottedFourOctets(255, 255, 255, 248);
  }

  lemma MaskText29()
    ensures Dotted(OctetValues(MaskOctets(29))) == "255.255.255.248"
  {
    MaskOctets29();
    DottedMask29();
  }

  lemma RangeTextOfSpan(first: string, last: string, p: int, text: string)
    requires SpanPrefix(first, last) == Some(p) && first + "/" + IntToString(p) == text
    ensures RangeText(Span(first, last)) == Ok(text)
  {
  }

  lemma TextOfExample()
    ensures "10.0.0.0" + "/" + IntToString(29) == "10.0.0.0/29"
  {
    assert IntToString(29) == "29" by {
      assert NatToString(29) == NatToString(2) + "9";
    }
  }

  lemma RangeTextOfExample()
    ensures RangeText(Span("10.0.0.0", "10.0.0.7")) == Ok("10.0.0.0/29")
  {
    PrefixOfExample();
    TextOfExample();
    RangeTextOfSpan("10.0.0.0", "10.0.0.7", 29, "10.0.0.0/29");
  }

  lemma PropertiesOfExampleText()
    ensures PropertiesOfText("10.0.0.0/29") == Ok(Properties("10.0.0.0", "255.255.255.248", "10.0.0.0/29"))
  {
    assert "10.0.0.0/29" == "10.0.0.0" + ['/'] + "29";
    SplitPair("10.0.0.0", "29", '/');
    NumeralsUsed();
    ParseIntToString(29);
    MaskText29();
  }

  /** ("10.0.0.0", "10.0.0.7") is the /29 network with mask 255.255.255.248. */
  lemma SpanExample()
    ensures PropertiesOf(Span("10.0.0.0", "10.0.0.7")) == Ok(Properties("10.0.0.0", "255.255.255.248", "10.0.0.0/29"))
  {
    RangeTextOfExample();
    PropertiesOfExampleText();
  }
}
