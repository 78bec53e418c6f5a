/** The Python built-ins the VPN's control plane leans on, stated as total functions:
    `str(int)`, `int(str)`, `str.split`/`str.join` with a one-character separator,
    `str.encode()` (UTF-8) and `bytes.decode()`, `bytes(list)`, `struct`'s `Ns` fields,
    `bytes.hex()` and `int.bit_length()`. A raised exception is an `Err` of `Raised`. */
module Builtins {
  import opened Wrappers

  type byte = x: int | 0 <= x < 256

  /** The exceptions the modelled code can raise. */
  datatype Raised =
    | ValueError            // int() of a non-number, bytes() of a value outside 0..255
    | IndexError            // list or bytes index out of range
    | KeyError              // missing dictionary key
    | TypeError             // subscripting None, popping with a non-integer index
    | AttributeError        // calling a str method on None
    | UnicodeDecodeError    // bytes.decode() of bytes that are not text
    | StructError           // struct.unpack of a buffer of the wrong size
    | AddressConflict(address: Option<string>)
    | ConnectionFailed      // the client's "incorrect credentials" exception

  // ---------------------------------------------------------------------------
  // str(int) and int(str)

  predicate IsDigit(c: char) {
    '0' <= c <= '9'
  }

  predicate AllDigits(s: string) {
    forall i | 0 <= i < |s| :: IsDigit(s[i])
  }

  function DigitChar(d: nat): (c: char)
    requires d < 10
    ensures IsDigit(c) && c as int - '0' as int == d
  {
    ('0' as int + d) as char
  }

  /** The decimal value of a string of ASCII digits, most significant first. */
  function DigitsValue(s: string): nat
    requires AllDigits(s)
    decreases |s|
  {
    if s == [] then 0 else DigitsValue(s[..|s| - 1]) * 10 + (s[|s| - 1] as int - '0' as int)
  }

  /** `str(n)` for a non-negative `n`: the digits read back as the number itself. */
  function NatToString(n: nat): (s: string)
    ensures |s| > 0 && AllDigits(s) && DigitsValue(s) == n
    decreases n
  {
    if n < 10 then [DigitChar(n)]
    else
      var s := NatToString(n / 10) + [DigitChar(n % 10)];
      assert s[..|s| - 1] == NatToString(n / 10);
      s
  }

  /** `str(n)`: a minus sign for negative numbers, then the decimal digits. */
  function IntToString(n: int): string {
    if n < 0 then "-" + NatToString(-n) else NatToString(n)
  }

  /** `int(s)` for base 10, narrowed to an optional sign followed by one or more ASCII
      digits; `None` is the `ValueError`. Python also accepts surrounding whitespace,
      single underscores between digits and non-ASCII decimal digits, which this
      model rejects. */
  function ParseInt(s: string): Option<int> {
    if |s| > 0 && (s[0] == '-' || s[0] == '+') then
      if |s| > 1 && AllDigits(s[1..]) then
        var v: int := DigitsValue(s[1..]);
        Some(if s[0] == '-' then -v else v)
      else None
    else if |s| > 0 && AllDigits(s) then Some(DigitsValue(s))
    else None
  }

  lemma ParseIntToString(n: int)
    ensures ParseInt(IntToString(n)) == Some(n)
  {
    if n < 0 {
      assert IntToString(n)[1..] == NatToString(-n);
    }
  }

  /** `str(n)` holds only digits and possibly a leading minus sign, so it never
      contains the separators `.`, `/` or `:` the addresses and keys are built with. */
  lemma IntToStringChars(n: int)
    ensures forall i | 0 <= i < |IntToString(n)| :: IsDigit(IntToString(n)[i]) || IntToString(n)[i] == '-'
  {
  }

  // ---------------------------------------------------------------------------
  // str.split(sep) and sep.join(parts), for a one-character separator

  /** `s.split(sep)`: the pieces between separators, at least one (possibly empty) piece,
      none holding the separator, and joining them back gives `s`. */
  function Split(s: string, sep: char): (parts: seq<string>)
    ensures |parts| >= 1
    ensures forall i | 0 <= i < |parts| :: sep !in parts[i]
    ensures Join(parts, sep) == s
    decreases |s|
  {
    if s == [] then [""]
    else
      var rest := Split(s[1..], sep);
      if s[0] == sep then
        var parts := [""] + rest;
        assert parts[1..] == rest;
        parts
      else
        var parts := [[s[0]] + rest[0]] + rest[1..];
        assert |rest| > 1 ==> rest == [rest[0]] + rest[1..];
        assert |rest| > 1 ==> parts[1..] == rest[1..];
        parts
  }

  /** `sep.join(parts)`. */
  function Join(parts: seq<string>, sep: char): string
    decreases |parts|
  {
    if |parts| == 0 then ""
    else if |parts| == 1 then parts[0]
    else parts[0] + [sep] + Join(parts[1..], sep)
  }

  lemma {:induction false} SplitWithoutSeparator(s: string, sep: char)
    requires sep !in s
    ensures Split(s, sep) == [s]
    decreases |s|
  {
    if s != [] {
      SplitWithoutSeparator(s[1..], sep);
    }
  }

  /** Splitting `p + [sep] + t` where `p` holds no separator yields `p` and then the pieces of `t`. */
  lemma {:induction false} SplitAfterPiece(p: string, t: string, sep: char)
    requires sep !in p
    ensures Split(p + [sep] + t, sep) == [p] + Split(t, sep)
    decreases |p|
  {
    var s := p + [sep] + t;
    if p == [] {
      assert s[1..] == t;
    } else {
      assert s[1..] == p[1..] + [sep] + t;
      SplitAfterPiece(p[1..], t, sep);
      assert [p[0]] + p[1..] == p;
    }
  }

  /** Round trip: splitting a join of separator-free pieces recovers the pieces. */
  lemma {:induction false} SplitJoin(parts: seq<string>, sep: char)
    requires |parts| >= 1
    requires forall i | 0 <= i < |parts| :: sep !in parts[i]
    ensures Split(Join(parts, sep), sep) == parts
    decreases |parts|
  {
    if |parts| == 1 {
      SplitWithoutSeparator(parts[0], sep);
    } else {
      SplitJoin(parts[1..], sep);
      SplitAfterPiece(parts[0], Join(parts[1..], sep), sep);
      assert [parts[0]] + parts[1..] == parts;
    }
  }

  /** `p + [sep] + q` splits into exactly `[p, q]` when neither holds the separator. */
  lemma SplitPair(p: string, q: string, sep: char)
    requires sep !in p && sep !in q
    ensures Split(p + [sep] + q, sep) == [p, q]
  {
    assert Join([p, q], sep) == p + [sep] + q;
    SplitJoin([p, q], sep);
  }

  // ---------------------------------------------------------------------------
  // Dotted decimal text: '.'.join(str(n) for n in octets) and list(map(int, s.split('.')))

  function DecimalStrings(o: seq<int>): (r: seq<string>)
    ensures |r| == |o| && forall i | 0 <= i < |o| :: r[i] == IntToString(o[i])
  {
    if o == [] then [] else [IntToString(o[0])] + DecimalStrings(o[1..])
  }

  /** `'.'.join(map(str, o))`. */
  function Dotted(o: seq<int>): string {
    Join(DecimalStrings(o), '.')
  }

  /** Four parts joined by `sep`. */
  lemma JoinFour(p: string, q: string, r: string, s: string, sep: char)
    ensures Join([p, q, r, s], sep) == p + [sep] + q + [sep] + r + [sep] + s
  {
    assert [p, q, r, s][1..] == [q, r, s] && [q, r, s][1..] == [r, s] && [r, s][1..] == [s];
    assert Join([r, s], sep) == r + [sep] + s;
    assert Join([q, r, s], sep) == q + [sep] + (r + [sep] + s);
  }

  /** A four-octet address in dotted form. */
  lemma DottedFourOctets(a: int, b: int, c: int, d: int)
    ensures Dotted([a, b, c, d]) == IntToString(a) + "." + IntToString(b) + "." + IntToString(c) + "." + IntToString(d)
  {
    var strs := DecimalStrings([a, b, c, d]);
    assert strs == [IntToString(a), IntToString(b), IntToString(c), IntToString(d)];
    JoinFour(IntToString(a), IntToString(b), IntToString(c), IntToString(d), '.');
  }

  /** `list(map(int, fields))`: `None` when some field is not a number. */
  function ParseDecimals(fields: seq<string>): (r: Option<seq<int>>)
    ensures r.Some? <==> forall i | 0 <= i < |fields| :: ParseInt(fields[i]).Some?
    ensures r.Some? ==> |r.value| == |fields| && forall i | 0 <= i < |fields| :: ParseInt(fields[i]) == Some(r.value[i])
  {
    if fields == [] then Some([])
    else match (ParseInt(fields[0]), ParseDecimals(fields[1..]))
      case (Some(n), Some(ns)) =>
        var r := [n] + ns;
        assert forall i | 1 <= i < |fields| :: fields[i] == fields[1..][i - 1];
        Some(r)
      case (None, _) => None
      case (_, None) =>
        assert forall i | 1 <= i < |fields| :: fields[i] == fields[1..][i - 1];
        None
  }

  /** Round trip: the fields of a dotted rendering parse back to the numbers rendered. */
  lemma ParseDotted(o: seq<int>)
    requires |o| >= 1
    ensures ParseDecimals(Split(Dotted(o), '.')) == Some(o)
  {
    var strs := DecimalStrings(o);
    forall i | 0 <= i < |strs|
      ensures '.' !in strs[i] && ParseInt(strs[i]) == Some(o[i])
    {
      IntToStringChars(o[i]);
      ParseIntToString(o[i]);
    }
    SplitJoin(strs, '.');
    assert Split(Dotted(o), '.') == strs;
    var r := ParseDecimals(strs);
    assert r.Some?;
    assert |r.value| == |o|;
    assert forall i | 0 <= i < |o| :: r.value[i] == o[i];
    assert r.value == o;
  }

  /** Dotted rendering is one-to-one. */
  lemma DottedInjective(o: seq<int>, o': seq<int>)
    requires |o| >= 1 && |o'| >= 1
    requires Dotted(o) == Dotted(o')
    ensures o == o'
  {
    ParseDotted(o);
    ParseDotted(o');
  }

  predicate AllOctets(o: seq<int>) {
    forall i | 0 <= i < |o| :: 0 <= o[i] < 256
  }

  function AsBytes(o: seq<int>): (b: seq<byte>)
    requires AllOctets(o)
    ensures b == o
  {
    if o == [] then [] else [o[0] as byte] + AsBytes(o[1..])
  }

  /** `bytes(map(int, s.split('.')))`: `ValueError` for a field that is not a number
      or not in 0..255. */
  function DottedBytes(s: string): (r: Result<seq<byte>, Raised>)
    ensures r.Ok? <==> ParseDecimals(Split(s, '.')).Some? && AllOctets(ParseDecimals(Split(s, '.')).value)
    ensures r.Ok? ==> r.value == ParseDecimals(Split(s, '.')).value && |r.value| == |Split(s, '.')|
    ensures r.Err? ==> r.error == ValueError
  {
    match ParseDecimals(Split(s, '.'))
    case None => Err(ValueError)
    case Some(o) => if AllOctets(o) then Ok(AsBytes(o)) else Err(ValueError)
  }

  lemma DottedBytesOfDotted(o: seq<int>)
    requires |o| >= 1 && AllOctets(o)
    ensures DottedBytes(Dotted(o)) == Ok(o)
  {
    ParseDotted(o);
  }

  // ---------------------------------------------------------------------------
  // Slices

  function Min(a: int, b: int): int {
    if a <= b then a else b
  }

  /** `s[lo:hi]` for non-negative bounds: both bounds are clamped to the sequence,
      so the slice is empty or shorter rather than an error. */
  function Slice<T>(s: seq<T>, lo: nat, hi: nat): (r: seq<T>)
    ensures |r| == if Min(hi, |s|) <= lo then 0 else Min(hi, |s|) - lo
    ensures forall i | 0 <= i < |r| :: r[i] == s[lo + i]
  {
    if Min(hi, |s|) <= lo then [] else s[lo..Min(hi, |s|)]
  }

  // ---------------------------------------------------------------------------
  // Text encoding: str.encode() is UTF-8; bytes.decode() is modelled on ASCII only

  predicate IsAscii(s: string) {
    forall i | 0 <= i < |s| :: s[i] as int < 128
  }

  /** The UTF-8 encoding of one character: one byte below 128, up to four above. */
  function EncodeChar(c: char): (b: seq<byte>)
    ensures 1 <= |b| <= 4
    ensures |b| == 1 <==> c as int < 128
    ensures c as int < 128 ==> b == [c as int]
    ensures forall i | 0 <= i < |b| :: (b[i] < 128 <==> c as int < 128)
  {
    var n := c as int;
    if n < 0x80 then [n]
    else if n < 0x800 then [0xC0 + n / 64, 0x80 + n % 64]
    else if n < 0x10000 then [0xE0 + n / 4096, 0x80 + (n / 64) % 64, 0x80 + n % 64]
    else [0xF0 + n / 262144, 0x80 + (n / 4096) % 64, 0x80 + (n / 64) % 64, 0x80 + n % 64]
  }

  /** `s.encode()`: at least one byte per character, exactly one per ASCII character. */
  function Encode(s: string): (b: seq<byte>)
    ensures |b| >= |s|
    ensures IsAscii(s) ==> |b| == |s| && forall i | 0 <= i < |s| :: b[i] == s[i] as int
    decreases |s|
  {
    if s == [] then [] else EncodeChar(s[0]) + Encode(s[1..])
  }

  /** `b.decode()` restricted to ASCII: `None` (a `UnicodeDecodeError`) as soon as a byte
      is 128 or above. Multi-byte UTF-8 sequences are not decoded by this model. */
  function Decode(b: seq<byte>): (r: Option<string>)
    ensures r.Some? <==> forall i | 0 <= i < |b| :: b[i] < 128
    ensures r.Some? ==> IsAscii(r.value) && Encode(r.value) == b
    decreases |b|
  {
    if b == [] then Some([])
    else if b[0] >= 128 then None
    else match Decode(b[1..])
      case None => None
      case Some(rest) =>
        var s := [b[0] as char] + rest;
        assert s[1..] == rest;
        assert b == [b[0]] + b[1..];
        Some(s)
  }

  lemma {:induction false} DecodeEncode(s: string)
    requires IsAscii(s)
    ensures Decode(Encode(s)) == Some(s)
    decreases |s|
  {
    if s != [] {
      DecodeEncode(s[1..]);
      assert Encode(s) == [s[0] as int] + Encode(s[1..]);
      assert [s[0]] + s[1..] == s;
    }
  }

  // ---------------------------------------------------------------------------
  // bytes.hex(), struct 'Ns' fields, int.bit_length()

  function HexDigit(d: nat): (c: char)
    requires d < 16
    ensures c as int < 128
  {
    if d < 10 then ('0' as int + d) as char else ('a' as int + d - 10) as char
  }

  /** `b.hex()`: two lower-case hexadecimal digits per byte. */
  function Hex(b: seq<byte>): (s: string)
    ensures |s| == 2 * |b| && IsAscii(s)
  {
    if b == [] then "" else [HexDigit(b[0] / 16), HexDigit(b[0] % 16)] + Hex(b[1..])
  }

  /** What `struct.pack` writes for an `Ns` field: the first `n` bytes of `b`,
      NUL-padded when `b` is shorter. */
  function Field(b: seq<byte>, n: nat): (r: seq<byte>)
    ensures |r| == n
    ensures forall i | 0 <= i < n :: r[i] == if i < |b| then b[i] else 0
  {
    if |b| >= n then b[..n] else b + seq(n - |b|, _ => 0)
  }

  function Pow2(k: nat): (p: nat)
    ensures p >= 1
  {
    if k == 0 then 1 else 2 * Pow2(k - 1)
  }

  /** `n.bit_length()`: the number of binary digits of `|n|`, 0 for 0. */
  function BitLength(n: int): nat
    decreases if n < 0 then -n else n, if n < 0 then 1 else 0
  {
    if n < 0 then BitLength(-n)
    else if n == 0 then 0
    else 1 + BitLength(n / 2)
  }

  /** `bit_length` is the least `r` with `|n| < 2^r`. */
  lemma {:induction false} BitLengthBounds(n: int)
    ensures BitLength(n) == 0 <==> n == 0
    ensures n != 0 ==> Pow2(BitLength(n) - 1) <= (if n < 0 then -n else n) < Pow2(BitLength(n))
    decreases if n < 0 then -n else n, if n < 0 then 1 else 0
  {
    if n < 0 {
      BitLengthBounds(-n);
    } else if n > 0 {
      BitLengthBounds(n / 2);
    }
  }
}
