/** Dotted-quad and CIDR texts: strict parsing, canonical formatting, and their inversion. */
module Ipv4Text {
  import opened Wrappers
  import opened Ipv4Blocks

  predicate IsDigit(c: char) {
    '0' <= c <= '9'
  }

  predicate AllDigits(s: string) {
    forall k :: 0 <= k < |s| ==> IsDigit(s[k])
  }

  function DigitValue(c: char): int {
    c as int - '0' as int
  }

  function DigitChar(d: nat): char
    requires d < 10
  {
    ('0' as int + d) as char
  }

  /** The value of one to three digits. */
  function Number(s: string): (n: nat)
    requires 1 <= |s| <= 3 && AllDigits(s)
  {
    if |s| == 1 then DigitValue(s[0])
    else if |s| == 2 then 10 * DigitValue(s[0]) + DigitValue(s[1])
    else 100 * DigitValue(s[0]) + 10 * DigitValue(s[1]) + DigitValue(s[2])
  }

  /** The decimal rendering without leading zeros. */
  function Decimal(n: nat): string
    requires n < 1000
  {
    if n < 10 then [DigitChar(n)]
    else if n < 100 then [DigitChar(n / 10), DigitChar(n % 10)]
    else [DigitChar(n / 100), DigitChar(n / 10 % 10), DigitChar(n % 10)]
  }

  predicate NoLeadingZero(s: string) {
    && 1 <= |s| <= 3
    && AllDigits(s)
    && (s == "0" || s[0] != '0')
  }

  /** `0`, or one to three digits of which the first is not zero. */
  predicate IsOctetText(s: string) {
    NoLeadingZero(s)
  }

  /** `0`, or one or two digits of which the first is not zero. */
  predicate IsPrefixText(s: string) {
    NoLeadingZero(s) && |s| <= 2
  }

  // ---------------------------------------------------------------- splitting

  function Split(text: string, sep: char): (parts: seq<string>)
    ensures |parts| >= 1
  {
    if text == "" then [""]
    else
      var rest := Split(text[1..], sep);
      if text[0] == sep then [""] + rest else [[text[0]] + rest[0]] + rest[1..]
  }

  function Join(parts: seq<string>, sep: char): string
    requires |parts| >= 1
  {
    if |parts| == 1 then parts[0] else parts[0] + [sep] + Join(parts[1..], sep)
  }

  lemma {:induction false} JoinSplit(text: string, sep: char)
    ensures Join(Split(text, sep), sep) == text
  {
    if text != "" {
      JoinSplit(text[1..], sep);
      var rest, parts := Split(text[1..], sep), Split(text, sep);
      if text[0] == sep {
        assert parts[1..] == rest;
      } else {
        assert parts[1..] == rest[1..];
      }
    }
  }

  lemma {:induction false} SplitWithoutSeparator(part: string, sep: char)
    requires sep !in part
    ensures Split(part, sep) == [part]
  {
    if part != "" {
      SplitWithoutSeparator(part[1..], sep);
      assert part[0] in part && [part[0]] + part[1..] == part;
    }
  }

  lemma {:induction false} SplitPrepend(part: string, rest: string, sep: char)
    requires sep !in part
    ensures Split(part + [sep] + rest, sep) == [part] + Split(rest, sep)
  {
    var text := part + [sep] + rest;
    if part == "" {
      assert text[1..] == rest;
    } else {
      assert text[1..] == part[1..] + [sep] + rest;
      assert part[0] in part && [part[0]] + part[1..] == part;
      SplitPrepend(part[1..], rest, sep);
    }
  }

  lemma {:induction false} SplitJoin(parts: seq<string>, sep: char)
    requires |parts| >= 1 && forall k :: 0 <= k < |parts| ==> sep !in parts[k]
    ensures Split(Join(parts, sep), sep) == parts
  {
    if |parts| == 1 {
      SplitWithoutSeparator(parts[0], sep);
    } else {
      SplitJoin(parts[1..], sep);
      SplitPrepend(parts[0], Join(parts[1..], sep), sep);
    }
  }

  // ---------------------------------------------------------------- decimal numbers

  lemma NumberOfDecimal(n: nat)
    requires n < 1000
    ensures NoLeadingZero(Decimal(n)) && Number(Decimal(n)) == n
    ensures n < 100 ==> |Decimal(n)| <= 2
  {
    var a, b, c := n / 100, n / 10 % 10, n % 10;
    assert n == 100 * a + 10 * b + c;
  }

  lemma DecimalOfNumber(s: string)
    requires NoLeadingZero(s)
    ensures Number(s) < 1000 && Decimal(Number(s)) == s
  {
    forall k | 0 <= k < |s| ensures 0 <= DigitValue(s[k]) < 10 && DigitChar(DigitValue(s[k])) == s[k] {}
    if |s| == 2 {
      DigitsOf(0, DigitValue(s[0]), DigitValue(s[1]));
    } else if |s| == 3 {
      DigitsOf(DigitValue(s[0]), DigitValue(s[1]), DigitValue(s[2]));
    }
  }

  lemma DigitsOf(a: int, b: int, c: int)
    requires 0 <= a < 10 && 0 <= b < 10 && 0 <= c < 10
    ensures var n := 100 * a + 10 * b + c; n / 100 == a && n / 10 == 10 * a + b && n / 10 % 10 == b && n % 10 == c
  {
    assert (100 * a + 10 * b + c) / 10 == 10 * a + b;
  }

  // ---------------------------------------------------------------- addresses

  function ParseOctets(parts: seq<string>): Option<nat> {
    if parts == [] then Some(0)
    else
      var part := parts[|parts| - 1];
      match ParseOctets(parts[..|parts| - 1])
      case None => None
      case Some(value) =>
        if IsOctetText(part) && Number(part) <= 255 then Some(value * 256 + Number(part)) else None
  }

  /** The value of a strict dotted quad; `None` for every other text. */
  function AddressOfText(text: string): Option<nat> {
    var parts := Split(text, '.');
    if |parts| == 4 then ParseOctets(parts) else None
  }

  lemma {:induction false} ParseOctetsFailsOnPrefix(parts: seq<string>, n: nat)
    requires n <= |parts| && ParseOctets(parts[..n]) == None
    ensures ParseOctets(parts) == None
  {
    if n < |parts| {
      assert parts[..|parts| - 1][..n] == parts[..n];
      ParseOctetsFailsOnPrefix(parts[..|parts| - 1], n);
    } else {
      assert parts[..n] == parts;
    }
  }

  /** The address a text of exactly four canonical octets stands for; `None` for every other text. */
  method ParseIpv4Address(text: string) returns (address: Option<nat>)
    ensures address == AddressOfText(text)
  {
    var parts := Split(text, '.');
    if |parts| != 4 { return None; }
    var value := 0;
    for i := 0 to |parts|
      invariant ParseOctets(parts[..i]) == Some(value)
    {
      var part := parts[i];
      assert parts[..i + 1][..i] == parts[..i];
      if !IsOctetText(part) || Number(part) > 255 {
        ParseOctetsFailsOnPrefix(parts, i + 1);
        return None;
      }
      value := value * 256 + Number(part);
    }
    assert parts[..|parts|] == parts;
    return Some(value);
  }

  function Octets(value: nat): seq<nat> {
    [value / 0x100_0000 % 256, value / 0x1_0000 % 256, value / 0x100 % 256, value % 256]
  }

  function FormatOctets(o: seq<nat>): string
    requires |o| == 4 && forall k :: 0 <= k < 4 ==> o[k] < 256
  {
    Join([Decimal(o[0]), Decimal(o[1]), Decimal(o[2]), Decimal(o[3])], '.')
  }

  function FormatIpv4Address(value: nat): string {
    FormatOctets(Octets(value))
  }

  function FromOctets(o: seq<nat>): nat
    requires |o| == 4
  {
    ((o[0] * 256 + o[1]) * 256 + o[2]) * 256 + o[3]
  }

  lemma OctetsRoundTrip(o: seq<nat>)
    requires |o| == 4 && forall k :: 0 <= k < 4 ==> o[k] < 256
    ensures Octets(FromOctets(o)) == o && FromOctets(o) < ADDRESSES
  {
    var v := FromOctets(o);
    assert v / 0x100 == (o[0] * 256 + o[1]) * 256 + o[2];
    assert v / 0x1_0000 == o[0] * 256 + o[1];
    assert v / 0x100_0000 == o[0];
  }

  lemma FromOctetsOf(value: nat)
    requires value < ADDRESSES
    ensures FromOctets(Octets(value)) == value
  {
    assert value / 0x1_0000 == value / 0x100 / 256;
    assert value / 0x100_0000 == value / 0x1_0000 / 256;
  }

  lemma ParseFourOctets(parts: seq<string>)
    requires |parts| == 4
    ensures ParseOctets(parts).Some? <==>
      forall k :: 0 <= k < 4 ==> IsOctetText(parts[k]) && Number(parts[k]) <= 255
    ensures ParseOctets(parts).Some? ==>
      ParseOctets(parts).value
      == FromOctets([Number(parts[0]), Number(parts[1]), Number(parts[2]), Number(parts[3])])
  {
    var p3 := parts[..3];
    var p2 := p3[..2];
    var p1 := p2[..1];
    assert p1[..0] == [] && ParseOctets([]) == Some(0);
    assert p3[2] == parts[2] && p2[1] == parts[1] && p1[0] == parts[0];
    assert ParseOctets(p1).Some? <==> IsOctetText(parts[0]) && Number(parts[0]) <= 255;
    assert ParseOctets(p2).Some? <==> ParseOctets(p1).Some? && IsOctetText(parts[1]) && Number(parts[1]) <= 255;
    assert ParseOctets(p3).Some? <==> ParseOctets(p2).Some? && IsOctetText(parts[2]) && Number(parts[2]) <= 255;
  }

  lemma ParseOfFormattedOctets(o: seq<nat>)
    requires |o| == 4 && forall k :: 0 <= k < 4 ==> o[k] < 256
    ensures AddressOfText(FormatOctets(o)) == Some(FromOctets(o))
  {
    var parts := [Decimal(o[0]), Decimal(o[1]), Decimal(o[2]), Decimal(o[3])];
    forall k | 0 <= k < 4 ensures IsOctetText(parts[k]) && Number(parts[k]) == o[k] && '.' !in parts[k] {
      NumberOfDecimal(o[k]);
    }
    SplitJoin(parts, '.');
    ParseFourOctets(parts);
  }

  /** Parsing undoes formatting on every address. */
  lemma ParseOfFormattedAddress(value: nat)
    requires value < ADDRESSES
    ensures AddressOfText(FormatIpv4Address(value)) == Some(value)
  {
    ParseOfFormattedOctets(Octets(value));
    FromOctetsOf(value);
  }

  /** Formatting undoes parsing on every accepted text. */
  lemma FormatOfParsedAddress(text: string)
    requires AddressOfText(text).Some?
    ensures AddressOfText(text).value < ADDRESSES
    ensures FormatIpv4Address(AddressOfText(text).value) == text
    ensures '/' !in text
  {
    var parts := Split(text, '.');
    ParseFourOctets(parts);
    forall k | 0 <= k < 4 ensures Decimal(Number(parts[k])) == parts[k] {
      DecimalOfNumber(parts[k]);
    }
    OctetsRoundTrip([Number(parts[0]), Number(parts[1]), Number(parts[2]), Number(parts[3])]);
    assert parts == [parts[0], parts[1], parts[2], parts[3]];
    JoinSplit(text, '.');
    JoinAvoids(parts, '.', '/');
  }

  lemma {:induction false} JoinAvoids(parts: seq<string>, sep: char, c: char)
    requires |parts| >= 1 && sep != c && forall k :: 0 <= k < |parts| ==> c !in parts[k]
    ensures c !in Join(parts, sep)
  {
    if |parts| > 1 { JoinAvoids(parts[1..], sep, c); }
  }

  // ---------------------------------------------------------------- CIDR texts

  /** The index of the first `c` at or after `from`, or the length of the text. */
  function IndexOf(text: string, c: char, from: nat): (i: nat)
    requires from <= |text|
    ensures from <= i <= |text| && (i < |text| ==> text[i] == c) && c !in text[from..i]
    decreases |text| - from
  {
    if from == |text| || text[from] == c then from else IndexOf(text, c, from + 1)
  }

  lemma {:induction false} IndexOfFirst(text: string, c: char, from: nat, at: nat)
    requires from <= at < |text| && text[at] == c && c !in text[from..at]
    ensures IndexOf(text, c, from) == at
    decreases at - from
  {
    if from < at {
      assert text[from] == text[from..at][0];
      assert text[from + 1..at] == text[from..at][1..];
      IndexOfFirst(text, c, from + 1, at);
    }
  }

  /** The address and prefix parts of a CIDR text; a bare address stands for `/32`. */
  function CidrParts(text: string): (parts: (string, string))
    ensures parts.0 + "/" + parts.1 == if '/' in text then text else text + "/32"
  {
    var slash := IndexOf(text, '/', 0);
    assert text[0..slash] == text[..slash];
    if slash == |text| then (text, "32")
    else
      assert text == text[..slash] + "/" + text[slash + 1..];
      (text[..slash], text[slash + 1..])
  }

  /** The aligned block that an address with or without a prefix length names; unaligned ones are refused. */
  function ParseIpv4Cidr(text: string): (r: Option<Cidr>)
    ensures r.Some? ==> Aligned(r.value)
  {
    var (addressText, prefixText) := CidrParts(text);
    if !IsPrefixText(prefixText) || Number(prefixText) > 32 then None
    else
      var prefix := Number(prefixText);
      match AddressOfText(addressText)
      case None => None
      case Some(address) =>
        if address % PrefixSize(prefix) != 0 then None else Some(Cidr(address, prefix))
  }

  function FormatIpv4Cidr(c: Cidr): string
    requires 0 <= c.address && c.prefix <= 32
  {
    FormatIpv4Address(c.address) + "/" + Decimal(c.prefix)
  }

  /** The one text of the block that the given text names, if it names any. */
  function CanonicalIpv4Cidr(text: string): Option<string> {
    match ParseIpv4Cidr(text)
    case None => None
    case Some(c) => FormatOfParsedCidr(text); Some(FormatIpv4Cidr(c))
  }

  /** Parsing undoes formatting on every aligned block. */
  lemma ParseOfFormattedCidr(c: Cidr)
    requires Aligned(c) && 0 <= c.address < ADDRESSES
    ensures ParseIpv4Cidr(FormatIpv4Cidr(c)) == Some(c)
  {
    var text, address, prefix := FormatIpv4Cidr(c), FormatIpv4Address(c.address), Decimal(c.prefix);
    ParseOfFormattedAddress(c.address);
    FormatOfParsedAddress(address);
    NumberOfDecimal(c.prefix);
    var slash := IndexOf(text, '/', 0);
    assert text[0..|address|] == address && text[|address|] == '/';
    IndexOfFirst(text, '/', 0, |address|);
    assert CidrParts(text) == (address, prefix);
  }

  /** The bare address is accepted and stands for its own block. */
  lemma ParseOfBareAddress(value: nat)
    requires value < ADDRESSES
    ensures ParseIpv4Cidr(FormatIpv4Address(value)) == Some(Cidr(value, 32))
  {
    var text := FormatIpv4Address(value);
    ParseOfFormattedAddress(value);
    FormatOfParsedAddress(text);
    assert IndexOf(text, '/', 0) == |text|;
    NumberOfDecimal(32);
    assert PrefixSize(32) == 1;
  }

  /** Exactly these texts are accepted: an aligned block in canonical form, and a bare address. */
  lemma AcceptedTextIff(text: string, c: Cidr)
    ensures ParseIpv4Cidr(text) == Some(c) <==>
      && Aligned(c) && 0 <= c.address < ADDRESSES
      && (text == FormatIpv4Cidr(c) || (c.prefix == 32 && text == FormatIpv4Address(c.address)))
  {
    if ParseIpv4Cidr(text) == Some(c) {
      FormatOfParsedCidr(text);
      if '/' !in text { BareTextIsAddress(text, c); }
    }
    if Aligned(c) && 0 <= c.address < ADDRESSES {
      ParseOfFormattedCidr(c);
      ParseOfBareAddress(c.address);
    }
  }

  lemma BareTextIsAddress(text: string, c: Cidr)
    requires ParseIpv4Cidr(text) == Some(c) && '/' !in text
    ensures c.prefix == 32 && text == FormatIpv4Address(c.address)
  {
    hide AddressOfText, FormatIpv4Address, Aligned, Decimal;
    var (addressText, prefixText) := CidrParts(text);
    assert addressText == text && prefixText == "32";
    FormatOfParsedAddress(text);
  }

  /** The first octet is the most significant one. */
  lemma AddressOfOctets(a: nat, b: nat, c: nat, d: nat)
    requires a < 256 && b < 256 && c < 256 && d < 256
    ensures var text := Decimal(a) + "." + Decimal(b) + "." + Decimal(c) + "." + Decimal(d);
      AddressOfText(text) == Some(a * 0x100_0000 + b * 0x1_0000 + c * 0x100 + d)
  {
    ParseOfFormattedOctets([a, b, c, d]);
    hide AddressOfText;
    JoinFour(Decimal(a), Decimal(b), Decimal(c), Decimal(d));
  }

  lemma JoinFour(a: string, b: string, c: string, d: string)
    ensures Join([a, b, c, d], '.') == a + "." + b + "." + c + "." + d
  {
    assert [a, b, c, d][1..] == [b, c, d] && [b, c, d][1..] == [c, d] && [c, d][1..] == [d];
    assert Join([d], '.') == d;
    assert Join([c, d], '.') == c + "." + d;
    assert Join([b, c, d], '.') == b + "." + Join([c, d], '.');
    assert a + "." + (b + "." + (c + "." + d)) == a + "." + b + "." + c + "." + d;
  }

  /** A text of four octets and a prefix length under which the address is aligned. */
  lemma CidrOfOctets(a: nat, b: nat, c: nat, d: nat, prefix: nat)
    requires a < 256 && b < 256 && c < 256 && d < 256 && prefix <= 32
    requires (a * 0x100_0000 + b * 0x1_0000 + c * 0x100 + d) % PrefixSize(prefix) == 0
    ensures var text := Decimal(a) + "." + Decimal(b) + "." + Decimal(c) + "." + Decimal(d) + "/" + Decimal(prefix);
      ParseIpv4Cidr(text) == Some(Cidr(a * 0x100_0000 + b * 0x1_0000 + c * 0x100 + d, prefix))
  {
    var address := Decimal(a) + "." + Decimal(b) + "." + Decimal(c) + "." + Decimal(d);
    var text := address + "/" + Decimal(prefix);
    AddressOfOctets(a, b, c, d);
    FormatOfParsedAddress(address);
    NumberOfDecimal(prefix);
    assert text[0..|address|] == address && text[|address|] == '/';
    IndexOfFirst(text, '/', 0, |address|);
    assert CidrParts(text) == (address, Decimal(prefix));
  }

  /** Formatting an accepted text gives it back, with the `/32` a bare address stands for. */
  lemma FormatOfParsedCidr(text: string)
    requires ParseIpv4Cidr(text).Some?
    ensures 0 <= ParseIpv4Cidr(text).value.address < ADDRESSES
    ensures FormatIpv4Cidr(ParseIpv4Cidr(text).value) == if '/' in text then text else text + "/32"
  {
    var (addressText, prefixText) := CidrParts(text);
    FormatOfParsedAddress(addressText);
    DecimalOfNumber(prefixText);
  }

  /** A canonical text is its own canonical form, and names the same block. */
  lemma CanonicalIsIdempotent(text: string)
    ensures CanonicalIpv4Cidr(text).Some? ==>
      var canonical := CanonicalIpv4Cidr(text).value;
      && CanonicalIpv4Cidr(canonical) == Some(canonical)
      && ParseIpv4Cidr(canonical) == ParseIpv4Cidr(text)
  {
    if ParseIpv4Cidr(text).Some? {
      FormatOfParsedCidr(text);
      ParseOfFormattedCidr(ParseIpv4Cidr(text).value);
    }
  }
}
