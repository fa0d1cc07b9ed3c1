/** Password hashing: the stored text "pbkdf2-sha256:<iterations>:<salt hex>:<key hex>",
    its printer and its parser. The key derivation (PBKDF2, section 5.2 of RFC 8018) is
    a function parameter. */
module Passwords {

  import opened Common

  type Byte = bv8

  /** password, salt, iterations and length in; the derived key out, or None when the derivation fails. */
  type Kdf = (string, seq<Byte>, nat, nat) -> Option<seq<Byte>>

  const ITERATIONS := 600000
  const SALT_LENGTH := 16
  const HASH_LENGTH := 32
  const PREFIX := "pbkdf2-sha256:"

  /** The library call fills a buffer of the requested length. */
  ghost predicate FillsBuffer(kdf: Kdf) {
    forall p, s, i, n :: kdf(p, s, i, n).Some? ==> |kdf(p, s, i, n).value| == n
  }

  // ---------- Hexadecimal ----------

  function HexDigit(n: nat): char
    requires n < 16
  {
    "0123456789abcdef"[n]
  }

  function HexValue(c: char): Option<nat> {
    if '0' <= c <= '9' then Some(c as nat - '0' as nat)
    else if 'a' <= c <= 'f' then Some(c as nat - 'a' as nat + 10)
    else if 'A' <= c <= 'F' then Some(c as nat - 'A' as nat + 10)
    else None
  }

  lemma HexDigitValue(n: nat)
    requires n < 16
    ensures HexValue(HexDigit(n)) == Some(n)
    ensures HexDigit(n) != ':'
  {
    var digits := "0123456789abcdef";
    assert digits[n] == (if n < 10 then ('0' as nat + n) as char else ('a' as nat + n - 10) as char);
  }

  function HexPair(b: nat): string
    requires b < 256
  {
    [HexDigit(b / 16), HexDigit(b % 16)]
  }

  /** Two lower-case digits a byte, high half first. */
  function Hex(bytes: seq<Byte>): string {
    if bytes == [] then [] else HexPair(bytes[0] as nat) + Hex(bytes[1..])
  }

  predicate IsSpace(c: char) { c == ' ' || 9 <= c as int <= 13 }

  /** `static_cast<unsigned char>(std::stoul(pair, nullptr, 16))` on a text of two characters; None when stoul throws.
      Leading space, a sign, a bare "0x" and a trailing non-digit are all accepted by stoul. */
  function StoulByte(first: char, second: char): Option<nat> {
    if HexValue(first).Some? then
      (if HexValue(second).Some? then Some(HexValue(first).value * 16 + HexValue(second).value) else HexValue(first))
    else if HexValue(second).Some? then
      (if first == '-' then Some((256 - HexValue(second).value) % 256)
       else if first == '+' || IsSpace(first) then HexValue(second)
       else None)
    else None
  }

  /** Two hex digits are a byte, high half first; after a space or a sign one digit is enough, a minus sign wrapping
      around; a digit followed by something else stands alone; and anything else is refused. */
  lemma StoulByteReads(a: nat, b: nat, first: char, second: char)
    requires a < 16 && b < 16
    ensures HexValue(first) == Some(a) && HexValue(second) == Some(b) ==> StoulByte(first, second) == Some(16 * a + b)
    ensures HexValue(first) == Some(a) && HexValue(second) == None ==> StoulByte(first, second) == Some(a)
    ensures HexValue(second) == Some(b) ==>
              && StoulByte(' ', second) == StoulByte('\t', second) == StoulByte('\n', second) == Some(b)
              && StoulByte(11 as char, second) == StoulByte(12 as char, second) == StoulByte('\r', second) == Some(b)
              && StoulByte('+', second) == Some(b)
              && StoulByte('-', second) == Some(if b == 0 then 0 else 256 - b)
    ensures HexValue(first) == None && HexValue(second) == None ==> StoulByte(first, second) == None
    ensures first !in " \t\n\r+-" && first != 11 as char && first != 12 as char && HexValue(first) == None ==>
              StoulByte(first, second) == None
  {}

  /** The digits in order, letters in either case, and nothing else. */
  lemma HexValues(n: nat)
    requires n < 16
    ensures HexValue("0123456789abcdef"[n]) == HexValue("0123456789ABCDEF"[n]) == Some(n)
    ensures HexValue('/') == HexValue(':') == HexValue('@') == HexValue('G') == HexValue('`') == HexValue('g') == None
  {
    HexDigitValue(n);
    var digits := "0123456789ABCDEF";
    assert digits[n] == (if n < 10 then ('0' as nat + n) as char else ('A' as nat + n - 10) as char);
  }

  /** Pairs from the front, a trailing odd character ignored; None once a pair is bad. */
  function Unhex(hex: string): Option<seq<Byte>>
    decreases |hex|
  {
    if |hex| < 2 then Some([])
    else
      match StoulByte(hex[0], hex[1])
      case None => None
      case Some(b) =>
        match Unhex(hex[2..])
        case None => None
        case Some(rest) => Some([b as Byte] + rest)
  }

  /** What hex_to_bytes returns: nothing when some pair is bad. */
  function BytesOf(hex: string): seq<Byte> { match Unhex(hex) case Some(bytes) => bytes case None => [] }

  lemma UnhexStep(hex: string)
    requires |hex| >= 2
    ensures var b := StoulByte(hex[0], hex[1]);
            && (Unhex(hex).Some? <==> b.Some? && Unhex(hex[2..]).Some?)
            && (Unhex(hex).Some? ==> Unhex(hex).value == [b.value as Byte] + Unhex(hex[2..]).value)
  {}

  lemma PairReadsBack(b: nat)
    requires b < 256
    ensures StoulByte(HexDigit(b / 16), HexDigit(b % 16)) == Some(b)
    ensures HexDigit(b / 16) != ':' && HexDigit(b % 16) != ':'
  {
    HexDigitValue(b / 16);
    HexDigitValue(b % 16);
  }

  /** A byte printed in front of a text is the first byte read. */
  lemma PairThenRest(byte: Byte, rest: string)
    ensures |HexPair(byte as nat) + rest| == |rest| + 2
    ensures ':' !in HexPair(byte as nat)
    ensures Unhex(rest).Some? ==> Unhex(HexPair(byte as nat) + rest) == Some([byte] + Unhex(rest).value)
  {
    var b := byte as nat;
    PairReadsBack(b);
    var text := HexPair(b) + rest;
    UnhexStep(text);
    assert text[0] == HexDigit(b / 16) && text[1] == HexDigit(b % 16) && text[2..] == rest;
  }

  /** Printing bytes and reading them back gives the same bytes; the print has no colon in it. */
  lemma {:induction false} HexRoundTrip(bytes: seq<Byte>)
    ensures BytesOf(Hex(bytes)) == bytes && Unhex(Hex(bytes)).Some?
    ensures |Hex(bytes)| == 2 * |bytes|
    ensures ':' !in Hex(bytes)
  {
    if bytes == [] {
    } else {
      HexRoundTrip(bytes[1..]);
      PairThenRest(bytes[0], Hex(bytes[1..]));
      assert bytes == [bytes[0]] + bytes[1..];
    }
  }

  method BytesToHex(data: seq<Byte>) returns (hex: string)
    ensures hex == Hex(data)
  {
    hex := "";
    for i := 0 to |data|
      invariant hex + Hex(data[i..]) == Hex(data)
    {
      assert data[i..][1..] == data[i + 1..];
      var n := data[i] as nat;
      hex := hex + [HexDigit(n / 16), HexDigit(n % 16)];
    }
  }

  /** How far the reading has come: what is to be read in all, what is left, and the bytes read so far. */
  ghost predicate Decoding(all: Option<seq<Byte>>, left: Option<seq<Byte>>, bytes: seq<Byte>) {
    if all.None? then left.None? else left.Some? && all.value == bytes + left.value
  }

  lemma DecodeOne(all: Option<seq<Byte>>, text: string, bytes: seq<Byte>)
    requires |text| >= 2 && Decoding(all, Unhex(text), bytes)
    ensures var b := StoulByte(text[0], text[1]);
            if b.None? then all.None? else Decoding(all, Unhex(text[2..]), bytes + [b.value as Byte])
  {
    UnhexStep(text);
    var b, rest := StoulByte(text[0], text[1]), Unhex(text[2..]);
    if b.Some? && rest.Some? {
      assert bytes + ([b.value as Byte] + rest.value) == (bytes + [b.value as Byte]) + rest.value;
    }
  }

  method HexToBytes(hex: string) returns (bytes: seq<Byte>)
    ensures bytes == BytesOf(hex)
  {
    bytes := [];
    var i := 0;
    while i + 1 < |hex|
      invariant 0 <= i <= |hex| && Decoding(Unhex(hex), Unhex(hex[i..]), bytes)
    {
      DecodeOne(Unhex(hex), hex[i..], bytes);
      assert hex[i..][2..] == hex[i + 2..];
      var b := StoulByte(hex[i], hex[i + 1]);
      if b.None? {
        return [];
      }
      bytes := bytes + [b.value as Byte];
      i := i + 2;
    }
  }

  // ---------- Comparison ----------

  /** Accumulates `a[i] ^ b[i]` with or: zero at the end exactly when the buffers agree. */
  method ConstantTimeCompare(a: seq<Byte>, b: seq<Byte>) returns (same: bool)
    requires |a| == |b|
    ensures same <==> a == b
  {
    var result: bv8 := 0;
    for i := 0 to |a|
      invariant result == 0 <==> a[..i] == b[..i]
    {
      OrXorZero(result, a[i], b[i]);
      assert a[..i + 1] == a[..i] + [a[i]] && b[..i + 1] == b[..i] + [b[i]];
      result := result | (a[i] ^ b[i]);
    }
    assert a[..|a|] == a && b[..|a|] == b;
    return result == 0;
  }

  lemma OrXorZero(r: bv8, x: bv8, y: bv8)
    ensures (r | (x ^ y)) == 0 <==> r == 0 && x == y
  {}

  // ---------- Numbers and colons ----------

  function Digits(n: nat): string {
    if n < 10 then [HexDigit(n)] else Digits(n / 10) + [HexDigit(n % 10)]
  }

  predicate IsDigit(c: char) { '0' <= c <= '9' }

  /** The number a run of leading digits denotes, given the value read so far. */
  function ReadDigits(s: string, acc: nat): nat {
    if s == [] || !IsDigit(s[0]) then acc else ReadDigits(s[1..], acc * 10 + (s[0] as nat - '0' as nat))
  }

  function SkipSpaces(s: string): string {
    if s != [] && IsSpace(s[0]) then SkipSpaces(s[1..]) else s
  }

  const INT_MAX := 0x7fff_ffff

  /** `std::stoi`: spaces, an optional sign, digits, anything after them ignored; None when it throws
      (no digit, or out of the range of a 32-bit int). */
  function Stoi(s: string): Option<int> {
    var t := SkipSpaces(s);
    var negative := t != [] && t[0] == '-';
    var u := if t != [] && (t[0] == '-' || t[0] == '+') then t[1..] else t;
    if u == [] || !IsDigit(u[0]) then None
    else
      var n: int := ReadDigits(u, 0);
      if negative then (if n <= INT_MAX + 1 then Some(-n) else None)
      else if n <= INT_MAX then Some(n) else None
  }

  /** Digits up to something that is none denote their number, if an int can hold it; without one nothing is read. */
  lemma StoiReads(digits: string, rest: string)
    requires (forall c :: c in digits ==> IsDigit(c)) && (rest == [] || !IsDigit(rest[0]))
    requires digits == [] ==> rest == [] || !(IsSpace(rest[0]) || rest[0] == '+' || rest[0] == '-')
    ensures var n: int := ReadDigits(digits, 0);
            && Stoi(digits + rest) == (if digits == [] || n > 0x7fff_ffff then None else Some(n))
            && Stoi("+" + (digits + rest)) == (if digits == [] || n > 0x7fff_ffff then None else Some(n))
            && Stoi("-" + (digits + rest)) == (if digits == [] || n > 0x8000_0000 then None else Some(-n))
  {
    var text := digits + rest;
    ReadsPrefix(digits, rest, 0);
    StartsWithDigit(digits, rest, text);
    StoiWithSign(text, '+');
    StoiWithSign(text, '-');
  }

  lemma StartsWithDigit(digits: string, rest: string, text: string)
    requires (forall c :: c in digits ==> IsDigit(c)) && (rest == [] || !IsDigit(rest[0])) && text == digits + rest
    ensures (text != [] && IsDigit(text[0])) <==> digits != []
    ensures digits == [] ==> text == rest
  {
    if digits == [] {
      assert text == rest;
    } else {
      assert text[0] == digits[0] && digits[0] in digits;
    }
  }

  lemma StoiWithSign(text: string, sign: char)
    requires sign == '+' || sign == '-'
    ensures Stoi([sign] + text)
            == if text == [] || !IsDigit(text[0]) then None
               else
                 var n: int := ReadDigits(text, 0);
                 if sign == '-' then (if n <= INT_MAX + 1 then Some(-n) else None)
                 else if n <= INT_MAX then Some(n) else None
  {
    var t := [sign] + text;
    assert t[1..] == text && SkipSpaces(t) == t;
  }

  /** Leading spaces are skipped. */
  lemma StoiSkips(spaces: string, text: string)
    requires (forall c :: c in spaces ==> IsSpace(c)) && (text == [] || !IsSpace(text[0]))
    ensures Stoi(spaces + text) == Stoi(text)
  {
    SpacesSkipped(spaces, text);
    SpacesSkipped([], text);
    assert [] + text == text;
  }

  lemma {:induction false} SpacesSkipped(spaces: string, rest: string)
    requires (forall c :: c in spaces ==> IsSpace(c)) && (rest == [] || !IsSpace(rest[0]))
    ensures SkipSpaces(spaces + rest) == rest
  {
    if spaces == [] {
      assert spaces + rest == rest;
    } else {
      assert spaces[0] in spaces && (spaces + rest)[1..] == spaces[1..] + rest;
      SpacesSkipped(spaces[1..], rest);
    }
  }

  lemma {:induction false} ReadsPrefix(digits: string, rest: string, acc: nat)
    requires (forall c :: c in digits ==> IsDigit(c)) && (rest == [] || !IsDigit(rest[0]))
    ensures ReadDigits(digits + rest, acc) == ReadDigits(digits, acc)
    decreases |digits|
  {
    if digits == [] {
      assert digits + rest == rest;
    } else {
      assert digits[0] in digits && (digits + rest)[1..] == digits[1..] + rest;
      ReadsPrefix(digits[1..], rest, acc * 10 + (digits[0] as nat - '0' as nat));
    }
  }

  lemma {:induction false} ReadAppend(s: string, d: nat, acc: nat)
    requires d < 10 && forall i :: 0 <= i < |s| ==> IsDigit(s[i])
    ensures ReadDigits(s + [HexDigit(d)], acc) == ReadDigits(s, acc) * 10 + d
    decreases |s|
  {
    var c := HexDigit(d);
    DecimalDigit(d);
    if s == [] {
      assert s + [c] == [c] && [c][1..] == [];
      assert ReadDigits([c], acc) == ReadDigits([], acc * 10 + d);
    } else {
      assert (s + [c])[1..] == s[1..] + [c];
      ReadAppend(s[1..], d, acc * 10 + (s[0] as nat - '0' as nat));
    }
  }

  lemma DecimalDigit(d: nat)
    requires d < 10
    ensures IsDigit(HexDigit(d)) && HexDigit(d) as nat == '0' as nat + d && HexDigit(d) != ':'
  {
    var digits := "0123456789abcdef";
    assert digits[d] == ('0' as nat + d) as char;
  }

  /** Decimal round trip for every number. */
  lemma {:induction false} DigitsRoundTrip(n: nat)
    ensures |Digits(n)| > 0 && forall i :: 0 <= i < |Digits(n)| ==> IsDigit(Digits(n)[i])
    ensures ReadDigits(Digits(n), 0) == n
  {
    if n < 10 {
      DecimalDigit(n);
      ReadAppend([], n, 0);
      assert [] + [HexDigit(n)] == [HexDigit(n)];
    } else {
      DigitsRoundTrip(n / 10);
      DecimalDigit(n % 10);
      ReadAppend(Digits(n / 10), n % 10, 0);
    }
  }

  lemma StoiDigits(n: nat)
    requires n <= INT_MAX
    ensures Stoi(Digits(n)) == Some(n)
    ensures ':' !in Digits(n)
  {
    DigitsRoundTrip(n);
    var s := Digits(n);
    assert IsDigit(s[0]);
    assert SkipSpaces(s) == s;
  }

  /** `text.find(':', from)`: the first colon at or after an index, or the length when there is none. */
  function FindColon(text: string, from: nat): (at: nat)
    requires from <= |text|
    ensures from <= at <= |text|
    ensures ':' !in text[from..at]
    ensures at < |text| ==> text[at] == ':'
    decreases |text| - from
  {
    if from == |text| || text[from] == ':' then from
    else
      var at := FindColon(text, from + 1);
      assert text[from..at] == [text[from]] + text[from + 1..at];
      at
  }

  /** The first colon is where a colon-free part ends. */
  lemma {:induction false} FirstColon(text: string, from: nat, part: string)
    requires from + |part| < |text|
    requires text[from..from + |part|] == part && text[from + |part|] == ':' && ':' !in part
    ensures FindColon(text, from) == from + |part|
    decreases |part|
  {
    if part == [] {
    } else {
      assert text[from] == part[0];
      assert text[from + 1..from + |part|] == part[1..];
      FirstColon(text, from + 1, part[1..]);
    }
  }

  // ---------- Hash and verify ----------

  /** The key stored for a password: the derived bytes, or the zeroed buffer when the derivation fails. */
  function StoredKey(kdf: Kdf, password: string, salt: seq<Byte>): seq<Byte> {
    match kdf(password, salt, ITERATIONS, HASH_LENGTH)
    case Some(key) => key
    case None => seq(HASH_LENGTH, _ => 0)
  }

  /** The stored text for a password and the random salt drawn for it. */
  method Hash(kdf: Kdf, password: string, salt: seq<Byte>) returns (stored: string)
    requires |salt| == SALT_LENGTH
    ensures stored == StoredText(salt, StoredKey(kdf, password, salt))
  {
    var derived := match kdf(password, salt, 600000, 32)
      case Some(key) => key
      case None => seq(32, _ => 0);
    var saltHex := BytesToHex(salt);
    var keyHex := BytesToHex(derived);
    return "pbkdf2-sha256:" + Digits(600000) + ":" + saltHex + ":" + keyHex;
  }

  function StoredText(salt: seq<Byte>, key: seq<Byte>): string {
    PREFIX + Digits(ITERATIONS) + ":" + Hex(salt) + ":" + Hex(key)
  }

  /** A text of the stored shape, whatever its three fields say. */
  function Joined(iterations: string, saltHex: string, keyHex: string): string {
    PREFIX + iterations + ":" + saltHex + ":" + keyHex
  }

  /** When the three fields make the check succeed for a password. */
  predicate Accepts(kdf: Kdf, password: string, iterations: string, saltHex: string, keyHex: string) {
    && Stoi(iterations).Some? && Stoi(iterations).value > 0
    && BytesOf(saltHex) != [] && BytesOf(keyHex) != []
    && kdf(password, BytesOf(saltHex), Stoi(iterations).value, |BytesOf(keyHex)|) == Some(BytesOf(keyHex))
  }

  /** The text has the stored shape with these fields, and no colon in the first two. */
  predicate Shaped(stored: string, iterations: string, saltHex: string, keyHex: string) {
    stored == Joined(iterations, saltHex, keyHex) && ':' !in iterations && ':' !in saltHex
  }

  /** A text is accepted for a password: it has the stored shape, with fields that make the check succeed. */
  ghost predicate Accepted(kdf: Kdf, password: string, stored: string) {
    exists iterations, saltHex, keyHex ::
      Shaped(stored, iterations, saltHex, keyHex) && Accepts(kdf, password, iterations, saltHex, keyHex)
  }

  /** Where the two colons are behind the prefix. */
  lemma TwoColons(after: string, i: string, s: string, k: string)
    requires after == i + ":" + s + ":" + k && ':' !in i && ':' !in s
    ensures |i| + 1 + |s| < |after|
    ensures FindColon(after, 0) == |i| && FindColon(after, |i| + 1) == |i| + 1 + |s|
    ensures i == after[..|i|] && s == after[|i| + 1..|i| + 1 + |s|] && k == after[|i| + |s| + 2..]
  {
    Regroup(i, s, k);
    TwoCuts(after, i, s + ":" + k, s, k);
    FirstColon(after, 0, i);
    FirstColon(after, |i| + 1, s);
  }

  lemma Regroup(i: string, s: string, k: string)
    ensures i + ":" + s + ":" + k == i + ":" + (s + ":" + k)
  {}

  lemma TwoCuts(text: string, i: string, rest: string, s: string, k: string)
    requires text == i + ":" + rest && rest == s + ":" + k
    ensures |text| == |i| + 1 + |s| + 1 + |k| && text[..|i|] == i && text[|i|] == ':'
    ensures text[|i| + 1..|i| + 1 + |s|] == s && text[|i| + 1 + |s|] == ':' && text[|i| + |s| + 2..] == k
  {
    CutAtColon(text, i, rest);
    CutAtColon(rest, s, k);
    assert text[|i| + 1..][..|s|] == text[|i| + 1..|i| + 1 + |s|];
    assert text[|i| + 1..][|s| + 1..] == text[|i| + |s| + 2..];
    assert text[|i| + 1..][|s|] == text[|i| + 1 + |s|];
  }

  lemma CutAtColon(text: string, part: string, rest: string)
    requires text == part + ":" + rest
    ensures |text| == |part| + 1 + |rest| && text[..|part|] == part && text[|part|] == ':' && text[|part| + 1..] == rest
  {}

  lemma DropPrefix(prefix: string, i: string, s: string, k: string)
    ensures var stored := prefix + i + ":" + s + ":" + k;
            prefix <= stored && stored[|prefix|..] == i + ":" + s + ":" + k
  {}

  lemma AddPrefix(prefix: string, stored: string, i: string, s: string, k: string)
    requires prefix <= stored && stored[|prefix|..] == i + ":" + s + ":" + k
    ensures stored == prefix + i + ":" + s + ":" + k
  {
    assert stored == prefix + stored[|prefix|..];
  }

  lemma Pieces(after: string, first: nat, second: nat)
    requires first < second < |after| && after[first] == ':' && after[second] == ':'
    ensures after == after[..first] + ":" + after[first + 1..second] + ":" + after[second + 1..]
  {}

  lemma ShapedSplits(stored: string, i: string, s: string, k: string)
    requires Shaped(stored, i, s, k)
    ensures PREFIX <= stored
    ensures var after := stored[|PREFIX|..];
            && FindColon(after, 0) == |i| && |i| < |after| && i == after[..|i|]
            && FindColon(after, |i| + 1) == |i| + 1 + |s| && |i| + 1 + |s| < |after|
            && s == after[|i| + 1..|i| + 1 + |s|] && k == after[|i| + |s| + 2..]
  {
    DropPrefix(PREFIX, i, s, k);
    TwoColons(stored[|PREFIX|..], i, s, k);
  }

  /** A text has the stored shape in one way at most. */
  lemma ShapeIsUnique(stored: string, i: string, s: string, k: string, i': string, s': string, k': string)
    requires Shaped(stored, i, s, k) && Shaped(stored, i', s', k')
    ensures i == i' && s == s' && k == k'
  {
    ShapedSplits(stored, i, s, k);
    ShapedSplits(stored, i', s', k');
  }

  /** The parser: the fields of a shaped text, or None when the text has not that shape. */
  method Split(stored: string) returns (fields: Option<(string, string, string)>)
    ensures fields.Some? ==> Shaped(stored, fields.value.0, fields.value.1, fields.value.2)
    ensures fields.None? ==> forall i, s, k :: !Shaped(stored, i, s, k)
  {
    if !(PREFIX <= stored) {
      return None;
    }
    assert |PREFIX| == 14;
    var after := stored[14..];
    forall i, s, k | Shaped(stored, i, s, k)
      ensures var first := FindColon(after, 0); first < |after| && FindColon(after, first + 1) < |after|
    {
      ShapedSplits(stored, i, s, k);
    }
    var first := FindColon(after, 0);
    if first == |after| {
      return None;
    }
    var second := FindColon(after, first + 1);
    if second == |after| {
      return None;
    }
    var iterations, saltHex, keyHex := after[..first], after[first + 1..second], after[second + 1..];
    assert iterations == after[0..first];
    Pieces(after, first, second);
    AddPrefix(PREFIX, stored, iterations, saltHex, keyHex);
    return Some((iterations, saltHex, keyHex));
  }

  /** The check of a password against a stored text. */
  method Verify(kdf: Kdf, password: string, stored: string) returns (ok: bool)
    requires FillsBuffer(kdf)
    ensures ok <==> Accepted(kdf, password, stored)
  {
    var fields := Split(stored);
    if fields.None? {
      return false;
    }
    var (iterations, saltHex, keyHex) := fields.value;
    ok := VerifyFields(kdf, password, iterations, saltHex, keyHex);
    if Accepted(kdf, password, stored) {
      var i, s, k :| Shaped(stored, i, s, k) && Accepts(kdf, password, i, s, k);
      ShapeIsUnique(stored, i, s, k, iterations, saltHex, keyHex);
    }
  }

  /** The rest of the check, once the fields are known. */
  method VerifyFields(kdf: Kdf, password: string, iterations: string, saltHex: string,
                      keyHex: string) returns (ok: bool)
    requires FillsBuffer(kdf)
    ensures ok <==> Accepts(kdf, password, iterations, saltHex, keyHex)
  {
    var raw := Stoi(iterations);
    if raw.None? || raw.value <= 0 {
      return false;
    }
    var salt := HexToBytes(saltHex);
    var key := HexToBytes(keyHex);
    if salt == [] || key == [] {
      return false;
    }
    var computed := kdf(password, salt, raw.value, |key|);
    if computed.None? {
      return false;
    }
    ok := ConstantTimeCompare(computed.value, key);
  }

  /** For every password, every candidate and every salt: the candidate is accepted by the stored
      text exactly when its derived key is the stored one. */
  lemma VerifyHash(kdf: Kdf, password: string, candidate: string, salt: seq<Byte>)
    requires FillsBuffer(kdf) && |salt| == SALT_LENGTH
    ensures Accepted(kdf, candidate, StoredText(salt, StoredKey(kdf, password, salt)))
            <==> kdf(candidate, salt, ITERATIONS, HASH_LENGTH) == Some(StoredKey(kdf, password, salt))
  {
    var key := StoredKey(kdf, password, salt);
    var stored := StoredText(salt, key);
    var number, saltHex, keyHex := Digits(ITERATIONS), Hex(salt), Hex(key);
    FieldsReadBack(salt, key);
    if Accepted(kdf, candidate, stored) {
      var i, s, k :| Shaped(stored, i, s, k) && Accepts(kdf, candidate, i, s, k);
      ShapeIsUnique(stored, i, s, k, number, saltHex, keyHex);
    }
    if kdf(candidate, salt, ITERATIONS, HASH_LENGTH) == Some(key) {
      assert Accepts(kdf, candidate, number, saltHex, keyHex);
    }
  }

  /** Everything that is printed reads back. */
  lemma FieldsReadBack(salt: seq<Byte>, key: seq<Byte>)
    ensures Shaped(StoredText(salt, key), Digits(ITERATIONS), Hex(salt), Hex(key))
    ensures Stoi(Digits(ITERATIONS)) == Some(ITERATIONS)
    ensures BytesOf(Hex(salt)) == salt && BytesOf(Hex(key)) == key
  {
    StoiDigits(ITERATIONS);
    HexRoundTrip(salt);
    HexRoundTrip(key);
  }

  /** A password verifies against its own hash, and another one does exactly when the keys agree. */
  method HashThenVerify(kdf: Kdf, password: string, candidate: string, salt: seq<Byte>) returns (ok: bool)
    requires FillsBuffer(kdf) && |salt| == SALT_LENGTH
    requires kdf(password, salt, ITERATIONS, HASH_LENGTH).Some?
    ensures ok <==> kdf(candidate, salt, ITERATIONS, HASH_LENGTH) == kdf(password, salt, ITERATIONS, HASH_LENGTH)
    ensures candidate == password ==> ok
  {
    var stored := Hash(kdf, password, salt);
    ok := Verify(kdf, candidate, stored);
    VerifyHash(kdf, password, candidate, salt);
  }
}
