/**
 The stored password format, written and read by the driver (Pbkdf2.kt) and by the hub
 (hub/db.py). Key derivation (section 5.2 of RFC 8018) is a parameter.
 */
module PasswordFormat {
  import opened Prelude
  import opened Hex

  const ALGO: string := "pbkdf2_sha256"
  const ITERS: int := 200_000
  const ITERS_TEXT: string := "200000"
  const DIGEST_BYTES: nat := 32
  const INT_MAX: int := 0x7fff_ffff

  /**
   What Java's Character.digit reads in radix 16 and in radix 10, and Python's int() as a decimal
   digit. Beyond ASCII they follow the Unicode tables, which are not spelled out here.
   */
  datatype Scripts = Scripts(hex: char -> Option<Nibble>, decimal: char -> Option<nat>, hubDecimal: char -> Option<nat>)

  predicate Ascii(s: string) {
    forall i :: 0 <= i < |s| ==> s[i] as int < 128
  }

  /** On ASCII all three are the usual digits, and whatever the driver reads as a decimal digit the hub reads alike. */
  ghost predicate Unicode(u: Scripts) {
    && (forall c: char :: c as int < 128 ==>
          u.hex(c) == DigitValue(c) && u.decimal(c) == DecimalDigit(c) && u.hubDecimal(c) == DecimalDigit(c))
    && forall c: char :: u.decimal(c).Some? ==> u.hubDecimal(c) == u.decimal(c)
  }

  /** password, salt, iterations, length */
  type Kdf = (string, Bytes, int, nat) -> Bytes

  // ----- hex -----

  function HexOf(bytes: Bytes): string {
    if bytes == [] then [] else TwoDigits(LOWER, bytes[0]) + HexOf(bytes[1..])
  }

  /** A pair of digits. */
  function PairValue(hex: char -> Option<Nibble>, hi: char, lo: char): Option<byte> {
    var h, l := hex(hi), hex(lo);
    if h.Some? && l.Some? then
      var (a: int, b: int) := (h.value, l.value);
      Some(a * 16 + b)
    else None
  }

  function Prepend(b: Option<byte>, rest: Option<Bytes>): Option<Bytes> {
    if b.Some? && rest.Some? then Some([b.value] + rest.value) else None
  }

  /** The driver's reading: pairs of digits and nothing else. */
  function Unhex(hex: char -> Option<Nibble>, s: string): Option<Bytes> {
    if s == [] then Some([])
    else if |s| == 1 then None
    else Prepend(PairValue(hex, s[0], s[1]), Unhex(hex, s[2..]))
  }

  predicate IsSpace(c: char) {
    c == ' ' || c == '\t' || c == '\n' || c == '\r' || c as int == 11 || c as int == 12
  }

  /** The hub's reading, bytes.fromhex: white space between pairs is skipped. */
  function UnhexSkippingSpace(s: string): Option<Bytes> {
    if s == [] then Some([])
    else if IsSpace(s[0]) then UnhexSkippingSpace(s[1..])
    else if |s| == 1 then None
    else Prepend(PairValue(DigitValue, s[0], s[1]), UnhexSkippingSpace(s[2..]))
  }

  predicate NoSpace(s: string) {
    forall i :: 0 <= i < |s| ==> !IsSpace(s[i])
  }

  lemma PairOfDigits(u: Scripts, b: byte)
    requires Unicode(u)
    ensures var t := TwoDigits(LOWER, b);
      && PairValue(u.hex, t[0], t[1]) == Some(b) && PairValue(DigitValue, t[0], t[1]) == Some(b)
      && !IsSpace(t[0]) && !IsSpace(t[1]) && t[0] != '$' && t[1] != '$'
  {
    TablesAreTables();
    TwoDigitsRoundTrip(LOWER, b);
    hide IsTable;
    PairOf(u, LOWER[b / 16], LOWER[b % 16], b);
  }

  lemma PairOf(u: Scripts, hi: char, lo: char, b: byte)
    requires Unicode(u) && DigitValue(hi).Some? && DigitValue(lo).Some?
    requires DigitValue(hi).value * 16 + DigitValue(lo).value == b
    ensures PairValue(u.hex, hi, lo) == Some(b) && PairValue(DigitValue, hi, lo) == Some(b)
    ensures !IsSpace(hi) && !IsSpace(lo) && hi != '$' && lo != '$'
  {
    hide DigitValue;
    DigitsArePlain(hi);
    DigitsArePlain(lo);
    hide IsSpace;
    assert u.hex(hi) == DigitValue(hi) && u.hex(lo) == DigitValue(lo);
  }

  lemma DigitsArePlain(c: char)
    ensures DigitValue(c).Some? ==> c as int < 128 && !IsSpace(c) && c != '$'
  {
  }

  /** Both readings invert the one writing. */
  lemma {:induction false} UnhexInvertsHex(u: Scripts, bytes: Bytes)
    requires Unicode(u)
    ensures Unhex(u.hex, HexOf(bytes)) == Some(bytes) && UnhexSkippingSpace(HexOf(bytes)) == Some(bytes)
    ensures '$' !in HexOf(bytes)
  {
    if bytes != [] {
      UnhexInvertsHex(u, bytes[1..]);
      PairOfDigits(u, bytes[0]);
      var s := HexOf(bytes);
      assert s[2..] == HexOf(bytes[1..]);
      hide HexOf, TwoDigits, PairValue, IsSpace, Unicode;
      assert [bytes[0]] + bytes[1..] == bytes;
    }
  }

  /** On ASCII texts the two readings differ on white space and nowhere else; the hub refuses every other text. */
  lemma {:induction false} ReadingsDifferOnSpaceOnly(u: Scripts, s: string)
    requires Unicode(u)
    ensures Ascii(s) ==> Unhex(u.hex, s) == if NoSpace(s) then UnhexSkippingSpace(s) else None
    ensures !Ascii(s) ==> UnhexSkippingSpace(s) == None
  {
    hide IsSpace, DigitValue, Unhex, UnhexSkippingSpace, Unicode, PairValue;
    if s == [] || |s| == 1 {
      ShortTexts(u, s);
    } else {
      ReadingsDifferOnSpaceOnly(u, s[2..]);
      ReadingsDifferOnSpaceOnly(u, s[1..]);
      FirstTwo(s);
      ReadingSteps(u, s);
    }
  }

  lemma ShortTexts(u: Scripts, s: string)
    requires Unicode(u) && |s| <= 1
    ensures Ascii(s) ==> Unhex(u.hex, s) == if NoSpace(s) then UnhexSkippingSpace(s) else None
    ensures !Ascii(s) ==> UnhexSkippingSpace(s) == None
  {
  }

  lemma FirstTwo(s: string)
    requires |s| >= 2
    ensures Ascii(s) <==> s[0] as int < 128 && s[1] as int < 128 && Ascii(s[2..])
    ensures Ascii(s) <==> s[0] as int < 128 && Ascii(s[1..])
    ensures NoSpace(s) <==> !IsSpace(s[0]) && !IsSpace(s[1]) && NoSpace(s[2..])
  {
    hide IsSpace;
    assert forall i :: 0 <= i < |s| - 2 ==> s[2..][i] == s[i + 2];
    assert forall i :: 2 <= i < |s| ==> s[i] == s[2..][i - 2];
    assert forall i :: 1 <= i < |s| ==> s[i] == s[1..][i - 1];
  }

  lemma ReadingSteps(u: Scripts, s: string)
    requires Unicode(u) && |s| >= 2
    ensures Unhex(u.hex, s) == Prepend(PairValue(u.hex, s[0], s[1]), Unhex(u.hex, s[2..]))
    ensures UnhexSkippingSpace(s) == if IsSpace(s[0]) then UnhexSkippingSpace(s[1..])
                                     else Prepend(PairValue(DigitValue, s[0], s[1]), UnhexSkippingSpace(s[2..]))
    ensures s[0] as int < 128 && s[1] as int < 128 ==> PairValue(u.hex, s[0], s[1]) == PairValue(DigitValue, s[0], s[1])
    ensures s[0] as int >= 128 || s[1] as int >= 128 || IsSpace(s[0]) || IsSpace(s[1]) ==> PairValue(DigitValue, s[0], s[1]) == None
    ensures IsSpace(s[0]) ==> s[0] as int < 128
  {
    PairFacts(u, s[0], s[1]);
    hide Unicode, PairValue, IsSpace;
  }

  lemma PairFacts(u: Scripts, a: char, b: char)
    requires Unicode(u)
    ensures a as int < 128 && b as int < 128 ==> PairValue(u.hex, a, b) == PairValue(DigitValue, a, b)
    ensures a as int >= 128 || b as int >= 128 || IsSpace(a) || IsSpace(b) ==> PairValue(DigitValue, a, b) == None
    ensures IsSpace(a) ==> a as int < 128
  {
    DigitsArePlain(a);
    DigitsArePlain(b);
    hide DigitValue;
  }

  method ToHex(bytes: Bytes) returns (sb: string)
    ensures sb == HexOf(bytes)
  {
    sb := "";
    for i := 0 to |bytes|
      invariant sb + HexOf(bytes[i..]) == HexOf(bytes)
    {
      assert bytes[i..][1..] == bytes[i + 1..];
      sb := sb + [LOWER[bytes[i] / 16]] + [LOWER[bytes[i] % 16]];
    }
  }

  method FromHexOrNull(hex: char -> Option<Nibble>, s: string) returns (r: Option<Bytes>)
    ensures r == Unhex(hex, s)
  {
    if |s| % 2 != 0 {
      OddIsNoHex(hex, s);
      return None;
    }
    var out := new byte[|s| / 2](_ => 0);
    FirstPairsStart(hex, s);
    hide FirstPairs, Unhex;
    for i := 0 to out.Length
      invariant FirstPairs(hex, s, i, out[..i])
    {
      PairsAdvance(hex, s, i, out[..i]);
      var hi, lo := hex(s[i * 2]), hex(s[i * 2 + 1]);
      if hi == None || lo == None { return None; }
      ghost var done := out[..i];
      var high: int, low: int := hi.value, lo.value;
      out[i] := high * 16 + low;
      assert out[..i + 1] == done + [out[i]];
    }
    assert out[..out.Length] == out[..];
    FirstPairsEnd(hex, s, out.Length, out[..]);
    return Some(out[..]);
  }

  /** done is what the first i pairs read as. */
  ghost predicate FirstPairs(hex: char -> Option<Nibble>, s: string, i: nat, done: Bytes)
    requires 2 * i <= |s|
  {
    var rest := Unhex(hex, s[2 * i..]);
    Unhex(hex, s) == if rest.Some? then Some(done + rest.value) else None
  }

  lemma FirstPairsStart(hex: char -> Option<Nibble>, s: string)
    ensures FirstPairs(hex, s, 0, [])
  {
    assert s[0..] == s;
    if Unhex(hex, s).Some? { assert [] + Unhex(hex, s).value == Unhex(hex, s).value; }
  }

  lemma FirstPairsEnd(hex: char -> Option<Nibble>, s: string, i: nat, done: Bytes)
    requires 2 * i == |s| && FirstPairs(hex, s, i, done)
    ensures Unhex(hex, s) == Some(done)
  {
    assert s[2 * i..] == [];
    assert done + [] == done;
  }

  lemma PairsAdvance(hex: char -> Option<Nibble>, s: string, i: nat, done: Bytes)
    requires 2 * i + 2 <= |s| && FirstPairs(hex, s, i, done)
    ensures var b := PairValue(hex, s[2 * i], s[2 * i + 1]);
      if b.Some? then FirstPairs(hex, s, i + 1, done + [b.value]) else Unhex(hex, s) == None
  {
    var t := s[2 * i..];
    assert t[2..] == s[2 * (i + 1)..];
    assert Unhex(hex, t) == Prepend(PairValue(hex, t[0], t[1]), Unhex(hex, t[2..]));
    hide Unhex, PairValue;
    var b, rest := PairValue(hex, t[0], t[1]), Unhex(hex, t[2..]);
    if b.Some? && rest.Some? {
      assert (done + [b.value]) + rest.value == done + ([b.value] + rest.value);
    }
  }

  lemma {:induction false} OddIsNoHex(hex: char -> Option<Nibble>, s: string)
    requires |s| % 2 != 0
    ensures Unhex(hex, s) == None
  {
    if |s| > 1 { OddIsNoHex(hex, s[2..]); }
  }

  // ----- comparison -----

  /** Bitwise operations on bit patterns written as natural numbers. */
  function Xor(a: nat, b: nat): nat {
    if a == 0 && b == 0 then 0 else (a + b) % 2 + 2 * Xor(a / 2, b / 2)
  }

  function Or(a: nat, b: nat): nat {
    if a == 0 && b == 0 then 0 else (if a % 2 == 1 || b % 2 == 1 then 1 else 0) + 2 * Or(a / 2, b / 2)
  }

  /** A Kotlin Byte widened to Int keeps its sign: the 32-bit pattern. */
  function ToInt(b: byte): nat {
    if b < 128 then b else 0xffff_ff00 + b
  }

  lemma {:induction false} XorIsZeroIff(a: nat, b: nat)
    ensures Xor(a, b) == 0 <==> a == b
  {
    if a != 0 || b != 0 { XorIsZeroIff(a / 2, b / 2); }
  }

  lemma {:induction false} OrIsZeroIff(a: nat, b: nat)
    ensures Or(a, b) == 0 <==> a == 0 && b == 0
  {
    if a != 0 || b != 0 { OrIsZeroIff(a / 2, b / 2); }
  }

  method ConstantTimeEquals(a: Bytes, b: Bytes) returns (equal: bool)
    ensures equal <==> a == b
  {
    if |a| != |b| { return false; }
    var r := 0;
    for i := 0 to |a|
      invariant r == 0 <==> a[..i] == b[..i]
    {
      var x := Xor(ToInt(a[i]), ToInt(b[i]));
      XorIsZeroIff(ToInt(a[i]), ToInt(b[i]));
      OrIsZeroIff(r, x);
      assert a[..i + 1] == a[..i] + [a[i]] && b[..i + 1] == b[..i] + [b[i]];
      r := Or(r, x);
    }
    assert a[..|a|] == a && b[..|b|] == b;
    return r == 0;
  }

  // ----- iteration counts -----

  function DecimalDigit(c: char): Option<nat> {
    if '0' <= c <= '9' then Some(c as int - '0' as int) else None
  }

  function Shift(digit: char -> Option<nat>, rest: Option<nat>, last: char): Option<nat> {
    if rest.Some? && digit(last).Some? then Some(rest.value * 10 + digit(last).value) else None
  }

  /** One or more decimal digits. */
  function Digits(digit: char -> Option<nat>, s: string): Option<nat> {
    if s == [] then None
    else if |s| == 1 then digit(s[0])
    else Shift(digit, Digits(digit, s[..|s| - 1]), s[|s| - 1])
  }

  /** Digits with single underscores between them. */
  function SpacedDigits(digit: char -> Option<nat>, s: string): Option<nat> {
    if s == [] then None
    else if |s| == 1 then digit(s[0])
    else if s[|s| - 2] == '_' then Shift(digit, SpacedDigits(digit, s[..|s| - 2]), s[|s| - 1])
    else Shift(digit, SpacedDigits(digit, s[..|s| - 1]), s[|s| - 1])
  }

  function Negate(n: Option<nat>): Option<int> {
    match n case None => None case Some(v) => var i: int := v; Some(-i)
  }

  function Positive(n: Option<nat>): Option<int> {
    match n case None => None case Some(v) => Some(v)
  }

  /** Kotlin's toIntOrNull: an optional sign, digits, 32 bits. */
  function ToIntOrNull(u: Scripts, s: string): Option<int> {
    var n :=
      if s != [] && s[0] == '-' then Negate(Digits(u.decimal, s[1..]))
      else if s != [] && s[0] == '+' then Positive(Digits(u.decimal, s[1..]))
      else Positive(Digits(u.decimal, s));
    if n.Some? && -0x8000_0000 <= n.value <= INT_MAX then n else None
  }

  function Strip(s: string): string {
    if s != [] && IsSpace(s[0]) then Strip(s[1..])
    else if s != [] && IsSpace(s[|s| - 1]) then Strip(s[..|s| - 1])
    else s
  }

  /** Python's int(): stripped, an optional sign, digits with underscores, no width. */
  function IntOrError(u: Scripts, text: string): Option<int> {
    var s := Strip(text);
    if s != [] && s[0] == '-' then Negate(SpacedDigits(u.hubDecimal, s[1..]))
    else if s != [] && s[0] == '+' then Positive(SpacedDigits(u.hubDecimal, s[1..]))
    else Positive(SpacedDigits(u.hubDecimal, s))
  }

  lemma {:induction false} PlainDigitsReadAlike(u: Scripts, s: string)
    requires Unicode(u) && Digits(u.decimal, s).Some?
    ensures SpacedDigits(u.hubDecimal, s) == Digits(u.decimal, s) && s != [] && !IsSpace(s[0]) && !IsSpace(s[|s| - 1])
  {
    LastIsDigit(u, s);
    if |s| > 1 {
      var front := s[..|s| - 1];
      LastIsDigit(u, front);
      PlainDigitsReadAlike(u, front);
      assert front[0] == s[0] && s[|s| - 2] == front[|front| - 1];
      hide Unicode, IsSpace;
    }
  }

  lemma LastIsDigit(u: Scripts, s: string)
    requires Unicode(u) && Digits(u.decimal, s).Some?
    ensures s != [] && !IsSpace(s[|s| - 1]) && s[|s| - 1] != '_'
    ensures u.decimal(s[|s| - 1]).Some? && u.hubDecimal(s[|s| - 1]) == u.decimal(s[|s| - 1])
    ensures |s| > 1 ==> Digits(u.decimal, s[..|s| - 1]).Some?
  {
  }

  /** Whatever count the driver reads, the hub reads the same. */
  lemma HubReadsDriverCounts(u: Scripts, s: string)
    requires Unicode(u) && ToIntOrNull(u, s).Some?
    ensures IntOrError(u, s) == ToIntOrNull(u, s)
  {
    if s[0] == '-' || s[0] == '+' {
      PlainDigitsReadAlike(u, s[1..]);
      assert s[1..][|s| - 2] == s[|s| - 1];
    } else {
      PlainDigitsReadAlike(u, s);
    }
    assert Strip(s) == s;
  }

  /** A number as both languages print it. */
  function Decimal(n: nat): (s: string)
    ensures s != ""
  {
    if n < 10 then ["0123456789"[n]] else Decimal(n / 10) + ["0123456789"[n % 10]]
  }

  lemma OneDigit(u: Scripts, n: nat)
    requires Unicode(u) && n < 10
    ensures var c := "0123456789"[n];
      c as int == '0' as int + n && c as int < 128 && u.decimal(c) == Some(n) && u.hubDecimal(c) == Some(n)
  {
    assert "0123456789"[n] as int == '0' as int + n;
  }

  lemma {:induction false} DigitsOfDecimal(u: Scripts, n: nat)
    requires Unicode(u)
    ensures Digits(u.decimal, Decimal(n)) == Some(n) && Decimal(n)[0] != '-' && Decimal(n)[0] != '+'
  {
    OneDigit(u, n % 10);
    if n >= 10 {
      DigitsOfDecimal(u, n / 10);
      var s := Decimal(n);
      assert s[..|s| - 1] == Decimal(n / 10) && s[0] == Decimal(n / 10)[0];
    }
  }

  /** A printed count is read as its number: by the hub always, by the driver as far as 32 bits go. */
  lemma CountsAreRead(u: Scripts, n: nat)
    requires Unicode(u)
    ensures ToIntOrNull(u, Decimal(n)) == if n <= 0x7fff_ffff then Some(n) else None
    ensures IntOrError(u, Decimal(n)) == Some(n)
  {
    DigitsOfDecimal(u, n);
    PlainDigitsReadAlike(u, Decimal(n));
    hide Digits, SpacedDigits, Unicode, IsSpace, Decimal;
    assert Strip(Decimal(n)) == Decimal(n);
  }

  // ----- the record -----

  function FirstDollar(s: string): (i: nat)
    ensures i <= |s| && '$' !in s[..i] && (i < |s| ==> s[i] == '$')
  {
    if s == [] || s[0] == '$' then 0
    else
      var i := 1 + FirstDollar(s[1..]);
      assert s[..i] == [s[0]] + s[1..][..i - 1];
      i
  }

  /** Split at the first cuts dollar signs. */
  function Split(s: string, cuts: nat): seq<string> {
    var i := FirstDollar(s);
    if cuts == 0 || i == |s| then [s] else [s[..i]] + Split(s[i + 1..], cuts - 1)
  }

  lemma {:induction false} FirstDollarBehind(part: string, rest: string)
    requires '$' !in part
    ensures FirstDollar(part + "$" + rest) == |part|
  {
    if part != [] {
      assert (part + "$" + rest)[1..] == part[1..] + "$" + rest;
      FirstDollarBehind(part[1..], rest);
    }
  }

  lemma SplitBehind(part: string, rest: string, cuts: nat)
    requires '$' !in part && cuts > 0
    ensures Split(part + "$" + rest, cuts) == [part] + Split(rest, cuts - 1)
  {
    var s := part + "$" + rest;
    FirstDollarBehind(part, rest);
    assert s[..|part|] == part && s[|part| + 1..] == rest;
  }

  function Record(iters: string, salt: string, digest: string): string {
    ALGO + "$" + (iters + "$" + (salt + "$" + digest))
  }

  /** Split at one dollar sign more. */
  lemma SplitOnto(part: string, rest: string, text: string, cuts: nat, tail: seq<string>, whole: seq<string>)
    requires '$' !in part && text == part + "$" + rest
    requires Split(rest, cuts) == tail && whole == [part] + tail
    ensures Split(text, cuts + 1) == whole
  {
    SplitBehind(part, rest, cuts + 1);
  }

  lemma SplitRecord(iters: string, salt: string, digest: string)
    requires '$' !in iters && '$' !in salt
    ensures Split(Record(iters, salt, digest), 3) == [ALGO, iters, salt, digest]
  {
    assert '$' !in ALGO;
    assert Split(digest, 0) == [digest];
    var two := salt + "$" + digest;
    var three := iters + "$" + two;
    assert Record(iters, salt, digest) == ALGO + "$" + three;
    hide *;
    SplitOnto(salt, digest, two, 0, [digest], [salt, digest]);
    SplitOnto(iters, two, three, 1, [salt, digest], [iters, salt, digest]);
    SplitOnto(ALGO, three, Record(iters, salt, digest), 2, [iters, salt, digest], [ALGO, iters, salt, digest]);
  }

  ghost predicate IsKdf(kdf: Kdf) {
    forall p, s, i, n :: |kdf(p, s, i, n)| == n
  }

  /** What the driver's verify accepts. Key derivation rejects an empty salt, no iterations and an empty key. */
  predicate DriverAccepts(u: Scripts, kdf: Kdf, password: string, stored: string) {
    var parts := Split(stored, 3);
    && |parts| == 4 && parts[0] == ALGO
    && var iters, salt, expected := ToIntOrNull(u, parts[1]), Unhex(u.hex, parts[2]), Unhex(u.hex, parts[3]);
      && iters.Some? && salt.Some? && expected.Some?
      && iters.value > 0 && salt.value != [] && expected.value != []
      && kdf(password, salt.value, iters.value, |expected.value|) == expected.value
  }

  /**
   What the hub's verify_password accepts: the derived key always has the width of SHA-256. Key
   derivation rejects no iterations, and raises for more than a C int holds.
   */
  predicate HubAccepts(u: Scripts, kdf: Kdf, password: string, stored: string) {
    var parts := Split(stored, 3);
    && |parts| == 4 && parts[0] == ALGO
    && var iters, salt, expected := IntOrError(u, parts[1]), UnhexSkippingSpace(parts[2]), UnhexSkippingSpace(parts[3]);
      && salt.Some? && expected.Some? && iters.Some? && 0 < iters.value <= INT_MAX
      && kdf(password, salt.value, iters.value, DIGEST_BYTES) == expected.value
  }

  /** hash on either side, for the salt it drew. */
  function Stored(kdf: Kdf, password: string, salt: Bytes): string {
    Record(ITERS_TEXT, HexOf(salt), HexOf(kdf(password, salt, ITERS, DIGEST_BYTES)))
  }

  lemma ItersText(u: Scripts)
    requires Unicode(u)
    ensures ToIntOrNull(u, ITERS_TEXT) == Some(ITERS) && IntOrError(u, ITERS_TEXT) == Some(ITERS) && '$' !in ITERS_TEXT
  {
    var d := u.decimal;
    assert d('2') == Some(2) && d('0') == Some(0);
    hide Unicode, DigitValue;
    assert "20"[..1] == "2" && "200"[..2] == "20" && "2000"[..3] == "200" && "20000"[..4] == "2000" && "200000"[..5] == "20000";
    assert Digits(d, "2") == Some(2);
    assert Digits(d, "20") == Some(20);
    assert Digits(d, "200") == Some(200);
    assert Digits(d, "2000") == Some(2000);
    assert Digits(d, "20000") == Some(20000);
    assert Digits(d, "200000") == Some(200000);
    HubReadsDriverCounts(u, ITERS_TEXT);
  }

  /**
   A record written by either side is accepted by both for exactly the passwords that derive
   the same key from its salt, its own password first of all.
   */
  lemma WrittenOnceVerifiedTwice(u: Scripts, kdf: Kdf, password: string, salt: Bytes, attempt: string)
    requires Unicode(u) && IsKdf(kdf) && salt != []
    ensures var stored, same := Stored(kdf, password, salt),
                kdf(attempt, salt, 200_000, 32) == kdf(password, salt, 200_000, 32);
      && (DriverAccepts(u, kdf, attempt, stored) <==> same)
      && (HubAccepts(u, kdf, attempt, stored) <==> same)
  {
    RecordReads(u, salt, kdf(password, salt, ITERS, DIGEST_BYTES));
    hide Record, Split, HexOf, Unhex, UnhexSkippingSpace, ToIntOrNull, IntOrError, Unicode;
  }

  /** How both sides take apart a record with the usual count. */
  lemma RecordReads(u: Scripts, salt: Bytes, digest: Bytes)
    requires Unicode(u)
    ensures var parts := Split(Record(ITERS_TEXT, HexOf(salt), HexOf(digest)), 3);
      && |parts| == 4 && parts[0] == ALGO
      && ToIntOrNull(u, parts[1]) == IntOrError(u, parts[1]) == Some(ITERS)
      && Unhex(u.hex, parts[2]) == UnhexSkippingSpace(parts[2]) == Some(salt)
      && Unhex(u.hex, parts[3]) == UnhexSkippingSpace(parts[3]) == Some(digest)
  {
    ItersText(u);
    UnhexInvertsHex(u, salt);
    UnhexInvertsHex(u, digest);
    hide Record, Split, HexOf, Unhex, UnhexSkippingSpace, ToIntOrNull, IntOrError, Unicode;
    SplitRecord(ITERS_TEXT, HexOf(salt), HexOf(digest));
  }

  /** Two lower-case digits a byte, the high one first. */
  lemma {:induction false} HexMeans(bytes: Bytes, i: nat)
    requires i < |bytes|
    ensures var t := HexOf(bytes);
      && |t| == 2 * |bytes|
      && t[2 * i] == "0123456789abcdef"[bytes[i] / 16] && t[2 * i + 1] == "0123456789abcdef"[bytes[i] % 16]
  {
    var t, rest := HexOf(bytes), HexOf(bytes[1..]);
    assert t == TwoDigits(LOWER, bytes[0]) + rest;
    if i > 0 {
      HexMeans(bytes[1..], i - 1);
      assert t[2 * i] == rest[2 * (i - 1)] && t[2 * i + 1] == rest[2 * (i - 1) + 1];
    } else if |bytes| > 1 {
      HexMeans(bytes[1..], 0);
    }
  }

  /** What is stored, written out. */
  lemma StoredIsSpelled(kdf: Kdf, password: string, salt: Bytes)
    ensures Stored(kdf, password, salt) ==
      "pbkdf2_sha256$200000$" + HexOf(salt) + "$" + HexOf(kdf(password, salt, 200_000, 32))
  {
    hide HexOf;
  }

  /** What each side makes of the four parts of a text; the last part may hold further dollar signs. */
  lemma PartsMean(u: Scripts, kdf: Kdf, password: string, iters: string, salt: string, digest: string)
    requires '$' !in iters && '$' !in salt
    ensures var stored := "pbkdf2_sha256" + "$" + (iters + "$" + (salt + "$" + digest));
      && (DriverAccepts(u, kdf, password, stored) <==>
            var n, s, k := ToIntOrNull(u, iters), Unhex(u.hex, salt), Unhex(u.hex, digest);
            && n.Some? && n.value >= 1 && s.Some? && |s.value| >= 1 && k.Some? && |k.value| >= 1
            && kdf(password, s.value, n.value, |k.value|) == k.value)
      && (HubAccepts(u, kdf, password, stored) <==>
            var n, s, k := IntOrError(u, iters), UnhexSkippingSpace(salt), UnhexSkippingSpace(digest);
            && n.Some? && 1 <= n.value <= 0x7fff_ffff && s.Some? && k.Some?
            && kdf(password, s.value, n.value, 32) == k.value)
  {
    SplitRecord(iters, salt, digest);
    hide Split, Unhex, UnhexSkippingSpace, ToIntOrNull, IntOrError;
  }

  /** Neither side accepts a text of another kind. */
  lemma OtherTextsAreRefused(u: Scripts, kdf: Kdf, password: string, stored: string)
    requires DriverAccepts(u, kdf, password, stored) || HubAccepts(u, kdf, password, stored)
    ensures "pbkdf2_sha256$" <= stored
  {
    var i := FirstDollar(stored);
    assert Split(stored, 3)[0] == stored[..i] == ALGO && i < |stored|;
    assert stored[..i + 1] == ALGO + "$";
  }

  /** On any stored text the driver accepts, the hub agrees exactly when the digest has the full width and salt and digest are ASCII. */
  lemma DriverThenHub(u: Scripts, kdf: Kdf, password: string, stored: string)
    requires Unicode(u) && IsKdf(kdf) && DriverAccepts(u, kdf, password, stored)
    ensures var parts := Split(stored, 3);
      HubAccepts(u, kdf, password, stored) <==>
      (|Unhex(u.hex, parts[3]).value| == 32 && Ascii(parts[2]) && Ascii(parts[3]))
  {
    var parts := Split(stored, 3);
    HubReadsDriverCounts(u, parts[1]);
    ReadingsDifferOnSpaceOnly(u, parts[2]);
    ReadingsDifferOnSpaceOnly(u, parts[3]);
    assert ToIntOrNull(u, parts[1]).value <= INT_MAX;
    hide Split, Unhex, UnhexSkippingSpace, ToIntOrNull, IntOrError, Unicode, Ascii, NoSpace;
  }

  /** On any stored text the hub accepts, the driver agrees exactly when it can read the parts and the salt is not empty. */
  lemma HubThenDriver(u: Scripts, kdf: Kdf, password: string, stored: string)
    requires Unicode(u) && IsKdf(kdf) && HubAccepts(u, kdf, password, stored)
    ensures var parts := Split(stored, 3);
      DriverAccepts(u, kdf, password, stored) <==>
      (ToIntOrNull(u, parts[1]).Some? && NoSpace(parts[2]) && NoSpace(parts[3]) && UnhexSkippingSpace(parts[2]) != Some([]))
  {
    var parts := Split(stored, 3);
    if ToIntOrNull(u, parts[1]).Some? { HubReadsDriverCounts(u, parts[1]); }
    ReadingsDifferOnSpaceOnly(u, parts[2]);
    ReadingsDifferOnSpaceOnly(u, parts[3]);
    hide Split, Unhex, UnhexSkippingSpace, ToIntOrNull, IntOrError, Unicode, Ascii, NoSpace;
  }

  /** Records on which the sides part: a digest of another width, and an empty salt. */
  lemma SidesPart(u: Scripts, kdf: Kdf, password: string, salt: Bytes, width: nat)
    requires Unicode(u) && IsKdf(kdf) && salt != [] && width > 0 && width != DIGEST_BYTES
    ensures var short := Record(ITERS_TEXT, HexOf(salt), HexOf(kdf(password, salt, ITERS, width)));
      DriverAccepts(u, kdf, password, short) && !HubAccepts(u, kdf, password, short)
    ensures var bare := Record(ITERS_TEXT, HexOf([]), HexOf(kdf(password, [], ITERS, DIGEST_BYTES)));
      HubAccepts(u, kdf, password, bare) && !DriverAccepts(u, kdf, password, bare)
  {
    RecordReads(u, salt, kdf(password, salt, ITERS, width));
    RecordReads(u, [], kdf(password, [], ITERS, DIGEST_BYTES));
    hide Record, Split, HexOf, Unhex, UnhexSkippingSpace, ToIntOrNull, IntOrError, Unicode;
  }

  method Hash(kdf: Kdf, password: string, salt: Bytes) returns (stored: string)
    requires IsKdf(kdf)
    ensures stored == Stored(kdf, password, salt)
  {
    var digest := kdf(password, salt, ITERS, DIGEST_BYTES);
    var saltHex := ToHex(salt);
    var digestHex := ToHex(digest);
    return ALGO + "$" + (ITERS_TEXT + "$" + (saltHex + "$" + digestHex));
  }

  method Verify(u: Scripts, kdf: Kdf, password: string, stored: string) returns (ok: bool)
    requires IsKdf(kdf)
    ensures ok <==> DriverAccepts(u, kdf, password, stored)
  {
    var parts := Split(stored, 3);
    if |parts| != 4 || parts[0] != ALGO { return false; }
    var iters := ToIntOrNull(u, parts[1]);
    if iters == None { return false; }
    var salt := FromHexOrNull(u.hex, parts[2]);
    if salt == None { return false; }
    var expected := FromHexOrNull(u.hex, parts[3]);
    if expected == None { return false; }
    if iters.value <= 0 || salt.value == [] || expected.value == [] { return false; }
    var candidate := kdf(password, salt.value, iters.value, |expected.value|);
    ok := ConstantTimeEquals(candidate, expected.value);
  }
}
