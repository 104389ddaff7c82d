/**
 * The Argon2id PHC string: printing one, parsing it back, and verifying a password against it.
 *
 * Bytes are integers from 0 to 255. Argon2id and bcrypt themselves are parameters.
 */
module Phc {
  import opened Prelude
  import Config = ConfigSnapshot

  type Bytes = seq<int>

  predicate IsBytes(b: Bytes) { forall i :: 0 <= i < |b| ==> 0 <= b[i] < 256 }

  // ── base64, section 4 of RFC 4648 without the padding its section 3.2 allows leaving out ──

  function Char64(d: int): char
    requires 0 <= d < 64
  {
    if d < 26 then (d + 65) as char
    else if d < 52 then (d + 71) as char
    else if d < 62 then (d - 4) as char
    else if d == 62 then '+' else '/'
  }

  function Value64(c: char): Option<int> {
    var x := c as int;
    if 65 <= x <= 90 then Some(x - 65)
    else if 97 <= x <= 122 then Some(x - 71)
    else if 48 <= x <= 57 then Some(x + 4)
    else if c == '+' then Some(62)
    else if c == '/' then Some(63)
    else None
  }

  function Encode(b: Bytes): string
    requires IsBytes(b)
  {
    if |b| == 0 then ""
    else if |b| == 1 then [Char64(b[0] / 4), Char64(b[0] % 4 * 16)]
    else if |b| == 2 then [Char64(b[0] / 4), Char64(b[0] % 4 * 16 + b[1] / 16), Char64(b[1] % 16 * 4)]
    else
      [Char64(b[0] / 4), Char64(b[0] % 4 * 16 + b[1] / 16), Char64(b[1] % 16 * 4 + b[2] / 64), Char64(b[2] % 64)]
      + Encode(b[3..])
  }

  // The decoder skips line ends.
  function Strip(s: string): string {
    if s == "" then ""
    else if s[0] == '\r' || s[0] == '\n' then Strip(s[1..])
    else [s[0]] + Strip(s[1..])
  }

  function Values(s: string): Option<seq<int>> {
    if s == "" then Some([])
    else
      match (Value64(s[0]), Values(s[1..]))
      case (Some(v), Some(vs)) => Some([v] + vs)
      case _ => None
  }

  // Leftover bits of the last digit are ignored; a lone last digit is an error.
  function FromDigits64(v: seq<int>): Option<Bytes> {
    if |v| == 0 then Some([])
    else if |v| == 1 then None
    else if |v| == 2 then Some([v[0] * 4 + v[1] / 16])
    else if |v| == 3 then Some([v[0] * 4 + v[1] / 16, v[1] % 16 * 16 + v[2] / 4])
    else
      match FromDigits64(v[4..])
      case None => None
      case Some(rest) => Some([v[0] * 4 + v[1] / 16, v[1] % 16 * 16 + v[2] / 4, v[2] % 4 * 64 + v[3]] + rest)
  }

  function Decode(s: string): Option<Bytes> {
    match Values(Strip(s))
    case None => None
    case Some(v) => FromDigits64(v)
  }

  // The digits of an encoding.
  function ToDigits64(b: Bytes): (v: seq<int>)
    requires IsBytes(b)
    ensures forall i :: 0 <= i < |v| ==> 0 <= v[i] < 64
  {
    if |b| == 0 then []
    else if |b| == 1 then [b[0] / 4, b[0] % 4 * 16]
    else if |b| == 2 then [b[0] / 4, b[0] % 4 * 16 + b[1] / 16, b[1] % 16 * 4]
    else [b[0] / 4, b[0] % 4 * 16 + b[1] / 16, b[1] % 16 * 4 + b[2] / 64, b[2] % 64] + ToDigits64(b[3..])
  }

  function Chars(v: seq<int>): string
    requires forall i :: 0 <= i < |v| ==> 0 <= v[i] < 64
  {
    if v == [] then "" else [Char64(v[0])] + Chars(v[1..])
  }

  lemma {:induction false} CharsAppend(v: seq<int>, w: seq<int>)
    requires (forall i :: 0 <= i < |v| ==> 0 <= v[i] < 64) && (forall i :: 0 <= i < |w| ==> 0 <= w[i] < 64)
    ensures Chars(v + w) == Chars(v) + Chars(w)
  {
    if v == [] {
      assert v + w == w;
    } else {
      CharsAppend(v[1..], w);
      assert (v + w)[1..] == v[1..] + w;
    }
  }

  lemma {:induction false} EncodeIsChars(b: Bytes)
    requires IsBytes(b)
    ensures Encode(b) == Chars(ToDigits64(b))
  {
    if |b| == 1 {
      TwoChars(b[0] / 4, b[0] % 4 * 16);
    } else if |b| == 2 {
      ThreeChars(b[0] / 4, b[0] % 4 * 16 + b[1] / 16, b[1] % 16 * 4);
    } else if |b| >= 3 {
      var head := [b[0] / 4, b[0] % 4 * 16 + b[1] / 16, b[1] % 16 * 4 + b[2] / 64, b[2] % 64];
      EncodeIsChars(b[3..]);
      CharsAppend(head, ToDigits64(b[3..]));
      FourChars(head[0], head[1], head[2], head[3]);
    }
  }

  predicate IsDigit64(x: int) { 0 <= x < 64 }

  lemma OneChar(x: int)
    requires IsDigit64(x)
    ensures Chars([x]) == [Char64(x)]
  {
  }

  lemma TwoChars(w: int, x: int)
    requires IsDigit64(w) && IsDigit64(x)
    ensures Chars([w, x]) == [Char64(w), Char64(x)]
  {
    assert [w, x][1..] == [x];
    OneChar(x);
  }

  lemma ThreeChars(w: int, x: int, y: int)
    requires IsDigit64(w) && IsDigit64(x) && IsDigit64(y)
    ensures Chars([w, x, y]) == [Char64(w), Char64(x), Char64(y)]
  {
    assert [w, x, y][1..] == [x, y];
    TwoChars(x, y);
  }

  lemma FourChars(w: int, x: int, y: int, z: int)
    requires IsDigit64(w) && IsDigit64(x) && IsDigit64(y) && IsDigit64(z)
    ensures Chars([w, x, y, z]) == [Char64(w), Char64(x), Char64(y), Char64(z)]
  {
    assert [w, x, y, z][1..] == [x, y, z];
    ThreeChars(x, y, z);
  }

  lemma {:induction false} CharsDecode(v: seq<int>)
    requires forall i :: 0 <= i < |v| ==> 0 <= v[i] < 64
    ensures Strip(Chars(v)) == Chars(v) && Values(Chars(v)) == Some(v)
    ensures forall i :: 0 <= i < |Chars(v)| ==> Chars(v)[i] != '$'
    ensures |Chars(v)| == |v|
  {
    if v != [] {
      CharsDecode(v[1..]);
      assert Chars(v)[1..] == Chars(v[1..]);
      assert v == [v[0]] + v[1..];
    }
  }

  lemma {:induction false} FromToDigits(b: Bytes)
    requires IsBytes(b)
    ensures FromDigits64(ToDigits64(b)) == Some(b)
  {
    var v := ToDigits64(b);
    if |b| == 1 {
      Bits(b[0], 0, 0);
      assert b == [b[0]];
    } else if |b| == 2 {
      Bits(b[0], b[1], 0);
      assert b == [b[0], b[1]];
    } else if |b| >= 3 {
      Bits(b[0], b[1], b[2]);
      FromToDigits(b[3..]);
      assert v[4..] == ToDigits64(b[3..]);
      assert b == [b[0], b[1], b[2]] + b[3..];
    }
  }

  // Three bytes cut into four digits and joined again.
  lemma Bits(x: int, y: int, z: int)
    requires 0 <= x < 256 && 0 <= y < 256 && 0 <= z < 256
    ensures x / 4 * 4 + (x % 4 * 16 + y / 16) / 16 == x
    ensures (x % 4 * 16 + y / 16) % 16 * 16 + (y % 16 * 4 + z / 64) / 4 == y
    ensures (y % 16 * 4 + z / 64) % 4 * 64 + z % 64 == z
  {
  }

  /** Decoding inverts encoding, and an encoding never contains the PHC separator. */
  lemma {:induction false} DecodeInvertsEncode(b: Bytes)
    requires IsBytes(b)
    ensures Decode(Encode(b)) == Some(b)
    ensures forall i :: 0 <= i < |Encode(b)| ==> Encode(b)[i] != '$'
  {
    EncodeIsChars(b);
    CharsDecode(ToDigits64(b));
    FromToDigits(b);
  }

  // ── decimal numbers: %d printed, %d scanned ─────────────────────────────────

  predicate IsDigit(c: char) { Config.IsDigit(c) }

  function Dec(n: nat): string {
    (if n < 10 then "" else Dec(n / 10)) + [(n % 10 + 48) as char]
  }

  datatype Scan = Fail | Got(value: int, rest: string)

  // Sscanf skips spaces before a number; a line end there is an error.
  function SkipSpace(s: string): Option<string> {
    if s == "" || !Config.IsSpace(s[0]) then Some(s)
    else if s[0] == '\n' then None
    else SkipSpace(s[1..])
  }

  // The digits in front, and their value added to what came before.
  function TakeDigits(s: string, n: nat): Scan {
    if s == "" || !IsDigit(s[0]) then Got(n, s)
    else TakeDigits(s[1..], 10 * n + (s[0] as int - 48))
  }

  // %d into an unsigned variable: no sign, at least one digit, in range.
  function ScanUint(s: string, bound: nat): Scan {
    match SkipSpace(s)
    case None => Fail
    case Some(t) =>
      if t == "" || !IsDigit(t[0]) then Fail
      else
        match TakeDigits(t, 0)
        case Fail => Fail
        case Got(v, rest) => if v < bound then Got(v, rest) else Fail
  }

  // %d into an int: an optional sign.
  function ScanInt(s: string): Scan {
    match SkipSpace(s)
    case None => Fail
    case Some(t) =>
      var neg := t != "" && t[0] == '-';
      var body := if t != "" && (t[0] == '-' || t[0] == '+') then t[1..] else t;
      if body == "" || !IsDigit(body[0]) then Fail
      else
        match TakeDigits(body, 0)
        case Fail => Fail
        case Got(v, rest) =>
          if neg then (if v <= 0x8000_0000_0000_0000 then Got(-v, rest) else Fail)
          else (if v < 0x8000_0000_0000_0000 then Got(v, rest) else Fail)
  }

  function Literal(s: string, lit: string): Option<string> {
    if |s| >= |lit| && s[..|lit|] == lit then Some(s[|lit|..]) else None
  }

  // A literal, then an unsigned number.
  function Field(s: string, lit: string, bound: nat): Scan {
    match Literal(s, lit)
    case None => Fail
    case Some(t) => ScanUint(t, bound)
  }

  ghost predicate AllDigits(s: string) { forall i :: 0 <= i < |s| ==> IsDigit(s[i]) }

  lemma {:induction false} DecDigits(n: nat)
    ensures |Dec(n)| > 0 && AllDigits(Dec(n))
  {
    if n >= 10 { DecDigits(n / 10); }
  }

  // Scanning printed digits, from any value scanned before them.
  lemma {:induction false} TakeOne(s: string, d: char, rest: string, n: nat, v: nat)
    requires AllDigits(s) && IsDigit(d) && TakeDigits(s, n) == Got(v, "")
    requires rest == "" || !IsDigit(rest[0])
    ensures TakeDigits(s + [d] + rest, n) == Got(10 * v + (d as int - 48), rest)
    decreases |s|
  {
    if s == "" {
      assert s + [d] + rest == [d] + rest && ([d] + rest)[1..] == rest;
    } else {
      assert (s + [d] + rest)[1..] == s[1..] + [d] + rest;
      assert (s + [d] + rest)[0] == s[0];
      TakeOne(s[1..], d, rest, 10 * n + (s[0] as int - 48), v);
    }
  }

  lemma {:induction false} ScanDec(n: nat, rest: string)
    requires rest == "" || !IsDigit(rest[0])
    ensures TakeDigits(Dec(n) + rest, 0) == Got(n, rest)
  {
    DecDigits(n);
    var d := (n % 10 + 48) as char;
    if n < 10 {
      assert Dec(n) == [d];
      TakeOne("", d, rest, 0, 0);
      assert "" + [d] + rest == Dec(n) + rest;
    } else {
      ScanDec(n / 10, "");
      DecDigits(n / 10);
      assert Dec(n / 10) + "" == Dec(n / 10);
      TakeOne(Dec(n / 10), d, rest, 0, n / 10);
    }
  }

  lemma {:induction false} ScanPrinted(n: nat, rest: string, bound: nat)
    requires rest == "" || !IsDigit(rest[0])
    ensures n < bound ==> ScanUint(Dec(n) + rest, bound) == Got(n, rest)
    ensures n < 0x8000_0000_0000_0000 ==> ScanInt(Dec(n) + rest) == Got(n, rest)
  {
    DecDigits(n);
    ScanDec(n, rest);
    assert (Dec(n) + rest)[0] == Dec(n)[0];
  }

  // ── the PHC string ──────────────────────────────────────────────────────────

  const VERSION := 19
  const UINT32 := 0x1_0000_0000
  const UINT8 := 0x100

  datatype Params = Params(memory: nat, time: nat, threads: nat)

  datatype Parsed = Bad | Phc(params: Params, salt: Bytes, key: Bytes)

  function Print(p: Params, salt: Bytes, key: Bytes): string
    requires IsBytes(salt) && IsBytes(key)
  {
    Join("", Join("argon2id", Join("v=" + Dec(VERSION), Join(PrintParams(p), Join(Encode(salt), Encode(key))))))
  }

  function Join(a: string, b: string): string { a + "$" + b }

  function PrintParams(p: Params): string {
    "m=" + (Dec(p.memory) + (",t=" + (Dec(p.time) + (",p=" + (Dec(p.threads) + "")))))
  }

  // Sscanf "m=%d,t=%d,p=%d"; what follows the last number is ignored.
  function ParseParams(s: string): Option<Params> {
    match Field(s, "m=", UINT32)
    case Fail => None
    case Got(m, afterM) =>
      match Field(afterM, ",t=", UINT32)
      case Fail => None
      case Got(t, afterT) =>
        match Field(afterT, ",p=", UINT8)
        case Fail => None
        case Got(p, _) => if m >= 0 && t >= 0 && p >= 0 then Some(Params(m, t, p)) else None
  }

  function ParseVersion(s: string): Option<int> {
    match Literal(s, "v=")
    case None => None
    case Some(t) =>
      match ScanInt(t)
      case Fail => None
      case Got(v, _) => Some(v)
  }

  function ParsePhc(s: string): Parsed {
    var parts := Config.Split(s, '$');
    if |parts| != 6 || parts[1] != "argon2id" then Bad
    else if ParseVersion(parts[2]) != Some(VERSION) then Bad
    else
      match (ParseParams(parts[3]), Decode(parts[4]), Decode(parts[5]))
      case (Some(p), Some(salt), Some(key)) => if salt == [] || key == [] then Bad else Phc(p, salt, key)
      case _ => Bad
  }

  ghost predicate Clean(s: string) { forall i :: 0 <= i < |s| ==> s[i] != '$' }

  lemma {:induction false} SplitFirst(a: string, rest: string)
    requires Clean(a)
    ensures Config.Split(Join(a, rest), '$') == [a] + Config.Split(rest, '$')
  {
    if a == "" {
      assert Join(a, rest) == "$" + rest && ("$" + rest)[1..] == rest;
    } else {
      SplitFirst(a[1..], rest);
      assert Join(a, rest)[1..] == Join(a[1..], rest);
      assert a == [a[0]] + a[1..];
    }
  }

  lemma {:induction false} SplitLast(a: string)
    requires Clean(a)
    ensures Config.Split(a, '$') == [a]
  {
    if a != "" {
      SplitLast(a[1..]);
      assert a == [a[0]] + a[1..];
    }
  }

  lemma {:induction false} DigitsAreClean(n: nat)
    ensures Clean(Dec(n))
  {
    DecDigits(n);
  }

  lemma ParamsRoundTrip(p: Params)
    requires p.memory < UINT32 && p.time < UINT32 && p.threads < UINT8
    ensures ParseParams(PrintParams(p)) == Some(p)
  {
    var afterT := ",p=" + (Dec(p.threads) + "");
    var afterM := ",t=" + (Dec(p.time) + afterT);
    FieldPrinted("m=", p.memory, afterM, UINT32);
    FieldPrinted(",t=", p.time, afterT, UINT32);
    FieldPrinted(",p=", p.threads, "", UINT8);
  }

  lemma ParamsAreClean(p: Params)
    ensures Clean(PrintParams(p))
  {
    var afterT := ",p=" + (Dec(p.threads) + "");
    FieldIsClean(",p=", p.threads, "");
    FieldIsClean(",t=", p.time, afterT);
    FieldIsClean("m=", p.memory, ",t=" + (Dec(p.time) + afterT));
  }

  lemma {:induction false} FieldIsClean(lit: string, n: nat, rest: string)
    requires Clean(lit) && Clean(rest)
    ensures Clean(lit + (Dec(n) + rest))
  {
    DigitsAreClean(n);
  }

  lemma {:induction false} FieldPrinted(lit: string, n: nat, rest: string, bound: nat)
    requires n < bound && (rest == "" || !IsDigit(rest[0]))
    ensures Field(lit + (Dec(n) + rest), lit, bound) == Got(n, rest)
  {
    var s := lit + (Dec(n) + rest);
    assert s[..|lit|] == lit && s[|lit|..] == Dec(n) + rest;
    ScanPrinted(n, rest, bound);
  }

  lemma VersionRoundTrip()
    ensures ParseVersion("v=" + Dec(VERSION)) == Some(VERSION) && Clean("v=" + Dec(VERSION))
  {
    var s := "v=" + Dec(VERSION);
    assert s[..2] == "v=" && s[2..] == Dec(VERSION);
    assert Dec(VERSION) + "" == Dec(VERSION);
    ScanPrinted(VERSION, "", 0);
    DigitsAreClean(VERSION);
  }

  // The printed string splits into six parts, whatever it holds.
  lemma {:induction false} SixParts(p: Params, salt: Bytes, key: Bytes)
    requires IsBytes(salt) && IsBytes(key)
    ensures Config.Split(Print(p, salt, key), '$')
         == ["", "argon2id", "v=" + Dec(VERSION), PrintParams(p), Encode(salt), Encode(key)]
  {
    VersionRoundTrip();
    ParamsAreClean(p);
    DecodeInvertsEncode(salt);
    DecodeInvertsEncode(key);
    var s5 := Encode(key);
    var s4 := Join(Encode(salt), s5);
    var s3 := Join(PrintParams(p), s4);
    var s2 := Join("v=" + Dec(VERSION), s3);
    SplitFirst("", Join("argon2id", s2));
    SplitFirst("argon2id", s2);
    SplitFirst("v=" + Dec(VERSION), s3);
    SplitFirst(PrintParams(p), s4);
    SplitFirst(Encode(salt), s5);
    SplitLast(s5);
  }

  /** Parsing inverts printing, for every uint32 memory and time, uint8 lanes, and non-empty salt and key. */
  lemma ParseInvertsPrint(p: Params, salt: Bytes, key: Bytes)
    requires p.memory < UINT32 && p.time < UINT32 && p.threads < UINT8
    requires IsBytes(salt) && IsBytes(key) && salt != [] && key != []
    ensures ParsePhc(Print(p, salt, key)) == Phc(p, salt, key)
  {
    ParamsRoundTrip(p);
    SixParts(p, salt, key);
    VersionRoundTrip();
    DecodeInvertsEncode(salt);
    DecodeInvertsEncode(key);
  }

  // ── hashing and verifying ───────────────────────────────────────────────────

  const TIME := 3
  const MEMORY := 65_536
  const KEY_LENGTH := 32
  const SALT_LENGTH := 16

  // argonThreads, from the number of CPUs.
  function Lanes(cpus: nat): nat { if cpus < 4 then cpus else 4 }

  // argon2.IDKey; it panics on zero passes or zero lanes.
  type Kdf = (string, Bytes, Params, nat) -> Bytes

  // bcrypt.CompareHashAndPassword.
  type Bcrypt = (string, string) -> bool

  datatype Verdict = Verdict(ok: bool, rehash: bool) | Panics

  function Minted(cpus: nat): Params { Params(MEMORY, TIME, Lanes(cpus)) }

  // The hash of a password under a drawn salt; an empty password is refused.
  function Hash(kdf: Kdf, cpus: nat, password: string, salt: Bytes): Option<string>
    requires IsBytes(salt) && IsBytes(kdf(password, salt, Minted(cpus), KEY_LENGTH))
  {
    if password == "" then None
    else Some(Print(Minted(cpus), salt, kdf(password, salt, Minted(cpus), KEY_LENGTH)))
  }

  predicate HasPrefix(s: string, prefix: string) { |s| >= |prefix| && s[..|prefix|] == prefix }

  predicate IsBcrypt(s: string) { HasPrefix(s, "$2a$") || HasPrefix(s, "$2b$") || HasPrefix(s, "$2y$") }

  function Verify(kdf: Kdf, bcrypt: Bcrypt, cpus: nat, stored: string, password: string): Verdict {
    if HasPrefix(stored, "$argon2id$") then
      match ParsePhc(stored)
      case Bad => Verdict(false, false)
      case Phc(p, salt, key) =>
        if p.time < 1 || p.threads < 1 then Panics
        else
          var ok := kdf(password, salt, p, |key|) == key;
          Verdict(ok, ok && p != Minted(cpus))
    else if IsBcrypt(stored) then Verdict(bcrypt(stored, password), bcrypt(stored, password))
    else Verdict(false, false)
  }

  lemma PrintHasPrefix(p: Params, salt: Bytes, key: Bytes)
    requires IsBytes(salt) && IsBytes(key)
    ensures HasPrefix(Print(p, salt, key), "$argon2id$")
  {
  }

  /**
   * A hash minted on one machine and checked on another: the right password verifies, and is asked to be
   * rehashed exactly when the two would pick different lanes; any other verifies only if Argon2id itself
   * maps it to the same key.
   */
  lemma HashThenVerify(kdf: Kdf, bcrypt: Bcrypt, minting: nat, checking: nat, password: string, salt: Bytes, guess: string)
    requires IsBytes(salt) && |salt| == SALT_LENGTH && minting >= 1 && password != ""
    requires var key := kdf(password, salt, Minted(minting), KEY_LENGTH); IsBytes(key) && |key| == KEY_LENGTH
    ensures var stored := Hash(kdf, minting, password, salt).value;
            var same := kdf(guess, salt, Minted(minting), KEY_LENGTH) == kdf(password, salt, Minted(minting), KEY_LENGTH);
            && Verify(kdf, bcrypt, checking, stored, guess) == Verdict(same, same && Lanes(checking) != Lanes(minting))
            && Verify(kdf, bcrypt, minting, stored, password) == Verdict(true, false)
  {
    var p, key := Minted(minting), kdf(password, salt, Minted(minting), KEY_LENGTH);
    ParseInvertsPrint(p, salt, key);
    PrintHasPrefix(p, salt, key);
  }

  /** The parser reads more than the printer writes: whatever follows the last number is ignored. */
  lemma TrailingIsIgnored(p: Params, junk: string)
    requires p.memory < UINT32 && p.time < UINT32 && p.threads < UINT8
    requires junk == "" || !IsDigit(junk[0])
    ensures ParseParams("m=" + (Dec(p.memory) + (",t=" + (Dec(p.time) + (",p=" + (Dec(p.threads) + junk)))))) == Some(p)
  {
    var afterT := ",p=" + (Dec(p.threads) + junk);
    FieldPrinted("m=", p.memory, ",t=" + (Dec(p.time) + afterT), UINT32);
    FieldPrinted(",t=", p.time, afterT, UINT32);
    FieldPrinted(",p=", p.threads, junk, UINT8);
  }
}
