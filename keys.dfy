/**
 * How the store names things in its key-value trees: the key encoders of
 * `SledConfigStore` (`prekey_key`, `signed_prekey_key`, `session_key`, `session_prefix`,
 * `identity_key`), the decimal formatting they rely on, and the parse that turns the tail of
 * a scanned session key back into a device id.
 */
module Keys {
  import opened Wrappers
  import opened Encoding

  /* ---------- decimal digits ---------- */

  predicate IsDigit(c: char) { '0' <= c <= '9' }

  predicate AllDigits(s: string) { forall i :: 0 <= i < |s| ==> IsDigit(s[i]) }

  function DigitChar(d: nat): char
    requires d < 10
  {
    ('0' as int + d) as char
  }

  function DigitValue(c: char): nat
    requires IsDigit(c)
  {
    c as int - '0' as int
  }

  function Pow10(k: nat): (p: nat)
    ensures p >= 1
  {
    if k == 0 then 1 else 10 * Pow10(k - 1)
  }

  /** The number a string of decimal digits denotes; leading zeros are allowed. */
  function DecimalValue(s: string): nat
    requires AllDigits(s)
  {
    if s == [] then 0 else DecimalValue(s[..|s| - 1]) * 10 + DigitValue(s[|s| - 1])
  }

  /** `Display` of an unsigned integer: its decimal digits, without leading zeros. */
  function Decimal(n: nat): (s: string)
    ensures |s| >= 1 && AllDigits(s) && DecimalValue(s) == n
    ensures s[0] != '0' || n == 0
  {
    if n < 10 then [DigitChar(n)]
    else
      var s := Decimal(n / 10) + [DigitChar(n % 10)];
      assert s[..|s| - 1] == Decimal(n / 10);
      s
  }

  function Zeros(k: nat): (z: string)
  {
    seq(k, _ => '0')
  }

  /**
   * `format!("{:09}", n)`: the decimal digits of `n`, zero-padded on the left to nine.
   * Padding never changes the number written, and the width is nine exactly below `10^9`.
   */
  function Format09(n: nat): (s: string)
    ensures AllDigits(s) && DecimalValue(s) == n
    ensures |s| >= 9 && (n < Pow10(9) ==> |s| == 9)
  {
    var d := Decimal(n);
    DecimalLength(n, 9);
    if |d| < 9 then
      DecimalValueZeros(9 - |d|, d);
      Zeros(9 - |d|) + d
    else
      d
  }

  /* ---------- the store's keys ---------- */

  /** libsignal's `ProtocolAddress`: a peer name and a device id. */
  datatype ProtocolAddress = ProtocolAddress(name: string, deviceId: u32)

  /** `Display` of a `ProtocolAddress`: the name, a dot, and digits that parse back to the device id. */
  function AddressString(a: ProtocolAddress): (s: string)
    ensures |s| > |a.name| + 1 && s[..|a.name|] == a.name && s[|a.name|] == '.'
    ensures ParseU32(s[|a.name| + 1..]) == Some(a.deviceId)
  {
    var s := a.name + "." + Decimal(a.deviceId as nat);
    assert s[|a.name| + 1..] == Decimal(a.deviceId as nat);
    ParseDecimal(a.deviceId);
    s
  }

  /** The pre-key of `id` lives under `prekey-` and digits that read back as `id`. */
  function PrekeyKey(id: u32): (k: string)
    ensures |k| >= 16 && k[..7] == "prekey-"
    ensures AllDigits(k[7..]) && DecimalValue(k[7..]) == id as nat
  {
    var k := "prekey-" + Format09(id as nat);
    assert k[7..] == Format09(id as nat);
    k
  }

  /** The signed pre-key of `id` lives under `signed-prekey-` and digits that read back as `id`. */
  function SignedPrekeyKey(id: u32): (k: string)
    ensures |k| >= 23 && k[..14] == "signed-prekey-"
    ensures AllDigits(k[14..]) && DecimalValue(k[14..]) == id as nat
  {
    var k := "signed-prekey-" + Format09(id as nat);
    assert k[14..] == Format09(id as nat);
    k
  }

  /** A session key is its name's scan prefix followed by the decimal digits of the device id. */
  function SessionKey(a: ProtocolAddress): (k: string)
    ensures k == SessionPrefix(a.name) + Decimal(a.deviceId as nat)
  {
    var k := "session-" + AddressString(a);
    assert k == SessionPrefix(a.name) + Decimal(a.deviceId as nat);
    k
  }

  /** The scan prefix of a name: `session-`, the name, and the separating dot. */
  function SessionPrefix(name: string): (p: string)
    ensures |p| == |name| + 9 && p[|p| - 1] == '.'
    ensures p[..8] == "session-" && p[8..|p| - 1] == name
  {
    "session-" + name + "."
  }

  /** The identity of a peer device lives under `identity-remote-` and its address. */
  function IdentityKey(a: ProtocolAddress): (k: string)
    ensures |k| > 16 && k[..16] == "identity-remote-" && k[16..] == AddressString(a)
  {
    "identity-remote-" + AddressString(a)
  }

  /** What follows an optional leading `+`. */
  function Unsigned(s: string): string
  {
    if |s| > 0 && s[0] == '+' then s[1..] else s
  }

  /**
   * `str::parse::<u32>`: an optional `+`, then at least one decimal digit, and a value
   * that fits in 32 bits; anything else is an error.
   */
  function ParseU32(s: string): (r: Option<u32>)
    ensures r.Some? <==> |Unsigned(s)| > 0 && AllDigits(Unsigned(s)) && DecimalValue(Unsigned(s)) < 0x1_0000_0000
    ensures r.Some? ==> DecimalValue(Unsigned(s)) == r.value as nat
  {
    var digits := Unsigned(s);
    if |digits| == 0 || !AllDigits(digits) then None
    else if DecimalValue(digits) < 0x1_0000_0000 then Some(DecimalValue(digits) as u32)
    else None
  }

  /**
   * What `get_sub_device_sessions(name)` keeps of one session key: keys outside the prefix
   * scan give nothing; the others give their remainder if it parses as a `u32`. A key that
   * yields an id is the prefix followed by an optional `+` and digits only.
   */
  function DeviceSuffix(name: string, key: string): (r: Option<u32>)
    ensures r.Some? ==> SessionPrefix(name) <= key && ParseU32(key[|SessionPrefix(name)|..]) == r
    ensures !(SessionPrefix(name) <= key) ==> r == None
  {
    var p := SessionPrefix(name);
    if p <= key then ParseU32(key[|p|..]) else None
  }

  /* ---------- decimal lemmas ---------- */

  lemma {:induction false} DecimalValueZeros(k: nat, s: string)
    requires AllDigits(s)
    ensures AllDigits(Zeros(k) + s) && DecimalValue(Zeros(k) + s) == DecimalValue(s)
    decreases |s|
  {
    var w := Zeros(k) + s;
    if s == [] {
      assert w == Zeros(k);
      ZerosValue(k);
    } else {
      var s' := s[..|s| - 1];
      assert w[..|w| - 1] == Zeros(k) + s';
      DecimalValueZeros(k, s');
    }
  }

  lemma {:induction false} ZerosValue(k: nat)
    ensures AllDigits(Zeros(k)) && DecimalValue(Zeros(k)) == 0
  {
    if k > 0 {
      assert Zeros(k)[..k - 1] == Zeros(k - 1);
      ZerosValue(k - 1);
    }
  }

  /** A number below `10^k` has at most `k` decimal digits, and conversely. */
  lemma {:induction false} DecimalLength(n: nat, k: nat)
    requires k >= 1
    ensures |Decimal(n)| <= k <==> n < Pow10(k)
  {
    if n >= 10 {
      if k == 1 {
        assert Pow10(1) == 10;
      } else {
        DecimalLength(n / 10, k - 1);
        assert n / 10 < Pow10(k - 1) <==> n < 10 * Pow10(k - 1);
      }
    } else {
      PowAtLeastTen(k);
    }
  }

  lemma {:induction false} PowAtLeastTen(k: nat)
    requires k >= 1
    ensures Pow10(k) >= 10
  {
    if k > 1 { PowAtLeastTen(k - 1); }
  }

  /** Reading a digit string from the front: the leading digit weighs `10^(|s|-1)`. */
  lemma {:induction false} DecimalValueFront(s: string)
    requires |s| >= 1 && AllDigits(s)
    ensures DecimalValue(s) == DigitValue(s[0]) * Pow10(|s| - 1) + DecimalValue(s[1..])
  {
    if |s| > 1 {
      var s' := s[..|s| - 1];
      DecimalValueFront(s');
      assert s'[1..] == s[1..][..|s| - 2];
      assert s[1..][..|s| - 2] == s'[1..] && s[1..][|s| - 2] == s[|s| - 1];
      ShiftLeadingDigit(DigitValue(s[0]), Pow10(|s| - 2), DecimalValue(s'[1..]), DigitValue(s[|s| - 1]));
    } else {
      assert s[1..] == [];
    }
  }

  lemma ShiftLeadingDigit(a: nat, q: nat, x: nat, l: nat)
    ensures (a * q + x) * 10 + l == a * (10 * q) + (x * 10 + l)
  {
    assert (a * q) * 10 == a * (10 * q);
  }

  lemma {:induction false} DecimalValueBound(s: string)
    requires AllDigits(s)
    ensures DecimalValue(s) < Pow10(|s|)
  {
    if s != [] {
      DecimalValueBound(s[..|s| - 1]);
    }
  }

  /* ---------- lexicographic order ---------- */

  /** Byte order of ASCII keys, which is the order in which the engine keeps them. */
  predicate LexLess(s: string, t: string)
  {
    if t == [] then false
    else if s == [] then true
    else s[0] < t[0] || (s[0] == t[0] && LexLess(s[1..], t[1..]))
  }

  /** On digit strings of one length, key order is numeric order. */
  lemma {:induction false} LexLessDigits(s: string, t: string)
    requires |s| == |t| && AllDigits(s) && AllDigits(t)
    ensures LexLess(s, t) <==> DecimalValue(s) < DecimalValue(t)
  {
    if s != [] {
      DecimalValueFront(s);
      DecimalValueFront(t);
      DecimalValueBound(s[1..]);
      DecimalValueBound(t[1..]);
      var p := Pow10(|s| - 1);
      var a, b := DigitValue(s[0]), DigitValue(t[0]);
      if a < b {
        WeightedDigitsOrder(a, b, p, DecimalValue(s[1..]), DecimalValue(t[1..]));
      } else if b < a {
        WeightedDigitsOrder(b, a, p, DecimalValue(t[1..]), DecimalValue(s[1..]));
      } else {
        LexLessDigits(s[1..], t[1..]);
      }
    }
  }

  /** A larger leading digit outweighs any lower-order remainder. */
  lemma WeightedDigitsOrder(a: nat, b: nat, p: nat, x: nat, y: nat)
    requires x < p
    ensures a < b ==> a * p + x < b * p + y
  {
    if a < b {
      MulStep(a, b, p);
    }
  }

  /** `a < b` makes `b * p` at least one `p` above `a * p`. */
  lemma {:induction false} MulStep(a: nat, b: nat, p: nat)
    requires a < b
    ensures a * p + p <= b * p
  {
    if b > a + 1 {
      MulStep(a, b - 1, p);
    }
    assert b * p == (b - 1) * p + p;
  }

  lemma {:induction false} LexLessCommonPrefix(p: string, s: string, t: string)
    ensures LexLess(p + s, p + t) <==> LexLess(s, t)
  {
    if p != [] {
      assert (p + s)[1..] == p[1..] + s;
      assert (p + t)[1..] == p[1..] + t;
      LexLessCommonPrefix(p[1..], s, t);
    } else {
      assert p + s == s && p + t == t;
    }
  }

  /* ---------- properties of the key encoders ---------- */

  /** Distinct pre-key ids get distinct keys. */
  lemma PrekeyKeyInjective(i: u32, j: u32)
    ensures PrekeyKey(i) == PrekeyKey(j) ==> i == j
  {
    if PrekeyKey(i) == PrekeyKey(j) {
      var p := "prekey-";
      assert Format09(i as nat) == PrekeyKey(i)[|p|..];
      assert Format09(j as nat) == PrekeyKey(j)[|p|..];
    }
  }

  /** Distinct signed pre-key ids get distinct keys. */
  lemma SignedPrekeyKeyInjective(i: u32, j: u32)
    ensures SignedPrekeyKey(i) == SignedPrekeyKey(j) ==> i == j
  {
    if SignedPrekeyKey(i) == SignedPrekeyKey(j) {
      var p := "signed-prekey-";
      assert Format09(i as nat) == SignedPrekeyKey(i)[|p|..];
      assert Format09(j as nat) == SignedPrekeyKey(j)[|p|..];
    }
  }

  /**
   * The key families of the default tree never collide: pre-keys, signed pre-keys and
   * remote identities differ from each other and from the four fixed keys.
   */
  lemma DefaultTreeKeysDisjoint(i: u32, j: u32, a: ProtocolAddress)
    ensures PrekeyKey(i) != SignedPrekeyKey(j)
    ensures PrekeyKey(i) !in {"state", "contacts", "pre_keys_offset_id", "next_signed_pre_key_id"}
    ensures SignedPrekeyKey(j) !in {"state", "contacts", "pre_keys_offset_id", "next_signed_pre_key_id"}
    ensures IdentityKey(a) !in {"state", "contacts", "pre_keys_offset_id", "next_signed_pre_key_id"}
    ensures IdentityKey(a) != PrekeyKey(i) && IdentityKey(a) != SignedPrekeyKey(j)
  {
    KeyFamilyLetters(i, j, a);
    NotFixedKey(PrekeyKey(i));
    NotFixedKey(SignedPrekeyKey(j));
    NotFixedKey(IdentityKey(a));
  }

  /** The letters that tell the key families apart. */
  lemma KeyFamilyLetters(i: u32, j: u32, a: ProtocolAddress)
    ensures |PrekeyKey(i)| > 3 && PrekeyKey(i)[0] == 'p' && PrekeyKey(i)[3] == 'k'
    ensures |SignedPrekeyKey(j)| > 1 && SignedPrekeyKey(j)[0] == 's' && SignedPrekeyKey(j)[1] == 'i'
    ensures |IdentityKey(a)| > 0 && IdentityKey(a)[0] == 'i'
  {
    LeadingLetters("prekey-", Format09(i as nat));
    LeadingLetters("signed-prekey-", Format09(j as nat));
    LeadingLetters("identity-remote-", AddressString(a));
  }

  lemma LeadingLetters(p: string, rest: string)
    requires |p| > 3
    ensures (p + rest)[0] == p[0] && (p + rest)[1] == p[1] && (p + rest)[3] == p[3]
  {
  }

  /** A key that starts like a pre-key, a signed pre-key or an identity is not a fixed key. */
  lemma NotFixedKey(k: string)
    requires |k| > 3
    requires k[0] == 'i' || (k[0] == 's' && k[1] == 'i') || (k[0] == 'p' && k[3] == 'k')
    ensures k !in {"state", "contacts", "pre_keys_offset_id", "next_signed_pre_key_id"}
  {
  }

  /** Zero padding keeps key order equal to numeric order for every id below `10^9`. */
  lemma PaddedKeyOrder(prefix: string, a: nat, b: nat)
    requires a < Pow10(9) && b < Pow10(9)
    ensures LexLess(prefix + Format09(a), prefix + Format09(b)) <==> a < b
  {
    LexLessDigits(Format09(a), Format09(b));
    LexLessCommonPrefix(prefix, Format09(a), Format09(b));
  }

  lemma PrekeyKeyOrder(a: u32, b: u32)
    requires (a as nat) < Pow10(9) && (b as nat) < Pow10(9)
    ensures LexLess(PrekeyKey(a), PrekeyKey(b)) <==> a < b
  {
    PaddedKeyOrder("prekey-", a as nat, b as nat);
  }

  lemma SignedPrekeyKeyOrder(a: u32, b: u32)
    requires (a as nat) < Pow10(9) && (b as nat) < Pow10(9)
    ensures LexLess(SignedPrekeyKey(a), SignedPrekeyKey(b)) <==> a < b
  {
    PaddedKeyOrder("signed-prekey-", a as nat, b as nat);
  }

  /** A `u32` id may have ten digits, and then the order breaks: id `10^9` sorts before `10^9 - 1`. */
  lemma PrekeyKeyOrderBreaksAtTenDigits()
    ensures LexLess(PrekeyKey(1_000_000_000), PrekeyKey(999_999_999))
  {
    PaddedKeyOrderBreaks("prekey-", 1_000_000_000);
  }

  /** With any prefix, the padded key of `10^9` sorts before that of `10^9 - 1`. */
  lemma PaddedKeyOrderBreaks(prefix: string, n: nat)
    requires n == 1_000_000_000
    ensures LexLess(prefix + Format09(n), prefix + Format09(n - 1))
  {
    TenDigitsLeadWithOne(n);
    NineNinesLeadWithNine(n - 1);
    LexLessCommonPrefix(prefix, Format09(n), Format09(n - 1));
  }

  /** `10^9` is written with ten digits, the first a `1`. */
  lemma TenDigitsLeadWithOne(n: nat)
    requires n == 1_000_000_000
    ensures |Format09(n)| == 10 && Format09(n)[0] == '1'
  {
    var big := Format09(n);
    PowersOfTenUpToNine();
    assert |big| == 10 by {
      DecimalLength(n, 9);
      DecimalLength(n, 10);
      assert Pow10(10) == 10 * Pow10(9);
    }
    assert 1 * Pow10(9) <= DecimalValue(big) < 2 * Pow10(9);
    LeadingDigit(big, 1);
  }

  /** `10^9 - 1` is written with nine digits, the first a `9`. */
  lemma NineNinesLeadWithNine(n: nat)
    requires n == 999_999_999
    ensures |Format09(n)| == 9 && Format09(n)[0] == '9'
  {
    var small := Format09(n);
    PowersOfTenUpToNine();
    assert 9 * Pow10(8) <= DecimalValue(small) < 10 * Pow10(8);
    LeadingDigit(small, 9);
  }

  lemma PowersOfTenUpToNine()
    ensures Pow10(8) == 100_000_000 && Pow10(9) == 1_000_000_000
  {
    assert Pow10(2) == 100;
    assert Pow10(4) == 10 * 10 * Pow10(2);
    assert Pow10(6) == 10 * 10 * Pow10(4);
    assert Pow10(8) == 10 * 10 * Pow10(6);
  }

  /** The leading digit of a digit string is read off the range its value lies in. */
  lemma LeadingDigit(s: string, d: nat)
    requires |s| >= 1 && AllDigits(s) && d < 10
    requires d * Pow10(|s| - 1) <= DecimalValue(s) < (d + 1) * Pow10(|s| - 1)
    ensures s[0] == DigitChar(d)
  {
    var p := Pow10(|s| - 1);
    DecimalValueFront(s);
    DecimalValueBound(s[1..]);
    var a := DigitValue(s[0]);
    assert (d + 1) * p == d * p + p;
    WeightedDigitsOrder(a, d, p, DecimalValue(s[1..]), 0);
    WeightedDigitsOrder(d, a, p, p - 1, DecimalValue(s[1..]));
    assert a == d;
  }

  /* ---------- addresses and session keys ---------- */

  /** Cutting `x + "." + d` at its last dot, when `d` holds no dot. */
  lemma SplitAtLastDot(x: string, d: string, y: string, e: string)
    requires AllDigits(d) && AllDigits(e)
    requires x + "." + d == y + "." + e
    ensures x == y && d == e
  {
    var w := x + "." + d;
    assert w[|x|] == '.' && w[|y|] == '.';
    assert forall i :: |y| < i < |w| ==> w[i] == e[i - |y| - 1];
    assert forall i :: |x| < i < |w| ==> w[i] == d[i - |x| - 1];
    assert |x| == |y|;
    assert x == w[..|x|] == y;
    assert d == w[|x| + 1..] == e;
  }

  /** Distinct addresses display differently, even when names contain dots. */
  lemma AddressStringInjective(a: ProtocolAddress, b: ProtocolAddress)
    ensures AddressString(a) == AddressString(b) ==> a == b
  {
    if AddressString(a) == AddressString(b) {
      SplitAtLastDot(a.name, Decimal(a.deviceId as nat), b.name, Decimal(b.deviceId as nat));
    }
  }

  /** Each peer device has its own session key. */
  lemma SessionKeyInjective(a: ProtocolAddress, b: ProtocolAddress)
    ensures SessionKey(a) == SessionKey(b) ==> a == b
  {
    if SessionKey(a) == SessionKey(b) {
      assert AddressString(a) == SessionKey(a)[8..];
      assert AddressString(b) == SessionKey(b)[8..];
      AddressStringInjective(a, b);
    }
  }

  /** Each peer device has its own identity key. */
  lemma IdentityKeyInjective(a: ProtocolAddress, b: ProtocolAddress)
    ensures IdentityKey(a) == IdentityKey(b) ==> a == b
  {
    if IdentityKey(a) == IdentityKey(b) {
      assert AddressString(a) == IdentityKey(a)[16..];
      assert AddressString(b) == IdentityKey(b)[16..];
      AddressStringInjective(a, b);
    }
  }

  lemma ParseDecimal(d: u32)
    ensures ParseU32(Decimal(d as nat)) == Some(d)
  {
    var s := Decimal(d as nat);
    assert s[0] != '+' by { assert IsDigit(s[0]); }
  }

  /** A remainder that holds a dot never parses as a device id. */
  lemma ParseRejectsDot(s: string, i: nat)
    requires i < |s| && s[i] == '.'
    ensures ParseU32(s) == None
  {
    if |s| > 0 && s[0] == '+' {
      assert Unsigned(s)[i - 1] == '.';
    }
  }

  /**
   * The separator makes the prefix scan exact: a session key yields a device id under
   * `name` exactly when it belongs to `name`, and then yields that key's own device id.
   * So `session-alicebob.1` yields nothing for `alice`, and neither does `session-alice.5.3`
   * (the key of peer `alice.5`, device 3).
   */
  lemma DeviceSuffixOfSessionKey(name: string, a: ProtocolAddress)
    ensures DeviceSuffix(name, SessionKey(a)) == if a.name == name then Some(a.deviceId) else None
  {
    var k := SessionKey(a);
    var p, pa := SessionPrefix(name), SessionPrefix(a.name);
    var d := Decimal(a.deviceId as nat);
    if a.name == name {
      assert k[|p|..] == d;
      ParseDecimal(a.deviceId);
    } else if p <= k {
      assert p != pa by {
        assert p[8..|p| - 1] == name && pa[8..|pa| - 1] == a.name;
      }
      PrefixEndsInsideName(p, pa, d);
      // the dot that ends `pa` lies in what the scan for `name` would parse
      var rest := k[|p|..];
      assert rest[|pa| - 1 - |p|] == k[|pa| - 1] == '.';
      ParseRejectsDot(rest, |pa| - 1 - |p|);
    }
  }

  /**
   * Two dot-terminated prefixes: if `p` starts `pa + d` with digits `d`, it cannot run into
   * the digits, so unless the two are equal it ends before the dot that ends `pa`.
   */
  lemma PrefixEndsInsideName(p: string, pa: string, d: string)
    requires |p| >= 1 && p[|p| - 1] == '.' && |pa| >= 1 && pa[|pa| - 1] == '.'
    requires AllDigits(d) && p <= pa + d && p != pa
    ensures |p| < |pa|
  {
    assert forall j :: |pa| <= j < |pa + d| ==> (pa + d)[j] == d[j - |pa|];
    assert p == (pa + d)[..|p|];
  }
}
