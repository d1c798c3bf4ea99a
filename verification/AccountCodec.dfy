/**
  The text form of an account: a prefix and 60 base-32 digits holding the 256-bit account followed by
  a 40-bit checksum. The checksum is any function of the account.
 */
module AccountCodec {
  import opened Types

  const TWO_40: nat := 0x100_0000_0000

  type U40 = n: nat | n < TWO_40

  const ACCOUNT_LOOKUP: string := "13456789abcdefghijkmnopqrstuwxyz"

  // The inverse table, for the characters 0x30 to 0x3f, 0x40 to 0x5f and 0x60 to 0x7f
  const REVERSE_DIGITS: string := "~0~1234567~~~~~~"
  const REVERSE_UPPER: string := "~~~~~~~~~~~~~~~~~~~~~~~~~~~~~~~~"
  const REVERSE_LOWER: string := "~89:;<=>?@AB~CDEFGHIJK~LMNO~~~~~"
  const ACCOUNT_REVERSE: string := REVERSE_DIGITS + REVERSE_UPPER + REVERSE_LOWER

  function EncodeDigit(v: nat): char
    requires v < 32
  {
    ACCOUNT_LOOKUP[v]
  }

  /** '~' marks a character that is no digit; no entry lies below '0'. */
  function Entry(entry: char): Option<nat> {
    if entry == '~' || entry as int < 0x30 then None else Some(entry as int - 0x30)
  }

  /** Only characters from '0' to the last ASCII one are looked up. */
  function DecodeDigit(c: char): Option<nat> {
    if 0x30 <= c as int < 0x80 then Entry(ACCOUNT_REVERSE[c as int - 0x30]) else None
  }

  /** The two tables in closed form: the digits are ascending runs of characters, without 0, 2, l and v. */
  function CodeOf(v: nat): nat {
    if v == 0 then 0x31 else if v < 8 then 0x32 + v else if v < 19 then 0x59 + v else if v < 28 then 0x5a + v else 0x5b + v
  }

  function DigitOf(c: nat): Option<nat> {
    if c == 0x31 then Some(0)
    else if 0x33 <= c <= 0x39 then Some(c - 0x32)
    else if 0x61 <= c <= 0x6b then Some(c - 0x59)
    else if 0x6d <= c <= 0x75 then Some(c - 0x5a)
    else if 0x77 <= c <= 0x7a then Some(c - 0x5b)
    else None
  }

  lemma LookupTable(v: nat)
    requires v < 32
    ensures ACCOUNT_LOOKUP[v] as int == CodeOf(v)
  {
  }

  lemma ReverseDigits(i: nat)
    requires i < 16
    ensures Entry(REVERSE_DIGITS[i]) == DigitOf(i + 0x30)
  {
  }

  lemma ReverseUpper(i: nat)
    requires i < 32
    ensures Entry(REVERSE_UPPER[i]) == DigitOf(i + 0x40)
  {
  }

  lemma ReverseLower(i: nat)
    requires i < 32
    ensures Entry(REVERSE_LOWER[i]) == DigitOf(i + 0x60)
  {
  }

  lemma DecodeTable(c: char)
    ensures DecodeDigit(c) == DigitOf(c as int)
  {
    assert |REVERSE_DIGITS| == 16 && |REVERSE_UPPER| == 32 && |REVERSE_LOWER| == 32;
    hide Entry, DigitOf, REVERSE_DIGITS, REVERSE_UPPER, REVERSE_LOWER;
    var i := c as int - 0x30;
    if 0 <= i < 16 {
      ReverseDigits(i);
    } else if 16 <= i < 48 {
      ReverseUpper(i - 16);
    } else if 48 <= i < 80 {
      ReverseLower(i - 48);
    } else {
      NoDigit(c as int);
    }
  }

  lemma NoDigit(c: nat)
    requires c < 0x30 || 0x80 <= c
    ensures DigitOf(c) == None
  {
  }

  lemma DecodeEncoded(v: nat)
    requires v < 32
    ensures DecodeDigit(EncodeDigit(v)) == Some(v)
  {
    hide DecodeDigit, ACCOUNT_LOOKUP;
    LookupTable(v);
    DecodeTable(EncodeDigit(v));
  }

  lemma EncodeDecoded(c: char)
    requires DecodeDigit(c).Some?
    ensures DecodeDigit(c).value < 32 && EncodeDigit(DecodeDigit(c).value) == c
  {
    hide DecodeDigit;
    DecodeTable(c);
    LookupTable(DecodeDigit(c).value);
  }

  // ---------------------------------------------------------------------------------------------
  // Numbers as digits

  ghost function Pow32(n: nat): nat {
    if n == 0 then 1 else 32 * Pow32(n - 1)
  }

  lemma {:induction false} PowAdd(m: nat, n: nat)
    ensures Pow32(m + n) == Pow32(m) * Pow32(n)
  {
    if m != 0 { PowAdd(m - 1, n); }
  }

  lemma SmallPowers()
    ensures Pow32(3) == 0x8000 && Pow32(8) == TWO_40
  {
  }

  /** One bit and 59 digits are 296 bits: exactly the account and its checksum. */
  lemma DigitRoom()
    ensures 2 * Pow32(59) == TWO_256 * TWO_40
  {
    SmallPowers();
    PowAdd(8, 8);
    PowAdd(16, 16);
    PowAdd(32, 16);
    PowAdd(48, 3);
    PowAdd(51, 8);
  }

  /** The `k` last base-32 digits of `n`, most significant first. */
  function Digits(n: nat, k: nat): string
    decreases k
  {
    if k == 0 then "" else Digits(n / 32, k - 1) + [EncodeDigit(n % 32)]
  }

  ghost function Value(s: string): Option<nat> {
    if s == "" then Some(0)
    else
      match (Value(s[..|s| - 1]), DecodeDigit(s[|s| - 1]))
      case (Some(v), Some(d)) => Some(32 * v + d)
      case _ => None
  }

  lemma {:induction false} DigitsValue(n: nat, k: nat)
    requires n < Pow32(k)
    ensures |Digits(n, k)| == k && Value(Digits(n, k)) == Some(n)
    decreases k
  {
    hide EncodeDigit, DecodeDigit;
    if k != 0 {
      DigitsValue(n / 32, k - 1);
      DecodeEncoded(n % 32);
      var s := Digits(n, k);
      assert s[..|s| - 1] == Digits(n / 32, k - 1);
    }
  }

  lemma DigitBack(v: nat, d: nat)
    requires d < 32
    ensures (32 * v + d) / 32 == v && (32 * v + d) % 32 == d
  {
  }

  lemma {:induction false} ValueDigits(s: string)
    requires Value(s).Some?
    ensures Value(s).value < Pow32(|s|) && Digits(Value(s).value, |s|) == s
  {
    hide EncodeDigit, DecodeDigit;
    if s != "" {
      var front, last := s[..|s| - 1], s[|s| - 1];
      ValueDigits(front);
      EncodeDecoded(last);
      DigitBack(Value(front).value, DecodeDigit(last).value);
      assert s == front + [last];
    }
  }

  lemma {:induction false} LeadingDigit(s: string)
    requires Value(s).Some? && s != ""
    ensures DecodeDigit(s[0]).Some?
    ensures var d := DecodeDigit(s[0]).value; d * Pow32(|s| - 1) <= Value(s).value < (d + 1) * Pow32(|s| - 1)
  {
    hide EncodeDigit, DecodeDigit;
    EncodeDecoded(s[|s| - 1]);
    if |s| > 1 {
      var rest := s[..|s| - 1];
      LeadingDigit(rest);
      Scale(DecodeDigit(s[0]).value, Pow32(|rest| - 1), Value(rest).value, DecodeDigit(s[|s| - 1]).value);
    }
  }

  lemma Scale(d: nat, p: nat, v: nat, e: nat)
    requires d * p <= v < (d + 1) * p && e < 32
    ensures d * (32 * p) <= 32 * v + e < (d + 1) * (32 * p)
  {
  }

  lemma {:induction false} NoValue(s: string, i: nat)
    requires i <= |s| && Value(s[..i]).None?
    ensures Value(s).None?
    decreases |s| - i
  {
    if i < |s| {
      assert s[..i + 1][..i] == s[..i];
      NoValue(s, i + 1);
    } else {
      assert s[..i] == s;
    }
  }

  /** The digits of a number are those of its upper part, then those of its lower part. */
  lemma {:induction false} DigitsSplit(high: nat, low: nat, j: nat, k: nat)
    requires low < Pow32(k)
    ensures Digits(high * Pow32(k) + low, j + k) == Digits(high, j) + Digits(low, k)
    decreases k
  {
    hide EncodeDigit;
    if k == 0 {
      assert high * Pow32(0) + low == high;
    } else {
      var n := high * Pow32(k) + low;
      Shifted(high, Pow32(k - 1), low);
      DigitsSplit(high, low / 32, j, k - 1);
    }
  }

  lemma Shifted(high: nat, p: nat, low: nat)
    ensures (high * (32 * p) + low) / 32 == high * p + low / 32 && (high * (32 * p) + low) % 32 == low % 32
  {
    var x := high * p;
    assert high * (32 * p) == 32 * x;
  }

  // ---------------------------------------------------------------------------------------------
  // Encoding and decoding

  function Number(account: Account, check: Account -> U40): nat {
    account * TWO_40 + check(account)
  }

  /** `s` is the text form of the account, with either form of the prefix. */
  ghost predicate IsEncoding(s: string, account: Account, check: Account -> U40) {
    s == "ban_" + Digits(Number(account, check), 60) || s == "ban-" + Digits(Number(account, check), 60)
  }

  function Reversed(s: string): string {
    if s == "" then "" else Reversed(s[1..]) + [s[0]]
  }

  lemma {:induction false} ReversedPush(s: string, c: char)
    ensures Reversed(s + [c]) == [c] + Reversed(s)
  {
    if s != "" {
      assert (s + [c])[1..] == s[1..] + [c];
      ReversedPush(s[1..], c);
    }
  }

  /** The account comes first, in 52 digits, and the checksum last, in 8. */
  lemma AccountThenChecksum(account: Account, check: Account -> U40)
    ensures Digits(Number(account, check), 60) == Digits(account, 52) + Digits(check(account), 8)
  {
    hide Digits;
    SmallPowers();
    DigitsSplit(account, check(account), 52, 8);
  }

  lemma ReversedPrefix(s: string)
    ensures Reversed(s + "_nab") == "ban_" + Reversed(s)
  {
    ReversedPush(s, '_');
    ReversedPush(s + "_", 'n');
    ReversedPush(s + "_" + "n", 'a');
    ReversedPush(s + "_" + "n" + "a", 'b');
    assert s + "_nab" == s + "_" + "n" + "a" + "b";
  }

  method EncodeAccount(account: Account, check: Account -> U40) returns (s: string)
    ensures s == "ban_" + Digits(Number(account, check), 60)
    ensures s == "ban_" + (Digits(account, 52) + Digits(check(account), 8))
  {
    hide EncodeDigit, Reversed, Digits;
    AccountThenChecksum(account, check);
    var number: nat := Number(account, check);
    var result := "";
    EmptyReversed();
    for i := 0 to 60
      invariant Digits(number, 60 - i) + Reversed(result) == Digits(Number(account, check), 60)
    {
      var r := number % 32;
      ReversedPush(result, EncodeDigit(r));
      LastDigit(number, 60 - i);
      number := number / 32;
      result := result + [EncodeDigit(r)];
    }
    NoDigits(number);
    ReversedPrefix(result);
    s := Reversed(result + "_nab");
  }

  lemma LastDigit(n: nat, k: nat)
    requires k > 0
    ensures Digits(n, k) == Digits(n / 32, k - 1) + [EncodeDigit(n % 32)]
  {
  }

  lemma NoDigits(n: nat)
    ensures Digits(n, 0) == ""
  {
  }

  lemma EmptyReversed()
    ensures Reversed("") == ""
  {
  }

  predicate HasBanPrefix(s: string) { "ban_" <= s || "ban-" <= s }

  predicate HasNodeIdPrefix(s: string) { "node_" <= s }

  predicate IsValid(s: string) {
    && |s| > 4
    && (HasBanPrefix(s) || HasNodeIdPrefix(s))
    && (HasBanPrefix(s) ==> |s| == 64)
    && s[4] in ['1', '3']
  }

  /** The first digit behind the prefix of a node id is its underscore, so only account strings pass. */
  lemma OnlyAccountStrings(s: string)
    requires IsValid(s)
    ensures HasBanPrefix(s) && !HasNodeIdPrefix(s)
  {
  }

  lemma NumberFits(account: Account, check: Account -> U40)
    ensures Number(account, check) < 2 * Pow32(59) && 2 * Pow32(59) <= Pow32(60)
  {
    DigitRoom();
    assert Pow32(60) == 32 * Pow32(59);
  }

  lemma EncodingIsValid(s: string, account: Account, check: Account -> U40)
    requires IsEncoding(s, account, check)
    ensures IsValid(s) && Value(s[4..]) == Some(Number(account, check))
  {
    hide DecodeDigit, EncodeDigit, Digits, Value, Number, Pow32;
    var n := Number(account, check);
    NumberFits(account, check);
    DigitsValue(n, 60);
    var digits := Digits(n, 60);
    assert s[4..] == digits && s[4] == digits[0];
    LeadingDigit(digits);
    LeadingIsSmall(DecodeDigit(digits[0]).value, Pow32(59), n);
    SmallDigits(digits[0]);
  }

  lemma LeadingIsSmall(d: nat, p: nat, n: nat)
    requires d * p <= n < 2 * p
    ensures d < 2
  {
  }

  lemma SmallDigits(c: char)
    ensures c in ['1', '3'] <==> DecodeDigit(c) in [Some(0), Some(1)]
  {
    hide DecodeDigit;
    DecodeTable(c);
  }

  /** A valid string with 60 digits names the account exactly when it is the encoding of it. */
  lemma ValidIsEncoding(s: string, account: Account, check: Account -> U40)
    requires IsValid(s) && Value(s[4..]).Some?
    ensures Value(s[4..]).value < TWO_256 * TWO_40
    ensures Value(s[4..]).value == Number(account, check) <==> IsEncoding(s, account, check)
  {
    hide DecodeDigit, EncodeDigit;
    OnlyAccountStrings(s);
    var digits := s[4..];
    ValueDigits(digits);
    LeadingDigit(digits);
    SmallDigits(digits[0]);
    DigitRoom();
    assert s == s[..4] + digits && (s[..4] == "ban_" || s[..4] == "ban-");
    if IsEncoding(s, account, check) { EncodingIsValid(s, account, check); }
  }

  method ToNumber(digits: string) returns (r: Option<nat>)
    ensures r == Value(digits)
  {
    hide DecodeDigit;
    var number: nat := 0;
    for i := 0 to |digits|
      invariant Value(digits[..i]) == Some(number)
    {
      assert digits[..i + 1][..i] == digits[..i];
      match DecodeDigit(digits[i]) {
        case Some(d) => number := number * 32 + d;
        case None => NoValue(digits, i + 1); return None;
      }
    }
    assert digits[..|digits|] == digits;
    return Some(number);
  }

  predicate Names(number: nat, account: Account, check: Account -> U40) {
    account == number / TWO_40 && check(account) == number % TWO_40
  }

  /** When a string is an encoding, in the terms in which it is decoded. */
  lemma EncodingDecoded(s: string, account: Account, check: Account -> U40)
    ensures IsEncoding(s, account, check) <==>
            IsValid(s) && Value(s[4..]).Some? && Names(Value(s[4..]).value, account, check)
    ensures IsValid(s) && Value(s[4..]).Some? ==> Value(s[4..]).value < TWO_256 * TWO_40
  {
    hide Value, IsEncoding, IsValid;
    if IsEncoding(s, account, check) { EncodingIsValid(s, account, check); }
    if IsValid(s) { OnlyAccountStrings(s); }
    if IsValid(s) && Value(s[4..]).Some? { ValidIsEncoding(s, account, check); }
  }

  /**
    Decoding inverts encoding, and every accepted string is the encoding of the account it names, up to
    the form of the prefix. In particular a node id is never accepted.
   */
  method DecodeAccount(s: string, check: Account -> U40) returns (r: Option<Account>)
    ensures forall account: Account :: r == Some(account) <==> IsEncoding(s, account, check)
    ensures HasNodeIdPrefix(s) ==> r.None?
  {
    hide Value, IsEncoding, HasBanPrefix, HasNodeIdPrefix;
    forall account: Account
      ensures IsEncoding(s, account, check) <==>
              IsValid(s) && Value(s[4..]).Some? && Names(Value(s[4..]).value, account, check)
      ensures IsValid(s) && Value(s[4..]).Some? ==> Value(s[4..]).value < TWO_256 * TWO_40
    {
      EncodingDecoded(s, account, check);
    }
    if !IsValid(s) { return None; }
    OnlyAccountStrings(s);
    var number := ToNumber(s[4..]);
    if number.None? { return None; }
    var account: Account := number.value / TWO_40 % TWO_256;
    if check(account) == number.value % TWO_40 {
      return Some(account);
    } else {
      return None;
    }
  }

  /** Decoding the encoding of any account returns that account, for any checksum function. */
  method RoundTrip(account: Account, check: Account -> U40) returns (r: Option<Account>)
    ensures r == Some(account)
  {
    hide Digits;
    var s := EncodeAccount(account, check);
    assert IsEncoding(s, account, check);
    r := DecodeAccount(s, check);
  }
}
