/**
  The wallet store: private keys encrypted by a wallet key, which is itself encrypted by the password.

  A stream cipher mixes a keystream into the text, so encrypting twice gives the text back. The
  keystream, the password hash and the key derivations are arbitrary functions.
 */
module WalletStore {
  import opened Types
  import opened RawKeys
  import opened Cursor

  const TWO_32: nat := 0x1_0000_0000

  type U32 = n: nat | n < TWO_32

  datatype Crypto = Crypto(
    keystream: (RawKey, U128) -> RawKey,
    hashPassword: (string, RawKey) -> RawKey,
    publicKey: RawKey -> PublicKey,
    deterministicKey: (RawKey, U32) -> RawKey)
  {
    function Encrypt(text: RawKey, key: RawKey, iv: U128): RawKey {
      XorKey(text, keystream(key, iv))
    }

    lemma EncryptTwice(text: RawKey, key: RawKey, iv: U128)
      ensures Encrypt(Encrypt(text, key, iv), key, iv) == text
    {
      XorTwice(text, keystream(key, iv));
    }
  }

  /** The first and the last 16 bytes of a key. */
  function FirstHalf(k: U256): U128 { k / TWO_128 }
  function LastHalf(k: U256): U128 { k % TWO_128 }

  // The special entries
  const VERSION: PublicKey := 0
  const SALT: PublicKey := 1
  const WALLET_KEY: PublicKey := 2
  const CHECK: PublicKey := 3
  const REPRESENTATIVE: PublicKey := 4
  const SEED: PublicKey := 5
  const DETERMINISTIC_INDEX: PublicKey := 6
  const SPECIAL_COUNT: PublicKey := 7

  const VERSION_CURRENT: U32 := 4

  datatype WalletValue = WalletValue(key: RawKey, work: U64)

  type Entries = map<PublicKey, WalletValue>

  datatype KeyType = Unknown | Adhoc | Deterministic

  function KeyTypeOf(value: WalletValue): KeyType {
    if value.key >= TWO_64 then Adhoc
    else if value.key / TWO_32 % TWO_32 == 1 then Deterministic
    else Unknown
  }

  /** The value that stands for the deterministic key with this index. */
  function Marker(index: U32): WalletValue { WalletValue(TWO_32 + index, 0) }

  lemma MarkerType(index: U32)
    ensures KeyTypeOf(Marker(index)) == Deterministic && Marker(index).key % TWO_32 == index
  {
  }

  datatype Fetched = Key(key: RawKey) | InvalidPassword | NotFound | InvalidKeyType | PublicKeyMismatch

  /** The table and the two keys held in memory. */
  datatype Wallet = Wallet(crypto: Crypto, entries: Entries, password: RawKey, walletKeyMem: RawKey) {

    function Entry(k: PublicKey): WalletValue {
      if k in entries then entries[k] else WalletValue(0, 0)
    }

    function Salt(): RawKey { Entry(SALT).key }

    function Version(): nat { Entry(VERSION).key % 0x100 }

    function WalletKey(): RawKey { crypto.Encrypt(walletKeyMem, password, FirstHalf(Salt())) }

    function Seed(): RawKey { crypto.Encrypt(Entry(SEED).key, WalletKey(), LastHalf(Salt())) }

    predicate ValidPassword() {
      Entry(CHECK).key == crypto.Encrypt(0, WalletKey(), FirstHalf(Salt()))
    }

    function Index(): U32 { Entry(DETERMINISTIC_INDEX).key % TWO_32 }

    function KeyAt(index: U32): RawKey { crypto.deterministicKey(Seed(), index) }

    /** The private key behind an entry that is known to be of one of the two types. */
    function Opened(k: PublicKey): RawKey {
      if KeyTypeOf(Entry(k)) == Deterministic then KeyAt(Entry(k).key % TWO_32)
      else crypto.Encrypt(Entry(k).key, WalletKey(), FirstHalf(k))
    }

    function Fetch(k: PublicKey): Fetched {
      if !ValidPassword() then InvalidPassword
      else if Entry(k).key == 0 then NotFound
      else if KeyTypeOf(Entry(k)) == Unknown then InvalidKeyType
      else if crypto.publicKey(Opened(k)) != k then PublicKeyMismatch
      else Key(Opened(k))
    }

    // The operations, on values

    function Put(k: PublicKey, value: WalletValue): Wallet { this.(entries := entries[k := value]) }

    function Erased(k: PublicKey): Wallet { this.(entries := entries - {k}) }

    function Rekeyed(text: string): Wallet {
      var password' := crypto.hashPassword(text, Salt());
      var encrypted := crypto.Encrypt(WalletKey(), password', FirstHalf(Salt()));
      Wallet(crypto, entries[WALLET_KEY := WalletValue(encrypted, 0)], password', encrypted)
    }

    function Locked(): Wallet { this.(password := 0) }

    function Unlocked(text: string): Wallet { this.(password := crypto.hashPassword(text, Salt())) }

    /** The store as it is opened again from its table. */
    function Reopened(): Wallet { this.(password := 0, walletKeyMem := Entry(WALLET_KEY).key) }

    function WithAdhoc(prv: RawKey): Wallet {
      var k := crypto.publicKey(prv);
      Put(k, WalletValue(crypto.Encrypt(prv, WalletKey(), FirstHalf(k)), 0))
    }

    function WithDeterministic(index: U32): Wallet
      requires index + 1 < TWO_32
    {
      Put(crypto.publicKey(KeyAt(index)), Marker(index)).Put(DETERMINISTIC_INDEX, WalletValue(index + 1, 0))
    }

    function Cleared(): Wallet {
      this.(entries := Cleaned(entries)).Put(DETERMINISTIC_INDEX, WalletValue(0, 0))
    }

    function WithSeed(prv: RawKey): Wallet {
      Put(SEED, WalletValue(crypto.Encrypt(prv, WalletKey(), LastHalf(Salt())), 0)).Cleared()
    }
  }

  /** Without the deterministic entries; special entries are kept whatever they hold. */
  function Cleaned(entries: Entries): Entries {
    map k | k in entries && !(k >= SPECIAL_COUNT && KeyTypeOf(entries[k]) == Deterministic) :: entries[k]
  }

  // ---------------------------------------------------------------------------------------------
  // Changing the password

  /** Everything that is kept by the wallet key stays readable. */
  lemma RekeyKeeps(w: Wallet, text: string)
    requires w.ValidPassword()
    ensures var w' := w.Rekeyed(text);
            && w'.ValidPassword() && w'.WalletKey() == w.WalletKey() && w'.Seed() == w.Seed()
            && w'.Version() == w.Version() && w'.walletKeyMem == w'.Entry(WALLET_KEY).key
            && forall k | k != WALLET_KEY :: w'.Fetch(k) == w.Fetch(k)
  {
    var w' := w.Rekeyed(text);
    w.crypto.EncryptTwice(w.WalletKey(), w'.password, FirstHalf(w.Salt()));
    assert w'.Salt() == w.Salt();
    forall k | k != WALLET_KEY
      ensures w'.Fetch(k) == w.Fetch(k)
    {
      assert w'.Entry(k) == w.Entry(k);
    }
  }

  lemma RekeyReads(w: Wallet, text: string)
    requires w.ValidPassword()
    ensures w.Rekeyed(text).ValidPassword() && w.Rekeyed(text).WalletKey() == w.WalletKey()
    ensures w.Rekeyed(text).password == w.crypto.hashPassword(text, w.Rekeyed(text).Entry(1).key)
  {
    RekeyKeeps(w, text);
  }

  /** After a change of password, locking and entering the new password restores the very same state. */
  lemma RekeyThenUnlock(w: Wallet, text: string)
    requires w.ValidPassword()
    ensures var w' := w.Rekeyed(text);
            && w'.Locked().Unlocked(text) == w' && w'.Reopened().Unlocked(text) == w'
            && w'.Locked().Unlocked(text).ValidPassword()
  {
    RekeyKeeps(w, text);
    var w' := w.Rekeyed(text);
    assert w'.Salt() == w.Salt() && w'.Locked().Salt() == w.Salt() && w'.Reopened().Salt() == w.Salt();
  }

  // ---------------------------------------------------------------------------------------------
  // Wrong passwords

  /** The wallet key that comes out under another password: the two keystreams differ from it. */
  lemma KeyUnderPassword(w: Wallet, text: string, password: RawKey)
    ensures var iv := w.Entry(1).key / TWO_128;
            var w' := w.Rekeyed(text).(password := password);
            w'.WalletKey() == XorKey(XorKey(w.WalletKey(), w.crypto.keystream(w.crypto.hashPassword(text, w.Entry(1).key), iv)),
                                     w.crypto.keystream(password, iv))
  {
    assert w.Rekeyed(text).Salt() == w.Salt();
  }

  /**
    A password is accepted exactly if the wallet key that comes out under it has the keystream of the true
    one. If it is not, no key can be fetched.
   */
  lemma PasswordAccepted(w: Wallet, text: string, password: RawKey)
    requires w.ValidPassword()
    ensures var iv := w.Entry(1).key / TWO_128;
            var w' := w.Rekeyed(text).(password := password);
            && (w'.ValidPassword() <==> w.crypto.keystream(w'.WalletKey(), iv) == w.crypto.keystream(w.WalletKey(), iv))
            && (!w'.ValidPassword() ==> forall k: PublicKey :: w'.Fetch(k) == InvalidPassword)
  {
    var w' := w.Rekeyed(text).(password := password);
    assert w'.Salt() == w.Salt() && w'.Entry(CHECK) == w.Entry(CHECK);
    XorZero(w.crypto.keystream(w'.WalletKey(), FirstHalf(w.Salt())));
    XorZero(w.crypto.keystream(w.WalletKey(), FirstHalf(w.Salt())));
  }

  /** In particular for a wrong text, and for the zero password of a locked wallet. */
  lemma WrongPasswordRejected(w: Wallet, text: string, wrong: string)
    requires w.ValidPassword()
    ensures var iv := w.Entry(1).key / TWO_128;
            var locked, tried := w.Rekeyed(text).Locked(), w.Rekeyed(text).Locked().Unlocked(wrong);
            && locked.password == 0 && tried.password == w.crypto.hashPassword(wrong, w.Entry(1).key)
            && (w.crypto.keystream(locked.WalletKey(), iv) != w.crypto.keystream(w.WalletKey(), iv) ==>
                  !locked.ValidPassword() && forall k: PublicKey :: locked.Fetch(k) == InvalidPassword)
            && (w.crypto.keystream(tried.WalletKey(), iv) != w.crypto.keystream(w.WalletKey(), iv) ==>
                  !tried.ValidPassword() && forall k: PublicKey :: tried.Fetch(k) == InvalidPassword)
  {
    var rekeyed := w.Rekeyed(text);
    assert rekeyed.Salt() == w.Salt() == rekeyed.Locked().Salt();
    PasswordAccepted(w, text, 0);
    PasswordAccepted(w, text, w.crypto.hashPassword(wrong, w.Salt()));
    assert rekeyed.Locked() == rekeyed.(password := 0);
    assert rekeyed.Locked().Unlocked(wrong) == rekeyed.(password := w.crypto.hashPassword(wrong, w.Salt()));
  }

  // ---------------------------------------------------------------------------------------------
  // What is stored where

  /** The special entries by number, and what the keys are encrypted with. */
  lemma EntriesByNumber(w: Wallet)
    ensures w.Version() == w.Entry(0).key % 256 && w.Salt() == w.Entry(1).key && w.Index() == w.Entry(6).key % 0x1_0000_0000
    ensures w.WalletKey() == XorKey(w.walletKeyMem, w.crypto.keystream(w.password, w.Entry(1).key / TWO_128))
    ensures w.Seed() == XorKey(w.Entry(5).key, w.crypto.keystream(w.WalletKey(), w.Entry(1).key % TWO_128))
    ensures w.ValidPassword() <==> w.Entry(3).key == w.crypto.keystream(w.WalletKey(), w.Entry(1).key / TWO_128)
    ensures w.Reopened() == Wallet(w.crypto, w.entries, 0, w.Entry(2).key)
    ensures forall text | w.ValidPassword() :: w.Rekeyed(text).Entry(2) == WalletValue(w.Rekeyed(text).walletKeyMem, 0)
  {
    XorZero(w.crypto.keystream(w.WalletKey(), FirstHalf(w.Salt())));
  }

  /** The kinds of entries as ranges of their values. */
  lemma KeyTypeRanges(value: WalletValue)
    ensures KeyTypeOf(value) == Adhoc <==> 0x1_0000_0000_0000_0000 <= value.key
    ensures KeyTypeOf(value) == Deterministic <==> 0x1_0000_0000 <= value.key < 0x2_0000_0000
    ensures forall index: U32 :: Marker(index).key == 0x1_0000_0000 + index
  {
  }

  /** When and what a key is fetched, and why not. */
  lemma FetchMeaning(w: Wallet, k: PublicKey)
    ensures var key := w.Entry(k).key;
            var deterministic := 0x1_0000_0000 <= key < 0x2_0000_0000;
            var private := if deterministic then w.crypto.deterministicKey(w.Seed(), key - 0x1_0000_0000)
                           else XorKey(key, w.crypto.keystream(w.WalletKey(), k / TWO_128));
            && (w.Fetch(k) == InvalidPassword <==> !w.ValidPassword())
            && (w.Fetch(k) == NotFound <==> w.ValidPassword() && (k !in w.entries || key == 0))
            && (w.Fetch(k) == InvalidKeyType <==> w.ValidPassword() && key != 0 && key < TWO_64 && !deterministic)
            && (w.Fetch(k) == PublicKeyMismatch <==>
                  w.ValidPassword() && (deterministic || key >= TWO_64) && w.crypto.publicKey(private) != k)
            && (w.Fetch(k).Key? <==>
                  w.ValidPassword() && (deterministic || key >= TWO_64) && w.crypto.publicKey(private) == k)
            && (w.Fetch(k).Key? ==> w.Fetch(k) == Key(private))
  {
    KeyTypeRanges(w.Entry(k));
    hide KeyTypeOf, Wallet.ValidPassword, Wallet.WalletKey, Wallet.Seed;
  }

  // ---------------------------------------------------------------------------------------------
  // Many changes

  ghost function RekeyedAll(w: Wallet, texts: seq<string>): Wallet
    decreases |texts|
  {
    if texts == [] then w else RekeyedAll(w.Rekeyed(texts[0]), texts[1..])
  }

  /** Any number of password changes. */
  lemma {:induction false} RekeysKeep(w: Wallet, texts: seq<string>, k: PublicKey)
    requires w.ValidPassword() && k != WALLET_KEY
    ensures var w' := RekeyedAll(w, texts);
            w'.ValidPassword() && w'.WalletKey() == w.WalletKey() && w'.Seed() == w.Seed() && w'.Fetch(k) == w.Fetch(k)
    decreases |texts|
  {
    if texts != [] {
      RekeyKeeps(w, texts[0]);
      RekeysKeep(w.Rekeyed(texts[0]), texts[1..], k);
    }
  }

  /** The keys in memory and the entries that protect the others are untouched. */
  ghost predicate SameSecrets(w: Wallet, w': Wallet) {
    SameTable(w, w') && w'.password == w.password
  }

  /** The same, except that any password may have been entered. */
  ghost predicate SameTable(w: Wallet, w': Wallet) {
    && w'.crypto == w.crypto && w'.walletKeyMem == w.walletKeyMem
    && w'.Entry(VERSION) == w.Entry(VERSION) && w'.Entry(SALT) == w.Entry(SALT)
    && w'.Entry(WALLET_KEY) == w.Entry(WALLET_KEY) && w'.Entry(CHECK) == w.Entry(CHECK)
  }

  lemma SameSecretsTrans(w: Wallet, w': Wallet, w'': Wallet)
    requires SameSecrets(w, w') && SameSecrets(w', w'')
    ensures SameSecrets(w, w'')
  {
  }

  lemma SecretsKeep(w: Wallet, w': Wallet)
    requires SameSecrets(w, w')
    ensures w'.Salt() == w.Salt() && w'.WalletKey() == w.WalletKey() && w'.ValidPassword() == w.ValidPassword()
    ensures w'.Version() == w.Version()
  {
  }

  /**
    Whatever was done to the keys since the change of password, and whatever passwords were tried, the new
    password unlocks the wallet again, and every key whose entries are as before is fetched as before.
   */
  lemma LaterUnlock(w: Wallet, text: string, later: Wallet)
    requires w.ValidPassword() && SameTable(w.Rekeyed(text), later)
    ensures later.Unlocked(text).ValidPassword() && later.Unlocked(text).WalletKey() == w.WalletKey()
    ensures later.Reopened().Unlocked(text) == later.Unlocked(text) == later.Locked().Unlocked(text)
    ensures later.password == w.Rekeyed(text).password ==> later.Unlocked(text) == later
    ensures forall k | later.Entry(k) == w.Entry(k) && later.Entry(SEED) == w.Entry(SEED) ::
              later.Unlocked(text).Fetch(k) == w.Fetch(k)
  {
    var rekeyed, unlocked := w.Rekeyed(text), later.Unlocked(text);
    RekeyKeeps(w, text);
    RekeyThenUnlock(w, text);
    assert rekeyed.Salt() == w.Salt() == later.Salt() && unlocked.password == rekeyed.password;
    SecretsKeep(rekeyed, unlocked);
    assert later.Reopened().Salt() == w.Salt();
    hide Wallet.WalletKey, Wallet.ValidPassword;
    forall k | later.Entry(k) == w.Entry(k) && later.Entry(SEED) == w.Entry(SEED)
      ensures unlocked.Fetch(k) == w.Fetch(k)
    {
      assert unlocked.Entry(k) == w.Entry(k) && unlocked.Entry(SEED) == w.Entry(SEED) && unlocked.Salt() == w.Salt();
    }
  }

  // ---------------------------------------------------------------------------------------------
  // Keys

  /** An entry of a non-special key leaves the secrets and all other keys alone. */
  lemma PutKeeps(w: Wallet, k: PublicKey, value: WalletValue, other: PublicKey)
    requires k >= SPECIAL_COUNT || k == DETERMINISTIC_INDEX
    ensures SameSecrets(w, w.Put(k, value)) && w.Put(k, value).Seed() == w.Seed()
    ensures other != k ==> w.Put(k, value).Fetch(other) == w.Fetch(other)
  {
  }

  lemma EraseKeeps(w: Wallet, k: PublicKey, other: PublicKey)
    requires k >= SPECIAL_COUNT
    ensures SameSecrets(w, w.Erased(k)) && w.Erased(k).Seed() == w.Seed()
    ensures other != k ==> w.Erased(k).Fetch(other) == w.Fetch(other)
    ensures w.ValidPassword() ==> w.Erased(k).Fetch(k) == NotFound
  {
  }

  /**
    An inserted private key can be fetched again exactly when its ciphertext is not mistaken for
    another kind of entry.
   */
  lemma AdhocFetched(w: Wallet, prv: RawKey)
    requires w.ValidPassword() && w.crypto.publicKey(prv) >= SPECIAL_COUNT
    ensures var k := w.crypto.publicKey(prv);
            var stored := w.WithAdhoc(prv).Entry(k);
            w.WithAdhoc(prv).Fetch(k) == Key(prv) <==>
              || KeyTypeOf(stored) == Adhoc
              || (KeyTypeOf(stored) == Deterministic && w.KeyAt(stored.key % TWO_32) == prv)
  {
    var k := w.crypto.publicKey(prv);
    var w' := w.WithAdhoc(prv);
    PutKeeps(w, k, w'.entries[k], k);
    SecretsKeep(w, w');
    w.crypto.EncryptTwice(prv, w.WalletKey(), FirstHalf(k));
    hide KeyTypeOf;
    KeyTypes(w'.Entry(k));
  }

  /** Under a keystream of zeros the private key 5 is stored as 5, which is no kind of key. */
  lemma AdhocLost()
    ensures var crypto := Crypto((key, iv) => 0, (text, salt) => 0, prv => SPECIAL_COUNT, (seed, index) => 0);
            var w := Wallet(crypto, map[], 0, 0);
            w.ValidPassword() && w.WithAdhoc(5).Fetch(SPECIAL_COUNT) == InvalidKeyType
  {
    XorZero(0);
    XorZero(5);
  }

  lemma KeyTypes(value: WalletValue)
    ensures KeyTypeOf(value) == Adhoc <==> value.key >= TWO_64
    ensures value.key == 0 ==> KeyTypeOf(value) == Unknown
  {
  }

  lemma DeterministicFetched(w: Wallet, index: U32)
    requires index + 1 < TWO_32 && w.ValidPassword() && w.crypto.publicKey(w.KeyAt(index)) >= SPECIAL_COUNT
    ensures var w' := w.WithDeterministic(index);
            && w'.Fetch(w.crypto.publicKey(w.KeyAt(index))) == Key(w.KeyAt(index))
            && w'.Index() == index + 1 && SameSecrets(w, w') && w'.Seed() == w.Seed()
            && w'.Entry(w.crypto.publicKey(w.KeyAt(index))) == WalletValue(0x1_0000_0000 + index, 0)
            && forall other: PublicKey | other != w.crypto.publicKey(w.KeyAt(index)) && other >= SPECIAL_COUNT ::
                 w'.Fetch(other) == w.Fetch(other)
  {
    var k := w.crypto.publicKey(w.KeyAt(index));
    var w1 := w.Put(k, Marker(index));
    var w' := w1.Put(DETERMINISTIC_INDEX, WalletValue(index + 1, 0));
    MarkerType(index);
    forall other: PublicKey | other >= SPECIAL_COUNT
      ensures SameSecrets(w, w1) && SameSecrets(w1, w') && w'.Seed() == w1.Seed() == w.Seed()
      ensures w'.Fetch(other) == w1.Fetch(other) && (other != k ==> w1.Fetch(other) == w.Fetch(other))
    {
      PutKeeps(w, k, Marker(index), other);
      PutKeeps(w1, DETERMINISTIC_INDEX, WalletValue(index + 1, 0), other);
    }
    assert k >= SPECIAL_COUNT && w'.Fetch(k) == w1.Fetch(k);
    SameSecretsTrans(w, w1, w');
    SecretsKeep(w, w1);
    assert w1.Entry(k) == Marker(index) && w1.KeyAt(index) == w.KeyAt(index);
  }

  /** Clearing removes exactly the deterministic keys. */
  lemma ClearedKeeps(w: Wallet, k: PublicKey)
    requires k >= SPECIAL_COUNT
    ensures SameSecrets(w, w.Cleared()) && w.Cleared().Seed() == w.Seed() && w.Cleared().Index() == 0
    ensures KeyTypeOf(w.Entry(k)) == Deterministic ==>
              k !in w.Cleared().entries && (w.ValidPassword() ==> w.Cleared().Fetch(k) == NotFound)
    ensures KeyTypeOf(w.Entry(k)) != Deterministic ==> w.Cleared().Fetch(k) == w.Fetch(k)
  {
  }

  /** A new seed can be read back; the keys of the old one are gone, other keys stay. */
  lemma SeedSet(w: Wallet, prv: RawKey, k: PublicKey)
    requires w.ValidPassword() && k >= SPECIAL_COUNT
    ensures var w' := w.WithSeed(prv);
            && w'.ValidPassword() && SameSecrets(w, w') && w'.Seed() == prv && w'.Index() == 0
            && w'.Fetch(k) == if KeyTypeOf(w.Entry(k)) == Deterministic then NotFound else w.Fetch(k)
  {
    var w1 := w.Put(SEED, WalletValue(w.crypto.Encrypt(prv, w.WalletKey(), LastHalf(w.Salt())), 0));
    assert w1.Entry(k) == w.Entry(k);
    SecretsKeep(w, w1);
    w.crypto.EncryptTwice(prv, w.WalletKey(), LastHalf(w.Salt()));
    ClearedKeeps(w1, k);
    SecretsKeep(w1, w1.Cleared());
    hide KeyTypeOf;
    assert KeyTypeOf(w.Entry(k)) != Deterministic ==> w1.Opened(k) == w.Opened(k);
  }

  // ---------------------------------------------------------------------------------------------
  // Whole runs between a change of password and the next time it is entered

  datatype Step =
    | InsertAdhoc(prv: RawKey)
    | InsertDeterministic(index: U32)
    | EraseKey(k: PublicKey)
    | ClearKeys
    | ChangeSeed(prv: RawKey)
    | LockWallet
    | TryPassword(text: string)

  /** Keys are above the special entries, and indexes do not overflow. */
  predicate Allowed(w: Wallet, step: Step) {
    match step
    case InsertAdhoc(prv) => w.crypto.publicKey(prv) >= SPECIAL_COUNT
    case InsertDeterministic(index) => index + 1 < TWO_32 && w.crypto.publicKey(w.KeyAt(index)) >= SPECIAL_COUNT
    case EraseKey(k) => k >= SPECIAL_COUNT
    case _ => true
  }

  function Stepped(w: Wallet, step: Step): Wallet
    requires Allowed(w, step)
  {
    match step
    case InsertAdhoc(prv) => w.WithAdhoc(prv)
    case InsertDeterministic(index) => w.WithDeterministic(index)
    case EraseKey(k) => w.Erased(k)
    case ClearKeys => w.Cleared()
    case ChangeSeed(prv) => w.WithSeed(prv)
    case LockWallet => w.Locked()
    case TryPassword(text) => w.Unlocked(text)
  }

  ghost predicate IsRun(w: Wallet, steps: seq<Step>)
    decreases |steps|
  {
    steps != [] ==> Allowed(w, steps[0]) && IsRun(Stepped(w, steps[0]), steps[1..])
  }

  ghost function AfterRun(w: Wallet, steps: seq<Step>): Wallet
    requires IsRun(w, steps)
    decreases |steps|
  {
    if steps == [] then w else AfterRun(Stepped(w, steps[0]), steps[1..])
  }

  lemma StepKeeps(w: Wallet, step: Step)
    requires Allowed(w, step)
    ensures SameTable(w, Stepped(w, step))
  {
    hide Wallet.Fetch, Wallet.WalletKey, Wallet.Seed, Wallet.ValidPassword, KeyTypeOf;
    match step
    case InsertAdhoc(prv) =>
    case InsertDeterministic(index) =>
    case EraseKey(k) =>
    case ClearKeys => ClearedKeeps(w, SPECIAL_COUNT);
    case ChangeSeed(prv) =>
      ClearedKeeps(w.Put(SEED, WalletValue(w.crypto.Encrypt(prv, w.WalletKey(), LastHalf(w.Salt())), 0)), SPECIAL_COUNT);
    case LockWallet =>
    case TryPassword(text) =>
  }

  lemma {:induction false} RunKeeps(w: Wallet, steps: seq<Step>)
    requires IsRun(w, steps)
    ensures SameTable(w, AfterRun(w, steps))
    decreases |steps|
  {
    if steps != [] {
      StepKeeps(w, steps[0]);
      RunKeeps(Stepped(w, steps[0]), steps[1..]);
      hide Stepped, Allowed;
    }
  }

  /** After a change of password and any run of other operations, the password opens the same wallet. */
  lemma PasswordOutlivesRun(w: Wallet, text: string, steps: seq<Step>)
    requires w.ValidPassword() && IsRun(w.Rekeyed(text), steps)
    ensures var later := AfterRun(w.Rekeyed(text), steps);
            && later.Unlocked(text).ValidPassword() && later.Unlocked(text).WalletKey() == w.WalletKey()
            && later.Reopened().Unlocked(text) == later.Unlocked(text)
            && forall k | later.Entry(k) == w.Entry(k) && later.Entry(SEED) == w.Entry(SEED) ::
                 later.Unlocked(text).Fetch(k) == w.Fetch(k)
  {
    RunKeeps(w.Rekeyed(text), steps);
    LaterUnlock(w, text, AfterRun(w.Rekeyed(text), steps));
  }

  // ---------------------------------------------------------------------------------------------
  // The scan-and-erase loop

  ghost predicate ClearedBelow(entries: Entries, now: Entries, from: nat) {
    && (forall k :: k in now <==> k in entries && !(SPECIAL_COUNT <= k < from && KeyTypeOf(entries[k]) == Deterministic))
    && (forall k | k in now :: now[k] == entries[k])
  }

  method ClearEntries(entries: Entries) returns (now: Entries)
    ensures now == Cleaned(entries)
  {
    hide KeyTypeOf;
    now := entries;
    ghost var from: nat := SPECIAL_COUNT;
    var it := LowerBound(now.Keys, SPECIAL_COUNT);
    while it.Some?
      invariant it == LowerBound(now.Keys, from) && from >= SPECIAL_COUNT
      invariant ClearedBelow(entries, now, from)
      decreases |AtOrAfter(now.Keys, from)|
    {
      var account := it.value;
      match KeyTypeOf(now[account]) {
        case Deterministic =>
          EraseUnderCursor(now.Keys, from, account);
          now := now - {account};
          it := LowerBound(now.Keys, account);
          from := account + 1;
        case _ =>
          FewerAfter(now.Keys, from, account);
          it := LowerBound(now.Keys, account + 1);
          from := account + 1;
      }
    }
  }

  /** Seeking the key just erased finds the one after it. */
  lemma EraseUnderCursor(keys: set<nat>, from: nat, k: nat)
    requires k in keys && from <= k
    ensures LowerBound(keys - {k}, k) == LowerBound(keys - {k}, k + 1)
    ensures |AtOrAfter(keys - {k}, k + 1)| < |AtOrAfter(keys, from)|
  {
    FewerAfter(keys, from, k);
    assert AtOrAfter(keys - {k}, k + 1) == AtOrAfter(keys, k + 1);
    if LowerBound(keys - {k}, k).Some? {
      LeastIsLowerBound(keys - {k}, k + 1, LowerBound(keys - {k}, k).value);
    }
  }

  // ---------------------------------------------------------------------------------------------
  // Moving keys between wallets

  /** The private keys of `keys` went from one wallet to the other, and nothing else changed. */
  ghost predicate Moved(w: Wallet, w': Wallet, source: Wallet, source': Wallet, keys: seq<PublicKey>) {
    && SameSecrets(w, w') && SameSecrets(source, source')
    && (forall k | k in keys :: source.Fetch(k).Key? && w'.Fetch(k) == source.Fetch(k) && k !in source'.entries)
    && (forall k: PublicKey | k >= SPECIAL_COUNT && k !in keys :: w'.Fetch(k) == w.Fetch(k) && source'.Fetch(k) == source.Fetch(k))
  }

  /** The ciphertext that `w` would store for this private key is of no other kind. */
  predicate Storable(w: Wallet, k: PublicKey, prv: RawKey) {
    KeyTypeOf(WalletValue(w.crypto.Encrypt(prv, w.WalletKey(), FirstHalf(k)), 0)) == Adhoc
  }

  ghost predicate CanMove(w: Wallet, source: Wallet, keys: seq<PublicKey>) {
    && w.crypto == source.crypto && w.ValidPassword() && source.ValidPassword()
    && forall k | k in keys :: k >= SPECIAL_COUNT && (source.Fetch(k).Key? ==> Storable(w, k, source.Fetch(k).key))
  }

  lemma MovedStep(w: Wallet, w': Wallet, source: Wallet, source': Wallet, keys: seq<PublicKey>, n: nat)
    requires n < |keys| && CanMove(w, source, keys) && Moved(w, w', source, source', keys[..n])
    requires source'.Fetch(keys[n]).Key?
    ensures Moved(w, w'.WithAdhoc(source'.Fetch(keys[n]).key), source, source'.Erased(keys[n]), keys[..n + 1])
  {
    var k, prv := keys[n], source'.Fetch(keys[n]).key;
    assert k !in keys[..n];
    SecretsKeep(w, w');
    assert w.crypto.publicKey(prv) == k && k in keys;
    AdhocFetched(w', prv);
    hide Wallet.Fetch, Wallet.ValidPassword, Wallet.WalletKey, Storable, KeyTypeOf;
    forall other: PublicKey | other >= SPECIAL_COUNT
      ensures other != k ==> w'.WithAdhoc(prv).Fetch(other) == w'.Fetch(other)
      ensures other != k ==> source'.Erased(k).Fetch(other) == source'.Fetch(other)
      ensures SameSecrets(w', w'.WithAdhoc(prv)) && SameSecrets(source', source'.Erased(k))
    {
      PutKeeps(w', k, w'.WithAdhoc(prv).entries[k], other);
      EraseKeeps(source', k, other);
    }
    assert k >= SPECIAL_COUNT;
    assert keys[..n + 1] == keys[..n] + [k];
  }

  // ---------------------------------------------------------------------------------------------
  // The search for a free index

  /** The public key of a deterministic index. */
  function PublicKeyAt(w: Wallet, index: U32): PublicKey { w.crypto.publicKey(w.crypto.deterministicKey(w.Seed(), index)) }

  /** The key is above the special ones and in the wallet. */
  predicate Exists(entries: Entries, k: PublicKey) { k >= SPECIAL_COUNT && k in entries }

  /** The first index from the stored one on whose key is not in the wallet. */
  method FirstFreeIndex(w: Wallet, ghost free: U32) returns (index: U32, k: PublicKey)
    requires w.Index() <= free && (PublicKeyAt(w, free) < 7 || PublicKeyAt(w, free) !in w.entries)
    ensures w.Index() <= index <= free && k == PublicKeyAt(w, index) && (k < 7 || k !in w.entries)
    ensures forall i: U32 | w.Index() <= i < index :: PublicKeyAt(w, i) >= 7 && PublicKeyAt(w, i) in w.entries
  {
    var at: nat := w.Index();
    var prv := w.KeyAt(at);
    k := w.crypto.publicKey(prv);
    while Exists(w.entries, k)
      invariant w.Index() <= at <= free && k == PublicKeyAt(w, at)
      invariant forall i: U32 | w.Index() <= i < at :: PublicKeyAt(w, i) >= 7 && PublicKeyAt(w, i) in w.entries
      decreases free - at
    {
      at := at + 1;
      prv := w.KeyAt(at);
      k := w.crypto.publicKey(prv);
    }
    index := at;
  }
}
