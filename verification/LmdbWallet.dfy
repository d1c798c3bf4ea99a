/** The wallet store as the object that updates its table and its two fans. */
module LmdbWallet {
  import opened Types
  import opened RawKeys
  import opened WalletStore

  /** A wallet under the empty password, whose wallet key in memory is the stored one. */
  ghost predicate NewWallet(w: Wallet, walletKey: RawKey) {
    && w.ValidPassword() && w.WalletKey() == walletKey && w.Version() == VERSION_CURRENT
    && w == w.Reopened()
  }

  /** The entries that protect all others, in the order in which they are written. */
  function Protected(crypto: Crypto, table: Entries, representative: PublicKey, salt: RawKey, walletKey: RawKey): Wallet {
    var encrypted := crypto.Encrypt(walletKey, 0, FirstHalf(salt));
    var check := crypto.Encrypt(0, walletKey, FirstHalf(salt));
    Wallet(crypto,
           table[VERSION := WalletValue(VERSION_CURRENT, 0)][SALT := WalletValue(salt, 0)]
                [WALLET_KEY := WalletValue(encrypted, 0)][CHECK := WalletValue(check, 0)]
                [REPRESENTATIVE := WalletValue(representative, 0)],
           0, encrypted)
  }

  lemma ProtectedIsNew(crypto: Crypto, table: Entries, representative: PublicKey, salt: RawKey, walletKey: RawKey)
    ensures var w := Protected(crypto, table, representative, salt, walletKey);
            && NewWallet(w, walletKey)
            && w.Entry(0).key == 4 && w.Entry(1).key == salt && w.Entry(4).key == representative
  {
    crypto.EncryptTwice(walletKey, 0, FirstHalf(salt));
    hide Crypto.Encrypt, FirstHalf;
  }

  lemma SeedKeepsEntries(w: Wallet, seed: RawKey)
    ensures w.WithSeed(seed).Entry(0) == w.Entry(0) && w.WithSeed(seed).Entry(1) == w.Entry(1)
    ensures w.WithSeed(seed).Entry(4) == w.Entry(4)
  {
    hide Wallet.WalletKey, KeyTypeOf;
  }

  lemma NewReads(w: Wallet, walletKey: RawKey)
    requires NewWallet(w, walletKey)
    ensures w.walletKeyMem == w.Entry(WALLET_KEY).key && w.password == 0
  {
  }

  lemma StillNew(w: Wallet, w': Wallet, walletKey: RawKey)
    requires NewWallet(w, walletKey) && SameSecrets(w, w')
    ensures NewWallet(w', walletKey)
  {
  }

  class LmdbWalletStore {
    const crypto: Crypto
    var entries: Entries
    const password: Fan
    const walletKeyMem: Fan

    ghost predicate Valid()
      reads this, password, walletKeyMem
    {
      password != walletKeyMem && password.Valid() && walletKeyMem.Valid()
    }

    ghost function Contents(): Wallet
      reads this, password, walletKeyMem
    {
      Wallet(crypto, entries, password.Key(), walletKeyMem.Key())
    }

    /** Opening a table; an empty one is filled with a random salt, wallet key and seed under the empty password. */
    constructor (crypto: Crypto, table: Entries, representative: PublicKey,
                 salt: RawKey, walletKey: RawKey, seed: RawKey, shares: seq<RawKey>, shares': seq<RawKey>)
      ensures Valid() && fresh(password) && fresh(walletKeyMem)
      ensures VERSION in table ==> Contents() == Wallet(crypto, table, 0, 0).Reopened()
      ensures VERSION !in table ==> NewWallet(Contents(), walletKey) && Contents().Seed() == seed && Contents().Index() == 0
      ensures VERSION !in table ==> EntryGetRaw(0).key == 4 && EntryGetRaw(1).key == salt && EntryGetRaw(4).key == representative
    {
      this.crypto, entries := crypto, table;
      password := new Fan(0, shares);
      walletKeyMem := new Fan(0, shares');
      new;
      hide Wallet.ValidPassword, Wallet.WalletKey, Wallet.Seed, Wallet.WithSeed, Protected, NewWallet;
      if VERSION !in table {
        Protect(representative, salt, walletKey);
        ghost var before := Contents();
        ProtectedIsNew(crypto, table, representative, salt, walletKey);
        SetSeed(seed);
        SeedSet(before, seed, SPECIAL_COUNT);
        SeedKeepsEntries(before, seed);
        StillNew(before, Contents(), walletKey);
        ghost var seeded := Contents();
        EntryPutRaw(DETERMINISTIC_INDEX, WalletValue(0, 0));
        PutKeeps(seeded, DETERMINISTIC_INDEX, WalletValue(0, 0), SPECIAL_COUNT);
        StillNew(seeded, Contents(), walletKey);
        NewReads(Contents(), walletKey);
      }
      var key := EntryGetRaw(WALLET_KEY).key;
      walletKeyMem.ValueSet(key);
    }

    method Protect(representative: PublicKey, salt: RawKey, walletKey: RawKey)
      requires Valid()
      modifies this, password, walletKeyMem
      ensures Valid() && Contents() == Protected(crypto, old(entries), representative, salt, walletKey)
    {
      hide Crypto.Encrypt, FirstHalf, XorAll;
      EntryPutRaw(VERSION, WalletValue(VERSION_CURRENT, 0));
      EntryPutRaw(SALT, WalletValue(salt, 0));
      password.ValueSet(0);
      var encrypted := crypto.Encrypt(walletKey, 0, FirstHalf(salt));
      EntryPutRaw(WALLET_KEY, WalletValue(encrypted, 0));
      walletKeyMem.ValueSet(encrypted);
      var check := crypto.Encrypt(0, walletKey, FirstHalf(salt));
      EntryPutRaw(CHECK, WalletValue(check, 0));
      EntryPutRaw(REPRESENTATIVE, WalletValue(representative, 0));
    }

    method EntryPutRaw(k: PublicKey, value: WalletValue)
      modifies this
      ensures entries == old(entries)[k := value]
    {
      entries := entries[k := value];
    }

    function EntryGetRaw(k: PublicKey): (v: WalletValue)
      reads this
    {
      if k in entries then entries[k] else WalletValue(0, 0)
    }

    method WalletKey() returns (key: RawKey)
      requires Valid()
      ensures key == Contents().WalletKey()
    {
      var wallet := walletKeyMem.Value();
      var password' := password.Value();
      key := crypto.Encrypt(wallet, password', FirstHalf(EntryGetRaw(SALT).key));
    }

    method Seed() returns (seed: RawKey)
      requires Valid()
      ensures seed == Contents().Seed()
    {
      var key := WalletKey();
      seed := crypto.Encrypt(EntryGetRaw(SEED).key, key, LastHalf(EntryGetRaw(SALT).key));
    }

    method ValidPassword() returns (valid: bool)
      requires Valid()
      ensures valid == Contents().ValidPassword()
      ensures var w := Contents();
              && w.WalletKey() == XorKey(w.walletKeyMem, crypto.keystream(w.password, w.Entry(1).key / TWO_128))
              && (valid <==> w.Entry(3).key == crypto.keystream(w.WalletKey(), w.Entry(1).key / TWO_128))
    {
      EntriesByNumber(Contents());
      var key := WalletKey();
      valid := EntryGetRaw(CHECK).key == crypto.Encrypt(0, key, FirstHalf(EntryGetRaw(SALT).key));
    }

    method SetSeed(prv: RawKey)
      requires Valid()
      modifies this
      ensures Valid() && Contents() == old(Contents()).WithSeed(prv)
    {
      var key := WalletKey();
      var ciphertext := crypto.Encrypt(prv, key, LastHalf(EntryGetRaw(SALT).key));
      EntryPutRaw(SEED, WalletValue(ciphertext, 0));
      DeterministicClear();
    }

    method DeterministicClear()
      requires Valid()
      modifies this
      ensures Valid() && Contents() == old(Contents()).Cleared()
    {
      entries := ClearEntries(entries);
      EntryPutRaw(DETERMINISTIC_INDEX, WalletValue(0, 0));
    }

    method Rekey(text: string) returns (ok: bool)
      requires Valid()
      modifies this, password, walletKeyMem
      ensures Valid() && ok == old(Contents()).ValidPassword()
      ensures Contents() == if ok then old(Contents()).Rekeyed(text) else old(Contents())
      ensures ok ==> Contents().ValidPassword() && Contents().WalletKey() == old(Contents()).WalletKey()
      ensures ok ==> Contents().password == crypto.hashPassword(text, Contents().Entry(1).key)
    {
      ghost var w := Contents();
      ok := ValidPassword();
      if ok {
        RekeyReads(w, text);
        var salt := EntryGetRaw(SALT).key;
        var passwordNew := crypto.hashPassword(text, salt);
        var key := WalletKey();
        password.ValueSet(passwordNew);
        var encrypted := crypto.Encrypt(key, passwordNew, FirstHalf(salt));
        walletKeyMem.ValueSet(encrypted);
        EntryPutRaw(WALLET_KEY, WalletValue(encrypted, 0));
      }
    }

    method Lock()
      requires Valid()
      modifies password
      ensures Valid() && Contents() == old(Contents()).Locked()
    {
      password.ValueSet(0);
    }

    /** The password takes effect whether or not it is valid. An unlocked wallet must be of the current version. */
    method AttemptPassword(text: string) returns (valid: bool)
      requires Valid() && (Contents().Unlocked(text).ValidPassword() ==> Contents().Version() == VERSION_CURRENT)
      modifies password
      ensures Valid() && Contents() == old(Contents()).Unlocked(text) && valid == Contents().ValidPassword()
      ensures var w := old(Contents());
              && Contents() == Wallet(w.crypto, w.entries, crypto.hashPassword(text, w.Entry(1).key), w.walletKeyMem)
              && (valid <==> w.Entry(3).key == crypto.keystream(Contents().WalletKey(), w.Entry(1).key / TWO_128))
    {
      password.ValueSet(crypto.hashPassword(text, EntryGetRaw(SALT).key));
      valid := ValidPassword();
    }

    method InsertAdhoc(prv: RawKey) returns (k: PublicKey)
      requires Valid()
      modifies this
      ensures Valid() && k == crypto.publicKey(prv) && Contents() == old(Contents()).WithAdhoc(prv)
    {
      k := crypto.publicKey(prv);
      var key := WalletKey();
      var ciphertext := crypto.Encrypt(prv, key, FirstHalf(k));
      EntryPutRaw(k, WalletValue(ciphertext, 0));
    }

    /** Some index from the stored one on is free, and the search for it does not overflow. */
    ghost predicate HasRoom(free: U32)
      reads this, password, walletKeyMem
    {
      var k := PublicKeyAt(Contents(), free);
      Contents().Index() <= free < TWO_32 - 1 && (k < 7 || k !in entries)
    }

    /** The first index from the stored one on whose key is not in the wallet is added. */
    method DeterministicInsert(ghost free: U32) returns (k: PublicKey, index: U32)
      requires Valid() && HasRoom(free)
      modifies this
      ensures Valid()
      ensures old(Contents()).Index() <= index <= free && k == PublicKeyAt(old(Contents()), index)
      ensures k < 7 || k !in old(entries)
      ensures Contents() == old(Contents()).WithDeterministic(index)
      ensures forall i: U32 | old(Contents()).Index() <= i < index ::
                PublicKeyAt(old(Contents()), i) >= 7 && PublicKeyAt(old(Contents()), i) in old(entries)
    {
      hide Wallet.Seed, Wallet.WalletKey;
      var password' := password.Value();
      var mem := walletKeyMem.Value();
      index, k := FirstFreeIndex(Wallet(crypto, entries, password', mem), free);
      EntryPutRaw(k, Marker(index));
      EntryPutRaw(DETERMINISTIC_INDEX, WalletValue(index + 1, 0));
    }

    method FetchKey(k: PublicKey) returns (r: Fetched)
      requires Valid()
      ensures r == Contents().Fetch(k)
    {
      var valid := ValidPassword();
      if !valid { return InvalidPassword; }
      var value := EntryGetRaw(k);
      if value.key == 0 { return NotFound; }
      var prv;
      match KeyTypeOf(value) {
        case Deterministic =>
          var seed := Seed();
          prv := crypto.deterministicKey(seed, value.key % TWO_32);
        case Adhoc =>
          var key := WalletKey();
          prv := crypto.Encrypt(value.key, key, FirstHalf(k));
        case Unknown => return InvalidKeyType;
      }
      if crypto.publicKey(prv) != k { return PublicKeyMismatch; }
      return Key(prv);
    }

    lemma FetchedRow(k: PublicKey)
      requires Contents().Fetch(k).Key?
      ensures k in entries
    {
    }

    /** The row must be there. */
    method Erase(k: PublicKey)
      requires Valid() && k in entries
      modifies this
      ensures Valid() && Contents() == old(Contents()).Erased(k)
    {
      entries := entries - {k};
    }
  
    /** Stops at the first key that cannot be fetched; the keys before it have been moved. */
    method MoveKeys(source: LmdbWalletStore, keys: seq<PublicKey>) returns (ok: bool)
      requires this != source && Valid() && source.Valid() && CanMove(Contents(), source.Contents(), keys)
      modifies this, source
      ensures Valid() && source.Valid()
      ensures ok ==> Moved(old(Contents()), Contents(), old(source.Contents()), source.Contents(), keys)
      ensures !ok ==> exists n | 0 <= n < |keys| ::
                        && Moved(old(Contents()), Contents(), old(source.Contents()), source.Contents(), keys[..n])
                        && !source.Contents().Fetch(keys[n]).Key?
    {
      hide *;
      ghost var w, s := Contents(), source.Contents();
      NothingMoved(w, s);
      for i := 0 to |keys|
        invariant Valid() && source.Valid()
        invariant Moved(w, Contents(), s, source.Contents(), keys[..i])
      {
        var fetched := source.FetchKey(keys[i]);
        if !fetched.Key? { return false; }
        source.FetchedRow(keys[i]);
        MovedStep(w, Contents(), s, source.Contents(), keys, i);
        var _ := InsertAdhoc(fetched.key);
        source.Erase(keys[i]);
      }
      assert keys[..|keys|] == keys;
      return true;
    }
  }

  lemma NothingMoved(w: Wallet, s: Wallet)
    ensures Moved(w, w, s, s, [])
  {
  }
}
