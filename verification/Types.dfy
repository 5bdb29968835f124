/** The values shared by the models of the accounts database. */
module Types {

  type Slot = nat

  /** A public key. Only equality and the byte order are used, so a key is its 256-bit number. */
  type Pubkey = nat

  /** An `AccountsFileId`. */
  type StorageId = nat

  datatype Account = Account(lamports: nat, data: seq<nat>) {
    predicate IsZeroLamport() { lamports == 0 }
  }

  datatype Option<+T> = None | Some(value: T)

  /** Where an index entry points. A storage keeps one copy per key, so the
      offset inside an append vec is determined by the key and left implicit. */
  datatype StorageLocation = Cached | AppendVec(id: StorageId)

  /** The keys of the pairs at one slot. */
  function KeysAt(pairs: set<(Pubkey, Slot)>, slot: Slot): (keys: set<Pubkey>)
    ensures forall k :: k in keys <==> (k, slot) in pairs
  {
    assert forall k :: (k, slot) in pairs ==> (k, slot).0 in set p | p in pairs && p.1 == slot :: p.0;
    set p | p in pairs && p.1 == slot :: p.0
  }

  function Restrict(m: map<Pubkey, Account>, keys: set<Pubkey>): map<Pubkey, Account> {
    map k | k in m && k in keys :: m[k]
  }

  /** What the write cache has for a slot. */
  function CacheOf(cache: map<Slot, map<Pubkey, Account>>, slot: Slot): map<Pubkey, Account> {
    if slot in cache then cache[slot] else map[]
  }

  function Min(a: nat, b: nat): nat { if a < b then a else b }
}
