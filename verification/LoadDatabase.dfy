/**
 What the database's clean, purge and shrink drop from the index is what concurrent loads can stand: each drop is a
 proper step of the load protocol.
 */
module LoadDatabase {
  import opened Types
  import P = LoadProtocol
  import D = Database
  import I = DatabaseInvariant
  import DatabaseProof
  import H = LoadHistory

  /** The protocol state and the database have the same entries, roots and writes. */
  ghost predicate Same(s: P.State, db: D.Db) {
    && (forall p :: p in s.index <==> p in db.index)
    && (forall p | p in s.index :: s.index[p].AppendVec? <==> db.index[p].Stored?)
    && s.roots == db.roots && s.history == db.history
  }

  lemma SameNewest(s: P.State, db: D.Db, k: Pubkey, x: Slot, bound: Slot)
    requires Same(s, db)
    ensures H.IsNewestUpTo(s.index, s.roots, k, x, bound) <==> D.IsNewestRooted(db.index, db.roots, (k, x), bound)
  {}

  /** Clean's outdated versions. */
  lemma OlderIsProper(s: P.State, db: D.Db, keys: set<Pubkey>, bound: Slot, k: Pubkey)
    requires Same(s, db)
    ensures H.Proper(s, P.CleanKey(k, D.SlotsOf(D.Older(db.index, db.roots, keys, bound), k)))
  {
    var older := D.Older(db.index, db.roots, keys, bound);
    var slots := D.SlotsOf(older, k);
    forall x | x in slots
      ensures (k, x) in s.index && s.index[(k, x)].AppendVec? && x < bound &&
        !H.IsNewestUpTo(s.index, s.roots, k, x, bound)
    {
      assert (k, x) in older;
      SameNewest(s, db, k, x, bound);
    }
    assert H.AreOutdated(s.index, s.roots, k, slots, bound);
  }

  /** Clean's purge of a zero-lamport key. */
  lemma PurgeIsProper(s: P.State, db: D.Db, keys: set<Pubkey>, bound: Slot, k: Pubkey)
    requires Same(s, db) && I.StoresOk(db.stores, db.cache, db.ever, db.history) && D.CanPurgeZero(db, keys, bound) &&
      k in keys
    ensures H.Proper(s, P.CleanKey(k, D.SlotsOf(D.RootedUpTo(db.index, db.roots, keys, bound), k)))
  {
    var gone := D.RootedUpTo(db.index, db.roots, keys, bound);
    var slots := D.SlotsOf(gone, k);
    forall x: Slot ensures x in slots <==> (k, x) in s.index && x in s.roots && x <= bound {
      assert x in slots <==> (k, x) in gone;
    }
    forall x: Slot | H.IsNewestUpTo(s.index, s.roots, k, x, bound) ensures H.IsZeroWrite(s.history, k, x) {
      SameNewest(s, db, k, x, bound);
      assert (k, x) in gone;
      assert D.IsZero(db.stores, (k, x));
    }
    assert H.ArePurged(s.index, s.roots, s.history, k, slots, bound);
  }

  /** Shrink's single-reference zero-lamport records. */
  lemma ShrinkIsProper(s: P.State, db: D.Db, slot: Slot, zero: set<Pubkey>)
    requires Same(s, db) && D.CanShrink(db, slot, zero)
    requires I.StoresOk(db.stores, db.cache, db.ever, db.history) && I.StoredMatches(db.index, db.stores)
    requires I.RefsCover(db.refs, db.stores)
    ensures H.Proper(s, P.ShrinkSlot(slot, zero))
  {
    forall k | k in zero ensures H.IsZeroWrite(s.history, k, slot) && H.SingleStored(s.index, k, slot) {
      DatabaseProof.SingleRef(db, slot, zero, k);
      assert D.IsZero(db.stores, (k, slot));
      forall p | p in s.index && p.0 == k && s.index[p].AppendVec? ensures p.1 == slot {
        assert D.HoldsKey(db.stores, p.1, k);
        assert p.1 in D.Holders(db.stores, k);
      }
    }
  }
}
