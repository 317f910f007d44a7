// The public directory as a set of listings: one last-writer-wins slot per author and
// tier, each tier capped, the anonymous share shrinking as the attested tier grows. Which
// listings stay is again a condition that more listings only tighten.
module ListingSet {
  import opened Basics

  const MAX_LISTINGS: nat := 1000
  const ANON_LISTINGS: nat := 250

  datatype LwwKey = LwwKey(time: u64, attested: bool, hash: Hash) {
    predicate Lt(other: LwwKey) {
      || time < other.time
      || (time == other.time && !attested && other.attested)
      || (time == other.time && attested == other.attested && hash < other.hash)
    }

    predicate Le(other: LwwKey) { this == other || Lt(other) }
  }

  datatype Listing = Listing(
    author: Key, lastActive: u64, signature: Signature,
    attestation: Option<Attestation>, powNonce: u64)
  {
    predicate IsAnon() { attestation.None? }

    // Which of two authors' listings goes first.
    function SortKey(): OrderKey { OrderKey(lastActive, author) }

    // Last-writer-wins order within a slot; hash is the content hash of the record.
    function Lww(hash: Listing -> Hash): LwwKey {
      LwwKey(lastActive, attestation.Some?, hash(this))
    }

    predicate SameSlot(l: Listing) { author == l.author && IsAnon() == l.IsAnon() }
  }

  type Hasher = Listing -> Hash

  // A content hash determines the listing within its slot.
  ghost predicate Distinct(h: Hasher, H: set<Listing>) {
    forall a, b :: a in H && b in H && a.SameSlot(b) && a.Lww(h) == b.Lww(h) ==> a == b
  }

  ghost predicate SlotBest(h: Hasher, l: Listing, H: set<Listing>) {
    forall q :: q in H && q.SameSlot(l) ==> q.Lww(h).Le(l.Lww(h))
  }

  // The authors with something newer than l in l's tier.
  ghost function Ahead(l: Listing, H: set<Listing>): set<Key> {
    set q | q in H && q.IsAnon() == l.IsAnon() && l.SortKey().Lt(q.SortKey()) :: q.author
  }

  ghost function AttestedAuthors(H: set<Listing>): set<Key> {
    set q | q in H && !q.IsAnon() :: q.author
  }

  function ShareBeside(attested: nat): nat {
    Min(ANON_LISTINGS, SaturatingSub(MAX_LISTINGS, attested))
  }

  ghost function TierShare(l: Listing, H: set<Listing>): nat {
    if l.IsAnon() then ShareBeside(|AttestedAuthors(H)|) else MAX_LISTINGS
  }

  ghost predicate Keeps(h: Hasher, l: Listing, H: set<Listing>) {
    SlotBest(h, l, H) && |Ahead(l, H)| < TierShare(l, H)
  }

  ghost function Canon(h: Hasher, H: set<Listing>): set<Listing> {
    set l | l in H && Keeps(h, l, H)
  }

  // ---- adding listings only tightens the condition ----

  lemma KeepsTightens(h: Hasher, l: Listing, S: set<Listing>, T: set<Listing>)
    requires S <= T && Keeps(h, l, T)
    ensures Keeps(h, l, S)
  {
    SubsetCard(Ahead(l, S), Ahead(l, T));
    SubsetCard(AttestedAuthors(S), AttestedAuthors(T));
  }

  // ---- removing a listing that fails changes nothing for the others ----

  lemma SupersededLeavesOthers(h: Hasher, l: Listing, S: set<Listing>, q: Listing)
    requires q in S && l != q && !SlotBest(h, q, S)
    ensures Keeps(h, l, S) <==> Keeps(h, l, S - {q})
  {
    var T := S - {q};
    var w :| w in S && w.SameSlot(q) && !w.Lww(h).Le(q.Lww(h));
    assert w in T && q.SortKey().Le(w.SortKey());
    assert Ahead(l, S) == Ahead(l, T) by {
      if q.author in Ahead(l, S) && q.IsAnon() == l.IsAnon() && l.SortKey().Lt(q.SortKey()) {
        assert l.SortKey().Lt(w.SortKey());
        assert w.author in Ahead(l, T);
      }
    }
    assert AttestedAuthors(S) == AttestedAuthors(T) by {
      assert !w.IsAnon() ==> w.author in AttestedAuthors(T);
    }
  }

  lemma OwnAuthorNotAhead(h: Hasher, S: set<Listing>, q: Listing)
    requires q in S && SlotBest(h, q, S)
    ensures Ahead(q, S - {q}) == Ahead(q, S) && q.author !in Ahead(q, S)
  {
    forall w | w in S && w.IsAnon() == q.IsAnon() && q.SortKey().Lt(w.SortKey()) ensures w.author != q.author {
      if w.author == q.author { assert w.SameSlot(q); }
    }
  }

  lemma FullTierStaysFull(h: Hasher, l: Listing, S: set<Listing>, q: Listing)
    requires q in S && SlotBest(h, q, S) && |Ahead(q, S)| >= TierShare(q, S)
    ensures TierShare(l, S) == TierShare(l, S - {q})
  {
    OwnAuthorNotAhead(h, S, q);
    if q.IsAnon() {
      assert AttestedAuthors(S) == AttestedAuthors(S - {q});
    } else {
      SubsetCard(Ahead(q, S), AttestedAuthors(S - {q}));
      SubsetCard(AttestedAuthors(S - {q}), AttestedAuthors(S));
    }
  }

  lemma OutrankedLeavesOthers(h: Hasher, l: Listing, S: set<Listing>, q: Listing)
    requires q in S && l != q && SlotBest(h, q, S) && |Ahead(q, S)| >= TierShare(q, S)
    ensures Keeps(h, l, S) <==> Keeps(h, l, S - {q})
  {
    var T := S - {q};
    OwnAuthorNotAhead(h, S, q);
    FullTierStaysFull(h, l, S, q);
    if l.IsAnon() == q.IsAnon() && !q.SortKey().Lt(l.SortKey()) {
      SubsetCard(Ahead(q, T), Ahead(l, T));
      SubsetCard(Ahead(l, T), Ahead(l, S));
    } else {
      assert Ahead(l, S) == Ahead(l, T);
    }
  }

  lemma LoserLeavesOthers(h: Hasher, l: Listing, S: set<Listing>, q: Listing)
    requires q in S && l != q && !Keeps(h, q, S)
    ensures Keeps(h, l, S) <==> Keeps(h, l, S - {q})
  {
    if SlotBest(h, q, S) { OutrankedLeavesOthers(h, l, S, q); } else { SupersededLeavesOthers(h, l, S, q); }
  }

  lemma {:induction false} LosersLeaveOthers(h: Hasher, l: Listing, S: set<Listing>, losers: set<Listing>)
    requires losers <= S && l !in losers && forall q :: q in losers ==> !Keeps(h, q, S)
    ensures Keeps(h, l, S) <==> Keeps(h, l, S - losers)
    decreases losers
  {
    hide Keeps;
    if q :| q in losers {
      var rest := losers - {q};
      LoserLeavesOthers(h, l, S, q);
      forall x | x in rest ensures !Keeps(h, x, S - {q}) {
        LoserLeavesOthers(h, x, S, q);
      }
      LosersLeaveOthers(h, l, S - {q}, rest);
      assert S - {q} - rest == S - losers;
    } else {
      assert S - losers == S;
    }
  }

  lemma CanonWithoutLosers(h: Hasher, S: set<Listing>, losers: set<Listing>)
    requires losers <= S && forall q :: q in losers ==> !Keeps(h, q, S)
    ensures Canon(h, S - losers) == Canon(h, S)
  {
    hide Keeps;
    forall l | l in S - losers ensures Keeps(h, l, S) <==> Keeps(h, l, S - losers) {
      LosersLeaveOthers(h, l, S, losers);
    }
  }

  // Evicting early, tier flips and the shrinking anonymous share included, loses nothing
  // that evicting late would keep.
  lemma CanonAbsorbs(h: Hasher, X: set<Listing>, Y: set<Listing>)
    ensures Canon(h, Canon(h, X) + Y) == Canon(h, X + Y)
  {
    hide Keeps;
    var losers := X - Canon(h, X) - Y;
    forall q | q in losers ensures !Keeps(h, q, X + Y) {
      if Keeps(h, q, X + Y) { KeepsTightens(h, q, X, X + Y); }
    }
    CanonWithoutLosers(h, X + Y, losers);
    assert X + Y - losers == Canon(h, X) + Y;
  }

  lemma CanonIdempotent(h: Hasher, S: set<Listing>)
    ensures Canon(h, Canon(h, S)) == Canon(h, S)
  {
    hide Keeps;
    CanonAbsorbs(h, S, {});
    assert Canon(h, S) + {} == Canon(h, S) && S + {} == S;
  }

  lemma CanonOfCanons(h: Hasher, A: set<Listing>, B: set<Listing>)
    ensures Canon(h, Canon(h, A) + Canon(h, B)) == Canon(h, A + B)
  {
    hide Keeps;
    CanonAbsorbs(h, A, Canon(h, B));
    CanonAbsorbs(h, B, A);
    assert Canon(h, B) + A == A + Canon(h, B) && B + A == A + B;
  }

  // What is kept answers every question about keeping exactly as the whole history does.
  lemma KeptDecides(h: Hasher, l: Listing, S: set<Listing>)
    ensures Keeps(h, l, Canon(h, S)) <==> Keeps(h, l, S)
  {
    var losers := S - Canon(h, S) - {l};
    LosersLeaveOthers(h, l, S, losers);
    if l in S && l !in Canon(h, S) {
      assert S - losers == Canon(h, S) + {l};
      SelfIrrelevant(h, l, Canon(h, S));
    } else {
      assert S - losers == Canon(h, S);
    }
  }

  lemma SelfIrrelevant(h: Hasher, l: Listing, S: set<Listing>)
    ensures Keeps(h, l, S + {l}) <==> Keeps(h, l, S)
  {
    assert Ahead(l, S + {l}) == Ahead(l, S);
    if l.IsAnon() {
      assert AttestedAuthors(S + {l}) == AttestedAuthors(S);
    }
  }

  function AttestedPart(S: set<Listing>): set<Listing> { set l | l in S && !l.IsAnon() }

  // Anonymous listings never influence which attested listings stay.
  lemma AnonymousNeverCrowds(h: Hasher, S: set<Listing>)
    ensures AttestedPart(Canon(h, S)) == Canon(h, AttestedPart(S))
  {
    forall l | l in AttestedPart(S) ensures Keeps(h, l, S) <==> Keeps(h, l, AttestedPart(S)) {
      assert Ahead(l, S) == Ahead(l, AttestedPart(S));
    }
  }
}
