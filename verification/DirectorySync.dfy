// Delta sync between directory replicas: a receiver wants exactly the listings it would
// keep, so a delta against a summary is as good as the full state, and settled replicas
// have nothing to say to each other.
module DirectorySync {
  import opened Basics
  import opened Pow
  import opened ListingSet
  import opened Directory
  import opened DirectoryTheorems

  ghost predicate Trimmed(h: Hasher, r: DirState) {
    WellKeyed(r) && Canon(h, r.Listings()) == r.Listings()
  }

  lemma VerifiedIsTrimmed(x: Params, r: DirState)
    requires Verified(x, r)
    ensures Trimmed(x.hash, r)
  {
    hide Keeps;
    forall l | l in r.Listings() ensures Keeps(x.hash, l, r.Listings()) {
      WithinCapsKept(x.hash, r, l);
    }
  }

  lemma RankBelowSize(t: Tier, k: Key)
    requires k in t
    ensures |NewerIn(t, k)| < |t|
  {
    SubsetCard(NewerIn(t, k) + {k}, t.Keys);
    assert k !in NewerIn(t, k);
  }

  lemma WithinCapsKept(h: Hasher, r: DirState, l: Listing)
    requires WellKeyed(r) && |r.attested| <= MAX_LISTINGS && |r.anon| <= ShareBeside(|r.attested|)
    requires l in r.Listings()
    ensures Keeps(h, l, r.Listings())
  {
    hide WellKeyed, SlotBest, Ahead, AttestedAuthors, DirState.Listings;
    TierSets(r, l);
    SlotsHeldOnce(h, r, l);
    RankBelowSize(r.TierFor(l), l.author);
  }

  function TierOf(r: DirState, anon: bool): Tier { if anon then r.anon else r.attested }

  function ShareOf(r: DirState, anon: bool): nat { if anon then ShareBeside(|r.attested|) else MAX_LISTINGS }

  lemma TierFits(h: Hasher, r: DirState, anon: bool)
    requires Trimmed(h, r)
    ensures |TierOf(r, anon)| <= ShareOf(r, anon)
  {
    var t := TierOf(r, anon);
    if t != map[] {
      var k := OldestEntry(t);
      InListings(r, t[k]);
      TierSets(r, t[k]);
      assert t[k] in Canon(h, r.Listings());
      assert t.Keys - {k} <= NewerIn(t, k);
      SubsetCard(t.Keys - {k}, NewerIn(t, k));
      CountAuthors(r);
    }
  }

  lemma CountAuthors(r: DirState)
    requires WellKeyed(r)
    ensures AttestedAuthors(r.Listings()) == r.attested.Keys
  {
    forall k | k in r.attested ensures k in AttestedAuthors(r.Listings()) {
      InListings(r, r.attested[k]);
    }
    forall l | l in r.Listings() && !l.IsAnon() ensures l.author in r.attested {
      InListings(r, l);
    }
  }

  lemma AheadInTier(r: DirState, l: Listing)
    requires WellKeyed(r)
    ensures Ahead(l, r.Listings()) == set j | j in r.TierFor(l) && l.SortKey().Lt(r.TierFor(l)[j].SortKey())
  {
    var t := r.TierFor(l);
    forall j | j in t ensures t[j] in r.Listings() && t[j].author == j && t[j].IsAnon() == l.IsAnon() {
      InListings(r, t[j]);
    }
    forall q | q in r.Listings() && q.IsAnon() == l.IsAnon() ensures q.author in t && t[q.author] == q {
      InListings(r, q);
    }
  }

  // In a tier within its share, being below the oldest entry is being outnumbered.
  lemma OldestDecides(t: Tier, share: nat, key: OrderKey, ahead: set<Key>)
    requires |t| <= share && ahead == set j | j in t && key.Lt(t[j].SortKey())
    requires forall j :: j in t ==> t[j].SortKey().tie != key.tie
    ensures Horizon(t, share).Admits(key) <==> |ahead| < share
  {
    SubsetCard(ahead, t.Keys);
    if |t| == share && share > 0 {
      var k := OldestEntry(t);
      if !t[k].SortKey().Lt(key) {
        assert ahead == t.Keys;
      }
    }
  }

  // An author without a slot is admitted by the horizon exactly when it would be kept.
  lemma HorizonIsRank(h: Hasher, r: DirState, l: Listing)
    requires Trimmed(h, r) && l.author !in r.TierFor(l)
    ensures Horizon(r.TierFor(l), ShareOf(r, l.IsAnon())).Admits(l.SortKey())
      <==> |Ahead(l, r.Listings())| < ShareOf(r, l.IsAnon())
  {
    hide Canon, Ahead, Horizon;
    TierFits(h, r, l.IsAnon());
    AheadInTier(r, l);
    OldestDecides(r.TierFor(l), ShareOf(r, l.IsAnon()), l.SortKey(), Ahead(l, r.Listings()));
  }

  lemma SlotIsHeld(r: DirState, l: Listing)
    requires WellKeyed(r) && l.author in r.TierFor(l)
    ensures var held := r.TierFor(l)[l.author];
      && held in r.Listings() && held.SameSlot(l)
      && forall q :: q in r.Listings() && q.SameSlot(l) ==> q == held
  {
    InListings(r, r.TierFor(l)[l.author]);
    forall q | q in r.Listings() && q.SameSlot(l) ensures q == r.TierFor(l)[l.author] { InListings(r, q); }
  }

  lemma HeldSlotIsLww(x: Params, r: DirState, l: Listing)
    requires Trimmed(x.hash, r) && l.author in r.TierFor(l) && Distinct(x.hash, r.Listings() + {l})
    ensures x.Lww(r.TierFor(l)[l.author]).Lt(x.Lww(l)) <==> l !in r.Listings() && Keeps(x.hash, l, r.Listings())
  {
    hide WellKeyed, Canon, Keeps;
    var held := r.TierFor(l)[l.author];
    SlotIsHeld(r, l);
    if x.Lww(held).Lt(x.Lww(l)) {
      assert held in Canon(x.hash, r.Listings());
      UpgradeKept(x.hash, l, held, r.Listings());
    } else if l != held {
      Superseded(x.hash, l, held, r.Listings());
    }
  }

  // A newer version of a kept listing is itself kept.
  lemma UpgradeKept(h: Hasher, l: Listing, held: Listing, R: set<Listing>)
    requires held in Canon(h, R) && held.SameSlot(l) && held.Lww(h).Lt(l.Lww(h))
    requires forall q :: q in R && q.SameSlot(l) ==> q == held
    ensures Keeps(h, l, R)
  {
    SubsetCard(Ahead(l, R), Ahead(held, R));
  }

  // What a receiver wants is exactly what it lacks and would keep.
  lemma WantedIsKept(x: Params, r: DirState, l: Listing)
    requires Trimmed(x.hash, r) && Distinct(x.hash, r.Listings() + {l})
    ensures Wanted(x, Summary(x, r), l) <==> l !in r.Listings() && Keeps(x.hash, l, r.Listings())
  {
    hide Trimmed, Canon;
    if l.author in r.TierFor(l) {
      HeldSlotIsLww(x, r, l);
    } else {
      HorizonIsRank(x.hash, r, l);
      NewSlot(x, r, l);
    }
  }

  lemma NewSlot(x: Params, r: DirState, l: Listing)
    requires Trimmed(x.hash, r) && l.author !in r.TierFor(l)
    ensures l !in r.Listings() && SlotBest(x.hash, l, r.Listings())
    ensures TierShare(l, r.Listings()) == ShareOf(r, l.IsAnon())
  {
    hide Canon;
    InListings(r, l);
    CountAuthors(r);
    forall q | q in r.Listings() && q.SameSlot(l) ensures false {
      InListings(r, q);
    }
  }

  lemma WantedPartIs(x: Params, theirs: DirSummary, t: Tier)
    ensures WantedPart(x, theirs, t).Values == set l | l in t.Values && Wanted(x, theirs, l)
    ensures |WantedPart(x, theirs, t)| <= |t|
  {
    hide Wanted;
    var w := WantedPart(x, theirs, t);
    SubsetCard(w.Keys, t.Keys);
    forall l ensures l in w.Values <==> l in t.Values && Wanted(x, theirs, l) {
      if l in t.Values && Wanted(x, theirs, l) {
        var k :| k in t && t[k] == l;
        assert k in w && w[k] == l;
      }
    }
  }

  lemma OfferedAre(x: Params, s: DirState, theirs: DirSummary)
    ensures ToSet(Offered(x, s, theirs)) == set l | l in s.Listings() && Wanted(x, theirs, l)
    ensures |Offered(x, s, theirs)| <= |s.attested| + |s.anon|
  {
    hide Wanted, WantedPart;
    WantedPartIs(x, theirs, s.attested);
    WantedPartIs(x, theirs, s.anon);
    ToSetSplit(Values(WantedPart(x, theirs, s.attested)), Values(WantedPart(x, theirs, s.anon)));
  }

  // Listings withheld by a summary of r, or already in r, change nothing for any history
  // that contains r's.
  lemma WithheldIrrelevant(x: Params, known: set<Listing>, r: DirState, all: set<Listing>,
                           wanted: set<Listing>, H: set<Listing>)
    requires Reflects(x.hash, known, r) && known <= H && wanted <= all && Distinct(x.hash, known + all)
    requires forall l :: l in all && Wanted(x, Summary(x, r), l) ==> l in wanted
    ensures Canon(x.hash, H + wanted) == Canon(x.hash, H + all)
  {
    hide Keeps, Wanted, Summary, WellKeyed;
    var withheld := all - wanted - H;
    assert Trimmed(x.hash, r) by { CanonIdempotent(x.hash, known); }
    forall l | l in withheld ensures !Keeps(x.hash, l, H + all) {
      WantedIsKept(x, r, l);
      KeptDecides(x.hash, l, known);
      if Keeps(x.hash, l, H + all) { KeepsTightens(x.hash, l, known, H + all); }
    }
    CanonWithoutLosers(x.hash, H + all, withheld);
    assert H + all - withheld == H + wanted;
  }

  // ---- delta sync refines full-state merge ----

  ghost function Sync(x: Params, r: DirState, s: DirState): Result<DirState> {
    match Delta(x, s, Summary(x, r))
    case None => Ok(r)
    case Some(d) => Apply(x, r, d)
  }

  lemma FullListings(s: DirState)
    ensures ToSet(FullDelta(s).listings) == s.Listings() && |FullDelta(s).listings| == |s.attested| + |s.anon|
  {
    ToSetSplit(Values(s.attested), Values(s.anon));
  }

  lemma VerifiedListings(x: Params, s: DirState)
    requires Verified(x, s)
    ensures |s.attested| + |s.anon| <= MAX_LISTINGS + ANON_LISTINGS
    ensures forall l :: l in s.Listings() ==> x.Check(l)
  {
    forall l | l in s.Listings() ensures x.Check(l) { InListings(s, l); }
  }

  // A delta of verified listings is accepted, and is its cleared listings joined in.
  lemma SoundDeltaJoins(x: Params, r: DirState, s: DirState, d: DirDelta)
    requires Verified(x, r) && Verified(x, s) && Distinct(x.hash, r.Listings() + s.Listings())
    requires ToSet(d.listings) <= s.Listings() && |d.listings| <= |s.attested| + |s.anon|
    ensures Apply(x, r, d).Ok?
    ensures var pow := PowAfter(x, r, d.powDifficulty);
      && Reflects(x.hash, r.Listings() + Cleared(x, DifficultyBits(x.publisher, pow), d.listings), Apply(x, r, d).value)
      && Apply(x, r, d).value.powDifficulty == pow
  {
    hide Verified, Canon, WellKeyed, Absorb;
    VerifiedListings(x, s);
    VerifiedIsTrimmed(x, r);
    assert forall l :: l in d.listings ==> l in ToSet(d.listings);
    var latched := r.(powDifficulty := PowAfter(x, r, d.powDifficulty));
    CheckedNeverFatal(x, DifficultyBits(x.publisher, latched.powDifficulty), latched, d.listings);
    ApplyIs(x, r.Listings(), r, d);
  }

  lemma MergeJoins(x: Params, r: DirState, s: DirState)
    requires Verified(x, r) && Verified(x, s) && Distinct(x.hash, r.Listings() + s.Listings())
    ensures Merge(x, r, s).Ok?
    ensures var pow := PowAfter(x, r, s.powDifficulty);
      && Reflects(x.hash,
           r.Listings() + Cleared(x, DifficultyBits(x.publisher, pow), FullDelta(s).listings), Merge(x, r, s).value)
      && Merge(x, r, s).value.powDifficulty == pow
  {
    FullListings(s);
    hide Verified, Reflects, Apply;
    SoundDeltaJoins(x, r, s, FullDelta(s));
  }

  lemma DeltaIs(x: Params, r: DirState, s: DirState)
    ensures var d, offered := Delta(x, s, Summary(x, r)), Offered(x, s, Summary(x, r));
      && (d.None? ==> offered == [] && PowAfter(x, r, s.powDifficulty) == r.powDifficulty)
      && (d.Some? ==> d.value.listings == offered)
      && (d.Some? ==> PowAfter(x, r, d.value.powDifficulty) == PowAfter(x, r, s.powDifficulty))
  {
    hide Offered, Horizon;
  }

  lemma SyncJoins(x: Params, r: DirState, s: DirState)
    requires Verified(x, r) && Verified(x, s) && Distinct(x.hash, r.Listings() + s.Listings())
    ensures Sync(x, r, s).Ok?
    ensures var pow := PowAfter(x, r, s.powDifficulty);
      && Reflects(x.hash,
           r.Listings() + Cleared(x, DifficultyBits(x.publisher, pow), Offered(x, s, Summary(x, r))),
           Sync(x, r, s).value)
      && Sync(x, r, s).value.powDifficulty == pow
  {
    hide Canon, Apply, WellKeyed, Wanted, Verified, Offered, Delta, Summary, PowAfter, Distinct;
    var offered := Offered(x, s, Summary(x, r));
    DeltaIs(x, r, s);
    OfferedAre(x, s, Summary(x, r));
    match Delta(x, s, Summary(x, r)) {
      case None =>
        VerifiedIsTrimmed(x, r);
        var bits := DifficultyBits(x.publisher, PowAfter(x, r, s.powDifficulty));
        assert r.Listings() + Cleared(x, bits, offered) == r.Listings();
      case Some(d) =>
        SoundDeltaJoins(x, r, s, d);
    }
  }

  lemma WithheldCleared(x: Params, r: DirState, s: DirState, bits: nat)
    requires Verified(x, r) && Verified(x, s) && Distinct(x.hash, r.Listings() + s.Listings())
    ensures Canon(x.hash, r.Listings() + Cleared(x, bits, Offered(x, s, Summary(x, r))))
      == Canon(x.hash, r.Listings() + Cleared(x, bits, FullDelta(s).listings))
  {
    hide Canon, Wanted, Verified, Offered, Summary, WellKeyed, DirState.Listings, FullDelta;
    var offered, full := Offered(x, s, Summary(x, r)), FullDelta(s).listings;
    FullListings(s);
    OfferedAre(x, s, Summary(x, r));
    VerifiedIsTrimmed(x, r);
    MembersAre(full, offered);
    WithheldIrrelevant(x, r.Listings(), r, Cleared(x, bits, full), Cleared(x, bits, offered), r.Listings());
  }

  // Syncing through a summary yields exactly the full-state merge, even while a difficulty
  // raise is under way.
  lemma SyncIsMerge(x: Params, r: DirState, s: DirState)
    requires Verified(x, r) && Verified(x, s) && Distinct(x.hash, r.Listings() + s.Listings())
    ensures Sync(x, r, s).Ok? && Sync(x, r, s) == Merge(x, r, s)
  {
    hide Canon, Merge, Verified, Sync, Offered, PowAfter, Reflects, Cleared, Distinct, Summary, FullDelta;
    hide DirState.Listings;
    var bits := DifficultyBits(x.publisher, PowAfter(x, r, s.powDifficulty));
    var offered, full := Offered(x, s, Summary(x, r)), FullDelta(s).listings;
    SyncJoins(x, r, s);
    MergeJoins(x, r, s);
    WithheldCleared(x, r, s, bits);
    SameReflectionOf(x.hash, r.Listings() + Cleared(x, bits, offered), r.Listings() + Cleared(x, bits, full),
      Sync(x, r, s).value, Merge(x, r, s).value);
  }

  lemma SameReflectionOf(h: Hasher, G: set<Listing>, H: set<Listing>, a: DirState, b: DirState)
    requires Reflects(h, G, a) && Reflects(h, H, b) && Canon(h, G) == Canon(h, H)
    ensures a.attested == b.attested && a.anon == b.anon
  {
    hide Canon, WellKeyed;
    SameListingsSameTiers(a, b);
  }

  lemma MembersAre(a: seq<Listing>, b: seq<Listing>)
    ensures forall l :: (l in a <==> l in ToSet(a)) && (l in b <==> l in ToSet(b))
  {}

  // ---- merge is a join ----

  // Every anonymous stamp of s clears the bar.
  ghost predicate ClearsBar(x: Params, s: DirState, bits: nat) {
    forall l :: l in s.Listings() && l.IsAnon() ==> x.Stamped(l, bits)
  }

  lemma MergeIsUnion(x: Params, r: DirState, s: DirState)
    requires Verified(x, r) && Verified(x, s) && Distinct(x.hash, r.Listings() + s.Listings())
    requires ClearsBar(x, s, DifficultyBits(x.publisher, PowAfter(x, r, s.powDifficulty)))
    ensures Merge(x, r, s).Ok?
    ensures Reflects(x.hash, r.Listings() + s.Listings(), Merge(x, r, s).value)
    ensures Merge(x, r, s).value.powDifficulty == PowAfter(x, r, s.powDifficulty)
  {
    hide Reflects, Merge, Verified;
    MergeJoins(x, r, s);
    FullListings(s);
    var full := FullDelta(s).listings;
    MembersAre(full, full);
    assert Cleared(x, DifficultyBits(x.publisher, PowAfter(x, r, s.powDifficulty)), full) == s.Listings();
  }

  lemma MergeCommutes(x: Params, r: DirState, s: DirState)
    requires Verified(x, r) && Verified(x, s) && Distinct(x.hash, r.Listings() + s.Listings())
    requires ClearsBar(x, s, DifficultyBits(x.publisher, PowAfter(x, r, s.powDifficulty)))
    requires ClearsBar(x, r, DifficultyBits(x.publisher, PowAfter(x, s, r.powDifficulty)))
    ensures Merge(x, r, s).Ok? && Merge(x, s, r).Ok?
    ensures Merge(x, r, s) == Merge(x, s, r) <==> ConsistentRecords(r.powDifficulty, s.powDifficulty)
  {
    hide Reflects, Merge, WellKeyed, ClearsBar;
    assert r.Listings() + s.Listings() == s.Listings() + r.Listings();
    MergeIsUnion(x, r, s);
    MergeIsUnion(x, s, r);
    SameReflection(x.hash, r.Listings() + s.Listings(), Merge(x, r, s).value, Merge(x, s, r).value);
    AdoptCommutes(x.publisher, r.powDifficulty, s.powDifficulty);
  }

  // Merging a state into itself changes nothing, whatever its stamps clear.
  lemma MergeIdempotent(x: Params, r: DirState)
    requires Verified(x, r) && Distinct(x.hash, r.Listings())
    ensures Merge(x, r, r) == Ok(r)
  {
    hide Canon, Merge, WellKeyed, Verified;
    assert r.Listings() + r.Listings() == r.Listings();
    MergeJoins(x, r, r);
    VerifiedIsTrimmed(x, r);
    FullListings(r);
    var full := FullDelta(r).listings;
    MembersAre(full, full);
    var bits := DifficultyBits(x.publisher, PowAfter(x, r, r.powDifficulty));
    assert r.Listings() + Cleared(x, bits, full) == r.Listings();
    SameReflection(x.hash, r.Listings(), r, Merge(x, r, r).value);
  }

  // Three states, the two merged in of which carry stamps that clear every bar among them.
  ghost predicate Harmonious(x: Params, a: DirState, b: DirState, c: DirState, bar: nat) {
    && Verified(x, a) && Verified(x, b) && Verified(x, c)
    && Distinct(x.hash, a.Listings() + b.Listings() + c.Listings())
    && ClearsBar(x, b, bar) && ClearsBar(x, c, bar)
    && DifficultyBits(x.publisher, a.powDifficulty) <= bar
    && DifficultyBits(x.publisher, b.powDifficulty) <= bar
    && DifficultyBits(x.publisher, c.powDifficulty) <= bar
  }

  lemma HarmoniousPair(x: Params, r: DirState, s: DirState, bar: nat)
    requires Verified(x, r) && Verified(x, s) && Distinct(x.hash, r.Listings() + s.Listings())
    requires ClearsBar(x, s, bar)
    requires DifficultyBits(x.publisher, r.powDifficulty) <= bar && DifficultyBits(x.publisher, s.powDifficulty) <= bar
    ensures Merge(x, r, s).Ok? && Verified(x, Merge(x, r, s).value)
    ensures Reflects(x.hash, r.Listings() + s.Listings(), Merge(x, r, s).value)
    ensures Merge(x, r, s).value.powDifficulty == PowAfter(x, r, s.powDifficulty)
    ensures DifficultyBits(x.publisher, Merge(x, r, s).value.powDifficulty) <= bar
  {
    hide Reflects, Verified, DirState.Listings, Apply;
    MergeIsUnion(x, r, s);
    ApplyKeepsVerified(x, r, FullDelta(s));
  }

  lemma LatchedIsGenuine(x: Params, st: DirState)
    requires Verified(x, st)
    ensures PowOk(x, st.powDifficulty)
  {}

  lemma MergeAssociates(x: Params, a: DirState, b: DirState, c: DirState, bar: nat)
    requires Harmonious(x, a, b, c, bar)
    ensures Merge(x, a, b).Ok? && Merge(x, b, c).Ok?
    ensures Merge(x, Merge(x, a, b).value, c).Ok?
    ensures Merge(x, Merge(x, a, b).value, c) == Merge(x, a, Merge(x, b, c).value)
  {
    hide Keeps, Merge, WellKeyed, Verified, DirState.Listings;
    var A, B, C := a.Listings(), b.Listings(), c.Listings();
    HarmoniousPair(x, a, b, bar);
    HarmoniousPair(x, b, c, bar);
    var ab, bc := Merge(x, a, b).value, Merge(x, b, c).value;
    assert ab.Listings() <= A + B && bc.Listings() <= B + C;
    HarmoniousPair(x, ab, c, bar);
    HarmoniousPair(x, a, bc, bar);
    CanonAbsorbs(x.hash, A + B, C);
    CanonAbsorbs(x.hash, B + C, A);
    assert A + B + C == B + C + A && Canon(x.hash, B + C) + A == A + Canon(x.hash, B + C);
    SameReflection(x.hash, A + B + C, Merge(x, ab, c).value, Merge(x, a, bc).value);
    LatchedIsGenuine(x, b);
    AdoptAssociates(x.publisher, a.powDifficulty, b.powDifficulty, c.powDifficulty);
  }

  // ---- quiescence ----

  lemma NothingWanted(x: Params, H: set<Listing>, joint: DirState, l: Listing)
    requires Reflects(x.hash, H, joint) && l in H && Distinct(x.hash, H)
    ensures !Wanted(x, Summary(x, joint), l)
  {
    hide Keeps, Wanted, WellKeyed, Summary;
    CanonIdempotent(x.hash, H);
    WantedIsKept(x, joint, l);
    KeptDecides(x.hash, l, H);
  }

  lemma NothingOffered(x: Params, s: DirState, theirs: DirSummary)
    requires forall l :: l in s.Listings() ==> !Wanted(x, theirs, l)
    ensures Offered(x, s, theirs) == []
  {
    hide Wanted, Offered;
    OfferedAre(x, s, theirs);
    EmptyToSet(Offered(x, s, theirs));
  }

  lemma SilentDelta(x: Params, r: DirState, s: DirState, joint: DirState)
    requires Verified(x, s) && joint.powDifficulty == PowAfter(x, r, s.powDifficulty)
    requires Offered(x, s, Summary(x, joint)) == []
    ensures Delta(x, s, Summary(x, joint)) == None
  {
    hide WellKeyed, Horizon, Offered;
  }

  // After absorbing s, nothing in s is wanted any more.
  lemma NoReoffer(x: Params, r: DirState, s: DirState)
    requires Verified(x, r) && Verified(x, s) && Distinct(x.hash, r.Listings() + s.Listings())
    requires ClearsBar(x, s, DifficultyBits(x.publisher, PowAfter(x, r, s.powDifficulty)))
    ensures Merge(x, r, s).Ok?
    ensures Delta(x, s, Summary(x, Merge(x, r, s).value)) == None
  {
    MergeIsUnion(x, r, s);
    hide Reflects, Merge, Wanted, Verified, ClearsBar, Offered, Distinct, Summary, Delta, PowAfter, DirState.Listings;
    var joint := Merge(x, r, s).value;
    forall l | l in s.Listings() ensures !Wanted(x, Summary(x, joint), l) {
      NothingWanted(x, r.Listings() + s.Listings(), joint, l);
    }
    NothingOffered(x, s, Summary(x, joint));
    SilentDelta(x, r, s, joint);
  }

  // ---- anonymous listings never reach the attested tier ----

  function AttestedOnly(ls: seq<Listing>): seq<Listing> { Restrict(ls, AttestedPart(ToSet(ls))) }

  function StripState(st: DirState): DirState { st.(anon := map[]) }

  function StripDelta(d: DirDelta): DirDelta { d.(listings := AttestedOnly(d.listings)) }

  lemma RestrictPrefix(ls: seq<Listing>)
    requires ls != []
    ensures var n := |ls| - 1;
      AttestedOnly(ls) == AttestedOnly(ls[..n]) + (if ls[n].IsAnon() then [] else [ls[n]])
  {
    var n := |ls| - 1;
    ToSetSnoc(ls);
    assert forall l :: l in ls[..n] ==> l in ToSet(ls[..n]);
    RestrictAgrees(ls[..n], AttestedPart(ToSet(ls)), AttestedPart(ToSet(ls[..n])));
    assert ls[n] in ToSet(ls);
  }

  lemma AttestedOnlyEmpty()
    ensures AttestedOnly([]) == []
  {}

  lemma AbsorbOneStripped(x: Params, bits: nat, st: DirState, l: Listing)
    requires AbsorbOne(x, bits, st, l).Ok?
    ensures (if l.IsAnon() then Ok(StripState(st)) else AbsorbOne(x, bits, StripState(st), l))
      == Ok(StripState(AbsorbOne(x, bits, st, l).value))
  {}

  lemma AbsorbSnoc(x: Params, bits: nat, st: DirState, ls: seq<Listing>, l: Listing)
    ensures Absorb(x, bits, st, ls + [l]) ==
      match Absorb(x, bits, st, ls) case Ok(t) => AbsorbOne(x, bits, t, l) case Err => Err
  {
    hide AbsorbOne;
    assert (ls + [l])[..|ls|] == ls;
  }

  lemma {:induction false} AbsorbStripped(x: Params, bits: nat, st: DirState, ls: seq<Listing>)
    requires Absorb(x, bits, st, ls).Ok?
    ensures Absorb(x, bits, StripState(st), AttestedOnly(ls)) == Ok(StripState(Absorb(x, bits, st, ls).value))
  {
    hide AbsorbOne, AttestedOnly;
    AttestedOnlyEmpty();
    if ls != [] {
      var n := |ls| - 1;
      AbsorbStripped(x, bits, st, ls[..n]);
      RestrictPrefix(ls);
      AbsorbSnoc(x, bits, StripState(st), AttestedOnly(ls[..n]), ls[n]);
      AbsorbOneStripped(x, bits, Absorb(x, bits, st, ls[..n]).value, ls[n]);
      assert AttestedOnly(ls[..n]) + [] == AttestedOnly(ls[..n]);
    }
  }

  lemma ApplyStripped(x: Params, st: DirState, d: DirDelta)
    requires Apply(x, st, d).Ok?
    ensures Apply(x, StripState(st), StripDelta(d)) == Ok(StripState(Apply(x, st, d).value))
  {
    hide Absorb;
    var latched := st.(powDifficulty := PowAfter(x, st, d.powDifficulty));
    AbsorbStripped(x, DifficultyBits(x.publisher, latched.powDifficulty), latched, d.listings);
  }

  ghost function Run(x: Params, st: DirState, ds: seq<DirDelta>): Result<DirState> {
    if ds == [] then Ok(st)
    else match Run(x, st, ds[..|ds| - 1])
      case Ok(t) => Apply(x, t, ds[|ds| - 1])
      case Err => Err
  }

  function StripRun(ds: seq<DirDelta>): seq<DirDelta> {
    if ds == [] then [] else StripRun(ds[..|ds| - 1]) + [StripDelta(ds[|ds| - 1])]
  }

  // Over any run of accepted deltas, from any state, the attested tier is what the same run
  // without its anonymous entries gives.
  lemma {:induction false} AttestedTierIsolated(x: Params, st: DirState, ds: seq<DirDelta>)
    requires Run(x, st, ds).Ok?
    ensures Run(x, StripState(st), StripRun(ds)) == Ok(StripState(Run(x, st, ds).value))
  {
    hide Apply;
    if ds != [] {
      var n := |ds| - 1;
      AttestedTierIsolated(x, st, ds[..n]);
      ApplyStripped(x, Run(x, st, ds[..n]).value, ds[n]);
      var front := StripRun(ds[..n]);
      assert (front + [StripDelta(ds[n])])[..|front|] == front;
    }
  }
}
