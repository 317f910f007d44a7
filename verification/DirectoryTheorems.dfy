// What the directory promises: deltas keep it valid, delta sync is full-state merge, merge
// is a join, and settled replicas stay silent.
module DirectoryTheorems {
  import opened Basics
  import opened Pow
  import opened ListingSet
  import opened Directory

  // ---- every Ok delta keeps a verified state verified ----

  // Everything seated has passed the full check and, if anonymous, the floor.
  ghost predicate AllChecked(x: Params, st: DirState) {
    && WellKeyed(st)
    && (forall k :: k in st.attested ==> x.Check(st.attested[k]))
    && (forall k :: k in st.anon ==> x.Check(st.anon[k]) && x.Stamped(st.anon[k], POW_FLOOR_BITS))
  }

  // Skipping the attestation check on a replay of the held attestation never seats an
  // unverified one.
  lemma AbsorbOneChecks(x: Params, bits: nat, st: DirState, l: Listing)
    requires AllChecked(x, st) && POW_FLOOR_BITS <= bits && AbsorbOne(x, bits, st, l).Ok?
    ensures AllChecked(x, AbsorbOne(x, bits, st, l).value)
    ensures AbsorbOne(x, bits, st, l).value.powDifficulty == st.powDifficulty
  {
    var t := AbsorbOne(x, bits, st, l).value;
    if t != st {
      assert x.Check(l);
    }
  }

  lemma {:induction false} AbsorbChecks(x: Params, bits: nat, st: DirState, ls: seq<Listing>)
    requires AllChecked(x, st) && POW_FLOOR_BITS <= bits && Absorb(x, bits, st, ls).Ok?
    ensures AllChecked(x, Absorb(x, bits, st, ls).value)
    ensures Absorb(x, bits, st, ls).value.powDifficulty == st.powDifficulty
  {
    hide AllChecked, AbsorbOne;
    if ls != [] {
      AbsorbChecks(x, bits, st, ls[..|ls| - 1]);
      AbsorbOneChecks(x, bits, Absorb(x, bits, st, ls[..|ls| - 1]).value, ls[|ls| - 1]);
    }
  }

  lemma ApplyKeepsVerified(x: Params, st: DirState, d: DirDelta)
    requires Verified(x, st) && Apply(x, st, d).Ok?
    ensures Verified(x, Apply(x, st, d).value)
  {
    hide Absorb;
    var latched := st.(powDifficulty := PowAfter(x, st, d.powDifficulty));
    var bits := DifficultyBits(x.publisher, latched.powDifficulty);
    AbsorbChecks(x, bits, latched, d.listings);
    var t := Absorb(x, bits, latched, d.listings).value;
    TrimmedVerifies(x, t);
  }

  lemma TrimmedVerifies(x: Params, t: DirState)
    requires AllChecked(x, t) && PowOk(x, t.powDifficulty)
    ensures Verified(x, Canonicalized(t))
  {
    hide TrimTo;
    CanonicalizedNewest(t);
  }

  // ---- the outcome of a delta as a set ----

  // The listings of a delta that the bar lets in.
  ghost function Cleared(x: Params, bits: nat, ls: seq<Listing>): set<Listing> {
    set l | l in ls && (l.IsAnon() ==> x.Stamped(l, bits))
  }

  lemma Superseded(h: Hasher, q: Listing, w: Listing, S: set<Listing>)
    requires w in S && w.SameSlot(q) && q.Lww(h).Lt(w.Lww(h))
    ensures !Keeps(h, q, S)
  {
    assert !w.Lww(h).Le(q.Lww(h));
  }

  lemma HeldOrNewer(x: Params, st: DirState, l: Listing, S: set<Listing>)
    requires WellKeyed(st) && Held(st, l).Some? && x.Lww(l).Le(x.Lww(Held(st, l).value))
    requires st.Listings() <= S && Distinct(x.hash, S) && l in S
    ensures l in st.Listings() || !Keeps(x.hash, l, S)
  {
    hide Keeps;
    var held := Held(st, l).value;
    InListings(st, held);
    if x.Lww(l) != x.Lww(held) { Superseded(x.hash, l, held, S); }
  }

  lemma SlotReplaced(x: Params, st: DirState, l: Listing)
    requires WellKeyed(st) && (Held(st, l).Some? ==> !x.Lww(l).Le(x.Lww(Held(st, l).value)))
    ensures var t := Admit(x, st, l);
      WellKeyed(t) && t.Listings() == st.Listings() + {l} - (if Held(st, l).Some? then {Held(st, l).value} else {})
  {
    var t := Admit(x, st, l);
    forall q ensures q in t.Listings() <==> q == l || (q in st.Listings() && Some(q) != Held(st, l)) {
      InListings(t, q);
      InListings(st, q);
    }
  }

  // Absorbing one listing, losers and under-bar ones included, is adding it to the set.
  lemma AbsorbOneIs(x: Params, bits: nat, st: DirState, l: Listing)
    requires WellKeyed(st) && AbsorbOne(x, bits, st, l).Ok? && Distinct(x.hash, st.Listings() + Cleared(x, bits, [l]))
    ensures var t := AbsorbOne(x, bits, st, l).value;
      && WellKeyed(t) && t.Listings() <= st.Listings() + Cleared(x, bits, [l])
      && Canon(x.hash, t.Listings()) == Canon(x.hash, st.Listings() + Cleared(x, bits, [l]))
  {
    hide Canon, Keeps, WellKeyed;
    var S, held := st.Listings() + Cleared(x, bits, [l]), Held(st, l);
    if held.Some? && x.Lww(l).Le(x.Lww(held.value)) {
      if l in S { HeldOrNewer(x, st, l, S); }
      CanonWithoutLosers(x.hash, S, S - st.Listings());
      assert S - (S - st.Listings()) == st.Listings();
    } else if l in Cleared(x, bits, [l]) {
      SlotReplaced(x, st, l);
      assert Cleared(x, bits, [l]) == {l};
      var out := if held.Some? then {held.value} else {};
      if held.Some? {
        HeldIs(st, l);
        assert x.Lww(held.value).Lt(x.Lww(l));
        Superseded(x.hash, held.value, l, S);
      }
      CanonWithoutLosers(x.hash, S, out);
    } else {
      assert S == st.Listings();
    }
  }

  lemma HeldIs(st: DirState, l: Listing)
    requires WellKeyed(st) && Held(st, l).Some?
    ensures Held(st, l).value in st.Listings() && Held(st, l).value.SameSlot(l)
  {
    InListings(st, Held(st, l).value);
  }

  lemma {:induction false} AbsorbIs(x: Params, bits: nat, st: DirState, ls: seq<Listing>)
    requires WellKeyed(st) && Absorb(x, bits, st, ls).Ok? && Distinct(x.hash, st.Listings() + Cleared(x, bits, ls))
    ensures var t := Absorb(x, bits, st, ls).value;
      && WellKeyed(t) && t.Listings() <= st.Listings() + Cleared(x, bits, ls)
      && Canon(x.hash, t.Listings()) == Canon(x.hash, st.Listings() + Cleared(x, bits, ls))
  {
    hide Canon, WellKeyed, AbsorbOne;
    if ls == [] {
      assert st.Listings() + Cleared(x, bits, ls) == st.Listings();
    } else {
      var n := |ls| - 1;
      ToSetSnoc(ls);
      var last := Cleared(x, bits, [ls[n]]);
      var before, all := st.Listings() + Cleared(x, bits, ls[..n]), st.Listings() + Cleared(x, bits, ls);
      assert all == before + last;
      AbsorbIs(x, bits, st, ls[..n]);
      var t := Absorb(x, bits, st, ls[..n]).value;
      AbsorbOneIs(x, bits, t, ls[n]);
      CanonAbsorbs(x.hash, t.Listings(), last);
      CanonAbsorbs(x.hash, before, last);
    }
  }

  // A state that holds exactly what a history of listings leaves.
  ghost predicate Reflects(h: Hasher, H: set<Listing>, st: DirState) {
    WellKeyed(st) && st.Listings() == Canon(h, H)
  }

  lemma SameReflection(h: Hasher, H: set<Listing>, a: DirState, b: DirState)
    requires Reflects(h, H, a) && Reflects(h, H, b)
    ensures a.attested == b.attested && a.anon == b.anon
  {
    hide Canon, WellKeyed;
    SameListingsSameTiers(a, b);
  }

  // The workhorse: an Ok delta adds its cleared listings to the history, whatever was evicted.
  lemma ApplyIs(x: Params, H: set<Listing>, st: DirState, d: DirDelta)
    requires Reflects(x.hash, H, st) && Apply(x, st, d).Ok?
    requires Distinct(x.hash, H + ToSet(d.listings))
    ensures var pow := PowAfter(x, st, d.powDifficulty);
      && Reflects(x.hash, H + Cleared(x, DifficultyBits(x.publisher, pow), d.listings), Apply(x, st, d).value)
      && Apply(x, st, d).value.powDifficulty == pow
  {
    hide Keeps, WellKeyed;
    var latched := st.(powDifficulty := PowAfter(x, st, d.powDifficulty));
    var bits := DifficultyBits(x.publisher, latched.powDifficulty);
    var cleared := Cleared(x, bits, d.listings);
    assert WellKeyed(latched) && latched.Listings() == st.Listings() by { RecordIrrelevant(st, latched); }
    assert cleared <= ToSet(d.listings) && st.Listings() <= H;
    AbsorbIs(x, bits, latched, d.listings);
    var t := Absorb(x, bits, latched, d.listings).value;
    AbsorbKeepsRecord(x, bits, latched, d.listings);
    CanonicalizedIs(x.hash, t);
    CanonAbsorbs(x.hash, H, cleared);
  }

  lemma RecordIrrelevant(a: DirState, b: DirState)
    requires a.attested == b.attested && a.anon == b.anon
    ensures a.Listings() == b.Listings() && (WellKeyed(a) <==> WellKeyed(b))
  {}

  lemma {:induction false} AbsorbKeepsRecord(x: Params, bits: nat, st: DirState, ls: seq<Listing>)
    requires Absorb(x, bits, st, ls).Ok?
    ensures Absorb(x, bits, st, ls).value.powDifficulty == st.powDifficulty
  {
    if ls != [] { AbsorbKeepsRecord(x, bits, st, ls[..|ls| - 1]); }
  }

  ghost predicate MayBeSeated(x: Params, bits: nat, l: Listing) {
    x.Check(l) && (l.IsAnon() ==> x.Stamped(l, bits))
  }

  lemma AbsorbOneOrigin(x: Params, bits: nat, st: DirState, l: Listing, q: Listing)
    requires AllChecked(x, st) && AbsorbOne(x, bits, st, l).Ok?
    requires q in AbsorbOne(x, bits, st, l).value.Listings() && q !in st.Listings()
    ensures q == l && MayBeSeated(x, bits, l)
  {
    if Held(st, l).None? || !x.Lww(l).Le(x.Lww(Held(st, l).value)) { SlotReplaced(x, st, l); }
  }

  lemma {:induction false} AbsorbOrigin(x: Params, bits: nat, st: DirState, ls: seq<Listing>, q: Listing)
    requires AllChecked(x, st) && POW_FLOOR_BITS <= bits && Absorb(x, bits, st, ls).Ok?
    requires q in Absorb(x, bits, st, ls).value.Listings() && q !in st.Listings()
    ensures q in ls && MayBeSeated(x, bits, q)
  {
    hide AllChecked, AbsorbOne, MayBeSeated, DirState.Listings;
    if ls != [] {
      var n := |ls| - 1;
      ToSetSnoc(ls);
      assert forall l :: l in ls <==> l in ls[..n] || l == ls[n];
      AbsorbChecks(x, bits, st, ls[..n]);
      var t := Absorb(x, bits, st, ls[..n]).value;
      if q in t.Listings() { AbsorbOrigin(x, bits, st, ls[..n], q); } else { AbsorbOneOrigin(x, bits, t, ls[n], q); }
    }
  }

  // Every listing a delta newly seats was in it and is signed; its attestation verifies for its
  // author, or, if it has none, its stamp has the bits latched by that very delta.
  lemma SeatedListingOrigin(x: Params, st: DirState, d: DirDelta, l: Listing)
    requires Verified(x, st) && Apply(x, st, d).Ok?
    requires l in Apply(x, st, d).value.Listings() && l !in st.Listings()
    ensures l in d.listings && x.listingSigned(l)
    ensures l.attestation.Some? ==> x.attestationOk(l.attestation.value, l.author)
    ensures l.attestation.None? ==>
      var bits := DifficultyBits(x.publisher, Apply(x, st, d).value.powDifficulty);
      LeadingZeroBits(x.powHash(l.author, l.powNonce)) >= bits
  {
    hide Absorb, NewerIn, WellKeyed;
    var latched := st.(powDifficulty := PowAfter(x, st, d.powDifficulty));
    var bits := DifficultyBits(x.publisher, latched.powDifficulty);
    assert WellKeyed(latched) by { RecordIrrelevant(st, latched); }
    AbsorbChecks(x, bits, latched, d.listings);
    AbsorbOrigin(x, bits, latched, d.listings, l);
  }

  // Listings that pass the full check are never fatal.
  lemma {:induction false} CheckedNeverFatal(x: Params, bits: nat, st: DirState, ls: seq<Listing>)
    requires forall l :: l in ls ==> x.Check(l)
    ensures Absorb(x, bits, st, ls).Ok?
  {
    if ls != [] {
      ToSetSnoc(ls);
      CheckedNeverFatal(x, bits, st, ls[..|ls| - 1]);
      assert x.Check(ls[|ls| - 1]);
    }
  }
}
