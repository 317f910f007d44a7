// The directory in plain terms. What each operation does is stated here once more, from
// fields, comparisons and numbers alone, and proved to be what its specification says.
module DirectoryReference {
  import opened Basics
  import opened Pow
  import opened ListingSet
  import opened Directory
  import opened DirectoryTheorems
  import opened DirectorySync

  // ---- which listings stay ----

  // Of one author's listings in one tier, the latest, by content hash if several are as late.
  ghost predicate Older(h: Hasher, q: Listing, l: Listing) {
    q.lastActive < l.lastActive || (q.lastActive == l.lastActive && h(q) < h(l))
  }

  ghost predicate Latest(h: Hasher, l: Listing, H: set<Listing>) {
    forall q :: q in H && q.author == l.author && q.attestation.None? == l.attestation.None? ==> !Older(h, l, q)
  }

  ghost function NewerAuthors(l: Listing, H: set<Listing>): set<Key> {
    set q | q in H && q.attestation.None? == l.attestation.None?
      && (l.lastActive < q.lastActive || (l.lastActive == q.lastActive && l.author < q.author)) :: q.author
  }

  // At most 1000 attested authors stay, and at most 250 anonymous ones beside them, 1000 in
  // all, the most recently active first.
  ghost predicate HasRoom(l: Listing, H: set<Listing>) {
    var newer := |NewerAuthors(l, H)|;
    if l.attestation.Some? then newer < 1000
    else newer < 250 && newer + |set q | q in H && q.attestation.Some? :: q.author| < 1000
  }

  lemma RoomIsRank(l: Listing, H: set<Listing>)
    ensures NewerAuthors(l, H) == Ahead(l, H)
    ensures HasRoom(l, H) <==> |Ahead(l, H)| < TierShare(l, H)
  {
    assert AttestedAuthors(H) == set q | q in H && q.attestation.Some? :: q.author;
  }

  // The whole of eviction.
  lemma CanonExactly(h: Hasher, H: set<Listing>, l: Listing)
    ensures l in Canon(h, H) <==> l in H && Latest(h, l, H) && HasRoom(l, H)
  {
    hide HasRoom;
    RoomIsRank(l, H);
    assert Latest(h, l, H) <==> SlotBest(h, l, H);
  }

  // ---- the listing shown ----

  // Of an author's listings the most recently active is shown, the attested one on a tie.
  lemma WinnerExactly(x: Params, st: DirState, author: Key)
    requires WellKeyed(st)
    ensures Winner(x, st, author) == None <==> forall l :: l in st.Listings() ==> l.author != author
    ensures forall w :: Winner(x, st, author) == Some(w) ==>
      && w in st.Listings() && w.author == author
      && forall q :: q in st.Listings() && q.author == author && q != w ==>
        q.lastActive < w.lastActive || (q.lastActive == w.lastActive && w.attestation.Some? && q.attestation.None?)
  {
    hide DirState.Listings;
    if author in st.attested { InListings(st, st.attested[author]); }
    if author in st.anon { InListings(st, st.anon[author]); }
    forall l | l in st.Listings() && l.author == author
      ensures l.author in st.TierFor(l) && st.TierFor(l)[author] == l
    {
      InListings(st, l);
    }
  }

  // ---- validity ----

  ghost predicate Checks(x: Params, l: Listing) {
    x.listingSigned(l) && (l.attestation.Some? ==> x.attestationOk(l.attestation.value, l.author))
  }

  // Anonymous listings need the bits; attested ones need none.
  ghost predicate Stamps(x: Params, bits: nat, l: Listing) {
    l.attestation.None? ==> LeadingZeroBits(x.powHash(l.author, l.powNonce)) >= bits
  }

  // What full-state validation accepts.
  lemma VerifiedExactly(x: Params, st: DirState)
    ensures Verified(x, st) <==>
      && (st.powDifficulty.Some? ==>
            x.publisher(st.powDifficulty.value) && |st.powDifficulty.value.body| <= 65_536)
      && |st.attested| <= 1000 && |st.anon| <= 250 && |st.attested| + |st.anon| <= 1000
      && (forall k :: k in st.attested ==>
            st.attested[k].author == k && st.attested[k].attestation.Some? && Checks(x, st.attested[k]))
      && (forall k :: k in st.anon ==>
            && st.anon[k].author == k && st.anon[k].attestation.None?
            && Checks(x, st.anon[k]) && Stamps(x, 20, st.anon[k]))
  {}

  // ---- one delta ----

  ghost predicate SameSlot(q: Listing, l: Listing) {
    q.author == l.author && q.attestation.None? == l.attestation.None?
  }

  ghost function Taken(x: Params, bits: nat, ls: seq<Listing>): set<Listing> {
    set l | l in ls && Stamps(x, bits, l)
  }

  // A has a listing of l's slot that is at least as late.
  ghost predicate Beaten(h: Hasher, A: set<Listing>, l: Listing) {
    exists q :: q in A && SameSlot(q, l) && !Older(h, q, l)
  }

  // The listing held in l's slot is the latest there is in A.
  ghost predicate HolderIsLatest(h: Hasher, A: set<Listing>, t: DirState, l: Listing) {
    match Held(t, l)
    case None => forall q :: q in A ==> !SameSlot(q, l)
    case Some(w) => w in A && SameSlot(w, l) && forall q :: q in A && SameSlot(q, l) ==> !Older(h, w, q)
  }

  lemma HeldBeats(x: Params, A: set<Listing>, t: DirState, l: Listing)
    requires HolderIsLatest(x.hash, A, t, l)
    ensures Beaten(x.hash, A, l) <==> Held(t, l).Some? && x.Lww(l).Le(x.Lww(Held(t, l).value))
  {}

  lemma HeldIsChecked(x: Params, t: DirState, l: Listing)
    requires AllChecked(x, t)
    ensures x.CheckSkipping(l, if Held(t, l).Some? then Held(t, l).value.attestation else None) <==> Checks(x, l)
  {}

  lemma HolderStep(x: Params, bits: nat, A: set<Listing>, t: DirState, v: Listing, l: Listing)
    requires WellKeyed(t) && HolderIsLatest(x.hash, A, t, l) && HolderIsLatest(x.hash, A, t, v)
    requires AbsorbOne(x, bits, t, v).Ok?
    ensures HolderIsLatest(x.hash, A + Taken(x, bits, [v]), AbsorbOne(x, bits, t, v).value, l)
  {
    HeldBeats(x, A, t, v);
  }

  lemma StartHolds(h: Hasher, st: DirState, l: Listing)
    requires WellKeyed(st)
    ensures HolderIsLatest(h, st.Listings(), st, l)
  {
    if Held(st, l).Some? { InListings(st, Held(st, l).value); }
    forall q | q in st.Listings() && SameSlot(q, l) ensures Held(st, l) == Some(q) { InListings(st, q); }
  }

  // Listing i is sound, or comes too late to matter.
  ghost predicate FineAt(x: Params, bits: nat, st: DirState, ls: seq<Listing>, i: nat)
    requires i < |ls|
  {
    Checks(x, ls[i]) || Beaten(x.hash, st.Listings() + Taken(x, bits, ls[..i]), ls[i])
  }

  lemma {:induction false} AbsorbExactly(x: Params, bits: nat, st: DirState, ls: seq<Listing>)
    requires AllChecked(x, st) && 20 <= bits
    ensures Absorb(x, bits, st, ls).Ok? <==> forall i :: 0 <= i < |ls| ==> FineAt(x, bits, st, ls, i)
    ensures Absorb(x, bits, st, ls).Ok? ==>
      forall l :: HolderIsLatest(x.hash, st.Listings() + Taken(x, bits, ls), Absorb(x, bits, st, ls).value, l)
  {
    hide AllChecked, AbsorbOne, HolderIsLatest, FineAt;
    if ls == [] {
      assert st.Listings() + Taken(x, bits, ls) == st.Listings();
      CheckedIsKeyed(x, st);
      forall l ensures HolderIsLatest(x.hash, st.Listings(), st, l) { StartHolds(x.hash, st, l); }
    } else {
      var n := |ls| - 1;
      assert ls == ls[..n] + [ls[n]];
      AbsorbExactly(x, bits, st, ls[..n]);
      forall i | 0 <= i < n ensures FineAt(x, bits, st, ls, i) <==> FineAt(x, bits, st, ls[..n], i) {
        SameFine(x, bits, st, ls, n, i);
      }
      if Absorb(x, bits, st, ls[..n]).Ok? {
        LastExactly(x, bits, st, ls[..n], ls[n], Absorb(x, bits, st, ls[..n]).value);
      }
    }
  }

  lemma CheckedIsKeyed(x: Params, st: DirState)
    requires AllChecked(x, st)
    ensures WellKeyed(st)
  {}

  lemma SameFine(x: Params, bits: nat, st: DirState, ls: seq<Listing>, n: nat, i: nat)
    requires i < n <= |ls|
    ensures FineAt(x, bits, st, ls, i) <==> FineAt(x, bits, st, ls[..n], i)
  {
    assert ls[..n][..i] == ls[..i];
  }

  lemma LastExactly(x: Params, bits: nat, st: DirState, front: seq<Listing>, v: Listing, t: DirState)
    requires AllChecked(x, st) && 20 <= bits && Absorb(x, bits, st, front) == Ok(t)
    requires forall l :: HolderIsLatest(x.hash, st.Listings() + Taken(x, bits, front), t, l)
    ensures AbsorbOne(x, bits, t, v).Ok? <==> FineAt(x, bits, st, front + [v], |front|)
    ensures AbsorbOne(x, bits, t, v).Ok? ==>
      forall l :: HolderIsLatest(x.hash, st.Listings() + Taken(x, bits, front + [v]), AbsorbOne(x, bits, t, v).value, l)
  {
    hide AllChecked, HolderIsLatest, Beaten, Checks, WellKeyed;
    var A := st.Listings() + Taken(x, bits, front);
    AbsorbChecks(x, bits, st, front);
    HeldIsChecked(x, t, v);
    HeldBeats(x, A, t, v);
    CheckedIsKeyed(x, t);
    assert (front + [v])[..|front|] == front;
    assert st.Listings() + Taken(x, bits, front + [v]) == A + Taken(x, bits, [v]);
    if AbsorbOne(x, bits, t, v).Ok? {
      forall l ensures HolderIsLatest(x.hash, A + Taken(x, bits, [v]), AbsorbOne(x, bits, t, v).value, l) {
        HolderStep(x, bits, A, t, v, l);
      }
    }
  }

  // A delta is accepted by a valid directory exactly when it is short enough and each listing
  // in it is sound, or is beaten by one held or accepted before it.
  lemma AcceptedExactly(x: Params, st: DirState, d: DirDelta)
    requires Verified(x, st)
    ensures Apply(x, st, d).Ok? <==>
      var bits := DifficultyBits(x.publisher, Adopt(x.publisher, st.powDifficulty, d.powDifficulty));
      |d.listings| <= 1250 && forall i :: 0 <= i < |d.listings| ==> FineAt(x, bits, st, d.listings, i)
  {
    hide FineAt, Absorb, Canonicalized, DirState.Listings;
    var latched := st.(powDifficulty := PowAfter(x, st, d.powDifficulty));
    var bits := DifficultyBits(x.publisher, latched.powDifficulty);
    AbsorbExactly(x, bits, latched, d.listings);
    forall i | 0 <= i < |d.listings|
      ensures FineAt(x, bits, latched, d.listings, i) <==> FineAt(x, bits, st, d.listings, i)
    {
      FineWhateverRecord(x, bits, latched, st, d.listings, i);
    }
  }

  lemma FineWhateverRecord(x: Params, bits: nat, a: DirState, b: DirState, ls: seq<Listing>, i: nat)
    requires a.attested == b.attested && a.anon == b.anon && i < |ls|
    ensures FineAt(x, bits, a, ls, i) <==> FineAt(x, bits, b, ls, i)
  {
    RecordIrrelevant(a, b);
  }

  // What an accepted delta leaves: of everything held or sent with a good enough stamp, the
  // latest of each author in each tier, as far as there is room; and the newer record.
  lemma AppliedExactly(x: Params, st: DirState, d: DirDelta)
    requires Verified(x, st) && Apply(x, st, d).Ok? && Distinct(x.hash, st.Listings() + ToSet(d.listings))
    ensures
      var end := Apply(x, st, d).value;
      var all := st.Listings() + Taken(x, DifficultyBits(x.publisher, end.powDifficulty), d.listings);
      && (forall l :: l in end.Listings() <==> l in all && Latest(x.hash, l, all) && HasRoom(l, all))
      && end.powDifficulty == Adopt(x.publisher, st.powDifficulty, d.powDifficulty)
  {
    hide Canon, Verified, Apply, WellKeyed, Latest, HasRoom, Distinct, DirState.Listings;
    VerifiedIsTrimmed(x, st);
    ApplyIs(x, st.Listings(), st, d);
    var bits := DifficultyBits(x.publisher, Apply(x, st, d).value.powDifficulty);
    var all := st.Listings() + Taken(x, bits, d.listings);
    assert Taken(x, bits, d.listings) == Cleared(x, bits, d.listings);
    forall l ensures l in Canon(x.hash, all) <==> l in all && Latest(x.hash, l, all) && HasRoom(l, all) {
      CanonExactly(x.hash, all, l);
    }
  }

  // ---- one answer ----

  // r holds an older listing in l's slot, or none, and has room for its author.
  ghost predicate Lacks(h: Hasher, r: DirState, l: Listing) {
    var tier := if l.attestation.None? then r.anon else r.attested;
    if l.author in tier then Older(h, tier[l.author], l) else HasRoom(l, r.Listings())
  }

  // A sort key that a horizon lets through.
  ghost predicate Above(horizon: TierHorizon, time: u64, author: Key) {
    match horizon
    case Open => true
    case OldestRetained(o) => o.time < time || (o.time == time && o.tie < author)
    case Closed => false
  }

  // What a summary says is held is older than l.
  ghost predicate Outdated(held: LwwKey, h: Hasher, l: Listing) {
    || held.time < l.lastActive
    || (held.time == l.lastActive && !held.attested && l.attestation.Some?)
    || (held.time == l.lastActive && held.attested == l.attestation.Some? && held.hash < h(l))
  }

  // Summary theirs, stale or fabricated as it may be, asks for l.
  ghost predicate AsksFor(h: Hasher, theirs: DirSummary, l: Listing) {
    var held := if l.attestation.None? then theirs.anon else theirs.attested;
    var horizon := if l.attestation.None? then theirs.anonHorizon else theirs.attestedHorizon;
    if l.author in held then Outdated(held[l.author], h, l) else Above(horizon, l.lastActive, l.author)
  }

  lemma OfferedToAny(x: Params, s: DirState, theirs: DirSummary, l: Listing)
    ensures l in Offered(x, s, theirs) <==> l in s.Listings() && AsksFor(x.hash, theirs, l)
  {
    hide Offered, DirState.Listings;
    OfferedAre(x, s, theirs);
    assert l in Offered(x, s, theirs) <==> l in ToSet(Offered(x, s, theirs));
  }

  lemma WantedExactly(x: Params, r: DirState, l: Listing)
    requires Verified(x, r)
    ensures Wanted(x, Summary(x, r), l) <==> Lacks(x.hash, r, l)
  {
    hide HasRoom, Trimmed, DirState.Listings, Horizon;
    VerifiedIsTrimmed(x, r);
    if l.author !in r.TierFor(l) {
      HorizonIsRank(x.hash, r, l);
      RoomIsRank(l, r.Listings());
      NewSlot(x, r, l);
    }
  }

  ghost predicate Newer(s: DirState, r: DirState) {
    s.powDifficulty.Some? && s.powDifficulty.value.seqNo > match r.powDifficulty
      case Some(held) => held.seqNo
      case None => 0
  }

  // The whole of delta and summarize: which listings, which record, and that silence means
  // neither.
  lemma DeltaExactly(x: Params, r: DirState, s: DirState)
    requires Verified(x, r)
    ensures
      var d := Delta(x, s, Summary(x, r));
      && (d.None? ==> !Newer(s, r) && forall l :: l in s.Listings() ==> !Lacks(x.hash, r, l))
      && (d.Some? ==> Newer(s, r) || d.value.listings != [])
      && (d.Some? ==> forall l :: l in d.value.listings <==> l in s.Listings() && Lacks(x.hash, r, l))
      && (d.Some? ==> d.value.powDifficulty == if Newer(s, r) then s.powDifficulty else None)
  {
    hide Lacks, Wanted, Verified, Offered, Horizon, DirState.Listings;
    var o := Offered(x, s, Summary(x, r));
    OfferedAre(x, s, Summary(x, r));
    forall l ensures l in o <==> l in s.Listings() && Lacks(x.hash, r, l) {
      WantedExactly(x, r, l);
      assert l in o <==> l in ToSet(o);
    }
  }
}
