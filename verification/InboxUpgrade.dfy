// Anonymous-to-attested upgrades below the caps: however credential-and-pointer bundles
// arrive, an attested credential wins wherever one arrived and exactly the pointers that
// match the winning credentials remain. Stale pointers die by two different code paths,
// refused on arrival or swept by the cleanup; both lead to the same state.
module InboxUpgrade {
  import opened Basics
  import opened Pow
  import opened PointerLog
  import opened PointerVec
  import opened Inbox
  import opened InboxSync

  // What one client write carries: each pointer with the credential it was written under,
  // each credential with at least one such pointer.
  ghost predicate Bundle(x: Instance, bits: nat, d: InboxDelta) {
    && d.powDifficulty.None? && |CredsIn(d)| <= MAX_POINTERS
    && CredsOk(x, CredsIn(d)) && CredsIn(d).Keys <= Repliers(PointersIn(d))
    && (forall p :: p in PointersIn(d) ==> x.CheckPointer(p, CredsIn(d)) == Ok(true))
    && (forall p :: p in PointersIn(d) && p.IsAnon() ==> x.Stamped(p, bits))
  }

  ghost function AllPointers(ds: seq<InboxDelta>): set<Pointer> {
    if ds == [] then {} else AllPointers(ds[..|ds| - 1]) + ToSet(PointersIn(ds[|ds| - 1]))
  }

  ghost function AllKeys(ds: seq<InboxDelta>): set<Key> {
    if ds == [] then {} else AllKeys(ds[..|ds| - 1]) + CredsIn(ds[|ds| - 1]).Keys
  }

  // At most one attestation per posting key, and attestation hashes are not all-zero.
  ghost predicate OneAttestationPerKey(x: Instance, ds: seq<InboxDelta>) {
    forall d, e, k :: d in ds && e in ds && k in CredsIn(d) && k in CredsIn(e) ==>
      var c, c' := CredsIn(d)[k], CredsIn(e)[k];
      (c.attestation.Some? ==> x.CredHash(c) > 0 && (c'.attestation.Some? ==> c == c'))
  }

  ghost predicate BelowCaps(S: set<Pointer>) { UniqueIds(S) && Evict(S) == S }

  ghost predicate Traffic(x: Instance, bits: nat, ds: seq<InboxDelta>) {
    && (forall d :: d in ds ==> Bundle(x, bits, d))
    && OneAttestationPerKey(x, ds) && BelowCaps(AllPointers(ds))
  }

  ghost function ApplyAll(x: Instance, st: InboxState, ds: seq<InboxDelta>): Result<InboxState> {
    if ds == [] then Ok(st)
    else match ApplyAll(x, st, ds[..|ds| - 1])
      case Ok(before) => Apply(x, before, ds[|ds| - 1])
      case Err => Err
  }

  ghost predicate Sent(ds: seq<InboxDelta>, k: Key, c: Cred) {
    exists d :: d in ds && k in CredsIn(d) && CredsIn(d)[k] == c
  }

  // For every key ever sent, a credential of greatest hash among those sent for it.
  ghost predicate BestCreds(x: Instance, ds: seq<InboxDelta>, creds: map<Key, Cred>) {
    && (forall k :: k in creds ==> Sent(ds, k, creds[k]))
    && (forall d, k :: d in ds && k in CredsIn(d) ==> k in creds && x.CredHash(CredsIn(d)[k]) <= x.CredHash(creds[k]))
  }

  // The outcome, with no mention of order: the best credential for each key, and exactly
  // the pointers that match it.
  ghost predicate Settled(x: Instance, ds: seq<InboxDelta>, st: InboxState) {
    && BestCreds(x, ds, st.creds)
    && StrictlyAscending(st.pointers)
    && (forall p :: p in st.pointers <==> p in AllPointers(ds) && x.FpMatches(st.creds, p))
  }

  // ---- the outcome is unique and independent of order ----

  // Two sent credentials of one key are the same record once they look alike.
  lemma AlikeAreEqual(x: Instance, ds: seq<InboxDelta>, d: InboxDelta, e: InboxDelta, k: Key)
    requires OneAttestationPerKey(x, ds) && d in ds && e in ds && k in CredsIn(d) && k in CredsIn(e)
    requires x.CredOk(k, CredsIn(d)[k]) && x.CredOk(k, CredsIn(e)[k])
    requires x.CredHash(CredsIn(d)[k]) == x.CredHash(CredsIn(e)[k])
      || x.CredFingerprint(CredsIn(d)[k]) == x.CredFingerprint(CredsIn(e)[k])
    ensures CredsIn(d)[k] == CredsIn(e)[k]
  {
    hide CredsIn;
  }

  lemma SameBestCreds(x: Instance, ds: seq<InboxDelta>, a: map<Key, Cred>, b: map<Key, Cred>)
    requires OneAttestationPerKey(x, ds) && forall d :: d in ds ==> CredsOk(x, CredsIn(d))
    requires BestCreds(x, ds, a) && BestCreds(x, ds, b)
    ensures a == b
  {
    hide OneAttestationPerKey;
    forall k | k in a ensures k in b && a[k] == b[k] {
      assert Sent(ds, k, a[k]);
      assert k in b && Sent(ds, k, b[k]);
      var d :| d in ds && k in CredsIn(d) && CredsIn(d)[k] == a[k];
      var e :| e in ds && k in CredsIn(e) && CredsIn(e)[k] == b[k];
      AlikeAreEqual(x, ds, d, e, k);
    }
    forall k | k in b ensures k in a { assert Sent(ds, k, b[k]); }
  }

  lemma SameSettlement(x: Instance, bits: nat, ds: seq<InboxDelta>, a: InboxState, b: InboxState)
    requires Traffic(x, bits, ds) && Settled(x, ds, a) && Settled(x, ds, b)
    ensures a.creds == b.creds && a.pointers == b.pointers
  {
    hide BelowCaps, BestCreds, OneAttestationPerKey, StrictlyAscending;
    SameBestCreds(x, ds, a.creds, b.creds);
    assert ToSet(a.pointers) == ToSet(b.pointers);
    SortedListUnique(a.pointers, b.pointers);
  }

  lemma AllHolds(ds: seq<InboxDelta>, d: InboxDelta)
    requires d in ds
    ensures ToSet(PointersIn(d)) <= AllPointers(ds)
  {
    ToSetSnoc(ds);
    if d != ds[|ds| - 1] { AllHolds(ds[..|ds| - 1], d); }
  }

  lemma {:induction false} TotalsWithin(ds: seq<InboxDelta>, es: seq<InboxDelta>)
    requires forall d :: d in ds ==> d in es
    ensures AllPointers(ds) <= AllPointers(es)
  {
    if ds != [] {
      ToSetSnoc(ds);
      TotalsWithin(ds[..|ds| - 1], es);
      AllHolds(es, ds[|ds| - 1]);
    }
  }

  lemma SettledAnyOrder(x: Instance, ds: seq<InboxDelta>, es: seq<InboxDelta>, st: InboxState)
    requires ToSet(ds) == ToSet(es) && Settled(x, es, st)
    ensures Settled(x, ds, st)
  {
    hide StrictlyAscending;
    SameMembers(ds, es);
    TotalsWithin(ds, es);
    TotalsWithin(es, ds);
    forall k | k in st.creds ensures Sent(ds, k, st.creds[k]) {
      assert Sent(es, k, st.creds[k]);
    }
  }

  lemma SameMembers(ds: seq<InboxDelta>, es: seq<InboxDelta>)
    requires ToSet(ds) == ToSet(es)
    ensures forall d :: d in ds <==> d in es
  {
    assert forall d :: (d in ds <==> d in ToSet(ds)) && (d in es <==> d in ToSet(es));
  }

  // ---- one bundle ----

  lemma {:induction false} PointerSource(ds: seq<InboxDelta>, p: Pointer)
    requires p in AllPointers(ds)
    ensures exists d :: d in ds && p in PointersIn(d)
  {
    if ds != [] {
      ToSetSnoc(ds);
      var last := ds[|ds| - 1];
      if p in PointersIn(last) {
        assert last in ds;
      } else {
        PointerSource(ds[..|ds| - 1], p);
        var d :| d in ds[..|ds| - 1] && p in PointersIn(d);
        assert d in ds;
      }
    }
  }

  lemma TrafficBefore(x: Instance, bits: nat, ds: seq<InboxDelta>, d: InboxDelta)
    requires Traffic(x, bits, ds + [d])
    ensures Traffic(x, bits, ds) && Bundle(x, bits, d)
    ensures AllPointers(ds + [d]) == AllPointers(ds) + ToSet(PointersIn(d))
  {
    hide Bundle, Survives;
    assert (ds + [d])[..|ds|] == ds;
    assert forall e :: e in ds ==> e in ds + [d];
    assert d in ds + [d];
    PartBelowCaps(AllPointers(ds + [d]), AllPointers(ds));
  }

  lemma PartBelowCaps(S: set<Pointer>, part: set<Pointer>)
    requires BelowCaps(S) && part <= S
    ensures BelowCaps(part)
  {
    hide Survives;
    forall p | p in part ensures Survives(p, part) {
      assert p in Evict(S);
      SurvivalTightens(p, part, S);
    }
  }

  lemma BestCredsStep(x: Instance, ds: seq<InboxDelta>, d: InboxDelta, held: map<Key, Cred>)
    requires BestCreds(x, ds, held)
    ensures BestCreds(x, ds + [d], MergedCreds(x, held, CredsIn(d)))
  {
    var creds := MergedCreds(x, held, CredsIn(d));
    assert forall e :: e in ds + [d] <==> e in ds || e == d;
    forall k | k in creds ensures Sent(ds + [d], k, creds[k]) {
      if k in held && creds[k] == held[k] {
        assert Sent(ds, k, held[k]);
        var e :| e in ds && k in CredsIn(e) && CredsIn(e)[k] == held[k];
        assert e in ds + [d];
      } else {
        assert d in ds + [d];
      }
    }
  }

  lemma BundleArrives(x: Instance, bits: nat, st: InboxState, d: InboxDelta)
    requires Bundle(x, bits, d) && DifficultyBits(x.publisher, st.powDifficulty) == bits
    ensures AdmittedBy(x, st, d) == PointersIn(d) && PowAfter(x, st, d) == st.powDifficulty
    ensures VouchedBy(x, st, d) == CredsIn(d) && CredsAfter(x, st, d) == MergedCreds(x, st.creds, CredsIn(d))
  {
    hide CredsOk;
    var ps := PointersIn(d);
    assert AdmittedBy(x, st, d) == ps by {
      RestrictAll(ps, Admissible(x, ps, bits));
    }
    assert VouchedBy(x, st, d) == CredsIn(d);
  }

  lemma BundleNotRejected(x: Instance, bits: nat, st: InboxState, d: InboxDelta)
    requires Bundle(x, bits, d) && DifficultyBits(x.publisher, st.powDifficulty) == bits && CredsOk(x, st.creds)
    ensures !Rejected(x, st, d)
  {
    hide AdmittedBy, VouchedBy, CredsAfter, Accepted, Repliers;
    BundleArrives(x, bits, st, d);
    var creds := MergedCreds(x, st.creds, CredsIn(d));
    forall p | p in PointersIn(d) ensures x.CheckPointer(p, creds).Ok? {
      assert x.CredOk(p.ptr.replier, creds[p.ptr.replier]);
    }
  }

  lemma SentCredsOk(x: Instance, bits: nat, ds: seq<InboxDelta>, creds: map<Key, Cred>)
    requires Traffic(x, bits, ds) && BestCreds(x, ds, creds)
    ensures CredsOk(x, creds)
  {
    hide BelowCaps, OneAttestationPerKey;
    forall k | k in creds ensures x.CredOk(k, creds[k]) {
      assert Sent(ds, k, creds[k]);
      var e :| e in ds && k in CredsIn(e) && CredsIn(e)[k] == creds[k];
      assert Bundle(x, bits, e);
    }
  }

  lemma SentUnder(x: Instance, bits: nat, ds: seq<InboxDelta>, p: Pointer) returns (e: InboxDelta)
    requires (forall d :: d in ds ==> Bundle(x, bits, d)) && p in AllPointers(ds)
    ensures e in ds && p in PointersIn(e) && x.FpMatches(CredsIn(e), p) && CredsOk(x, CredsIn(e))
  {
    PointerSource(ds, p);
    e :| e in ds && p in PointersIn(e);
    assert Bundle(x, bits, e);
  }

  // A pointer that matches the best credential after a bundle also matched the one before:
  // it was sent under a credential of that very fingerprint.
  lemma MatchedBefore(x: Instance, bits: nat, ds: seq<InboxDelta>, d: InboxDelta, held: map<Key, Cred>, p: Pointer)
    requires Traffic(x, bits, ds) && Bundle(x, bits, d) && OneAttestationPerKey(x, ds + [d])
    requires BestCreds(x, ds, held) && p in AllPointers(ds)
    requires x.FpMatches(MergedCreds(x, held, CredsIn(d)), p)
    ensures x.FpMatches(held, p)
  {
    hide BelowCaps, OneAttestationPerKey, AllPointers, MergedCreds;
    var k := p.ptr.replier;
    var e := SentUnder(x, bits, ds, p);
    hide Bundle, PointersIn, CredsIn;
    assert e in ds + [d] && d in ds + [d];
    if k in CredsIn(d) && x.CredFingerprint(CredsIn(d)[k]) == p.ptr.fingerprint {
      assert CredsOk(x, CredsIn(d)) by { BundleCredsOk(x, bits, d); }
      AlikeAreEqual(x, ds + [d], d, e, k);
    }
    MatchSurvivesMerge(x, held, CredsIn(d), p, CredsIn(e)[k]);
  }

  lemma BundleCredsOk(x: Instance, bits: nat, d: InboxDelta)
    requires Bundle(x, bits, d)
    ensures CredsOk(x, CredsIn(d))
  {}

  lemma MatchSurvivesMerge(x: Instance, held: map<Key, Cred>, incoming: map<Key, Cred>, p: Pointer, sent: Cred)
    requires p.ptr.replier in held && x.CredHash(sent) <= x.CredHash(held[p.ptr.replier])
    requires p.ptr.replier in incoming && x.CredFingerprint(incoming[p.ptr.replier]) == p.ptr.fingerprint
      ==> incoming[p.ptr.replier] == sent
    requires x.FpMatches(MergedCreds(x, held, incoming), p)
    ensures x.FpMatches(held, p)
  {}

  lemma NewPointerAccepted(x: Instance, bits: nat, st: InboxState, d: InboxDelta, p: Pointer)
    requires Bundle(x, bits, d) && CredsOk(x, st.creds) && p in PointersIn(d)
    requires x.FpMatches(MergedCreds(x, st.creds, CredsIn(d)), p)
    ensures p in Accepted(x, MergedCreds(x, st.creds, CredsIn(d)), PointersIn(d))
  {}

  lemma CanonicalBelowCaps(s: seq<Pointer>, all: set<Pointer>)
    requires ToSet(s) <= all && BelowCaps(all)
    ensures StrictlyAscending(Canonical(s)) && forall p :: p in Canonical(s) <==> p in s
  {
    hide Survives, StrictlyAscending, Canonical;
    PartBelowCaps(all, ToSet(s));
    CanonicalIs(s);
    ReducedWhenUnique(s);
    assert forall p :: (p in s <==> p in ToSet(s)) && (p in Canonical(s) <==> p in ToSet(Canonical(s)));
  }

  // Before the cleanup the log holds every matching pointer ever sent, and none unsent.
  lemma PointersAfterBundle(x: Instance, bits: nat, ds: seq<InboxDelta>, st: InboxState, d: InboxDelta)
    requires Traffic(x, bits, ds + [d]) && Settled(x, ds, st)
    requires DifficultyBits(x.publisher, st.powDifficulty) == bits
    ensures ToSet(PointersAfter(x, st, d)) <= AllPointers(ds + [d])
    ensures forall p :: p in AllPointers(ds + [d]) && x.FpMatches(CredsAfter(x, st, d), p) ==>
      p in PointersAfter(x, st, d)
  {
    hide Canonical, BelowCaps, Bundle, OneAttestationPerKey, BestCreds, MergedCreds, StrictlyAscending;
    hide CredsAfter, AdmittedBy;
    TrafficBefore(x, bits, ds, d);
    SentCredsOk(x, bits, ds, st.creds);
    BundleArrives(x, bits, st, d);
    var creds, all := CredsAfter(x, st, d), AllPointers(ds + [d]);
    var merged := st.pointers + Accepted(x, creds, PointersIn(d));
    assert ToSet(merged) <= all;
    CanonicalBelowCaps(merged, all);
    forall p | p in all && x.FpMatches(creds, p) ensures p in PointersAfter(x, st, d) {
      if p in AllPointers(ds) {
        MatchedBefore(x, bits, ds, d, st.creds, p);
      } else {
        NewPointerAccepted(x, bits, st, d, p);
      }
    }
  }

  lemma EveryCredReferenced(x: Instance, bits: nat, ds: seq<InboxDelta>, creds: map<Key, Cred>, kept: seq<Pointer>)
    requires (forall d :: d in ds ==> Bundle(x, bits, d)) && BestCreds(x, ds, creds)
    requires forall p :: p in AllPointers(ds) && x.FpMatches(creds, p) ==> p in kept
    ensures Referenced(creds, kept) == creds
  {
    hide AllPointers;
    forall k | k in creds ensures k in Repliers(kept) {
      assert Sent(ds, k, creds[k]);
      var e :| e in ds && k in CredsIn(e) && CredsIn(e)[k] == creds[k];
      assert Bundle(x, bits, e) && k in Repliers(PointersIn(e));
      var p :| p in PointersIn(e) && p.ptr.replier == k;
      AllHolds(ds, e);
      assert p in ToSet(PointersIn(e));
    }
  }

  lemma BundleSettles(x: Instance, bits: nat, ds: seq<InboxDelta>, st: InboxState, d: InboxDelta)
    requires Traffic(x, bits, ds + [d]) && Settled(x, ds, st)
    requires DifficultyBits(x.publisher, st.powDifficulty) == bits
    ensures Apply(x, st, d).Ok? && Settled(x, ds + [d], Apply(x, st, d).value)
    ensures Apply(x, st, d).value.powDifficulty == st.powDifficulty
  {
    hide Canonical, BelowCaps, Bundle, OneAttestationPerKey, Rejected, CredsAfter, MergedCreds, AdmittedBy;
    hide BestCreds, StrictlyAscending, PointersAfter;
    TrafficBefore(x, bits, ds, d);
    SentCredsOk(x, bits, ds, st.creds);
    BundleArrives(x, bits, st, d);
    BundleNotRejected(x, bits, st, d);
    BestCredsStep(x, ds, d, st.creds);
    PointersAfterBundle(x, bits, ds, st, d);
    var all := AllPointers(ds + [d]);
    var after := InboxState(CredsAfter(x, st, d), PointersAfter(x, st, d), st.powDifficulty);
    assert forall p :: p in after.pointers ==> p in ToSet(after.pointers);
    CanonicalBelowCaps(Matching(x, after), all);
    EveryCredReferenced(x, bits, ds + [d], after.creds, Canonical(Matching(x, after)));
  }

  lemma {:induction false} RunSettles(x: Instance, st: InboxState, ds: seq<InboxDelta>)
    requires st.creds == map[] && st.pointers == []
    requires Traffic(x, DifficultyBits(x.publisher, st.powDifficulty), ds)
    ensures var end := ApplyAll(x, st, ds);
      end.Ok? && Settled(x, ds, end.value) && end.value.powDifficulty == st.powDifficulty
  {
    hide Traffic, Apply;
    if ds != [] {
      var n, bits := |ds| - 1, DifficultyBits(x.publisher, st.powDifficulty);
      ToSetSnoc(ds);
      TrafficBefore(x, bits, ds[..n], ds[n]);
      RunSettles(x, st, ds[..n]);
      BundleSettles(x, bits, ds[..n], ApplyAll(x, st, ds[..n]).value, ds[n]);
    }
  }

  lemma TrafficAnyOrder(x: Instance, bits: nat, ds: seq<InboxDelta>, es: seq<InboxDelta>)
    requires Traffic(x, bits, ds) && ToSet(ds) == ToSet(es)
    ensures Traffic(x, bits, es)
  {
    hide Bundle, BelowCaps;
    SameMembers(ds, es);
    TotalsWithin(ds, es);
    TotalsWithin(es, ds);
    assert AllPointers(ds) == AllPointers(es);
  }

  // Two replicas that receive the same bundles, in any orders and with any repetitions,
  // end in the same state: attested wherever an attestation arrived.
  lemma UpgradeOrderIndependence(x: Instance, st: InboxState, ds: seq<InboxDelta>, es: seq<InboxDelta>)
    requires st.creds == map[] && st.pointers == [] && ToSet(ds) == ToSet(es)
    requires Traffic(x, DifficultyBits(x.publisher, st.powDifficulty), ds)
    ensures ApplyAll(x, st, ds).Ok? && ApplyAll(x, st, es) == ApplyAll(x, st, ds)
  {
    hide Bundle, BelowCaps, Settled;
    var bits := DifficultyBits(x.publisher, st.powDifficulty);
    TrafficAnyOrder(x, bits, ds, es);
    RunSettles(x, st, ds);
    RunSettles(x, st, es);
    SettledAnyOrder(x, ds, es, ApplyAll(x, st, es).value);
    SameSettlement(x, bits, ds, ApplyAll(x, st, ds).value, ApplyAll(x, st, es).value);
  }

  // What the common outcome is: an attested credential wherever one was sent.
  lemma AttestedWins(x: Instance, bits: nat, ds: seq<InboxDelta>, st: InboxState, d: InboxDelta, k: Key)
    requires Traffic(x, bits, ds) && Settled(x, ds, st)
    requires d in ds && k in CredsIn(d) && CredsIn(d)[k].attestation.Some?
    ensures k in st.creds && st.creds[k] == CredsIn(d)[k]
  {
    hide BelowCaps, StrictlyAscending;
    assert Sent(ds, k, st.creds[k]);
    var e :| e in ds && k in CredsIn(e) && CredsIn(e)[k] == st.creds[k];
    assert st.creds[k].attestation.Some?;
  }

  // ---- at any fill level, when no key changes its credential ----

  // Bundles whose credentials are those of one book.
  ghost predicate SameBook(x: Instance, bits: nat, book: map<Key, Cred>, ds: seq<InboxDelta>) {
    && CredsOk(x, book) && UniqueIds(AllPointers(ds))
    && (forall d :: d in ds ==> Bundle(x, bits, d))
    && (forall d, k :: d in ds && k in CredsIn(d) ==> k in book && CredsIn(d)[k] == book[k])
  }

  lemma SameBookBefore(x: Instance, bits: nat, book: map<Key, Cred>, ds: seq<InboxDelta>, d: InboxDelta)
    requires SameBook(x, bits, book, ds + [d])
    ensures SameBook(x, bits, book, ds) && Bundle(x, bits, d)
    ensures forall k :: k in CredsIn(d) ==> k in book && CredsIn(d)[k] == book[k]
    ensures AllPointers(ds + [d]) == AllPointers(ds) + ToSet(PointersIn(d))
  {
    hide Bundle;
    assert (ds + [d])[..|ds|] == ds;
    assert forall e :: e in ds ==> e in ds + [d];
    assert d in ds + [d];
  }

  lemma BundleInBook(x: Instance, bits: nat, book: map<Key, Cred>, st: InboxState, d: InboxDelta)
    requires Bundle(x, bits, d) && POW_FLOOR_BITS <= bits == DifficultyBits(x.publisher, st.powDifficulty)
    requires forall k :: k in CredsIn(d) ==> k in book && CredsIn(d)[k] == book[k]
    ensures Fits(x, book, st, d) && Usable(st, d) == ToSet(PointersIn(d))
    ensures PowAfter(x, st, d) == st.powDifficulty
    ensures forall p :: p in PointersIn(d) ==> PointerOk(x, book, p)
  {}

  lemma {:induction false} BundlesInBookOk(x: Instance, bits: nat, book: map<Key, Cred>, ds: seq<InboxDelta>)
    requires SameBook(x, bits, book, ds) && POW_FLOOR_BITS <= bits
    ensures forall p :: p in AllPointers(ds) ==> PointerOk(x, book, p)
  {
    hide PointerOk, UniqueIds, CredsOk, AllPointers, Bundle;
    forall p | p in AllPointers(ds) ensures PointerOk(x, book, p) {
      PointerSource(ds, p);
      var d :| d in ds && p in PointersIn(d);
      SentInBook(x, bits, book, d, p);
    }
  }

  lemma SentInBook(x: Instance, bits: nat, book: map<Key, Cred>, d: InboxDelta, p: Pointer)
    requires Bundle(x, bits, d) && POW_FLOOR_BITS <= bits && p in PointersIn(d)
    requires forall k :: k in CredsIn(d) ==> k in book && CredsIn(d)[k] == book[k]
    ensures PointerOk(x, book, p)
  {}

  // Whatever was evicted on the way, the inbox is what the pointers sent leave.
  lemma {:induction false} FixedCredsReflect(x: Instance, st: InboxState, book: map<Key, Cred>, ds: seq<InboxDelta>)
    requires st.creds == map[] && st.pointers == []
    requires SameBook(x, DifficultyBits(x.publisher, st.powDifficulty), book, ds)
    ensures var end := ApplyAll(x, st, ds);
      && end.Ok? && Reflects(book, AllPointers(ds), end.value) && end.value.powDifficulty == st.powDifficulty
  {
    hide Apply, Bundle, Reflects, SameBook, Honest, Fits, Usable;
    var bits := DifficultyBits(x.publisher, st.powDifficulty);
    if ds == [] {
      NothingReflects(book, st);
    } else {
      var n := |ds| - 1;
      ToSetSnoc(ds);
      SameBookBefore(x, bits, book, ds[..n], ds[n]);
      FixedCredsReflect(x, st, book, ds[..n]);
      var before := ApplyAll(x, st, ds[..n]).value;
      BundleInBook(x, bits, book, before, ds[n]);
      SameBookHonest(x, bits, book, ds);
      HonestApply(x, book, AllPointers(ds[..n]), before, ds[n]);
    }
  }

  lemma SameBookHonest(x: Instance, bits: nat, book: map<Key, Cred>, ds: seq<InboxDelta>)
    requires SameBook(x, bits, book, ds) && POW_FLOOR_BITS <= bits
    ensures Honest(x, book, AllPointers(ds))
  {
    hide PointerOk, Bundle;
    BundlesInBookOk(x, bits, book, ds);
  }

  lemma NothingReflects(book: map<Key, Cred>, st: InboxState)
    requires st.creds == map[] && st.pointers == []
    ensures Reflects(book, {}, st)
  {
    hide Survives;
  }

  lemma SameBookAnyOrder(x: Instance, bits: nat, book: map<Key, Cred>, ds: seq<InboxDelta>, es: seq<InboxDelta>)
    requires SameBook(x, bits, book, ds) && ToSet(ds) == ToSet(es)
    ensures SameBook(x, bits, book, es) && AllPointers(es) == AllPointers(ds)
  {
    hide Bundle, UniqueIds, AllPointers;
    SameMembers(ds, es);
    TotalsWithin(ds, es);
    TotalsWithin(es, ds);
    assert AllPointers(es) == AllPointers(ds);
  }

  // So below, at and above every cap: the same bundles, in any order and with any repeats,
  // end in the same state as long as no key changes its credential.
  lemma FixedCredsAnyOrder(x: Instance, st: InboxState, book: map<Key, Cred>, ds: seq<InboxDelta>, es: seq<InboxDelta>)
    requires st.creds == map[] && st.pointers == [] && ToSet(ds) == ToSet(es)
    requires SameBook(x, DifficultyBits(x.publisher, st.powDifficulty), book, ds)
    ensures ApplyAll(x, st, ds).Ok? && ApplyAll(x, st, es) == ApplyAll(x, st, ds)
  {
    hide SameBook, Reflects, ApplyAll, AllPointers;
    SameBookAnyOrder(x, DifficultyBits(x.publisher, st.powDifficulty), book, ds, es);
    FixedCredsReflect(x, st, book, ds);
    FixedCredsReflect(x, st, book, es);
    SameReflection(book, AllPointers(ds), ApplyAll(x, st, ds).value, ApplyAll(x, st, es).value);
  }
}
