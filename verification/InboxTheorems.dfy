// What the inbox contract promises about its state: deltas keep it valid, summaries lose
// nothing, exchanges settle and converge.
module InboxTheorems {
  import opened Basics
  import opened Pow
  import opened PointerLog
  import opened PointerVec
  import opened Inbox

  // ---- every Ok delta keeps a verified state verified ----

  lemma InCanonical(s: seq<Pointer>, p: Pointer)
    requires p in Canonical(s)
    ensures p in s
  {
    CanonicalIs(s);
    assert p in ToSet(Canonical(s));
  }

  lemma AcceptedOrigin(x: Instance, st: InboxState, d: InboxDelta, p: Pointer)
    requires d.pointers.Some? && p in Accepted(x, CredsAfter(x, st, d), AdmittedBy(x, st, d))
    ensures p in d.pointers.value && p.ptr.owner == x.owner && p.ptr.replier in CredsAfter(x, st, d)
    ensures p.ptr.fingerprint.AnonFp? ==>
      LeadingZeroBits(x.powHash(x.owner, p.ptr.replier, p.powNonce)) >= DifficultyBits(x.publisher, PowAfter(x, st, d))
    ensures x.pointerSigned(CredsAfter(x, st, d)[p.ptr.replier].postingKey, p.ptr, p.signature)
    ensures p.ptr.fingerprint == x.CredFingerprint(CredsAfter(x, st, d)[p.ptr.replier])
  {
    hide CredsAfter, PowAfter;
  }

  // A pointer seated by a delta was in it, is bound to this inbox, signed under its credential,
  // carries that credential's fingerprint, and if anonymous has the bits the delta left as bar.
  lemma SeatedPointerOrigin(x: Instance, st: InboxState, d: InboxDelta, p: Pointer)
    requires Apply(x, st, d).Ok? && p in Apply(x, st, d).value.pointers && p !in st.pointers
    ensures
      var st' := Apply(x, st, d).value;
      && d.pointers.Some? && p in d.pointers.value
      && p.ptr.owner == x.owner && p.ptr.replier in st'.creds
      && (p.ptr.fingerprint.AnonFp? ==>
            LeadingZeroBits(x.powHash(x.owner, p.ptr.replier, p.powNonce))
              >= DifficultyBits(x.publisher, st'.powDifficulty))
      && var c := st'.creds[p.ptr.replier];
        && x.pointerSigned(c.postingKey, p.ptr, p.signature)
        && p.ptr.fingerprint == match c.attestation
          case Some(att) => GhostFp(x.attestationFp(att))
          case None => AnonFp(x.anonFp(c.postingKey))
  {
    hide Canonical, CredsAfter, AdmittedBy, Accepted, PowAfter, Rejected;
    var before := InboxState(CredsAfter(x, st, d), PointersAfter(x, st, d), PowAfter(x, st, d));
    InCanonical(Matching(x, before), p);
    assert d.pointers.Some?;
    InCanonical(st.pointers + Accepted(x, before.creds, AdmittedBy(x, st, d)), p);
    AcceptedOrigin(x, st, d, p);
    assert p.ptr.replier in Repliers(Canonical(Matching(x, before)));
  }

  // A pointer whose credential is neither held nor sent along is dropped, not refused.
  lemma MissingCredentialDrops(x: Instance, st: InboxState, d: InboxDelta, p: Pointer)
    requires Verified(x, st) && p.ptr.replier !in st.creds && p.ptr.replier !in CredsIn(d)
    ensures Apply(x, st, d).Ok? ==> p !in Apply(x, st, d).value.pointers
    ensures p.ptr.owner == x.owner ==> x.CheckPointer(p, CredsAfter(x, st, d)) == Ok(false)
  {
    hide Canonical;
    var before := InboxState(CredsAfter(x, st, d), PointersAfter(x, st, d), PowAfter(x, st, d));
    if p in Canonical(Matching(x, before)) { InCanonical(Matching(x, before), p); }
  }

  // An accepted pointer takes its reply post from any later-timed one, whatever their tiers:
  // the lowest order key represents a reply post.
  lemma EarlierReuseDisplaces(x: Instance, st: InboxState, d: InboxDelta, a: Pointer, q: Pointer)
    requires d.pointers.Some? && Apply(x, st, d).Ok?
    requires q in Accepted(x, CredsAfter(x, st, d), AdmittedBy(x, st, d))
    requires a.Id() == q.Id() && q.ptr.time < a.ptr.time
    ensures a !in Apply(x, st, d).value.pointers
  {
    var merged := st.pointers + Accepted(x, CredsAfter(x, st, d), AdmittedBy(x, st, d));
    var before := InboxState(CredsAfter(x, st, d), PointersAfter(x, st, d), PowAfter(x, st, d));
    LaterTimedLoses(merged, a, q);
    hide Canonical, Accepted, CredsAfter, AdmittedBy;
    if a in Canonical(Matching(x, before)) { InCanonical(Matching(x, before), a); }
  }

  lemma LaterTimedLoses(s: seq<Pointer>, a: Pointer, q: Pointer)
    requires q in s && a.Id() == q.Id() && q.ptr.time < a.ptr.time
    ensures a !in Canonical(s)
  {
    hide Survives, Canonical;
    CanonicalIs(s);
    assert a in Canonical(s) ==> a in ToSet(Canonical(s));
  }

  lemma CanonicalWithinCaps(s: seq<Pointer>)
    ensures var c := Canonical(s); Ascending(c) && DistinctIds(c) && WithinCaps(c) && |c| <= MAX_POINTERS
  {
    hide Canonical, Survives;
    CanonicalIs(s);
    EvictIdempotent(Reduced(s));
    SeatedIsWithinCaps(Canonical(s));
  }

  lemma OnlyOwnCredMatters(x: Instance, a: map<Key, Cred>, b: map<Key, Cred>, p: Pointer)
    requires PointerOk(x, a, p) && p.ptr.replier in a && p.ptr.replier in b && a[p.ptr.replier] == b[p.ptr.replier]
    ensures PointerOk(x, b, p)
  {}

  lemma CleanupVerifies(x: Instance, st: InboxState)
    requires PowOk(x, st.powDifficulty) && CredsOk(x, st.creds)
    requires forall p :: p in st.pointers && x.FpMatches(st.creds, p) ==> PointerOk(x, st.creds, p)
    ensures Verified(x, Cleanup(x, st))
  {
    hide Canonical, Evict, StrictlyAscending, PointerOk;
    var kept := Canonical(Matching(x, st));
    var creds := Referenced(st.creds, kept);
    CanonicalIs(Matching(x, st));
    EvictIdempotent(Reduced(Matching(x, st)));
    assert Ascending(kept) && DistinctIds(kept) && WithinCaps(kept) && |kept| <= MAX_POINTERS by {
      CanonicalWithinCaps(Matching(x, st));
    }
    ReferencedCount(creds, kept);
    hide Ascending, DistinctIds, WithinCaps;
    forall p | p in kept ensures PointerOk(x, creds, p) {
      InCanonical(Matching(x, st), p);
      assert p.ptr.replier in Repliers(kept);
      OnlyOwnCredMatters(x, st.creds, creds, p);
    }
  }

  // Soundness of what is seated, without the caps.
  ghost predicate Sound(x: Instance, st: InboxState) {
    && PowOk(x, st.powDifficulty) && CredsOk(x, st.creds)
    && forall p :: p in st.pointers ==> PointerOk(x, st.creds, p)
  }

  lemma NewPointerOk(x: Instance, st: InboxState, d: InboxDelta, p: Pointer)
    requires p in Accepted(x, CredsAfter(x, st, d), AdmittedBy(x, st, d))
    ensures PointerOk(x, CredsAfter(x, st, d), p)
  {
    hide CredsAfter;
  }

  // A held pointer that still matches is still signed: both credentials are for its replier.
  lemma HeldPointerOk(x: Instance, before: map<Key, Cred>, after: map<Key, Cred>, p: Pointer)
    requires PointerOk(x, before, p) && CredsOk(x, before) && CredsOk(x, after) && x.FpMatches(after, p)
    ensures PointerOk(x, after, p)
  {
    assert x.CredOk(p.ptr.replier, before[p.ptr.replier]) && x.CredOk(p.ptr.replier, after[p.ptr.replier]);
  }

  lemma MergedCredsOk(x: Instance, st: InboxState, d: InboxDelta)
    requires CredsOk(x, st.creds) && WinnersOk(x, st.creds, VouchedBy(x, st, d))
    ensures CredsOk(x, CredsAfter(x, st, d))
  {
    hide VouchedBy, Instance.CredOk;
  }

  // Every Ok delta, however fabricated, turns a sound state into a verified one.
  lemma ApplyVerifies(x: Instance, st: InboxState, d: InboxDelta)
    requires Sound(x, st) && Apply(x, st, d).Ok?
    ensures Verified(x, Apply(x, st, d).value)
  {
    hide Canonical, Evict, PointerOk, CredsAfter, AdmittedBy, VouchedBy, Accepted, CredsOk, Instance.FpMatches;
    var before := InboxState(CredsAfter(x, st, d), PointersAfter(x, st, d), PowAfter(x, st, d));
    MergedCredsOk(x, st, d);
    forall p | p in before.pointers && x.FpMatches(before.creds, p) ensures PointerOk(x, before.creds, p) {
      if p in st.pointers {
        HeldPointerOk(x, st.creds, before.creds, p);
      } else {
        InCanonical(st.pointers + Accepted(x, CredsAfter(x, st, d), AdmittedBy(x, st, d)), p);
        NewPointerOk(x, st, d, p);
      }
    }
    CleanupVerifies(x, before);
  }

  lemma VerifiedIsSound(x: Instance, st: InboxState)
    requires Verified(x, st)
    ensures Sound(x, st)
  {}

  lemma ApplyKeepsVerified(x: Instance, st: InboxState, d: InboxDelta)
    requires Verified(x, st) && Apply(x, st, d).Ok?
    ensures Verified(x, Apply(x, st, d).value)
  {
    hide Verified, Sound, Apply;
    VerifiedIsSound(x, st);
    ApplyVerifies(x, st, d);
  }

  lemma ReferencedCount(creds: map<Key, Cred>, s: seq<Pointer>)
    requires creds.Keys <= Repliers(s)
    ensures |creds| <= |s|
  {
    RepliersCount(s);
    SubsetCard(creds.Keys, Repliers(s));
  }

  lemma {:induction false} RepliersCount(s: seq<Pointer>)
    ensures |Repliers(s)| <= |s|
  {
    if s != [] {
      var n := |s| - 1;
      ToSetSnoc(s);
      RepliersCount(s[..n]);
      assert Repliers(s) == Repliers(s[..n]) + {s[n].ptr.replier};
    }
  }

  lemma AllMatch(x: Instance, st: InboxState)
    requires Verified(x, st)
    ensures Matching(x, st) == st.pointers
  {
    forall p | p in st.pointers ensures x.FpMatches(st.creds, p) {
      assert PointerOk(x, st.creds, p);
    }
    RestrictAll(st.pointers, Matched(x, st));
  }

  lemma VerifiedIsCanonical(x: Instance, st: InboxState)
    requires Verified(x, st)
    ensures Canonical(st.pointers) == st.pointers
  {
    hide Canonical;
    VerifiedIsSeated(st.pointers);
    CanonicalFixpoint(st.pointers);
  }

  // Every verified state is a fixpoint of the cleanup each delta ends with.
  lemma VerifiedIsFixpoint(x: Instance, st: InboxState)
    requires Verified(x, st)
    ensures Cleanup(x, st) == st
  {
    hide Canonical;
    AllMatch(x, st);
    VerifiedIsCanonical(x, st);
  }

  // ---- running the cleanup again ----

  lemma KeptStillMatch(x: Instance, st: InboxState)
    ensures Matching(x, Cleanup(x, st)) == Cleanup(x, st).pointers
  {
    hide Canonical;
    var end := Cleanup(x, st);
    forall p | p in end.pointers ensures x.FpMatches(end.creds, p) {
      InCanonical(Matching(x, st), p);
      assert p.ptr.replier in Repliers(end.pointers);
    }
    RestrictAll(end.pointers, Matched(x, end));
  }

  // The cleanup is idempotent on every state, valid or not.
  lemma CleanupIdempotent(x: Instance, st: InboxState)
    ensures Cleanup(x, Cleanup(x, st)) == Cleanup(x, st)
  {
    hide Canonical, Matching;
    KeptStillMatch(x, st);
    CanonicalIdempotent(Matching(x, st));
  }
}
