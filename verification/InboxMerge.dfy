// Merging any two valid inboxes, whatever credentials they hold for the same keys.
module InboxMerge {
  import opened Basics
  import opened Pow
  import opened PointerLog
  import opened PointerVec
  import opened Inbox
  import opened InboxTheorems
  import opened InboxSync
  import opened InboxUpgrade
  import opened InboxReference

  lemma CredsCheck(x: Instance, st: InboxState)
    requires Verified(x, st)
    ensures |st.creds| <= 300 && forall k :: k in st.creds ==> CredChecks(x, k, st.creds[k])
  {
    hide WithinLimits;
    VerifiedExactly(x, st);
  }

  lemma PointersCheck(x: Instance, st: InboxState)
    requires Verified(x, st)
    ensures forall p :: p in st.pointers ==> PointerChecks(x, st.creds, p)
  {
    hide WithinLimits;
    VerifiedExactly(x, st);
  }

  lemma CredHasPointer(x: Instance, st: InboxState, k: Key) returns (p: Pointer)
    requires Verified(x, st) && k in st.creds
    ensures p in st.pointers && p.ptr.replier == k
  {
    hide WithinLimits;
    VerifiedExactly(x, st);
    p :| p in st.pointers && p.ptr.replier == k;
  }

  lemma SignedUnderItsKey(x: Instance, s: InboxState, p: Pointer, creds: map<Key, Cred>)
    requires Verified(x, s) && p in s.pointers
    requires p.ptr.replier in creds ==> creds[p.ptr.replier].postingKey == p.ptr.replier
    ensures !ForeignOrForged(x, creds, p)
  {
    hide Verified;
    CredsCheck(x, s);
    PointersCheck(x, s);
    assert CredChecks(x, p.ptr.replier, s.creds[p.ptr.replier]);
  }

  lemma OwnKeys(x: Instance, bits: nat, r: InboxState, s: InboxState, d: InboxDelta)
    requires Verified(x, r) && Verified(x, s)
    requires forall k :: k in CredsSent(d) ==> k in s.creds && CredsSent(d)[k] == s.creds[k]
    ensures forall k :: k in CredsNow(x, bits, r, d) ==> CredsNow(x, bits, r, d)[k].postingKey == k
  {
    hide Verified, Referred;
    CredsCheck(x, r);
    CredsCheck(x, s);
  }

  lemma NothingForged(x: Instance, bits: nat, r: InboxState, s: InboxState, d: InboxDelta)
    requires Verified(x, r) && Verified(x, s)
    requires forall p :: p in PointersSent(d) ==> p in s.pointers
    requires forall k :: k in CredsSent(d) ==> k in s.creds && CredsSent(d)[k] == s.creds[k]
    ensures forall p :: p in PointersSent(d) ==>
      !ForeignOrForged(x, CredsNow(x, bits, r, d), p) && !ForeignOrForged(x, CredsSent(d), p)
  {
    OwnKeys(x, bits, r, s, d);
    CredsCheck(x, s);
    hide Verified, CredsNow, PointersSent, CredsSent, ForeignOrForged;
    forall p | p in PointersSent(d)
      ensures !ForeignOrForged(x, CredsNow(x, bits, r, d), p) && !ForeignOrForged(x, CredsSent(d), p)
    {
      SignedUnderItsKey(x, s, p, CredsNow(x, bits, r, d));
      SignedUnderItsKey(x, s, p, CredsSent(d));
    }
  }

  // No valid inbox's answer is ever refused by a valid inbox.
  lemma MergeNeverRefused(x: Instance, r: InboxState, s: InboxState)
    requires Verified(x, r) && Verified(x, s)
    ensures Merge(x, r, s).Ok? && Verified(x, Merge(x, r, s).value)
  {
    hide Verified, Apply, Lacks, Flows, Summary, CredsNow, Referred, Replaces, LetIn, ForeignOrForged, CredChecks;
    DeltaExactly(x, r, s);
    if Delta(x, s, Summary(x, r)).Some? {
      var d := Delta(x, s, Summary(x, r)).value;
      CredsCheck(x, s);
      SubsetCard(CredsSent(d).Keys, s.creds.Keys);
      NothingForged(x, BarAfter(x, r, d), r, s, d);
      RefusedExactly(x, r, d);
      ApplyKeepsVerified(x, r, d);
    }
  }

  // For each key the credential of greater hash, r's on a tie.
  ghost function Best(x: Instance, r: InboxState, s: InboxState): map<Key, Cred> {
    map k | k in r.creds.Keys + s.creds.Keys ::
      if k in s.creds && Replaces(x, r.creds, k, s.creds[k]) then s.creds[k] else r.creds[k]
  }

  // No two pointers share a reply post and no limit is passed.
  ghost predicate Roomy(S: set<Pointer>) {
    && (forall p, q :: p in S && q in S && p.ptr.replyPost == q.ptr.replyPost ==> p == q)
    && WithinLimits(S)
  }

  lemma RoomyIsBelowCaps(S: set<Pointer>)
    requires Roomy(S)
    ensures BelowCaps(S)
  {
    hide WithinLimits, Survives;
    forall p | p in S ensures Survives(p, S) {
      WithinLimitsStays(p, S);
      StaysIsSurvival(p, S);
    }
  }

  lemma RoomyLacks(r: InboxState, s: InboxState, p: Pointer)
    requires Roomy(Joint(r, s)) && p in s.pointers
    ensures Lacks(r, p) <==> p !in r.pointers
  {
    hide WithinLimits, Stays, Survives;
    var R, H := ToSet(r.pointers), Joint(r, s);
    assert p in H && R <= H;
    RoomyIsBelowCaps(H);
    assert p in Evict(H);
    SurvivalTightens(p, R, H);
    StaysIsSurvival(p, R);
  }

  lemma BestIsNow(x: Instance, r: InboxState, s: InboxState, d: InboxDelta, bits: nat, p: Pointer)
    requires Verified(x, r) && Verified(x, s)
    requires forall q :: q in PointersSent(d) ==> q in s.pointers
    requires forall k :: k in CredsSent(d) <==> k in s.creds && Flows(x, r, PointersSent(d), k, s.creds[k])
    requires forall k :: k in CredsSent(d) ==> CredsSent(d)[k] == s.creds[k]
    requires p in r.pointers || (p in PointersSent(d) && LetIn(x, bits, p))
    ensures var k := p.ptr.replier;
      k in CredsNow(x, bits, r, d) && k in Best(x, r, s) && CredsNow(x, bits, r, d)[k] == Best(x, r, s)[k]
  {
    hide Verified, LetIn;
    PointersCheck(x, r);
    PointersCheck(x, s);
    assert Referred(x, bits, r.pointers, PointersSent(d), p.ptr.replier);
  }

  // The pointers of both (s's anonymous ones above the bar) that carry the fingerprint of their
  // key's best credential, and that credential for each of their repliers.
  ghost predicate HoldsBest(x: Instance, r: InboxState, s: InboxState, bits: nat, end: InboxState) {
    && (forall p :: p in end.pointers <==>
          (p in r.pointers || (p in s.pointers && LetIn(x, bits, p))) && Belongs(x, Best(x, r, s), p))
    && (forall k :: k in end.creds <==> exists p :: p in end.pointers && p.ptr.replier == k)
    && (forall k :: k in end.creds ==> k in Best(x, r, s) && end.creds[k] == Best(x, r, s)[k])
  }

  // Merging two valid inboxes that fit together under the limits takes the best of both.
  lemma MergeTakesBest(x: Instance, r: InboxState, s: InboxState)
    requires Verified(x, r) && Verified(x, s) && Roomy(Joint(r, s))
    ensures Merge(x, r, s).Ok?
    ensures HoldsBest(x, r, s,
      DifficultyBits(x.publisher, Adopt(x.publisher, r.powDifficulty, s.powDifficulty)), Merge(x, r, s).value)
    ensures Merge(x, r, s).value.powDifficulty == Adopt(x.publisher, r.powDifficulty, s.powDifficulty)
  {
    hide Verified, Apply, Summary, Roomy, Stays, WithinLimits, LetIn, Belongs, Best, CredsNow, Flows, Lacks;
    MergeNeverRefused(x, r, s);
    DeltaExactly(x, r, s);
    forall p | p in s.pointers ensures Lacks(r, p) <==> p !in r.pointers { RoomyLacks(r, s, p); }
    match Delta(x, s, Summary(x, r)) {
      case None => SilentIsBest(x, r, s);
      case Some(d) => AnswerTakesBest(x, r, s, d);
    }
  }

  lemma SilentIsBest(x: Instance, r: InboxState, s: InboxState)
    requires Verified(x, r)
    requires forall k :: k in s.creds ==> !Flows(x, r, [], k, s.creds[k])
    ensures forall k :: k in r.creds <==> exists p :: p in r.pointers && p.ptr.replier == k
    ensures forall k :: k in r.creds ==> k in Best(x, r, s) && Best(x, r, s)[k] == r.creds[k]
    ensures forall p :: p in r.pointers ==> Belongs(x, Best(x, r, s), p)
  {
    hide Verified;
    PointersCheck(x, r);
    forall k | k in r.creds ensures exists p :: p in r.pointers && p.ptr.replier == k {
      var p := CredHasPointer(x, r, k);
    }
    forall k | k in r.creds ensures k in Best(x, r, s) && Best(x, r, s)[k] == r.creds[k] {
      assert k in s.creds ==> !Flows(x, r, [], k, s.creds[k]);
    }
    forall p | p in r.pointers ensures Belongs(x, Best(x, r, s), p) { assert PointerChecks(x, r.creds, p); }
  }

  lemma AnswerTakesBest(x: Instance, r: InboxState, s: InboxState, d: InboxDelta)
    requires Verified(x, r) && Verified(x, s) && Roomy(Joint(r, s)) && Apply(x, r, d).Ok?
    requires forall p :: p in PointersSent(d) <==> p in s.pointers && p !in r.pointers
    requires forall k :: k in CredsSent(d) <==> k in s.creds && Flows(x, r, PointersSent(d), k, s.creds[k])
    requires forall k :: k in CredsSent(d) ==> CredsSent(d)[k] == s.creds[k]
    ensures HoldsBest(x, r, s, BarAfter(x, r, d), Apply(x, r, d).value)
    ensures Apply(x, r, d).value.powDifficulty == Adopt(x.publisher, r.powDifficulty, d.powDifficulty)
  {
    hide Verified, Apply, Canonical, LetIn, Belongs, Best, CredsNow, Flows, BarAfter, BelowCaps, Roomy;
    var bits := BarAfter(x, r, d);
    var ps, matched := AppliedExactly(x, r, d);
    forall p | p in r.pointers || (p in PointersSent(d) && LetIn(x, bits, p))
      ensures Belongs(x, CredsNow(x, bits, r, d), p) <==> Belongs(x, Best(x, r, s), p)
      ensures p.ptr.replier in Best(x, r, s)
      ensures p.ptr.replier in CredsNow(x, bits, r, d)
        && CredsNow(x, bits, r, d)[p.ptr.replier] == Best(x, r, s)[p.ptr.replier]
    {
      BestIsNow(x, r, s, d, bits, p);
      SameCredSameFit(x, CredsNow(x, bits, r, d), Best(x, r, s), p);
    }
    RoomyIsBelowCaps(Joint(r, s));
    assert ToSet(r.pointers + ps) <= Joint(r, s);
    CanonicalBelowCaps(r.pointers + ps, Joint(r, s));
    assert d.pointers == None ==> ps == [] by { if ps != [] { assert ps[0] in ps; } }
    assert ToSet(matched) <= Joint(r, s);
    CanonicalBelowCaps(matched, Joint(r, s));
  }

  lemma SameCredSameFit(x: Instance, a: map<Key, Cred>, b: map<Key, Cred>, p: Pointer)
    requires p.ptr.replier in a && p.ptr.replier in b && a[p.ptr.replier] == b[p.ptr.replier]
    ensures Belongs(x, a, p) <==> Belongs(x, b, p)
  {}

  // So replicas heal after an upgrade: an anonymous credential gives way to the sender's
  // attested one, and all the pointers written under it arrive.
  lemma UpgradeFlows(x: Instance, r: InboxState, s: InboxState, k: Key)
    requires Verified(x, r) && Verified(x, s) && Roomy(Joint(r, s))
    requires k in r.creds && r.creds[k].attestation.None?
    requires k in s.creds && s.creds[k].attestation.Some? && x.attestationHash(s.creds[k].attestation.value) > 0
    ensures Merge(x, r, s).Ok?
    ensures var end := Merge(x, r, s).value;
      && k in end.creds && end.creds[k] == s.creds[k]
      && forall p :: p in s.pointers && p.ptr.replier == k ==> p in end.pointers
  {
    hide Verified, Merge, Roomy;
    MergeTakesBest(x, r, s);
    PointersCheck(x, s);
    assert Best(x, r, s)[k] == s.creds[k];
    var end := Merge(x, r, s).value;
    forall p | p in s.pointers && p.ptr.replier == k ensures p in end.pointers {
      assert PointerChecks(x, s.creds, p);
    }
    var p := CredHasPointer(x, s, k);
    assert p in end.pointers;
  }
}
