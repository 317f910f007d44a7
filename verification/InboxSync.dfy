// Exchanges between inbox replicas: a delta against a summary loses nothing, is not
// offered twice, and every replica is determined by what it has heard.
module InboxSync {
  import opened Basics
  import opened Pow
  import opened PointerLog
  import opened PointerVec
  import opened PointerSync
  import opened Inbox
  import opened InboxTheorems

  // st is what remains of a history H of pointers whose credentials are those of book.
  ghost predicate Reflects(book: map<Key, Cred>, H: set<Pointer>, st: InboxState) {
    && StrictlyAscending(st.pointers) && ToSet(st.pointers) == Evict(H)
    && st.creds == Referenced(book, st.pointers)
  }

  ghost predicate Honest(x: Instance, book: map<Key, Cred>, H: set<Pointer>) {
    && UniqueIds(H) && CredsOk(x, book)
    && forall p :: p in H ==> PointerOk(x, book, p)
  }

  function PointersIn(d: InboxDelta): seq<Pointer> { if d.pointers.Some? then d.pointers.value else [] }

  // A delta drawn from book and stamped for st's bar, with or without the credentials its
  // pointers need.
  ghost predicate Fits(x: Instance, book: map<Key, Cred>, st: InboxState, d: InboxDelta) {
    && |CredsIn(d)| <= MAX_POINTERS
    && (forall k :: k in CredsIn(d) ==> k in book && CredsIn(d)[k] == book[k])
    && (forall p :: p in PointersIn(d) && p.IsAnon() ==> x.Stamped(p, DifficultyBits(x.publisher, PowAfter(x, st, d))))
  }

  predicate Vouches(st: InboxState, d: InboxDelta, p: Pointer) {
    p.ptr.replier in st.creds || p.ptr.replier in CredsIn(d)
  }

  // The pointers of d whose credential st holds or d brings.
  function Usable(st: InboxState, d: InboxDelta): set<Pointer> {
    set p | p in PointersIn(d) && Vouches(st, d, p)
  }

  lemma SameReflection(book: map<Key, Cred>, H: set<Pointer>, a: InboxState, b: InboxState)
    requires Reflects(book, H, a) && Reflects(book, H, b)
    ensures a.pointers == b.pointers && a.creds == b.creds
  {
    SortedListUnique(a.pointers, b.pointers);
  }

  lemma AllAdmitted(x: Instance, book: map<Key, Cred>, st: InboxState, d: InboxDelta)
    requires Fits(x, book, st, d)
    ensures AdmittedBy(x, st, d) == PointersIn(d)
  {
    var ps, bits := PointersIn(d), DifficultyBits(x.publisher, PowAfter(x, st, d));
    RestrictAll(ps, Admissible(x, ps, bits));
  }

  // Credentials after the delta: book entries, for exactly the pointers that can be used.
  lemma CredsFollowBook(x: Instance, book: map<Key, Cred>, H: set<Pointer>, st: InboxState, d: InboxDelta)
    requires Reflects(book, H, st) && Fits(x, book, st, d) && CredsOk(x, book)
    ensures forall k :: k in CredsAfter(x, st, d) ==> k in book && CredsAfter(x, st, d)[k] == book[k]
    ensures st.creds.Keys <= CredsAfter(x, st, d).Keys
    ensures forall p :: p in PointersIn(d) ==> (p.ptr.replier in CredsAfter(x, st, d) <==> p in Usable(st, d))
    ensures WinnersOk(x, st.creds, VouchedBy(x, st, d))
  {
    hide Evict;
    AllAdmitted(x, book, st, d);
    forall p | p in PointersIn(d) ensures p.ptr.replier in CredsAfter(x, st, d) <==> p in Usable(st, d) {
      assert p.ptr.replier in Repliers(PointersIn(d));
    }
  }

  lemma NotRejected(x: Instance, book: map<Key, Cred>, H: set<Pointer>, st: InboxState, d: InboxDelta)
    requires Reflects(book, H, st) && Fits(x, book, st, d) && CredsOk(x, book)
    requires forall p :: p in PointersIn(d) ==> PointerOk(x, book, p)
    ensures !Rejected(x, st, d)
    ensures ToSet(Accepted(x, CredsAfter(x, st, d), AdmittedBy(x, st, d))) == Usable(st, d)
  {
    hide Reflects, Canonical, Evict, CredsAfter, AdmittedBy, VouchedBy, Vouches;
    AllAdmitted(x, book, st, d);
    CredsFollowBook(x, book, H, st, d);
    var creds, ps := CredsAfter(x, st, d), PointersIn(d);
    forall p | p in ps ensures x.CheckPointer(p, creds) == Ok(p in Usable(st, d)) {
      assert PointerOk(x, book, p);
    }
  }

  lemma PointersGrow(x: Instance, book: map<Key, Cred>, H: set<Pointer>, st: InboxState, ps: seq<Pointer>)
    requires Reflects(book, H, st) && UniqueIds(H + ToSet(ps))
    ensures var c := Canonical(st.pointers + ps);
      StrictlyAscending(c) && ToSet(c) == Evict(H + ToSet(ps)) && Canonical(c) == c
  {
    hide Canonical;
    var s := st.pointers + ps;
    ToSetSplit(st.pointers, ps);
    assert ToSet(s) == Evict(H) + ToSet(ps);
    CanonicalIs(s);
    ReducedWhenUnique(s);
    EvictAbsorbs(H, ToSet(ps));
    EvictIdempotent(H + ToSet(ps));
    CanonicalFixpoint(Canonical(s));
  }

  // The workhorse: an honest delta is accepted and adds the pointers it can vouch for to the
  // history, whatever was evicted.
  lemma HonestApply(x: Instance, book: map<Key, Cred>, H: set<Pointer>, st: InboxState, d: InboxDelta)
    requires Reflects(book, H, st) && Honest(x, book, H + ToSet(PointersIn(d))) && Fits(x, book, st, d)
    ensures Apply(x, st, d).Ok?
    ensures Reflects(book, H + Usable(st, d), Apply(x, st, d).value)
    ensures Apply(x, st, d).value.powDifficulty == PowAfter(x, st, d)
  {
    hide Canonical, Evict, Vouches;
    var creds := CredsAfter(x, st, d);
    var ps := Accepted(x, creds, AdmittedBy(x, st, d));
    assert forall p :: p in PointersIn(d) ==> p in H + ToSet(PointersIn(d));
    NotRejected(x, book, H, st, d);
    CredsFollowBook(x, book, H, st, d);
    SmallerHistory(x, book, H + ToSet(PointersIn(d)), H + ToSet(ps));
    PointersGrow(x, book, H, st, ps);
    var after := InboxState(creds, PointersAfter(x, st, d), PowAfter(x, st, d));
    if d.pointers.None? {
      assert ps == [] by { EmptyToSet(ps); }
      assert st.pointers + ps == st.pointers && H + ToSet(ps) == H;
      SortedListUnique(Canonical(st.pointers + ps), st.pointers);
    }
    assert after.pointers == Canonical(st.pointers + ps);
    assert forall p :: p in ps ==> p in ToSet(ps);
    CleanupOfHonest(x, book, H + ToSet(ps), st, ps, after);
  }

  lemma CleanupOfHonest(x: Instance, book: map<Key, Cred>, H: set<Pointer>, st: InboxState, ps: seq<Pointer>,
                        after: InboxState)
    requires Honest(x, book, H) && ToSet(ps) <= H
    requires st.creds == Referenced(book, st.pointers) && after.pointers == Canonical(st.pointers + ps)
    requires StrictlyAscending(after.pointers) && ToSet(after.pointers) == Evict(H)
    requires Canonical(after.pointers) == after.pointers
    requires forall k :: k in after.creds ==> k in book && after.creds[k] == book[k]
    requires st.creds.Keys <= after.creds.Keys
    requires forall p :: p in ps ==> p.ptr.replier in after.creds
    ensures Reflects(book, H, Cleanup(x, after))
    ensures Cleanup(x, after).powDifficulty == after.powDifficulty
  {
    hide Canonical;
    forall p | p in after.pointers ensures x.FpMatches(after.creds, p) {
      InCanonical(st.pointers + ps, p);
      assert p in ToSet(after.pointers) && PointerOk(x, book, p);
      assert p in st.pointers ==> p.ptr.replier in Repliers(st.pointers);
    }
    assert Matching(x, after) == after.pointers by {
      RestrictAll(after.pointers, Matched(x, after));
    }
    assert Referenced(after.creds, after.pointers) == Referenced(book, after.pointers);
  }

  // ---- one exchange between verified replicas ----

  // r and s are verified, hold the same credential for any key both know, share no reply
  // post between different pointers, and s's stamps clear the bar r ends up with.
  ghost predicate Compatible(x: Instance, r: InboxState, s: InboxState) {
    && Verified(x, r) && Verified(x, s)
    && (forall k :: k in r.creds && k in s.creds ==> r.creds[k] == s.creds[k])
    && UniqueIds(ToSet(r.pointers) + ToSet(s.pointers))
    && (forall p :: p in s.pointers && p.IsAnon() ==>
          x.Stamped(p, DifficultyBits(x.publisher, Adopt(x.publisher, r.powDifficulty, s.powDifficulty))))
  }

  function Joint(r: InboxState, s: InboxState): set<Pointer> { ToSet(r.pointers) + ToSet(s.pointers) }

  lemma VerifiedReflects(x: Instance, st: InboxState, book: map<Key, Cred>)
    requires Verified(x, st)
    requires forall k :: k in st.creds ==> k in book && book[k] == st.creds[k]
    ensures Reflects(book, ToSet(st.pointers), st)
  {
    hide Ascending, DistinctIds, WithinCaps, UniqueIds;
    VerifiedIsSeated(st.pointers);
    forall k | k in Repliers(st.pointers) ensures k in st.creds {
      var p :| p in st.pointers && p.ptr.replier == k;
      assert PointerOk(x, st.creds, p);
    }
  }

  lemma JointIsHonest(x: Instance, r: InboxState, s: InboxState)
    requires Compatible(x, r, s)
    ensures Honest(x, r.creds + s.creds, Joint(r, s))
    ensures Reflects(r.creds + s.creds, ToSet(r.pointers), r)
    ensures Reflects(r.creds + s.creds, ToSet(s.pointers), s)
  {
    hide Reflects, UniqueIds, Verified, PointerOk, CredsOk;
    var book := r.creds + s.creds;
    VerifiedReflects(x, r, book);
    VerifiedReflects(x, s, book);
    PointersOkInBook(x, r, book);
    PointersOkInBook(x, s, book);
    BookOk(x, r, s);
  }

  lemma BookOk(x: Instance, r: InboxState, s: InboxState)
    requires Verified(x, r) && Verified(x, s)
    ensures CredsOk(x, r.creds + s.creds)
  {
    hide Ascending, DistinctIds, WithinCaps, PointerOk, Instance.CredOk;
  }

  lemma PointersOkInBook(x: Instance, st: InboxState, book: map<Key, Cred>)
    requires Verified(x, st)
    requires forall k :: k in st.creds ==> k in book && book[k] == st.creds[k]
    ensures forall p :: p in st.pointers ==> PointerOk(x, book, p)
  {
    hide Ascending, DistinctIds, WithinCaps;
  }

  lemma OfferedAre(x: Instance, r: InboxState, s: InboxState)
    ensures forall p :: p in Offered(s.pointers, Summary(x, r).pointers) ==> p in s.pointers
  {
    var o := Offered(s.pointers, Summary(x, r).pointers);
    assert forall p :: p in o ==> p in ToSet(o);
  }

  // A delta finds every credential it needs: each pointer's is held by the receiver or
  // rides along, and each credential offered is an upgrade or is needed by an offered pointer.
  lemma DeltaIsSelfContained(x: Instance, r: InboxState, s: InboxState)
    requires Verified(x, s) && Delta(x, s, Summary(x, r)).Some?
    ensures var d := Delta(x, s, Summary(x, r)).value;
      && (forall p :: p in PointersIn(d) ==> p.ptr.replier in r.creds || p.ptr.replier in CredsIn(d))
      && (forall k :: k in CredsIn(d) ==>
            (k in r.creds && Wins(x, r.creds, k, CredsIn(d)[k])) || k in Repliers(PointersIn(d)))
  {
    hide Ascending, DistinctIds, WithinCaps, Evict, Retains;
    var d := Delta(x, s, Summary(x, r)).value;
    OfferedAre(x, r, s);
    forall p | p in PointersIn(d) ensures p.ptr.replier in r.creds || p.ptr.replier in CredsIn(d) {
      assert PointerOk(x, s.creds, p);
      assert p.ptr.replier in Repliers(PointersIn(d));
    }
  }

  // Which credentials flow: an upgrade of one the receiver holds always, one it lacks exactly
  // when a pointer in the same delta is by its key.
  lemma CredsOfferedExactly(x: Instance, r: InboxState, s: InboxState, k: Key)
    ensures var d, o := Delta(x, s, Summary(x, r)), Offered(s.pointers, Summary(x, r).pointers);
      && (d.None? ==> o == []) && (d.Some? ==> PointersIn(d.value) == o)
      && (d.Some? && k in CredsIn(d.value) <==> (k in s.creds &&
            if k in r.creds then x.CredHash(r.creds[k]) < x.CredHash(s.creds[k]) else k in Repliers(o)))
      && (d.Some? && k in CredsIn(d.value) ==> CredsIn(d.value)[k] == s.creds[k])
  {
    hide Summarize, Offered;
    var o := Offered(s.pointers, Summary(x, r).pointers);
    if k in OfferedCreds(x, s, Summary(x, r), o) { assert OfferedCreds(x, s, Summary(x, r), o) != map[]; }
  }

  lemma DeltaParts(x: Instance, r: InboxState, s: InboxState)
    requires Delta(x, s, Summary(x, r)).Some? && Verified(x, s)
    ensures var d := Delta(x, s, Summary(x, r)).value;
      && PointersIn(d) == Offered(s.pointers, Summarize(r.pointers))
      && (forall k :: k in CredsIn(d) ==> k in s.creds && CredsIn(d)[k] == s.creds[k])
      && |CredsIn(d)| <= MAX_POINTERS
      && PowAfter(x, r, d) == Adopt(x.publisher, r.powDifficulty, s.powDifficulty)
  {
    hide Summarize, Offered, Ascending, DistinctIds, WithinCaps, PointerOk;
    var d := Delta(x, s, Summary(x, r)).value;
    assert CredsIn(d).Keys <= s.creds.Keys;
    SubsetCard(CredsIn(d).Keys, s.creds.Keys);
  }

  lemma DeltaFits(x: Instance, r: InboxState, s: InboxState)
    requires Compatible(x, r, s) && Delta(x, s, Summary(x, r)).Some?
    ensures var d := Delta(x, s, Summary(x, r)).value;
      && Fits(x, r.creds + s.creds, r, d) && Usable(r, d) == ToSet(PointersIn(d))
      && PointersIn(d) == Offered(s.pointers, Summarize(r.pointers))
      && PowAfter(x, r, d) == Adopt(x.publisher, r.powDifficulty, s.powDifficulty)
  {
    hide Verified, UniqueIds, Retains, Delta, Offered, Summarize, PowAfter, CredsIn;
    assert Verified(x, s);
    assert forall k :: k in s.creds ==> k in r.creds + s.creds && (r.creds + s.creds)[k] == s.creds[k];
    DeltaIsSelfContained(x, r, s);
    DeltaParts(x, r, s);
    OfferedAre(x, r, s);
  }

  // Summaries lose nothing: merging s into r through r's summary gives what canonicalizing
  // all pointers of both gives, with exactly the credentials the survivors need.
  lemma SyncLosesNothing(x: Instance, r: InboxState, s: InboxState)
    requires Compatible(x, r, s)
    ensures Merge(x, r, s).Ok?
    ensures Reflects(r.creds + s.creds, Joint(r, s), Merge(x, r, s).value)
    ensures Merge(x, r, s).value.powDifficulty == Adopt(x.publisher, r.powDifficulty, s.powDifficulty)
  {
    hide Evict, Verified, Fits;
    var book := r.creds + s.creds;
    var offered := Offered(s.pointers, Summarize(r.pointers));
    JointIsHonest(x, r, s);
    CompatibleIsSeated(x, r, s);
    OfferLosesNothing(r.pointers, s.pointers);
    match Delta(x, s, Summary(x, r)) {
      case None =>
        assert offered == [] && ToSet(r.pointers) + ToSet(offered) == ToSet(r.pointers);
      case Some(d) =>
        DeltaFits(x, r, s);
        OfferedAre(x, r, s);
        SmallerHistory(x, book, Joint(r, s), ToSet(r.pointers) + ToSet(offered));
        HonestApply(x, book, ToSet(r.pointers), r, d);
    }
  }

  lemma CompatibleIsSeated(x: Instance, r: InboxState, s: InboxState)
    requires Compatible(x, r, s)
    ensures Seated(r.pointers) && UniqueIds(ToSet(r.pointers) + ToSet(s.pointers))
  {
    VerifiedIsSeated(r.pointers);
  }

  lemma SmallerHistory(x: Instance, book: map<Key, Cred>, H: set<Pointer>, G: set<Pointer>)
    requires Honest(x, book, H) && G <= H
    ensures Honest(x, book, G)
  {}

  lemma NoCredsLeft(x: Instance, r: InboxState, s: InboxState, joint: InboxState)
    requires forall k :: k in r.creds && k in s.creds ==> r.creds[k] == s.creds[k]
    requires joint.creds == Referenced(r.creds + s.creds, joint.pointers)
    ensures OfferedCreds(x, s, Summary(x, joint), []) == map[]
  {
    hide Summarize;
    assert Repliers([]) == {};
  }

  // No re-offer livelock: having absorbed the exchange, the receiver is offered nothing more.
  lemma NoReoffer(x: Instance, r: InboxState, s: InboxState)
    requires Compatible(x, r, s)
    ensures Merge(x, r, s).Ok?
    ensures Delta(x, s, Summary(x, Merge(x, r, s).value)) == None
  {
    hide Evict, Ascending, DistinctIds, WithinCaps, UniqueIds, Merge, Summarize, Offered, Referenced, Verified;
    SyncLosesNothing(x, r, s);
    var joint := Merge(x, r, s).value;
    CompatibleIsSeated(x, r, s);
    NothingLeftToOffer(joint.pointers, Joint(r, s), s.pointers);
    NoCredsLeft(x, r, s, joint);
    LatestIsHeld(x, r, s);
  }

  lemma LatestIsHeld(x: Instance, r: InboxState, s: InboxState)
    requires Verified(x, s)
    ensures DifficultySeq(s.powDifficulty) <= DifficultySeq(Adopt(x.publisher, r.powDifficulty, s.powDifficulty))
  {}

  // One exchange each way leaves both replicas in the same state, unless they latched
  // different difficulty records under one seq (a record numbered 0 counts as none).
  lemma ExchangeConverges(x: Instance, r: InboxState, s: InboxState)
    requires Compatible(x, r, s) && Compatible(x, s, r)
    ensures Merge(x, r, s).Ok? && Merge(x, s, r).Ok?
    ensures Merge(x, r, s) == Merge(x, s, r) <==> ConsistentRecords(r.powDifficulty, s.powDifficulty)
  {
    hide Evict, Merge, Verified, Compatible, Reflects;
    SyncLosesNothing(x, r, s);
    SyncLosesNothing(x, s, r);
    LatchesAgree(x, r, s);
    BooksAgree(x, r, s);
    assert Joint(r, s) == Joint(s, r);
    SameReflection(r.creds + s.creds, Joint(r, s), Merge(x, r, s).value, Merge(x, s, r).value);
  }

  lemma LatchesAgree(x: Instance, r: InboxState, s: InboxState)
    requires Compatible(x, r, s)
    ensures Adopt(x.publisher, r.powDifficulty, s.powDifficulty) == Adopt(x.publisher, s.powDifficulty, r.powDifficulty)
      <==> ConsistentRecords(r.powDifficulty, s.powDifficulty)
  {
    AdoptCommutes(x.publisher, r.powDifficulty, s.powDifficulty);
  }

  lemma BooksAgree(x: Instance, r: InboxState, s: InboxState)
    requires Compatible(x, r, s)
    ensures r.creds + s.creds == s.creds + r.creds
  {
    hide Verified, UniqueIds;
    assert forall k :: k in r.creds && k in s.creds ==> r.creds[k] == s.creds[k];
    MapUnionCommutes(r.creds, s.creds);
  }

  lemma MapUnionCommutes(a: map<Key, Cred>, b: map<Key, Cred>)
    requires forall k :: k in a && k in b ==> a[k] == b[k]
    ensures a + b == b + a
  {}
}
