// The inbox in plain terms. What each operation does is stated here once more, from fields,
// comparisons and numbers alone, and proved to be what its specification says.
module InboxReference {
  import opened Basics
  import opened Pow
  import opened PointerLog
  import opened PointerVec
  import opened PointerSync
  import opened Inbox
  import opened InboxTheorems
  import opened InboxSync
  import opened InboxUpgrade

  // ---- the canonical log ----

  predicate Before(a: Pointer, b: Pointer) {
    a.ptr.time < b.ptr.time || (a.ptr.time == b.ptr.time && a.ptr.replyPost < b.ptr.replyPost)
  }

  // Of the pointers that share its reply post, s[i] is the earliest, and the first of those in s.
  ghost predicate Leads(s: seq<Pointer>, i: nat)
    requires i < |s|
  {
    forall j :: 0 <= j < |s| && s[j].ptr.replyPost == s[i].ptr.replyPost ==>
      if j < i then Before(s[i], s[j]) else !Before(s[j], s[i])
  }

  ghost function Leaders(s: seq<Pointer>): set<Pointer> {
    set i | 0 <= i < |s| && Leads(s, i) :: s[i]
  }

  // Fewer than three newer pointers of its anonymous key, or eight of its ghost key.
  ghost predicate HasRoom(p: Pointer, S: set<Pointer>) {
    var newer := |set q | q in S && q.ptr.fingerprint == p.ptr.fingerprint && Before(p, q)|;
    match p.ptr.fingerprint
    case AnonFp(_) => newer < 3
    case GhostFp(_) => newer < 8
  }

  // Among the pointers with room, at most 300 attested ones stay, and at most 100 anonymous
  // ones beside them, 300 in all; the newest first.
  ghost predicate Stays(p: Pointer, S: set<Pointer>) {
    HasRoom(p, S) &&
    match p.ptr.fingerprint
    case GhostFp(_) => |set q | q in S && q.ptr.fingerprint.GhostFp? && Before(p, q) && HasRoom(q, S)| < 300
    case AnonFp(_) =>
      var newer := |set q | q in S && q.ptr.fingerprint.AnonFp? && Before(p, q) && HasRoom(q, S)|;
      newer < 100 && newer + |set q | q in S && q.ptr.fingerprint.GhostFp? && HasRoom(q, S)| < 300
  }

  lemma {:induction false} WinnerLeads(s: seq<Pointer>, id: PostId) returns (i: nat)
    requires WinnerOf(s, id).Some?
    ensures i < |s| && s[i] == WinnerOf(s, id).value && Leads(s, i)
  {
    assert s == [s[0]] + s[1..];
    var rest := WinnerOf(s[1..], id);
    if s[0].Id() == id && (rest.None? || s[0].SortKey().Le(rest.value.SortKey())) {
      i := 0;
      assert forall j :: 0 <= j < |s| ==> s[j] in s;
    } else {
      i := WinnerLeads(s[1..], id);
      i := i + 1;
      assert forall j :: 0 < j < |s| ==> s[j] == s[1..][j - 1];
    }
  }

  lemma LeadersAreReduced(s: seq<Pointer>)
    ensures Leaders(s) == Reduced(s)
  {
    forall i | 0 <= i < |s| && Leads(s, i) ensures s[i] in Reduced(s) {
      assert s[i].Id() in Ids(s);
      var k := WinnerLeads(s, s[i].Id());
    }
    forall p | p in Reduced(s) ensures p in Leaders(s) {
      var k := WinnerLeads(s, p.Id());
    }
  }

  lemma RoomIsGroupCap(p: Pointer, S: set<Pointer>)
    ensures HasRoom(p, S) <==> InGroupCap(p, S)
  {
    assert GroupNewer(p, S) == set q | q in S && q.ptr.fingerprint == p.ptr.fingerprint && Before(p, q);
  }

  // A part of S that holds, with a pointer, everything newer in its group.
  lemma RoomInPart(part: set<Pointer>, S: set<Pointer>)
    requires part <= S
    requires forall p, q :: p in part && q in S && q.ptr.fingerprint == p.ptr.fingerprint && Before(p, q) ==> q in part
    ensures Fair(part) == set q | q in part && HasRoom(q, S)
  {
    forall q | q in part ensures InGroupCap(q, part) <==> HasRoom(q, S) {
      RoomIsGroupCap(q, S);
      assert GroupNewer(q, part) == GroupNewer(q, S);
    }
  }

  lemma StaysIsSurvival(p: Pointer, S: set<Pointer>)
    ensures Stays(p, S) <==> Survives(p, S)
  {
    hide HasRoom, InGroupCap;
    RoomIsGroupCap(p, S);
    RoomInPart(Above(p, S), S);
    RoomInPart(Attested(S), S);
    assert Fair(Attested(S)) == set q | q in S && q.ptr.fingerprint.GhostFp? && HasRoom(q, S);
    if p.IsAnon() {
      assert Fair(Above(p, S)) == set q | q in S && q.ptr.fingerprint.AnonFp? && Before(p, q) && HasRoom(q, S);
    } else {
      assert Fair(Above(p, S)) == set q | q in S && q.ptr.fingerprint.GhostFp? && Before(p, q) && HasRoom(q, S);
    }
  }

  // The whole of canonicalize: the leaders of their reply posts that stay among the leaders,
  // in order.
  lemma CanonicalExactly(s: seq<Pointer>)
    ensures forall p :: p in Canonical(s) <==> p in Leaders(s) && Stays(p, Leaders(s))
    ensures forall i, j :: 0 <= i < j < |Canonical(s)| ==> Before(Canonical(s)[i], Canonical(s)[j])
  {
    hide Canonical, Survives, Stays, Leads;
    LeadersAreReduced(s);
    CanonicalIs(s);
    forall p ensures p in Canonical(s) <==> p in Leaders(s) && Stays(p, Leaders(s)) {
      StaysIsSurvival(p, Leaders(s));
      assert p in Canonical(s) <==> p in ToSet(Canonical(s));
    }
  }

  // No key has more than three anonymous pointers in the log, no ghost key more than eight.
  lemma SlotsPerKey(s: seq<Pointer>, text: string)
    ensures |set p | p in Canonical(s) && p.ptr.fingerprint == AnonFp(text)| <= 3
    ensures |set p | p in Canonical(s) && p.ptr.fingerprint == GhostFp(text)| <= 8
    ensures |set p | p in Canonical(s) && p.ptr.fingerprint.AnonFp?| <= 100
    ensures |Canonical(s)| <= 300
  {
    hide Canonical, Survives;
    CanonicalWithinCaps(s);
    CanonicalIs(s);
    var c := Canonical(s);
    GroupSetWithin(c, AnonFp(text));
    GroupSetWithin(c, GhostFp(text));
    TierCards(c);
    assert Anonymous(ToSet(c)) == set p | p in c && p.ptr.fingerprint.AnonFp?;
  }

  lemma GroupSetWithin(c: seq<Pointer>, fp: Fingerprint)
    requires StrictlyAscending(c) && WithinCaps(c)
    ensures |set p | p in c && p.ptr.fingerprint == fp| <= if fp.AnonFp? then 3 else 8
  {
    GroupCard(c, fp);
    assert GroupSet(c, fp) == set p | p in c && p.ptr.fingerprint == fp;
    if p :| p in c && p.ptr.fingerprint == fp {
      assert fp in Fingerprints(c);
    } else {
      assert GroupSet(c, fp) == {};
    }
  }

  // A leader with that many newer leaders of its own key goes.
  lemma OverCapGoes(s: seq<Pointer>, p: Pointer)
    requires var newer := |set q | q in Leaders(s) && q.ptr.fingerprint == p.ptr.fingerprint && Before(p, q)|;
      newer >= if p.ptr.fingerprint.AnonFp? then 3 else 8
    ensures p !in Canonical(s)
  {
    hide Canonical, Leads;
    CanonicalExactly(s);
    assert !HasRoom(p, Leaders(s));
  }

  ghost predicate WithinLimits(S: set<Pointer>) {
    && (forall r: string :: |set p | p in S && p.ptr.fingerprint == AnonFp(r)| <= 3)
    && (forall t: string :: |set p | p in S && p.ptr.fingerprint == GhostFp(t)| <= 8)
    && |set p | p in S && p.ptr.fingerprint.AnonFp?| <= 100
    && |S| <= 300
  }

  lemma OneFewer(part: set<Pointer>, whole: set<Pointer>, p: Pointer)
    requires part <= whole && p in whole && p !in part
    ensures |part| < |whole|
  {
    SubsetCard(part + {p}, whole);
  }

  lemma WithinLimitsStays(p: Pointer, S: set<Pointer>)
    requires WithinLimits(S) && p in S
    ensures Stays(p, S)
  {
    hide HasRoom, WithinLimits;
    var attested := set q | q in S && q.ptr.fingerprint.GhostFp? && HasRoom(q, S);
    assert HasRoom(p, S) by { RoomWithinLimits(p, S); }
    assert |S| <= 300 && |set q | q in S && q.ptr.fingerprint.AnonFp?| <= 100 by { Totals(S); }
    if p.ptr.fingerprint.GhostFp? {
      OneFewer((set q | q in S && q.ptr.fingerprint.GhostFp? && Before(p, q) && HasRoom(q, S)), S, p);
    } else {
      var newer := set q | q in S && q.ptr.fingerprint.AnonFp? && Before(p, q) && HasRoom(q, S);
      OneFewer(newer, (set q | q in S && q.ptr.fingerprint.AnonFp?), p);
      assert |newer + attested| == |newer| + |attested|;
      OneFewer(newer + attested, S, p);
    }
  }

  lemma Totals(S: set<Pointer>)
    requires WithinLimits(S)
    ensures |S| <= 300 && |set q | q in S && q.ptr.fingerprint.AnonFp?| <= 100
  {}

  lemma RoomWithinLimits(p: Pointer, S: set<Pointer>)
    requires WithinLimits(S) && p in S
    ensures HasRoom(p, S)
  {
    var fp := p.ptr.fingerprint;
    var newer := set q | q in S && q.ptr.fingerprint == fp && Before(p, q);
    OneFewer(newer, (set q | q in S && q.ptr.fingerprint == fp), p);
  }

  // With distinct reply posts nothing is evicted exactly when no limit is passed: three
  // pointers of an anonymous key and eight of a ghost key all stay.
  lemma AllStayExactly(s: seq<Pointer>)
    requires forall p, q :: p in s && q in s && p.ptr.replyPost == q.ptr.replyPost ==> p == q
    ensures (forall p :: p in s ==> p in Canonical(s)) <==> WithinLimits(ToSet(s))
  {
    hide Canonical, Leads, Stays, WithinLimits;
    LeadersAreReduced(s);
    assert UniqueIds(ToSet(s));
    ReducedWhenUnique(s);
    CanonicalExactly(s);
    if WithinLimits(ToSet(s)) {
      forall p | p in s ensures p in Canonical(s) { WithinLimitsStays(p, ToSet(s)); }
    }
    if forall p :: p in s ==> p in Canonical(s) {
      assert forall p :: p in Canonical(s) <==> p in s;
      CanonicalWithin(s);
    }
  }

  lemma SameGroup(c: seq<Pointer>, S: set<Pointer>, fp: Fingerprint)
    requires ToSet(c) == S
    ensures (set p | p in S && p.ptr.fingerprint == fp) == set p | p in c && p.ptr.fingerprint == fp
  {}

  lemma CanonicalWithin(s: seq<Pointer>)
    requires forall p :: p in Canonical(s) <==> p in s
    ensures WithinLimits(ToSet(s))
  {
    hide Canonical;
    var c := Canonical(s);
    assert ToSet(c) == ToSet(s) && |c| == |ToSet(s)| by { CanonicalIs(s); SetCard(c); }
    forall r: string
      ensures |set p | p in ToSet(s) && p.ptr.fingerprint == AnonFp(r)| <= 3
      ensures |set p | p in ToSet(s) && p.ptr.fingerprint == GhostFp(r)| <= 8
    {
      SlotsPerKey(s, r);
      SameGroup(c, ToSet(s), AnonFp(r));
      SameGroup(c, ToSet(s), GhostFp(r));
    }
    SlotsPerKey(s, "");
    assert (set p | p in ToSet(s) && p.ptr.fingerprint.AnonFp?)
      == set p | p in Canonical(s) && p.ptr.fingerprint.AnonFp?;
  }

  // ---- validity ----

  ghost predicate CredChecks(x: Instance, key: Key, c: Cred) {
    c.postingKey == key && (c.attestation.Some? ==> x.attestationOk(c.attestation.value, key))
  }

  // p carries the fingerprint of the credential held for its replier.
  ghost predicate Belongs(x: Instance, creds: map<Key, Cred>, p: Pointer) {
    p.ptr.replier in creds &&
    var c := creds[p.ptr.replier];
    p.ptr.fingerprint == match c.attestation
      case Some(att) => GhostFp(x.attestationFp(att))
      case None => AnonFp(x.anonFp(c.postingKey))
  }

  ghost predicate PointerChecks(x: Instance, creds: map<Key, Cred>, p: Pointer) {
    && p.ptr.owner == x.owner && Belongs(x, creds, p)
    && x.pointerSigned(creds[p.ptr.replier].postingKey, p.ptr, p.signature)
    && (p.ptr.fingerprint.AnonFp? ==> LeadingZeroBits(x.powHash(x.owner, p.ptr.replier, p.powNonce)) >= 20)
  }

  // What full-state validation accepts.
  lemma VerifiedExactly(x: Instance, st: InboxState)
    ensures Verified(x, st) <==>
      && (st.powDifficulty.Some? ==>
            x.publisher(st.powDifficulty.value) && |st.powDifficulty.value.body| <= 65_536)
      && |st.creds| <= 300
      && (forall k :: k in st.creds ==>
            CredChecks(x, k, st.creds[k]) && exists p :: p in st.pointers && p.ptr.replier == k)
      && (forall i, j :: 0 <= i < j < |st.pointers| ==>
            Before(st.pointers[i], st.pointers[j]) && st.pointers[i].ptr.replyPost != st.pointers[j].ptr.replyPost)
      && WithinLimits(ToSet(st.pointers))
      && (forall p :: p in st.pointers ==> PointerChecks(x, st.creds, p))
  {
    hide WithinCaps, WithinLimits, PointerOk, PointerChecks, Instance.CredOk, CredChecks;
    var s := st.pointers;
    forall k | k in st.creds ensures x.CredOk(k, st.creds[k]) <==> CredChecks(x, k, st.creds[k]) {
      CredCheckIs(x, k, st.creds[k]);
    }
    forall p | p in s ensures PointerOk(x, st.creds, p) <==> PointerChecks(x, st.creds, p) {
      PointerCheckIs(x, st.creds, p);
    }
    assert Ascending(s) && DistinctIds(s) <==>
      forall i, j :: 0 <= i < j < |s| ==> Before(s[i], s[j]) && s[i].ptr.replyPost != s[j].ptr.replyPost by {
      SortedExactly(s);
    }
    if Ascending(s) && DistinctIds(s) { LimitsAreCaps(s); }
  }

  lemma CredCheckIs(x: Instance, key: Key, c: Cred)
    ensures x.CredOk(key, c) <==> CredChecks(x, key, c)
  {}

  lemma PointerCheckIs(x: Instance, creds: map<Key, Cred>, p: Pointer)
    ensures PointerOk(x, creds, p) <==> PointerChecks(x, creds, p)
  {}

  lemma SortedExactly(s: seq<Pointer>)
    ensures Ascending(s) && DistinctIds(s) <==>
      forall i, j :: 0 <= i < j < |s| ==> Before(s[i], s[j]) && s[i].ptr.replyPost != s[j].ptr.replyPost
  {}

  lemma LimitsAreCaps(s: seq<Pointer>)
    requires Ascending(s) && DistinctIds(s)
    ensures WithinCaps(s) <==> WithinLimits(ToSet(s))
  {
    hide WithinLimits, WithinCaps;
    assert StrictlyAscending(s);
    assert forall p, q :: p in s && q in s && p.ptr.replyPost == q.ptr.replyPost ==> p == q;
    if WithinCaps(s) {
      VerifiedIsSeated(s);
    }
    if WithinLimits(ToSet(s)) {
      forall p | p in ToSet(s) ensures Survives(p, ToSet(s)) {
        WithinLimitsStays(p, ToSet(s));
        StaysIsSurvival(p, ToSet(s));
      }
      assert Seated(s);
      SeatedIsWithinCaps(s);
    }
    hide Ascending, DistinctIds, StrictlyAscending;
    if Seated(s) {
      CanonicalFixpoint(s);
      AllStayExactly(s);
    }
  }

  // ---- one delta ----

  ghost function PointersSent(d: InboxDelta): seq<Pointer> { if d.pointers == None then [] else d.pointers.value }

  ghost function CredsSent(d: InboxDelta): map<Key, Cred> { if d.creds == None then map[] else d.creds.value }

  // Anonymous pointers of this inbox need the bits; all others are let through to the checks.
  ghost predicate LetIn(x: Instance, bits: nat, p: Pointer) {
    p.ptr.fingerprint.AnonFp? && p.ptr.owner == x.owner ==>
      LeadingZeroBits(x.powHash(x.owner, p.ptr.replier, p.powNonce)) >= bits
  }

  // Some pointer held, or sent and let in, is by key.
  ghost predicate Referred(x: Instance, bits: nat, held: seq<Pointer>, sent: seq<Pointer>, key: Key) {
    exists p :: (p in held || (p in sent && LetIn(x, bits, p))) && p.ptr.replier == key
  }

  // c replaces nothing, an anonymous credential with a nonzero hash of its attestation, or an
  // attested one with a greater hash.
  ghost predicate Replaces(x: Instance, held: map<Key, Cred>, key: Key, c: Cred) {
    key in held ==>
      match (held[key].attestation, c.attestation)
      case (_, None) => false
      case (None, Some(a)) => x.attestationHash(a) > 0
      case (Some(b), Some(a)) => x.attestationHash(a) > x.attestationHash(b)
  }

  // The credentials a delta leaves, before the cleanup.
  ghost function CredsNow(x: Instance, bits: nat, st: InboxState, d: InboxDelta): map<Key, Cred> {
    map k | k in st.creds.Keys + CredsSent(d).Keys
      && (k in st.creds || Referred(x, bits, st.pointers, PointersSent(d), k)) ::
      if k in CredsSent(d) && Referred(x, bits, st.pointers, PointersSent(d), k)
        && Replaces(x, st.creds, k, CredsSent(d)[k]) then CredsSent(d)[k] else st.creds[k]
  }

  ghost predicate ForeignOrForged(x: Instance, creds: map<Key, Cred>, p: Pointer) {
    || p.ptr.owner != x.owner
    || (p.ptr.replier in creds && !x.pointerSigned(creds[p.ptr.replier].postingKey, p.ptr, p.signature))
  }

  // All that a delta is refused for.
  ghost predicate Refused(x: Instance, bits: nat, st: InboxState, d: InboxDelta) {
    || |CredsSent(d)| > 300
    || (exists p :: p in PointersSent(d) && LetIn(x, bits, p) &&
          (ForeignOrForged(x, CredsNow(x, bits, st, d), p) || ForeignOrForged(x, CredsSent(d), p)))
    || (exists k :: k in CredsSent(d) && Referred(x, bits, st.pointers, PointersSent(d), k)
          && Replaces(x, st.creds, k, CredsSent(d)[k]) && !CredChecks(x, k, CredsSent(d)[k]))
  }

  ghost function BarAfter(x: Instance, st: InboxState, d: InboxDelta): nat {
    DifficultyBits(x.publisher, Adopt(x.publisher, st.powDifficulty, d.powDifficulty))
  }

  lemma AdmittedAre(x: Instance, st: InboxState, d: InboxDelta)
    ensures forall p :: p in AdmittedBy(x, st, d) <==> p in PointersSent(d) && LetIn(x, BarAfter(x, st, d), p)
  {}

  lemma WinsIs(x: Instance, held: map<Key, Cred>, key: Key, c: Cred)
    ensures Wins(x, held, key, c) <==> Replaces(x, held, key, c)
  {}

  lemma VouchedAre(x: Instance, st: InboxState, d: InboxDelta)
    ensures forall k :: k in VouchedBy(x, st, d) <==>
      k in CredsSent(d) && Referred(x, BarAfter(x, st, d), st.pointers, PointersSent(d), k)
    ensures forall k :: k in VouchedBy(x, st, d) ==> VouchedBy(x, st, d)[k] == CredsSent(d)[k]
  {
    hide LetIn, AdmittedBy;
    AdmittedAre(x, st, d);
  }

  lemma CredsNowAre(x: Instance, st: InboxState, d: InboxDelta)
    ensures CredsAfter(x, st, d) == CredsNow(x, BarAfter(x, st, d), st, d)
  {
    hide Referred, VouchedBy, Wins, Replaces;
    VouchedAre(x, st, d);
    forall k, c ensures Wins(x, st.creds, k, c) <==> Replaces(x, st.creds, k, c) { WinsIs(x, st.creds, k, c); }
  }

  // A delta is refused exactly for too many credentials, for a let-in pointer that is foreign
  // or forged, or for a credential it would seat that does not check.
  lemma RefusedExactly(x: Instance, st: InboxState, d: InboxDelta)
    ensures Apply(x, st, d).Err? <==> Refused(x, BarAfter(x, st, d), st, d)
  {
    hide Cleanup, PointersAfter, AdmittedBy, VouchedBy, CredsAfter, CredsNow, LetIn, Referred, Wins, Replaces;
    hide CredChecks, Instance.CredOk;
    AdmittedAre(x, st, d);
    VouchedAre(x, st, d);
    CredsNowAre(x, st, d);
    forall k, c ensures Wins(x, st.creds, k, c) <==> Replaces(x, st.creds, k, c) { WinsIs(x, st.creds, k, c); }
    forall k, c ensures x.CredOk(k, c) <==> CredChecks(x, k, c) { CredCheckIs(x, k, c); }
    assert CredsSent(d) == CredsIn(d);
  }

  // What an accepted delta leaves. The pointers that were let in, match their credential and
  // are canonical beside those held; of these, the ones that still match, canonical again; a
  // credential for each of their repliers; and the newer record.
  lemma AppliedExactly(x: Instance, st: InboxState, d: InboxDelta)
    returns (ps: seq<Pointer>, matched: seq<Pointer>)
    requires Apply(x, st, d).Ok?
    ensures forall p :: p in ps <==>
      && p in PointersSent(d) && LetIn(x, BarAfter(x, st, d), p)
      && Belongs(x, CredsNow(x, BarAfter(x, st, d), st, d), p)
    ensures forall p :: p in matched <==>
      && p in (if d.pointers == None then st.pointers else Canonical(st.pointers + ps))
      && Belongs(x, CredsNow(x, BarAfter(x, st, d), st, d), p)
    ensures var end := Apply(x, st, d).value;
      && end.pointers == Canonical(matched)
      && (forall k :: k in end.creds <==> exists p :: p in end.pointers && p.ptr.replier == k)
      && (forall k :: k in end.creds ==>
            k in CredsNow(x, BarAfter(x, st, d), st, d) && end.creds[k] == CredsNow(x, BarAfter(x, st, d), st, d)[k])
      && end.powDifficulty == Adopt(x.publisher, st.powDifficulty, d.powDifficulty)
  {
    hide Canonical, AdmittedBy, VouchedBy, CredsAfter, CredsNow, LetIn, ForeignOrForged, CredChecks;
    AdmittedAre(x, st, d);
    CredsNowAre(x, st, d);
    RefusedExactly(x, st, d);
    hide Rejected;
    var creds := CredsAfter(x, st, d);
    ps := Accepted(x, creds, AdmittedBy(x, st, d));
    var after := InboxState(creds, PointersAfter(x, st, d), PowAfter(x, st, d));
    matched := Matching(x, after);
    forall p | p in AdmittedBy(x, st, d) ensures p in ps <==> Belongs(x, creds, p) {
      NotForged(x, st, d, p);
    }
    var end := Apply(x, st, d).value;
    forall k | exists p :: p in end.pointers && p.ptr.replier == k ensures k in end.creds {
      var p :| p in end.pointers && p.ptr.replier == k;
      InCanonical(matched, p);
    }
  }

  lemma NotForged(x: Instance, st: InboxState, d: InboxDelta, p: Pointer)
    requires !Refused(x, BarAfter(x, st, d), st, d) && p in AdmittedBy(x, st, d)
    ensures x.CheckPointer(p, CredsAfter(x, st, d)) == Ok(Belongs(x, CredsAfter(x, st, d), p))
  {
    hide Referred, CredsNow, LetIn, AdmittedBy, CredsAfter;
    AdmittedAre(x, st, d);
    CredsNowAre(x, st, d);
    assert !ForeignOrForged(x, CredsNow(x, BarAfter(x, st, d), st, d), p);
  }

  // A credential that an accepted delta newly seats was in it, is for the key it is stored
  // under, and its attestation, if any, verifies for that key. It never takes the place of one
  // with an equal or greater hash, and an anonymous one never takes any place.
  lemma SeatedCredOrigin(x: Instance, st: InboxState, d: InboxDelta, k: Key)
    requires Apply(x, st, d).Ok? && k in Apply(x, st, d).value.creds
    requires !(k in st.creds && st.creds[k] == Apply(x, st, d).value.creds[k])
    ensures
      var c := Apply(x, st, d).value.creds[k];
      && d.creds.Some? && k in d.creds.value && c == d.creds.value[k]
      && c.postingKey == k
      && (c.attestation.Some? ==> x.attestationOk(c.attestation.value, k))
      && (k in st.creds ==>
            var held := st.creds[k].attestation;
            c.attestation.Some? && x.attestationHash(c.attestation.value) > match held
              case Some(a) => x.attestationHash(a)
              case None => 0)
  {
    hide Canonical, Refused, Referred, LetIn;
    var ps, matched := AppliedExactly(x, st, d);
    RefusedExactly(x, st, d);
    SeatedChecks(x, BarAfter(x, st, d), st, d, k);
  }

  lemma SeatedChecks(x: Instance, bits: nat, st: InboxState, d: InboxDelta, k: Key)
    requires !Refused(x, bits, st, d) && k in CredsNow(x, bits, st, d)
    requires !(k in st.creds && st.creds[k] == CredsNow(x, bits, st, d)[k])
    ensures k in CredsSent(d) && CredsNow(x, bits, st, d)[k] == CredsSent(d)[k]
    ensures CredChecks(x, k, CredsSent(d)[k]) && Replaces(x, st.creds, k, CredsSent(d)[k])
  {
    hide ForeignOrForged, Referred, CredChecks;
  }

  // ---- one answer ----

  // A sort key that a horizon lets through.
  ghost predicate Past(horizon: TierHorizon, p: Pointer) {
    match horizon
    case Open => true
    case OldestRetained(o) => o.time < p.ptr.time || (o.time == p.ptr.time && o.tie < p.ptr.replyPost)
    case Closed => false
  }

  // What any summary, stale or fabricated, is answered with.
  lemma OfferedToAny(s: InboxState, theirs: PointersSummary, p: Pointer)
    ensures p in Offered(s.pointers, theirs) <==>
      && p in s.pointers && p.ptr.replyPost !in theirs.ids
      && Past(if p.ptr.fingerprint.AnonFp? then theirs.anonHorizon else theirs.attestedHorizon, p)
      && (p.ptr.fingerprint in theirs.fpHorizons ==> Past(OldestRetained(theirs.fpHorizons[p.ptr.fingerprint]), p))
  {
    assert p in Offered(s.pointers, theirs) <==> p in ToSet(Offered(s.pointers, theirs));
  }

  // r has no pointer for p's reply post, and p would stay beside those it has.
  ghost predicate Lacks(r: InboxState, p: Pointer) {
    (forall q :: q in r.pointers ==> q.ptr.replyPost != p.ptr.replyPost) && Stays(p, ToSet(r.pointers))
  }

  // A pointer is offered exactly when the receiver lacks it.
  lemma OfferedExactly(x: Instance, r: InboxState, s: InboxState, p: Pointer)
    requires Verified(x, r)
    ensures p in Offered(s.pointers, Summary(x, r).pointers) <==> p in s.pointers && Lacks(r, p)
  {
    hide Ascending, DistinctIds, WithinCaps, Survives, Stays, Retains;
    var o := Offered(s.pointers, Summary(x, r).pointers);
    assert p in o <==> p in ToSet(o);
    assert Seated(r.pointers) by { VerifiedIsSeated(r.pointers); }
    StaysIsSurvival(p, ToSet(r.pointers));
    if forall q :: q in r.pointers ==> q.ptr.replyPost != p.ptr.replyPost {
      HorizonsAreSurvival(r.pointers, p);
    }
  }

  // A credential is offered as an upgrade of the one held, or with a pointer by its key.
  ghost predicate Flows(x: Instance, r: InboxState, ps: seq<Pointer>, k: Key, c: Cred) {
    if k in r.creds then Replaces(x, r.creds, k, c) else exists p :: p in ps && p.ptr.replier == k
  }

  ghost predicate Newer(s: InboxState, r: InboxState) {
    s.powDifficulty.Some? && s.powDifficulty.value.seqNo > match r.powDifficulty
      case Some(held) => held.seqNo
      case None => 0
  }

  // The whole of delta and summarize: which pointers, which credentials, which record, and
  // that silence means none of the three.
  lemma DeltaExactly(x: Instance, r: InboxState, s: InboxState)
    requires Verified(x, r)
    ensures
      var d := Delta(x, s, Summary(x, r));
      var ps := if d.Some? then PointersSent(d.value) else [];
      var cs := if d.Some? then CredsSent(d.value) else map[];
      && (forall p :: p in ps <==> p in s.pointers && Lacks(r, p))
      && (forall k :: k in cs <==> k in s.creds && Flows(x, r, ps, k, s.creds[k]))
      && (forall k :: k in cs ==> cs[k] == s.creds[k])
      && (d.None? <==> ps == [] && cs == map[] && !Newer(s, r))
      && (d.Some? ==> d.value.powDifficulty == if Newer(s, r) then s.powDifficulty else None)
  {
    hide Lacks, Summarize, Offered, Verified;
    var d, o := Delta(x, s, Summary(x, r)), Offered(s.pointers, Summary(x, r).pointers);
    forall p ensures p in o <==> p in s.pointers && Lacks(r, p) { OfferedExactly(x, r, s, p); }
    forall k ensures d.Some? && k in CredsIn(d.value) <==> k in s.creds && Flows(x, r, o, k, s.creds[k]) {
      CredsOfferedExactly(x, r, s, k);
      if k in r.creds && k in s.creds { WinsIs(x, r.creds, k, s.creds[k]); }
    }
  }
}
