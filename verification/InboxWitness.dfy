// Concrete inboxes behind the exact conditions: inputs on which a late answer loses a
// pointer, a scrub leaves an invalid state, and an upgrade at the caps depends on order.
//
// One ghost key attests two posting keys, 1 and 2, which therefore share a fairness cap:
// eight pointers of key 2 evict the one pointer of key 1 and, with it, its credential.
module InboxWitness {
  import opened Basics
  import opened Pow
  import opened PointerLog
  import opened PointerVec
  import opened PointerSync
  import opened PointerLimits
  import opened Inbox
  import opened InboxSync
  import opened InboxGossip
  import opened InboxUpgrade
  import Shell = InboxShell

  const PLAIN: Instance := Instance(
    0,
    (key: Key, ptr: ReplyPointer, sig: Signature) => true,
    (att: Attestation, key: Key) => true,
    (att: Attestation) => att.handle,
    (att: Attestation) => "ghost",
    (key: Key) => "key",
    (owner: Key, key: Key, nonce: u64) => [0, 0, 0],
    (cell: Cell) => false)

  function Attests(k: Key): Cred { Cred(k, Some(Attestation(k))) }

  const BOOK: map<Key, Cred> := map[1 := Attests(1), 2 := Attests(2)]

  // Key k's attested pointer, sent at time n about its own post n.
  function At(k: Key, n: u64): Pointer {
    Pointer(ReplyPointer(0, k, GhostFp("ghost"), 0, n, n), 0, 0)
  }

  // Key 2's first n pointers, sent at times 1 to n.
  function Crowd(n: nat): seq<Pointer>
    requires n <= 8
  {
    if n == 0 then [] else Crowd(n - 1) + [At(2, n)]
  }

  const EARLY: Pointer := At(1, 0)
  const CROWD: seq<Pointer> := Crowd(8)
  const LATE: Pointer := At(1, 9)

  // ---- what stays ----

  lemma FewStay(S: set<Pointer>)
    requires |S| <= MAX_PER_FINGERPRINT && forall p :: p in S ==> !p.IsAnon()
    ensures Evict(S) == S
  {
    forall p | p in S ensures Survives(p, S) {
      SubsetCard(GroupNewer(p, S) + {p}, S);
      SubsetCard(Fair(Above(p, S)) + {p}, S);
    }
  }

  lemma {:induction false} CrowdOf(n: nat)
    requires n <= 8
    ensures |Crowd(n)| == n && forall i :: 0 <= i < n ==> Crowd(n)[i] == At(2, i + 1)
  {
    if n > 0 { CrowdOf(n - 1); }
  }

  lemma CrowdAscends()
    ensures StrictlyAscending(CROWD) && |ToSet(CROWD)| == 8
    ensures forall q :: q in CROWD ==> q == At(2, q.ptr.time) && 1 <= q.ptr.time <= 8
  {
    CrowdOf(8);
    hide Crowd;
    assert StrictlyAscending(CROWD);
    SetCard(CROWD);
  }

  lemma CrowdRepliers()
    ensures Repliers(CROWD) == {2}
  {
    CrowdOf(8);
    hide Crowd;
    assert CROWD[0] in CROWD;
  }

  lemma CrowdIs()
    ensures StrictlyAscending(CROWD) && |ToSet(CROWD)| == 8 && Repliers(CROWD) == {2}
    ensures forall q :: q in CROWD ==> q == At(2, q.ptr.time) && 1 <= q.ptr.time <= 8
    ensures Evict(ToSet(CROWD)) == ToSet(CROWD)
  {
    CrowdAscends();
    CrowdRepliers();
    hide CROWD, StrictlyAscending, Evict, Repliers;
    FewStay(ToSet(CROWD));
  }

  lemma IdsDiffer()
    ensures UniqueIds({EARLY} + ToSet(CROWD) + {LATE})
  {
    CrowdAscends();
    hide CROWD, StrictlyAscending;
  }

  lemma EarlyIsCrowdedOut()
    ensures !InGroupCap(EARLY, {EARLY} + ToSet(CROWD)) && EARLY !in CROWD
  {
    CrowdAscends();
    hide CROWD, StrictlyAscending;
    assert GroupNewer(EARLY, {EARLY} + ToSet(CROWD)) == ToSet(CROWD);
  }

  lemma CrowdEvicts()
    ensures UniqueIds({EARLY} + ToSet(CROWD) + {LATE})
    ensures Evict({EARLY} + ToSet(CROWD)) == ToSet(CROWD)
  {
    CrowdIs();
    IdsDiffer();
    EarlyIsCrowdedOut();
    hide Evict, CROWD, StrictlyAscending, InGroupCap;
    var S := {EARLY} + ToSet(CROWD);
    assert UniqueIds(S);
    hide UniqueIds;
    EvictWithoutLosers(S, {EARLY});
    assert S - {EARLY} == ToSet(CROWD);
  }

  lemma AttestedIsOk(book: map<Key, Cred>, k: Key, n: u64)
    requires k in book && book[k] == Attests(k)
    ensures PointerOk(PLAIN, book, At(k, n))
  {}

  // ---- a late answer that loses a pointer ----

  const WORLD: World := World(BOOK, {EARLY} + ToSet(CROWD) + {LATE}, {}, POW_FLOOR_BITS)

  lemma WorldIsOk()
    ensures WorldOk(PLAIN, WORLD)
  {
    EveryoneIsHonest();
    CrowdIs();
    hide Honest, CROWD, StrictlyAscending, Evict;
    assert forall p :: p in WORLD.pointers ==> !p.IsAnon();
  }

  lemma EveryoneIsHonest()
    ensures Honest(PLAIN, BOOK, {EARLY} + ToSet(CROWD) + {LATE})
  {
    CrowdIs();
    CrowdEvicts();
    hide CROWD, StrictlyAscending, Evict, PointerOk, UniqueIds;
    forall p | p in {EARLY} + ToSet(CROWD) + {LATE} ensures PointerOk(PLAIN, BOOK, p) {
      AttestedIsOk(BOOK, p.ptr.replier, p.ptr.time);
    }
  }

  // The receiver when it summarized, the receiver when the answer arrives, and the sender.
  const THEN: Replica := Replica(InboxState(map[1 := Attests(1)], [EARLY], None), {EARLY}, {})
  const NOW: Replica := Replica(InboxState(map[2 := Attests(2)], CROWD, None), {EARLY} + ToSet(CROWD), {})
  const SENDER: Replica := Replica(InboxState(map[1 := Attests(1)], [LATE], None), {LATE}, {})

  lemma SingleReplica(p: Pointer)
    requires p in WORLD.pointers && p.ptr.replier == 1 && !p.IsAnon()
    ensures ReplicaOk(WORLD, Replica(InboxState(map[1 := Attests(1)], [p], None), {p}, {}))
  {
    hide Evict, CROWD;
    FewStay({p});
    assert ToSet([p]) == {p};
    assert Repliers([p]) == {1};
    assert Referenced(BOOK, [p]) == map[1 := Attests(1)];
    assert StrictlyAscending([p]);
  }

  lemma ReplicasAreOk()
    ensures ReplicaOk(WORLD, THEN) && ReplicaOk(WORLD, NOW) && ReplicaOk(WORLD, SENDER)
  {
    SingleReplica(EARLY);
    SingleReplica(LATE);
    CrowdedReplica();
    hide CROWD, ReplicaOk;
  }

  lemma CrowdedReplica()
    ensures ReplicaOk(WORLD, NOW)
  {
    CrowdIs();
    CrowdEvicts();
    hide Evict, CROWD, UniqueIds, StrictlyAscending;
    assert Referenced(BOOK, CROWD) == map[2 := Attests(2)];
  }

  lemma LateIsOffered()
    ensures LATE in Offered([LATE], Summarize([EARLY]))
  {
    FewStay({EARLY});
    assert ToSet([EARLY]) == {EARLY};
    hide Evict, Retains, Summarize;
    NewestSurvives(LATE, {EARLY});
    HorizonsAreSurvival([EARLY], LATE);
    IdHeld([EARLY], LATE);
    if LATE !in Offered([LATE], Summarize([EARLY])) { NotOffered([LATE], [EARLY], LATE); }
  }

  // LATE belongs among the survivors of both histories, and is dropped all the same: the
  // receiver has pruned the credential that the sender saw in its summary.
  lemma LateAnswerCanLose()
    ensures WorldOk(PLAIN, WORLD) && ReplicaOk(WORLD, THEN) && ReplicaOk(WORLD, NOW) && ReplicaOk(WORLD, SENDER)
    ensures Knows(NOW, THEN) && Delta(PLAIN, SENDER.state, Summary(PLAIN, THEN.state)).Some?
    ensures var d := Delta(PLAIN, SENDER.state, Summary(PLAIN, THEN.state)).value;
      && LATE in PointersIn(d) && LATE in Evict(NOW.heard + SENDER.heard)
      && Apply(PLAIN, NOW.state, d).Ok? && LATE !in Apply(PLAIN, NOW.state, d).value.pointers
  {
    WorldIsOk();
    ReplicasAreOk();
    LateStays();
    AnswerIsBare();
    hide Evict, Apply, ReplicaOk, WorldOk, Delta, CROWD, Reflects;
    var d := Delta(PLAIN, SENDER.state, Summary(PLAIN, THEN.state)).value;
    AnswerApplies(PLAIN, WORLD, THEN, NOW, SENDER);
    LateUnheard();
    NotGained(NOW, d, Apply(PLAIN, NOW.state, d).value);
  }

  lemma LateUnheard()
    ensures LATE !in NOW.heard
  {
    CrowdIs();
  }

  lemma LateStays()
    ensures LATE in Evict(NOW.heard + SENDER.heard)
  {
    CrowdIs();
    hide Survives, CROWD, StrictlyAscending;
    NewestSurvives(LATE, NOW.heard + SENDER.heard);
  }

  // The answer carries LATE and, the receiver having shown its credential, nothing else.
  lemma AnswerIsBare()
    ensures var d := Delta(PLAIN, SENDER.state, Summary(PLAIN, THEN.state));
      d.Some? && LATE in PointersIn(d.value) && CredsIn(d.value) == map[]
  {
    LateIsOffered();
    hide Offered, Summarize;
    var offered := Offered([LATE], Summarize([EARLY]));
    assert OfferedCreds(PLAIN, SENDER.state, Summary(PLAIN, THEN.state), offered) == map[];
    assert offered != [];
  }

  lemma NotGained(n: Replica, d: InboxDelta, next: InboxState)
    requires Reflects(BOOK, n.heard + Usable(n.state, d), next) && LATE !in n.heard && !Vouches(n.state, d, LATE)
    ensures LATE !in next.pointers
  {
    hide Survives;
    assert LATE in next.pointers ==> LATE in ToSet(next.pointers);
  }

  // ---- and a run that gets there ----

  const SENT_EARLY: InboxDelta := UPGRADE
  const SENT_LATE: InboxDelta := InboxDelta(Some(map[1 := Attests(1)]), Some([LATE]), None)
  const QUESTION: Ask := Ask(0, THEN)

  ghost function Reply(): Mail {
    Mail(0, InboxDelta(None, Some([LATE]), None), THEN, SENDER)
  }

  // A client posts d to the first replica, which summarizes and then hears of crowd; the
  // second hears of e, answers the old summary, and the answer is delivered.
  ghost function Events(d: InboxDelta, crowd: InboxDelta, e: InboxDelta, q: Ask, m: Mail): seq<Event> {
    [Post(0, d), Summarizes(0), Post(0, crowd), Post(1, e), Answer(1, q), Deliver(m)]
  }

  ghost function History(a: Replica, b: Replica, s: Replica, end: Replica, q: Ask, m: Mail): seq<Net> {
    [Net([FRESH, FRESH], {}, {}, {}),
     Net([a, FRESH], {}, {}, {}),
     Net([a, FRESH], {q}, {}, {}),
     Net([b, FRESH], {q}, {}, {}),
     Net([b, s], {q}, {}, {}),
     Net([b, s], {q}, {m}, {}),
     Net([end, s], {q}, {m}, {})]
  }

  ghost function AtEnd(): Replica
    requires Apply(PLAIN, NOW.state, Reply().delta).Ok?
  {
    Replica(Apply(PLAIN, NOW.state, Reply().delta).value, NOW.heard + Learned(NOW, Reply()), {})
  }

  // What a replica becomes by a post is settled by what it is left with.
  lemma PostLeads(n: Replica, d: InboxDelta, n': Replica)
    requires ReplicaOk(WORLD, n) && ReplicaOk(WORLD, n') && FromWorld(PLAIN, WORLD, d) && d.powDifficulty.None?
    requires n'.heard == n.heard + Usable(n.state, d) && n'.records == n.records
    requires n.state.powDifficulty.None? && n'.state.powDifficulty.None?
    ensures Posted(PLAIN, WORLD, n, d, n')
  {
    hide Apply, Usable, FromWorld, Evict, StrictlyAscending, WORLD;
    WorldIsOk();
    PostKeepsReplica(PLAIN, WORLD, n, d);
    SameReflection(WORLD.book, n'.heard, Apply(PLAIN, n.state, d).value, n'.state);
    KeepsNoRecord(WORLD, n'.records, Apply(PLAIN, n.state, d).value.powDifficulty, n'.state.powDifficulty);
  }

  lemma KeepsNoRecord(w: World, records: set<Cell>, a: Option<Cell>, b: Option<Cell>)
    requires RecordsReflected(records, a) && RecordsReflected(records, b) && b.None?
    ensures a == b
  {}

  lemma PostsLead()
    ensures Posted(PLAIN, WORLD, FRESH, SENT_EARLY, THEN) && Posted(PLAIN, WORLD, FRESH, SENT_LATE, SENDER)
    ensures Posted(PLAIN, WORLD, THEN, CROWD_BUNDLE, NOW)
  {
    ReplicasAreOk();
    FreshOk(WORLD);
    SendsAreWorldly();
    hide Apply, CROWD, ReplicaOk, FromWorld, Posted;
    PostLeads(FRESH, SENT_EARLY, THEN);
    PostLeads(FRESH, SENT_LATE, SENDER);
    PostLeads(THEN, CROWD_BUNDLE, NOW);
  }

  lemma SendsAreWorldly()
    ensures FromWorld(PLAIN, WORLD, SENT_EARLY) && FromWorld(PLAIN, WORLD, SENT_LATE)
    ensures FromWorld(PLAIN, WORLD, CROWD_BUNDLE)
    ensures Usable(FRESH.state, SENT_EARLY) == {EARLY} && Usable(FRESH.state, SENT_LATE) == {LATE}
    ensures Usable(THEN.state, CROWD_BUNDLE) == ToSet(CROWD)
  {
    CrowdIsWorldly();
    hide CROWD;
    assert ToSet([EARLY]) == {EARLY} && ToSet([LATE]) == {LATE};
  }

  lemma CrowdIsWorldly()
    ensures FromWorld(PLAIN, WORLD, CROWD_BUNDLE) && Usable(THEN.state, CROWD_BUNDLE) == ToSet(CROWD)
  {
    CrowdIs();
    hide CROWD, StrictlyAscending, Evict;
  }

  lemma AnswerIs()
    ensures Delta(PLAIN, SENDER.state, Summary(PLAIN, THEN.state)) == Some(Reply().delta)
  {
    AnswerIsBare();
    hide Summarize, Retains;
    var offered := Offered([LATE], Summarize([EARLY]));
    assert offered == [LATE] by { OneOffered(LATE, Summarize([EARLY])); }
    assert OfferedCreds(PLAIN, SENDER.state, Summary(PLAIN, THEN.state), offered) == map[];
  }

  lemma OneOffered(p: Pointer, theirs: PointersSummary)
    ensures Offered([p], theirs) == [] || Offered([p], theirs) == [p]
  {
    hide Retains;
    RestrictSnoc([p], set q | q in [p] && q.Id() !in theirs.ids && Retains(theirs, q));
    assert [p][..0] == [];
  }

  // The loss is reachable: a run of the network ends with LATE missing from a replica,
  // although it belongs among the survivors of what the two replicas have heard.
  lemma LossIsReachable()
    ensures Apply(PLAIN, NOW.state, Reply().delta).Ok?
    ensures var run := History(THEN, NOW, SENDER, AtEnd(), QUESTION, Reply());
      && Gossip(PLAIN, WORLD, run, Events(SENT_EARLY, CROWD_BUNDLE, SENT_LATE, QUESTION, Reply()))
      && LATE !in run[6].nodes[0].state.pointers
      && LATE in Evict(run[6].nodes[0].heard + run[6].nodes[1].heard)
  {
    hide Apply, CROWD, Posted, Evict, Delta, Summary, ReplicaOk, WorldOk, Complete, Usable, Gossip;
    hide InboxGossip.Received;
    LateAnswerCanLose();
    AnswerIs();
    PostsLead();
    StaysAfterAll();
    ReplyArrives();
    StepsFollow(PLAIN, WORLD, THEN, NOW, SENDER, AtEnd(), SENT_EARLY, CROWD_BUNDLE, SENT_LATE, QUESTION, Reply());
  }

  lemma PostStep(x: Instance, w: World, net: Net, net': Net, i: nat, d: InboxDelta, n: Replica)
    requires i < |net.nodes| && Posted(x, w, net.nodes[i], d, n) && net' == net.(nodes := net.nodes[i := n])
    ensures Step(x, w, net, net', Post(i, d))
  {
    hide Posted;
  }

  lemma StepsFollow(x: Instance, w: World, a: Replica, b: Replica, s: Replica, end: Replica,
                    d: InboxDelta, crowd: InboxDelta, e: InboxDelta, q: Ask, m: Mail)
    requires Posted(x, w, FRESH, d, a) && Posted(x, w, a, crowd, b) && Posted(x, w, FRESH, e, s)
    requires q == Ask(0, a) && m == Mail(0, m.delta, a, s)
    requires Delta(x, s.state, Summary(x, a.state)) == Some(m.delta)
    requires InboxGossip.Received(x, b, m, end)
    ensures Gossip(x, w, History(a, b, s, end, q, m), Events(d, crowd, e, q, m))
  {
    var run, events := History(a, b, s, end, q, m), Events(d, crowd, e, q, m);
    hide Posted, Delta, Summary, InboxGossip.Received, FRESH;
    assert Step(x, w, run[0], run[1], events[0]) by { PostStep(x, w, run[0], run[1], 0, d, a); }
    assert Step(x, w, run[1], run[2], events[1]);
    assert Step(x, w, run[2], run[3], events[2]) by { PostStep(x, w, run[2], run[3], 0, crowd, b); }
    assert Step(x, w, run[3], run[4], events[3]) by { PostStep(x, w, run[3], run[4], 1, e, s); }
    assert Step(x, w, run[4], run[5], events[4]);
    assert Step(x, w, run[5], run[6], events[5]);
    hide Step;
  }

  lemma ReplyArrives()
    requires Apply(PLAIN, NOW.state, Reply().delta).Ok?
    ensures InboxGossip.Received(PLAIN, NOW, Reply(), AtEnd()) && Reply().sender == SENDER && Reply().to == 0
  {
    hide Apply, CROWD, Complete, Usable;
  }

  lemma StaysAfterAll()
    requires Apply(PLAIN, NOW.state, Reply().delta).Ok?
    ensures LATE in Evict(AtEnd().heard + SENDER.heard)
  {
    LateStays();
    hide Evict, Apply, CROWD, Complete;
    assert Usable(NOW.state, Reply().delta) <= {LATE};
    assert AtEnd().heard + SENDER.heard == NOW.heard + SENDER.heard;
  }

  // ---- two records numbered 0 ----

  // An instance whose publisher signed two records under the number that means none.
  const LAX: Instance := Instance(
    0, PLAIN.pointerSigned, PLAIN.attestationOk, PLAIN.attestationHash, PLAIN.attestationFp, PLAIN.anonFp,
    PLAIN.powHash, (cell: Cell) => true)

  const HOLDS_FIRST: InboxState := InboxState(map[], [], Some(Cell(0, [20], 0)))
  const HOLDS_SECOND: InboxState := InboxState(map[], [], Some(Cell(0, [26], 0)))

  // Both replicas are valid, they differ, and neither ever has a delta for the other.
  lemma ZeroRecordsNeverMeet()
    ensures Verified(LAX, HOLDS_FIRST) && Verified(LAX, HOLDS_SECOND) && HOLDS_FIRST != HOLDS_SECOND
    ensures Delta(LAX, HOLDS_FIRST, Summary(LAX, HOLDS_SECOND)) == None
    ensures Delta(LAX, HOLDS_SECOND, Summary(LAX, HOLDS_FIRST)) == None
  {
    assert TierOf([], true) == [] && Fingerprints([]) == {};
    NothingOffered(Summarize([]));
  }

  lemma NothingOffered(theirs: PointersSummary)
    ensures Offered([], theirs) == []
  {}

  // ---- a scrub that leaves an invalid state ----

  const AHEAD: InboxState := InboxState(map[1 := Attests(1)], [At(1, U64_MAX)], None)

  // A valid stored state that its own shell turns into one it would refuse.
  lemma ScrubCanOrphan()
    ensures Verified(PLAIN, AHEAD)
    ensures Shell.UpdateAll(PLAIN, 0, Scrubbed(AHEAD, 0), []).Ok?
    ensures !Shell.Validates(PLAIN, 0, Shell.UpdateAll(PLAIN, 0, Scrubbed(AHEAD, 0), []).value)
  {
    var p := At(1, U64_MAX);
    AheadIsVerified();
    assert NotFuture([p], 0) == {};
    assert Repliers(Scrubbed(AHEAD, 0).pointers) == {};
    hide Verified, Scrubbed;
    Shell.ScrubStaysValidExactly(PLAIN, 0, AHEAD);
    assert 1 in AHEAD.creds.Keys;
  }

  lemma AheadIsVerified()
    ensures Verified(PLAIN, AHEAD)
  {
    var p := At(1, U64_MAX);
    FewStay({p});
    assert ToSet([p]) == {p} && Repliers([p]) == {1};
    SeatedIsWithinCaps([p]);
    AttestedIsOk(AHEAD.creds, 1, U64_MAX);
    hide Ascending, DistinctIds, WithinCaps, PointerOk;
    assert |AHEAD.creds| == 1;
  }

  // ---- an upgrade at the caps that depends on order ----

  const ANON: Cred := Cred(1, None)
  const ANON_POINTER: Pointer := Pointer(ReplyPointer(0, 1, AnonFp("key"), 0, 100, 100), 0, 0)

  const ANON_BUNDLE: InboxDelta := InboxDelta(Some(map[1 := ANON]), Some([ANON_POINTER]), None)
  const UPGRADE: InboxDelta := InboxDelta(Some(map[1 := Attests(1)]), Some([EARLY]), None)
  const CROWD_BUNDLE: InboxDelta := InboxDelta(Some(map[2 := Attests(2)]), Some(CROWD), None)

  // The credentials in force when key 1 is only known anonymously.
  const ANON_BOOK: map<Key, Cred> := map[1 := ANON, 2 := Attests(2)]

  lemma AnonIsOk()
    ensures PointerOk(PLAIN, ANON_BOOK, ANON_POINTER) && PLAIN.Stamped(ANON_POINTER, POW_FLOOR_BITS)
    ensures PLAIN.CheckPointer(ANON_POINTER, map[1 := ANON]) == Ok(true)
  {
    assert LeadingZeroBits([0, 0, 0][1..][1..]) == 8 by { assert [0, 0, 0][1..][1..] == [0]; }
  }

  lemma BundlesAreSound()
    ensures Bundle(PLAIN, POW_FLOOR_BITS, ANON_BUNDLE)
    ensures Bundle(PLAIN, POW_FLOOR_BITS, UPGRADE) && Bundle(PLAIN, POW_FLOOR_BITS, CROWD_BUNDLE)
    ensures OneAttestationPerKey(PLAIN, [UPGRADE, CROWD_BUNDLE, ANON_BUNDLE])
    ensures OneAttestationPerKey(PLAIN, [ANON_BUNDLE, UPGRADE])
  {
    AnonIsOk();
    AnonBundleIsSound();
    UpgradeIsSound();
    CrowdBundleIsSound();
    OneEach();
    hide Bundle, OneAttestationPerKey;
  }

  // The only credentials anyone sends.
  predicate Known(k: Key, c: Cred) {
    (k == 1 && (c == ANON || c == Attests(1))) || (k == 2 && c == Attests(2))
  }

  lemma KnownCredsAgree(ds: seq<InboxDelta>)
    requires forall d, k :: d in ds && k in CredsIn(d) ==> Known(k, CredsIn(d)[k])
    ensures OneAttestationPerKey(PLAIN, ds)
  {
    hide CredsIn;
  }

  lemma OneEach()
    ensures OneAttestationPerKey(PLAIN, [UPGRADE, CROWD_BUNDLE, ANON_BUNDLE])
    ensures OneAttestationPerKey(PLAIN, [ANON_BUNDLE, UPGRADE])
  {
    hide CROWD, OneAttestationPerKey;
    KnownCredsAgree([UPGRADE, CROWD_BUNDLE, ANON_BUNDLE]);
    KnownCredsAgree([ANON_BUNDLE, UPGRADE]);
  }

  lemma AnonBundleIsSound()
    ensures Bundle(PLAIN, POW_FLOOR_BITS, ANON_BUNDLE)
  {
    AnonIsOk();
    hide LeadingZeroBits, CROWD;
    assert Repliers([ANON_POINTER]) == {1};
  }

  lemma UpgradeIsSound()
    ensures Bundle(PLAIN, POW_FLOOR_BITS, UPGRADE)
  {
    hide CROWD;
    assert Repliers([EARLY]) == {1};
  }

  lemma CrowdBundleIsSound()
    ensures Bundle(PLAIN, POW_FLOOR_BITS, CROWD_BUNDLE)
  {
    CrowdIs();
    hide CROWD, StrictlyAscending, Evict;
  }

  // Anonymous pointers beside few attested ones stay.
  lemma AnonStays(S: set<Pointer>)
    requires |S| <= MAX_PER_FINGERPRINT && forall p :: p in S ==> !p.IsAnon()
    ensures Survives(ANON_POINTER, S + {ANON_POINTER})
  {
    var T := S + {ANON_POINTER};
    assert GroupNewer(ANON_POINTER, T) == {} && Above(ANON_POINTER, T) == {};
    SubsetCard(Fair(Attested(T)), S);
  }

  lemma ThenCrowd(st: InboxState)
    requires Reflects(BOOK, {EARLY}, st) && st.powDifficulty.None?
    ensures Apply(PLAIN, st, CROWD_BUNDLE).Ok?
    ensures var end := Apply(PLAIN, st, CROWD_BUNDLE).value;
      && StrictlyAscending(end.pointers) && ToSet(end.pointers) == ToSet(CROWD)
      && end.creds == map[2 := Attests(2)] && end.powDifficulty.None?
  {
    CrowdIs();
    CrowdEvicts();
    CrowdFits(st);
    hide Evict, Apply, StrictlyAscending, CROWD, Honest, UniqueIds, Fits, Usable;
    HonestPart({EARLY} + ToSet(CROWD));
    HonestApply(PLAIN, BOOK, {EARLY}, st, CROWD_BUNDLE);
    CredsOfCrowd(Apply(PLAIN, st, CROWD_BUNDLE).value.pointers, BOOK);
  }

  lemma CrowdFits(st: InboxState)
    requires st.powDifficulty.None?
    ensures Fits(PLAIN, BOOK, st, CROWD_BUNDLE) && Usable(st, CROWD_BUNDLE) == ToSet(CROWD)
  {
    CrowdIs();
    hide CROWD, StrictlyAscending, Evict;
  }

  lemma CredsOfCrowd(s: seq<Pointer>, book: map<Key, Cred>)
    requires ToSet(s) == ToSet(CROWD) && 2 in book && book[2] == Attests(2)
    ensures Referenced(book, s) == map[2 := Attests(2)]
  {
    CrowdIs();
    hide CROWD, Evict, StrictlyAscending;
    assert forall p :: (p in s <==> p in ToSet(s)) && (p in CROWD <==> p in ToSet(CROWD));
    assert Repliers(s) == Repliers(CROWD);
  }

  lemma HonestPart(H: set<Pointer>)
    requires H <= WORLD.pointers
    ensures Honest(PLAIN, BOOK, H)
  {
    EveryoneIsHonest();
    SmallerHistory(PLAIN, BOOK, WORLD.pointers, H);
  }

  lemma ApplyThree(a: InboxDelta, b: InboxDelta, c: InboxDelta)
    ensures ApplyAll(PLAIN, EMPTY, [a, b, c]) ==
      match ApplyAll(PLAIN, EMPTY, [a, b]) case Ok(t) => Apply(PLAIN, t, c) case Err => Err
    ensures ApplyAll(PLAIN, EMPTY, [a, b]) ==
      match Apply(PLAIN, EMPTY, a) case Ok(t) => Apply(PLAIN, t, b) case Err => Err
  {
    hide Apply;
    assert [a, b, c][..2] == [a, b] && [a, b][..1] == [a] && [a][..0] == [];
    assert ApplyAll(PLAIN, EMPTY, []) == Ok(EMPTY);
    assert ApplyAll(PLAIN, EMPTY, [a]) == Apply(PLAIN, EMPTY, a);
  }

  // The credential goes with its evicted pointer, and a stale anonymous one is seated after.
  lemma UpgradeFirst()
    ensures var end := ApplyAll(PLAIN, EMPTY, [UPGRADE, CROWD_BUNDLE, ANON_BUNDLE]);
      end.Ok? && ANON_POINTER in end.value.pointers
  {
    hide Apply, ApplyAll, CROWD, Reflects, StrictlyAscending;
    ApplyThree(UPGRADE, CROWD_BUNDLE, ANON_BUNDLE);
    UpgradeSeats();
    var upgraded := Apply(PLAIN, EMPTY, UPGRADE).value;
    ThenCrowd(upgraded);
    AnonSeated(Apply(PLAIN, upgraded, CROWD_BUNDLE).value);
  }

  lemma UpgradeSeats()
    ensures Apply(PLAIN, EMPTY, UPGRADE).Ok?
    ensures Reflects(BOOK, {EARLY}, Apply(PLAIN, EMPTY, UPGRADE).value)
    ensures Apply(PLAIN, EMPTY, UPGRADE).value.powDifficulty.None?
  {
    EmptyReflects();
    UpgradeFits();
    hide Apply, CROWD, Reflects, Honest, Fits, Usable;
    HonestPart({EARLY});
    assert {} + {EARLY} == {EARLY};
    HonestApply(PLAIN, BOOK, {}, EMPTY, UPGRADE);
  }

  lemma EmptyReflects()
    ensures Reflects(BOOK, {}, EMPTY)
  {
    hide CROWD, Survives;
  }

  lemma UpgradeFits()
    ensures Fits(PLAIN, BOOK, EMPTY, UPGRADE)
    ensures Usable(EMPTY, UPGRADE) == {EARLY} && ToSet(PointersIn(UPGRADE)) == {EARLY}
  {
    hide CROWD;
  }

  lemma AnonSeated(st: InboxState)
    requires StrictlyAscending(st.pointers) && ToSet(st.pointers) == ToSet(CROWD) && st.powDifficulty.None?
    requires st.creds == map[2 := Attests(2)]
    ensures Apply(PLAIN, st, ANON_BUNDLE).Ok? && ANON_POINTER in Apply(PLAIN, st, ANON_BUNDLE).value.pointers
  {
    CrowdReflects(st);
    AnonIsHonest();
    AnonFits(st);
    AnonJoins();
    hide Apply, Reflects, CROWD, Honest, Fits, Usable, Evict;
    HonestApply(PLAIN, ANON_BOOK, ToSet(CROWD), st, ANON_BUNDLE);
    InReflection(ANON_BOOK, ToSet(CROWD) + {ANON_POINTER}, Apply(PLAIN, st, ANON_BUNDLE).value, ANON_POINTER);
  }

  lemma InReflection(book: map<Key, Cred>, H: set<Pointer>, st: InboxState, p: Pointer)
    requires Reflects(book, H, st) && p in Evict(H)
    ensures p in st.pointers
  {
    hide Evict, StrictlyAscending;
    assert p in ToSet(st.pointers);
  }

  lemma CrowdReflects(st: InboxState)
    requires StrictlyAscending(st.pointers) && ToSet(st.pointers) == ToSet(CROWD) && st.creds == map[2 := Attests(2)]
    ensures Reflects(ANON_BOOK, ToSet(CROWD), st)
  {
    hide CROWD, Evict, StrictlyAscending, Referenced;
    CrowdIs();
    CredsOfCrowd(st.pointers, ANON_BOOK);
  }

  lemma AnonFits(st: InboxState)
    requires st.powDifficulty.None?
    ensures Fits(PLAIN, ANON_BOOK, st, ANON_BUNDLE)
    ensures Usable(st, ANON_BUNDLE) == {ANON_POINTER} && ToSet(PointersIn(ANON_BUNDLE)) == {ANON_POINTER}
  {
    AnonIsOk();
    hide LeadingZeroBits, CROWD;
  }

  lemma AnonJoins()
    ensures ANON_POINTER in Evict(ToSet(CROWD) + {ANON_POINTER})
  {
    CrowdIs();
    hide Survives, CROWD, StrictlyAscending;
    AnonStays(ToSet(CROWD));
    InEvict(ANON_POINTER, ToSet(CROWD) + {ANON_POINTER});
  }

  lemma AnonIsHonest()
    ensures Honest(PLAIN, ANON_BOOK, ToSet(CROWD) + {ANON_POINTER})
  {
    CrowdIs();
    AnonIsOk();
    CrowdEvicts();
    hide CROWD, Evict, StrictlyAscending, PointerOk, LeadingZeroBits;
    forall p | p in ToSet(CROWD) + {ANON_POINTER} ensures PointerOk(PLAIN, ANON_BOOK, p) {
      if p in ToSet(CROWD) { AttestedIsOk(ANON_BOOK, 2, p.ptr.time); }
    }
  }

  // In the other order the anonymous pointer dies with the upgrade, for good.
  lemma AnonFirst()
    ensures var end := ApplyAll(PLAIN, EMPTY, [ANON_BUNDLE, UPGRADE, CROWD_BUNDLE]);
      end.Ok? && ANON_POINTER !in end.value.pointers
  {
    CrowdIs();
    hide Apply, ApplyAll, CROWD, Reflects, StrictlyAscending, Evict;
    ApplyThree(ANON_BUNDLE, UPGRADE, CROWD_BUNDLE);
    UpgradeReplaces();
    var upgraded := ApplyAll(PLAIN, EMPTY, [ANON_BUNDLE, UPGRADE]).value;
    ThenCrowd(upgraded);
    var end := Apply(PLAIN, upgraded, CROWD_BUNDLE).value;
    assert ANON_POINTER in end.pointers ==> ANON_POINTER in ToSet(end.pointers);
  }

  lemma UpgradeReplaces()
    ensures var end := ApplyAll(PLAIN, EMPTY, [ANON_BUNDLE, UPGRADE]);
      end.Ok? && Reflects(BOOK, {EARLY}, end.value) && end.value.powDifficulty.None?
  {
    var ds := [ANON_BUNDLE, UPGRADE];
    TwoBundlesFit();
    hide ApplyAll, Traffic;
    RunSettles(PLAIN, EMPTY, ds);
    var st := ApplyAll(PLAIN, EMPTY, ds).value;
    assert UPGRADE in ds;
    AttestedWins(PLAIN, POW_FLOOR_BITS, ds, st, UPGRADE, 1);
    SettledOnUpgrade(st);
  }

  lemma TwoPointers()
    ensures AllPointers([ANON_BUNDLE, UPGRADE]) == {EARLY, ANON_POINTER}
  {
    assert [ANON_BUNDLE, UPGRADE][..1] == [ANON_BUNDLE] && [ANON_BUNDLE][..0] == [];
    assert AllPointers([ANON_BUNDLE]) == {ANON_POINTER};
  }

  lemma TwoBundlesFit()
    ensures Traffic(PLAIN, POW_FLOOR_BITS, [ANON_BUNDLE, UPGRADE])
  {
    hide Bundle, BelowCaps, OneAttestationPerKey, AllPointers, CROWD;
    TwoPointers();
    BundlesAreSound();
    TwoFit();
  }

  lemma TwoFit()
    ensures BelowCaps({EARLY, ANON_POINTER})
  {
    var S := {EARLY, ANON_POINTER};
    assert {EARLY} + {ANON_POINTER} == S;
    AnonStays({EARLY});
    NewestAttestedStays(S);
    hide Survives;
  }

  lemma NewestAttestedStays(S: set<Pointer>)
    requires S == {EARLY, ANON_POINTER}
    ensures Survives(EARLY, S)
  {
    assert GroupNewer(EARLY, S) == {} && Above(EARLY, S) == {};
    assert Fair({}) == {};
  }

  lemma SettledOnUpgrade(st: InboxState)
    requires Settled(PLAIN, [ANON_BUNDLE, UPGRADE], st) && 1 in st.creds && st.creds[1] == Attests(1)
    ensures Reflects(BOOK, {EARLY}, st)
  {
    TwoPointers();
    FewStay({EARLY});
    forall k | k in st.creds ensures k == 1 {
      assert Sent([ANON_BUNDLE, UPGRADE], k, st.creds[k]);
    }
    forall p ensures p in st.pointers <==> p == EARLY {}
    hide Evict, StrictlyAscending;
    assert ToSet(st.pointers) == {EARLY};
    assert EARLY in st.pointers;
    assert Repliers(st.pointers) == {1};
  }

  // At the caps an upgrade is not independent of order: sound bundles with one attestation
  // per key, delivered in two orders, end in two states.
  lemma UpgradeOrderMattersAtCaps()
    ensures var ds, es := [UPGRADE, CROWD_BUNDLE, ANON_BUNDLE], [ANON_BUNDLE, UPGRADE, CROWD_BUNDLE];
      && ToSet(ds) == ToSet(es)
      && (forall d :: d in ds ==> Bundle(PLAIN, POW_FLOOR_BITS, d)) && OneAttestationPerKey(PLAIN, ds)
      && ApplyAll(PLAIN, EMPTY, ds).Ok? && ApplyAll(PLAIN, EMPTY, es).Ok?
      && ApplyAll(PLAIN, EMPTY, ds) != ApplyAll(PLAIN, EMPTY, es)
  {
    hide ApplyAll, Bundle, OneAttestationPerKey;
    BundlesAreSound();
    UpgradeFirst();
    AnonFirst();
  }
}
