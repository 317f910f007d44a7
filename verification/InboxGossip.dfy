// A network of inbox replicas. Clients post bundles to any replica; replicas summarize,
// answer one another's summaries, late or not, and send whole states; what arrives, arrives
// late, reordered, repeatedly or never. With every cap in force, each replica is always
// exactly what its own history leaves, so equal histories mean equal states.
//
// A late answer may count on a credential its receiver has pruned meanwhile. What it then
// still brings, and exactly when it brings everything, is part of the model.
module InboxGossip {
  import opened Basics
  import opened Pow
  import opened PointerLog
  import opened PointerVec
  import opened PointerSync
  import opened Inbox
  import opened InboxTheorems
  import opened InboxSync

  // Everything honest clients and the publisher ever emit for this inbox: one credential
  // per posting key, and stamps that clear every bar the publisher sets.
  datatype World = World(book: map<Key, Cred>, pointers: set<Pointer>, records: set<Cell>, bar: nat)

  ghost predicate WorldOk(x: Instance, w: World) {
    && Honest(x, w.book, w.pointers)
    && POW_FLOOR_BITS <= w.bar
    && (forall p :: p in w.pointers && p.IsAnon() ==> x.Stamped(p, w.bar))
    && (forall c :: c in w.records ==> Genuine(x.publisher, c) && DifficultyBits(x.publisher, Some(c)) <= w.bar)
    && SeqDeterminesRecord(x.publisher, w.records)
  }

  // A replica with the history it has heard of, directly or through others.
  datatype Replica = Replica(state: InboxState, heard: set<Pointer>, records: set<Cell>)

  ghost predicate ReplicaOk(w: World, n: Replica) {
    && Reflects(w.book, n.heard, n.state)
    && n.heard <= w.pointers && n.records <= w.records
    && RecordsReflected(n.records, n.state.powDifficulty)
  }

  // A summary on its way: whose it is, and the replica as it was when it was taken.
  datatype Ask = Ask(from: nat, taken: Replica)

  // A delta on its way, with the summary it answers and the replica that computed it.
  datatype Mail = Mail(to: nat, delta: InboxDelta, taken: Replica, sender: Replica)

  // A full state on its way: the replica as it was when it was sent.
  datatype Parcel = Parcel(to: nat, sender: Replica)

  datatype Net = Net(nodes: seq<Replica>, asks: set<Ask>, mail: set<Mail>, parcels: set<Parcel>)

  const FRESH: Replica := Replica(EMPTY, {}, {})

  // ---- steps ----

  // A client's delta: any of the world's pointers, with their credentials or without, and any
  // record, genuine ones being the publisher's.
  ghost predicate FromWorld(x: Instance, w: World, d: InboxDelta) {
    && |CredsIn(d)| <= MAX_POINTERS
    && (forall k :: k in CredsIn(d) ==> k in w.book && CredsIn(d)[k] == w.book[k])
    && ToSet(PointersIn(d)) <= w.pointers
    && (d.powDifficulty.Some? && Genuine(x.publisher, d.powDifficulty.value) ==> d.powDifficulty.value in w.records)
  }

  ghost predicate Posted(x: Instance, w: World, n: Replica, d: InboxDelta, n': Replica) {
    && FromWorld(x, w, d)
    && Apply(x, n.state, d) == Ok(n'.state)
    && n'.heard == n.heard + Usable(n.state, d)
    && n'.records == n.records + GenuineIn(x.publisher, d.powDifficulty)
  }

  ghost predicate Merged(x: Instance, n: Replica, peer: Replica, n': Replica) {
    && Merge(x, n.state, peer.state) == Ok(n'.state)
    && n'.heard == n.heard + peer.heard
    && n'.records == n.records + peer.records
  }

  // Every pointer of the delta that would stay beside those held finds its credential: a
  // question for the receiving state and the delta alone.
  ghost predicate Complete(st: InboxState, d: InboxDelta) {
    forall p :: p in PointersIn(d) && Survives(p, ToSet(st.pointers) + ToSet(PointersIn(d))) ==> Vouches(st, d, p)
  }

  // What the receiver gains: the sender's whole history, or just the usable pointers.
  ghost function Learned(n: Replica, m: Mail): set<Pointer> {
    if Complete(n.state, m.delta) then m.sender.heard else Usable(n.state, m.delta)
  }

  ghost predicate Received(x: Instance, n: Replica, m: Mail, n': Replica) {
    && Apply(x, n.state, m.delta) == Ok(n'.state)
    && n'.heard == n.heard + Learned(n, m)
    && n'.records == n.records + m.sender.records
  }

  datatype Event =
    | Post(i: nat, delta: InboxDelta)
    | SendState(i: nat, to: nat)
    | DeliverState(p: Parcel)
    | Summarizes(i: nat)
    | Answer(i: nat, ask: Ask)
    | Deliver(m: Mail)

  ghost predicate Step(x: Instance, w: World, net: Net, net': Net, e: Event) {
    match e
    case Post(i, d) =>
      && i < |net.nodes| == |net'.nodes| && Posted(x, w, net.nodes[i], d, net'.nodes[i])
      && net' == net.(nodes := net.nodes[i := net'.nodes[i]])
    case SendState(i, to) =>
      i < |net.nodes| && to < |net.nodes| && net' == net.(parcels := net.parcels + {Parcel(to, net.nodes[i])})
    case DeliverState(p) =>
      && p in net.parcels && p.to < |net.nodes| == |net'.nodes|
      && Merged(x, net.nodes[p.to], p.sender, net'.nodes[p.to])
      && net' == net.(nodes := net.nodes[p.to := net'.nodes[p.to]])
    case Summarizes(i) =>
      i < |net.nodes| && net' == net.(asks := net.asks + {Ask(i, net.nodes[i])})
    case Answer(i, ask) =>
      && i < |net.nodes| && ask in net.asks
      && (match Delta(x, net.nodes[i].state, Summary(x, ask.taken.state))
          case None => net' == net
          case Some(d) => net' == net.(mail := net.mail + {Mail(ask.from, d, ask.taken, net.nodes[i])}))
    case Deliver(m) =>
      && m in net.mail && m.to < |net.nodes| == |net'.nodes| && Received(x, net.nodes[m.to], m, net'.nodes[m.to])
      && net' == net.(nodes := net.nodes[m.to := net'.nodes[m.to]])
  }

  ghost predicate Gossip(x: Instance, w: World, run: seq<Net>, events: seq<Event>) {
    && |run| == |events| + 1
    && (forall i :: 0 <= i < |run[0].nodes| ==> run[0].nodes[i] == FRESH)
    && run[0].asks == {} && run[0].mail == {} && run[0].parcels == {}
    && forall t :: 0 <= t < |events| ==> Step(x, w, run[t], run[t + 1], events[t])
  }

  // ---- the invariant ----

  ghost predicate Knows(n: Replica, earlier: Replica) {
    && earlier.heard <= n.heard
    && DifficultySeq(earlier.state.powDifficulty) <= DifficultySeq(n.state.powDifficulty)
  }

  ghost predicate AskOk(w: World, net: Net, a: Ask) {
    a.from < |net.nodes| && ReplicaOk(w, a.taken) && Knows(net.nodes[a.from], a.taken)
  }

  ghost predicate MailOk(x: Instance, w: World, net: Net, m: Mail) {
    && m.to < |net.nodes| && ReplicaOk(w, m.taken) && ReplicaOk(w, m.sender)
    && Knows(net.nodes[m.to], m.taken)
    && Delta(x, m.sender.state, Summary(x, m.taken.state)) == Some(m.delta)
  }

  ghost predicate NetOk(x: Instance, w: World, net: Net) {
    && (forall i :: 0 <= i < |net.nodes| ==> ReplicaOk(w, net.nodes[i]))
    && (forall a :: a in net.asks ==> AskOk(w, net, a))
    && (forall m :: m in net.mail ==> MailOk(x, w, net, m))
    && (forall p :: p in net.parcels ==> p.to < |net.nodes| && ReplicaOk(w, p.sender))
  }

  // ---- posts and full states ----

  // No bar ever latched exceeds what the stamps in play clear.
  lemma StampsClear(x: Instance, w: World, record: Option<Cell>, p: Pointer)
    requires WorldOk(x, w) && p in w.pointers && p.IsAnon()
    requires record.Some? ==> record.value in w.records
    ensures x.Stamped(p, DifficultyBits(x.publisher, record))
  {
    hide UniqueIds, CredsOk;
  }

  lemma PostKeepsReplica(x: Instance, w: World, n: Replica, d: InboxDelta)
    requires WorldOk(x, w) && ReplicaOk(w, n) && FromWorld(x, w, d)
    ensures Apply(x, n.state, d).Ok?
    ensures var records := n.records + GenuineIn(x.publisher, d.powDifficulty);
      var n' := Replica(Apply(x, n.state, d).value, n.heard + Usable(n.state, d), records);
      ReplicaOk(w, n') && Knows(n', n)
  {
    hide Evict, Apply, Genuine;
    var ps := PointersIn(d);
    LatchReflects(x.publisher, n.records, n.state.powDifficulty, d.powDifficulty);
    forall p | p in ps && p.IsAnon() ensures x.Stamped(p, DifficultyBits(x.publisher, PowAfter(x, n.state, d))) {
      assert p in ToSet(ps);
      StampsClear(x, w, PowAfter(x, n.state, d), p);
    }
    SmallerHistory(x, w.book, w.pointers, n.heard + ToSet(ps));
    HonestApply(x, w.book, n.heard, n.state, d);
    assert Usable(n.state, d) <= ToSet(ps);
  }

  lemma ReplicaVerified(x: Instance, w: World, n: Replica)
    requires WorldOk(x, w) && ReplicaOk(w, n)
    ensures Verified(x, n.state)
  {
    hide Evict, Ascending, DistinctIds, WithinCaps;
    var st := n.state;
    assert Seated(st.pointers) by { SurvivorsSeated(n.heard, st.pointers); }
    assert Ascending(st.pointers) && DistinctIds(st.pointers) && WithinCaps(st.pointers) by {
      SeatedIsWithinCaps(st.pointers);
    }
    assert |st.creds| <= MAX_POINTERS by {
      SeatedIsWithinCaps(st.pointers);
      AtMostMax(st.pointers);
      ReferencedCount(st.creds, st.pointers);
    }
    SeatedPointersOk(x, w, n);
  }

  lemma SurvivorsSeated(H: set<Pointer>, s: seq<Pointer>)
    requires UniqueIds(H) && StrictlyAscending(s) && ToSet(s) == Evict(H)
    ensures Seated(s)
  {
    hide Survives;
    EvictIdempotent(H);
  }

  lemma AtMostMax(s: seq<Pointer>)
    requires WithinCaps(s)
    ensures |s| <= MAX_POINTERS
  {}

  lemma SeatedPointersOk(x: Instance, w: World, n: Replica)
    requires WorldOk(x, w) && ReplicaOk(w, n)
    ensures forall p :: p in n.state.pointers ==> PointerOk(x, n.state.creds, p) && p in n.heard
  {
    hide UniqueIds, Survives, StrictlyAscending;
    forall p | p in n.state.pointers ensures PointerOk(x, n.state.creds, p) && p in n.heard {
      assert p in ToSet(n.state.pointers) && p in n.heard && p in w.pointers;
      assert PointerOk(x, w.book, p);
      assert p.ptr.replier in Repliers(n.state.pointers);
    }
  }

  lemma ReplicasCompatible(x: Instance, w: World, n: Replica, peer: Replica)
    requires WorldOk(x, w) && ReplicaOk(w, n) && ReplicaOk(w, peer)
    ensures Compatible(x, n.state, peer.state)
  {
    hide Evict, Verified, StrictlyAscending, PointerOk, Genuine;
    ReplicaVerified(x, w, n);
    ReplicaVerified(x, w, peer);
    SeatedPointersOk(x, w, n);
    SeatedPointersOk(x, w, peer);
    var latched := Adopt(x.publisher, n.state.powDifficulty, peer.state.powDifficulty);
    forall p | p in peer.state.pointers && p.IsAnon() ensures x.Stamped(p, DifficultyBits(x.publisher, latched)) {
      StampsClear(x, w, latched, p);
    }
  }

  lemma EvictOfSurvivors(A: set<Pointer>, B: set<Pointer>)
    requires UniqueIds(A + B)
    ensures Evict(Evict(A) + Evict(B)) == Evict(A + B)
  {
    hide Survives;
    EvictAbsorbs(A, Evict(B));
    EvictAbsorbs(B, A);
    assert Evict(B) + A == A + Evict(B) && B + A == A + B;
  }

  // Credentials of the two survivors' books suffice for everything that survives jointly.
  lemma JointCreds(x: Instance, w: World, n: Replica, peer: Replica, kept: seq<Pointer>)
    requires WorldOk(x, w) && ReplicaOk(w, n) && ReplicaOk(w, peer)
    requires forall p :: p in kept ==> p in n.state.pointers || p in peer.state.pointers
    ensures Referenced(n.state.creds + peer.state.creds, kept) == Referenced(w.book, kept)
  {
    hide Evict, StrictlyAscending, UniqueIds;
    forall k | k in Repliers(kept) ensures k in Repliers(n.state.pointers) || k in Repliers(peer.state.pointers) {
      var p :| p in kept && p.ptr.replier == k;
    }
  }

  lemma MergeKeepsReplica(x: Instance, w: World, n: Replica, peer: Replica)
    requires WorldOk(x, w) && ReplicaOk(w, n) && ReplicaOk(w, peer)
    ensures Merge(x, n.state, peer.state).Ok?
    ensures var n' := Replica(Merge(x, n.state, peer.state).value, n.heard + peer.heard, n.records + peer.records);
      ReplicaOk(w, n') && Knows(n', n)
  {
    hide Survives, Merge, Compatible, Honest, UniqueIds, StrictlyAscending;
    ReplicasCompatible(x, w, n, peer);
    SyncLosesNothing(x, n.state, peer.state);
    var joint := Merge(x, n.state, peer.state).value;
    HeardUnique(x, w, n, peer);
    EvictOfSurvivors(n.heard, peer.heard);
    assert forall p :: p in joint.pointers ==> p in ToSet(joint.pointers);
    JointCreds(x, w, n, peer, joint.pointers);
    LatestOfBoth(x, w, n, peer);
  }

  lemma HeardUnique(x: Instance, w: World, n: Replica, peer: Replica)
    requires WorldOk(x, w) && n.heard <= w.pointers && peer.heard <= w.pointers
    ensures UniqueIds(n.heard + peer.heard)
  {}

  lemma LatestOfBoth(x: Instance, w: World, n: Replica, peer: Replica)
    requires WorldOk(x, w) && n.records <= w.records && peer.records <= w.records
    requires RecordsReflected(n.records, n.state.powDifficulty)
    requires RecordsReflected(peer.records, peer.state.powDifficulty)
    ensures var latched := Adopt(x.publisher, n.state.powDifficulty, peer.state.powDifficulty);
      RecordsReflected(n.records + peer.records, latched)
  {}

  lemma FreshOk(w: World)
    ensures ReplicaOk(w, FRESH)
  {
    assert ToSet(EMPTY.pointers) == Evict({});
  }

  // ---- late answers ----

  // A pointer the sender once heard of and does not send, and the receiver never heard of,
  // would not stay with the receiver now: not even against a summary taken long ago.
  lemma UnsentLoses(x: Instance, w: World, s: Replica, taken: Replica, known: set<Pointer>, p: Pointer)
    requires WorldOk(x, w) && ReplicaOk(w, s) && ReplicaOk(w, taken)
    requires taken.heard <= known <= w.pointers && p in s.heard && p !in known
    requires p !in Offered(s.state.pointers, Summarize(taken.state.pointers))
    ensures !Survives(p, known + s.heard)
  {
    hide Survives, Retains, Summarize;
    var r := taken.state.pointers;
    assert UniqueIds(known + s.heard) by { HeardUnique(x, w, Replica(EMPTY, known, {}), s); }
    if Survives(p, known + s.heard) {
      SurvivalTightens(p, s.heard, known + s.heard);
      SurvivalTightens(p, taken.heard, known + s.heard);
      SurvivorsDecide(p, taken.heard);
      assert p in ToSet(s.state.pointers);
      SurvivorsSeated(taken.heard, r);
      HorizonsAreSurvival(r, p);
      IdHeld(r, p);
      NotOffered(s.state.pointers, r, p);
    }
  }

  lemma NotOffered(s: seq<Pointer>, r: seq<Pointer>, p: Pointer)
    requires p in s && p !in Offered(s, Summarize(r))
    ensures p.Id() in Ids(r) || !Retains(Summarize(r), p)
  {
    hide Retains;
    assert p !in ToSet(Offered(s, Summarize(r)));
  }

  lemma AnswerParts(x: Instance, w: World, s: Replica, taken: Replica)
    requires WorldOk(x, w) && ReplicaOk(w, s)
    requires Delta(x, s.state, Summary(x, taken.state)).Some?
    ensures var d := Delta(x, s.state, Summary(x, taken.state)).value;
      && PointersIn(d) == Offered(s.state.pointers, Summarize(taken.state.pointers))
      && ToSet(PointersIn(d)) <= s.heard && FromWorld(x, w, d)
      && (d.powDifficulty.Some? ==> d.powDifficulty == s.state.powDifficulty)
      && (d.powDifficulty.None? ==> DifficultySeq(s.state.powDifficulty) <= DifficultySeq(taken.state.powDifficulty))
  {
    hide Survives, Summarize, Offered, Honest, Verified, UniqueIds, StrictlyAscending;
    ReplicaVerified(x, w, s);
    DeltaParts(x, taken.state, s.state);
    OfferedAre(x, taken.state, s.state);
    var d := Delta(x, s.state, Summary(x, taken.state)).value;
    assert forall p :: p in PointersIn(d) ==> p in ToSet(s.state.pointers);
    assert d.powDifficulty.Some? ==> d.powDifficulty.value in w.records;
  }

  // An answer, however late, is accepted and adds the pointers it can vouch for.
  lemma AnswerApplies(x: Instance, w: World, taken: Replica, n: Replica, s: Replica)
    requires WorldOk(x, w) && ReplicaOk(w, n) && ReplicaOk(w, s) && Knows(n, taken)
    requires Delta(x, s.state, Summary(x, taken.state)).Some?
    ensures var d := Delta(x, s.state, Summary(x, taken.state)).value;
      && Apply(x, n.state, d).Ok?
      && Reflects(w.book, n.heard + Usable(n.state, d), Apply(x, n.state, d).value)
      && RecordsReflected(n.records + s.records, Apply(x, n.state, d).value.powDifficulty)
      && DifficultySeq(n.state.powDifficulty) <= DifficultySeq(Apply(x, n.state, d).value.powDifficulty)
  {
    hide Evict, Apply, Delta, StrictlyAscending, Honest, Offered;
    AnswerParts(x, w, s, taken);
    var d := Delta(x, s.state, Summary(x, taken.state)).value;
    var ps := PointersIn(d);
    forall p | p in ps && p.IsAnon() ensures x.Stamped(p, DifficultyBits(x.publisher, PowAfter(x, n.state, d))) {
      assert p in ToSet(ps);
      StampsClear(x, w, PowAfter(x, n.state, d), p);
    }
    SmallerHistory(x, w.book, w.pointers, n.heard + ToSet(ps));
    HonestApply(x, w.book, n.heard, n.state, d);
  }

  // Beside what the receiver holds, a pointer of the answer stays exactly when it stays in the
  // joint history of receiver and sender.
  lemma StaysBesideHeld(x: Instance, w: World, taken: Replica, n: Replica, s: Replica, ps: seq<Pointer>, p: Pointer)
    requires WorldOk(x, w) && ReplicaOk(w, taken) && ReplicaOk(w, n) && ReplicaOk(w, s) && Knows(n, taken)
    requires ps == Offered(s.state.pointers, Summarize(taken.state.pointers)) && ToSet(ps) <= s.heard && p in ps
    ensures Survives(p, n.heard + s.heard) <==> Survives(p, ToSet(n.state.pointers) + ToSet(ps))
  {
    hide Survives, StrictlyAscending, Honest, Offered, Summarize, UniqueIds, RecordsReflected;
    HeardUnique(x, w, n, s);
    assert p in ToSet(ps);
    UnsentIrrelevant(x, w, taken, n, s, ps, p);
    EvictedIrrelevant(n.heard, ToSet(ps), n.heard + s.heard, p);
  }

  lemma UnsentIrrelevant(x: Instance, w: World, taken: Replica, n: Replica, s: Replica, ps: seq<Pointer>, p: Pointer)
    requires WorldOk(x, w) && ReplicaOk(w, taken) && ReplicaOk(w, n) && ReplicaOk(w, s) && Knows(n, taken)
    requires ps == Offered(s.state.pointers, Summarize(taken.state.pointers)) && ToSet(ps) <= s.heard && p in ToSet(ps)
    ensures Survives(p, n.heard + s.heard) <==> Survives(p, n.heard + ToSet(ps))
  {
    hide Survives, StrictlyAscending, Honest, Offered, Summarize, UniqueIds, RecordsReflected;
    var joint, gained := n.heard + s.heard, n.heard + ToSet(ps);
    HeardUnique(x, w, n, s);
    forall q | q in joint - gained ensures !Survives(q, joint) {
      assert q !in ToSet(ps);
      UnsentLoses(x, w, s, taken, n.heard, q);
    }
    assert joint + {p} == joint;
    LosersLeaveOthers(p, joint, joint - gained);
    assert joint - (joint - gained) == gained;
  }

  lemma EvictedIrrelevant(H: set<Pointer>, D: set<Pointer>, all: set<Pointer>, p: Pointer)
    requires UniqueIds(all) && H + D <= all && p in D
    ensures Survives(p, H + D) <==> Survives(p, Evict(H) + D)
  {
    hide Survives;
    var losers := H - Evict(H) - D;
    assert UniqueIds(H + D) && H + D + {p} == H + D;
    forall q | q in losers ensures !Survives(q, H + D) {
      if Survives(q, H + D) { SurvivalTightens(q, H, H + D); }
    }
    LosersLeaveOthers(p, H + D, losers);
    assert H + D - losers == Evict(H) + D;
  }

  // Exactly when a late answer brings the sender's whole history: when each of its pointers
  // that would stay beside those the receiver holds finds its credential with the receiver
  // or in the answer itself.
  lemma LateAnswerExactly(x: Instance, w: World, taken: Replica, n: Replica, s: Replica)
    requires WorldOk(x, w) && ReplicaOk(w, taken) && ReplicaOk(w, n) && ReplicaOk(w, s) && Knows(n, taken)
    requires Delta(x, s.state, Summary(x, taken.state)).Some?
    ensures var d := Delta(x, s.state, Summary(x, taken.state)).value;
      && Apply(x, n.state, d).Ok?
      && (Reflects(w.book, n.heard + s.heard, Apply(x, n.state, d).value) <==> Complete(n.state, d))
  {
    hide Survives, Apply, Delta, StrictlyAscending, Honest, Offered, UniqueIds, WorldOk, FromWorld, Knows;
    hide RecordsReflected;
    AnswerParts(x, w, s, taken);
    AnswerApplies(x, w, taken, n, s);
    HeardUnique(x, w, n, s);
    var d := Delta(x, s.state, Summary(x, taken.state)).value;
    var next, joint := Apply(x, n.state, d).value, n.heard + s.heard;
    if Complete(n.state, d) {
      CompleteBringsAll(x, w, taken, n, s, d);
    }
    if Reflects(w.book, joint, next) {
      var beside := ToSet(n.state.pointers) + ToSet(PointersIn(d));
      forall p | p in PointersIn(d) && Survives(p, beside) ensures Vouches(n.state, d, p) {
        assert p in ToSet(PointersIn(d));
        InBook(x, w, p);
        StaysBesideHeld(x, w, taken, n, s, PointersIn(d), p);
        SeatedIsVouched(w, n, s, d, next, p);
      }
    }
  }

  lemma CompleteBringsAll(x: Instance, w: World, taken: Replica, n: Replica, s: Replica, d: InboxDelta)
    requires WorldOk(x, w) && ReplicaOk(w, taken) && ReplicaOk(w, n) && ReplicaOk(w, s) && Knows(n, taken)
    requires PointersIn(d) == Offered(s.state.pointers, Summarize(taken.state.pointers))
    requires ToSet(PointersIn(d)) <= s.heard
    requires Complete(n.state, d)
    ensures Evict(n.heard + Usable(n.state, d)) == Evict(n.heard + s.heard)
  {
    hide Survives, StrictlyAscending, Honest, Offered, Summarize, UniqueIds, RecordsReflected;
    var joint, gained := n.heard + s.heard, n.heard + Usable(n.state, d);
    HeardUnique(x, w, n, s);
    assert Usable(n.state, d) <= ToSet(PointersIn(d));
    forall p | p in joint - gained ensures !Survives(p, joint) {
      if p !in PointersIn(d) {
        UnsentLoses(x, w, s, taken, n.heard, p);
      } else {
        StaysBesideHeld(x, w, taken, n, s, PointersIn(d), p);
      }
    }
    EvictWithoutLosers(joint, joint - gained);
    assert joint - (joint - gained) == gained;
  }

  lemma InBook(x: Instance, w: World, p: Pointer)
    requires WorldOk(x, w) && p in w.pointers
    ensures p.ptr.replier in w.book
  {
    assert PointerOk(x, w.book, p);
  }

  // A pointer seated by the answer had its credential somewhere.
  lemma SeatedIsVouched(w: World, n: Replica, s: Replica, d: InboxDelta, next: InboxState, p: Pointer)
    requires ReplicaOk(w, n) && UniqueIds(n.heard + s.heard) && p in n.heard + s.heard && p in PointersIn(d)
    requires Reflects(w.book, n.heard + Usable(n.state, d), next) && Reflects(w.book, n.heard + s.heard, next)
    requires Survives(p, n.heard + s.heard) && p.ptr.replier in w.book
    ensures Vouches(n.state, d, p)
  {
    hide Survives, StrictlyAscending, UniqueIds;
    assert p in ToSet(next.pointers) && p in n.heard + Usable(n.state, d);
    if p in n.heard {
      SurvivalTightens(p, n.heard, n.heard + s.heard);
      assert p in ToSet(n.state.pointers) && p.ptr.replier in Repliers(n.state.pointers);
    }
  }

  // Answering the very state that will receive the answer always brings everything.
  lemma FreshAnswerIsComplete(x: Instance, w: World, n: Replica, s: Replica)
    requires WorldOk(x, w) && ReplicaOk(w, s) && Delta(x, s.state, Summary(x, n.state)).Some?
    ensures Complete(n.state, Delta(x, s.state, Summary(x, n.state)).value)
  {
    hide Survives, Delta, Summary, ReplicaOk, WorldOk, Verified;
    ReplicaVerified(x, w, s);
    DeltaIsSelfContained(x, n.state, s.state);
  }

  lemma ReceiveKeeps(x: Instance, w: World, n: Replica, m: Mail, n': Replica)
    requires WorldOk(x, w) && ReplicaOk(w, n) && ReplicaOk(w, m.taken) && ReplicaOk(w, m.sender) && Knows(n, m.taken)
    requires Delta(x, m.sender.state, Summary(x, m.taken.state)) == Some(m.delta)
    requires Received(x, n, m, n')
    ensures ReplicaOk(w, n') && Knows(n', n)
  {
    hide Survives, Apply, Delta, StrictlyAscending, Honest, Offered, UniqueIds, RecordsReflected;
    AnswerParts(x, w, m.sender, m.taken);
    AnswerApplies(x, w, m.taken, n, m.sender);
    if Complete(n.state, m.delta) { CompleteBringsAll(x, w, m.taken, n, m.sender, m.delta); }
    assert Usable(n.state, m.delta) <= ToSet(PointersIn(m.delta));
  }

  // ---- whole runs ----

  lemma OthersUnmoved(x: Instance, w: World, net: Net, net': Net, i: nat)
    requires NetOk(x, w, net) && i < |net.nodes| == |net'.nodes|
    requires net' == net.(nodes := net.nodes[i := net'.nodes[i]])
    requires ReplicaOk(w, net'.nodes[i]) && Knows(net'.nodes[i], net.nodes[i])
    ensures NetOk(x, w, net')
  {
    hide ReplicaOk, Delta, Summary;
    forall m | m in net'.mail ensures MailOk(x, w, net', m) { assert MailOk(x, w, net, m); }
    forall a | a in net'.asks ensures AskOk(w, net', a) { assert AskOk(w, net, a); }
  }

  lemma StepKeepsNet(x: Instance, w: World, net: Net, net': Net, e: Event)
    requires WorldOk(x, w) && NetOk(x, w, net) && Step(x, w, net, net', e)
    ensures NetOk(x, w, net')
  {
    hide WorldOk, ReplicaOk, Apply, Merge, FromWorld, Delta, Summary, Received, Knows;
    match e {
      case Post(i, d) =>
        PostKeepsReplica(x, w, net.nodes[i], d);
        OthersUnmoved(x, w, net, net', i);
      case SendState(i, to) =>
        assert forall a :: a in net.asks ==> AskOk(w, net, a);
        assert forall m :: m in net.mail ==> MailOk(x, w, net, m);
      case DeliverState(p) =>
        MergeKeepsReplica(x, w, net.nodes[p.to], p.sender);
        OthersUnmoved(x, w, net, net', p.to);
      case Summarizes(i) =>
        KnowsItself(net.nodes[i]);
        assert forall a :: a in net.asks ==> AskOk(w, net, a);
        assert forall m :: m in net.mail ==> MailOk(x, w, net, m);
      case Answer(i, ask) =>
        assert AskOk(w, net, ask);
        assert forall a :: a in net.asks ==> AskOk(w, net, a);
        assert forall m :: m in net.mail ==> MailOk(x, w, net, m);
      case Deliver(m) =>
        assert MailOk(x, w, net, m);
        ReceiveKeeps(x, w, net.nodes[m.to], m, net'.nodes[m.to]);
        OthersUnmoved(x, w, net, net', m.to);
    }
  }

  lemma KnowsItself(n: Replica)
    ensures Knows(n, n)
  {}

  // In every reachable network, every replica is what its history leaves.
  lemma {:induction false} GossipReflects(x: Instance, w: World, run: seq<Net>, events: seq<Event>)
    requires WorldOk(x, w) && Gossip(x, w, run, events)
    ensures forall t :: 0 <= t < |run| ==> NetOk(x, w, run[t])
    decreases |events|
  {
    hide WorldOk, ReplicaOk, Step;
    var n := |events|;
    if n == 0 {
      FreshOk(w);
    } else {
      assert Step(x, w, run[n - 1], run[n], events[n - 1]);
      GossipReflects(x, w, run[..n], events[..n - 1]);
      assert run[..n][n - 1] == run[n - 1];
      StepKeepsNet(x, w, run[n - 1], run[n], events[n - 1]);
    }
  }

  // Strong convergence: replicas that have heard the same pointers and records are equal,
  // whatever the order, delay, repetition, loss and eviction on the way.
  lemma GossipConverges(x: Instance, w: World, run: seq<Net>, events: seq<Event>, t: nat, i: nat, u: nat, j: nat)
    requires WorldOk(x, w) && Gossip(x, w, run, events)
    requires t < |run| && i < |run[t].nodes| && u < |run| && j < |run[u].nodes|
    requires run[t].nodes[i].heard == run[u].nodes[j].heard && run[t].nodes[i].records == run[u].nodes[j].records
    ensures run[t].nodes[i].state == run[u].nodes[j].state
  {
    hide Gossip, Evict, Honest, StrictlyAscending, AskOk, MailOk;
    GossipReflects(x, w, run, events);
    var a, b := run[t].nodes[i], run[u].nodes[j];
    assert ReplicaOk(w, a) && ReplicaOk(w, b);
    SameReflection(w.book, a.heard, a.state, b.state);
  }

  // And every reachable replica passes the contract's own full-state validation.
  lemma GossipStaysValid(x: Instance, w: World, run: seq<Net>, events: seq<Event>, t: nat, i: nat)
    requires WorldOk(x, w) && Gossip(x, w, run, events) && t < |run| && i < |run[t].nodes|
    ensures Verified(x, run[t].nodes[i].state)
  {
    hide Gossip, WorldOk, ReplicaOk, Verified, AskOk, MailOk;
    GossipReflects(x, w, run, events);
    ReplicaVerified(x, w, run[t].nodes[i]);
  }

  // No delta ever in flight is refused by the replica it is addressed to.
  lemma GossipNeverRefused(x: Instance, w: World, run: seq<Net>, events: seq<Event>, t: nat, m: Mail)
    requires WorldOk(x, w) && Gossip(x, w, run, events) && t < |run| && m in run[t].mail
    ensures m.to < |run[t].nodes| && Apply(x, run[t].nodes[m.to].state, m.delta).Ok?
  {
    hide Gossip, WorldOk, ReplicaOk, AskOk, Apply, Delta, Summary, Knows;
    GossipReflects(x, w, run, events);
    assert MailOk(x, w, run[t], m);
    AnswerApplies(x, w, m.taken, run[t].nodes[m.to], m.sender);
  }

  // Nor is any full state.
  lemma StatesNeverRefused(x: Instance, w: World, run: seq<Net>, events: seq<Event>, t: nat, p: Parcel)
    requires WorldOk(x, w) && Gossip(x, w, run, events) && t < |run| && p in run[t].parcels
    ensures p.to < |run[t].nodes| && Merge(x, run[t].nodes[p.to].state, p.sender.state).Ok?
  {
    hide Gossip, WorldOk, ReplicaOk, AskOk, MailOk, Merge;
    GossipReflects(x, w, run, events);
    MergeKeepsReplica(x, w, run[t].nodes[p.to], p.sender);
  }

  // Whatever a late answer missed, one fresh exchange with its sender still brings, once.
  lemma FreshAnswerRepairs(x: Instance, w: World, run: seq<Net>, events: seq<Event>, t: nat, i: nat, j: nat)
    requires WorldOk(x, w) && Gossip(x, w, run, events) && t < |run| && i < |run[t].nodes| && j < |run[t].nodes|
    ensures var n, s := run[t].nodes[i], run[t].nodes[j];
      && Merge(x, n.state, s.state).Ok?
      && Reflects(w.book, n.heard + s.heard, Merge(x, n.state, s.state).value)
      && Delta(x, s.state, Summary(x, Merge(x, n.state, s.state).value)) == None
  {
    hide Gossip, WorldOk, Reflects, RecordsReflected, AskOk, MailOk, Merge, Delta, Summary, Compatible;
    GossipReflects(x, w, run, events);
    MergeKeepsReplica(x, w, run[t].nodes[i], run[t].nodes[j]);
    ReplicasCompatible(x, w, run[t].nodes[i], run[t].nodes[j]);
    NoReoffer(x, run[t].nodes[i].state, run[t].nodes[j].state);
  }
}
