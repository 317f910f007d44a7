// A network of directory replicas gossiping through summaries and full states. A summary may
// be answered long after it was taken; an answer or a full state may be delivered late, out
// of order, many times or never. Every replica nevertheless always holds exactly what its own history
// leaves, so replicas with equal histories are equal.
module DirectoryGossip {
  import opened Basics
  import opened Pow
  import opened ListingSet
  import opened Directory
  import opened DirectoryTheorems
  import opened DirectorySync

  // Everything ever published: sound listings that clear the bar `bar`, and the
  // publisher's difficulty records, none of which asks for more.
  datatype World = World(listings: set<Listing>, records: set<Cell>, bar: nat)

  ghost predicate WorldOk(x: Params, w: World) {
    && Distinct(x.hash, w.listings)
    && (forall l :: l in w.listings ==> x.Check(l) && (l.IsAnon() ==> x.Stamped(l, w.bar)))
    && POW_FLOOR_BITS <= w.bar
    && (forall c :: c in w.records ==> Genuine(x.publisher, c) && DifficultyBits(x.publisher, Some(c)) <= w.bar)
    && SeqDeterminesRecord(x.publisher, w.records)
  }

  datatype Replica = Replica(state: DirState, heard: set<Listing>, records: set<Cell>)

  // A summary on its way: whose it is, and the replica as it was when it was taken.
  datatype Ask = Ask(from: nat, taken: Replica)

  // A delta on its way, with the history of the replica that computed it.
  datatype Mail = Mail(to: nat, delta: DirDelta, heard: set<Listing>, records: set<Cell>)

  datatype Net = Net(nodes: seq<Replica>, asks: set<Ask>, mail: set<Mail>)

  const FRESH: Replica := Replica(EMPTY, {}, {})

  // ---- steps ----

  ghost predicate FromWorld(x: Params, w: World, d: DirDelta) {
    && ToSet(d.listings) <= w.listings && |d.listings| <= MAX_LISTINGS + ANON_LISTINGS
    && (d.powDifficulty.Some? && Genuine(x.publisher, d.powDifficulty.value) ==> d.powDifficulty.value in w.records)
  }

  ghost predicate Published(x: Params, w: World, n: Replica, d: DirDelta, n': Replica) {
    && FromWorld(x, w, d)
    && Apply(x, n.state, d) == Ok(n'.state)
    && n'.heard == n.heard + ToSet(d.listings)
    && n'.records == n.records + GenuineIn(x.publisher, d.powDifficulty)
  }

  ghost predicate Received(x: Params, n: Replica, m: Mail, n': Replica) {
    && Apply(x, n.state, m.delta) == Ok(n'.state)
    && n'.heard == n.heard + m.heard && n'.records == n.records + m.records
  }

  datatype Event =
    | Publish(i: nat, delta: DirDelta)
    | Summarize(i: nat)
    | Answer(i: nat, ask: Ask)
    | SendState(i: nat, to: nat)
    | Deliver(m: Mail)

  ghost predicate Step(x: Params, w: World, net: Net, net': Net, e: Event) {
    match e
    case Publish(i, d) =>
      && i < |net.nodes| == |net'.nodes| && Published(x, w, net.nodes[i], d, net'.nodes[i])
      && net' == net.(nodes := net.nodes[i := net'.nodes[i]])
    case Summarize(i) =>
      i < |net.nodes| && net' == net.(asks := net.asks + {Ask(i, net.nodes[i])})
    case Answer(i, ask) =>
      && i < |net.nodes| && ask in net.asks
      && var n := net.nodes[i];
        (match Delta(x, n.state, Summary(x, ask.taken.state))
         case None => net' == net
         case Some(d) => net' == net.(mail := net.mail + {Mail(ask.from, d, n.heard, n.records)}))
    case SendState(i, to) =>
      && i < |net.nodes| && to < |net.nodes|
      && var n := net.nodes[i];
        net' == net.(mail := net.mail + {Mail(to, FullDelta(n.state), n.heard, n.records)})
    case Deliver(m) =>
      && m in net.mail && m.to < |net.nodes| == |net'.nodes| && Received(x, net.nodes[m.to], m, net'.nodes[m.to])
      && net' == net.(nodes := net.nodes[m.to := net'.nodes[m.to]])
  }

  ghost predicate Gossip(x: Params, w: World, run: seq<Net>, events: seq<Event>) {
    && |run| == |events| + 1
    && (forall i :: 0 <= i < |run[0].nodes| ==> run[0].nodes[i] == FRESH)
    && run[0].asks == {} && run[0].mail == {}
    && forall t :: 0 <= t < |events| ==> Step(x, w, run[t], run[t + 1], events[t])
  }

  // ---- the invariant ----

  ghost predicate ReplicaOk(x: Params, w: World, n: Replica) {
    && Reflects(x.hash, n.heard, n.state)
    && n.heard <= w.listings && n.records <= w.records
    && RecordsReflected(n.records, n.state.powDifficulty)
  }

  ghost predicate Knows(n: Replica, earlier: Replica) {
    && earlier.heard <= n.heard
    && DifficultySeq(earlier.state.powDifficulty) <= DifficultySeq(n.state.powDifficulty)
  }

  ghost predicate AskOk(x: Params, w: World, net: Net, a: Ask) {
    a.from < |net.nodes| && ReplicaOk(x, w, a.taken) && Knows(net.nodes[a.from], a.taken)
  }

  // A delta in flight stands for its sender's whole history, for any receiver that has
  // come at least as far as when it asked.
  ghost predicate StandsFor(x: Params, m: Mail, n: Replica) {
    && ToSet(m.delta.listings) <= m.heard
    && (forall l :: l in m.heard
          ==> l in ToSet(m.delta.listings) || l in n.heard || !Keeps(x.hash, l, n.heard + m.heard))
    && (m.delta.powDifficulty.Some? ==> m.delta.powDifficulty.value in m.records)
    && (forall c :: c in m.records ==>
          c.seqNo <= DifficultySeq(n.state.powDifficulty) || c.seqNo <= DifficultySeq(m.delta.powDifficulty))
  }

  ghost predicate MailOk(x: Params, w: World, net: Net, m: Mail) {
    && m.to < |net.nodes| && m.heard <= w.listings && m.records <= w.records
    && |m.delta.listings| <= MAX_LISTINGS + ANON_LISTINGS
    && StandsFor(x, m, net.nodes[m.to])
  }

  ghost predicate NetOk(x: Params, w: World, net: Net) {
    && (forall i :: 0 <= i < |net.nodes| ==> ReplicaOk(x, w, net.nodes[i]))
    && (forall a :: a in net.asks ==> AskOk(x, w, net, a))
    && (forall m :: m in net.mail ==> MailOk(x, w, net, m))
  }

  // ---- one step ----

  lemma BarCleared(x: Params, w: World, record: Option<Cell>, ls: seq<Listing>)
    requires WorldOk(x, w) && ToSet(ls) <= w.listings && (record.Some? ==> record.value in w.records)
    ensures Cleared(x, DifficultyBits(x.publisher, record), ls) == ToSet(ls)
  {
    hide Distinct;
    assert forall l :: l in ls ==> l in ToSet(ls);
  }

  // Sound listings from the world are simply joined in.
  lemma WorldDeltaJoins(x: Params, w: World, n: Replica, d: DirDelta)
    requires WorldOk(x, w) && ReplicaOk(x, w, n) && FromWorld(x, w, d)
    ensures Apply(x, n.state, d).Ok?
    ensures Reflects(x.hash, n.heard + ToSet(d.listings), Apply(x, n.state, d).value)
    ensures Apply(x, n.state, d).value.powDifficulty == PowAfter(x, n.state, d.powDifficulty)
  {
    hide Reflects, Absorb, Genuine;
    var pow := PowAfter(x, n.state, d.powDifficulty);
    var latched := n.state.(powDifficulty := pow);
    assert forall l :: l in d.listings ==> l in ToSet(d.listings);
    CheckedNeverFatal(x, DifficultyBits(x.publisher, pow), latched, d.listings);
    LatchReflects(x.publisher, n.records, n.state.powDifficulty, d.powDifficulty);
    BarCleared(x, w, pow, d.listings);
    ApplyIs(x, n.heard, n.state, d);
  }

  lemma PublishKeeps(x: Params, w: World, n: Replica, d: DirDelta, n': Replica)
    requires WorldOk(x, w) && ReplicaOk(x, w, n) && Published(x, w, n, d, n')
    ensures ReplicaOk(x, w, n') && Knows(n', n)
  {
    hide Reflects, WorldOk, Apply;
    WorldDeltaJoins(x, w, n, d);
    LatchReflects(x.publisher, n.records, n.state.powDifficulty, d.powDifficulty);
  }

  lemma ReceiveKeeps(x: Params, w: World, n: Replica, m: Mail, n': Replica)
    requires WorldOk(x, w) && ReplicaOk(x, w, n) && Received(x, n, m, n')
    requires m.heard <= w.listings && m.records <= w.records && |m.delta.listings| <= MAX_LISTINGS + ANON_LISTINGS
    requires StandsFor(x, m, n)
    ensures ReplicaOk(x, w, n') && Knows(n', n)
  {
    hide WellKeyed, Apply, Keeps, Genuine;
    WorldDeltaJoins(x, w, n, m.delta);
    var D, all := ToSet(m.delta.listings), n.heard + m.heard;
    var withheld := all - (n.heard + D);
    CanonWithoutLosers(x.hash, all, withheld);
    assert all - withheld == n.heard + D;
    LatchMail(x, w, n, m);
  }

  lemma LatchMail(x: Params, w: World, n: Replica, m: Mail)
    requires WorldOk(x, w) && n.records <= w.records && m.records <= w.records
    requires RecordsReflected(n.records, n.state.powDifficulty) && StandsFor(x, m, n)
    ensures RecordsReflected(n.records + m.records, PowAfter(x, n.state, m.delta.powDifficulty))
    ensures DifficultySeq(n.state.powDifficulty) <= DifficultySeq(PowAfter(x, n.state, m.delta.powDifficulty))
  {
    hide Distinct, Keeps;
  }

  // A replica that learns more only strengthens what mail to it stands for.
  lemma StandsForLater(x: Params, m: Mail, n: Replica, n': Replica)
    requires StandsFor(x, m, n) && Knows(n', n)
    ensures StandsFor(x, m, n')
  {
    hide Keeps;
    forall l | l in m.heard && l !in ToSet(m.delta.listings) && l !in n'.heard
      ensures !Keeps(x.hash, l, n'.heard + m.heard)
    {
      if Keeps(x.hash, l, n'.heard + m.heard) { KeepsTightens(x.hash, l, n.heard + m.heard, n'.heard + m.heard); }
    }
  }

  lemma ReplicaSize(x: Params, st: DirState, H: set<Listing>)
    requires Reflects(x.hash, H, st)
    ensures |st.attested| + |st.anon| <= MAX_LISTINGS + ANON_LISTINGS
  {
    hide Keeps, WellKeyed;
    CanonIdempotent(x.hash, H);
    TierFits(x.hash, st, false);
    TierFits(x.hash, st, true);
  }

  // A delta computed against an old summary stands for the sender's history.
  lemma AnswerStands(x: Params, w: World, s: Replica, taken: Replica, to: nat)
    requires WorldOk(x, w) && ReplicaOk(x, w, s) && ReplicaOk(x, w, taken)
    requires Delta(x, s.state, Summary(x, taken.state)).Some?
    ensures var d := Delta(x, s.state, Summary(x, taken.state)).value;
      && StandsFor(x, Mail(to, d, s.heard, s.records), taken)
      && |d.listings| <= MAX_LISTINGS + ANON_LISTINGS
  {
    hide Keeps, Wanted, WellKeyed, Offered, Horizon;
    var d := Delta(x, s.state, Summary(x, taken.state)).value;
    OfferedAre(x, s.state, Summary(x, taken.state));
    ReplicaSize(x, s.state, s.heard);
    forall l | l in s.heard && l !in ToSet(d.listings) && l !in taken.heard
      ensures !Keeps(x.hash, l, taken.heard + s.heard)
    {
      WithheldLoses(x, w, s, taken, l);
    }
  }

  lemma WithheldLoses(x: Params, w: World, s: Replica, taken: Replica, l: Listing)
    requires WorldOk(x, w) && ReplicaOk(x, w, s) && ReplicaOk(x, w, taken)
    requires l in s.heard && l !in taken.heard
    requires !(l in s.state.Listings() && Wanted(x, Summary(x, taken.state), l))
    ensures !Keeps(x.hash, l, taken.heard + s.heard)
  {
    hide Keeps, Wanted, WellKeyed, Summary, RecordsReflected;
    if Keeps(x.hash, l, taken.heard + s.heard) {
      KeepsTightens(x.hash, l, s.heard, taken.heard + s.heard);
      KeepsTightens(x.hash, l, taken.heard, taken.heard + s.heard);
      CanonIdempotent(x.hash, taken.heard);
      KeptDecides(x.hash, l, taken.heard);
      WantedIsKept(x, taken.state, l);
    }
  }

  // A full state stands for its sender's history, for any receiver at all.
  lemma StateStands(x: Params, w: World, s: Replica, to: nat, n: Replica)
    requires WorldOk(x, w) && ReplicaOk(x, w, s)
    ensures StandsFor(x, Mail(to, FullDelta(s.state), s.heard, s.records), n)
    ensures |FullDelta(s.state).listings| <= MAX_LISTINGS + ANON_LISTINGS
  {
    hide Keeps, WellKeyed, DirState.Listings, FullDelta;
    FullListings(s.state);
    ReplicaSize(x, s.state, s.heard);
    forall l | l in s.heard && l !in s.state.Listings() ensures !Keeps(x.hash, l, n.heard + s.heard) {
      if Keeps(x.hash, l, n.heard + s.heard) { KeepsTightens(x.hash, l, s.heard, n.heard + s.heard); }
    }
    FullDeltaRecord(s.state);
  }

  lemma FullDeltaRecord(st: DirState)
    ensures FullDelta(st).powDifficulty == st.powDifficulty
  {}

  lemma OthersUnmoved(x: Params, w: World, net: Net, net': Net, i: nat)
    requires NetOk(x, w, net) && i < |net.nodes| == |net'.nodes|
    requires net' == net.(nodes := net.nodes[i := net'.nodes[i]])
    requires ReplicaOk(x, w, net'.nodes[i]) && Knows(net'.nodes[i], net.nodes[i])
    ensures NetOk(x, w, net')
  {
    hide ReplicaOk, StandsFor;
    forall m | m in net'.mail ensures MailOk(x, w, net', m) {
      assert MailOk(x, w, net, m);
      if m.to == i { StandsForLater(x, m, net.nodes[i], net'.nodes[i]); }
    }
    forall a | a in net'.asks ensures AskOk(x, w, net', a) {
      assert AskOk(x, w, net, a);
    }
  }

  lemma StepKeepsNet(x: Params, w: World, net: Net, net': Net, e: Event)
    requires WorldOk(x, w) && NetOk(x, w, net) && Step(x, w, net, net', e)
    ensures NetOk(x, w, net')
  {
    hide WorldOk, ReplicaOk, StandsFor, Delta, Published, Received, Summary;
    match e {
      case Publish(i, d) =>
        PublishKeeps(x, w, net.nodes[i], d, net'.nodes[i]);
        OthersUnmoved(x, w, net, net', i);
      case Summarize(i) =>
      case Answer(i, ask) =>
        assert AskOk(x, w, net, ask);
        if Delta(x, net.nodes[i].state, Summary(x, ask.taken.state)).Some? {
          AnswerKeeps(x, w, net, net', i, ask);
        }
      case SendState(i, to) =>
        StateStands(x, w, net.nodes[i], to, net.nodes[to]);
        SentIsOk(x, w, net, net', i, to);
      case Deliver(m) =>
        assert MailOk(x, w, net, m);
        ReceiveKeeps(x, w, net.nodes[m.to], m, net'.nodes[m.to]);
        OthersUnmoved(x, w, net, net', m.to);
    }
  }

  lemma AnswerKeeps(x: Params, w: World, net: Net, net': Net, i: nat, ask: Ask)
    requires WorldOk(x, w) && NetOk(x, w, net) && i < |net.nodes| && ask in net.asks && AskOk(x, w, net, ask)
    requires Delta(x, net.nodes[i].state, Summary(x, ask.taken.state)).Some?
    requires var d := Delta(x, net.nodes[i].state, Summary(x, ask.taken.state)).value;
      net' == net.(mail := net.mail + {Mail(ask.from, d, net.nodes[i].heard, net.nodes[i].records)})
    ensures NetOk(x, w, net')
  {
    hide WorldOk, StandsFor, Delta, Summary, Reflects, RecordsReflected;
    AnswerStands(x, w, net.nodes[i], ask.taken, ask.from);
    var d := Delta(x, net.nodes[i].state, Summary(x, ask.taken.state)).value;
    var m := Mail(ask.from, d, net.nodes[i].heard, net.nodes[i].records);
    StandsForLater(x, m, ask.taken, net.nodes[ask.from]);
    hide ReplicaOk, Knows;
    forall q | q in net'.mail ensures MailOk(x, w, net', q) {
      if q != m { assert MailOk(x, w, net, q); }
    }
    forall a | a in net'.asks ensures AskOk(x, w, net', a) {
      assert AskOk(x, w, net, a);
    }
  }

  lemma SentIsOk(x: Params, w: World, net: Net, net': Net, i: nat, to: nat)
    requires NetOk(x, w, net) && i < |net.nodes| && to < |net.nodes|
    requires var n := net.nodes[i];
      StandsFor(x, Mail(to, FullDelta(n.state), n.heard, n.records), net.nodes[to])
    requires |FullDelta(net.nodes[i].state).listings| <= MAX_LISTINGS + ANON_LISTINGS
    requires net' == net.(mail := net.mail
      + {Mail(to, FullDelta(net.nodes[i].state), net.nodes[i].heard, net.nodes[i].records)})
    ensures NetOk(x, w, net')
  {
    hide StandsFor, FullDelta, Reflects, RecordsReflected;
    var m := Mail(to, FullDelta(net.nodes[i].state), net.nodes[i].heard, net.nodes[i].records);
    assert ReplicaOk(x, w, net.nodes[i]);
    hide ReplicaOk, Knows;
    forall q | q in net'.mail ensures MailOk(x, w, net', q) {
      if q != m { assert MailOk(x, w, net, q); }
    }
    forall a | a in net'.asks ensures AskOk(x, w, net', a) { assert AskOk(x, w, net, a); }
  }

  lemma FreshOk(x: Params, w: World)
    ensures ReplicaOk(x, w, FRESH)
  {
    assert FRESH.state.Listings() == Canon(x.hash, {});
  }

  // ---- whole runs ----

  lemma {:induction false} GossipReflects(x: Params, w: World, run: seq<Net>, events: seq<Event>)
    requires WorldOk(x, w) && Gossip(x, w, run, events)
    ensures forall t :: 0 <= t < |run| ==> NetOk(x, w, run[t])
    decreases |events|
  {
    hide WorldOk, ReplicaOk, Step;
    var n := |events|;
    if n == 0 {
      FreshOk(x, w);
    } else {
      assert Step(x, w, run[n - 1], run[n], events[n - 1]);
      GossipReflects(x, w, run[..n], events[..n - 1]);
      assert run[..n][n - 1] == run[n - 1];
      StepKeepsNet(x, w, run[n - 1], run[n], events[n - 1]);
    }
  }

  // Strong convergence: at any two moments, replicas that have heard the same listings and
  // records are equal.
  lemma GossipConverges(x: Params, w: World, run: seq<Net>, events: seq<Event>, t: nat, i: nat, u: nat, j: nat)
    requires WorldOk(x, w) && Gossip(x, w, run, events)
    requires t < |run| && i < |run[t].nodes| && u < |run| && j < |run[u].nodes|
    requires run[t].nodes[i].heard == run[u].nodes[j].heard && run[t].nodes[i].records == run[u].nodes[j].records
    ensures run[t].nodes[i].state == run[u].nodes[j].state
  {
    hide Gossip, Reflects, AskOk, MailOk, Distinct;
    GossipReflects(x, w, run, events);
    var a, b := run[t].nodes[i], run[u].nodes[j];
    assert ReplicaOk(x, w, a) && ReplicaOk(x, w, b);
    SameReflection(x.hash, a.heard, a.state, b.state);
  }

  // No delta ever in flight is refused by the replica it is addressed to.
  lemma GossipNeverRefused(x: Params, w: World, run: seq<Net>, events: seq<Event>, t: nat, m: Mail)
    requires WorldOk(x, w) && Gossip(x, w, run, events) && t < |run| && m in run[t].mail
    ensures m.to < |run[t].nodes| && Apply(x, run[t].nodes[m.to].state, m.delta).Ok?
  {
    hide Gossip, Reflects, AskOk, Distinct, Apply, Keeps;
    GossipReflects(x, w, run, events);
    assert MailOk(x, w, run[t], m);
    WorldDeltaJoins(x, w, run[t].nodes[m.to], m.delta);
  }
}
