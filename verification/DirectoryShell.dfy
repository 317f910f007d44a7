// What the directory's shell does with the updates it is given: everything timely in them
// takes effect, and only an update of unknown kind or an unsound part is refused.
module DirectoryShell {
  import opened Basics
  import opened Pow
  import opened ListingSet
  import opened Directory
  import opened DirectoryTheorems
  import opened DirectorySync
  import opened DirectoryMachine

  // The scrub drops the entries past the horizon and nothing else.
  lemma ScrubExactly(st: DirState, now: u64)
    ensures var t := Scrubbed(st, now);
      && (forall k :: k in t.attested <==> k in st.attested && st.attested[k].lastActive <= now + 600_000)
      && (forall k :: k in t.attested ==> t.attested[k] == st.attested[k])
      && (forall k :: k in t.anon <==> k in st.anon && st.anon[k].lastActive <= now + 600_000)
      && (forall k :: k in t.anon ==> t.anon[k] == st.anon[k])
      && t.powDifficulty == st.powDifficulty
  {}

  // What the shell's validation accepts.
  lemma ValidatesExactly(x: Params, now: u64, st: DirState)
    ensures Validates(x, now, st) <==>
      Verified(x, st) && forall l :: l in st.Listings() ==> l.lastActive <= now + 600_000
  {
    hide Verified;
    ScrubExactly(st, now);
    if forall l :: l in st.Listings() ==> l.lastActive <= now + 600_000 {
      assert NotFuture(st.attested, now) == st.attested && NotFuture(st.anon, now) == st.anon;
    }
    if Scrubbed(st, now) == st {
      assert NotFuture(st.attested, now) == st.attested && NotFuture(st.anon, now) == st.anon;
    }
  }

  function ListingsOf(d: Option<DirDelta>): set<Listing> { if d.Some? then ToSet(d.value.listings) else {} }

  // The listings of every part of an update.
  function PartsOf(u: Update): set<Listing> {
    match u
    case State(other) => other.Listings()
    case Delta(d) => ListingsOf(d)
    case StateAndDelta(other, d) => other.Listings() + ListingsOf(d)
    case Unknown => {}
  }

  // Everything a list of updates carries, up to ten minutes ahead of the clock.
  function Carried(us: seq<Update>, now: u64): set<Listing> {
    set u, l | u in us && l in PartsOf(u) && l.lastActive <= now + 600_000 :: l
  }

  // The anonymous stamps clear the highest bar there is.
  ghost predicate WellStamped(x: Params, S: set<Listing>) {
    forall l :: l in S && l.IsAnon() ==> x.Stamped(l, 26)
  }

  // No part has more listings than a delta may.
  ghost predicate Short(u: Update) {
    match u
    case State(other) => |other.attested| + |other.anon| <= 1250
    case Delta(d) => d.Some? ==> |d.value.listings| <= 1250
    case StateAndDelta(other, d) =>
      |other.attested| + |other.anon| <= 1250 && (d.Some? ==> |d.value.listings| <= 1250)
    case Unknown => true
  }

  ghost predicate Sound(x: Params, S: set<Listing>) { forall l :: l in S ==> x.Check(l) }

  lemma DeltaJoins(x: Params, H: set<Listing>, st: DirState, d: DirDelta)
    requires Reflects(x.hash, H, st) && Distinct(x.hash, H + ToSet(d.listings)) && WellStamped(x, ToSet(d.listings))
    ensures Apply(x, st, d).Ok? ==> Reflects(x.hash, H + ToSet(d.listings), Apply(x, st, d).value)
    ensures |d.listings| <= 1250 && Sound(x, ToSet(d.listings)) ==> Apply(x, st, d).Ok?
  {
    hide Reflects, Absorb, Distinct, Canonicalized;
    assert forall l :: l in d.listings <==> l in ToSet(d.listings);
    var latched := st.(powDifficulty := PowAfter(x, st, d.powDifficulty));
    var bits := DifficultyBits(x.publisher, latched.powDifficulty);
    if |d.listings| <= 1250 && Sound(x, ToSet(d.listings)) { CheckedNeverFatal(x, bits, latched, d.listings); }
    assert Cleared(x, bits, d.listings) == ToSet(d.listings);
    if Apply(x, st, d).Ok? { ApplyIs(x, H, st, d); }
  }

  // The listings a part contributes once scrubbed.
  function TimedState(other: DirState, now: u64): set<Listing> { ToSet(FullDelta(Scrubbed(other, now)).listings) }

  function TimedDelta(d: Option<DirDelta>, now: u64): set<Listing> {
    if d.Some? then ToSet(ScrubbedDelta(d.value, now).listings) else {}
  }

  lemma TierTimed(t: Tier, now: u64)
    ensures NotFuture(t, now).Values == set l | l in t.Values && l.lastActive <= now + 600_000
    ensures |NotFuture(t, now)| <= |t|
  {
    var kept := NotFuture(t, now);
    SubsetCard(kept.Keys, t.Keys);
    forall l | l in t.Values && l.lastActive <= now + 600_000 ensures l in kept.Values {
      var k :| k in t && t[k] == l;
      assert k in kept && kept[k] == l;
    }
  }

  lemma TimedStateIs(other: DirState, now: u64)
    ensures TimedState(other, now) == set l | l in other.Listings() && l.lastActive <= now + 600_000
    ensures |FullDelta(Scrubbed(other, now)).listings| <= |other.attested| + |other.anon|
  {
    hide NotFuture, FullDelta;
    TierTimed(other.attested, now);
    TierTimed(other.anon, now);
    FullListings(Scrubbed(other, now));
  }

  lemma TimedDeltaIs(d: Option<DirDelta>, now: u64)
    ensures TimedDelta(d, now) == set l | l in ListingsOf(d) && l.lastActive <= now + 600_000
    ensures d.Some? ==> |ScrubbedDelta(d.value, now).listings| <= |d.value.listings|
  {}

  lemma CarriedByOne(u: Update, now: u64)
    ensures Carried([u], now) == match u
      case State(other) => TimedState(other, now)
      case Delta(d) => TimedDelta(d, now)
      case StateAndDelta(other, d) => TimedState(other, now) + TimedDelta(d, now)
      case Unknown => {}
  {
    hide TimedState, TimedDelta, ListingsOf, DirState.Listings;
    assert Carried([u], now) == set l | l in PartsOf(u) && l.lastActive <= now + 600_000 by {
      hide PartsOf;
      assert u in [u];
    }
    match u {
      case State(other) => TimedStateIs(other, now);
      case Delta(d) => TimedDeltaIs(d, now);
      case StateAndDelta(other, d) => TimedStateIs(other, now); TimedDeltaIs(d, now);
      case Unknown =>
    }
  }

  // Everything a run needs to know of what it is given.
  ghost predicate Proper(x: Params, H: set<Listing>, S: set<Listing>) {
    Distinct(x.hash, H + S) && WellStamped(x, S)
  }

  lemma ProperPart(x: Params, H: set<Listing>, S: set<Listing>, part: set<Listing>, rest: set<Listing>)
    requires Proper(x, H, S) && S == part + rest
    ensures Proper(x, H, part) && Proper(x, H + part, rest)
  {}

  lemma StateBrings(x: Params, H: set<Listing>, now: u64, st: DirState, other: DirState)
    requires Reflects(x.hash, H, st) && Proper(x, H, TimedState(other, now))
    ensures var end := Merge(x, st, Scrubbed(other, now));
      && (end.Ok? ==> Reflects(x.hash, H + TimedState(other, now), end.value))
      && (|other.attested| + |other.anon| <= 1250 && Sound(x, TimedState(other, now)) ==> end.Ok?)
  {
    hide Reflects, Apply, FullDelta, Distinct, WellStamped, Sound, Scrubbed;
    TimedStateIs(other, now);
    DeltaJoins(x, H, st, FullDelta(Scrubbed(other, now)));
  }

  lemma DeltaBrings(x: Params, H: set<Listing>, now: u64, st: DirState, d: Option<DirDelta>)
    requires Reflects(x.hash, H, st) && Proper(x, H, TimedDelta(d, now))
    ensures var end := if d.Some? then Apply(x, st, ScrubbedDelta(d.value, now)) else Ok(st);
      && (end.Ok? ==> Reflects(x.hash, H + TimedDelta(d, now), end.value))
      && ((d.Some? ==> |d.value.listings| <= 1250) && Sound(x, TimedDelta(d, now)) ==> end.Ok?)
  {
    hide Reflects, Apply, ScrubbedDelta, Distinct, WellStamped, Sound;
    if d.Some? {
      TimedDeltaIs(d, now);
      DeltaJoins(x, H, st, ScrubbedDelta(d.value, now));
    } else {
      assert H + TimedDelta(d, now) == H;
    }
  }

  lemma UpdateOneBrings(x: Params, H: set<Listing>, now: u64, st: DirState, u: Update)
    requires Reflects(x.hash, H, st) && Proper(x, H, Carried([u], now))
    ensures var end := UpdateOne(x, now, st, u);
      && (end.Ok? ==> u != Unknown && Reflects(x.hash, H + Carried([u], now), end.value))
      && (u != Unknown && Short(u) && Sound(x, Carried([u], now)) ==> end.Ok?)
  {
    hide Reflects, Proper, Apply, Merge, Scrubbed, ScrubbedDelta, Carried, TimedState, TimedDelta;
    CarriedByOne(u, now);
    match u {
      case State(other) => StateBrings(x, H, now, st, other);
      case Delta(d) => DeltaBrings(x, H, now, st, d);
      case StateAndDelta(other, d) =>
        var first := TimedState(other, now);
        ProperPart(x, H, Carried([u], now), first, TimedDelta(d, now));
        assert H + first + TimedDelta(d, now) == H + Carried([u], now);
        StateBrings(x, H, now, st, other);
        var merged := Merge(x, st, Scrubbed(other, now));
        if merged.Ok? { DeltaBrings(x, H + first, now, merged.value, d); }
      case Unknown =>
    }
  }

  lemma CarriedSnoc(us: seq<Update>, now: u64)
    requires us != []
    ensures var n := |us| - 1; Carried(us, now) == Carried(us[..n], now) + Carried([us[n]], now)
  {
    hide PartsOf;
    var n := |us| - 1;
    assert forall u :: u in us <==> u in us[..n] || u == us[n];
  }

  lemma NothingCarried(now: u64)
    ensures Carried([], now) == {}
  {}

  lemma {:induction false} UpdateBrings(x: Params, H: set<Listing>, now: u64, st: DirState, us: seq<Update>)
    requires Reflects(x.hash, H, st) && Proper(x, H, Carried(us, now))
    ensures var end := UpdateAll(x, now, st, us);
      && (end.Ok? ==> Unknown !in us && Reflects(x.hash, H + Carried(us, now), end.value))
      && (Unknown !in us && (forall u :: u in us ==> Short(u)) && Sound(x, Carried(us, now)) ==> end.Ok?)
  {
    hide Reflects, Proper, UpdateOne, Carried, Short;
    if us == [] {
      assert H + Carried([], now) == H by { NothingCarried(now); }
    } else {
      var front, last := us[..|us| - 1], us[|us| - 1];
      assert forall u :: u in us <==> u in front || u == last;
      CarriedSnoc(us, now);
      assert H + Carried(front, now) + Carried([last], now) == H + Carried(us, now);
      ProperPart(x, H, Carried(us, now), Carried(front, now), Carried([last], now));
      UpdateBrings(x, H, now, st, front);
      if UpdateAll(x, now, st, front).Ok? {
        UpdateOneBrings(x, H + Carried(front, now), now, UpdateAll(x, now, st, front).value, last);
      }
    }
  }

  // An update takes effect. On a stored state with nothing past the horizon, a run that
  // succeeds leaves what the history with everything timely it was given leaves, and short
  // sound parts are refused only for an update of unknown kind.
  lemma UpdateTakesEffect(x: Params, H: set<Listing>, now: u64, stored: DirState, us: seq<Update>)
    requires Reflects(x.hash, H, stored) && Proper(x, H, Carried(us, now))
    requires forall l :: l in stored.Listings() ==> l.lastActive <= now + 600_000
    ensures var end := UpdateAll(x, now, Scrubbed(stored, now), us);
      && (end.Ok? ==> Unknown !in us && Reflects(x.hash, H + Carried(us, now), end.value))
      && (Unknown !in us && (forall u :: u in us ==> Short(u)) && Sound(x, Carried(us, now)) ==> end.Ok?)
  {
    hide Reflects, Proper, UpdateAll, Carried, Short, Sound;
    assert NotFuture(stored.attested, now) == stored.attested && NotFuture(stored.anon, now) == stored.anon;
    UpdateBrings(x, H, now, stored, us);
  }

  // Whatever else is in it, an update with a part of unknown kind is refused.
  lemma {:induction false} UnknownFails(x: Params, now: u64, st: DirState, us: seq<Update>)
    requires Unknown in us
    ensures UpdateAll(x, now, st, us).Err?
  {
    hide Merge, Apply;
    var front := us[..|us| - 1];
    assert us == front + [us[|us| - 1]];
    if Unknown in front { UnknownFails(x, now, st, front); }
  }

  // The difficulty records of every part of an update.
  function RecordsOf(u: Update): set<Option<Cell>> {
    match u
    case State(other) => {other.powDifficulty}
    case Delta(d) => if d.Some? then {d.value.powDifficulty} else {}
    case StateAndDelta(other, d) => {other.powDifficulty} + if d.Some? then {d.value.powDifficulty} else {}
    case Unknown => {}
  }

  lemma ApplyLatches(x: Params, st: DirState, d: DirDelta)
    requires Apply(x, st, d).Ok?
    ensures var end := DifficultySeq(Apply(x, st, d).value.powDifficulty);
      && DifficultySeq(st.powDifficulty) <= end
      && (PowOk(x, d.powDifficulty) ==> DifficultySeq(d.powDifficulty) <= end)
  {
    hide Absorb, TrimTo;
    var latched := st.(powDifficulty := PowAfter(x, st, d.powDifficulty));
    AbsorbKeepsRecord(x, DifficultyBits(x.publisher, latched.powDifficulty), latched, d.listings);
  }

  lemma OneLatches(x: Params, now: u64, st: DirState, u: Update, c: Cell)
    requires UpdateOne(x, now, st, u).Ok?
    ensures var end := DifficultySeq(UpdateOne(x, now, st, u).value.powDifficulty);
      && DifficultySeq(st.powDifficulty) <= end
      && (Some(c) in RecordsOf(u) && x.publisher(c) && |c.body| <= 65_536 ==> c.seqNo <= end)
  {
    hide Apply;
    match u {
      case State(other) => ApplyLatches(x, st, FullDelta(Scrubbed(other, now)));
      case Delta(d) => if d.Some? { ApplyLatches(x, st, ScrubbedDelta(d.value, now)); }
      case StateAndDelta(other, d) =>
        ApplyLatches(x, st, FullDelta(Scrubbed(other, now)));
        if d.Some? {
          ApplyLatches(x, Merge(x, st, Scrubbed(other, now)).value, ScrubbedDelta(d.value, now));
        }
    }
  }

  // No update passes by a genuine difficulty record: the latch ends at least as far as each.
  lemma {:induction false} RecordsTakeEffect(x: Params, now: u64, st: DirState, us: seq<Update>, u: Update, c: Cell)
    requires UpdateAll(x, now, st, us).Ok? && u in us && Some(c) in RecordsOf(u)
    requires x.publisher(c) && |c.body| <= 65_536
    ensures c.seqNo <= DifficultySeq(UpdateAll(x, now, st, us).value.powDifficulty)
  {
    hide UpdateOne, RecordsOf;
    var front, last := us[..|us| - 1], us[|us| - 1];
    assert us == front + [last];
    OneLatches(x, now, UpdateAll(x, now, st, front).value, last, c);
    if u in front { RecordsTakeEffect(x, now, st, front, u, c); }
  }
}
