// The inbox contract's shell: scrub far-future pointers, then apply whatever updates come.
module InboxShell {
  import opened Basics
  import opened Pow
  import opened PointerLog
  import opened PointerVec
  import opened PointerSync
  import opened Inbox
  import opened InboxTheorems
  import opened InboxSync
  import opened InboxMachine

  // An update without bytes where a delta is expected carries none.
  datatype Update =
    | State(st: InboxState)
    | Delta(delta: Option<InboxDelta>)
    | StateAndDelta(both: InboxState, also: Option<InboxDelta>)
    | Unknown

  function ScrubbedDelta(d: InboxDelta, now: u64): InboxDelta {
    if d.pointers.Some? then d.(pointers := Some(Retain(d.pointers.value, NotFuture(d.pointers.value, now)))) else d
  }

  ghost function UpdateOne(x: Instance, now: u64, st: InboxState, u: Update): Result<InboxState> {
    match u
    case State(other) => Merge(x, st, Scrubbed(other, now))
    case Delta(d) => if d.Some? then Apply(x, st, ScrubbedDelta(d.value, now)) else Ok(st)
    case StateAndDelta(other, d) =>
      (match Merge(x, st, Scrubbed(other, now))
       case Ok(t) => if d.Some? then Apply(x, t, ScrubbedDelta(d.value, now)) else Ok(t)
       case Err => Err)
    case Unknown => Err
  }

  ghost function UpdateAll(x: Instance, now: u64, st: InboxState, us: seq<Update>): Result<InboxState> {
    if us == [] then Ok(st)
    else match UpdateAll(x, now, st, us[..|us| - 1])
      case Ok(t) => UpdateOne(x, now, t, us[|us| - 1])
      case Err => Err
  }

  ghost predicate Validates(x: Instance, now: u64, st: InboxState) {
    Scrubbed(st, now) == st && Verified(x, st)
  }

  ghost predicate Timely(s: seq<Pointer>, now: u64) {
    forall p :: p in s ==> p.ptr.time <= SaturatingAdd(now, MAX_FUTURE_MS)
  }

  lemma TimelyIsScrubbed(st: InboxState, now: u64)
    ensures Timely(st.pointers, now) <==> Scrubbed(st, now) == st
    ensures Timely(Scrubbed(st, now).pointers, now)
  {
    var s := st.pointers;
    if Timely(s, now) { RestrictAll(s, NotFuture(s, now)); }
  }

  lemma ApplyTimely(x: Instance, st: InboxState, d: InboxDelta, now: u64)
    requires Apply(x, st, d).Ok? && Timely(st.pointers, now)
    requires d.pointers.Some? ==> Timely(d.pointers.value, now)
    ensures Timely(Apply(x, st, d).value.pointers, now)
  {
    hide Apply;
    forall p | p in Apply(x, st, d).value.pointers ensures p.ptr.time <= SaturatingAdd(now, MAX_FUTURE_MS) {
      if p !in st.pointers { SeatedPointerOrigin(x, st, d, p); }
    }
  }

  lemma ApplyStep(x: Instance, now: u64, st: InboxState, d: InboxDelta)
    requires Sound(x, st) && Timely(st.pointers, now) && Apply(x, st, d).Ok?
    requires d.pointers.Some? ==> Timely(d.pointers.value, now)
    ensures Verified(x, Apply(x, st, d).value) && Timely(Apply(x, st, d).value.pointers, now)
  {
    hide Verified, Sound, Apply, Timely;
    ApplyVerifies(x, st, d);
    ApplyTimely(x, st, d, now);
  }

  lemma MergeStep(x: Instance, now: u64, st: InboxState, other: InboxState)
    requires Sound(x, st) && Timely(st.pointers, now) && Timely(other.pointers, now) && Merge(x, st, other).Ok?
    ensures Timely(Merge(x, st, other).value.pointers, now)
    ensures if Inbox.Delta(x, other, Summary(x, st)).Some? then Verified(x, Merge(x, st, other).value)
      else Merge(x, st, other).value == st
  {
    hide Verified, Sound, Apply, Summary, Offered;
    var o := Offered(other.pointers, Summary(x, st).pointers);
    assert forall p :: p in o ==> p in other.pointers by { OfferedWithin(other.pointers, Summary(x, st).pointers); }
    match Inbox.Delta(x, other, Summary(x, st)) {
      case None =>
      case Some(d) => ApplyStep(x, now, st, d);
    }
  }

  lemma OfferedWithin(s: seq<Pointer>, theirs: PointersSummary)
    ensures forall p :: p in Offered(s, theirs) ==> p in s
  {
    hide Retains;
    assert forall p :: p in Offered(s, theirs) ==> p in ToSet(Offered(s, theirs));
  }

  // Whether an update gets as far as a delta, and with it the cleanup.
  predicate Effective(x: Instance, now: u64, st: InboxState, u: Update) {
    match u
    case State(other) => Inbox.Delta(x, Scrubbed(other, now), Summary(x, st)).Some?
    case Delta(d) => d.Some?
    case StateAndDelta(other, d) => d.Some? || Inbox.Delta(x, Scrubbed(other, now), Summary(x, st)).Some?
    case Unknown => false
  }

  lemma UpdateOneSettles(x: Instance, now: u64, st: InboxState, u: Update)
    requires Sound(x, st) && Timely(st.pointers, now) && UpdateOne(x, now, st, u).Ok?
    ensures var t := UpdateOne(x, now, st, u).value;
      && Timely(t.pointers, now) && Sound(x, t)
      && if Effective(x, now, st, u) then Verified(x, t) else t == st
  {
    hide Verified, Sound, Apply, Merge, Inbox.Delta, Timely;
    var t := UpdateOne(x, now, st, u).value;
    match u {
      case State(other) =>
        TimelyIsScrubbed(other, now);
        MergeStep(x, now, st, Scrubbed(other, now));
      case Delta(d) =>
        if d.Some? {
          ScrubbedDeltaTimely(d.value, now);
          ApplyStep(x, now, st, ScrubbedDelta(d.value, now));
        }
      case StateAndDelta(other, d) =>
        TimelyIsScrubbed(other, now);
        MergeStep(x, now, st, Scrubbed(other, now));
        var merged := Merge(x, st, Scrubbed(other, now)).value;
        if Verified(x, merged) { VerifiedIsSound(x, merged); }
        if d.Some? {
          ScrubbedDeltaTimely(d.value, now);
          ApplyStep(x, now, merged, ScrubbedDelta(d.value, now));
        }
    }
    if Verified(x, t) { VerifiedIsSound(x, t); }
  }

  lemma ScrubbedDeltaTimely(d: InboxDelta, now: u64)
    ensures ScrubbedDelta(d, now).pointers.Some? ==> Timely(ScrubbedDelta(d, now).pointers.value, now)
  {}

  lemma UpdateOneKeepsVerified(x: Instance, now: u64, st: InboxState, u: Update)
    requires Verified(x, st) && Timely(st.pointers, now) && UpdateOne(x, now, st, u).Ok?
    ensures Verified(x, UpdateOne(x, now, st, u).value)
  {
    hide Verified, Sound, UpdateOne, Effective, Timely;
    VerifiedIsSound(x, st);
    UpdateOneSettles(x, now, st, u);
  }

  lemma {:induction false} UpdateAllSettles(x: Instance, now: u64, st: InboxState, us: seq<Update>)
    requires Sound(x, st) && Timely(st.pointers, now) && UpdateAll(x, now, st, us).Ok?
    ensures var t := UpdateAll(x, now, st, us).value;
      && Timely(t.pointers, now) && Sound(x, t)
      && if exists u :: u in us && Effective(x, now, st, u) then Verified(x, t) else t == st
  {
    hide Verified, Sound, Timely, UpdateOne, Effective;
    if us != [] {
      var front, last := us[..|us| - 1], us[|us| - 1];
      ToSetSnoc(us);
      assert forall u :: u in us <==> u in front || u == last;
      UpdateAllSettles(x, now, st, front);
      var t := UpdateAll(x, now, st, front).value;
      UpdateOneSettles(x, now, t, last);
      if u :| u in front && Effective(x, now, st, u) { UpdateOneKeepsVerified(x, now, t, last); }
    }
  }

  // Dropping future pointers can leave a credential no pointer references, which full-state
  // validation refuses: a scrubbed state stays valid exactly when no credential is orphaned.
  lemma ScrubStaysValidExactly(x: Instance, now: u64, st: InboxState)
    requires Verified(x, st)
    ensures Validates(x, now, Scrubbed(st, now)) <==> st.creds.Keys <= Repliers(Scrubbed(st, now).pointers)
  {
    hide Verified, Scrubbed, Timely;
    TimelyIsScrubbed(st, now);
    TimelyIsScrubbed(Scrubbed(st, now), now);
    ScrubVerified(x, now, st);
  }

  lemma ScrubVerified(x: Instance, now: u64, st: InboxState)
    requires Verified(x, st)
    ensures Verified(x, Scrubbed(st, now)) <==> st.creds.Keys <= Repliers(Scrubbed(st, now).pointers)
    ensures Sound(x, Scrubbed(st, now))
  {
    var s, t := st.pointers, Scrubbed(st, now).pointers;
    assert Seated(t) by { ScrubSeated(st.pointers, now); }
    assert Ascending(t) && DistinctIds(t) && WithinCaps(t) by { SeatedIsWithinCaps(t); }
    hide Ascending, DistinctIds, WithinCaps, Seated;
    assert forall p :: p in t ==> p in s;
  }

  lemma ScrubSeated(s: seq<Pointer>, now: u64)
    requires Ascending(s) && DistinctIds(s) && WithinCaps(s)
    ensures Seated(Restrict(s, NotFuture(s, now)))
  {
    var t := Restrict(s, NotFuture(s, now));
    VerifiedIsSeated(s);
    RestrictStrict(s, NotFuture(s, now));
    hide Ascending, DistinctIds, WithinCaps, Survives;
    forall p | p in ToSet(t) ensures Survives(p, ToSet(t)) {
      assert p in Evict(ToSet(s));
      SurvivalTightens(p, ToSet(t), ToSet(s));
    }
  }

  // Shell soundness at one clock, exactly: a successful update of a verified state yields a
  // state that validates if and only if one of the updates brings a delta for the scrubbed
  // state, or the scrub orphaned no credential.
  lemma ShellSoundExactly(x: Instance, now: u64, stored: InboxState, us: seq<Update>)
    requires Verified(x, stored) && UpdateAll(x, now, Scrubbed(stored, now), us).Ok?
    ensures Validates(x, now, UpdateAll(x, now, Scrubbed(stored, now), us).value) <==>
      || (exists u :: u in us && Effective(x, now, Scrubbed(stored, now), u))
      || stored.creds.Keys <= Repliers(Scrubbed(stored, now).pointers)
  {
    hide Verified, Sound, UpdateAll, Effective, Scrubbed, Timely;
    TimelyIsScrubbed(stored, now);
    ScrubVerified(x, now, stored);
    UpdateAllSettles(x, now, Scrubbed(stored, now), us);
    TimelyIsScrubbed(UpdateAll(x, now, Scrubbed(stored, now), us).value, now);
  }

  // ---- what an update brings ----

  // The scrub drops the pointers past the horizon and nothing else.
  lemma ScrubExactly(st: InboxState, now: u64)
    ensures forall p :: p in Scrubbed(st, now).pointers <==> p in st.pointers && p.ptr.time <= now + 600_000
    ensures Scrubbed(st, now).creds == st.creds && Scrubbed(st, now).powDifficulty == st.powDifficulty
  {}

  // What the shell's validation accepts.
  lemma ValidatesExactly(x: Instance, now: u64, st: InboxState)
    ensures Validates(x, now, st) <==>
      Verified(x, st) && forall p :: p in st.pointers ==> p.ptr.time <= now + 600_000
  {
    hide Verified, Scrubbed;
    TimelyIsScrubbed(st, now);
  }

  function PointersOf(d: Option<InboxDelta>): set<Pointer> {
    if d.Some? && d.value.pointers.Some? then ToSet(d.value.pointers.value) else {}
  }

  // The pointers of every part of an update.
  function PartsOf(u: Update): set<Pointer> {
    match u
    case State(other) => ToSet(other.pointers)
    case Delta(d) => PointersOf(d)
    case StateAndDelta(other, d) => ToSet(other.pointers) + PointersOf(d)
    case Unknown => {}
  }

  // Everything a list of updates carries, up to ten minutes ahead of the clock.
  function Carried(us: seq<Update>, now: u64): set<Pointer> {
    set u, p | u in us && p in PartsOf(u) && p.ptr.time <= now + 600_000 :: p
  }

  // creds are those of book, few enough, and one for each pointer's replier.
  ghost predicate SelfContained(book: map<Key, Cred>, creds: map<Key, Cred>, ps: set<Pointer>) {
    && |creds| <= 300 && (forall k :: k in creds ==> k in book && creds[k] == book[k])
    && forall p :: p in ps ==> p.ptr.replier in creds
  }

  ghost predicate DeltaFits(book: map<Key, Cred>, d: Option<InboxDelta>) {
    d.Some? ==> SelfContained(book, CredsIn(d.value), PointersOf(d))
  }

  ghost predicate StateFits(book: map<Key, Cred>, other: InboxState) {
    SelfContained(book, other.creds, ToSet(other.pointers))
  }

  // Every part brings the credentials its pointers need.
  ghost predicate PartsFit(book: map<Key, Cred>, u: Update) {
    match u
    case State(other) => StateFits(book, other)
    case Delta(d) => DeltaFits(book, d)
    case StateAndDelta(other, d) => StateFits(book, other) && DeltaFits(book, d)
    case Unknown => true
  }

  // Pointers signed and matching under book, no two for one reply post, the anonymous ones
  // stamped for the highest bar there is.
  ghost predicate WellMade(x: Instance, book: map<Key, Cred>, H: set<Pointer>) {
    Honest(x, book, H) && forall p :: p in H && p.IsAnon() ==> x.Stamped(p, 26)
  }

  lemma DeltaJoins(x: Instance, book: map<Key, Cred>, H: set<Pointer>, st: InboxState, d: InboxDelta)
    requires Reflects(book, H, st) && WellMade(x, book, H + ToSet(PointersIn(d)))
    requires SelfContained(book, CredsIn(d), ToSet(PointersIn(d)))
    ensures Apply(x, st, d).Ok? && Reflects(book, H + ToSet(PointersIn(d)), Apply(x, st, d).value)
  {
    hide Reflects, Honest, Apply, PowAfter;
    assert forall p :: p in PointersIn(d) ==> p in ToSet(PointersIn(d));
    assert Usable(st, d) == ToSet(PointersIn(d));
    HonestApply(x, book, H, st, d);
  }

  lemma OfferJoins(book: map<Key, Cred>, H: set<Pointer>, st: InboxState, ps: seq<Pointer>)
    requires Reflects(book, H, st) && UniqueIds(H + ToSet(ps))
    ensures var o := Offered(ps, Summarize(st.pointers));
      ToSet(o) <= ToSet(ps) && Evict(H + ToSet(o)) == Evict(H + ToSet(ps))
  {
    hide Survives, Summarize, Retains;
    var o := Offered(ps, Summarize(st.pointers));
    EvictIdempotent(H);
    OfferLosesNothing(st.pointers, ps);
    EvictAbsorbs(H, ToSet(o));
    EvictAbsorbs(H, ToSet(ps));
  }

  lemma AnswerFits(x: Instance, book: map<Key, Cred>, st: InboxState, other: InboxState)
    requires StateFits(book, other) && Inbox.Delta(x, other, Summary(x, st)).Some?
    ensures var d := Inbox.Delta(x, other, Summary(x, st)).value;
      && PointersIn(d) == Offered(other.pointers, Summarize(st.pointers))
      && |CredsIn(d)| <= 300 && (forall k :: k in CredsIn(d) ==> k in book && CredsIn(d)[k] == book[k])
      && Usable(st, d) == ToSet(PointersIn(d))
  {
    hide Inbox.Delta, Offered, Summarize;
    var d := Inbox.Delta(x, other, Summary(x, st)).value;
    forall k ensures k in CredsIn(d) ==> k in other.creds && CredsIn(d)[k] == other.creds[k] {
      CredsOfferedExactly(x, st, other, k);
    }
    SubsetCard(CredsIn(d).Keys, other.creds.Keys);
    CredsOfferedExactly(x, st, other, 0);
    OfferedWithin(other.pointers, Summarize(st.pointers));
    forall p | p in PointersIn(d) ensures Vouches(st, d, p) {
      assert p in ToSet(other.pointers);
      CredsOfferedExactly(x, st, other, p.ptr.replier);
      assert p.ptr.replier in Repliers(PointersIn(d));
    }
  }

  lemma MergeJoins(x: Instance, book: map<Key, Cred>, H: set<Pointer>, st: InboxState, other: InboxState)
    requires Reflects(book, H, st) && StateFits(book, other) && WellMade(x, book, H + ToSet(other.pointers))
    ensures Merge(x, st, other).Ok? && Reflects(book, H + ToSet(other.pointers), Merge(x, st, other).value)
  {
    hide Evict, Inbox.Delta, Offered, Summarize, StateFits, Apply, PowAfter, UniqueIds, CredsOk, PointerOk;
    var o := Offered(other.pointers, Summarize(st.pointers));
    OfferJoins(book, H, st, other.pointers);
    CredsOfferedExactly(x, st, other, 0);
    match Inbox.Delta(x, other, Summary(x, st)) {
      case None => assert H + ToSet(o) == H;
      case Some(d) =>
        AnswerFits(x, book, st, other);
        assert forall p :: p in PointersIn(d) ==> p in ToSet(PointersIn(d));
        SmallerHistory(x, book, H + ToSet(other.pointers), H + ToSet(PointersIn(d)));
        HonestApply(x, book, H, st, d);
    }
  }

  lemma FewerWellMade(x: Instance, book: map<Key, Cred>, H: set<Pointer>, G: set<Pointer>)
    requires WellMade(x, book, H) && G <= H
    ensures WellMade(x, book, G)
  {}

  // The pointers a delta part contributes once scrubbed.
  function Timed(d: Option<InboxDelta>, now: u64): set<Pointer> {
    if d.Some? then ToSet(PointersIn(ScrubbedDelta(d.value, now))) else {}
  }

  lemma TimedIs(d: Option<InboxDelta>, now: u64)
    ensures Timed(d, now) == set p | p in PointersOf(d) && p.ptr.time <= now + 600_000
  {}

  lemma ScrubbedIs(other: InboxState, now: u64)
    ensures ToSet(Scrubbed(other, now).pointers) == set p | p in ToSet(other.pointers) && p.ptr.time <= now + 600_000
  {}

  lemma ScrubbedFits(book: map<Key, Cred>, other: InboxState, d: InboxDelta, now: u64)
    ensures StateFits(book, other) ==> StateFits(book, Scrubbed(other, now))
    ensures DeltaFits(book, Some(d)) ==>
      SelfContained(book, CredsIn(ScrubbedDelta(d, now)), ToSet(PointersIn(ScrubbedDelta(d, now))))
  {
    ScrubbedIs(other, now);
    TimedIs(Some(d), now);
    hide Scrubbed, Timed, NotFuture;
    assert Scrubbed(other, now).creds == other.creds by { ScrubExactly(other, now); }
    assert ToSet(PointersIn(ScrubbedDelta(d, now))) <= PointersOf(Some(d)) by { TimedWithin(d, now); }
  }

  lemma TimedWithin(d: InboxDelta, now: u64)
    ensures ToSet(PointersIn(ScrubbedDelta(d, now))) <= PointersOf(Some(d))
  {}

  lemma CarriedByOne(u: Update, now: u64)
    ensures Carried([u], now) == match u
      case State(other) => ToSet(Scrubbed(other, now).pointers)
      case Delta(d) => Timed(d, now)
      case StateAndDelta(other, d) => ToSet(Scrubbed(other, now).pointers) + Timed(d, now)
      case Unknown => {}
  {
    hide Timed, Scrubbed, PointersOf;
    assert Carried([u], now) == set p | p in PartsOf(u) && p.ptr.time <= now + 600_000 by {
      hide PartsOf;
      assert u in [u];
    }
    match u {
      case State(other) => ScrubbedIs(other, now);
      case Delta(d) => TimedIs(d, now);
      case StateAndDelta(other, d) => ScrubbedIs(other, now); TimedIs(d, now);
      case Unknown =>
    }
  }

  lemma DeltaBrings(x: Instance, book: map<Key, Cred>, H: set<Pointer>, now: u64, st: InboxState,
                    d: Option<InboxDelta>)
    requires Reflects(book, H, st) && DeltaFits(book, d) && WellMade(x, book, H + Timed(d, now))
    ensures var end := if d.Some? then Apply(x, st, ScrubbedDelta(d.value, now)) else Ok(st);
      end.Ok? && Reflects(book, H + Timed(d, now), end.value)
  {
    hide Reflects, WellMade, Apply, ScrubbedDelta;
    if d.Some? {
      ScrubbedFits(book, st, d.value, now);
      DeltaJoins(x, book, H, st, ScrubbedDelta(d.value, now));
    } else {
      assert H + Timed(d, now) == H;
    }
  }

  lemma UpdateOneBrings(x: Instance, book: map<Key, Cred>, H: set<Pointer>, now: u64, st: InboxState, u: Update)
    requires Reflects(book, H, st) && PartsFit(book, u) && u != Unknown
    requires WellMade(x, book, H + Carried([u], now))
    ensures UpdateOne(x, now, st, u).Ok? && Reflects(book, H + Carried([u], now), UpdateOne(x, now, st, u).value)
  {
    hide Reflects, WellMade, Apply, Merge, Scrubbed, ScrubbedDelta, Carried, Timed, StateFits, DeltaFits;
    CarriedByOne(u, now);
    match u {
      case State(other) =>
        ScrubbedFits(book, other, InboxDelta(None, None, None), now);
        MergeJoins(x, book, H, st, Scrubbed(other, now));
      case Delta(d) => DeltaBrings(x, book, H, now, st, d);
      case StateAndDelta(other, d) =>
        var first := ToSet(Scrubbed(other, now).pointers);
        ScrubbedFits(book, other, InboxDelta(None, None, None), now);
        assert H + first + Timed(d, now) == H + Carried([u], now);
        FewerWellMade(x, book, H + Carried([u], now), H + first);
        MergeJoins(x, book, H, st, Scrubbed(other, now));
        DeltaBrings(x, book, H + first, now, Merge(x, st, Scrubbed(other, now)).value, d);
    }
  }

  lemma CarriedSnoc(us: seq<Update>, now: u64)
    requires us != []
    ensures var n := |us| - 1; Carried(us, now) == Carried(us[..n], now) + Carried([us[n]], now)
  {
    hide PartsOf;
    var n := |us| - 1;
    assert forall u :: u in us <==> u in us[..n] || u == us[n];
  }

  lemma {:induction false} UpdateBrings(x: Instance, book: map<Key, Cred>, H: set<Pointer>, now: u64, st: InboxState,
                                        us: seq<Update>)
    requires Reflects(book, H, st) && WellMade(x, book, H + Carried(us, now))
    requires forall u :: u in us ==> PartsFit(book, u)
    ensures UpdateAll(x, now, st, us).Ok? <==> Unknown !in us
    ensures Unknown !in us ==> Reflects(book, H + Carried(us, now), UpdateAll(x, now, st, us).value)
  {
    hide Reflects, WellMade, PartsFit, UpdateOne, Carried;
    if us == [] {
      assert H + Carried([], now) == H by { NothingCarried(now); }
    } else {
      var front, last := us[..|us| - 1], us[|us| - 1];
      assert forall u :: u in us <==> u in front || u == last;
      CarriedSnoc(us, now);
      assert H + Carried(front, now) + Carried([last], now) == H + Carried(us, now);
      FewerWellMade(x, book, H + Carried(us, now), H + Carried(front, now));
      UpdateBrings(x, book, H, now, st, front);
      if Unknown !in us {
        UpdateOneBrings(x, book, H + Carried(front, now), now, UpdateAll(x, now, st, front).value, last);
      } else {
        UnknownFails(x, now, st, us);
      }
    }
  }

  // An update takes effect. On a stored state with nothing past the horizon, well-made parts
  // are refused only for an update of unknown kind, and otherwise leave what the history with
  // everything timely they carry leaves.
  lemma UpdateTakesEffect(x: Instance, book: map<Key, Cred>, H: set<Pointer>, now: u64, stored: InboxState,
                          us: seq<Update>)
    requires Reflects(book, H, stored) && WellMade(x, book, H + Carried(us, now))
    requires forall p :: p in stored.pointers ==> p.ptr.time <= now + 600_000
    requires forall u :: u in us ==> PartsFit(book, u)
    ensures var end := UpdateAll(x, now, Scrubbed(stored, now), us);
      && (end.Ok? <==> Unknown !in us)
      && (end.Ok? ==> Reflects(book, H + Carried(us, now), end.value))
  {
    hide Reflects, WellMade, PartsFit, UpdateAll, Carried;
    TimelyIsScrubbed(stored, now);
    UpdateBrings(x, book, H, now, stored, us);
  }

  lemma NothingCarried(now: u64)
    ensures Carried([], now) == {}
  {}

  // The difficulty records of every part of an update.
  function RecordsOf(u: Update): set<Option<Cell>> {
    match u
    case State(other) => {other.powDifficulty}
    case Delta(d) => if d.Some? then {d.value.powDifficulty} else {}
    case StateAndDelta(other, d) => {other.powDifficulty} + if d.Some? then {d.value.powDifficulty} else {}
    case Unknown => {}
  }

  lemma MergeLatches(x: Instance, st: InboxState, other: InboxState)
    requires Merge(x, st, other).Ok?
    ensures var end := DifficultySeq(Merge(x, st, other).value.powDifficulty);
      && DifficultySeq(st.powDifficulty) <= end
      && (PowOk(x, other.powDifficulty) ==> DifficultySeq(other.powDifficulty) <= end)
  {
    hide Summarize, Offered, Rejected, CredsAfter, PointersAfter, Matching, Canonical;
  }

  lemma ApplyLatches(x: Instance, st: InboxState, d: InboxDelta)
    requires Apply(x, st, d).Ok?
    ensures var end := DifficultySeq(Apply(x, st, d).value.powDifficulty);
      && DifficultySeq(st.powDifficulty) <= end
      && (PowOk(x, d.powDifficulty) ==> DifficultySeq(d.powDifficulty) <= end)
  {
    hide Rejected, CredsAfter, PointersAfter, Matching, Canonical;
  }

  lemma OneLatches(x: Instance, now: u64, st: InboxState, u: Update, c: Cell)
    requires UpdateOne(x, now, st, u).Ok?
    ensures var end := DifficultySeq(UpdateOne(x, now, st, u).value.powDifficulty);
      && DifficultySeq(st.powDifficulty) <= end
      && (Some(c) in RecordsOf(u) && x.publisher(c) && |c.body| <= 65_536 ==> c.seqNo <= end)
  {
    hide Apply, Merge;
    match u {
      case State(other) => MergeLatches(x, st, Scrubbed(other, now));
      case Delta(d) => if d.Some? { ApplyLatches(x, st, ScrubbedDelta(d.value, now)); }
      case StateAndDelta(other, d) =>
        MergeLatches(x, st, Scrubbed(other, now));
        if d.Some? {
          ApplyLatches(x, Merge(x, st, Scrubbed(other, now)).value, ScrubbedDelta(d.value, now));
        }
    }
  }

  // No update passes by a genuine difficulty record: the latch ends at least as far as each.
  lemma {:induction false} RecordsTakeEffect(x: Instance, now: u64, st: InboxState, us: seq<Update>, u: Update, c: Cell)
    requires UpdateAll(x, now, st, us).Ok? && u in us && Some(c) in RecordsOf(u)
    requires x.publisher(c) && |c.body| <= 65_536
    ensures c.seqNo <= DifficultySeq(UpdateAll(x, now, st, us).value.powDifficulty)
  {
    hide UpdateOne, RecordsOf;
    var front, last := us[..|us| - 1], us[|us| - 1];
    assert us == front + [last];
    OneLatches(x, now, UpdateAll(x, now, st, front).value, last, c);
    if u in front { RecordsTakeEffect(x, now, st, front, u, c); }
  }

  // Whatever else is in it, an update with a part of unknown kind is refused.
  lemma {:induction false} UnknownFails(x: Instance, now: u64, st: InboxState, us: seq<Update>)
    requires Unknown in us
    ensures UpdateAll(x, now, st, us).Err?
  {
    hide Merge, Apply;
    var front := us[..|us| - 1];
    assert us == front + [us[|us| - 1]];
    if Unknown in front { UnknownFails(x, now, st, front); }
  }

  // ---- the update loop itself ----

  lemma UpdateNext(x: Instance, now: u64, st: InboxState, us: seq<Update>, i: nat)
    requires i < |us|
    ensures UpdateAll(x, now, st, us[..i + 1]) ==
      match UpdateAll(x, now, st, us[..i]) case Ok(t) => UpdateOne(x, now, t, us[i]) case Err => Err
  {
    hide UpdateOne;
    assert us[..i + 1][..i] == us[..i];
  }

  lemma {:induction false} UpdateStuck(x: Instance, now: u64, st: InboxState, us: seq<Update>, i: nat)
    requires i <= |us| && UpdateAll(x, now, st, us[..i]).Err?
    ensures UpdateAll(x, now, st, us).Err?
    decreases |us| - i
  {
    if i == |us| {
      assert us[..i] == us;
    } else {
      UpdateNext(x, now, st, us, i);
      UpdateStuck(x, now, st, us, i + 1);
    }
  }

  method UpdateState(x: Instance, inbox: InboxV3, now: u64, us: seq<Update>) returns (ok: bool)
    modifies inbox
    ensures ok <==> UpdateAll(x, now, Scrubbed(old(inbox.Value()), now), us).Ok?
    ensures ok ==> inbox.Value() == UpdateAll(x, now, Scrubbed(old(inbox.Value()), now), us).value
  {
    hide Apply, Merge, Scrubbed;
    ghost var start := Scrubbed(inbox.Value(), now);
    inbox.ScrubFuture(now);
    var i := 0;
    while i < |us|
      invariant 0 <= i <= |us|
      invariant UpdateAll(x, now, start, us[..i]) == Ok(inbox.Value())
    {
      UpdateNext(x, now, start, us, i);
      match us[i] {
        case State(other) => ok := inbox.MergeState(x, Scrubbed(other, now));
        case Delta(d) =>
          ok := true;
          if d.Some? { ok := inbox.ApplyDelta(x, Some(ScrubbedDelta(d.value, now))); }
        case StateAndDelta(other, also) =>
          ok := inbox.MergeState(x, Scrubbed(other, now));
          if ok && also.Some? { ok := inbox.ApplyDelta(x, Some(ScrubbedDelta(also.value, now))); }
        case Unknown => ok := false;
      }
      if !ok { UpdateStuck(x, now, start, us, i + 1); return; }
      i := i + 1;
    }
    assert us[..|us|] == us;
    ok := true;
  }
}
