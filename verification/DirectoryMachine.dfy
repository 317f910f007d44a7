// The directory state as the contract holds it, updated in place, and the contract shell
// around it. Methods are proved against the value-level functions of Directory.
module DirectoryMachine {
  import opened Basics
  import opened Pow
  import opened ListingSet
  import opened Directory
  import opened DirectoryTheorems

  // ---- the contract shell's updates ----

  // An update without bytes where a delta is expected carries none.
  datatype Update =
    | State(st: DirState)
    | Delta(delta: Option<DirDelta>)
    | StateAndDelta(both: DirState, also: Option<DirDelta>)
    | Unknown

  function LatestAllowed(now: u64): u64 { SaturatingAdd(now, MAX_FUTURE_MS) }

  function NotFuture(t: Tier, now: u64): Tier { map k | k in t && t[k].lastActive <= LatestAllowed(now) :: t[k] }

  function Scrubbed(st: DirState, now: u64): DirState {
    st.(attested := NotFuture(st.attested, now), anon := NotFuture(st.anon, now))
  }

  function Timely(ls: seq<Listing>, now: u64): set<Listing> { set l | l in ls && l.lastActive <= LatestAllowed(now) }

  function ScrubbedDelta(d: DirDelta, now: u64): DirDelta {
    d.(listings := Restrict(d.listings, Timely(d.listings, now)))
  }

  function UpdateOne(x: Params, now: u64, st: DirState, u: Update): Result<DirState> {
    match u
    case State(other) => Merge(x, st, Scrubbed(other, now))
    case Delta(d) => if d.Some? then Apply(x, st, ScrubbedDelta(d.value, now)) else Ok(st)
    case StateAndDelta(other, d) =>
      (match Merge(x, st, Scrubbed(other, now))
       case Ok(t) => if d.Some? then Apply(x, t, ScrubbedDelta(d.value, now)) else Ok(t)
       case Err => Err)
    case Unknown => Err
  }

  function UpdateAll(x: Params, now: u64, st: DirState, us: seq<Update>): Result<DirState> {
    if us == [] then Ok(st)
    else match UpdateAll(x, now, st, us[..|us| - 1])
      case Ok(t) => UpdateOne(x, now, t, us[|us| - 1])
      case Err => Err
  }

  // validate_state: unchanged by the scrub, and verified.
  ghost predicate Validates(x: Params, now: u64, st: DirState) {
    Scrubbed(st, now) == st && Verified(x, st)
  }

  ghost predicate NoneFuture(st: DirState, now: u64) {
    && (forall k :: k in st.attested ==> st.attested[k].lastActive <= LatestAllowed(now))
    && (forall k :: k in st.anon ==> st.anon[k].lastActive <= LatestAllowed(now))
  }

  lemma ScrubVerified(x: Params, st: DirState, now: u64)
    requires Verified(x, st)
    ensures Verified(x, Scrubbed(st, now)) && NoneFuture(Scrubbed(st, now), now)
  {
    SubsetCard(NotFuture(st.attested, now).Keys, st.attested.Keys);
    SubsetCard(NotFuture(st.anon, now).Keys, st.anon.Keys);
  }

  lemma {:induction false} AbsorbTimely(x: Params, bits: nat, st: DirState, ls: seq<Listing>, now: u64)
    requires Absorb(x, bits, st, ls).Ok? && NoneFuture(st, now)
    requires forall l :: l in ls ==> l.lastActive <= LatestAllowed(now)
    ensures NoneFuture(Absorb(x, bits, st, ls).value, now)
  {
    if ls != [] {
      ToSetSnoc(ls);
      AbsorbTimely(x, bits, st, ls[..|ls| - 1], now);
      assert ls[|ls| - 1] in ls;
    }
  }

  lemma ApplyTimely(x: Params, st: DirState, d: DirDelta, now: u64)
    requires Apply(x, st, d).Ok? && NoneFuture(st, now)
    requires forall l :: l in d.listings ==> l.lastActive <= LatestAllowed(now)
    ensures NoneFuture(Apply(x, st, d).value, now)
  {
    hide Absorb;
    var latched := st.(powDifficulty := PowAfter(x, st, d.powDifficulty));
    AbsorbTimely(x, DifficultyBits(x.publisher, latched.powDifficulty), latched, d.listings, now);
  }

  lemma ScrubbedDeltaTimely(d: DirDelta, now: u64)
    ensures forall l :: l in ScrubbedDelta(d, now).listings ==> l.lastActive <= LatestAllowed(now)
  {
    var ls := ScrubbedDelta(d, now).listings;
    assert forall l :: l in ls ==> l in ToSet(ls);
  }

  lemma FullTimely(other: DirState, now: u64)
    ensures forall l :: l in FullDelta(Scrubbed(other, now)).listings ==> l.lastActive <= LatestAllowed(now)
  {
    hide Values;
    var full := FullDelta(Scrubbed(other, now));
    ToSetSplit(Values(NotFuture(other.attested, now)), Values(NotFuture(other.anon, now)));
    assert forall l :: l in full.listings ==> l in ToSet(full.listings);
  }

  lemma MergeTimely(x: Params, st: DirState, other: DirState, now: u64)
    requires Merge(x, st, Scrubbed(other, now)).Ok? && NoneFuture(st, now)
    ensures NoneFuture(Merge(x, st, Scrubbed(other, now)).value, now)
  {
    hide Apply, FullDelta, Scrubbed;
    FullTimely(other, now);
    ApplyTimely(x, st, FullDelta(Scrubbed(other, now)), now);
  }

  lemma UpdateOneValid(x: Params, now: u64, st: DirState, u: Update)
    requires Verified(x, st) && NoneFuture(st, now) && UpdateOne(x, now, st, u).Ok?
    ensures Verified(x, UpdateOne(x, now, st, u).value) && NoneFuture(UpdateOne(x, now, st, u).value, now)
  {
    hide Verified, NoneFuture, Apply;
    match u {
      case State(other) =>
        MergeTimely(x, st, other, now);
        ApplyKeepsVerified(x, st, FullDelta(Scrubbed(other, now)));
      case Delta(d) =>
        if d.Some? {
          ScrubbedDeltaTimely(d.value, now);
          ApplyTimely(x, st, ScrubbedDelta(d.value, now), now);
          ApplyKeepsVerified(x, st, ScrubbedDelta(d.value, now));
        }
      case StateAndDelta(other, d) =>
        MergeTimely(x, st, other, now);
        ApplyKeepsVerified(x, st, FullDelta(Scrubbed(other, now)));
        if d.Some? {
          var t := Merge(x, st, Scrubbed(other, now)).value;
          ScrubbedDeltaTimely(d.value, now);
          ApplyTimely(x, t, ScrubbedDelta(d.value, now), now);
          ApplyKeepsVerified(x, t, ScrubbedDelta(d.value, now));
        }
    }
  }

  lemma {:induction false} UpdateAllValid(x: Params, now: u64, st: DirState, us: seq<Update>)
    requires Verified(x, st) && NoneFuture(st, now) && UpdateAll(x, now, st, us).Ok?
    ensures Verified(x, UpdateAll(x, now, st, us).value) && NoneFuture(UpdateAll(x, now, st, us).value, now)
  {
    hide Verified, NoneFuture, UpdateOne;
    if us != [] {
      UpdateAllValid(x, now, st, us[..|us| - 1]);
      UpdateOneValid(x, now, UpdateAll(x, now, st, us[..|us| - 1]).value, us[|us| - 1]);
    }
  }

  // Shell soundness at one clock: whatever updates arrive, scrubbed or fabricated, a
  // successful update of a verified state yields a state validation accepts.
  lemma ShellSound(x: Params, now: u64, stored: DirState, us: seq<Update>)
    requires Verified(x, stored) && UpdateAll(x, now, Scrubbed(stored, now), us).Ok?
    ensures Validates(x, now, UpdateAll(x, now, Scrubbed(stored, now), us).value)
  {
    hide Verified, UpdateAll;
    ScrubVerified(x, stored, now);
    UpdateAllValid(x, now, Scrubbed(stored, now), us);
    var end := UpdateAll(x, now, Scrubbed(stored, now), us).value;
    assert NotFuture(end.attested, now) == end.attested && NotFuture(end.anon, now) == end.anon;
  }

  // ---- stepping through listings and updates ----

  lemma AbsorbNext(x: Params, bits: nat, st: DirState, ls: seq<Listing>, i: nat)
    requires i < |ls|
    ensures Absorb(x, bits, st, ls[..i + 1]) ==
      match Absorb(x, bits, st, ls[..i]) case Ok(t) => AbsorbOne(x, bits, t, ls[i]) case Err => Err
  {
    hide AbsorbOne;
    assert ls[..i + 1][..i] == ls[..i];
  }

  // A refused prefix refuses the whole.
  lemma {:induction false} AbsorbStuck(x: Params, bits: nat, st: DirState, ls: seq<Listing>, i: nat)
    requires i <= |ls| && Absorb(x, bits, st, ls[..i]).Err?
    ensures Absorb(x, bits, st, ls).Err?
    decreases |ls| - i
  {
    if i == |ls| {
      assert ls[..i] == ls;
    } else {
      AbsorbNext(x, bits, st, ls, i);
      AbsorbStuck(x, bits, st, ls, i + 1);
    }
  }

  lemma AbsorbOneKeyed(x: Params, bits: nat, st: DirState, l: Listing)
    requires WellKeyed(st)
    ensures AbsorbOne(x, bits, st, l).Ok? ==> WellKeyed(AbsorbOne(x, bits, st, l).value)
  {}

  lemma UpdateNext(x: Params, now: u64, st: DirState, us: seq<Update>, i: nat)
    requires i < |us|
    ensures UpdateAll(x, now, st, us[..i + 1]) ==
      match UpdateAll(x, now, st, us[..i]) case Ok(t) => UpdateOne(x, now, t, us[i]) case Err => Err
  {
    hide UpdateOne;
    assert us[..i + 1][..i] == us[..i];
  }

  lemma {:induction false} UpdateStuck(x: Params, now: u64, st: DirState, us: seq<Update>, i: nat)
    requires i <= |us| && UpdateAll(x, now, st, us[..i]).Err?
    ensures UpdateAll(x, now, st, us).Err?
    decreases |us| - i
  {
    if i == |us| {
      assert us[..i] == us;
    } else {
      UpdateNext(x, now, st, us, i);
      UpdateStuck(x, now, st, us, i + 1);
    }
  }

  // ---- when the shell's work ends ----

  // The evictions a delta leads to end.
  predicate ApplySettles(x: Params, st: DirState, d: DirDelta) {
    var latched := st.(powDifficulty := PowAfter(x, st, d.powDifficulty));
    |d.listings| <= MAX_LISTINGS + ANON_LISTINGS ==>
      match Absorb(x, DifficultyBits(x.publisher, latched.powDifficulty), latched, d.listings)
      case Ok(t) => Settles(t)
      case Err => true
  }

  predicate OneSettles(x: Params, now: u64, st: DirState, u: Update) {
    match u
    case State(other) => ApplySettles(x, st, FullDelta(Scrubbed(other, now)))
    case Delta(d) => d.Some? ==> ApplySettles(x, st, ScrubbedDelta(d.value, now))
    case StateAndDelta(other, d) =>
      && ApplySettles(x, st, FullDelta(Scrubbed(other, now)))
      && (match Merge(x, st, Scrubbed(other, now))
          case Ok(t) => d.Some? ==> ApplySettles(x, t, ScrubbedDelta(d.value, now))
          case Err => true)
    case Unknown => true
  }

  predicate UpdateSettles(x: Params, now: u64, st: DirState, us: seq<Update>) {
    us == [] || (UpdateSettles(x, now, st, us[..|us| - 1]) &&
      match UpdateAll(x, now, st, us[..|us| - 1])
      case Ok(t) => OneSettles(x, now, t, us[|us| - 1])
      case Err => true)
  }

  lemma {:induction false} SettlesAt(x: Params, now: u64, st: DirState, us: seq<Update>, i: nat)
    requires UpdateSettles(x, now, st, us) && i < |us| && UpdateAll(x, now, st, us[..i]).Ok?
    ensures OneSettles(x, now, UpdateAll(x, now, st, us[..i]).value, us[i])
  {
    hide OneSettles, UpdateOne;
    var n := |us| - 1;
    if i < n {
      assert us[..n][..i] == us[..i];
      SettlesAt(x, now, st, us[..n], i);
    }
  }

  lemma {:induction false} AbsorbKeyed(x: Params, bits: nat, st: DirState, ls: seq<Listing>)
    requires WellKeyed(st) && Absorb(x, bits, st, ls).Ok?
    ensures WellKeyed(Absorb(x, bits, st, ls).value)
  {
    hide WellKeyed, AbsorbOne;
    if ls != [] {
      AbsorbKeyed(x, bits, st, ls[..|ls| - 1]);
      AbsorbOneKeyed(x, bits, Absorb(x, bits, st, ls[..|ls| - 1]).value, ls[|ls| - 1]);
    }
  }

  lemma KeyedApplySettles(x: Params, st: DirState, d: DirDelta)
    requires WellKeyed(st)
    ensures ApplySettles(x, st, d)
    ensures Apply(x, st, d).Ok? ==> WellKeyed(Apply(x, st, d).value)
  {
    hide WellKeyed, Absorb, Canonicalized, Settles;
    var latched := st.(powDifficulty := PowAfter(x, st, d.powDifficulty));
    var bits := DifficultyBits(x.publisher, latched.powDifficulty);
    RecordIrrelevant(st, latched);
    if Absorb(x, bits, latched, d.listings).Ok? {
      AbsorbKeyed(x, bits, latched, d.listings);
      var t := Absorb(x, bits, latched, d.listings).value;
      CanonicalizedNewest(t);
      CanonicalizedKeyed(t);
    }
  }

  lemma KeyedOneSettles(x: Params, now: u64, st: DirState, u: Update)
    requires WellKeyed(st)
    ensures OneSettles(x, now, st, u)
    ensures UpdateOne(x, now, st, u).Ok? ==> WellKeyed(UpdateOne(x, now, st, u).value)
  {
    hide WellKeyed, Apply, ApplySettles;
    match u {
      case State(other) => KeyedApplySettles(x, st, FullDelta(Scrubbed(other, now)));
      case Delta(d) => if d.Some? { KeyedApplySettles(x, st, ScrubbedDelta(d.value, now)); }
      case StateAndDelta(other, d) =>
        KeyedApplySettles(x, st, FullDelta(Scrubbed(other, now)));
        var merged := Merge(x, st, Scrubbed(other, now));
        if merged.Ok? && d.Some? { KeyedApplySettles(x, merged.value, ScrubbedDelta(d.value, now)); }
      case Unknown =>
    }
  }

  lemma {:induction false} KeyedRun(x: Params, now: u64, st: DirState, us: seq<Update>)
    requires WellKeyed(st)
    ensures UpdateSettles(x, now, st, us)
    ensures UpdateAll(x, now, st, us).Ok? ==> WellKeyed(UpdateAll(x, now, st, us).value)
  {
    hide WellKeyed, OneSettles, UpdateOne;
    if us != [] {
      var n := |us| - 1;
      KeyedRun(x, now, st, us[..n]);
      if UpdateAll(x, now, st, us[..n]).Ok? {
        KeyedOneSettles(x, now, UpdateAll(x, now, st, us[..n]).value, us[n]);
      }
    }
  }

  // On a well-keyed stored state, so on every validated one, the update loop always ends and
  // leaves the state well keyed, whatever arrives.
  lemma KeyedUpdateSettles(x: Params, now: u64, stored: DirState, us: seq<Update>)
    requires WellKeyed(stored)
    ensures UpdateSettles(x, now, Scrubbed(stored, now), us)
    ensures var end := UpdateAll(x, now, Scrubbed(stored, now), us); end.Ok? ==> WellKeyed(end.value)
  {
    hide WellKeyed, UpdateSettles, UpdateAll;
    ScrubKeyed(stored, now);
    KeyedRun(x, now, Scrubbed(stored, now), us);
  }

  lemma ScrubKeyed(st: DirState, now: u64)
    requires WellKeyed(st)
    ensures WellKeyed(Scrubbed(st, now))
  {}

  // The table shows something at least as new for l's author.
  predicate Covers(x: Params, out: Tier, l: Listing) {
    l.author in out && x.Lww(l).Le(x.Lww(out[l.author]))
  }

  lemma CoverStep(x: Params, out: Tier, l: Listing, q: Listing)
    requires !Covers(x, out, l) && (q == l || Covers(x, out, q))
    ensures Covers(x, out[l.author := l], q)
  {}

  lemma AllCovered(x: Params, out: Tier, ls: seq<Listing>)
    requires forall j :: 0 <= j < |ls| ==> Covers(x, out, ls[j])
    ensures forall l :: l in ls ==> Covers(x, out, l)
  {
    hide Covers;
  }

  lemma MembersOf(ls: seq<Listing>)
    ensures forall l :: l in ls <==> l in ToSet(ls)
  {}

  lemma CoveringListingWins(x: Params, st: DirState, out: Tier, k: Key)
    requires WellKeyed(st) && k in out && out[k].author == k && out[k] in st.Listings()
    requires forall l :: l in st.Listings() ==> Covers(x, out, l)
    ensures (k in st.attested || k in st.anon) && Winner(x, st, k) == Some(out[k])
  {
    InListings(st, out[k]);
    if k in st.attested { InListings(st, st.attested[k]); }
    if k in st.anon { InListings(st, st.anon[k]); }
  }

  lemma BestAreWinners(x: Params, st: DirState, out: Tier)
    requires WellKeyed(st)
    requires forall k :: k in out ==> out[k] in st.Listings() && out[k].author == k
    requires forall l :: l in st.Listings() ==> Covers(x, out, l)
    ensures out.Keys == st.attested.Keys + st.anon.Keys
    ensures forall k :: k in out ==> Winner(x, st, k) == Some(out[k])
  {
    hide Winner, DirState.Listings;
    forall k | k in out ensures (k in st.attested || k in st.anon) && Winner(x, st, k) == Some(out[k]) {
      CoveringListingWins(x, st, out, k);
    }
    forall k | k in st.attested || k in st.anon ensures k in out {
      if k in st.attested { InListings(st, st.attested[k]); } else { InListings(st, st.anon[k]); }
    }
  }

  class DirectoryV4 {
    var attested: Tier
    var anon: Tier
    var powDifficulty: Option<Cell>

    ghost function Value(): DirState
      reads this
    {
      DirState(attested, anon, powDifficulty)
    }

    constructor (st: DirState)
      ensures Value() == st
    {
      attested, anon, powDifficulty := st.attested, st.anon, st.powDifficulty;
    }

    method TrimAttested()
      requires Ends(attested, MAX_LISTINGS)
      modifies this`attested
      ensures attested == TrimTo(old(attested), MAX_LISTINGS)
      ensures Keyed(old(attested)) ==> attested == Newest(old(attested), MAX_LISTINGS)
    {
      hide Newest, Oldest, Values;
      ghost var t := attested;
      if Keyed(t) { KeyedTrim(t, MAX_LISTINGS); }
      while |attested| > MAX_LISTINGS
        invariant TrimTo(attested, MAX_LISTINGS) == TrimTo(t, MAX_LISTINGS)
        decreases |attested|
      {
        var oldest := Oldest(Values(attested));
        ValuesWithout(attested, oldest.tie);
        attested := attested - {oldest.tie};
      }
    }

    method TrimAnon()
      requires Ends(anon, ShareBeside(|attested|))
      modifies this`anon
      ensures anon == TrimTo(old(anon), ShareBeside(|attested|))
      ensures Keyed(old(anon)) ==> anon == Newest(old(anon), ShareBeside(|attested|))
    {
      hide Newest, Oldest, Values;
      ghost var t := anon;
      var share := ShareBeside(|attested|);
      if Keyed(t) { KeyedTrim(t, share); }
      while |anon| > share
        invariant TrimTo(anon, share) == TrimTo(t, share)
        decreases |anon|
      {
        var oldest := Oldest(Values(anon));
        ValuesWithout(anon, oldest.tie);
        anon := anon - {oldest.tie};
      }
    }

    // Evict the oldest of each tier down to its share, the attested tier first.
    method Canonicalize()
      requires Settles(Value())
      modifies this`attested, this`anon
      ensures Value() == Canonicalized(old(Value()))
      ensures WellKeyed(old(Value())) ==> WellKeyed(Value())
    {
      hide TrimTo;
      ghost var st := Value();
      if WellKeyed(st) { CanonicalizedKeyed(st); }
      TrimAttested();
      TrimAnon();
    }

    // The newer of the listing and its slot's holder ends up in the slot.
    method AdmitListing(x: Params, l: Listing)
      modifies this`attested, this`anon
      ensures Value() == Admit(x, old(Value()), l)
    {
      var tier := if l.IsAnon() then anon else attested;
      if l.author in tier && x.Lww(l).Le(x.Lww(tier[l.author])) {
      } else if l.IsAnon() {
        anon := anon[l.author := l];
      } else {
        attested := attested[l.author := l];
      }
    }

    // One delta. On failure the object may be half updated; the caller discards it.
    method ApplyDelta(x: Params, d: DirDelta) returns (ok: bool)
      requires ApplySettles(x, Value(), d)
      modifies this
      ensures ok <==> Apply(x, old(Value()), d).Ok?
      ensures ok ==> Value() == Apply(x, old(Value()), d).value
    {
      hide Canonicalized, Settles, AbsorbOne;
      if |d.listings| > MAX_LISTINGS + ANON_LISTINGS { return false; }
      ghost var st := Value();
      var changed;
      changed, powDifficulty := AdoptDifficulty(x.publisher, powDifficulty, d.powDifficulty);
      var bits := DifficultyBits(x.publisher, powDifficulty);
      ghost var latched := Value();
      var ls := d.listings;
      var i := 0;
      while i < |ls|
        invariant 0 <= i <= |ls|
        invariant Absorb(x, bits, latched, ls[..i]) == Ok(Value())
      {
        var l := ls[i];
        AbsorbNext(x, bits, latched, ls, i);
        var sound := AbsorbListing(x, bits, l);
        if !sound { AbsorbStuck(x, bits, latched, ls, i + 1); return false; }
        i := i + 1;
      }
      assert ls[..|ls|] == ls;
      Canonicalize();
      ok := true;
    }

    // A losing listing is skipped unverified; an under-bar anonymous one is dropped.
    method AbsorbListing(x: Params, bits: nat, l: Listing) returns (ok: bool)
      modifies this`attested, this`anon
      ensures ok <==> AbsorbOne(x, bits, old(Value()), l).Ok?
      ensures ok ==> Value() == AbsorbOne(x, bits, old(Value()), l).value
    {
      var tier := if l.IsAnon() then anon else attested;
      if l.author in tier && x.Lww(l).Le(x.Lww(tier[l.author])) { return true; }
      var known := if l.author in tier then tier[l.author].attestation else None;
      if !x.CheckSkipping(l, known) { return false; }
      if l.IsAnon() && !x.Stamped(l, bits) { return true; }
      AdmitListing(x, l);
      ok := true;
    }

    // A full state is merged as one big delta.
    method MergeState(x: Params, other: DirState) returns (ok: bool)
      requires ApplySettles(x, Value(), FullDelta(other))
      modifies this
      ensures ok <==> Merge(x, old(Value()), other).Ok?
      ensures ok ==> Value() == Merge(x, old(Value()), other).value
    {
      ok := ApplyDelta(x, FullDelta(other));
    }

    method ScrubFuture(now: u64)
      modifies this`attested, this`anon
      ensures NoneFuture(Value(), now)
      ensures forall k :: k in attested <==> k in old(attested) && old(attested)[k].lastActive <= LatestAllowed(now)
      ensures forall k :: k in anon <==> k in old(anon) && old(anon)[k].lastActive <= LatestAllowed(now)
      ensures forall k :: k in attested ==> attested[k] == old(attested)[k]
      ensures forall k :: k in anon ==> anon[k] == old(anon)[k]
    {
      attested := NotFuture(attested, now);
      anon := NotFuture(anon, now);
    }

    // The shell's update loop, after the scrub of the stored state.
    method UpdateState(x: Params, now: u64, us: seq<Update>) returns (ok: bool)
      requires UpdateSettles(x, now, Scrubbed(Value(), now), us)
      modifies this
      ensures ok <==> UpdateAll(x, now, Scrubbed(old(Value()), now), us).Ok?
      ensures ok ==> Value() == UpdateAll(x, now, Scrubbed(old(Value()), now), us).value
    {
      hide Apply, Merge, ApplySettles;
      ghost var start := Scrubbed(Value(), now);
      ScrubFuture(now);
      assert attested == start.attested && anon == start.anon;
      var i := 0;
      while i < |us|
        invariant 0 <= i <= |us|
        invariant UpdateAll(x, now, start, us[..i]) == Ok(Value())
      {
        UpdateNext(x, now, start, us, i);
        SettlesAt(x, now, start, us, i);
        match us[i] {
          case State(other) => ok := MergeState(x, Scrubbed(other, now));
          case Delta(d) =>
            ok := true;
            if d.Some? { ok := ApplyDelta(x, ScrubbedDelta(d.value, now)); }
          case StateAndDelta(other, also) =>
            ok := MergeState(x, Scrubbed(other, now));
            if ok && also.Some? { ok := ApplyDelta(x, ScrubbedDelta(also.value, now)); }
          case Unknown => ok := false;
        }
        if !ok { UpdateStuck(x, now, start, us, i + 1); return; }
        i := i + 1;
      }
      assert us[..|us|] == us;
      ok := true;
    }

    method CheckAttested(x: Params) returns (ok: bool)
      ensures ok <==> forall k :: k in attested ==>
        attested[k].author == k && !attested[k].IsAnon() && x.Check(attested[k])
    {
      var todo := attested.Keys;
      while todo != {}
        invariant todo <= attested.Keys
        invariant forall k :: k in attested && k !in todo ==>
          attested[k].author == k && !attested[k].IsAnon() && x.Check(attested[k])
        decreases todo
      {
        var k :| k in todo;
        var l := attested[k];
        if k != l.author || l.IsAnon() || !x.Check(l) { return false; }
        todo := todo - {k};
      }
      ok := true;
    }

    method CheckAnon(x: Params) returns (ok: bool)
      ensures ok <==> forall k :: k in anon ==>
        anon[k].author == k && anon[k].IsAnon() && x.Check(anon[k]) && x.Stamped(anon[k], POW_FLOOR_BITS)
    {
      var todo := anon.Keys;
      while todo != {}
        invariant todo <= anon.Keys
        invariant forall k :: k in anon && k !in todo ==>
          anon[k].author == k && anon[k].IsAnon() && x.Check(anon[k]) && x.Stamped(anon[k], POW_FLOOR_BITS)
        decreases todo
      {
        var k :| k in todo;
        var l := anon[k];
        if k != l.author || !l.IsAnon() || !x.Check(l) || !x.Stamped(l, POW_FLOOR_BITS) { return false; }
        todo := todo - {k};
      }
      ok := true;
    }

    method Verify(x: Params) returns (ok: bool)
      ensures ok <==> Verified(x, Value())
    {
      if powDifficulty.Some? && !Genuine(x.publisher, powDifficulty.value) { return false; }
      if |attested| > MAX_LISTINGS || |anon| > ShareBeside(|attested|) { return false; }
      ok := CheckAttested(x);
      if !ok { return; }
      ok := CheckAnon(x);
    }

    // The listing shown for every author: the LWW winner among everything seated.
    method Winners(x: Params) returns (out: Tier)
      ensures forall k :: k in out ==> out[k] in Value().Listings() && out[k].author == k
      ensures forall l :: l in Value().Listings() ==> Covers(x, out, l)
      ensures WellKeyed(Value()) ==> out.Keys == attested.Keys + anon.Keys
      ensures WellKeyed(Value()) ==> forall k :: k in out ==> Winner(x, Value(), k) == Some(out[k])
    {
      hide Values, Winner, Covers, WellKeyed;
      var ls := Values(attested) + Values(anon);
      ToSetSplit(Values(attested), Values(anon));
      out := BestPerAuthor(x, ls);
      AllCovered(x, out, ls);
      assert forall l :: l in ls <==> l in Value().Listings() by { MembersOf(ls); }
      if WellKeyed(Value()) { BestAreWinners(x, Value(), out); }
    }
  }

  method BestPerAuthor(x: Params, ls: seq<Listing>) returns (out: Tier)
    ensures forall k :: k in out ==> out[k] in ls && out[k].author == k
    ensures forall j :: 0 <= j < |ls| ==> Covers(x, out, ls[j])
  {
    hide Covers;
    out := map[];
    var i := 0;
    while i < |ls|
      invariant 0 <= i <= |ls|
      invariant forall k :: k in out ==> out[k] in ls && out[k].author == k
      invariant forall j :: 0 <= j < i ==> Covers(x, out, ls[j])
    {
      var l := ls[i];
      if !Covers(x, out, l) {
        forall j | 0 <= j <= i ensures Covers(x, out[l.author := l], ls[j]) { CoverStep(x, out, l, ls[j]); }
        out := out[l.author := l];
      }
      i := i + 1;
    }
  }
}
