// Proof-of-work for anonymous writes: the leading-zero test on a 32-byte hash, and the
// publisher-signed difficulty record that contracts latch into their state.
module Pow {
  import opened Basics

  const POW_FLOOR_BITS: nat := 20
  const POW_CEILING_BITS: nat := 26
  const MAX_BODY_BYTES: nat := 64 * 1024

  // ---- the leading-zero test ----

  function ByteLeadingZeros(b: u8): nat {
    if b >= 128 then 0 else if b >= 64 then 1 else if b >= 32 then 2 else if b >= 16 then 3
    else if b >= 8 then 4 else if b >= 4 then 5 else if b >= 2 then 6 else if b >= 1 then 7 else 8
  }

  function LeadingZeroBits(hash: seq<u8>): nat {
    if hash == [] then 0
    else if hash[0] == 0 then 8 + LeadingZeroBits(hash[1..])
    else ByteLeadingZeros(hash[0])
  }

  method CountLeadingZeroBits(hash: seq<u8>) returns (bits: nat)
    ensures bits == LeadingZeroBits(hash)
  {
    bits := 0;
    var i := 0;
    while i < |hash|
      invariant 0 <= i <= |hash|
      invariant LeadingZeroBits(hash) == bits + LeadingZeroBits(hash[i..])
    {
      var byte := hash[i];
      assert hash[i..][1..] == hash[i + 1..];
      if byte == 0 {
        bits := bits + 8;
      } else {
        bits := bits + ByteLeadingZeros(byte);
        return;
      }
      i := i + 1;
    }
  }

  function Pow2(k: nat): (r: nat)
    ensures r > 0
  {
    if k == 0 then 1 else 2 * Pow2(k - 1)
  }

  // The hash read as a big-endian number.
  function Value(hash: seq<u8>): nat {
    if hash == [] then 0 else hash[0] * Pow2(8 * (|hash| - 1)) + Value(hash[1..])
  }

  lemma {:induction false} Pow2Add(a: nat, b: nat)
    ensures Pow2(a + b) == Pow2(a) * Pow2(b)
  {
    if a > 0 { Pow2Add(a - 1, b); }
  }

  lemma {:induction false} Pow2Monotone(a: nat, b: nat)
    requires a <= b
    ensures Pow2(a) <= Pow2(b)
  {
    if a < b { Pow2Monotone(a, b - 1); }
  }

  // A first byte below `scale` is the same as a number below scale * low.
  lemma LeadingDigit(b: nat, low: nat, rest: nat, scale: nat)
    requires rest < low
    ensures b < scale <==> b * low + rest < scale * low
  {
    if b < scale {
      assert (b + 1) * low <= scale * low;
    } else {
      assert b * low >= scale * low;
    }
  }

  lemma {:induction false} ValueBound(hash: seq<u8>)
    ensures Value(hash) < Pow2(8 * |hash|)
  {
    if hash != [] {
      ValueBound(hash[1..]);
      Pow2Add(8, 8 * (|hash| - 1));
      assert Pow2(8) == 256;
      LeadingDigit(hash[0], Pow2(8 * (|hash| - 1)), Value(hash[1..]), 256);
    }
  }

  lemma ByteThreshold(b: u8, k: nat)
    requires k <= 8
    ensures ByteLeadingZeros(b) >= k <==> b < Pow2(8 - k)
  {
    assert Pow2(1) == 2 && Pow2(2) == 4 && Pow2(3) == 8 && Pow2(4) == 16;
    assert Pow2(5) == 32 && Pow2(6) == 64 && Pow2(7) == 128 && Pow2(8) == 256;
  }

  // The number is below 2^e * low exactly when the first byte is below 2^e.
  lemma FirstByteDecides(hash: seq<u8>, e: nat)
    requires hash != []
    ensures hash[0] < Pow2(e) <==> Value(hash) < Pow2(e + 8 * (|hash| - 1))
  {
    var rest := hash[1..];
    ValueBound(rest);
    Pow2Add(e, 8 * |rest|);
    LeadingDigit(hash[0], Pow2(8 * |rest|), Value(rest), Pow2(e));
  }

  // Clearing k bits is a numeric threshold on the hash.
  lemma {:induction false} ThresholdTest(hash: seq<u8>, k: nat)
    requires k <= 8 * |hash|
    ensures LeadingZeroBits(hash) >= k <==> Value(hash) < Pow2(8 * |hash| - k)
    ensures Clears(hash, k) <==> Value(hash) < Pow2(8 * |hash| - k)
  {
    if hash != [] {
      if k <= 8 {
        ByteThreshold(hash[0], k);
        FirstByteDecides(hash, 8 - k);
      } else if hash[0] == 0 {
        ThresholdTest(hash[1..], k - 8);
      } else {
        FirstByteDecides(hash, 0);
        Pow2Monotone(8 * |hash| - k, 8 * (|hash| - 1));
      }
    }
  }

  predicate Clears(hash: seq<u8>, bits: nat) {
    LeadingZeroBits(hash) >= bits
  }

  // The least passing nonce. Some nonce must pass: the source panics on an exhausted space.
  method Solve(hashes: u64 -> seq<u8>, bits: nat, ghost known: u64) returns (nonce: u64)
    requires Clears(hashes(known), bits)
    ensures Clears(hashes(nonce), bits)
    ensures forall n: u64 :: n < nonce ==> !Clears(hashes(n), bits)
  {
    nonce := 0;
    while !Clears(hashes(nonce), bits)
      invariant nonce <= known
      invariant forall n: u64 :: n < nonce ==> !Clears(hashes(n), bits)
      decreases known - nonce
    {
      nonce := nonce + 1;
    }
  }

  // ---- the difficulty record ----

  // A cell record of purpose "pow"; its signature check against the publisher's key is
  // library code and enters as a predicate.
  datatype Cell = Cell(seqNo: u64, body: seq<u8>, signature: Signature)

  type Publisher = Cell -> bool

  predicate Genuine(signed: Publisher, cell: Cell) {
    |cell.body| <= MAX_BODY_BYTES && signed(cell)
  }

  function Clamp(bits: nat): nat {
    if bits < POW_FLOOR_BITS then POW_FLOOR_BITS
    else if bits > POW_CEILING_BITS then POW_CEILING_BITS
    else bits
  }

  function DifficultyBody(bits: u8): seq<u8> { [Clamp(bits)] }

  // The first byte of a genuine record, held between 20 and 26; 20 for any other.
  function DifficultyBits(signed: Publisher, record: Option<Cell>): (bits: nat)
    ensures 20 <= bits <= 26
    ensures record.Some? && signed(record.value) && 0 < |record.value.body| <= 65_536 ==>
      var b := record.value.body[0];
      (20 <= b <= 26 ==> bits == b) && (b < 20 ==> bits == 20) && (b > 26 ==> bits == 26)
    ensures record.None? || !signed(record.value) || record.value.body == [] || |record.value.body| > 65_536 ==>
      bits == 20
  {
    match record
    case Some(cell) =>
      if Genuine(signed, cell) && cell.body != [] then Clamp(cell.body[0]) else POW_FLOOR_BITS
    case None => POW_FLOOR_BITS
  }

  function DifficultySeq(record: Option<Cell>): u64 {
    if record.Some? then record.value.seqNo else 0
  }

  predicate Supersedes(signed: Publisher, held: Option<Cell>, cell: Cell) {
    cell.seqNo > DifficultySeq(held) && Genuine(signed, cell)
  }

  function Adopt(signed: Publisher, held: Option<Cell>, incoming: Option<Cell>): Option<Cell> {
    if incoming.Some? && Supersedes(signed, held, incoming.value) then incoming else held
  }

  // The record held in a contract's state, updated in place by the caller.
  method AdoptDifficulty(signed: Publisher, held: Option<Cell>, incoming: Option<Cell>)
    returns (changed: bool, now: Option<Cell>)
    ensures now == Adopt(signed, held, incoming)
    ensures now == if changed then incoming else held
    ensures changed <==> (incoming.Some? && signed(incoming.value) && |incoming.value.body| <= 65_536
      && incoming.value.seqNo > if held.Some? then held.value.seqNo else 0)
  {
    changed, now := false, held;
    if incoming.None? { return; }
    if incoming.value.seqNo <= DifficultySeq(held) || !Genuine(signed, incoming.value) { return; }
    changed, now := true, incoming;
  }

  // The record held after a run of deltas, each of which may carry one.
  function Latch(signed: Publisher, held: Option<Cell>, incoming: seq<Option<Cell>>): Option<Cell> {
    if incoming == [] then held
    else Adopt(signed, Latch(signed, held, incoming[..|incoming| - 1]), incoming[|incoming| - 1])
  }

  // The publisher never signs two records under one seq.
  ghost predicate SeqDeterminesRecord(signed: Publisher, cells: set<Cell>) {
    forall a, b :: a in cells && b in cells && Genuine(signed, a) && Genuine(signed, b) && a.seqNo == b.seqNo
      ==> a == b
  }

  ghost function GenuineOf(signed: Publisher, incoming: seq<Option<Cell>>): set<Cell> {
    set o | o in incoming && o.Some? && Genuine(signed, o.value) :: o.value
  }

  // Whatever is sent, in whatever order: the latch moves only to a genuine record that was
  // sent, never backwards, and ends at the greatest seq among them.
  lemma {:induction false} LatchIsGreatest(signed: Publisher, held: Option<Cell>, incoming: seq<Option<Cell>>)
    ensures var end := Latch(signed, held, incoming);
      && (end == held || (end.Some? && end.value in GenuineOf(signed, incoming)))
      && (end != held ==> DifficultySeq(end) > DifficultySeq(held))
      && forall c :: c in GenuineOf(signed, incoming) ==> c.seqNo <= DifficultySeq(end)
  {
    if incoming != [] {
      var n := |incoming| - 1;
      ToSetSnoc(incoming);
      LatchIsGreatest(signed, held, incoming[..n]);
      forall c ensures c in GenuineOf(signed, incoming) <==>
        c in GenuineOf(signed, incoming[..n]) || (incoming[n] == Some(c) && Genuine(signed, c)) {}
    }
  }

  // Forged, stale, repeated or omitted records leave no trace.
  lemma LatchIgnoresOrder(signed: Publisher, held: Option<Cell>, one: seq<Option<Cell>>, other: seq<Option<Cell>>)
    requires GenuineOf(signed, one) == GenuineOf(signed, other)
    requires SeqDeterminesRecord(signed, GenuineOf(signed, one))
    ensures Latch(signed, held, one) == Latch(signed, held, other)
  {
    LatchIsGreatest(signed, held, one);
    LatchIsGreatest(signed, held, other);
  }

  // A record numbered 0 is never adopted: whoever holds one keeps it against every other.
  lemma {:induction false} ZeroNeverAdopted(signed: Publisher, held: Option<Cell>, incoming: seq<Option<Cell>>)
    requires forall o :: o in incoming && o.Some? ==> o.value.seqNo == 0
    ensures Latch(signed, held, incoming) == held
  {
    if incoming != [] {
      ToSetSnoc(incoming);
      ZeroNeverAdopted(signed, held, incoming[..|incoming| - 1]);
      assert incoming[|incoming| - 1] in incoming;
    }
  }

  // What a network has heard of, and the record latched for it: none, or the greatest.
  ghost predicate RecordsReflected(records: set<Cell>, latched: Option<Cell>) {
    && (latched.Some? ==> latched.value in records && latched.value.seqNo > 0)
    && (forall c :: c in records ==> c.seqNo <= DifficultySeq(latched))
  }

  ghost function GenuineIn(signed: Publisher, record: Option<Cell>): set<Cell> {
    if record.Some? && Genuine(signed, record.value) then {record.value} else {}
  }

  lemma LatchReflects(signed: Publisher, records: set<Cell>, held: Option<Cell>, incoming: Option<Cell>)
    requires RecordsReflected(records, held)
    ensures RecordsReflected(records + GenuineIn(signed, incoming), Adopt(signed, held, incoming))
    ensures DifficultySeq(held) <= DifficultySeq(Adopt(signed, held, incoming))
  {}

  ghost predicate ConsistentRecords(a: Option<Cell>, b: Option<Cell>) {
    DifficultySeq(a) == DifficultySeq(b) ==> a == b
  }

  // Wherever it comes in a run, a genuine record newer than all the others sets the bar, at
  // the number of bits the publisher chose, whatever the bar was before.
  lemma RaiseTakesHold(signed: Publisher, held: Option<Cell>, incoming: seq<Option<Cell>>, cell: Cell, bits: u8)
    requires Some(cell) in incoming && signed(cell) && cell.seqNo > 0
    requires cell.body == [bits] || cell.body == DifficultyBody(bits)
    requires held.Some? ==> held.value.seqNo < cell.seqNo
    requires forall c :: Some(c) in incoming && c != cell && signed(c) && |c.body| <= 65_536 ==> c.seqNo < cell.seqNo
    ensures var end := Latch(signed, held, incoming);
      && end == Some(cell)
      && (20 <= bits <= 26 ==> DifficultyBits(signed, end) == bits)
      && (bits < 20 ==> DifficultyBits(signed, end) == 20)
      && (bits > 26 ==> DifficultyBits(signed, end) == 26)
  {
    LatchIsGreatest(signed, held, incoming);
    assert cell in GenuineOf(signed, incoming);
  }

  // Grouping does not matter once the middle record is genuine, equal seqs included.
  lemma AdoptAssociates(signed: Publisher, a: Option<Cell>, b: Option<Cell>, c: Option<Cell>)
    requires b.Some? ==> Genuine(signed, b.value)
    ensures Adopt(signed, Adopt(signed, a, b), c) == Adopt(signed, a, Adopt(signed, b, c))
  {}

  // Two genuine latches settle on one record exactly when equal seqs mean equal records.
  lemma AdoptCommutes(signed: Publisher, a: Option<Cell>, b: Option<Cell>)
    requires (a.Some? ==> Genuine(signed, a.value)) && (b.Some? ==> Genuine(signed, b.value))
    ensures Adopt(signed, a, b) == Adopt(signed, b, a) <==> ConsistentRecords(a, b)
  {}
}
