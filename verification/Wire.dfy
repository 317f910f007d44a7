// The exact bytes that get signed: six record layouts, each a domain tag followed by
// fixed-width and length-prefixed fields. One decoder inverts them all, so no signature
// over one record can be read as a signature over any other.
module Wire {
  import opened Basics

  type Bytes = seq<u8>

  const LENGTHS: nat := 0x1_0000_0000  // lengths and counts are written as u32

  function Ascii(s: string): Bytes
    requires forall i :: 0 <= i < |s| ==> s[i] as int < 0x80
  {
    seq(|s|, i requires 0 <= i < |s| => s[i] as int)
  }

  datatype Kind = PostKind | ProfileKind | FollowsKind | CellKind | ListingKind | PointerKind

  function TagName(k: Kind): string {
    match k
    case PostKind => "freebird-post-v1"
    case ProfileKind => "freebird-profile-v1"
    case FollowsKind => "freebird-follows-v1"
    case CellKind => "freebird-cell-v1"
    case ListingKind => "freebird-listing-v3"
    case PointerKind => "freebird-inbox-ptr-v3"
  }

  function Tag(k: Kind): Bytes { Ascii(TagName(k)) }

  // A signed record. Keys and hashes are 32 bytes, post ids 16; cell bodies and listing
  // attestations enter by hash; follows are listed in the set's own (sorted) order.
  datatype Record =
    | Post(id: Bytes, time: nat, content: Bytes, inReplyTo: Option<(Bytes, Bytes)>)
    | Profile(version: nat, name: Bytes, bio: Bytes)
    | Follows(followVersion: nat, follows: seq<Bytes>)
    | Cell(purpose: Bytes, seqNo: nat, bodyHash: Bytes)
    | Listing(author: Bytes, lastActive: nat, attestationHash: Option<Bytes>)
    | Pointer(owner: Bytes, replier: Bytes, fingerprint: Bytes, targetPost: Bytes, replyPost: Bytes, sent: nat)
  {
    function Kind(): Kind {
      match this
      case Post(_, _, _, _) => PostKind
      case Profile(_, _, _) => ProfileKind
      case Follows(_, _) => FollowsKind
      case Cell(_, _, _) => CellKind
      case Listing(_, _, _) => ListingKind
      case Pointer(_, _, _, _, _, _) => PointerKind
    }

    // The field widths the types guarantee, and lengths that fit their u32 prefix.
    ghost predicate WellFormed() {
      match this
      case Post(id, time, content, reply) =>
        |id| == 16 && time < Pow256(8) && |content| < LENGTHS
        && (reply.Some? ==> |reply.value.0| == 32 && |reply.value.1| == 16)
      case Profile(version, name, bio) => version < Pow256(4) && |name| < LENGTHS && |bio| < LENGTHS
      case Follows(version, keys) =>
        version < Pow256(4) && |keys| < LENGTHS && forall k :: k in keys ==> |k| == 32
      case Cell(purpose, seqNo, hash) => |purpose| < LENGTHS && seqNo < Pow256(8) && |hash| == 32
      case Listing(author, lastActive, att) =>
        |author| == 32 && lastActive < Pow256(8) && (att.Some? ==> |att.value| == 32)
      case Pointer(owner, replier, fp, target, reply, time) =>
        |owner| == 32 && |replier| == 32 && |fp| < LENGTHS && |target| == 16 && |reply| == 16 && time < Pow256(8)
    }
  }

  // ---- writing ----

  function Pow256(w: nat): (r: nat)
    ensures r > 0
  {
    if w == 0 then 1 else 256 * Pow256(w - 1)
  }

  // The low w bytes of n, least significant first (to_le_bytes after an `as` cast).
  function Le(n: nat, w: nat): (r: Bytes)
    ensures |r| == w
  {
    if w == 0 then [] else [n % 256] + Le(n / 256, w - 1)
  }

  function Prefixed(b: Bytes): Bytes { Le(|b|, 4) + b }

  function Concat(keys: seq<Bytes>): Bytes {
    if keys == [] then [] else keys[0] + Concat(keys[1..])
  }

  function Body(m: Record): Bytes {
    match m
    case Post(id, time, content, reply) =>
      id + (Le(time, 8) + (Prefixed(content) + (if reply.None? then [0] else [1] + (reply.value.0 + reply.value.1))))
    case Profile(version, name, bio) => Le(version, 4) + (Prefixed(name) + Prefixed(bio))
    case Follows(version, keys) => Le(version, 4) + (Le(|keys|, 4) + Concat(keys))
    case Cell(purpose, seqNo, hash) => Prefixed(purpose) + (Le(seqNo, 8) + hash)
    case Listing(author, lastActive, att) =>
      author + (Le(lastActive, 8) + (if att.None? then [0] else [1] + att.value))
    case Pointer(owner, replier, fp, target, reply, time) =>
      owner + (replier + (Prefixed(fp) + (target + (reply + Le(time, 8)))))
  }

  function Payload(m: Record): Bytes { Tag(m.Kind()) + Body(m) }

  // ---- reading ----

  datatype Read<+T> = Got(value: T, rest: Bytes) | Short

  function FromLe(b: Bytes): nat {
    if b == [] then 0 else b[0] + 256 * FromLe(b[1..])
  }

  function ReadFixed(b: Bytes, n: nat): Read<Bytes> {
    if |b| < n then Short else Got(b[..n], b[n..])
  }

  function ReadLe(b: Bytes, w: nat): Read<nat> {
    if |b| < w then Short else Got(FromLe(b[..w]), b[w..])
  }

  function ReadPrefixed(b: Bytes): Read<Bytes> {
    match ReadLe(b, 4)
    case Got(n, rest) => ReadFixed(rest, n)
    case Short => Short
  }

  function ReadKeys(b: Bytes, n: nat): Read<seq<Bytes>> {
    if n == 0 then Got([], b)
    else match ReadFixed(b, 32)
      case Got(k, rest) =>
        (match ReadKeys(rest, n - 1)
         case Got(ks, rest') => Got([k] + ks, rest')
         case Short => Short)
      case Short => Short
  }

  // Two fixed-width fields in a row.
  function ReadPair(b: Bytes, n: nat, m: nat): Read<(Bytes, Bytes)> {
    match ReadFixed(b, n)
    case Got(x, rest) =>
      (match ReadFixed(rest, m) case Got(y, rest') => Got((x, y), rest') case Short => Short)
    case Short => Short
  }

  // A presence byte, then the field when it is 1.
  function ReadReply(b: Bytes): Read<Option<(Bytes, Bytes)>> {
    if b == [] || b[0] > 1 then Short
    else if b[0] == 0 then Got(None, b[1..])
    else match ReadPair(b[1..], 32, 16) case Got(v, rest) => Got(Some(v), rest) case Short => Short
  }

  function ReadMaybeHash(b: Bytes): Read<Option<Bytes>> {
    if b == [] || b[0] > 1 then Short
    else if b[0] == 0 then Got(None, b[1..])
    else match ReadFixed(b[1..], 32) case Got(v, rest) => Got(Some(v), rest) case Short => Short
  }

  function DecodeBody(k: Kind, b: Bytes): Read<Record> {
    match k
    case PostKind =>
      (match ReadFixed(b, 16) case Short => Short case Got(id, b1) =>
       match ReadLe(b1, 8) case Short => Short case Got(time, b2) =>
       match ReadPrefixed(b2) case Short => Short case Got(content, b3) =>
       match ReadReply(b3) case Short => Short case Got(reply, b4) =>
         Got(Post(id, time, content, reply), b4))
    case ProfileKind =>
      (match ReadLe(b, 4) case Short => Short case Got(version, b1) =>
       match ReadPrefixed(b1) case Short => Short case Got(name, b2) =>
       match ReadPrefixed(b2) case Short => Short case Got(bio, b3) =>
         Got(Profile(version, name, bio), b3))
    case FollowsKind =>
      (match ReadLe(b, 4) case Short => Short case Got(version, b1) =>
       match ReadLe(b1, 4) case Short => Short case Got(n, b2) =>
       match ReadKeys(b2, n) case Short => Short case Got(keys, b3) =>
         Got(Follows(version, keys), b3))
    case CellKind =>
      (match ReadPrefixed(b) case Short => Short case Got(purpose, b1) =>
       match ReadLe(b1, 8) case Short => Short case Got(seqNo, b2) =>
       match ReadFixed(b2, 32) case Short => Short case Got(hash, b3) =>
         Got(Cell(purpose, seqNo, hash), b3))
    case ListingKind =>
      (match ReadFixed(b, 32) case Short => Short case Got(author, b1) =>
       match ReadLe(b1, 8) case Short => Short case Got(lastActive, b2) =>
       match ReadMaybeHash(b2) case Short => Short case Got(att, b3) =>
         Got(Listing(author, lastActive, att), b3))
    case PointerKind =>
      (match ReadPair(b, 32, 32) case Short => Short case Got(keys, b1) =>
       match ReadPrefixed(b1) case Short => Short case Got(fp, b2) =>
       match ReadPair(b2, 16, 16) case Short => Short case Got(posts, b3) =>
       match ReadLe(b3, 8) case Short => Short case Got(time, b4) =>
         Got(Pointer(keys.0, keys.1, fp, posts.0, posts.1, time), b4))
  }

  function KindOf(b: Bytes): Option<Kind> {
    if Tag(PostKind) <= b then Some(PostKind)
    else if Tag(ProfileKind) <= b then Some(ProfileKind)
    else if Tag(FollowsKind) <= b then Some(FollowsKind)
    else if Tag(CellKind) <= b then Some(CellKind)
    else if Tag(ListingKind) <= b then Some(ListingKind)
    else if Tag(PointerKind) <= b then Some(PointerKind)
    else None
  }

  function Decode(b: Bytes): Option<Record> {
    match KindOf(b)
    case None => None
    case Some(k) =>
      var tag := Tag(k);
      if |tag| <= |b| then
        match DecodeBody(k, b[|tag|..])
        case Got(m, rest) => if rest == [] then Some(m) else None
        case Short => None
      else None
  }

  // ---- each reader inverts its writer ----

  lemma {:induction false} LeRoundTrip(n: nat, w: nat)
    requires n < Pow256(w)
    ensures FromLe(Le(n, w)) == n
  {
    if w > 0 {
      LeRoundTrip(n / 256, w - 1);
      assert Le(n, w)[1..] == Le(n / 256, w - 1);
    }
  }

  lemma FixedBack(x: Bytes, rest: Bytes)
    ensures ReadFixed(x + rest, |x|) == Got(x, rest)
  {
    assert (x + rest)[..|x|] == x && (x + rest)[|x|..] == rest;
  }

  lemma LeBack(n: nat, w: nat, rest: Bytes)
    requires n < Pow256(w)
    ensures ReadLe(Le(n, w) + rest, w) == Got(n, rest)
  {
    LeRoundTrip(n, w);
    var x := Le(n, w);
    assert (x + rest)[..w] == x && (x + rest)[w..] == rest;
  }

  lemma FourBytes()
    ensures Pow256(4) == LENGTHS
  {
    assert Pow256(1) == 256 && Pow256(2) == 0x1_0000 && Pow256(3) == 0x100_0000;
  }

  lemma PrefixedBack(x: Bytes, rest: Bytes)
    requires |x| < LENGTHS
    ensures ReadPrefixed(Prefixed(x) + rest) == Got(x, rest)
  {
    FourBytes();
    assert Prefixed(x) + rest == Le(|x|, 4) + (x + rest);
    LeBack(|x|, 4, x + rest);
    FixedBack(x, rest);
  }

  lemma {:induction false} KeysBack(keys: seq<Bytes>, rest: Bytes)
    requires forall k :: k in keys ==> |k| == 32
    ensures ReadKeys(Concat(keys) + rest, |keys|) == Got(keys, rest)
  {
    if keys == [] {
      assert Concat(keys) + rest == rest;
    } else {
      assert Concat(keys) + rest == keys[0] + (Concat(keys[1..]) + rest);
      FixedBack(keys[0], Concat(keys[1..]) + rest);
      KeysBack(keys[1..], rest);
      assert keys == [keys[0]] + keys[1..];
    }
  }

  lemma PairBack(x: Bytes, y: Bytes, rest: Bytes)
    ensures ReadPair(x + (y + rest), |x|, |y|) == Got((x, y), rest)
  {
    FixedBack(x, y + rest);
    FixedBack(y, rest);
  }

  lemma ReplyBack(reply: Option<(Bytes, Bytes)>)
    requires reply.Some? ==> |reply.value.0| == 32 && |reply.value.1| == 16
    ensures ReadReply(if reply.None? then [0] else [1] + (reply.value.0 + reply.value.1)) == Got(reply, [])
  {
    if reply.Some? {
      var b := [1] + (reply.value.0 + reply.value.1);
      PairBack(reply.value.0, reply.value.1, []);
      assert reply.value.1 + [] == reply.value.1 && b[1..] == reply.value.0 + reply.value.1;
    }
  }

  lemma MaybeHashBack(att: Option<Bytes>)
    requires att.Some? ==> |att.value| == 32
    ensures ReadMaybeHash(if att.None? then [0] else [1] + att.value) == Got(att, [])
  {
    if att.Some? {
      FixedBack(att.value, []);
      assert att.value + [] == att.value && ([1] + att.value)[1..] == att.value;
    }
  }

  // ---- the decoder inverts every layout ----

  lemma PostBack(m: Record)
    requires m.WellFormed() && m.Post?
    ensures DecodeBody(PostKind, Body(m)) == Got(m, [])
  {
    hide ReadFixed, ReadLe, ReadPrefixed, ReadReply, Le, Prefixed, Pow256;
    var tail := if m.inReplyTo.None? then [0] else [1] + (m.inReplyTo.value.0 + m.inReplyTo.value.1);
    FixedBack(m.id, Le(m.time, 8) + (Prefixed(m.content) + tail));
    LeBack(m.time, 8, Prefixed(m.content) + tail);
    PrefixedBack(m.content, tail);
    ReplyBack(m.inReplyTo);
  }

  lemma ProfileBack(m: Record)
    requires m.WellFormed() && m.Profile?
    ensures DecodeBody(ProfileKind, Body(m)) == Got(m, [])
  {
    hide ReadLe, ReadPrefixed, Le, Prefixed, Pow256;
    LeBack(m.version, 4, Prefixed(m.name) + Prefixed(m.bio));
    PrefixedBack(m.name, Prefixed(m.bio));
    PrefixedBack(m.bio, []);
    assert Prefixed(m.bio) + [] == Prefixed(m.bio);
  }

  lemma FollowsBack(m: Record)
    requires m.WellFormed() && m.Follows?
    ensures DecodeBody(FollowsKind, Body(m)) == Got(m, [])
  {
    hide ReadLe, ReadKeys, Le, Concat, Pow256;
    FourBytes();
    LeBack(m.followVersion, 4, Le(|m.follows|, 4) + Concat(m.follows));
    LeBack(|m.follows|, 4, Concat(m.follows));
    KeysBack(m.follows, []);
    assert Concat(m.follows) + [] == Concat(m.follows);
  }

  lemma CellBack(m: Record)
    requires m.WellFormed() && m.Cell?
    ensures DecodeBody(CellKind, Body(m)) == Got(m, [])
  {
    hide ReadFixed, ReadLe, ReadPrefixed, Le, Prefixed, Pow256;
    PrefixedBack(m.purpose, Le(m.seqNo, 8) + m.bodyHash);
    LeBack(m.seqNo, 8, m.bodyHash);
    FixedBack(m.bodyHash, []);
    assert m.bodyHash + [] == m.bodyHash;
  }

  lemma ListingBack(m: Record)
    requires m.WellFormed() && m.Listing?
    ensures DecodeBody(ListingKind, Body(m)) == Got(m, [])
  {
    hide ReadFixed, ReadLe, ReadMaybeHash, Le, Pow256;
    var tail := if m.attestationHash.None? then [0] else [1] + m.attestationHash.value;
    FixedBack(m.author, Le(m.lastActive, 8) + tail);
    LeBack(m.lastActive, 8, tail);
    MaybeHashBack(m.attestationHash);
  }

  lemma PointerBack(m: Record)
    requires m.WellFormed() && m.Pointer?
    ensures DecodeBody(PointerKind, Body(m)) == Got(m, [])
  {
    hide ReadPair, ReadLe, ReadPrefixed, Le, Prefixed, Pow256;
    PairBack(m.owner, m.replier, Prefixed(m.fingerprint) + (m.targetPost + (m.replyPost + Le(m.sent, 8))));
    PrefixedBack(m.fingerprint, m.targetPost + (m.replyPost + Le(m.sent, 8)));
    PairBack(m.targetPost, m.replyPost, Le(m.sent, 8));
    LeBack(m.sent, 8, []);
    assert Le(m.sent, 8) + [] == Le(m.sent, 8);
  }

  // No tag is a prefix of another: any two differ within the shorter one.
  lemma TagsDiffer(j: Kind, k: Kind)
    requires j != k
    ensures exists i :: 0 <= i < |Tag(j)| && i < |Tag(k)| && Tag(j)[i] != Tag(k)[i]
  {
    var i := if j in {PostKind, ProfileKind} && k in {PostKind, ProfileKind} then 10 else 9;
    assert TagName(j)[i] != TagName(k)[i];
    assert Tag(j)[i] != Tag(k)[i];
  }

  lemma ForeignTag(j: Kind, k: Kind, body: Bytes)
    requires j != k
    ensures !(Tag(j) <= Tag(k) + body)
  {
    hide Tag;
    TagsDiffer(j, k);
    var i :| 0 <= i < |Tag(j)| && i < |Tag(k)| && Tag(j)[i] != Tag(k)[i];
    assert (Tag(k) + body)[i] == Tag(k)[i];
  }

  lemma KindBack(k: Kind, body: Bytes)
    ensures KindOf(Tag(k) + body) == Some(k)
  {
    hide Tag;
    forall j | j != k ensures !(Tag(j) <= Tag(k) + body) { ForeignTag(j, k, body); }
    assert Tag(k) <= Tag(k) + body;
  }

  // Round trip: the decoder recovers every record, of every kind, from its payload.
  lemma DecodesPayload(m: Record)
    requires m.WellFormed()
    ensures Decode(Payload(m)) == Some(m)
  {
    hide Tag, DecodeBody, Body;
    var tag, b := Tag(m.Kind()), Payload(m);
    KindBack(m.Kind(), Body(m));
    assert b[|tag|..] == Body(m);
    match m {
      case Post(_, _, _, _) => PostBack(m);
      case Profile(_, _, _) => ProfileBack(m);
      case Follows(_, _) => FollowsBack(m);
      case Cell(_, _, _) => CellBack(m);
      case Listing(_, _, _) => ListingBack(m);
      case Pointer(_, _, _, _, _, _) => PointerBack(m);
    }
  }

  // Equal signed bytes mean the same kind of record with the same fields.
  lemma PayloadsAreInjective(a: Record, b: Record)
    requires a.WellFormed() && b.WellFormed() && Payload(a) == Payload(b)
    ensures a == b
  {
    hide Payload, Decode;
    DecodesPayload(a);
    DecodesPayload(b);
  }

  lemma WrappedPrefix()
    ensures Le(0, 4) == [0, 0, 0, 0] && Le(LENGTHS, 4) == [0, 0, 0, 0]
  {
    assert Le(0, 1) == [0] && Le(0, 2) == [0, 0] && Le(0, 3) == [0, 0, 0];
    FourBytes();
    LeWraps(0, 4, 1);
  }

  // The u32 length prefix is where injectivity ends: from 2^32 bytes on the prefix wraps,
  // and two different profiles sign to the same bytes. No contract ever gets there: names,
  // bios, posts and follow lists are bounded far below before a signature is checked.
  lemma InjectivityEndsAtU32(version: nat, z: Bytes)
    requires |z| == LENGTHS - 4
    ensures var zero := [0, 0, 0, 0];
      var a, b := Profile(version, zero + z, []), Profile(version, [], z + zero);
      a != b && Payload(a) == Payload(b)
  {
    hide Tag, Le;
    var zero: Bytes := [0, 0, 0, 0];
    WrappedPrefix();
    assert Prefixed(zero + z) == zero + (zero + z) && Prefixed(z + zero) == zero + (z + zero);
    assert Prefixed([]) == zero;
    assert (zero + (zero + z)) + zero == zero + (zero + (z + zero));
  }

  lemma Carry(n: nat, step: nat)
    ensures (n + 256 * step) % 256 == n % 256 && (n + 256 * step) / 256 == n / 256 + step
  {}

  lemma Scale(k: nat, p: nat)
    ensures k * (256 * p) == 256 * (k * p)
  {}

  lemma {:induction false} LeWraps(n: nat, w: nat, k: nat)
    ensures Le(n + k * Pow256(w), w) == Le(n, w)
  {
    if w > 0 {
      var p := Pow256(w - 1);
      assert Pow256(w) == 256 * p;
      Scale(k, p);
      Carry(n, k * p);
      LeWraps(n / 256, w - 1, k);
      hide Pow256;
      assert Le(n + 256 * (k * p), w) == [n % 256] + Le(n / 256 + k * p, w - 1);
    }
  }

  lemma Regroup(a: Bytes, b: Bytes, c: Bytes, d: Bytes)
    ensures ((a + b) + c) + d == a + (b + (c + d))
  {}

  // A payload, however it was put together, reads back.
  lemma ReadsBack(out: Bytes, m: Record)
    requires out == Payload(m)
    ensures m.WellFormed() ==> Decode(out) == Some(m)
  {
    hide Payload, Decode;
    if m.WellFormed() { DecodesPayload(m); }
  }

  // ---- the buffers as the source builds them ----

  // Append a length-prefixed field.
  method PutBytes(out: Bytes, bytes: Bytes) returns (grown: Bytes)
    ensures grown == out + Prefixed(bytes)
    ensures |bytes| < LENGTHS ==> ReadPrefixed(grown[|out|..]) == Got(bytes, [])
  {
    grown := out + Le(|bytes|, 4);
    grown := grown + bytes;
    if |bytes| < LENGTHS {
      PrefixedBack(bytes, []);
      assert grown[|out|..] == Prefixed(bytes) + [];
    }
  }

  method PostPayload(id: Bytes, time: nat, content: Bytes, inReplyTo: Option<(Bytes, Bytes)>) returns (out: Bytes)
    ensures out == Payload(Post(id, time, content, inReplyTo))
    ensures Post(id, time, content, inReplyTo).WellFormed() ==> Decode(out) == Some(Post(id, time, content, inReplyTo))
  {
    hide Tag, Le, Prefixed, Decode, Record.WellFormed;
    out := Tag(PostKind);
    out := out + id;
    out := out + Le(time, 8);
    out := PutBytes(out, content);
    ghost var head, tail := out, if inReplyTo.None? then [0] else [1] + (inReplyTo.value.0 + inReplyTo.value.1);
    assert head == Tag(PostKind) + (id + (Le(time, 8) + Prefixed(content)));
    match inReplyTo {
      case None => out := out + [0];
      case Some(r) =>
        out := out + [1];
        out := out + r.0;
        out := out + r.1;
    }
    assert out == head + tail;
    assert head + tail == Tag(PostKind) + (id + (Le(time, 8) + (Prefixed(content) + tail)));
    ReadsBack(out, Post(id, time, content, inReplyTo));
  }

  method ProfilePayload(version: nat, name: Bytes, bio: Bytes) returns (out: Bytes)
    ensures out == Payload(Profile(version, name, bio))
    ensures Profile(version, name, bio).WellFormed() ==> Decode(out) == Some(Profile(version, name, bio))
  {
    hide Tag, Le, Prefixed, Decode, Record.WellFormed;
    out := Tag(ProfileKind);
    out := out + Le(version, 4);
    out := PutBytes(out, name);
    out := PutBytes(out, bio);
    Regroup(Tag(ProfileKind), Le(version, 4), Prefixed(name), Prefixed(bio));
    ReadsBack(out, Profile(version, name, bio));
  }

  lemma {:induction false} ConcatSnoc(keys: seq<Bytes>, k: Bytes)
    ensures Concat(keys + [k]) == Concat(keys) + k
  {
    if keys == [] {
      assert Concat([k]) == k + Concat([]);
    } else {
      assert (keys + [k])[1..] == keys[1..] + [k];
      ConcatSnoc(keys[1..], k);
    }
  }

  method FollowsPayload(version: nat, keys: seq<Bytes>) returns (out: Bytes)
    ensures out == Payload(Follows(version, keys))
    ensures Follows(version, keys).WellFormed() ==> Decode(out) == Some(Follows(version, keys))
  {
    hide Tag, Le, Decode, Record.WellFormed;
    out := Tag(FollowsKind);
    out := out + Le(version, 4);
    out := out + Le(|keys|, 4);
    ghost var head := out;
    var i := 0;
    while i < |keys|
      invariant 0 <= i <= |keys|
      invariant out == head + Concat(keys[..i])
    {
      ConcatSnoc(keys[..i], keys[i]);
      assert keys[..i + 1] == keys[..i] + [keys[i]];
      out := out + keys[i];
      i := i + 1;
    }
    assert keys[..|keys|] == keys;
    assert out == Payload(Follows(version, keys));
    ReadsBack(out, Follows(version, keys));
  }

  method CellPayload(purpose: Bytes, seqNo: nat, bodyHash: Bytes) returns (out: Bytes)
    ensures out == Payload(Cell(purpose, seqNo, bodyHash))
    ensures Cell(purpose, seqNo, bodyHash).WellFormed() ==> Decode(out) == Some(Cell(purpose, seqNo, bodyHash))
  {
    hide Tag, Le, Prefixed, Decode, Record.WellFormed;
    out := Tag(CellKind);
    out := PutBytes(out, purpose);
    out := out + Le(seqNo, 8);
    out := out + bodyHash;
    Regroup(Tag(CellKind), Prefixed(purpose), Le(seqNo, 8), bodyHash);
    ReadsBack(out, Cell(purpose, seqNo, bodyHash));
  }

  method ListingPayload(author: Bytes, lastActive: nat, attestationHash: Option<Bytes>) returns (out: Bytes)
    ensures out == Payload(Listing(author, lastActive, attestationHash))
    ensures var m := Listing(author, lastActive, attestationHash); m.WellFormed() ==> Decode(out) == Some(m)
  {
    hide Tag, Le, Prefixed, Decode, Record.WellFormed;
    out := Tag(ListingKind);
    out := out + author;
    out := out + Le(lastActive, 8);
    match attestationHash {
      case None => out := out + [0];
      case Some(h) =>
        out := out + [1];
        out := out + h;
    }
    assert out == Payload(Listing(author, lastActive, attestationHash));
    ReadsBack(out, Listing(author, lastActive, attestationHash));
  }

  method PointerPayload(owner: Bytes, replier: Bytes, fingerprint: Bytes, targetPost: Bytes,
                        replyPost: Bytes, sent: nat)
    returns (out: Bytes)
    ensures out == Payload(Pointer(owner, replier, fingerprint, targetPost, replyPost, sent))
    ensures var m := Pointer(owner, replier, fingerprint, targetPost, replyPost, sent);
      m.WellFormed() ==> Decode(out) == Some(m)
  {
    hide Tag, Le, Prefixed, Decode, Record.WellFormed;
    out := Tag(PointerKind);
    out := out + owner;
    out := out + replier;
    out := PutBytes(out, fingerprint);
    out := out + targetPost;
    out := out + replyPost;
    out := out + Le(sent, 8);
    assert out == Payload(Pointer(owner, replier, fingerprint, targetPost, replyPost, sent));
    ReadsBack(out, Pointer(owner, replier, fingerprint, targetPost, replyPost, sent));
  }
}
