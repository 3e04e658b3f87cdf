/** Cursors and pages for `tools/list`: src/paginate.rs.

    Every specification function takes the hash as a parameter `H`, and every theorem holds for
    all hash functions; the methods instantiate it with SHA-256. */
module Paginate {
  import opened Wrappers
  import opened Bytes
  import opened Hmac
  import Base64Url
  import Fips180
  import Sha256

  const CURSOR_PREFIX: Bytes := [116, 99, 49, 46]  // "tc1."
  const OFFSET_LEN := 4
  const SNAPSHOT_LEN := 8
  const TAG_LEN := 16
  const BODY_LEN := OFFSET_LEN + SNAPSHOT_LEN
  const RAW_LEN := BODY_LEN + TAG_LEN
  const U32_LIMIT: nat := 0x1_0000_0000

  datatype CursorError = Malformed | BadMac | Snapshot | OutOfRange

  /** The half-open slice [start, end) and the cursor of the page after it, if any. */
  datatype Page = Page(start: nat, end: nat, nextCursor: Option<Text>)

  type SnapshotId = b: Bytes | |b| == 8 witness [0, 0, 0, 0, 0, 0, 0, 0]

  // ---------------------------------------------------------------------------------------
  // Snapshot framing
  // ---------------------------------------------------------------------------------------

  function FrameEach(names: seq<Text>): Bytes {
    if names == [] then [] else LE(|names[0]|, 8) + names[0] + FrameEach(names[1..])
  }

  /** The number of names, then every name behind its own length. */
  function Frame(names: seq<Text>): Bytes {
    LE(|names|, 8) + FrameEach(names)
  }

  function SnapshotOf(H: HashFn, names: seq<Text>): SnapshotId {
    H(Frame(names))[..SNAPSHOT_LEN]
  }

  /** The names fit in memory: every length is a `usize`. */
  ghost predicate Sized(names: seq<Text>) {
    |names| < USIZE_LIMIT && forall n :: n in names ==> |n| < USIZE_LIMIT
  }

  lemma LEPrefix(m: nat, n: nat, x: Bytes, y: Bytes)
    requires m < USIZE_LIMIT && n < USIZE_LIMIT && LE(m, 8) + x == LE(n, 8) + y
    ensures m == n && x == y
  {
    hide LE, Pow256;
    Widths();
    assert LE(m, 8) == (LE(m, 8) + x)[..8] == (LE(n, 8) + y)[..8] == LE(n, 8);
    assert x == (LE(m, 8) + x)[8..] && y == (LE(n, 8) + y)[8..];
    LEInjective(m, n, 8);
  }

  lemma SameSplit(m: Text, n: Text, x: Bytes, y: Bytes)
    requires |m| == |n| && m + x == n + y
    ensures m == n && x == y
  {
    var u, v := m + x, n + y;
    assert u[..|m|] == m && v[..|m|] == n;
    calc { x; u[|m|..]; v[|m|..]; y; }
  }

  lemma {:induction false} FrameEachInjective(a: seq<Text>, b: seq<Text>, x: Bytes, y: Bytes)
    requires Sized(a) && Sized(b) && |a| == |b|
    requires FrameEach(a) + x == FrameEach(b) + y
    ensures a == b && x == y
  {
    hide LE;
    if a == [] {
      assert FrameEach(a) + x == x && FrameEach(b) + y == y;
    } else {
      var restA, restB := FrameEach(a[1..]) + x, FrameEach(b[1..]) + y;
      assert FrameEach(a) + x == LE(|a[0]|, 8) + (a[0] + restA);
      assert FrameEach(b) + y == LE(|b[0]|, 8) + (b[0] + restB);
      LEPrefix(|a[0]|, |b[0]|, a[0] + restA, b[0] + restB);
      SameSplit(a[0], b[0], restA, restB);
      FrameEachInjective(a[1..], b[1..], x, y);
      assert a == [a[0]] + a[1..] && b == [b[0]] + b[1..];
    }
  }

  /** Framing is injective and prefix-free: a framed list followed by anything still determines
      the list, its order and where it ends. */
  lemma FrameDetermines(a: seq<Text>, b: seq<Text>, x: Bytes, y: Bytes)
    requires Sized(a) && Sized(b)
    requires Frame(a) + x == Frame(b) + y
    ensures a == b && x == y
  {
    assert Frame(a) + x == LE(|a|, 8) + (FrameEach(a) + x);
    assert Frame(b) + y == LE(|b|, 8) + (FrameEach(b) + y);
    LEPrefix(|a|, |b|, FrameEach(a) + x, FrameEach(b) + y);
    FrameEachInjective(a, b, x, y);
  }

  lemma {:induction false} FrameEachSnoc(names: seq<Text>, n: Text)
    ensures FrameEach(names + [n]) == FrameEach(names) + (LE(|n|, 8) + n)
  {
    if names == [] {
      assert names + [n] == [n] && [n][1..] == [];
    } else {
      assert (names + [n])[1..] == names[1..] + [n];
      FrameEachSnoc(names[1..], n);
    }
  }

  /** `snapshot_id`. */
  method SnapshotIdOf(names: seq<Text>) returns (id: SnapshotId)
    ensures id == SnapshotOf(Fips180.Hash, names)
  {
    hide LE, Fips180.Hash;
    var buf := LE(|names|, 8);
    for i := 0 to |names|
      invariant buf == LE(|names|, 8) + FrameEach(names[..i])
    {
      buf := buf + LE(|names[i]|, 8);
      buf := buf + names[i];
      assert names[..i + 1] == names[..i] + [names[i]];
      FrameEachSnoc(names[..i], names[i]);
    }
    assert names[..|names|] == names;
    var d := Sha256.Sha256(buf);
    id := d[..SNAPSHOT_LEN];
  }

  // ---------------------------------------------------------------------------------------
  // Cursors
  // ---------------------------------------------------------------------------------------

  function Body(sid: SnapshotId, offset: nat): (b: Bytes)
    ensures |b| == BODY_LEN
  {
    BE(offset % U32_LIMIT, OFFSET_LEN) + sid
  }

  function Tag(H: HashFn, key: Bytes, body: Bytes): (t: Bytes)
    ensures |t| == TAG_LEN
  {
    Hmac.Hmac(H, key, body)[..TAG_LEN]
  }

  /** The text of any body and tag, genuine or not. */
  function Wrap(body: Bytes, tag: Bytes): Text {
    CURSOR_PREFIX + Base64Url.Encode(body + tag)
  }

  /** The cursor for an offset, which is first cast to `u32`. */
  function Mint(H: HashFn, key: Bytes, sid: SnapshotId, offset: nat): Text {
    Wrap(Body(sid, offset), Tag(H, key, Body(sid, offset)))
  }

  /** `is_multiple_of`: only 0 is a multiple of 0. */
  predicate IsMultipleOf(n: nat, d: nat) {
    if d == 0 then n == 0 else n % d == 0
  }

  function StripPrefix(cursor: Text): Option<Bytes> {
    if CURSOR_PREFIX <= cursor then Some(cursor[|CURSOR_PREFIX|..]) else None
  }

  datatype Paginator = Paginator(key: Bytes, snapshotId: SnapshotId, pageSize: usize, total: usize) {

    /** An interior page boundary: what a page other than the last can end at. */
    predicate Boundary(o: nat) {
      0 < o < total && IsMultipleOf(o, pageSize)
    }

    function Open(H: HashFn, cursor: Text): Result<nat, CursorError> {
      var b64 := StripPrefix(cursor);
      if b64 == None then Err(Malformed) else
      var raw := Base64Url.Decode(b64.value);
      if raw == None || |raw.value| != RAW_LEN then Err(Malformed) else
      var body, tag := raw.value[..BODY_LEN], raw.value[BODY_LEN..];
      if Tag(H, key, body) != tag then Err(BadMac)
      else if body[OFFSET_LEN..] != snapshotId then Err(Snapshot)
      else
        var o := FromBE(body[..OFFSET_LEN]);
        if Boundary(o) then Ok(o) else Err(OutOfRange)
    }

    /** The page that starts at `start`. */
    function From(H: HashFn, start: nat): Page {
      var end := Min(SaturatingAdd(start, pageSize), total);
      Page(start, end, if end < total then Some(Mint(H, key, snapshotId, end)) else None)
    }

    function PageFor(H: HashFn, cursor: Option<Text>): Result<Page, CursorError> {
      if pageSize == 0 then Ok(Page(0, total, None))
      else if cursor == None then Ok(From(H, 0))
      else
        var start := Open(H, cursor.value);
        if start.Err? then Err(start.error) else Ok(From(H, start.value))
    }

    /** `encode`. */
    method EncodeCursor(offset: usize) returns (s: Text)
      ensures s == Mint(Fips180.Hash, key, snapshotId, offset)
    {
      hide BE, Hmac.Hmac, Base64Url.Encode, Fips180.Hash;
      var body := BE(offset % U32_LIMIT, OFFSET_LEN);
      body := body + snapshotId;
      var tag := HmacSha256(key, body);
      var raw := body + tag[..TAG_LEN];
      var b64 := Base64Url.EncodeBytes(raw);
      s := CURSOR_PREFIX + b64;
    }

    /** `decode`. */
    method DecodeCursor(cursor: Text) returns (r: Result<nat, CursorError>)
      ensures r == Open(Fips180.Hash, cursor)
    {
      hide FromBE, Hmac.Hmac, Base64Url.Decode, Fips180.Hash;
      var b64 := StripPrefix(cursor);
      if b64 == None {
        return Err(Malformed);
      }
      var raw := Base64Url.DecodeBytes(b64.value);
      if raw == None || |raw.value| != RAW_LEN {
        return Err(Malformed);
      }
      var body, tag := raw.value[..BODY_LEN], raw.value[BODY_LEN..];
      var expected := HmacSha256(key, body);
      var ok := CtEq(expected[..TAG_LEN], tag);
      if !ok {
        return Err(BadMac);
      }
      if body[OFFSET_LEN..BODY_LEN] != snapshotId {
        return Err(Snapshot);
      }
      var offset: nat := FromBE(body[..OFFSET_LEN]);
      if offset == 0 || offset >= total || !IsMultipleOf(offset, pageSize) {
        return Err(OutOfRange);
      }
      return Ok(offset);
    }

    /** `page`. */
    method GetPage(cursor: Option<Text>) returns (r: Result<Page, CursorError>)
      ensures r == PageFor(Fips180.Hash, cursor)
    {
      hide Open, Mint, Fips180.Hash;
      if pageSize == 0 {
        return Ok(Page(0, total, None));
      }
      var start := 0;
      if cursor.Some? {
        var decoded := DecodeCursor(cursor.value);
        if decoded.Err? {
          return Err(decoded.error);
        }
        start := decoded.value;
      }
      var end := Min(SaturatingAdd(start, pageSize), total);
      var nextCursor := None;
      if end < total {
        var next := EncodeCursor(end);
        nextCursor := Some(next);
      }
      return Ok(Page(start, end, nextCursor));
    }
  }

  function ForNames(H: HashFn, key: Bytes, names: seq<Text>, pageSize: usize): Paginator
    requires |names| < USIZE_LIMIT
  {
    Paginator(key, SnapshotOf(H, names), pageSize, |names|)
  }

  /** `Paginator::new`. */
  method NewPaginator(key: Bytes, visibleNames: seq<Text>, pageSize: usize) returns (p: Paginator)
    requires |visibleNames| < USIZE_LIMIT
    ensures p == ForNames(Fips180.Hash, key, visibleNames, pageSize)
  {
    var id := SnapshotIdOf(visibleNames);
    p := Paginator(key, id, pageSize, |visibleNames|);
  }

  // ---------------------------------------------------------------------------------------
  // What the accepted cursors are
  // ---------------------------------------------------------------------------------------

  /** Unwrapping undoes wrapping, and nothing else unwraps. */
  lemma UnwrapIffWrap(cursor: Text, body: Bytes, tag: Bytes)
    requires |body| == BODY_LEN && |tag| == TAG_LEN
    ensures cursor == Wrap(body, tag) <==>
      var b64 := StripPrefix(cursor);
      b64.Some? && Base64Url.Decode(b64.value) == Some(body + tag)
  {
    hide Base64Url.Encode, Base64Url.Decode;
    var b64 := StripPrefix(cursor);
    if b64.Some? {
      assert cursor == CURSOR_PREFIX + b64.value;
      Base64Url.DecodeIffEncode(b64.value, body + tag);
    }
    Base64Url.DecodeIffEncode(Base64Url.Encode(body + tag), body + tag);
    assert StripPrefix(Wrap(body, tag)) == Some(Base64Url.Encode(body + tag));
  }

  lemma OffsetOfBody(sid: SnapshotId, offset: nat)
    ensures FromBE(Body(sid, offset)[..OFFSET_LEN]) == offset % U32_LIMIT
    ensures Body(sid, offset)[OFFSET_LEN..] == sid
  {
    hide BE, FromBE, Pow256;
    Widths();
    FromBEOfBE(offset % U32_LIMIT, OFFSET_LEN);
    assert Body(sid, offset)[..OFFSET_LEN] == BE(offset % U32_LIMIT, OFFSET_LEN);
  }

  lemma BodyOfOffset(body: Bytes)
    requires |body| == BODY_LEN
    ensures FromBE(body[..OFFSET_LEN]) < U32_LIMIT
    ensures body == Body(body[OFFSET_LEN..], FromBE(body[..OFFSET_LEN]))
  {
    hide BE, FromBE, Pow256;
    Widths();
    BEOfFromBE(body[..OFFSET_LEN]);
    assert body == body[..OFFSET_LEN] + body[OFFSET_LEN..];
  }

  /** Any cursor minted under this key, for any snapshot and offset, gets this answer. */
  lemma OpenOfMint(H: HashFn, p: Paginator, sid: SnapshotId, offset: nat)
    ensures p.Open(H, Mint(H, p.key, sid, offset)) ==
      if sid != p.snapshotId then Err(Snapshot)
      else if p.Boundary(offset % U32_LIMIT) then Ok(offset % U32_LIMIT)
      else Err(OutOfRange)
  {
    hide BE, FromBE, Hmac.Hmac, Base64Url.Encode, Base64Url.Decode;
    var body := Body(sid, offset);
    var tag := Tag(H, p.key, body);
    UnwrapIffWrap(Mint(H, p.key, sid, offset), body, tag);
    OffsetOfBody(sid, offset);
    assert (body + tag)[..BODY_LEN] == body && (body + tag)[BODY_LEN..] == tag;
  }

  /** A string that gets past the tag test was minted under this key, for some snapshot and offset. */
  lemma OpenInverted(H: HashFn, p: Paginator, cursor: Text)
    requires p.Open(H, cursor) !in {Err(Malformed), Err(BadMac)}
    ensures exists sid: SnapshotId, o: nat :: o < U32_LIMIT && cursor == Mint(H, p.key, sid, o)
  {
    hide BE, FromBE, Hmac.Hmac, Base64Url.Encode, Base64Url.Decode;
    var raw := Base64Url.Decode(StripPrefix(cursor).value).value;
    var body, tag := raw[..BODY_LEN], raw[BODY_LEN..];
    assert raw == body + tag;
    UnwrapIffWrap(cursor, body, tag);
    BodyOfOffset(body);
    var sid, o := body[OFFSET_LEN..], FromBE(body[..OFFSET_LEN]);
    assert cursor == Mint(H, p.key, sid, o);
  }

  /** The accepted cursors are exactly the minted ones: one string for every interior page
      boundary that fits in 32 bits, and no second spelling of any of them. */
  lemma OpenIffMinted(H: HashFn, p: Paginator, cursor: Text, o: nat)
    ensures p.Open(H, cursor) == Ok(o) <==>
      o < U32_LIMIT && p.Boundary(o) && cursor == Mint(H, p.key, p.snapshotId, o)
  {
    hide Mint, Paginator.Open;
    OpenOfMint(H, p, p.snapshotId, o);
    if p.Open(H, cursor) == Ok(o) {
      OpenInverted(H, p, cursor);
      var sid: SnapshotId, o': nat :| o' < U32_LIMIT && cursor == Mint(H, p.key, sid, o');
      OpenOfMint(H, p, sid, o');
    }
  }

  /** With at most 2^32 visible tools the width of the offset is no restriction. */
  lemma OpenIffMinted32(H: HashFn, p: Paginator, cursor: Text, o: nat)
    requires p.total <= U32_LIMIT
    ensures p.Open(H, cursor) == Ok(o) <==> p.Boundary(o) && cursor == Mint(H, p.key, p.snapshotId, o)
  {
    OpenIffMinted(H, p, cursor, o);
  }

  /** A cursor carries over to another session only by a collision of the hash, and these are the
      two colliding inputs: if a cursor minted for `names` under key k opens for `others` under key
      l, then at the offset it was minted for, and equal keys and equal lists in equal order are
      the only way to it without one. */
  lemma CursorBinds(H: HashFn, k: Bytes, l: Bytes, names: seq<Text>, others: seq<Text>, size: usize, offset: nat, o: nat)
    requires |k| == |l| == 32 && Sized(names) && Sized(others)
    requires ForNames(H, l, others, size).Open(H, Mint(H, k, SnapshotOf(H, names), offset)) == Ok(o)
    ensures o == offset % U32_LIMIT
    ensures names != others ==> Frame(names) != Frame(others) && H(Frame(names))[..8] == H(Frame(others))[..8]
    ensures var body := BE(offset % U32_LIMIT, 4) + H(Frame(names))[..8];
      k != l ==> Outer(H, k, body) != Outer(H, l, body) && H(Outer(H, k, body))[..16] == H(Outer(H, l, body))[..16]
  {
    hide Mint, Paginator.Open, Hmac.Hmac, Inner, Outer, Frame;
    var q, sid := ForNames(H, l, others, size), SnapshotOf(H, names);
    OpenInverted(H, q, Mint(H, k, sid, offset));
    var sid': SnapshotId, o': nat :| o' < U32_LIMIT && Mint(H, k, sid, offset) == Mint(H, l, sid', o');
    OpenOfMint(H, q, sid', o');
    MintInjective(H, k, l, sid, sid', offset, o');
    if names != others && Frame(names) == Frame(others) {
      FrameDetermines(names, others, [], []);
    }
    BlockDetermines(H, k, l);
    HashedDiffer(H, k, l, Body(sid, offset), Body(sid, offset));
    TagIs(H, k, Body(sid, offset));
    TagIs(H, l, Body(sid, offset));
  }

  lemma TagIs(H: HashFn, key: Bytes, body: Bytes)
    ensures Tag(H, key, body) == H(Outer(H, key, body))[..16]
  {
  }

  /** Equal cursors have equal contents. */
  lemma MintInjective(H: HashFn, k: Bytes, l: Bytes, a: SnapshotId, b: SnapshotId, m: nat, n: nat)
    requires Mint(H, k, a, m) == Mint(H, l, b, n)
    ensures a == b && m % U32_LIMIT == n % U32_LIMIT && Tag(H, k, Body(a, m)) == Tag(H, l, Body(b, n))
  {
    hide Tag, Body, Base64Url.Encode, Base64Url.Decode;
    var x, y := Body(a, m), Body(b, n);
    var s, t := Tag(H, k, x), Tag(H, l, y);
    UnwrapIffWrap(Wrap(x, s), x, s);
    UnwrapIffWrap(Wrap(x, s), y, t);
    SameSplit(x, y, s, t);
    OffsetOfBody(a, m);
    OffsetOfBody(b, n);
  }

  /** Every other string is told apart by what it is: not a cursor at all, one whose tag is not
      the tag of its body, one minted for another tool set, or one minted for an offset that is
      no interior page boundary. */
  lemma RejectionReasons(H: HashFn, p: Paginator, cursor: Text)
    ensures p.Open(H, cursor) == Err(Malformed) <==>
      !exists body: Bytes, tag: Bytes :: |body| == BODY_LEN && |tag| == TAG_LEN && cursor == Wrap(body, tag)
    ensures p.Open(H, cursor) == Err(BadMac) <==>
      exists body: Bytes, tag: Bytes :: |body| == BODY_LEN && |tag| == TAG_LEN && cursor == Wrap(body, tag)
        && tag != Tag(H, p.key, body)
    ensures p.Open(H, cursor) == Err(Snapshot) <==>
      exists sid: SnapshotId, o: nat :: sid != p.snapshotId && o < U32_LIMIT && cursor == Mint(H, p.key, sid, o)
    ensures p.Open(H, cursor) == Err(OutOfRange) <==>
      exists o: nat :: o < U32_LIMIT && !p.Boundary(o) && cursor == Mint(H, p.key, p.snapshotId, o)
  {
    MalformedReason(H, p, cursor);
    MintedReason(H, p, cursor);
  }

  lemma MalformedReason(H: HashFn, p: Paginator, cursor: Text)
    ensures p.Open(H, cursor) == Err(Malformed) <==>
      !exists body: Bytes, tag: Bytes :: |body| == BODY_LEN && |tag| == TAG_LEN && cursor == Wrap(body, tag)
    ensures p.Open(H, cursor) == Err(BadMac) <==>
      exists body: Bytes, tag: Bytes :: |body| == BODY_LEN && |tag| == TAG_LEN && cursor == Wrap(body, tag)
        && tag != Tag(H, p.key, body)
  {
    hide FromBE, Hmac.Hmac, Base64Url.Encode, Base64Url.Decode;
    forall body: Bytes, tag: Bytes | |body| == BODY_LEN && |tag| == TAG_LEN && cursor == Wrap(body, tag)
      ensures p.Open(H, cursor) != Err(Malformed)
      ensures p.Open(H, cursor) == Err(BadMac) <==> tag != Tag(H, p.key, body)
    {
      UnwrapIffWrap(cursor, body, tag);
      assert (body + tag)[..BODY_LEN] == body && (body + tag)[BODY_LEN..] == tag;
    }
    if p.Open(H, cursor) != Err(Malformed) {
      var raw := Base64Url.Decode(StripPrefix(cursor).value).value;
      var body, tag := raw[..BODY_LEN], raw[BODY_LEN..];
      assert raw == body + tag;
      UnwrapIffWrap(cursor, body, tag);
      assert cursor == Wrap(body, tag);
    }
  }

  lemma MintedReason(H: HashFn, p: Paginator, cursor: Text)
    ensures p.Open(H, cursor) == Err(Snapshot) <==>
      exists sid: SnapshotId, o: nat :: sid != p.snapshotId && o < U32_LIMIT && cursor == Mint(H, p.key, sid, o)
    ensures p.Open(H, cursor) == Err(OutOfRange) <==>
      exists o: nat :: o < U32_LIMIT && !p.Boundary(o) && cursor == Mint(H, p.key, p.snapshotId, o)
  {
    hide Mint, Paginator.Open;
    forall sid: SnapshotId, o: nat | o < U32_LIMIT && cursor == Mint(H, p.key, sid, o)
      ensures p.Open(H, cursor) ==
        if sid != p.snapshotId then Err(Snapshot) else if p.Boundary(o) then Ok(o) else Err(OutOfRange)
    {
      OpenOfMint(H, p, sid, o);
    }
    if p.Open(H, cursor) in {Err(Snapshot), Err(OutOfRange)} {
      OpenInverted(H, p, cursor);
    }
  }

  /** A page: from `start`, as many items as a page holds or as there are left, and the cursor of
      the next boundary exactly when something is left after it. */
  predicate PageAt(H: HashFn, p: Paginator, start: nat, pg: Page) {
    var end := if start + p.pageSize < p.total then start + p.pageSize else p.total;
    && pg.start == start && pg.end == end
    && pg.nextCursor == if end == p.total then None else Some(Mint(H, p.key, p.snapshotId, end))
  }

  /** What every request is served: everything, whatever the cursor, when paging is disabled; the
      first page without a cursor; and with one the page it was minted for, or its rejection. */
  lemma RequestsServed(H: HashFn, p: Paginator, cursor: Option<Text>)
    ensures p.pageSize == 0 ==> p.PageFor(H, cursor) == Ok(Page(0, p.total, None))
    ensures p.pageSize > 0 && cursor == None ==> p.PageFor(H, cursor).Ok? && PageAt(H, p, 0, p.PageFor(H, cursor).value)
    ensures p.pageSize > 0 && cursor.Some? ==>
      match p.PageFor(H, cursor)
      case Err(e) => p.Open(H, cursor.value) == Err(e)
      case Ok(pg) =>
        && 0 < pg.start < p.total && pg.start % p.pageSize == 0 && pg.start < 0x1_0000_0000
        && cursor.value == Mint(H, p.key, p.snapshotId, pg.start) && PageAt(H, p, pg.start, pg)
  {
    hide Mint, Paginator.Open;
    if p.pageSize > 0 && cursor.Some? && p.Open(H, cursor.value).Ok? {
      OpenIffMinted(H, p, cursor.value, p.Open(H, cursor.value).value);
    }
  }

  // ---------------------------------------------------------------------------------------
  // Following the cursors
  // ---------------------------------------------------------------------------------------

  /** What a client that follows every `next_cursor` receives as its k-th answer; nothing once
      an answer carried no cursor or was an error. */
  function Walk(H: HashFn, p: Paginator, k: nat): Option<Result<Page, CursorError>> {
    if k == 0 then Some(p.PageFor(H, None))
    else
      var before := Walk(H, p, k - 1);
      if before.Some? && before.value.Ok? && before.value.value.nextCursor.Some?
      then Some(p.PageFor(H, before.value.value.nextCursor)) else None
  }

  /** The walk reaches a page with no cursor after it. */
  ghost predicate WalkEnds(H: HashFn, p: Paginator) {
    exists k: nat :: EndsAt(H, p, k)
  }

  predicate EndsAt(H: HashFn, p: Paginator, k: nat) {
    Walk(H, p, k).Some? && Walk(H, p, k).value.Ok? && Walk(H, p, k).value.value.nextCursor == None
  }

  /** max(1, ceil(total / pageSize)). */
  function PageCount(p: Paginator): (n: nat)
    ensures n >= 1
  {
    if p.pageSize == 0 || p.total == 0 then 1 else (p.total + p.pageSize - 1) / p.pageSize
  }

  /** Where the last page starts. */
  function LastStart(p: Paginator): nat {
    (PageCount(p) - 1) * p.pageSize
  }

  function PageStart(p: Paginator, k: nat): nat {
    Min(k * p.pageSize, p.total)
  }

  /** The k-th page of an ideal walk. */
  function Tile(H: HashFn, p: Paginator, k: nat): Page
    requires p.pageSize > 0
  {
    var end := Min(k * p.pageSize + p.pageSize, p.total);
    Page(k * p.pageSize, end, if k + 1 < PageCount(p) then Some(Mint(H, p.key, p.snapshotId, end)) else None)
  }

  lemma CountBounds(p: Paginator)
    requires p.pageSize > 0
    ensures LastStart(p) <= p.total <= LastStart(p) + p.pageSize
    ensures p.total > 0 ==> LastStart(p) < p.total
  {
    var n: int, s: int, t: int := PageCount(p), p.pageSize, p.total;
    if t > 0 {
      var q := t + s - 1;
      assert q == s * (q / s) + q % s;
      assert n * s == q - q % s;
    }
  }

  lemma MulMonotone(j: nat, k: nat, s: nat)
    requires j <= k
    ensures j * s <= k * s
  {
  }

  /** Every page but the last ends at an interior boundary, and the last at the total. */
  lemma TileEnds(p: Paginator, k: nat)
    requires p.pageSize > 0 && k < PageCount(p)
    ensures k + 1 < PageCount(p) ==> p.Boundary((k + 1) * p.pageSize) && (k + 1) * p.pageSize <= LastStart(p)
    ensures k + 1 == PageCount(p) ==> k * p.pageSize <= p.total <= k * p.pageSize + p.pageSize
    ensures (k + 1) * p.pageSize == k * p.pageSize + p.pageSize
  {
    CountBounds(p);
    if k + 1 < PageCount(p) {
      MulMonotone(k + 1, PageCount(p) - 1, p.pageSize);
      MulMonotone(1, k + 1, p.pageSize);
      MultipleMod(k + 1, p.pageSize);
    }
  }

  lemma MultipleMod(k: int, s: int)
    requires s > 0
    ensures (k * s) % s == 0
  {
    var q, r := (k * s) / s, (k * s) % s;
    assert (k - q) * s == r;
    MultipleBounds(k - q, s);
  }

  lemma MultipleBounds(d: int, s: int)
    requires s > 0
    ensures d >= 1 ==> d * s >= s
    ensures d <= -1 ==> d * s <= -s
  {
  }

  /** The page served from a boundary is the tile that starts there. */
  lemma FromIsTile(H: HashFn, p: Paginator, k: nat)
    requires p.pageSize > 0 && k < PageCount(p)
    ensures p.From(H, k * p.pageSize) == Tile(H, p, k)
  {
    hide Mint;
    TileEnds(p, k);
    CountBounds(p);
  }

  /** The whole walk, page by page: if the last page starts below 2^32 (or pagination is
      disabled), every answer is the ideal page and the walk stops after PageCount of them. */
  lemma {:induction false} WalkIsIdeal(H: HashFn, p: Paginator, k: nat)
    requires p.pageSize > 0 && LastStart(p) < U32_LIMIT
    ensures Walk(H, p, k) == if k < PageCount(p) then Some(Ok(Tile(H, p, k))) else None
  {
    hide Mint, Paginator.Open, Paginator.From, PageCount, LastStart;
    if k == 0 {
      FromIsTile(H, p, 0);
    } else {
      WalkIsIdeal(H, p, k - 1);
      if k < PageCount(p) {
        NextTile(H, p, k);
      }
    }
  }

  /** The cursor at the end of a tile opens the next one. */
  lemma NextTile(H: HashFn, p: Paginator, k: nat)
    requires p.pageSize > 0 && LastStart(p) < U32_LIMIT && 0 < k < PageCount(p)
    ensures Tile(H, p, k - 1).nextCursor.Some?
    ensures p.PageFor(H, Tile(H, p, k - 1).nextCursor) == Ok(Tile(H, p, k))
  {
    hide Mint, Paginator.Open, Paginator.From;
    var o := k * p.pageSize;
    TileEnds(p, k - 1);
    OpenOfMint(H, p, p.snapshotId, o);
    assert o % U32_LIMIT == o;
    FromIsTile(H, p, k);
  }

  /** The items the first k pages of the walk hand over. */
  function Served<T>(H: HashFn, p: Paginator, items: seq<T>, k: nat): seq<T>
    requires |items| == p.total
  {
    if k == 0 then [] else Served(H, p, items, k - 1) + Slice(items, Walk(H, p, k - 1))
  }

  function Slice<T>(items: seq<T>, answer: Option<Result<Page, CursorError>>): seq<T> {
    if answer.Some? && answer.value.Ok? && answer.value.value.start <= answer.value.value.end <= |items|
    then items[answer.value.value.start..answer.value.value.end] else []
  }

  /** The pages tile the list: in order, with no gap and no overlap, every page non-empty unless
      the list is, and the walk is over after exactly PageCount pages. */
  lemma WalkTiles<T>(H: HashFn, p: Paginator, items: seq<T>)
    requires |items| == p.total && LastStart(p) < U32_LIMIT
    ensures Served(H, p, items, PageCount(p)) == items
    ensures forall k: nat :: Walk(H, p, k).Some? <==> k < PageCount(p)
    ensures forall k: nat :: k < PageCount(p) ==> Walk(H, p, k).value.Ok?
    ensures forall k: nat :: k < PageCount(p) && p.total > 0 ==>
      Walk(H, p, k).value.value.start < Walk(H, p, k).value.value.end
    ensures EndsAt(H, p, PageCount(p) - 1)
  {
    if p.pageSize == 0 {
      DisabledWalk(H, p, items);
    } else {
      hide Mint, Walk, Paginator.Open, Paginator.From, PageCount, LastStart;
      forall k: nat ensures Walk(H, p, k) == if k < PageCount(p) then Some(Ok(Tile(H, p, k))) else None {
        WalkIsIdeal(H, p, k);
      }
      forall k: nat | k < PageCount(p) && p.total > 0 ensures k * p.pageSize < p.total {
        StartsInside(p, k);
      }
      ServedAll(H, p, items);
    }
  }

  lemma StartsInside(p: Paginator, k: nat)
    requires p.pageSize > 0 && p.total > 0 && k < PageCount(p)
    ensures k * p.pageSize < p.total
  {
    hide PageCount;
    CountBounds(p);
    MulMonotone(k, PageCount(p) - 1, p.pageSize);
  }

  lemma ServedAll<T>(H: HashFn, p: Paginator, items: seq<T>)
    requires p.pageSize > 0 && |items| == p.total && LastStart(p) < U32_LIMIT
    ensures Served(H, p, items, PageCount(p)) == items
  {
    hide Mint, Walk, Served, PageCount;
    var n := PageCount(p);
    ServedPrefix(H, p, items, n);
    CountBounds(p);
    TileEnds(p, n - 1);
    assert items[..p.total] == items;
  }

  lemma LastStartIs(p: Paginator)
    ensures LastStart(p) == (PageCount(p) - 1) * p.pageSize
  {
  }

  lemma DisabledWalk<T>(H: HashFn, p: Paginator, items: seq<T>)
    requires p.pageSize == 0 && |items| == p.total
    ensures Walk(H, p, 0) == Some(Ok(Page(0, p.total, None)))
    ensures forall k: nat :: k > 0 ==> Walk(H, p, k) == None
    ensures Served(H, p, items, 1) == items
  {
    forall k: nat | k > 0 ensures Walk(H, p, k) == None {
      if k > 1 {
        WalkStops(H, p, 1, k);
      }
    }
    assert Served(H, p, items, 0) == [];
    assert items[0..p.total] == items;
  }

  lemma {:induction false} WalkStops(H: HashFn, p: Paginator, j: nat, k: nat)
    requires j <= k && Walk(H, p, j) == None
    ensures Walk(H, p, k) == None
  {
    hide Paginator.PageFor;
    if j < k {
      WalkStops(H, p, j, k - 1);
    }
  }

  lemma {:induction false} ServedPrefix<T>(H: HashFn, p: Paginator, items: seq<T>, k: nat)
    requires p.pageSize > 0 && |items| == p.total && LastStart(p) < U32_LIMIT && k <= PageCount(p)
    ensures Served(H, p, items, k) == items[..PageStart(p, k)]
  {
    hide Mint, Walk, Paginator.Open, Paginator.From, PageCount, LastStart;
    if k > 0 {
      ServedPrefix(H, p, items, k - 1);
      WalkIsIdeal(H, p, k - 1);
      TileEnds(p, k - 1);
      var a, b := PageStart(p, k - 1), PageStart(p, k);
      CountBounds(p);
      LastStartIs(p);
      MulMonotone(k - 1, PageCount(p) - 1, p.pageSize);
      assert items[..b] == items[..a] + items[a..b];
    }
  }

  /** The exact condition for paging to work at all. An offset is cast to `u32`, so a list whose
      last page starts at 2^32 or beyond has a cursor that names the wrong place, and a client
      following cursors never reaches an end. */
  lemma WalkEndsIff(H: HashFn, p: Paginator)
    ensures WalkEnds(H, p) <==> LastStart(p) < U32_LIMIT
  {
    if LastStart(p) < U32_LIMIT {
      WalkTiles(H, p, seq(p.total, _ => 0));
    } else {
      forall k: nat ensures !EndsAt(H, p, k) {
        NeverEnds(H, p, k);
      }
    }
  }

  /** A list one longer than fits, in pages of one. */
  lemma EndlessWalk(H: HashFn, key: Bytes, snapshotId: SnapshotId)
    ensures !WalkEnds(H, Paginator(key, snapshotId, 1, U32_LIMIT + 1))
  {
    WalkEndsIff(H, Paginator(key, snapshotId, 1, U32_LIMIT + 1));
  }

  /** Every page then starts at a boundary below 2^32, and a page after it is promised. */
  lemma {:induction false} NeverEnds(H: HashFn, p: Paginator, k: nat)
    requires LastStart(p) >= U32_LIMIT
    ensures Walk(H, p, k).Some? && Walk(H, p, k).value.Ok? ==> Walk(H, p, k).value.value.nextCursor.Some?
  {
    hide Mint, Paginator.Open, PageCount, LastStart;
    if k == 0 {
      EarlyPage(H, p, 0);
    } else {
      NeverEnds(H, p, k - 1);
      var before := Walk(H, p, k - 1);
      if before.Some? && before.value.Ok? {
        var cursor := before.value.value.nextCursor.value;
        var start := p.Open(H, cursor);
        if start.Ok? {
          OpenIffMinted(H, p, cursor, start.value);
          EarlyPage(H, p, start.value);
        }
      }
    }
  }

  lemma EarlyPage(H: HashFn, p: Paginator, o: nat)
    requires LastStart(p) >= U32_LIMIT && o < U32_LIMIT && (o == 0 || p.Boundary(o))
    ensures p.pageSize > 0 && p.From(H, o).nextCursor.Some?
  {
    hide Mint;
    if o == 0 {
      FromIsTile(H, p, 0);
    } else {
      EarlyBoundary(p, o);
    }
  }

  lemma EarlyBoundary(p: Paginator, o: nat)
    requires p.Boundary(o) && o < LastStart(p)
    ensures o + p.pageSize < p.total
  {
    CountBounds(p);
    var s: int, j: int, n: int := p.pageSize, o / p.pageSize, PageCount(p) - 1;
    assert o == j * s;
    if j >= n {
      MulMonotone(n, j, s);
      assert false;
    }
    MulMonotone(j + 1, n, s);
    assert (j + 1) * s == j * s + s;
  }
}
