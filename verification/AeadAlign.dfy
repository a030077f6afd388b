/** Any cut of a writer's bytes into framed records is the writer's own. */
module AeadAlign {
  import opened Efrp
  import opened AeadNonce
  import opened AeadSuite

  lemma Assoc(a: seq<byte>, b: seq<byte>, c: seq<byte>)
    ensures a + b + c == a + (b + c)
  {
  }

  lemma Cancel(front: seq<byte>, s: seq<byte>, t: seq<byte>)
    requires front + s == front + t
    ensures s == t
  {
    assert s == (front + s)[|front|..] && t == (front + t)[|front|..];
  }

  lemma {:induction false} FlattenSplit(a: seq<Record>, b: seq<Record>)
    ensures Flatten(a + b) == Flatten(a) + Flatten(b)
  {
    if b == [] {
      assert a + b == a;
    } else {
      var front, r := b[..|b| - 1], b[|b| - 1];
      FlattenSplit(a, front);
      assert a + b == (a + front) + [r] && b == front + [r];
      FlattenSnoc(a + front, r);
      FlattenSnoc(front, r);
      Assoc(Flatten(a), Flatten(front), Bytes(r));
      hide Flatten, Bytes;
    }
  }

  /** The first record comes first. */
  lemma FlattenHead(rs: seq<Record>)
    requires rs != []
    ensures Flatten(rs) == Bytes(rs[0]) + Flatten(rs[1..])
  {
    FlattenSplit([rs[0]], rs[1..]);
    assert [rs[0]] + rs[1..] == rs;
    FlattenSnoc([], rs[0]);
    assert [] + [rs[0]] == [rs[0]] && Flatten([]) + Bytes(rs[0]) == Bytes(rs[0]);
  }

  /** Two framed records that start the same bytes are the same record. */
  lemma SameFrame(a: Record, x: seq<byte>, b: Record, y: seq<byte>)
    requires Framed(a) && Framed(b) && Bytes(a) + x == Bytes(b) + y
    ensures a == b && x == y
  {
    var s, t := Bytes(a) + x, Bytes(b) + y;
    assert a.header == s[..4] && b.header == t[..4];
    var n := |a.body|;
    assert |b.body| == n;
    assert a.body == s[4..4 + n] && b.body == t[4..4 + n];
    assert a.tag == s[4 + n..4 + n + TAG_BYTES] && b.tag == t[4 + n..4 + n + TAG_BYTES];
    assert a == b;
    Cancel(Bytes(a), x, y);
  }

  predicate AllFramed(rs: seq<Record>) {
    forall i :: 0 <= i < |rs| ==> Framed(rs[i])
  }

  lemma BytesNonempty(r: Record)
    requires Framed(r)
    ensures |Bytes(r)| >= 4 && Bytes(r)[..4] == r.header
  {
  }

  /** Framed records at the start of a flattened list are that list's own. */
  lemma {:induction false} Split(raw: seq<Record>, rest: seq<byte>, rs: seq<Record>)
    requires AllFramed(raw) && AllFramed(rs) && Flatten(raw) + rest == Flatten(rs)
    ensures |raw| <= |rs| && raw == rs[..|raw|] && rest == Flatten(rs[|raw|..])
    decreases |raw|
  {
    if raw == [] {
      assert Flatten(raw) + rest == rest && rs[0..] == rs;
    } else {
      SplitHead(raw, rest, rs);
      Split(raw[1..], rest, rs[1..]);
      assert rs[1..][|raw| - 1..] == rs[|raw|..];
      assert raw == [raw[0]] + raw[1..] && rs[..|raw|] == [rs[0]] + rs[1..][..|raw| - 1];
    }
  }

  lemma SplitHead(raw: seq<Record>, rest: seq<byte>, rs: seq<Record>)
    requires AllFramed(raw) && AllFramed(rs) && Flatten(raw) + rest == Flatten(rs) && raw != []
    ensures rs != [] && raw[0] == rs[0] && Flatten(raw[1..]) + rest == Flatten(rs[1..])
  {
    FlattenHead(raw);
    BytesNonempty(raw[0]);
    assert Flatten([]) == [];
    hide Flatten, Bytes, Framed;
    FlattenHead(rs);
    Assoc(Bytes(raw[0]), Flatten(raw[1..]), rest);
    SameFrame(raw[0], Flatten(raw[1..]) + rest, rs[0], Flatten(rs[1..]));
  }

  /** The bytes `s` are the start of what the writer of `c` sends for `plains`. */
  ghost predicate Sent(c: Channel, plains: seq<seq<byte>>, s: seq<byte>) {
    && Sound(c.suite) && Fit(plains) && |plains| <= MAX_RECORDS
    && (forall i :: 0 <= i < |plains| ==> !AllOnes(At(c.stream, i)))
    && s <= Wire(c, plains)
  }

  lemma SealsFramed(c: Channel, plains: seq<seq<byte>>)
    requires Sound(c.suite) && Fit(plains)
    ensures AllFramed(SealAll(c, plains))
  {
    forall i | 0 <= i < |plains|
      ensures Framed(SealAll(c, plains)[i])
    {
      SealOpens(c, i, plains[i]);
    }
  }

  /** Whatever records have been framed so far are the writer's, and what follows starts its next ones. */
  lemma Align(c: Channel, plains: seq<seq<byte>>, raw: seq<Record>, rest: seq<byte>) returns (tail: seq<byte>)
    requires Sent(c, plains, c.stream + Flatten(raw) + rest) && AllFramed(raw)
    ensures |raw| <= |plains| && raw == SealAll(c, plains)[..|raw|]
    ensures rest + tail == Flatten(SealAll(c, plains)[|raw|..])
  {
    var seals := SealAll(c, plains);
    SealsFramed(c, plains);
    tail := AlignBytes(c, plains, Flatten(raw), rest);
    hide Flatten, AllFramed, Sent;
    Split(raw, rest + tail, seals);
  }

  /** What the writer sends after its nonce. */
  lemma AlignBytes(c: Channel, plains: seq<seq<byte>>, s: seq<byte>, rest: seq<byte>) returns (tail: seq<byte>)
    requires Sent(c, plains, c.stream + s + rest)
    ensures s + (rest + tail) == Flatten(SealAll(c, plains))
  {
    var all := c.stream + s + rest;
    var wire := Wire(c, plains);
    hide Flatten, Sound, Fit, AllOnes, At;
    assert plains != [] && wire == c.stream + Flatten(SealAll(c, plains));
    tail := wire[|all|..];
    assert wire == all + tail;
    assert all + tail == c.stream + (s + (rest + tail));
    Cancel(c.stream, s + (rest + tail), Flatten(SealAll(c, plains)));
  }

  /** The next record the writer sends, when some of it is there. */
  lemma NextSeal(c: Channel, plains: seq<seq<byte>>, raw: seq<Record>, rest: seq<byte>)
    returns (tail: seq<byte>, more: seq<byte>)
    requires Sent(c, plains, c.stream + Flatten(raw) + rest) && AllFramed(raw) && rest != []
    ensures |raw| < |plains| && rest + tail == Bytes(Seal(c, |raw|, plains[|raw|])) + more
  {
    tail := Align(c, plains, raw, rest);
    var rs := SealAll(c, plains)[|raw|..];
    assert Flatten([]) == [];
    hide Flatten, Bytes, Sent, Seal;
    assert rs != [];
    FlattenHead(rs);
    more := Flatten(rs[1..]);
  }

  /** A complete header is the header of the writer's next record. */
  lemma NextHeader(c: Channel, plains: seq<seq<byte>>, raw: seq<Record>, header: seq<byte>)
    requires Sent(c, plains, c.stream + Flatten(raw) + header) && AllFramed(raw) && |header| == 4
    ensures |raw| < |plains| && header == Header(|plains[|raw|]|)
  {
    var tail, more := NextSeal(c, plains, raw, header);
    SealOpens(c, |raw|, plains[|raw|]);
    var r := Seal(c, |raw|, plains[|raw|]);
    BytesNonempty(r);
    hide Bytes, Sent, Flatten;
    assert header == (header + tail)[..4] && Bytes(r)[..4] == (Bytes(r) + more)[..4];
  }

  /** A complete record is the writer's next one. */
  lemma NextRecord(c: Channel, plains: seq<seq<byte>>, raw: seq<Record>, r: Record)
    requires Sent(c, plains, c.stream + Flatten(raw) + Bytes(r)) && AllFramed(raw) && Framed(r)
    ensures |raw| < |plains| && r == Seal(c, |raw|, plains[|raw|]) && Authentic(c, |raw|, r)
  {
    BytesNonempty(r);
    var tail, more := NextSeal(c, plains, raw, Bytes(r));
    SealOpens(c, |raw|, plains[|raw|]);
    hide Bytes, Sent, Flatten, Framed;
    SameFrame(r, tail, Seal(c, |raw|, plains[|raw|]), more);
  }
}
