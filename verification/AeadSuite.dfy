/**
 The record format of the encrypted control channel, over an abstract cipher suite:
 what a writer puts on the wire and what a record decrypts to.
 */
module AeadSuite {
  import opened Efrp
  import opened AeadNonce

  const TAG_BYTES: nat := 16
  const MAX_PLAINTEXT: nat := 0x1_0000

  /** AES-256-GCM as a stream cipher and a tag over nonce, associated data and ciphertext, and SHA-256. */
  datatype Suite = Suite(
    encrypt: (seq<byte>, seq<byte>, seq<byte>) -> seq<byte>,
    decrypt: (seq<byte>, seq<byte>, seq<byte>) -> seq<byte>,
    tag: (seq<byte>, seq<byte>, seq<byte>, seq<byte>) -> seq<byte>,
    hash: seq<byte> -> seq<byte>)

  /**
   What the primitives promise: decryption undoes encryption, keeps lengths and works from the
   front; a tag has sixteen bytes.  The hash is taken to have no collisions, and so its length
   is left open.
   */
  ghost predicate Sound(c: Suite) {
    && (forall key, nonce, p :: |c.encrypt(key, nonce, p)| == |p|)
    && (forall key, nonce, p :: c.decrypt(key, nonce, c.encrypt(key, nonce, p)) == p)
    && (forall key, nonce, x :: |c.decrypt(key, nonce, x)| == |x|)
    && (forall key, nonce, x, n :: 0 <= n <= |x| ==> c.decrypt(key, nonce, x[..n]) == c.decrypt(key, nonce, x)[..n])
    && (forall key, nonce, a, x :: |c.tag(key, nonce, a, x)| == TAG_BYTES)
    && (forall x, y :: c.hash(x) == c.hash(y) ==> x == y)
  }

  /** The promises can be kept. */
  lemma SoundExists()
    ensures exists c: Suite :: Sound(c)
  {
    var same := (key: seq<byte>, nonce: seq<byte>, x: seq<byte>) => x;
    var zeros: seq<byte> := [0, 0, 0, 0, 0, 0, 0, 0, 0, 0, 0, 0, 0, 0, 0, 0];
    var c := Suite(same, same, (key, nonce, a, x) => zeros, x => x);
    assert Sound(c);
  }

  /** One direction of a session: the keys both ends share, and the nonce the writer chose. */
  datatype Channel = Channel(suite: Suite, key: seq<byte>, stream: Nonce)

  function Header(n: nat): (h: seq<byte>)
    requires n <= MAX_PLAINTEXT
    ensures |h| == 4 && Load32(h) == n + TAG_BYTES
  {
    Store32(n + TAG_BYTES)
  }

  /** The associated data of a record. */
  function Aad(stream: Nonce, header: seq<byte>): seq<byte> {
    stream + header
  }

  /** A record as it travels: header, ciphertext, tag. */
  datatype Record = Record(header: seq<byte>, body: seq<byte>, tag: seq<byte>)

  function Bytes(r: Record): seq<byte> {
    r.header + r.body + r.tag
  }

  /** Record `k` for the plaintext `p`. */
  function Seal(c: Channel, k: nat, p: seq<byte>): Record
    requires |p| <= MAX_PLAINTEXT
  {
    var x := c.suite.encrypt(c.key, At(c.stream, k), p);
    Record(Header(|p|), x, c.suite.tag(c.key, At(c.stream, k), Aad(c.stream, Header(|p|)), x))
  }

  /** The tag of record `k` is right for its header and body. */
  predicate Authentic(c: Channel, k: nat, r: Record) {
    c.suite.tag(c.key, At(c.stream, k), Aad(c.stream, r.header), r.body) == r.tag
  }

  function Open(c: Channel, k: nat, r: Record): seq<byte> {
    c.suite.decrypt(c.key, At(c.stream, k), r.body)
  }

  /** A record as framed on the wire: its header announces its body. */
  predicate Framed(r: Record) {
    |r.header| == 4 && |r.tag| == TAG_BYTES && Load32(r.header) == |r.body| + TAG_BYTES && |r.body| <= MAX_PLAINTEXT
  }

  lemma SealParts(c: Channel, k: nat, p: seq<byte>)
    requires Sound(c.suite) && |p| <= MAX_PLAINTEXT
    ensures var x := c.suite.encrypt(c.key, At(c.stream, k), p);
            var t := c.suite.tag(c.key, At(c.stream, k), Aad(c.stream, Header(|p|)), x);
            |x| == |p| && |t| == TAG_BYTES && Seal(c, k, p) == Record(Header(|p|), x, t)
  {
  }

  lemma SealOpens(c: Channel, k: nat, p: seq<byte>)
    requires Sound(c.suite) && |p| <= MAX_PLAINTEXT
    ensures var r := Seal(c, k, p); Framed(r) && Authentic(c, k, r) && Open(c, k, r) == p
  {
  }

  predicate Fit(plains: seq<seq<byte>>) {
    forall i :: 0 <= i < |plains| ==> |plains[i]| <= MAX_PLAINTEXT
  }

  lemma FitSnoc(plains: seq<seq<byte>>, p: seq<byte>)
    requires Fit(plains) && |p| <= MAX_PLAINTEXT
    ensures Fit(plains + [p])
  {
  }

  function SealAll(c: Channel, plains: seq<seq<byte>>): (rs: seq<Record>)
    requires Fit(plains)
    ensures |rs| == |plains| && forall i :: 0 <= i < |plains| ==> rs[i] == Seal(c, i, plains[i])
  {
    seq(|plains|, i requires 0 <= i < |plains| => Seal(c, i, plains[i]))
  }

  /** Records one after the other. */
  function Flatten(rs: seq<Record>): seq<byte> {
    if rs == [] then [] else Flatten(rs[..|rs| - 1]) + Bytes(rs[|rs| - 1])
  }

  /** Everything a writer sends for these plaintexts: the stream nonce goes before the first record. */
  function Wire(c: Channel, plains: seq<seq<byte>>): seq<byte>
    requires Fit(plains)
  {
    if plains == [] then [] else c.stream + Flatten(SealAll(c, plains))
  }

  lemma FlattenSnoc(rs: seq<Record>, r: Record)
    ensures Flatten(rs + [r]) == Flatten(rs) + Bytes(r)
  {
    assert (rs + [r])[..|rs|] == rs;
  }

  lemma SealAllSnoc(c: Channel, plains: seq<seq<byte>>, p: seq<byte>)
    requires Fit(plains) && |p| <= MAX_PLAINTEXT
    ensures Fit(plains + [p]) && SealAll(c, plains + [p]) == SealAll(c, plains) + [Seal(c, |plains|, p)]
  {
    hide Seal;
  }

  lemma WireSnoc(c: Channel, plains: seq<seq<byte>>, p: seq<byte>)
    requires Fit(plains) && |p| <= MAX_PLAINTEXT
    ensures Fit(plains + [p])
    ensures Wire(c, plains + [p]) ==
            Wire(c, plains) + (if plains == [] then c.stream else []) + Bytes(Seal(c, |plains|, p))
  {
    hide Seal, Flatten, Bytes, Fit;
    var front, r := SealAll(c, plains), Seal(c, |plains|, p);
    SealAllSnoc(c, plains, p);
    FlattenSnoc(front, r);
    hide SealAll;
    if plains == [] {
      FlattenNothing(front);
      assert [] + Bytes(r) == Bytes(r) && [] + c.stream == c.stream;
    } else {
      assert c.stream + Flatten(front) + [] == c.stream + Flatten(front);
      assert c.stream + (Flatten(front) + Bytes(r)) == c.stream + Flatten(front) + Bytes(r);
    }
  }

  lemma FlattenNothing(rs: seq<Record>)
    requires |rs| == 0
    ensures Flatten(rs) == []
  {
  }
}
