/** The view of a ref head that the log and the clients need: bytes to store, a way
    back, and a hash. The store and chain results hold for every lossless format;
    the TLS-presentation codec is one. */
module HeadFormats {
  import opened Bytes
  import opened Primitives
  import opened RefHeads

  type HashFn = RefHead -> Digest

  datatype HeadFormat = HeadFormat(encode: RefHead -> Bytes, decode: Bytes -> Option<RefHead>, hash: HashFn)

  ghost predicate Lossless(f: HeadFormat) {
    forall h :: f.decode(f.encode(h)) == Some(h)
  }

  function Tls(sha: Bytes -> Digest): HeadFormat {
    HeadFormat(h => Encode(h),
               b => if Decode(b).Ok? then Some(Decode(b).value) else None,
               h => HeadHash(sha, h))
  }

  lemma TlsIsLossless(sha: Bytes -> Digest)
    ensures Lossless(Tls(sha))
  {
    forall h: RefHead
      ensures Tls(sha).decode(Tls(sha).encode(h)) == Some(h)
    {
      RoundTrip(h);
    }
  }

  /** No two different heads of the finite set `heads` have one hash. */
  ghost predicate NoCollision(hash: HashFn, heads: set<RefHead>) {
    forall g, h :: g in heads && h in heads && hash(g) == hash(h) ==> g == h
  }

  function Encodings(heads: set<RefHead>): set<Bytes> {
    set h | h in heads :: Encode(h)
  }

  /** A collision of head hashes is a SHA-512 collision of their encodings. */
  lemma CollisionsAreShaCollisions(sha: Bytes -> Digest, heads: set<RefHead>)
    requires InjectiveOn(sha, Encodings(heads))
    ensures NoCollision(Tls(sha).hash, heads)
  {
    forall g, h | g in heads && h in heads && Tls(sha).hash(g) == Tls(sha).hash(h)
      ensures g == h
    {
      assert Encode(g) in Encodings(heads) && Encode(h) in Encodings(heads);
      EncodeInjective(g, h);
    }
  }

  // ---- Hash chains ---------------------------------------------------------------

  function LastOf(chain: seq<RefHead>): Option<RefHead> {
    if chain == [] then None else Some(chain[|chain| - 1])
  }

  function HashOf(hash: HashFn, h: Option<RefHead>): Digest {
    match h
    case None => ZERO_HASH
    case Some(x) => hash(x)
  }

  /** The hash that position `i` has to name. */
  function PrevHash(hash: HashFn, chain: seq<RefHead>, i: nat): Digest
    requires i <= |chain|
  {
    if i == 0 then ZERO_HASH else hash(chain[i - 1])
  }

  /** Sequence numbers 1, 2, ... and each head naming the hash of its predecessor. */
  ghost predicate Chained(hash: HashFn, chain: seq<RefHead>) {
    && (forall i :: 0 <= i < |chain| ==> chain[i].seqNo == i + 1)
    && (forall i {:trigger PrevHash(hash, chain, i)} :: 0 <= i < |chain| ==> chain[i].prev == PrevHash(hash, chain, i))
  }

  lemma ChainedPrefix(hash: HashFn, chain: seq<RefHead>, n: nat)
    requires Chained(hash, chain) && n <= |chain|
    ensures Chained(hash, chain[..n])
  {
    var front := chain[..n];
    forall i | 0 <= i < n
      ensures front[i].prev == PrevHash(hash, front, i)
    {
      assert front[i] == chain[i] && chain[i].prev == PrevHash(hash, chain, i);
    }
  }

  function SetOf(heads: seq<RefHead>): set<RefHead> {
    set h | h in heads
  }
}
