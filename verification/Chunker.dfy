/** Splitting a bundle into sealed chunks while reading it from an unreliable source. */
module Chunker {
  import opened Bytes
  import opened Primitives
  import opened Text
  import opened Aead

  const CHUNK_SIZE: nat := 4194304

  datatype Reply = Interrupted | Failed | AtMost(count: nat)

  datatype ReadResult = Got(count: nat) | WasInterrupted | Broke

  datatype ReadError = ReadFailed

  /** A seekable source. `script` says how its next reads behave: cut short, interrupted,
      or failing. Once it is used up, reads return all they can. */
  class Reader {
    const data: Bytes
    var pos: nat
    var script: seq<Reply>

    ghost predicate Valid()
      reads this
    {
      pos <= |data|
    }

    constructor (data: Bytes, pos: nat, script: seq<Reply>)
      requires pos <= |data|
      ensures Valid() && this.data == data && this.pos == pos && this.script == script
    {
      this.data, this.pos, this.script := data, pos, script;
    }

    /** Zero bytes mean the end of the data (or no room), as for any reader. */
    method Read(buf: array<byte>, from: nat) returns (r: ReadResult)
      requires Valid() && from <= buf.Length
      modifies this`pos, this`script, buf
      ensures Valid() && |script| <= |old(script)| && (Failed in script ==> Failed in old(script))
      ensures buf[..from] == old(buf[..from])
      ensures r.Got? ==>
                && r.count <= buf.Length - from && pos == old(pos) + r.count
                && buf[from..from + r.count] == data[old(pos)..pos]
                && (r.count == 0 <==> from == buf.Length || old(pos) == |data|)
      ensures r.WasInterrupted? ==> pos == old(pos) && |script| < |old(script)|
      ensures r.Broke? ==> Failed in old(script)
    {
      var limit := buf.Length - from;
      if script != [] {
        var reply := script[0];
        script := script[1..];
        match reply {
          case Interrupted => return WasInterrupted;
          case Failed => return Broke;
          case AtMost(k) => limit := Min(limit, Max(k, 1));
        }
      }
      var n := Min(limit, |data| - pos);
      forall j | 0 <= j < n {
        buf[from + j] := data[pos + j];
      }
      pos := pos + n;
      r := Got(n);
    }

    method Length() returns (n: nat)
      requires Valid()
      modifies this`pos
      ensures Valid() && n == |data| && pos == |data|
    {
      pos := |data|;
      n := pos;
    }

    method Rewind()
      modifies this`pos
      ensures Valid() && pos == 0
    {
      pos := 0;
    }
  }

  // ---- What the chunks are ---------------------------------------------------------------------

  function Pieces(len: nat): nat { if len == 0 then 1 else (len + CHUNK_SIZE - 1) / CHUNK_SIZE }

  /** The number of chunks is kept in 32 bits. */
  function ChunkCount(len: nat): u32 { Pieces(len) % TWO_TO_32 }

  function Edge(data: Bytes, i: nat): (e: nat)
    ensures e <= |data|
  {
    Min(i * CHUNK_SIZE, |data|)
  }

  function Piece(data: Bytes, i: nat): (p: Bytes)
    ensures |p| <= CHUNK_SIZE
  {
    data[Edge(data, i)..Edge(data, i + 1)]
  }

  datatype Chunk = Chunk(id: Digest, index: u32, count: u32, pushId: string, ciphertext: Bytes)

  /** What identifies a push: repository, correlation id, data key, and the random nonces. */
  datatype Framing = Framing(repo: Bytes32, pushId: string, dek: Bytes32, nonces: nat -> Bytes12)

  function ChunkAad(repo: Bytes32, pushId: string, i: u32, n: u32): Bytes {
    DomainLabel("bundle-chunk") + Ascii("|" + Hex(repo) + ":" + pushId + ":" + (Decimal(i) + ":" + Decimal(n)))
  }

  function ChunkOf(s: Suite, f: Framing, data: Bytes, i: u32, n: u32): Chunk {
    var ct := Seal(s, f.dek, ChunkAad(f.repo, f.pushId, i, n), Piece(data, i), f.nonces(i));
    Chunk(s.sha512(ct), i, n, f.pushId, ct)
  }

  function ChunksOf(s: Suite, f: Framing, data: Bytes): (r: seq<Chunk>)
    ensures |r| == ChunkCount(|data|)
  {
    var n := ChunkCount(|data|);
    seq(n, i requires 0 <= i < n => ChunkOf(s, f, data, i, n))
  }

  // ---- The loops ---------------------------------------------------------------------------------

  lemma Extends(data: Bytes, start: nat, at: nat, n: nat)
    requires start <= at && at + n <= |data|
    ensures data[start..at] + data[at..at + n] == data[start..at + n]
  {
  }

  method FillBuffer(reader: Reader, buf: array<byte>) returns (r: Result<nat, ReadError>)
    requires reader.Valid()
    modifies reader`pos, reader`script, buf
    ensures reader.Valid() && (Failed in reader.script ==> Failed in old(reader.script))
    ensures r.Err? ==> Failed in old(reader.script)
    ensures r.Ok? ==>
              && r.value == Min(buf.Length, |reader.data| - old(reader.pos))
              && reader.pos == old(reader.pos) + r.value
              && buf[..r.value] == reader.data[old(reader.pos)..reader.pos]
  {
    var filled: nat := 0;
    ghost var start := reader.pos;
    while filled < buf.Length
      invariant reader.Valid() && (Failed in reader.script ==> Failed in old(reader.script))
      invariant filled <= buf.Length && reader.pos == start + filled
      invariant buf[..filled] == reader.data[start..reader.pos]
      decreases |reader.script| + (buf.Length - filled)
    {
      ghost var before := buf[..filled];
      var got := reader.Read(buf, filled);
      match got {
        case Got(n) =>
          assert buf[..filled + n] == before + buf[filled..filled + n];
          Extends(reader.data, start, start + filled, n);
          if n == 0 { break; }
          filled := filled + n;
        case WasInterrupted =>
        case Broke => return Err(ReadFailed);
      }
    }
    r := Ok(filled);
  }

  /** Whatever the reads do short of failing, the chunks are those of the data. */
  method BundleChunksSeek(s: Suite, f: Framing, reader: Reader) returns (r: Result<seq<Chunk>, ReadError>)
    requires reader.Valid()
    modifies reader`pos, reader`script
    ensures r.Err? ==> Failed in old(reader.script)
    ensures r.Ok? ==> r.value == ChunksOf(s, f, reader.data)
  {
    var len := reader.Length();
    reader.Rewind();
    var n := ChunkCount(len);
    var out: seq<Chunk> := [];
    var buf := new byte[CHUNK_SIZE](_ => 0);
    for i := 0 to n
      invariant reader.Valid() && (Failed in reader.script ==> Failed in old(reader.script))
      invariant reader.pos == Edge(reader.data, i)
      invariant |out| == i && forall j :: 0 <= j < i ==> out[j] == ChunkOf(s, f, reader.data, j, n)
    {
      var read := FillBuffer(reader, buf);
      if read.Err? { return Err(ReadFailed); }
      var filled := read.value;
      assert buf[..filled] == Piece(reader.data, i);
      var ct := SealWithNonce(s, f.dek, ChunkAad(f.repo, f.pushId, i, n), buf[..filled], f.nonces(i));
      forall j | 0 <= j < filled {
        buf[j] := 0;
      }
      out := out + [Chunk(s.sha512(ct), i, n, f.pushId, ct)];
    }
    r := Ok(out);
  }

  // ---- The pieces partition the data ----------------------------------------------------------------

  function Joined(data: Bytes, n: nat): Bytes {
    if n == 0 then [] else Joined(data, n - 1) + Piece(data, n - 1)
  }

  lemma {:induction false} PiecesJoin(data: Bytes, n: nat)
    ensures Joined(data, n) == data[..Edge(data, n)]
  {
    if n > 0 { PiecesJoin(data, n - 1); }
  }

  lemma LastEdge(len: nat)
    ensures ChunkCount(len) * CHUNK_SIZE >= len <==> Pieces(len) < TWO_TO_32
  {
    var p, n := Pieces(len), ChunkCount(len);
    assert (p - 1) * CHUNK_SIZE <= len <= p * CHUNK_SIZE;
    assert p > 1 ==> (p - 1) * CHUNK_SIZE < len;
    if p >= TWO_TO_32 { assert n <= p - 1; }
  }

  /** All but the last piece are full, and only an empty input has an empty piece. */
  lemma PieceSizes(data: Bytes, i: nat)
    requires i < Pieces(|data|)
    ensures i < Pieces(|data|) - 1 ==> |Piece(data, i)| == CHUNK_SIZE
    ensures Piece(data, i) == [] <==> data == []
  {
  }

  /** The chunks are consecutive pieces, all full but the last and none empty unless the
      input is. They carry the whole input, in order, exactly when their true number fits
      32 bits. */
  lemma ChunksCarryAllIff(data: Bytes)
    ensures var n := ChunkCount(|data|);
            && (Joined(data, n) == data <==> Pieces(|data|) < TWO_TO_32)
            && (forall i :: 0 <= i < n - 1 ==> |Piece(data, i)| == CHUNK_SIZE)
            && (forall i :: 0 <= i < n ==> (Piece(data, i) == [] <==> data == []))
  {
    var n := ChunkCount(|data|);
    PiecesJoin(data, n);
    LastEdge(|data|);
    assert data[..|data|] == data;
    assert |data[..Edge(data, n)]| == Edge(data, n);
    forall i | 0 <= i < n
      ensures i < n - 1 ==> |Piece(data, i)| == CHUNK_SIZE
      ensures Piece(data, i) == [] <==> data == []
    {
      PieceSizes(data, i);
    }
  }

  /** At the limit the count wraps to zero and nothing is sealed at all. */
  lemma LargestBundleIsLost(data: Bytes)
    requires |data| == TWO_TO_32 * CHUNK_SIZE
    ensures ChunkCount(|data|) == 0 && Joined(data, ChunkCount(|data|)) == [] != data
  {
  }

  // ---- Position and count are bound ---------------------------------------------------------------------

  lemma ColonFollows(a: string, b: string)
    requires ':' !in a
    ensures var s := a + ":" + b; s[|a|] == ':' && forall k :: 0 <= k < |a| ==> s[k] != ':'
  {
    forall k | 0 <= k < |a|
      ensures (a + ":" + b)[k] != ':'
    {
      assert a[k] in a;
    }
  }

  lemma SplitAtColon(a: string, b: string, c: string, d: string)
    requires ':' !in a && ':' !in c && a + ":" + b == c + ":" + d
    ensures a == c && b == d
  {
    var s, t := a + ":" + b, c + ":" + d;
    ColonFollows(a, b);
    ColonFollows(c, d);
    assert a == s[..|a|] && c == t[..|c|] && b == s[|a| + 1..] && d == t[|c| + 1..];
  }

  /** Within one push, the associated data of two chunks differ. */
  lemma ChunkAadInjective(repo: Bytes32, pushId: string, i: u32, n: u32, j: u32, m: u32)
    requires ChunkAad(repo, pushId, i, n) == ChunkAad(repo, pushId, j, m)
    ensures i == j && n == m
  {
    var front := "|" + Hex(repo) + ":" + pushId + ":";
    var s, t := Decimal(i) + ":" + Decimal(n), Decimal(j) + ":" + Decimal(m);
    AsciiOfSum(front, s);
    AsciiOfSum(front, t);
    var tag := DomainLabel("bundle-chunk");
    SplitEqual(tag, Ascii(front) + Ascii(s), tag, Ascii(front) + Ascii(t));
    SplitEqual(Ascii(front), Ascii(s), Ascii(front), Ascii(t));
    AsciiInjective(s, t);
    SplitAtColon(Decimal(i), Decimal(n), Decimal(j), Decimal(m));
    DecimalInjective(i, j);
    DecimalInjective(n, m);
  }

  /** Opening a chunk at another position, or among another number of chunks, yields two
      different MAC inputs with one tag. */
  lemma MovedChunkIsTagCollision(s: Suite, f: Framing, data: Bytes, i: u32, n: u32, j: u32, m: u32)
    requires i != j || n != m
    requires Open(s, f.dek, ChunkAad(f.repo, f.pushId, j, m), ChunkOf(s, f, data, i, n).ciphertext).Ok?
    ensures var here, there := ChunkAad(f.repo, f.pushId, i, n), ChunkAad(f.repo, f.pushId, j, m);
            var body := Masked(s, f.dek, here, f.nonces(i), COMMIT_BLOCK + Piece(data, i));
            && here + body != there + body
            && Tag(s, MacKey(s, f.dek), here, body) == Tag(s, MacKey(s, f.dek), there, body)
  {
    var here, there := ChunkAad(f.repo, f.pushId, i, n), ChunkAad(f.repo, f.pushId, j, m);
    if here == there { ChunkAadInjective(f.repo, f.pushId, i, n, j, m); }
    OtherAadIsTagCollision(s, f.dek, here, there, Piece(data, i), f.nonces(i));
  }
}
