/** The streaming BLAKE2b of src/hash.rs, against the hash of a whole message that
    section 3.3 of RFC 7693 gives. The compression function is left open. */
module Blake2b {
  import opened Bytes

  /** Eight words. */
  type State = seq<nat>

  /** The compression function: the state, a block, the count of bytes up to its end,
      and whether it is the last. */
  type Compress = (State, seq<byte>, nat, bool) -> State

  const BLOCK := 128

  ghost predicate EightWords(f: Compress) {
    forall h, b, n, last :: |f(h, b, n, last)| == 8
  }

  // ----- the hash of a message -----

  /** The state after the first `n` blocks of a message that goes on. */
  function Blocks(f: Compress, h: State, msg: seq<byte>, n: nat): State
    requires BLOCK * n <= |msg|
  {
    if n == 0 then h else f(Blocks(f, h, msg, n - 1), msg[BLOCK * (n - 1)..BLOCK * n], BLOCK * n, false)
  }

  function Padded(block: seq<byte>): (b: seq<byte>)
    requires |block| <= BLOCK
    ensures |b| == BLOCK
  {
    block + seq(BLOCK - |block|, _ => 0 as byte)
  }

  /** The number of blocks before the last, which is never empty unless the message is. */
  function Before(len: nat): (n: nat)
    ensures BLOCK * n <= len <= BLOCK * n + BLOCK && (len > 0 ==> BLOCK * n < len)
  {
    if len == 0 then 0 else (len - 1) / BLOCK
  }

  /** The state a whole message leaves. */
  function Hash(f: Compress, h: State, msg: seq<byte>): (r: State)
    ensures EightWords(f) ==> |r| == 8
  {
    var n := Before(|msg|);
    f(Blocks(f, h, msg, n), Padded(msg[BLOCK * n..]), |msg|, true)
  }

  /** The words of a state, least significant byte first. */
  function Words(h: State): (s: seq<byte>)
    ensures |s| == 8 * |h|
  {
    if h == [] then [] else Le(h[0], 8) + Words(h[1..])
  }

  /** Blocks do not depend on what follows them. */
  lemma {:induction false} BlocksOfPrefix(f: Compress, h: State, msg: seq<byte>, more: seq<byte>, n: nat)
    requires BLOCK * n <= |msg|
    ensures Blocks(f, h, msg + more, n) == Blocks(f, h, msg, n)
  {
    if n > 0 {
      BlocksOfPrefix(f, h, msg, more, n - 1);
      assert (msg + more)[BLOCK * (n - 1)..BLOCK * n] == msg[BLOCK * (n - 1)..BLOCK * n];
    }
  }

  lemma {:induction false} BeforeIs(len: nat, n: nat)
    requires BLOCK * n <= len <= BLOCK * n + BLOCK && (BLOCK * n == len ==> len == 0)
    ensures Before(len) == n
  {
  }

  // ----- the stream -----

  class Stream {
    const f: Compress
    const start: State
    var h: State
    /** The bytes hashed so far, not counting what `buf` holds. */
    var counter: nat
    const buf: array<byte>
    var bufLen: nat
    const outLen: nat
    /** Everything fed so far. */
    ghost var fed: seq<byte>

    constructor (f: Compress, start: State, outLen: nat)
      requires EightWords(f) && 1 <= outLen <= 64
      ensures Valid() && fed == [] && this.f == f && this.start == start && this.outLen == outLen && fresh(buf)
    {
      this.f, this.start, this.outLen := f, start, outLen;
      h, counter, bufLen := start, 0, 0;
      buf := new byte[BLOCK](_ => 0);
      fed := [];
    }

    /** The blocks before the buffer are compressed, and the buffer holds the rest: a
        full one is kept until more data follows. */
    ghost predicate Valid()
      reads this, buf
    {
      && EightWords(f) && 1 <= outLen <= 64
      && buf.Length == BLOCK && bufLen <= BLOCK
      && counter % BLOCK == 0 && counter + bufLen == |fed|
      && (bufLen == 0 ==> fed == [])
      && buf[..bufLen] == fed[counter..]
      && h == Blocks(f, start, fed, counter / BLOCK)
    }

    /** A full buffer is compressed, now that more data follows. */
    method Flush()
      requires Valid() && bufLen == BLOCK
      modifies this`h, this`counter, this`bufLen
      ensures counter % BLOCK == 0 && counter == |fed| && bufLen == 0 && h == Blocks(f, start, fed, counter / BLOCK)
    {
      hide Blocks;
      ghost var n := counter / BLOCK;
      NextBlock(f, start, fed, n);
      assert buf[..] == buf[..BLOCK] == fed[BLOCK * n..];
      counter := counter + BLOCK;
      assert counter == BLOCK * (n + 1) && counter / BLOCK == n + 1;
      h := f(h, buf[..], counter, false);
      bufLen := 0;
    }

    /** Bytes that fit the buffer. */
    method Fill(data: seq<byte>)
      requires EightWords(f) && 1 <= outLen <= 64
      requires buf.Length == BLOCK && bufLen + |data| <= BLOCK && data != [] && counter % BLOCK == 0
      requires counter + bufLen == |fed| && buf[..bufLen] == fed[counter..] && h == Blocks(f, start, fed, counter / BLOCK)
      modifies this`bufLen, this`fed, buf
      ensures Valid() && fed == old(fed) + data
    {
      hide Blocks;
      BlocksOfPrefix(f, start, fed, data, counter / BLOCK);
      forall i | 0 <= i < |data| {
        buf[bufLen + i] := data[i];
      }
      assert buf[..bufLen + |data|] == old(fed)[counter..] + data;
      bufLen := bufLen + |data|;
      fed := fed + data;
    }

    /** `update`. */
    method Update(data0: seq<byte>)
      requires Valid()
      modifies this`h, this`counter, this`bufLen, this`fed, buf
      ensures Valid() && fed == old(fed) + data0
    {
      hide Blocks;
      var data := data0;
      while data != []
        invariant Valid() && fed + data == old(fed) + data0
        decreases |data|
      {
        if bufLen == BLOCK {
          Flush();
        }
        var n := if |data| < BLOCK - bufLen then |data| else BLOCK - bufLen;
        assert fed + data == fed + data[..n] + data[n..];
        Fill(data[..n]);
        data := data[n..];
      }
      assert fed + [] == fed;
    }

    /** `finalize_into`: the hash of everything fed, whatever the pieces. */
    method Finalize() returns (out: seq<byte>)
      requires Valid()
      modifies this`h, this`counter, buf
      ensures out == Words(Hash(f, start, fed))[..outLen]
    {
      hide Blocks, Words;
      ghost var n := counter / BLOCK;
      BeforeIs(|fed|, n);
      counter := counter + bufLen;
      forall i | bufLen <= i < BLOCK {
        buf[i] := 0;
      }
      assert buf[..] == Padded(fed[BLOCK * n..]);
      h := f(h, buf[..], counter, true);
      out := Words(h)[..outLen];
    }
  }

  lemma {:induction false} NextBlock(f: Compress, h: State, msg: seq<byte>, n: nat)
    requires |msg| == BLOCK * (n + 1)
    ensures Blocks(f, h, msg, n + 1) == f(Blocks(f, h, msg, n), msg[BLOCK * n..], BLOCK * (n + 1), false)
  {
    assert msg[BLOCK * n..BLOCK * (n + 1)] == msg[BLOCK * n..];
  }

  /** Feeding a message in pieces, one after another. */
  method HashInPieces(f: Compress, start: State, pieces: seq<seq<byte>>, outLen: nat) returns (out: seq<byte>)
    requires EightWords(f) && 1 <= outLen <= 64
    ensures out == Words(Hash(f, start, Joined(pieces)))[..outLen]
  {
    hide Hash, Words;
    var s := new Stream(f, start, outLen);
    for i := 0 to |pieces|
      invariant s.Valid() && s.fed == Joined(pieces[..i])
    {
      assert pieces[..i + 1][..i] == pieces[..i];
      s.Update(pieces[i]);
    }
    assert pieces[..|pieces|] == pieces;
    out := s.Finalize();
  }

  function Joined(pieces: seq<seq<byte>>): seq<byte> {
    if pieces == [] then [] else Joined(pieces[..|pieces| - 1]) + pieces[|pieces| - 1]
  }
}
