/** The calls of the compression function that hash a message in src/hash.rs, one by one, as
    section 3.3 of RFC 7693 has them. */
module Blake2bTrace {
  import opened Bytes
  import opened Layout
  import opened Blake2b

  /** `hs` are the states after each of the blocks that others follow: every 128 bytes in their turn,
      counted with those before them, and not last. */
  ghost predicate Trace(f: Compress, h: State, msg: seq<byte>, hs: seq<State>) {
    && hs != [] && hs[0] == h && 128 * (|hs| - 1) <= |msg|
    && forall i {:trigger hs[i]} :: 0 < i < |hs| ==> hs[i] == f(hs[i - 1], msg[128 * i - 128..128 * i], 128 * i, false)
  }

  lemma {:induction false} BlocksTrace(f: Compress, h: State, msg: seq<byte>, n: nat) returns (hs: seq<State>)
    requires 128 * n <= |msg|
    ensures Trace(f, h, msg, hs) && |hs| == n + 1 && hs[n] == Blocks(f, h, msg, n)
  {
    if n == 0 {
      hs := [h];
    } else {
      var front := BlocksTrace(f, h, msg, n - 1);
      hs := front + [Blocks(f, h, msg, n)];
    }
  }

  /** The hash of a message: all blocks but the last, which is never empty but for the empty message, and
      then the last, filled up with zeros, counted by the length of the message. */
  lemma {:induction false} HashByCalls(f: Compress, h: State, msg: seq<byte>)
    ensures exists hs, last ::
              var n := |hs| - 1;
              && Trace(f, h, msg, hs) && (128 * n < |msg| <= 128 * n + 128 || (n == 0 && msg == []))
              && |last| == 128 && (forall j :: 0 <= j < 128 ==> last[j] == if 128 * n + j < |msg| then msg[128 * n + j] else 0)
              && Hash(f, h, msg) == f(hs[n], last, |msg|, true)
  {
    var n := Blake2b.Before(|msg|);
    var hs := BlocksTrace(f, h, msg, n);
    var last := Padded(msg[128 * n..]);
    assert forall j :: 0 <= j < 128 ==> last[j] == if 128 * n + j < |msg| then msg[128 * n + j] else 0;
  }

  /** The digest: the words of the state, least significant byte first. */
  lemma {:induction false} DigestByPosition(h: State, i: nat)
    requires i < |h| && forall k :: 0 <= k < |h| ==> h[k] < U64
    ensures |Words(h)| == 8 * |h| && Word8(Words(h), 8 * i) == h[i]
  {
    hide Le, Word8, Holds;
    var s, rest := Words(h), Words(h[1..]);
    LeIsWord8(h[0]);
    Cut(s, 0, Le(h[0], 8), rest);
    if i == 0 {
      Word8Within(s, 0, Le(h[0], 8), 0);
    } else {
      DigestByPosition(h[1..], i - 1);
      Cut(s, 8, rest, []);
      Word8Within(s, 8, rest, 8 * (i - 1));
    }
  }
}
