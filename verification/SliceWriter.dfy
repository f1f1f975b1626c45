/** Appending to a caller's buffer: `SliceWriter` of src/bech32.rs. */
module SliceWriters {
  import opened Bytes

  class SliceWriter {
    const out: array<byte>
    var pos: nat

    constructor (out: array<byte>)
      ensures Valid() && this.out == out && Written() == []
    {
      this.out, pos := out, 0;
    }

    ghost predicate Valid()
      reads this
    {
      pos <= out.Length
    }

    ghost function Written(): (s: seq<byte>)
      requires Valid()
      reads this, out
      ensures |s| == pos
    {
      out[..pos]
    }

    method Push(b: byte) returns (ok: bool)
      requires Valid()
      modifies this`pos, out
      ensures Valid() && ok == (old(pos) < out.Length)
      ensures Written() == if ok then old(Written()) + [b] else old(Written())
    {
      ok := pos < out.Length;
      if ok {
        out[pos] := b;
        pos := pos + 1;
      }
    }

    method PushSlice(s: seq<byte>) returns (ok: bool)
      requires Valid()
      modifies this`pos, out
      ensures Valid() && ok == (old(pos) + |s| <= out.Length)
      ensures Written() == if ok then old(Written()) + s else old(Written())
    {
      ok := pos + |s| <= out.Length;
      if ok {
        forall i | 0 <= i < |s| {
          out[pos + i] := s[i];
        }
        assert out[pos..pos + |s|] == s && out[..pos] == old(out[..pos]);
        pos := pos + |s|;
      }
    }
  }
}
