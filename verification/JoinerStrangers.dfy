/** What a BBQr joiner, src/bbqr.rs, does with any part at all: which it takes, which it refuses
    and why, and what parts of other files do to a file. */
module JoinerStrangers {
  import opened Options
  import opened Bytes
  import opened Bbqr
  import opened Joiner

  /** The part says another encoding, file type or number of parts. */
  predicate OtherFile(h: Header, file: Header) {
    h.encoding != file.encoding || h.fileType != file.fileType || h.numParts != file.numParts
  }

  /** What becomes of a part that decodes to this header and data, once parts of a file have come:
      one of another file, or other data in place of what is known, is refused; what is known is
      ignored; what would go over the limit is refused; and anything else is recorded. */
  lemma {:induction false} LaterPart(v: View, part: seq<byte>, h: Header, data: seq<byte>)
    requires ViewOk(v) && v.header.Some? && DecodedPart(part, RoomFor(part)) == Ok((h, data))
    ensures OtherFile(h, v.header.value) ==> Received(v, part) == (v, Err(InconsistentPart))
    ensures !OtherFile(h, v.header.value) ==>
              && h.index < |v.parts| == h.numParts
              && Received(v, part) ==
                   match v.parts[h.index]
                   case Some(known) => (v, if known == data then Ok(IsComplete(v)) else Err(InconsistentPart))
                   case None =>
                     if TotalLen(v.parts) + |data| > v.maxLen then (v, Err(TooLarge))
                     else var w := v.(parts := v.parts[h.index := Some(data)]); (w, Ok(IsComplete(w)))
  {
    hide DecodedPart, TotalLen, IsComplete;
    HeaderIsValid(part);
  }

  /** The first part decides which file it is, unless it alone is over the limit. */
  lemma {:induction false} FirstPart(v: View, part: seq<byte>, h: Header, data: seq<byte>)
    requires ViewOk(v) && v.header.None? && DecodedPart(part, RoomFor(part)) == Ok((h, data))
    ensures |data| > v.maxLen ==> Received(v, part) == (v, Err(TooLarge))
    ensures |data| <= v.maxLen ==>
              var w, r := Received(v, part).0, Received(v, part).1;
              && w.maxLen == v.maxLen && w.header == Some(Header(h.encoding, h.fileType, h.numParts, 0)) && |w.parts| == h.numParts
              && (forall i :: 0 <= i < h.numParts ==> w.parts[i] == if i == h.index then Some(data) else None)
              && r == Ok(h.numParts == 1)
  {
    hide DecodedPart;
    HeaderIsValid(part);
    if |data| <= v.maxLen {
      var w := Received(v, part).0;
      if h.numParts > 1 {
        var other := if h.index == 0 then 1 else 0;
        assert w.parts[other] == None;
      }
    }
  }

  /** A text that is no part changes nothing, and the reason is told. */
  lemma {:induction false} NoPart(v: View, part: seq<byte>)
    requires ViewOk(v) && DecodedPart(part, RoomFor(part)).Err?
    ensures Received(v, part) == (v, Err(DecodedPart(part, RoomFor(part)).error))
  {
    hide DecodedPart;
  }

  // ----- streams with strangers in them -----

  /** A part of the file, or any other text. */
  datatype Sound = Own(index: nat) | Stray(text: seq<byte>)

  function OwnOf(stream: seq<Sound>): (own: seq<nat>) {
    if stream == [] then []
    else
      var last := stream[|stream| - 1];
      OwnOf(stream[..|stream| - 1]) + if last.Own? then [last.index] else []
  }

  function TextOf(parts: seq<seq<byte>>, s: Sound): seq<byte>
    requires s.Own? ==> s.index < |parts|
  {
    if s.Own? then parts[s.index] else s.text
  }

  /** What a joiner knows after any texts. */
  ghost function AfterAll(maxLen: nat, parts: seq<seq<byte>>, stream: seq<Sound>): (v: View)
    requires forall k :: 0 <= k < |stream| && stream[k].Own? ==> stream[k].index < |parts|
    ensures ViewOk(v)
    decreases |stream|
  {
    if stream == [] then After(maxLen, parts, [])
    else
      var v := AfterAll(maxLen, parts, stream[..|stream| - 1]);
      ReceivedKeeps(v, TextOf(parts, stream[|stream| - 1]));
      Received(v, TextOf(parts, stream[|stream| - 1])).0
  }

  /** Strays are no parts, or parts of files of another encoding, type or number of parts, and these
      come only once a part of the file itself has: nothing else tells files apart in BBQr. */
  ghost predicate Mingled(parts: seq<seq<byte>>, file: Header, stream: seq<Sound>) {
    forall k :: 0 <= k < |stream| ==>
      match stream[k]
      case Own(index) => index < |parts|
      case Stray(text) =>
        var decoded := DecodedPart(text, RoomFor(text));
        decoded.Err? || (OtherFile(decoded.value.0, file) && OwnOf(stream[..k]) != [])
  }

  lemma {:induction false} MingledPrefix(parts: seq<seq<byte>>, file: Header, stream: seq<Sound>)
    requires Mingled(parts, file, stream) && stream != []
    ensures Mingled(parts, file, stream[..|stream| - 1])
  {
    hide DecodedPart, OtherFile, OwnOf;
    var front := stream[..|stream| - 1];
    assert forall k :: 0 <= k < |front| ==> front[k] == stream[k] && front[..k] == stream[..k];
  }

  lemma {:induction false} OwnBelow(parts: seq<seq<byte>>, stream: seq<Sound>)
    requires forall k :: 0 <= k < |stream| && stream[k].Own? ==> stream[k].index < |parts|
    ensures forall k :: 0 <= k < |OwnOf(stream)| ==> OwnOf(stream)[k] < |parts|
  {
    if stream != [] {
      OwnBelow(parts, stream[..|stream| - 1]);
    }
  }

  /** Strays leave no trace. */
  lemma {:induction false} StraysLeaveNoTrace(
      maxLen: nat, parts: seq<seq<byte>>, e: Encoding, fileType: byte, chunks: seq<seq<byte>>, stream: seq<Sound>)
    requires PartsOf(parts, e, fileType, chunks) && maxLen >= |Concat(chunks)|
    requires Mingled(parts, Header(e, fileType, |parts|, 0), stream)
    ensures (forall k :: 0 <= k < |stream| && stream[k].Own? ==> stream[k].index < |parts|)
    ensures (forall k :: 0 <= k < |OwnOf(stream)| ==> OwnOf(stream)[k] < |parts|)
    ensures AfterAll(maxLen, parts, stream) == After(maxLen, parts, OwnOf(stream))
    decreases |stream|
  {
    hide PartsOf, Concat, DecodedPart, OtherFile, Received, Mingled;
    var file := Header(e, fileType, |parts|, 0);
    MingledIndexes(parts, file, stream);
    OwnBelow(parts, stream);
    if stream != [] {
      var k := |stream| - 1;
      MingledPrefix(parts, file, stream);
      StraysLeaveNoTrace(maxLen, parts, e, fileType, chunks, stream[..k]);
      var own := OwnOf(stream[..k]);
      if stream[k].Own? {
        assert OwnOf(stream)[..|own|] == own;
      } else {
        assert OwnOf(stream) == own;
        StrayIsIgnored(maxLen, parts, e, fileType, chunks, stream, k);
      }
    }
  }

  lemma {:induction false} MingledIndexes(parts: seq<seq<byte>>, file: Header, stream: seq<Sound>)
    requires Mingled(parts, file, stream)
    ensures forall k :: 0 <= k < |stream| && stream[k].Own? ==> stream[k].index < |parts|
  {
    hide DecodedPart, OtherFile, OwnOf;
  }

  lemma {:induction false} StrayIsIgnored(
      maxLen: nat, parts: seq<seq<byte>>, e: Encoding, fileType: byte, chunks: seq<seq<byte>>, stream: seq<Sound>, k: nat)
    requires PartsOf(parts, e, fileType, chunks) && maxLen >= |Concat(chunks)| && k < |stream| && stream[k].Stray?
    requires Mingled(parts, Header(e, fileType, |parts|, 0), stream)
    requires forall j :: 0 <= j < |OwnOf(stream[..k])| ==> OwnOf(stream[..k])[j] < |parts|
    ensures var v := After(maxLen, parts, OwnOf(stream[..k])); Received(v, stream[k].text).0 == v
  {
    hide PartsOf, Concat, DecodedPart, OtherFile, Received, OwnOf;
    var own, text := OwnOf(stream[..k]), stream[k].text;
    var v, decoded := After(maxLen, parts, own), DecodedPart(text, RoomFor(text));
    if decoded.Err? {
      NoPart(v, text);
    } else {
      StreamIsTaken(maxLen, parts, e, fileType, chunks, own);
      LaterPart(v, text, decoded.value.0, decoded.value.1);
    }
  }

  /** All the parts of a file, in any order and with strays between them, are joined into the data that
      was cut. */
  lemma {:induction false} JoinAmongStrays(
      data: seq<byte>, fileType: byte, e: Encoding, maxPartLen: nat, maxLen: nat, stream: seq<Sound>,
      inflate: (seq<byte>, nat) -> Result<seq<byte>>)
    requires SplitRaw(data, fileType, e, maxPartLen).Ok? && IsFileType(fileType) && maxLen >= |data|
    requires var parts := SplitRaw(data, fileType, e, maxPartLen).value;
             && Mingled(parts, Header(e, fileType, |parts|, 0), stream)
             && (forall i: nat :: i < |parts| ==> i in OwnOf(stream))
    ensures var parts := SplitRaw(data, fileType, e, maxPartLen).value;
            && (forall k :: 0 <= k < |stream| && stream[k].Own? ==> stream[k].index < |parts|)
            && IsComplete(AfterAll(maxLen, parts, stream))
            && (e != Zlib ==> Joined(AfterAll(maxLen, parts, stream), inflate) == Ok((fileType, data)))
  {
    hide SplitRaw, PartsOf, Concat, After, AfterAll, Mingled, OwnOf, IsComplete, Joined;
    var parts := SplitRaw(data, fileType, e, maxPartLen).value;
    SplitMakesParts(data, fileType, e, maxPartLen);
    var chunks :| PartsOf(parts, e, fileType, chunks) && Concat(chunks) == data;
    StraysLeaveNoTrace(maxLen, parts, e, fileType, chunks, stream);
    JoinInvertsSplit(data, fileType, e, maxPartLen, maxLen, OwnOf(stream), inflate);
  }
}
