/** Fragment reassembly (`reassemble` of crates/syauth-transport/src/bluez.rs). */
module Fragments {
  import opened Basics

  type Segment = Bytes

  /** The high bit of the header byte. */
  predicate More(header: byte) {
    header >= 0x80
  }

  /** Of a header byte the high bit decides and the low seven bits are ignored. */
  lemma HeaderDecides(header: byte, low: byte)
    requires low < 128 && (header == low || header == 128 + low)
    ensures More(header) <==> header == 128 + low
  {
  }

  /** Non-empty, every segment has a header, and exactly the last one clears the more bit. */
  ghost predicate WellFlagged(segments: seq<Segment>) {
    && segments != []
    && (forall i :: 0 <= i < |segments| ==> |segments[i]| >= 1)
    && (forall i :: 0 <= i < |segments| - 1 ==> More(segments[i][0]))
    && !More(segments[|segments| - 1][0])
  }

  /** The segments without their headers, concatenated. */
  function Payload(segments: seq<Segment>): Bytes
    requires forall i :: 0 <= i < |segments| ==> |segments[i]| >= 1
  {
    if segments == [] then []
    else Payload(segments[..|segments| - 1]) + segments[|segments| - 1][1..]
  }

  method Reassemble(segments: seq<Segment>) returns (r: Option<Bytes>)
    ensures r.Some? <==> WellFlagged(segments)
    ensures r.Some? ==> r.value == Payload(segments)
  {
    if segments == [] {
      return None;
    }
    var last := |segments| - 1;
    var out: Bytes := [];
    for i := 0 to |segments|
      invariant forall j :: 0 <= j < i ==> |segments[j]| >= 1
      invariant forall j :: 0 <= j < i && j < last ==> More(segments[j][0])
      invariant i > last ==> !More(segments[last][0])
      invariant out == Payload(segments[..i])
    {
      var segment := segments[i];
      if |segment| < 1 {
        return None;
      }
      var more := More(segment[0]);
      if i == last && more {
        return None;
      }
      if i != last && !more {
        return None;
      }
      assert segments[..i + 1][..i] == segments[..i];
      out := out + segment[1..];
    }
    assert segments[..|segments|] == segments;
    r := Some(out);
  }

  /** A split of a frame: the chunks, and the low seven header bits a sender may put in each segment. */
  ghost predicate IsSplit(segments: seq<Segment>, chunks: seq<Bytes>) {
    && |segments| == |chunks| > 0
    && forall i :: 0 <= i < |chunks| ==>
         |segments[i]| >= 1 && segments[i][1..] == chunks[i] && (More(segments[i][0]) <==> i < |chunks| - 1)
  }

  function Concat(chunks: seq<Bytes>): Bytes {
    if chunks == [] then [] else Concat(chunks[..|chunks| - 1]) + chunks[|chunks| - 1]
  }

  lemma {:induction false} PayloadOfChunks(segments: seq<Segment>, chunks: seq<Bytes>)
    requires |segments| == |chunks|
    requires forall i :: 0 <= i < |chunks| ==> |segments[i]| >= 1 && segments[i][1..] == chunks[i]
    ensures Payload(segments) == Concat(chunks)
  {
    if chunks != [] {
      PayloadOfChunks(segments[..|segments| - 1], chunks[..|chunks| - 1]);
    }
  }

  /** Every split of a frame, however cut, is accepted and reassembles to the frame. */
  lemma SplitReassembles(segments: seq<Segment>, chunks: seq<Bytes>)
    requires IsSplit(segments, chunks)
    ensures WellFlagged(segments) && Payload(segments) == Concat(chunks)
  {
    PayloadOfChunks(segments, chunks);
  }

  /** Accepted lists are self-delimiting: a stream of segments starts with at most one of them,
      so no proper prefix of an accepted list is accepted. */
  lemma AcceptedListsAreSelfDelimiting(xs: seq<Segment>, ys: seq<Segment>, afterX: seq<Segment>, afterY: seq<Segment>)
    requires WellFlagged(xs) && WellFlagged(ys) && xs + afterX == ys + afterY
    ensures xs == ys && afterX == afterY
  {
    var all := xs + afterX;
    assert forall i :: 0 <= i < |xs| ==> all[i] == xs[i];
    assert forall i :: 0 <= i < |ys| ==> all[i] == ys[i];
    if |xs| < |ys| {
      assert false;
    } else if |ys| < |xs| {
      assert false;
    }
    assert xs == all[..|xs|] && ys == all[..|ys|];
    assert afterX == all[|xs|..] && afterY == all[|ys|..];
  }
}
