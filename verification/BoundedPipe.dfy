/**
  The bounded pipe reader: keeps the first bytes of a stream, drains the rest, and
  marks a truncation. What it keeps depends on the stream alone, not on how the
  stream arrives in reads.
 */
module BoundedPipe {
  import opened Common

  /** One `read` call; `Data([])` is the end of the stream. */
  datatype ReadResult = Data(bytes: seq<Byte>) | Interrupted | Failed

  /** "[output truncated]" between two newlines. */
  const TRUNCATION_MARKER: seq<Byte> :=
    [10, 91, 111, 117, 116, 112, 117, 116, 32, 116, 114, 117, 110, 99, 97, 116, 101, 100, 93, 10]

  /** The bytes before the end or the first error; interruptions are retried. */
  function Stream(calls: seq<ReadResult>): seq<Byte> {
    if calls == [] then []
    else match calls[0]
      case Data(bytes) => if bytes == [] then [] else bytes + Stream(calls[1..])
      case Interrupted => Stream(calls[1..])
      case Failed => []
  }

  /** What a reader delivers for a stream. */
  function Kept(stream: seq<Byte>, limit: Option<nat>): seq<Byte> {
    if limit.None? || |stream| <= limit.value then stream
    else stream[..limit.value] + TRUNCATION_MARKER
  }

  function Min(a: nat, b: nat): nat {
    if a < b then a else b
  }

  /** The reader thread's loop, for every way the stream can be cut into reads. */
  method ReadBounded(calls: seq<ReadResult>, limit: nat) returns (kept: seq<Byte>)
    ensures kept == Kept(Stream(calls), Some(limit))
  {
    kept := [];
    var truncated := false;
    var i := 0;
    ghost var seen: seq<Byte> := [];
    while i < |calls|
      invariant 0 <= i <= |calls|
      invariant Stream(calls) == seen + Stream(calls[i..])
      invariant kept == seen[..Min(limit, |seen|)]
      invariant truncated <==> |seen| > limit
      decreases |calls| - i
    {
      assert calls[i..][1..] == calls[i + 1..];
      if calls[i].Failed? || calls[i] == Data([]) {
        break;
      }
      if calls[i].Data? {
        var bytes := calls[i].bytes;
        var room := if |kept| < limit then limit - |kept| else 0;
        var keep := Min(|bytes|, room);
        kept := kept + bytes[..keep];
        truncated := truncated || keep < |bytes|;
        seen := seen + bytes;
      }
      i := i + 1;
    }
    assert Stream(calls) == seen;
    if truncated {
      kept := kept + TRUNCATION_MARKER;
    }
  }

  /** Cutting the same stream differently, with any interruptions, changes nothing; and the
      marker is there exactly when bytes were dropped. */
  lemma ChunkingIsInvisible(a: seq<ReadResult>, b: seq<ReadResult>, limit: nat)
    requires Stream(a) == Stream(b)
    ensures Kept(Stream(a), Some(limit)) == Kept(Stream(b), Some(limit))
    ensures |Kept(Stream(a), Some(limit))| <= limit + |TRUNCATION_MARKER|
    ensures Kept(Stream(a), Some(limit)) == Stream(a) <==> |Stream(a)| <= limit || Stream(a)[limit..] == TRUNCATION_MARKER
  {
    var s := Stream(a);
    if |s| > limit {
      assert s == s[..limit] + s[limit..];
      if Kept(s, Some(limit)) == s {
        assert s[limit..] == (s[..limit] + TRUNCATION_MARKER)[limit..];
      }
    }
  }

  /** All the bytes of a list of reads. */
  function Joined(calls: seq<ReadResult>): seq<Byte> {
    if calls == [] then [] else (if calls[0].Data? then calls[0].bytes else []) + Joined(calls[1..])
  }

  /** However a stream is cut and interrupted before its end, the reader sees all of it. */
  lemma {:induction false} CutAnywhere(pieces: seq<ReadResult>)
    requires forall i :: 0 <= i < |pieces| ==> pieces[i].Interrupted? || (pieces[i].Data? && pieces[i].bytes != [])
    ensures Stream(pieces + [Data([])]) == Joined(pieces)
  {
    var all := pieces + [Data([])];
    if pieces != [] {
      assert all[0] == pieces[0] && all[1..] == pieces[1..] + [Data([])];
      CutAnywhere(pieces[1..]);
    }
  }
}
